# Spam checker: the mail-domain resolver, modelled in Dafny

The resolver keeps a store (`Index`) of mail domains and mail servers. A domain record has:
- a classification: UNKNOWN, DISPOSABLE, ALIAS, REGULAR, DEAD or MIXED;
- the heuristic that produced the classification;
- the mail servers it lists;
- a service or a list of potential services.

A mail-server record holds the resolved addresses of the server and a classification.

**Looking up a domain.** `query` returns a domain that is already stored. Otherwise it enters the domain:
- it asks DNS for the domain's MX targets, or takes the domain itself as the implicit MX;
- it resolves each new host and stores it;
- it marks the domain DEAD when nothing resolves.

It then guesses a classification. The guess comes first from the kinds of the domain's mail servers (heuristic MX). Failing that, it comes from the classifications of the servers' addresses in a cross-reference index built once per batch (heuristic IP). The index also supplies the services to propose.

**Batches and aggregation.**
- `load(file)` and `classify` query the domains of an input file.
- `load(file, classification)` enters new domains with a given kind. Each new domain gets the service in force at its first line: set by the last `#` header, cleared by a blank line or an empty header. A domain already in the store is skipped and keeps its own record.
- After a batch, `updateClassifications` recomputes every mail server's kind from the domains that list it.

**Export.** `toStorage`, `xref` and `sort` write the store as a canonical, cross-referenced document of domains, mail servers, services and hosts. `toDb` reads such a document back.

**WHOIS.** A separate tool, `WhoisResolver`:
- parses `key: value` WHOIS responses;
- follows one referral from the default WHOIS host to the registrar's own server.

## Structure of the model

- `Lattice`: the classification values and the two merge operators. Each operator is proved to be a fold over a *set* of classifications (`CombineAll`, `AnyDisposableAll`). So every loop that folds them gives the same result in any iteration order.
- `Text`: the parts of the Java string library the resolver depends on: lower-casing, `trim`, `compareTo`, and the two `sorted` helpers.
- `Records`: the store's records, the cross-reference index and the DNS oracle.
- `CrossRef`, `Aggregation`, `Resolution`, `Batch`: reference definitions, written as functions of the store's contents, plus the lemmas that state what the source promises about them.
- `Store`: the class `Index`, holding the two maps the source mutates. It has imperative methods for every operation of the resolver, and each method is proved equal to its reference definition.
- `Export`: `toStorage`, `xref`, `sort` and `toDb`. The loops are methods, proved against the specification `Exported`.
- `ExportFacts`: what the export promises:
  - it is canonical;
  - it covers the whole store;
  - its cross references agree in both directions;
  - reading it back gives the store in normal form;
  - exporting that again gives the same document.
- `Whois`: `parse` and the referral decision of `query`.

The resolver's code and its design description disagree on one point, and the model follows the code. By the description, a host that fails to resolve leaves the store unchanged. The code instead stores the new host before resolving it, so a host that fails stays in the store with no addresses. A later domain that lists that host then finds it and accepts it without a DNS question, and so does a repeated MX target of the same domain. `Resolution.FailedHostReused` and `Resolution.AcceptedIff` state the behaviour.

## Model

| member | source | states |
|---|---|---|
| Lattice.Combine | src/main/java/com/github/spamchecker/MxResolver.java:349-359 | combining two classifications is the set fold `CombineAll` of the pair: UNKNOWN if neither is known, the known value if they agree, MIXED otherwise |
| Lattice.AnyDisposable | src/main/java/com/github/spamchecker/MxResolver.java:361-378 | the pairwise guess operator is the set fold `AnyDisposableAll` of the pair: DISPOSABLE decides, otherwise as `Combine` |
| Lattice.CombineLaws | src/main/java/com/github/spamchecker/MxResolver.java:349-359 | UNKNOWN is a two-sided identity; the operator is idempotent, commutative and associative; distinct known values give MIXED; MIXED absorbs |
| Lattice.AnyDisposableLaws | src/main/java/com/github/spamchecker/MxResolver.java:361-378 | the same identity, idempotence, commutativity and associativity; DISPOSABLE beats every other known value; other distinct known values give MIXED |
| Lattice.CombineRepeat | src/main/java/com/github/spamchecker/MxResolver.java:349-359 | combining the same value twice is combining it once |
| Lattice.CombineAllUnknown | src/main/java/com/github/spamchecker/MxResolver.java:349-359 | the fold is UNKNOWN exactly when no known value is folded |
| Lattice.CombineAllUniform | src/main/java/com/github/spamchecker/MxResolver.java:349-359 | when every known value is `k` and `k` occurs, the fold is `k` |
| Lattice.CombineAllConflict | src/main/java/com/github/spamchecker/MxResolver.java:349-359 | two distinct known values make the fold MIXED |
| Lattice.CombineAllInsert | src/main/java/com/github/spamchecker/MxResolver.java:349-359 | one more `combine` step folds one more element into the set, whatever the order |
| Lattice.AnyDisposableAllInsert | src/main/java/com/github/spamchecker/MxResolver.java:361-378 | one more `anyDisposable` step folds one more element into the set, whatever the order |
| Text.SortSet | src/main/java/com/github/spamchecker/MxResolver.java:276-280 | the static `sorted` of a set gives its elements in strictly increasing order: the one list `SortedSet` |
| Text.SortedDistinct | src/main/java/com/github/spamchecker/MxResolver.java:658-660 | `sorted().distinct()` of a list is the strictly sorted list of its elements |
| Text.SortedUnique | src/main/java/com/github/spamchecker/MxResolver.java:658-660 | two strictly sorted lists with the same elements are equal, so the sorted output is unique |
| CrossRef.ServicesByMxReach | src/main/java/com/github/spamchecker/MxResolver.java:282-296 | a service is attached to a mail server iff some domain naming that single service lists the server |
| CrossRef.ServicesByAddressReach | src/main/java/com/github/spamchecker/MxResolver.java:298-315 | a service is attached to an address iff some domain naming that single service lists a mail server holding the address |
| CrossRef.XRefIgnoresPotentialServices | src/main/java/com/github/spamchecker/MxResolver.java:282-315 | the index does not depend on the domains' potential services |
| Aggregation.Aggregated | src/main/java/com/github/spamchecker/MxResolver.java:321-334 | the aggregation pass keeps every domain, every mail-server name and every address list |
| Aggregation.UnlistedIsUnknown | src/main/java/com/github/spamchecker/MxResolver.java:322-325 | a mail server that no domain lists ends UNKNOWN |
| Aggregation.UniformListing | src/main/java/com/github/spamchecker/MxResolver.java:328-333 | a server listed only by domains of one known kind takes that kind |
| Aggregation.ConflictingListing | src/main/java/com/github/spamchecker/MxResolver.java:328-333 | a server listed by domains of two distinct known kinds becomes MIXED |
| Aggregation.AggregatedFromScratch | src/main/java/com/github/spamchecker/MxResolver.java:321-334 | the kinds the servers had before the pass play no part in the result |
| Aggregation.AggregatedIdempotent | src/main/java/com/github/spamchecker/MxResolver.java:321-334 | running the pass twice is running it once |
| Resolution.MxEnteredReuses | src/main/java/com/github/spamchecker/MxResolver.java:467-469 | a known host is reused as it is and listed, whatever DNS would answer |
| Resolution.EnterAllSnoc | src/main/java/com/github/spamchecker/MxResolver.java:437-447 | entering one more MX target is one more `enterMx` step after the earlier ones |
| Resolution.EnterAllMap | src/main/java/com/github/spamchecker/MxResolver.java:467-483 | every target gets a record; existing records are unchanged; a new record holds its host's resolved addresses or none; only targets are listed |
| Resolution.AcceptedIff | src/main/java/com/github/spamchecker/MxResolver.java:436-447 | a target is listed iff it was already known, or it resolves, or it occurs more than once among the targets |
| Resolution.NoneAccepted | src/main/java/com/github/spamchecker/MxResolver.java:436-451 | nothing is listed iff every target is new, fails to resolve and occurs once |
| Resolution.FailedHostReused | src/main/java/com/github/spamchecker/MxResolver.java:467-483 | a new host that fails stays stored with no addresses and is not listed; entering it again lists it without a DNS question |
| Resolution.FilledWithoutMx | src/main/java/com/github/spamchecker/MxResolver.java:427-434 | without MX records the domain is its own mail server: listed when known or resolvable, otherwise DEAD with NO_FALLBACK_MX |
| Resolution.FilledWithMx | src/main/java/com/github/spamchecker/MxResolver.java:435-452 | with MX records the record is DEAD with NO_RESOLVABLE_MX iff nothing was listed, otherwise it keeps kind and heuristic and lists the accepted targets |
| Resolution.EnteredProps | src/main/java/com/github/spamchecker/MxResolver.java:415-422 | entering keeps the store well formed, stores the record under the lower-cased name with the given service, and changes no other domain and no existing mail server |
| Resolution.GuessedKeepsServers | src/main/java/com/github/spamchecker/MxResolver.java:248-265 | the guess leaves the record's mail-server list alone |
| Resolution.QueriedKnown | src/main/java/com/github/spamchecker/MxResolver.java:224-227 | a stored domain is returned as stored and nothing changes |
| Resolution.QueriedNew | src/main/java/com/github/spamchecker/MxResolver.java:229-265 | a new domain is entered once under its lower-cased name; the store stays well formed and no existing mail server changes |
| Resolution.QueriedProps | src/main/java/com/github/spamchecker/MxResolver.java:223-266 | querying a lower-case name stores the returned record under that name and changes nothing else that was stored |
| Resolution.QueriedTwice | src/main/java/com/github/spamchecker/MxResolver.java:223-227 | querying a lower-case name again returns the same record and changes nothing, with any index and DNS |
| Resolution.QueriedDeadKept | src/main/java/com/github/spamchecker/MxResolver.java:262-265 | a domain DNS shows DEAD keeps its kind and its DNS-failure heuristic through the guess |
| Resolution.DisposableServerDecides | src/main/java/com/github/spamchecker/MxResolver.java:235-253 | one DISPOSABLE mail server makes the guess DISPOSABLE with heuristic MX |
| Resolution.AddressEvidence | src/main/java/com/github/spamchecker/MxResolver.java:239-260 | when the servers give no evidence, the record takes the fold of its addresses' classifications with heuristic IP |
| Resolution.WithServiceProps | src/main/java/com/github/spamchecker/MxResolver.java:268-274 | one candidate becomes the service; otherwise the potential services are exactly the candidates, strictly sorted, empty when there are none; nothing else changes |
| Batch.DomainOf | src/main/java/com/github/spamchecker/MxResolver.java:152-159 | a domain line gives a non-empty lower-case name; `#` lines and blank lines give none |
| Batch.BatchDomains | src/main/java/com/github/spamchecker/MxResolver.java:151-164 | every domain of a batch is non-empty and lower-case |
| Batch.HeaderService | src/main/java/com/github/spamchecker/MxResolver.java:386-391 | a header names a non-empty, already trimmed service, or none |
| Batch.HeaderScope | src/main/java/com/github/spamchecker/MxResolver.java:385-398 | a header names the service of every domain line after it, up to the next header or blank line |
| Batch.BlankScope | src/main/java/com/github/spamchecker/MxResolver.java:394-398 | after a blank line, domain lines carry no service until the next header |
| Batch.LoadEntriesDomains | src/main/java/com/github/spamchecker/MxResolver.java:385-406 | a classified load sees exactly the batch's domain lines, in order |
| Batch.QueryAllProps | src/main/java/com/github/spamchecker/MxResolver.java:151-164 | querying a batch keeps the store well formed, adds exactly the batch's domains, changes nothing stored, and returns each domain's final record |
| Batch.ClassifiedProps | src/main/java/com/github/spamchecker/MxResolver.java:176-204 | the batch result is well formed and has one record per batch domain, the same record the store keeps; its mail servers are those its domains list, each aggregated over the batch's domains and shared with the store |
| Batch.EnterOneProps | src/main/java/com/github/spamchecker/MxResolver.java:400-405 | a present domain is skipped; a new one is added with the batch's kind or DEAD, no potential services and the service passed in |
| Batch.EnterNewProps | src/main/java/com/github/spamchecker/MxResolver.java:385-406 | entering keeps the store well formed, adds exactly the entries' domains, leaves present domains alone, and gives new ones the batch's kind or DEAD |
| Batch.EnteredKind | src/main/java/com/github/spamchecker/MxResolver.java:415-422 | an entered domain keeps the kind it was entered with unless DNS shows it DEAD |
| Batch.LoadedClassifiedKeeps | src/main/java/com/github/spamchecker/MxResolver.java:380-413 | a classified load keeps the store well formed, adds exactly the batch's domains and never touches a domain already stored |
| Batch.EnterNewService | src/main/java/com/github/spamchecker/MxResolver.java:385-405 | a domain new to the store is entered with the service in force at its first line (last `#` header, cleared by a blank line or empty header); later lines naming it change nothing |
| Batch.LoadedClassifiedService | src/main/java/com/github/spamchecker/MxResolver.java:380-413 | after the aggregation pass, a domain new to the store still has the service in force at its first line of the batch |
| Store.SetService | src/main/java/com/github/spamchecker/MxResolver.java:268-274 | `setService` computes `WithService`, whose properties `WithServiceProps` states |
| Store.GuessFromAddresses | src/main/java/com/github/spamchecker/MxResolver.java:239-243 | the address loop folds `anyDisposable` over the addresses' index classifications and collects their services |
| Store.AddToEach | src/main/java/com/github/spamchecker/MxResolver.java:290-292 | `computeIfAbsent(...).add` for each key adds the service to exactly those keys |
| Store.CombineEach | src/main/java/com/github/spamchecker/MxResolver.java:341-343 | each listed address is combined with the server's kind; no other entry changes |
| Store.Index.constructor | src/main/java/com/github/spamchecker/MxResolver.java:171 | a new store is empty |
| Store.Index.EnterMx | src/main/java/com/github/spamchecker/MxResolver.java:467-483 | `enterMx` computes `MxEntered` on the mail-server map and leaves the domains alone |
| Store.Index.FillFromDns | src/main/java/com/github/spamchecker/MxResolver.java:424-453 | `fillFromDNS` computes `Filled` and leaves the domains alone |
| Store.Index.EnterDomain | src/main/java/com/github/spamchecker/MxResolver.java:415-422 | `enterDomain` computes `Entered` on the store |
| Store.Index.Guess | src/main/java/com/github/spamchecker/MxResolver.java:231-265 | the guessing loops and the decision compute `Guessed` |
| Store.Index.Query | src/main/java/com/github/spamchecker/MxResolver.java:223-266 | `query(domain, index)` keeps the store well formed and computes `Queried` |
| Store.Index.QueryDomain | src/main/java/com/github/spamchecker/MxResolver.java:210-213 | `query(domain)` is `Queried` against the index of the store as it was |
| Store.Index.BuildAddressClassification | src/main/java/com/github/spamchecker/MxResolver.java:336-347 | each address gets the `combine` fold of the kinds of all servers holding it |
| Store.Index.BuildServicesByMx | src/main/java/com/github/spamchecker/MxResolver.java:282-296 | the loop computes `ServicesByMx` |
| Store.Index.AddToAddresses | src/main/java/com/github/spamchecker/MxResolver.java:306-312 | one domain's service is added to exactly the addresses of its mail servers |
| Store.Index.BuildServicesByAddress | src/main/java/com/github/spamchecker/MxResolver.java:298-315 | the loop computes `ServicesByAddress` |
| Store.Index.BuildIndex | src/main/java/com/github/spamchecker/MxResolver.java:215-221 | `buildIndex` computes `XRef` of the store |
| Store.Index.ResetKinds | src/main/java/com/github/spamchecker/MxResolver.java:322-325 | every server's kind becomes UNKNOWN and nothing else changes |
| Store.Index.CombineKinds | src/main/java/com/github/spamchecker/MxResolver.java:329-332 | each server one domain lists is combined with the domain's kind; nothing else changes |
| Store.Index.UpdateClassifications | src/main/java/com/github/spamchecker/MxResolver.java:321-334 | the pass computes `Aggregated` of the store |
| Store.Index.DumpDisposables | src/main/java/com/github/spamchecker/MxResolver.java:132-143 | the result is strictly sorted and holds exactly the DISPOSABLE domains |
| Store.Index.QueryLines | src/main/java/com/github/spamchecker/MxResolver.java:151-164 | the reading loop keeps the store well formed and computes `QueryAll` of the batch's domains |
| Store.Index.Load | src/main/java/com/github/spamchecker/MxResolver.java:145-168 | `load(file)` computes `Loaded` |
| Store.Index.CopyEach | src/main/java/com/github/spamchecker/MxResolver.java:199-201 | the store's record of each listed server is put into the batch; the batch's domains and other servers are unchanged |
| Store.Index.CopyMailServers | src/main/java/com/github/spamchecker/MxResolver.java:197-202 | the batch receives the store's record of exactly the servers its domains list |
| Store.Index.AdoptMailServers | src/main/java/com/github/spamchecker/MxResolver.java:197-203 | the store's records of the batch's servers take the batch's values, as the shared records do |
| Store.Index.Classify | src/main/java/com/github/spamchecker/MxResolver.java:170-204 | `classify` creates a fresh batch store and computes `Classified` for the store and the batch |
| Store.Index.LoadClassified | src/main/java/com/github/spamchecker/MxResolver.java:380-413 | `load(file, classification)` computes `LoadedClassified` |
| Export.Extend | src/main/java/com/github/spamchecker/MxResolver.java:564-571 | `computeIfAbsent(...).addAll` for each key adds the items to exactly those keys |
| Export.CollectAddresses | src/main/java/com/github/spamchecker/MxResolver.java:567-572 | the addresses of one domain's servers, collected server by server |
| Export.DomainList | src/main/java/com/github/spamchecker/MxResolver.java:530-542 | the domain section is the records of the domains in name order |
| Export.AddServiceDomains | src/main/java/com/github/spamchecker/MxResolver.java:562-578 | one more domain is added to the services it names |
| Export.AddServiceAddresses | src/main/java/com/github/spamchecker/MxResolver.java:567-585 | the addresses of one more domain are added to the services it names |
| Export.AddMxServices | src/main/java/com/github/spamchecker/MxResolver.java:567-583 | the services of one more domain are added to its servers |
| Export.AddMxDomains | src/main/java/com/github/spamchecker/MxResolver.java:588-591 | one more domain is added to its servers |
| Export.AddAddressDomains | src/main/java/com/github/spamchecker/MxResolver.java:593-595 | one more domain is added to the addresses of its servers |
| Export.PassDomains | src/main/java/com/github/spamchecker/MxResolver.java:560-597 | the first `xref` loop computes, for the domains passed, the tables of services, addresses, server services and domains |
| Export.AddServiceServers | src/main/java/com/github/spamchecker/MxResolver.java:604-607 | one more server is added to the services it carries |
| Export.AddAddressServices | src/main/java/com/github/spamchecker/MxResolver.java:609-611 | the services of one more server are added to its addresses |
| Export.AddAddressServers | src/main/java/com/github/spamchecker/MxResolver.java:612 | one more server is added to its addresses |
| Export.ServerEntry | src/main/java/com/github/spamchecker/MxResolver.java:601-602 | a server's record gets its sorted addresses, services and listing domains |
| Export.PassServers | src/main/java/com/github/spamchecker/MxResolver.java:599-614 | the second `xref` loop gives the server records and the tables by service and by address |
| Export.ServiceList | src/main/java/com/github/spamchecker/MxResolver.java:616-617 | the service section is the service records in name order |
| Export.HostList | src/main/java/com/github/spamchecker/MxResolver.java:619-628 | the host section is the host records in address order |
| Export.DomainMap | src/main/java/com/github/spamchecker/MxResolver.java:525 | for distinct names, the map holds exactly the listed domains with their records |
| Export.ServerMap | src/main/java/com/github/spamchecker/MxResolver.java:526 | for distinct names, the map holds exactly the listed servers with their records |
| Export.ToStorage | src/main/java/com/github/spamchecker/MxResolver.java:529-552 | `toStorage`, with `xref` and `sort`, computes `Exported` |
| ExportFacts.ExportedCanonical | src/main/java/com/github/spamchecker/MxResolver.java:633-656 | every section is in strictly increasing name order, and every list field is strictly sorted |
| ExportFacts.ExportedDomains | src/main/java/com/github/spamchecker/MxResolver.java:531-542 | the exported domains are exactly the store's domains |
| ExportFacts.ExportedServers | src/main/java/com/github/spamchecker/MxResolver.java:543-551 | the exported mail servers are exactly the store's mail servers |
| ExportFacts.ExportedServices | src/main/java/com/github/spamchecker/MxResolver.java:560-586 | the exported services are exactly those some domain names, as its service or a potential one |
| ExportFacts.ExportedHosts | src/main/java/com/github/spamchecker/MxResolver.java:619-628 | the exported hosts are exactly the addresses of the mail servers |
| ExportFacts.ServerDomainsAgree | src/main/java/com/github/spamchecker/MxResolver.java:588-602 | a server lists a domain iff that domain lists the server |
| ExportFacts.ServerServicesFromDomain | src/main/java/com/github/spamchecker/MxResolver.java:567-582 | a service named by a domain that lists a server is among the server's services |
| ExportFacts.ServerServicesToDomain | src/main/java/com/github/spamchecker/MxResolver.java:567-582 | each service of a server is named by some domain that lists it |
| ExportFacts.ServiceDomainsAgree | src/main/java/com/github/spamchecker/MxResolver.java:562-578 | a service lists a domain iff the domain names the service, as its service or a potential one |
| ExportFacts.ServiceServersAgree | src/main/java/com/github/spamchecker/MxResolver.java:601-607 | a service lists a server iff the server lists the service |
| ExportFacts.HostServersAgree | src/main/java/com/github/spamchecker/MxResolver.java:609-613 | a host lists a server iff the server holds the host's address |
| ExportFacts.HostServicesFromServer | src/main/java/com/github/spamchecker/MxResolver.java:609-611 | the services of a server holding an address are among the host's services |
| ExportFacts.HostServicesToServer | src/main/java/com/github/spamchecker/MxResolver.java:609-611 | each service of a host comes from a server holding its address |
| ExportFacts.HostDomainsFromDomain | src/main/java/com/github/spamchecker/MxResolver.java:588-595 | a domain listing a server that holds an address is among the host's domains |
| ExportFacts.HostDomainsToDomain | src/main/java/com/github/spamchecker/MxResolver.java:588-595 | each domain of a host lists a server holding its address |
| ExportFacts.ServiceAddressesFromDomain | src/main/java/com/github/spamchecker/MxResolver.java:567-585 | the addresses of the servers of a domain naming a service are among the service's addresses |
| ExportFacts.ServiceAddressesToDomain | src/main/java/com/github/spamchecker/MxResolver.java:567-585 | each address of a service belongs to a server of a domain naming it |
| ExportFacts.ExportedDistinct | src/main/java/com/github/spamchecker/MxResolver.java:541-551 | no domain name and no mail-server name appears twice, so `toDb` can read the export |
| ExportFacts.ReloadDomains | src/main/java/com/github/spamchecker/MxResolver.java:525 | reading the domain section back gives the store's domains with sorted, duplicate-free lists |
| ExportFacts.ReloadServers | src/main/java/com/github/spamchecker/MxResolver.java:526 | reading the server section back gives the store's servers with sorted, duplicate-free addresses |
| ExportFacts.ExportReloads | src/main/java/com/github/spamchecker/MxResolver.java:523-527 | `toDb` of the export is the store in normal form |
| ExportFacts.SameDomainTables | src/main/java/com/github/spamchecker/MxResolver.java:560-597 | the tables of the domain pass depend only on the elements of the lists, not on their order or repeats |
| ExportFacts.SameServerTables | src/main/java/com/github/spamchecker/MxResolver.java:599-614 | the tables of the server pass depend only on the elements of the address lists |
| ExportFacts.SameDomainRecords | src/main/java/com/github/spamchecker/MxResolver.java:530-542 | stores whose lists have the same elements export the same domain section |
| ExportFacts.SameServerRecords | src/main/java/com/github/spamchecker/MxResolver.java:543-551 | stores whose lists have the same elements export the same server section |
| ExportFacts.SameServiceRecords | src/main/java/com/github/spamchecker/MxResolver.java:616-617 | stores whose lists have the same elements export the same service section |
| ExportFacts.SameHostRecords | src/main/java/com/github/spamchecker/MxResolver.java:619-628 | stores whose lists have the same elements export the same host section |
| ExportFacts.ExportedSame | src/main/java/com/github/spamchecker/MxResolver.java:529-552 | stores whose lists have the same elements have the same export |
| ExportFacts.ExportStable | src/main/java/com/github/spamchecker/MxResolver.java:523-552 | exporting, reading back and exporting again gives the same document |
| Whois.IndexOf | src/main/java/WhoisResolver.java:60 | the position found is the first occurrence of the character, and none means it does not occur |
| Whois.Pieces | src/main/java/WhoisResolver.java:59 | cutting at line feeds gives at least one piece |
| Whois.DropTrailingEmpty | src/main/java/WhoisResolver.java:59 | `split` drops only trailing empty strings and keeps the rest in order |
| Whois.PiecesOfJoin | src/main/java/WhoisResolver.java:59 | cutting at line feeds undoes joining lines that contain no line feed and do not end in a carriage return |
| Whois.LinesOfJoin | src/main/java/WhoisResolver.java:59 | the lines of such a joined text are the lines, unless it ends in empty lines |
| Whois.Entry | src/main/java/WhoisResolver.java:60-64 | a line gives an entry iff it contains a colon; the key is lower-case |
| Whois.Parse | src/main/java/WhoisResolver.java:57-68 | `parse` puts the entries of the lines into the map in order |
| Whois.EntriesKeysLower | src/main/java/WhoisResolver.java:64 | every key of a parsed response is lower-case |
| Whois.EntriesKeys | src/main/java/WhoisResolver.java:59-66 | a key is present iff some line gives an entry with that key |
| Whois.LastWins | src/main/java/WhoisResolver.java:64 | when a key repeats, the value of its last line wins |
| Whois.LineWithoutColon | src/main/java/WhoisResolver.java:61 | a line without a colon contributes nothing, wherever it stands |
| Whois.FirstColonSplits | src/main/java/WhoisResolver.java:60-63 | only the first colon separates key from value; the value may hold more colons |
| Whois.RepeatedNameServer | src/main/java/WhoisResolver.java:57-68 | of two `Name Server` lines, the second gives the value of `name server` |
| Whois.Referral | src/main/java/WhoisResolver.java:38-39 | a referral is followed iff the response names a registrar server that differs from the default host ignoring case; the server asked is that name, lower-cased |
| Whois.Query | src/main/java/WhoisResolver.java:34-43 | `query` returns the default host's answer, or the answer of the referred server when there is a referral |
| Whois.NoReferralToDefault | src/main/java/WhoisResolver.java:39 | a referral back to the default host, in any case, is not followed |

## Left out

- The command line (`run`, option parsing), logging to standard error and printing are not modelled. `dumpDisposables` returns its list instead of printing it.
- File I/O is not modelled: input files are given as sequences of lines, and `writeTo`, `loadDb`, `storeDb`, `dbFile` and the JSON mapping of the stored document are left out. The `finally` that stores the database after `load(file, classification)` is therefore not modelled.
- DNS (`Lookup`, `Address.getAllByName`) is a parameter, `Dns`: two total functions, one for the MX targets of a domain and one for the addresses of a host name. A `TextParseException` on a malformed name is not modelled.
- `WhoisResolver.queryDirect`, `getClient` and the Apache Commons Net WHOIS client are not modelled. `queryDirect` is a parameter of `Whois.Query`, so the empty map it gives on an I/O error is one of its possible answers. `WhoisResolver.run` (reading the block list and printing) is not modelled.
- `Whois.DefaultHost` is the value of `WhoisClient.DEFAULT_HOST` in Apache Commons Net. That library is not part of this model.
- `DbLoader`, the `db` mappers and `Index.java` are not part of this model; the store is the class `Store.Index`. The generated model classes are assumed to start with their defaults: UNKNOWN, NONE, no service and empty lists.
- Lower-casing, `equalsIgnoreCase` and `trim` act on ASCII letters only; `String.compareTo` is modelled as the lexicographic order on characters. Locale-dependent case mapping and UTF-16 surrogate order are not modelled.
- The source shares mutable record objects between maps. The model holds values. The one sharing with a visible effect is modelled explicitly: `classify` copies the store's mail-server records into the batch, so the batch's aggregation pass rewrites the store's records too.
- `query` updates the stored domain record in place. The model stores the guessed record again under the same name, to the same effect.
- The `domains` list that `load(file)` fills is never read, and the model does not build it.
- A listed mail server without a record of its own makes `buildServicesByAddress`, `updateClassifications`, `query` and `xref` fail with a null-pointer exception. The model excludes that state with the precondition `Valid()`, which every operation of the resolver preserves.
- The order of a `HashMap`'s entries is not modelled. Every loop over a map is proved to give the same result whatever the order in which it visits the keys.
- The mutable lists of `xref` are modelled as sets. `sort` applies `sorted().distinct()` to every one of them, so their order and repeats never reach the result. The unsorted intermediate lists of `toStorage` are not modelled for the same reason.
- Export.ToDb: a repeated name makes `Collectors.toMap` throw; the model requires distinct names instead. `ExportFacts.ExportedDistinct` shows that every export meets this precondition.
- `classify(fileName)` is `Store.Index.Classify` on a new batch store followed by `Export.ToStorage` of the batch; writing the document out is not modelled.
