/** Resolution of a domain that is not in the store yet (`query`, `enterDomain`, `fillFromDNS`,
    `enterMx`), as functions of the store's contents, the cross-reference index of the batch and
    the DNS oracle. The methods of the Store module are proved against these definitions. */
module Resolution {
  import opened Lattice
  import opened Text
  import opened Records

  /** `enterMx` on the mail-server map: the new map, and whether the host is appended to the
      domain's list (false when the brand-new host does not resolve). A known host is reused
      without asking DNS; a new host is put into the map before it is resolved, so a host that
      fails stays in the map with no addresses. */
  function MxEntered(dns: Dns, ms: map<string, MxData>, host: string): (map<string, MxData>, bool)
  {
    if host in ms then (ms, true)
    else match dns.resolve(host)
      case None => (ms[host := MxData([], UNKNOWN)], false)
      case Some(addresses) => (ms[host := MxData(addresses, UNKNOWN)], true)
  }

  /** `enterMx` for each target in turn: the final map and the targets appended, in order. */
  function EnterAll(dns: Dns, ms: map<string, MxData>, targets: seq<string>): (map<string, MxData>, seq<string>)
  {
    if targets == [] then (ms, [])
    else
      var last := targets[|targets| - 1];
      var (ms1, accepted) := EnterAll(dns, ms, targets[..|targets| - 1]);
      var (ms2, ok) := MxEntered(dns, ms1, last);
      (ms2, if ok then accepted + [last] else accepted)
  }

  /** The hosts `fillFromDNS` enters: the domain itself when it has no MX records (the
      implicit MX of section 5.1 of RFC 5321), otherwise the lower-cased MX targets. */
  function Targets(dns: Dns, domain: string): seq<string>
  {
    match dns.lookupMx(domain)
      case None => [domain]
      case Some(hosts) => seq(|hosts|, i requires 0 <= i < |hosts| => Lower(hosts[i]))
  }

  /** `fillFromDNS`: the new mail-server map and the filled domain record. */
  function Filled(dns: Dns, domain: string, ms: map<string, MxData>, d: DomainData): (map<string, MxData>, DomainData)
  {
    var (ms', accepted) := EnterAll(dns, ms, Targets(dns, domain));
    var d' := d.(mailServers := d.mailServers + accepted);
    if accepted != [] then (ms', d')
    else if dns.lookupMx(domain).None? then (ms', d'.(kind := DEAD, heuristics := NO_FALLBACK_MX))
    else (ms', d'.(kind := DEAD, heuristics := NO_RESOLVABLE_MX))
  }

  /** `createDomain`: a fresh record with the given service and kind. */
  function Created(service: Option<string>, kind: Classification): DomainData
  {
    DomainData(kind, NONE, [], service, [])
  }

  /** `enterDomain`: the store after the domain is entered under its lower-cased name, and
      the record entered. */
  function Entered(db: Db, dns: Dns, domain: string, service: Option<string>, kind: Classification): (Db, DomainData)
  {
    var name := Lower(domain);
    var (ms, d) := Filled(dns, name, db.mailServers, Created(service, kind));
    (Db(db.domains[name := d], ms), d)
  }

  /** The kinds of the listed mail servers. */
  ghost function MxKinds(ms: map<string, MxData>, servers: seq<string>): set<Classification>
  {
    set m | m in servers && m in ms :: ms[m].kind
  }

  /** The index classifications of the given addresses. */
  ghost function AddressClasses(index: XRefIndex, addresses: seq<string>): set<Classification>
  {
    set a | a in addresses :: ClassificationAt(index.addressClassification, a)
  }

  /** The index classifications of the addresses of the listed mail servers. */
  ghost function AddressKinds(ms: map<string, MxData>, index: XRefIndex, servers: seq<string>): set<Classification>
  {
    set m, a | m in servers && m in ms && a in ms[m].addresses
      :: ClassificationAt(index.addressClassification, a)
  }

  /** The services the index attaches to the listed mail servers. */
  ghost function MxServices(index: XRefIndex, servers: seq<string>): set<string>
  {
    set m, s | m in servers && s in SetAt(index.serviceByMx, m) :: s
  }

  /** The services the index attaches to the given addresses. */
  ghost function ServicesOf(index: XRefIndex, addresses: seq<string>): set<string>
  {
    set a, s | a in addresses && s in SetAt(index.serviceByAddress, a) :: s
  }

  /** The services the index attaches to the addresses of the listed mail servers. */
  ghost function AddressServices(ms: map<string, MxData>, index: XRefIndex, servers: seq<string>): set<string>
  {
    set m, a, s | m in servers && m in ms && a in ms[m].addresses && s in SetAt(index.serviceByAddress, a) :: s
  }

  /** `setService`: a single candidate becomes the service; otherwise the candidates become
      the sorted list of potential services. */
  ghost function WithService(d: DomainData, services: set<string>): (r: DomainData)
  {
    if |services| == 1 then
      var s :| s in services;
      d.(service := Some(s))
    else
      d.(potentialServices := SortedSet(services))
  }

  /** The guess `query` applies to a freshly entered record: first from the kinds of its mail
      servers (heuristic MX), then from the classifications of their addresses (heuristic IP),
      otherwise heuristic NONE unless the record is DEAD. */
  ghost function Guessed(ms: map<string, MxData>, index: XRefIndex, d: DomainData): DomainData
  {
    var mxGuess := AnyDisposableAll(MxKinds(ms, d.mailServers));
    var addressGuess := AnyDisposableAll(AddressKinds(ms, index, d.mailServers));
    if mxGuess != UNKNOWN then
      WithService(d.(kind := mxGuess, heuristics := MX), MxServices(index, d.mailServers))
    else if addressGuess != UNKNOWN then
      WithService(d.(kind := addressGuess, heuristics := IP), AddressServices(ms, index, d.mailServers))
    else if d.kind != DEAD then
      d.(heuristics := NONE)
    else
      d
  }

  /** `query(domain, index)`: the store afterwards and the record returned. */
  ghost function Queried(db: Db, index: XRefIndex, dns: Dns, domain: string): (Db, DomainData)
  {
    if domain in db.domains then (db, db.domains[domain])
    else
      var (db1, d) := Entered(db, dns, domain, None, UNKNOWN);
      var g := Guessed(db1.mailServers, index, d);
      (db1.(domains := db1.domains[Lower(domain) := g]), g)
  }

  // Steps of the guessing loops of `query`: one more mail server, or one more address.

  lemma MxKindsStep(ms: map<string, MxData>, servers: seq<string>, i: nat)
    requires i < |servers| && servers[i] in ms
    ensures MxKinds(ms, servers[..i + 1]) == MxKinds(ms, servers[..i]) + {ms[servers[i]].kind}
  {
    assert servers[..i + 1] == servers[..i] + [servers[i]];
  }

  lemma AddressKindsStep(ms: map<string, MxData>, index: XRefIndex, servers: seq<string>, i: nat)
    requires i < |servers| && servers[i] in ms
    ensures AddressKinds(ms, index, servers[..i + 1])
            == AddressKinds(ms, index, servers[..i]) + AddressClasses(index, ms[servers[i]].addresses)
  {
    assert servers[..i + 1] == servers[..i] + [servers[i]];
    var l := AddressKinds(ms, index, servers[..i + 1]);
    forall c | c in AddressClasses(index, ms[servers[i]].addresses) ensures c in l {
      var a :| a in ms[servers[i]].addresses && ClassificationAt(index.addressClassification, a) == c;
      assert servers[i] in servers[..i + 1];
    }
  }

  lemma MxServicesStep(index: XRefIndex, servers: seq<string>, i: nat)
    requires i < |servers|
    ensures MxServices(index, servers[..i + 1]) == MxServices(index, servers[..i]) + SetAt(index.serviceByMx, servers[i])
  {
    assert servers[..i + 1] == servers[..i] + [servers[i]];
    var l := MxServices(index, servers[..i + 1]);
    forall s | s in SetAt(index.serviceByMx, servers[i]) ensures s in l {
      assert servers[i] in servers[..i + 1];
    }
  }

  lemma AddressServicesStep(ms: map<string, MxData>, index: XRefIndex, servers: seq<string>, i: nat)
    requires i < |servers| && servers[i] in ms
    ensures AddressServices(ms, index, servers[..i + 1])
            == AddressServices(ms, index, servers[..i]) + ServicesOf(index, ms[servers[i]].addresses)
  {
    assert servers[..i + 1] == servers[..i] + [servers[i]];
    var l := AddressServices(ms, index, servers[..i + 1]);
    forall s | s in ServicesOf(index, ms[servers[i]].addresses) ensures s in l {
      var a :| a in ms[servers[i]].addresses && s in SetAt(index.serviceByAddress, a);
      assert servers[i] in servers[..i + 1];
    }
  }

  lemma AddressClassesStep(index: XRefIndex, addresses: seq<string>, j: nat)
    requires j < |addresses|
    ensures AddressClasses(index, addresses[..j + 1])
            == AddressClasses(index, addresses[..j]) + {ClassificationAt(index.addressClassification, addresses[j])}
  {
    assert addresses[..j + 1] == addresses[..j] + [addresses[j]];
  }

  lemma ServicesOfStep(index: XRefIndex, addresses: seq<string>, j: nat)
    requires j < |addresses|
    ensures ServicesOf(index, addresses[..j + 1]) == ServicesOf(index, addresses[..j]) + SetAt(index.serviceByAddress, addresses[j])
  {
    assert addresses[..j + 1] == addresses[..j] + [addresses[j]];
    var l := ServicesOf(index, addresses[..j + 1]);
    forall s | s in SetAt(index.serviceByAddress, addresses[j]) ensures s in l {
      assert addresses[j] in addresses[..j + 1];
    }
  }

  // ---- enterMx ----

  /** A known host is reused as it is, whatever DNS would answer. */
  lemma MxEnteredReuses(dns: Dns, dns': Dns, ms: map<string, MxData>, host: string)
    requires host in ms
    ensures MxEntered(dns, ms, host) == MxEntered(dns', ms, host) == (ms, true)
  {
  }

  /** One more target: `EnterAll` is `MxEntered` applied after the earlier targets. */
  lemma EnterAllSnoc(dns: Dns, ms: map<string, MxData>, targets: seq<string>, x: string)
    ensures var (ms1, accepted) := EnterAll(dns, ms, targets);
            var (ms2, ok) := MxEntered(dns, ms1, x);
            EnterAll(dns, ms, targets + [x]) == (ms2, if ok then accepted + [x] else accepted)
  {
    assert (targets + [x])[..|targets|] == targets;
  }

  /** `ms'` is `ms` with a record for every host of `hosts`: existing records untouched, and a
      new record holding its host's resolved addresses, or none. */
  ghost predicate GrewHosts(dns: Dns, ms: map<string, MxData>, ms': map<string, MxData>, hosts: set<string>)
  {
    && ms'.Keys == ms.Keys + hosts
    && (forall m :: m in ms ==> ms'[m] == ms[m])
    && (forall m :: m in ms' && m !in ms ==>
          ms'[m] == MxData(match dns.resolve(m) case None => [] case Some(a) => a, UNKNOWN))
  }

  lemma GrewHostsStep(dns: Dns, ms: map<string, MxData>, ms1: map<string, MxData>, hosts: set<string>, x: string)
    requires GrewHosts(dns, ms, ms1, hosts)
    ensures GrewHosts(dns, ms, MxEntered(dns, ms1, x).0, hosts + {x})
  {
  }

  /** What the targets do to the map: every target gets a record, existing records are
      untouched, and a new record holds its host's resolved addresses, or none; only targets
      are appended. */
  lemma {:induction false} EnterAllMap(dns: Dns, ms: map<string, MxData>, targets: seq<string>)
    ensures GrewHosts(dns, ms, EnterAll(dns, ms, targets).0, Elems(targets))
    ensures Elems(EnterAll(dns, ms, targets).1) <= Elems(targets)
  {
    if targets != [] {
      var init := targets[..|targets| - 1];
      var last := targets[|targets| - 1];
      EnterAllMap(dns, ms, init);
      GrewHostsStep(dns, ms, EnterAll(dns, ms, init).0, Elems(init), last);
      assert targets == init + [last];
      assert Elems(targets) == Elems(init) + {last};
    }
  }

  /** A target is appended exactly when it was already known, or resolves, or occurs more than
      once among the targets: its second occurrence finds the record left by the first. */
  lemma {:induction false} AcceptedIff(dns: Dns, ms: map<string, MxData>, targets: seq<string>, h: string)
    ensures h in EnterAll(dns, ms, targets).1
            <==> h in targets && (h in ms || dns.resolve(h).Some? || multiset(targets)[h] >= 2)
  {
    if targets != [] {
      var init := targets[..|targets| - 1];
      var last := targets[|targets| - 1];
      assert targets == init + [last];
      AcceptedIff(dns, ms, init, h);
      EnterAllMap(dns, ms, init);
      assert multiset(targets) == multiset(init) + multiset{last};
    }
  }

  /** Every target failed, so nothing was appended, exactly when each target is a new host that
      does not resolve and occurs once. */
  lemma NoneAccepted(dns: Dns, ms: map<string, MxData>, targets: seq<string>)
    ensures EnterAll(dns, ms, targets).1 == []
            <==> forall h :: h in targets ==> h !in ms && dns.resolve(h).None? && multiset(targets)[h] == 1
  {
    var accepted := EnterAll(dns, ms, targets).1;
    forall h ensures h in accepted <==> h in targets && (h in ms || dns.resolve(h).Some? || multiset(targets)[h] >= 2) {
      AcceptedIff(dns, ms, targets, h);
    }
    if accepted != [] {
      assert accepted[0] in accepted;
    }
    forall h | h in targets ensures multiset(targets)[h] >= 1 {
    }
  }

  /** A host that failed to resolve stays in the map with no addresses, and the next domain
      that lists it gets it appended without a new DNS question. */
  lemma FailedHostReused(dns: Dns, ms: map<string, MxData>, host: string)
    requires host !in ms && dns.resolve(host).None?
    ensures var (ms1, ok1) := MxEntered(dns, ms, host);
            && !ok1 && ms1[host] == MxData([], UNKNOWN)
            && MxEntered(dns, ms1, host) == (ms1, true)
  {
  }

  // ---- fillFromDNS ----

  /** With no MX records the domain is its own mail server: it is listed when it is known or
      resolves, and otherwise the record becomes DEAD with heuristic NO_FALLBACK_MX. */
  lemma FilledWithoutMx(dns: Dns, domain: string, ms: map<string, MxData>, d: DomainData)
    requires dns.lookupMx(domain).None?
    ensures var (ms', d') := Filled(dns, domain, ms, d);
            && domain in ms'
            && (if domain in ms || dns.resolve(domain).Some?
                then d' == d.(mailServers := d.mailServers + [domain])
                else d' == d.(kind := DEAD, heuristics := NO_FALLBACK_MX))
  {
    var targets := [domain];
    assert Targets(dns, domain) == targets;
    assert targets[..0] == [];
    assert EnterAll(dns, ms, targets[..0]) == (ms, []);
  }

  /** With MX records the record becomes DEAD with heuristic NO_RESOLVABLE_MX exactly when every
      target failed; otherwise its kind and heuristic are kept and it lists the targets that
      were appended, each of which was known, resolves or is listed more than once. */
  lemma FilledWithMx(dns: Dns, domain: string, ms: map<string, MxData>, d: DomainData)
    requires dns.lookupMx(domain).Some?
    ensures var (ms', d') := Filled(dns, domain, ms, d);
            var targets := Targets(dns, domain);
            var accepted := EnterAll(dns, ms, targets).1;
            && ((d'.kind == DEAD && d'.heuristics == NO_RESOLVABLE_MX)
                || (d'.kind == d.kind && d'.heuristics == d.heuristics))
            && (accepted == [] <==>
                  forall h :: h in targets ==> h !in ms && dns.resolve(h).None? && multiset(targets)[h] == 1)
            && (accepted == [] ==> d' == d.(kind := DEAD, heuristics := NO_RESOLVABLE_MX))
            && (accepted != [] ==> d' == d.(mailServers := d.mailServers + accepted))
            && (forall h :: h in accepted ==>
                  h in targets && (h in ms || dns.resolve(h).Some? || multiset(targets)[h] >= 2))
  {
    var targets := Targets(dns, domain);
    NoneAccepted(dns, ms, targets);
    forall h | h in EnterAll(dns, ms, targets).1
      ensures h in targets && (h in ms || dns.resolve(h).Some? || multiset(targets)[h] >= 2)
    {
      AcceptedIff(dns, ms, targets, h);
    }
  }

  // ---- enterDomain and query ----

  /** Every mail server a record lists is in the map. */
  ghost predicate ListsKnown(ms: map<string, MxData>, d: DomainData)
  {
    forall m :: m in d.mailServers ==> m in ms
  }

  /** Entering a domain keeps the store well formed, enters the record under the lower-cased
      name, and changes no other domain and no existing mail-server record. */
  lemma EnteredProps(db: Db, dns: Dns, domain: string, service: Option<string>, kind: Classification)
    requires db.Valid()
    ensures var (db', d) := Entered(db, dns, domain, service, kind);
            && db'.Valid()
            && ListsKnown(db'.mailServers, d)
            && db'.domains == db.domains[Lower(domain) := d]
            && d.service == service
            && d.potentialServices == []
            && (forall m :: m in db.mailServers ==> m in db'.mailServers && db'.mailServers[m] == db.mailServers[m])
  {
    var name := Lower(domain);
    var targets := Targets(dns, name);
    EnterAllMap(dns, db.mailServers, targets);
  }

  /** The guess changes neither the mail servers a record lists nor its name-independent
      fields other than kind, heuristic and services. */
  lemma GuessedKeepsServers(ms: map<string, MxData>, index: XRefIndex, d: DomainData)
    ensures Guessed(ms, index, d).mailServers == d.mailServers
  {
  }

  /** A domain already in the store is returned as stored, and nothing changes. */
  lemma QueriedKnown(db: Db, index: XRefIndex, dns: Dns, domain: string)
    requires domain in db.domains
    ensures Queried(db, index, dns, domain) == (db, db.domains[domain])
  {
  }

  /** A new domain is entered once under its lower-cased name, the store stays well formed,
      and no existing mail-server record changes. */
  lemma QueriedNew(db: Db, index: XRefIndex, dns: Dns, domain: string)
    requires db.Valid() && domain !in db.domains
    ensures var (db', d) := Queried(db, index, dns, domain);
            && db'.Valid()
            && db'.domains == db.domains[Lower(domain) := d]
            && (forall m :: m in db.mailServers ==> m in db'.mailServers && db'.mailServers[m] == db.mailServers[m])
  {
    EnteredProps(db, dns, domain, None, UNKNOWN);
    var (db1, d) := Entered(db, dns, domain, None, UNKNOWN);
    var g := Guessed(db1.mailServers, index, d);
    GuessedKeepsServers(db1.mailServers, index, d);
    assert Queried(db, index, dns, domain) == (db1.(domains := db1.domains[Lower(domain) := g]), g);
  }

  /** Querying a lower-case domain keeps the store well formed, stores the record returned under
      the domain's name, and changes no other domain and no existing mail-server record. */
  lemma QueriedProps(db: Db, index: XRefIndex, dns: Dns, domain: string)
    requires db.Valid() && IsLower(domain)
    ensures var (db', d) := Queried(db, index, dns, domain);
            && db'.Valid()
            && db'.domains == db.domains[domain := d]
            && (domain in db.domains ==> d == db.domains[domain])
            && (forall m :: m in db.mailServers ==> m in db'.mailServers && db'.mailServers[m] == db.mailServers[m])
  {
    LowerOfLower(domain);
    if domain in db.domains {
      assert db.domains[domain := db.domains[domain]] == db.domains;
    } else {
      QueriedNew(db, index, dns, domain);
    }
  }

  /** Memoisation: once a lower-case domain has been queried, querying it again returns the same
      record and changes nothing. */
  lemma QueriedTwice(db: Db, index: XRefIndex, index': XRefIndex, dns: Dns, dns': Dns, domain: string)
    requires IsLower(domain)
    ensures var (db1, d1) := Queried(db, index, dns, domain);
            Queried(db1, index', dns', domain) == (db1, d1)
  {
    LowerOfLower(domain);
  }

  /** A domain that DNS shows DEAD keeps its kind and its DNS-failure heuristic: it lists no
      mail server, so neither guess has evidence. */
  lemma QueriedDeadKept(db: Db, index: XRefIndex, dns: Dns, domain: string)
    requires domain !in db.domains
    requires Entered(db, dns, domain, None, UNKNOWN).1.kind == DEAD
    ensures var d := Queried(db, index, dns, domain).1;
            d == Entered(db, dns, domain, None, UNKNOWN).1
            && d.heuristics in {NO_FALLBACK_MX, NO_RESOLVABLE_MX}
  {
    var d := Entered(db, dns, domain, None, UNKNOWN).1;
    assert d.mailServers == [];
    assert MxKinds(Entered(db, dns, domain, None, UNKNOWN).0.mailServers, []) == {};
    assert AddressKinds(Entered(db, dns, domain, None, UNKNOWN).0.mailServers, index, []) == {};
  }

  /** A new domain one of whose mail servers is DISPOSABLE is guessed DISPOSABLE with heuristic
      MX, whatever the other servers and the addresses say. */
  lemma DisposableServerDecides(ms: map<string, MxData>, index: XRefIndex, d: DomainData, m: string)
    requires m in d.mailServers && m in ms && ms[m].kind == DISPOSABLE
    ensures Guessed(ms, index, d).kind == DISPOSABLE && Guessed(ms, index, d).heuristics == MX
  {
    assert DISPOSABLE in MxKinds(ms, d.mailServers);
  }

  /** Address evidence is used only when the mail servers give none: then the record takes the
      fold of its addresses' classifications, with heuristic IP. */
  lemma AddressEvidence(ms: map<string, MxData>, index: XRefIndex, d: DomainData)
    requires forall m :: m in d.mailServers && m in ms ==> ms[m].kind == UNKNOWN
    requires AnyDisposableAll(AddressKinds(ms, index, d.mailServers)) != UNKNOWN
    ensures Guessed(ms, index, d).kind == AnyDisposableAll(AddressKinds(ms, index, d.mailServers))
    ensures Guessed(ms, index, d).heuristics == IP
  {
    var kinds := MxKinds(ms, d.mailServers);
    assert kinds <= {UNKNOWN};
    assert Known(kinds) == {};
  }

  /** `setService`: one candidate becomes the service and the potential services are left as
      they were; otherwise the service is left as it was and the potential services are the
      candidates, sorted and each once (empty when there are none). */
  lemma WithServiceProps(d: DomainData, services: set<string>)
    ensures var r := WithService(d, services);
            && r.kind == d.kind && r.heuristics == d.heuristics && r.mailServers == d.mailServers
            && (|services| == 1 ==>
                  r.service.Some? && services == {r.service.value} && r.potentialServices == d.potentialServices)
            && (|services| != 1 ==>
                  r.service == d.service && StrictlySorted(r.potentialServices)
                  && Elems(r.potentialServices) == services)
            && (services == {} ==> r.potentialServices == [])
  {
    if |services| == 1 {
      var s :| s in services;
      var rest := services - {s};
      assert services == rest + {s};
      assert |rest| == 0;
      assert services == {s};
    }
  }
}
