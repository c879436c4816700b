/** The engine's in-memory store (`_db`, the generated `Index`) and the operations of the
    engine that read or update it in place. Every method is proved equal to the reference
    definition of the CrossRef, Aggregation, Resolution and Batch modules. */
module Store {
  import opened Lattice
  import opened Text
  import opened Records
  import opened CrossRef
  import opened Aggregation
  import opened Resolution
  import opened Batch

  /** `setService`: one candidate becomes the service, otherwise the candidates, sorted, become
      the potential services. */
  method SetService(d: DomainData, services: set<string>) returns (r: DomainData)
    ensures r == WithService(d, services)
  {
    if |services| == 1 {
      var s :| s in services;
      var rest := services - {s};
      assert services == rest + {s};
      assert |rest| == 0;
      assert services == {s};
      r := d.(service := Some(s));
    } else {
      var sorted := SortSet(services);
      r := d.(potentialServices := sorted);
    }
  }

  /** The inner loop of the guess in `query`: folds `AnyDisposable` over the index
      classifications of the addresses and collects the services the index attaches to them. */
  method GuessFromAddresses(index: XRefIndex, addresses: seq<string>, guess0: Classification,
                            services0: set<string>, ghost before: set<Classification>)
    returns (guess: Classification, services: set<string>)
    requires guess0 == AnyDisposableAll(before)
    ensures guess == AnyDisposableAll(before + AddressClasses(index, addresses))
    ensures services == services0 + ServicesOf(index, addresses)
  {
    guess, services := guess0, services0;
    var j := 0;
    assert addresses[..0] == [];
    assert before + AddressClasses(index, addresses[..0]) == before;
    while j < |addresses|
      invariant 0 <= j <= |addresses|
      invariant guess == AnyDisposableAll(before + AddressClasses(index, addresses[..j]))
      invariant services == services0 + ServicesOf(index, addresses[..j])
    {
      var c := ClassificationAt(index.addressClassification, addresses[j]);
      AnyDisposableAllInsert(before + AddressClasses(index, addresses[..j]), c);
      AddressClassesStep(index, addresses, j);
      assert before + AddressClasses(index, addresses[..j + 1]) == (before + AddressClasses(index, addresses[..j])) + {c};
      ServicesOfStep(index, addresses, j);
      guess := AnyDisposable(guess, c);
      services := services + SetAt(index.serviceByAddress, addresses[j]);
      j := j + 1;
    }
    assert addresses[..|addresses|] == addresses;
  }

  /** `computeIfAbsent(key, x -> new HashSet<>()).add(service)` for each key in turn. */
  method AddToEach(result: map<string, set<string>>, keys: seq<string>, service: string)
    returns (r: map<string, set<string>>)
    ensures r.Keys == result.Keys + Elems(keys)
    ensures forall k :: SetAt(r, k) == SetAt(result, k) + (if k in keys then {service} else {})
  {
    r := result;
    var j := 0;
    while j < |keys|
      invariant 0 <= j <= |keys|
      invariant r.Keys == result.Keys + Elems(keys[..j])
      invariant forall k :: SetAt(r, k) == SetAt(result, k) + (if k in keys[..j] then {service} else {})
    {
      assert keys[..j + 1] == keys[..j] + [keys[j]];
      r := r[keys[j] := SetAt(r, keys[j]) + {service}];
      j := j + 1;
    }
    assert keys[..|keys|] == keys;
  }

  /** Adding the service at more keys, after it was added at the keys of `reached`. */
  lemma AddedTwice(result: map<string, set<string>>, r: map<string, set<string>>, r': map<string, set<string>>,
                   reached: set<string>, keys: seq<string>, service: string)
    requires forall a :: SetAt(r, a) == SetAt(result, a) + (if a in reached then {service} else {})
    requires forall k :: SetAt(r', k) == SetAt(r, k) + (if k in keys then {service} else {})
    ensures forall a :: SetAt(r', a) == SetAt(result, a) + (if a in reached + Elems(keys) then {service} else {})
  {
  }

  /** `t` is the table of services by address that `buildServicesByAddress` builds from `db`. */
  ghost predicate AddressTable(db: Db, t: map<string, set<string>>)
  {
    t.Keys == ServedAddresses(db) && forall a :: SetAt(t, a) == ServicesAtAddress(db, a)
  }

  /** A map holding exactly the listed keys, each with its value in `ms`. */
  lemma CopiedMap(ms: map<string, MxData>, listed: set<string>, r: map<string, MxData>)
    requires listed <= ms.Keys && r.Keys == listed
    requires forall m :: m in r ==> r[m] == ms[m]
    ensures r == map m | m in listed && m in ms :: ms[m]
  {
  }

  /** `put(key, combine(getOrDefault(key, UNKNOWN), kind))` for each key in turn. A key that
      occurs twice is combined twice, to the same effect. */
  method CombineEach(result: map<string, Classification>, keys: seq<string>, kind: Classification)
    returns (r: map<string, Classification>)
    ensures r.Keys == result.Keys + Elems(keys)
    ensures forall k :: ClassificationAt(r, k)
              == if k in keys then Combine(ClassificationAt(result, k), kind) else ClassificationAt(result, k)
  {
    r := result;
    var j := 0;
    while j < |keys|
      invariant 0 <= j <= |keys|
      invariant r.Keys == result.Keys + Elems(keys[..j])
      invariant forall k :: ClassificationAt(r, k)
                  == if k in keys[..j] then Combine(ClassificationAt(result, k), kind) else ClassificationAt(result, k)
    {
      assert keys[..j + 1] == keys[..j] + [keys[j]];
      CombineRepeat(ClassificationAt(result, keys[j]), kind);
      r := r[keys[j] := Combine(ClassificationAt(r, keys[j]), kind)];
      j := j + 1;
    }
    assert keys[..|keys|] == keys;
  }

  class Index {
    var domains: map<string, DomainData>
    var mailServers: map<string, MxData>

    /** `Index.create()`: an empty store. */
    constructor ()
      ensures domains == map[] && mailServers == map[]
    {
      domains := map[];
      mailServers := map[];
    }

    /** The contents of the store, as a value. */
    function Snapshot(): Db
      reads this
    {
      Db(domains, mailServers)
    }

    ghost predicate Valid()
      reads this
    {
      Snapshot().Valid()
    }

    // ---- resolution of a new domain ----

    /** `enterMx`: reuses a known host; puts a new host into the map, then fills in the
        addresses DNS gives it. Returns false when the new host does not resolve (the source
        throws `UnknownHostException`), in which case the caller does not list the host. */
    method EnterMx(dns: Dns, host: string) returns (accepted: bool)
      modifies this
      ensures (mailServers, accepted) == MxEntered(dns, old(mailServers), host)
      ensures domains == old(domains)
    {
      if host in mailServers {
        return true;
      }
      mailServers := mailServers[host := MxData([], UNKNOWN)];
      match dns.resolve(host) {
        case None =>
          accepted := false;
        case Some(addresses) =>
          var i := 0;
          while i < |addresses|
            invariant 0 <= i <= |addresses|
            invariant domains == old(domains)
            invariant mailServers == old(mailServers)[host := MxData(addresses[..i], UNKNOWN)]
          {
            var record := mailServers[host];
            assert addresses[..i + 1] == addresses[..i] + [addresses[i]];
            mailServers := mailServers[host := record.(addresses := record.addresses + [addresses[i]])];
            i := i + 1;
          }
          assert addresses[..|addresses|] == addresses;
          accepted := true;
      }
    }

    /** `fillFromDNS`: enters the domain itself when it has no MX records, otherwise every MX
        target, and marks the record DEAD when nothing could be entered. */
    method FillFromDns(dns: Dns, domain: string, d: DomainData) returns (r: DomainData)
      modifies this
      ensures (mailServers, r) == Filled(dns, domain, old(mailServers), d)
      ensures domains == old(domains)
    {
      r := d;
      match dns.lookupMx(domain) {
        case None =>
          assert Targets(dns, domain) == [] + [domain];
          EnterAllSnoc(dns, old(mailServers), [], domain);
          var ok := EnterMx(dns, domain);
          ghost var accepted: seq<string> := if ok then [domain] else [];
          assert [] + [domain] == [domain];
          assert EnterAll(dns, old(mailServers), Targets(dns, domain)) == (mailServers, accepted);
          if ok {
            r := r.(mailServers := r.mailServers + [domain]);
          } else {
            assert d.mailServers + accepted == d.mailServers;
            r := r.(kind := DEAD, heuristics := NO_FALLBACK_MX);
          }
        case Some(records) =>
          ghost var targets := Targets(dns, domain);
          var alive := false;
          var i := 0;
          while i < |records|
            invariant 0 <= i <= |records|
            invariant domains == old(domains)
            invariant var (ms, accepted) := EnterAll(dns, old(mailServers), targets[..i]);
                      mailServers == ms && r == d.(mailServers := d.mailServers + accepted)
                      && (alive <==> accepted != [])
          {
            var mailServer := Lower(records[i]);
            assert targets[..i + 1] == targets[..i] + [mailServer];
            EnterAllSnoc(dns, old(mailServers), targets[..i], mailServer);
            var ok := EnterMx(dns, mailServer);
            if ok {
              alive := true;
              r := r.(mailServers := r.mailServers + [mailServer]);
            }
            i := i + 1;
          }
          assert |targets| == |records|;
          assert targets[..|records|] == targets;
          if !alive {
            r := r.(kind := DEAD, heuristics := NO_RESOLVABLE_MX);
          }
      }
    }

    /** `enterDomain`: creates the record, fills it from DNS and stores it under the
        lower-cased name. */
    method EnterDomain(dns: Dns, domain: string, service: Option<string>, kind: Classification)
      returns (d: DomainData)
      modifies this
      ensures (Snapshot(), d) == Entered(old(Snapshot()), dns, domain, service, kind)
    {
      var name := Lower(domain);
      d := FillFromDns(dns, name, Created(service, kind));
      domains := domains[name := d];
    }

    /** The guessing loops of `query`: folds `AnyDisposable` over the kinds of the record's mail
        servers and over the index classifications of their addresses, collects the services
        the index attaches to both, and applies the guess in priority order. */
    method Guess(index: XRefIndex, d: DomainData) returns (r: DomainData)
      requires ListsKnown(mailServers, d)
      ensures r == Guessed(mailServers, index, d)
    {
      var mxGuess := UNKNOWN;
      var addressGuess := UNKNOWN;
      var mxServices: set<string> := {};
      var addressServices: set<string> := {};
      var servers := d.mailServers;
      var i := 0;
      while i < |servers|
        invariant 0 <= i <= |servers|
        invariant mxGuess == AnyDisposableAll(MxKinds(mailServers, servers[..i]))
        invariant addressGuess == AnyDisposableAll(AddressKinds(mailServers, index, servers[..i]))
        invariant mxServices == MxServices(index, servers[..i])
        invariant addressServices == AddressServices(mailServers, index, servers[..i])
      {
        var mx := servers[i];
        var mxInfo := mailServers[mx];
        AnyDisposableAllInsert(MxKinds(mailServers, servers[..i]), mxInfo.kind);
        MxKindsStep(mailServers, servers, i);
        mxGuess := AnyDisposable(mxGuess, mxInfo.kind);
        AddressKindsStep(mailServers, index, servers, i);
        AddressServicesStep(mailServers, index, servers, i);
        addressGuess, addressServices :=
          GuessFromAddresses(index, mxInfo.addresses, addressGuess, addressServices,
                             AddressKinds(mailServers, index, servers[..i]));
        MxServicesStep(index, servers, i);
        mxServices := mxServices + SetAt(index.serviceByMx, mx);
        i := i + 1;
      }
      assert servers[..|servers|] == servers;

      if mxGuess != UNKNOWN {
        r := SetService(d.(kind := mxGuess, heuristics := MX), mxServices);
      } else if addressGuess != UNKNOWN {
        r := SetService(d.(kind := addressGuess, heuristics := IP), addressServices);
      } else if d.kind != DEAD {
        r := d.(heuristics := NONE);
      } else {
        r := d;
      }
    }

    /** `query(domain, index)`: returns a stored domain as it is; otherwise enters it and
        applies the guess. The source updates the stored record in place; here the guessed
        record is stored again under the same name. */
    method Query(dns: Dns, domain: string, index: XRefIndex) returns (d: DomainData)
      requires Valid()
      modifies this
      ensures Valid()
      ensures (Snapshot(), d) == Queried(old(Snapshot()), index, dns, domain)
    {
      if domain in domains {
        return domains[domain];
      }
      ghost var db0 := Snapshot();
      EnteredProps(db0, dns, domain, None, UNKNOWN);
      QueriedNew(db0, index, dns, domain);
      d := EnterDomain(dns, domain, None, UNKNOWN);
      d := Guess(index, d);
      domains := domains[Lower(domain) := d];
    }

    /** `query(domain)`: builds the index from the store, then queries. */
    method QueryDomain(dns: Dns, domain: string) returns (d: DomainData)
      requires Valid()
      modifies this
      ensures Valid()
      ensures (Snapshot(), d) == Queried(old(Snapshot()), XRef(old(Snapshot())), dns, domain)
    {
      var index := BuildIndex();
      d := Query(dns, domain, index);
    }

    // ---- the cross-reference index ----

    /** `buildAddressClassification`. */
    method BuildAddressClassification() returns (result: map<string, Classification>)
      ensures result == AddressClassification(mailServers)
    {
      result := map[];
      var pending := mailServers.Keys;
      ghost var done: map<string, MxData> := map[];
      while pending != {}
        invariant pending !! done.Keys && pending + done.Keys == mailServers.Keys
        invariant forall m :: m in done ==> done[m] == mailServers[m]
        invariant result.Keys == AllAddresses(done)
        invariant forall a :: ClassificationAt(result, a) == CombineAll(KindsAt(done, a))
        decreases pending
      {
        var name :| name in pending;
        var mx := mailServers[name];
        ghost var before := result;
        result := CombineEach(result, mx.addresses, mx.kind);
        forall a ensures ClassificationAt(result, a) == CombineAll(KindsAt(done[name := mx], a)) {
          KindsAtStep(done, name, mx, a);
          CombineAllInsert(KindsAt(done, a), mx.kind);
        }
        AllAddressesStep(done, name, mx);
        done := done[name := mx];
        pending := pending - {name};
      }
      assert done == mailServers;
    }

    /** `buildServicesByMx`. */
    method BuildServicesByMx() returns (result: map<string, set<string>>)
      ensures result == ServicesByMx(domains)
    {
      result := map[];
      var pending := domains.Keys;
      ghost var done: map<string, DomainData> := map[];
      while pending != {}
        invariant pending !! done.Keys && pending + done.Keys == domains.Keys
        invariant forall e :: e in done ==> done[e] == domains[e]
        invariant result.Keys == ServedMxs(done)
        invariant forall m :: SetAt(result, m) == ServicesAtMx(done, m)
        decreases pending
      {
        var name :| name in pending;
        var domain := domains[name];
        if domain.service.Some? {
          result := AddToEach(result, domain.mailServers, domain.service.value);
        }
        forall m ensures SetAt(result, m) == ServicesAtMx(done[name := domain], m) {
          ServicesAtMxStep(done, name, domain, m);
        }
        ServedMxsStep(done, name, domain);
        done := done[name := domain];
        pending := pending - {name};
      }
      assert done == domains;
    }

    /** The services of one domain added to every address of its mail servers. */
    method AddToAddresses(result: map<string, set<string>>, servers: seq<string>, service: string)
      returns (r: map<string, set<string>>)
      requires forall m :: m in servers ==> m in mailServers
      ensures r.Keys == result.Keys + DomainAddresses(mailServers, servers)
      ensures forall a :: SetAt(r, a) == SetAt(result, a) + (if a in DomainAddresses(mailServers, servers) then {service} else {})
    {
      r := result;
      var j := 0;
      ghost var reached: set<string> := {};
      assert servers[..0] == [];
      while j < |servers|
        invariant 0 <= j <= |servers|
        invariant reached == DomainAddresses(mailServers, servers[..j])
        invariant r.Keys == result.Keys + reached
        invariant forall a :: SetAt(r, a) == SetAt(result, a) + (if a in reached then {service} else {})
      {
        DomainAddressesStep(mailServers, servers, j);
        var addresses := mailServers[servers[j]].addresses;
        var r' := AddToEach(r, addresses, service);
        AddedTwice(result, r, r', reached, addresses, service);
        r := r';
        reached := reached + Elems(addresses);
        j := j + 1;
      }
      assert servers[..|servers|] == servers;
    }

    /** One domain of `buildServicesByAddress`: its single service, if any, added to every
        address of its mail servers. */
    method AddDomainAddresses(result: map<string, set<string>>, ghost done: map<string, DomainData>,
                              name: string, domain: DomainData)
      returns (r: map<string, set<string>>)
      requires name !in done && forall m :: m in domain.mailServers ==> m in mailServers
      requires AddressTable(Db(done, mailServers), result)
      ensures AddressTable(Db(done[name := domain], mailServers), r)
    {
      r := result;
      if domain.service.Some? {
        r := AddToAddresses(r, domain.mailServers, domain.service.value);
      }
      forall a ensures SetAt(r, a) == ServicesAtAddress(Db(done[name := domain], mailServers), a) {
        ServicesAtAddressStep(Db(done, mailServers), name, domain, a);
      }
      ServedAddressesStep(Db(done, mailServers), name, domain);
    }

    /** `buildServicesByAddress`. The source looks up each listed mail server and fails on a
        missing one, hence the precondition. */
    method BuildServicesByAddress() returns (result: map<string, set<string>>)
      requires Valid()
      ensures result == ServicesByAddress(Snapshot())
    {
      result := map[];
      var pending := domains.Keys;
      ghost var done: map<string, DomainData> := map[];
      while pending != {}
        invariant pending !! done.Keys && pending + done.Keys == domains.Keys
        invariant forall e :: e in done ==> done[e] == domains[e]
        invariant AddressTable(Db(done, mailServers), result)
        decreases pending
      {
        var name :| name in pending;
        var domain := domains[name];
        result := AddDomainAddresses(result, done, name, domain);
        done := done[name := domain];
        pending := pending - {name};
      }
      assert done == domains;
    }

    /** `buildIndex`. */
    method BuildIndex() returns (index: XRefIndex)
      requires Valid()
      ensures index == XRef(Snapshot())
    {
      var addressClassification := BuildAddressClassification();
      var serviceByMx := BuildServicesByMx();
      var serviceByAddress := BuildServicesByAddress();
      index := XRefIndex(addressClassification, serviceByMx, serviceByAddress);
    }

    // ---- the aggregation pass ----

    /** The reset loop of `updateClassifications`. */
    method ResetKinds()
      modifies this
      ensures domains == old(domains) && mailServers.Keys == old(mailServers).Keys
      ensures forall m :: m in mailServers ==> mailServers[m] == old(mailServers)[m].(kind := UNKNOWN)
    {
      var pending := mailServers.Keys;
      while pending != {}
        invariant domains == old(domains) && mailServers.Keys == old(mailServers).Keys
        invariant forall m :: m in mailServers ==>
                    mailServers[m] == old(mailServers)[m].(kind := if m in pending then old(mailServers)[m].kind else UNKNOWN)
        decreases pending
      {
        var name :| name in pending;
        mailServers := mailServers[name := mailServers[name].(kind := UNKNOWN)];
        pending := pending - {name};
      }
    }

    /** One domain of `updateClassifications`: combines its kind into each mail server it
        lists. A server listed twice is combined twice, to the same effect. */
    method CombineKinds(servers: seq<string>, kind: Classification)
      requires forall m :: m in servers ==> m in mailServers
      modifies this
      ensures domains == old(domains) && mailServers.Keys == old(mailServers).Keys
      ensures forall m :: m in mailServers ==>
                mailServers[m] == old(mailServers)[m].(kind := if m in servers then Combine(old(mailServers)[m].kind, kind)
                                                              else old(mailServers)[m].kind)
    {
      var j := 0;
      while j < |servers|
        invariant 0 <= j <= |servers|
        invariant domains == old(domains) && mailServers.Keys == old(mailServers).Keys
        invariant forall m :: m in mailServers ==>
                    mailServers[m] == old(mailServers)[m].(kind := if m in servers[..j] then Combine(old(mailServers)[m].kind, kind)
                                                                  else old(mailServers)[m].kind)
      {
        var mx := servers[j];
        assert servers[..j + 1] == servers[..j] + [mx];
        var mxInfo := mailServers[mx];
        CombineRepeat(old(mailServers)[mx].kind, kind);
        mailServers := mailServers[mx := mxInfo.(kind := Combine(mxInfo.kind, kind))];
        j := j + 1;
      }
      assert servers[..|servers|] == servers;
    }

    /** `updateClassifications`: resets every mail server's kind, then folds `Combine` over the
        kinds of the domains that list it. The source fails on a listed mail server without a
        record, hence the precondition. */
    method UpdateClassifications()
      requires Valid()
      modifies this
      ensures Snapshot() == Aggregated(old(Snapshot()))
    {
      // Reset mx classification.
      ResetKinds();

      // Build mx classification from domain classification.
      var pending := domains.Keys;
      ghost var done: map<string, DomainData> := map[];
      while pending != {}
        invariant domains == old(domains) && mailServers.Keys == old(mailServers).Keys
        invariant pending !! done.Keys && pending + done.Keys == domains.Keys
        invariant forall e :: e in done ==> done[e] == domains[e]
        invariant forall m :: m in mailServers ==>
                    mailServers[m] == old(mailServers)[m].(kind := AggregateKind(done, m))
        decreases pending
      {
        var name :| name in pending;
        var domain := domains[name];
        CombineKinds(domain.mailServers, domain.kind);
        forall m | m in mailServers ensures mailServers[m] == old(mailServers)[m].(kind := AggregateKind(done[name := domain], m)) {
          KindsListingStep(done, name, domain, m);
          CombineAllInsert(KindsListing(done, m), domain.kind);
        }
        done := done[name := domain];
        pending := pending - {name};
      }
      assert done == domains;
    }

    // ---- batches ----

    /** `dumpDisposables`: the DISPOSABLE domains, sorted. */
    method DumpDisposables() returns (result: seq<string>)
      ensures StrictlySorted(result)
      ensures Elems(result) == set d | d in domains && domains[d].kind == DISPOSABLE
    {
      var found: seq<string> := [];
      var pending := domains.Keys;
      while pending != {}
        invariant pending <= domains.Keys
        invariant Elems(found) == set d | d in domains && d !in pending && domains[d].kind == DISPOSABLE
        decreases pending
      {
        var name :| name in pending;
        if domains[name].kind == DISPOSABLE {
          assert Elems(found + [name]) == Elems(found) + {name};
          found := found + [name];
        }
        pending := pending - {name};
      }
      result := SortedDistinct(found);
    }

    /** The reading loop of `load(file)` and `classify`: skips `#` lines and blank lines,
        queries every domain line against the index, and gives the record of each domain. */
    method QueryLines(dns: Dns, lines: seq<string>, index: XRefIndex) returns (results: map<string, DomainData>)
      requires Valid()
      modifies this
      ensures Valid()
      ensures (Snapshot(), results) == QueryAll(old(Snapshot()), index, dns, BatchDomains(lines))
    {
      ghost var db0 := Snapshot();
      results := map[];
      var i := 0;
      while i < |lines|
        invariant 0 <= i <= |lines|
        invariant Valid()
        invariant (Snapshot(), results) == QueryAll(db0, index, dns, BatchDomains(lines[..i]))
      {
        assert lines[..i + 1][..i] == lines[..i];
        match DomainOf(lines[i]) {
          case None =>
          case Some(domain) =>
            var info := Query(dns, domain, index);
            results := results[domain := info];
        }
        i := i + 1;
      }
      assert lines[..|lines|] == lines;
    }

    /** `load(file)`: queries every domain line against the index of the store as it was
        before the batch, then runs the aggregation pass. */
    method Load(dns: Dns, lines: seq<string>)
      requires Valid()
      modifies this
      ensures Snapshot() == Loaded(old(Snapshot()), dns, lines)
    {
      var index := BuildIndex();
      var domains := QueryLines(dns, lines, index);
      UpdateClassifications();
    }

    /** The inner copying loop of `classify`: puts this store's record of each listed mail
        server into the batch. */
    method CopyEach(batch: Index, servers: seq<string>)
      requires batch != this
      requires Elems(servers) <= mailServers.Keys
      modifies batch
      ensures batch.domains == old(batch.domains)
      ensures batch.mailServers.Keys == old(batch.mailServers).Keys + Elems(servers)
      ensures forall m :: m in batch.mailServers ==>
                batch.mailServers[m] == if m in servers then mailServers[m] else old(batch.mailServers)[m]
    {
      var j := 0;
      while j < |servers|
        invariant 0 <= j <= |servers|
        invariant batch.domains == old(batch.domains)
        invariant batch.mailServers.Keys == old(batch.mailServers).Keys + Elems(servers[..j])
        invariant forall m :: m in batch.mailServers ==>
                    batch.mailServers[m] == if m in servers[..j] then mailServers[m] else old(batch.mailServers)[m]
      {
        assert servers[..j + 1] == servers[..j] + [servers[j]];
        batch.mailServers := batch.mailServers[servers[j] := mailServers[servers[j]]];
        j := j + 1;
      }
      assert servers[..|servers|] == servers;
    }

    /** The copying loop of `classify`: puts this store's record of every mail server the
        batch's domains list into the batch. */
    method CopyMailServers(batch: Index)
      requires batch != this
      requires ListedBy(batch.domains) <= mailServers.Keys
      modifies batch
      ensures batch.domains == old(batch.domains)
      ensures batch.mailServers.Keys == old(batch.mailServers).Keys + ListedBy(batch.domains)
      ensures forall m :: m in batch.mailServers ==>
                batch.mailServers[m] == if m in ListedBy(batch.domains) then mailServers[m] else old(batch.mailServers)[m]
    {
      var pending := batch.domains.Keys;
      ghost var done: map<string, DomainData> := map[];
      ghost var listed: set<string> := {};
      while pending != {}
        invariant batch.domains == old(batch.domains)
        invariant pending !! done.Keys && pending + done.Keys == batch.domains.Keys
        invariant forall e :: e in done ==> done[e] == batch.domains[e]
        invariant listed == ListedBy(done) && listed <= ListedBy(batch.domains)
        invariant batch.mailServers.Keys == old(batch.mailServers).Keys + listed
        invariant forall m :: m in batch.mailServers ==>
                    batch.mailServers[m] == if m in listed then mailServers[m] else old(batch.mailServers)[m]
        decreases pending
      {
        var name :| name in pending;
        var servers := batch.domains[name].mailServers;
        ListedByStep(done, name, batch.domains[name]);
        ListedByEntry(batch.domains, name);
        CopyEach(batch, servers);
        done := done[name := batch.domains[name]];
        listed := listed + Elems(servers);
        pending := pending - {name};
      }
      assert done == batch.domains;
    }

    /** The store takes over the batch's records of the mail servers the batch holds. */
    method AdoptMailServers(batch: Index)
      requires batch != this
      modifies this
      ensures domains == old(domains)
      ensures mailServers == map m | m in old(mailServers)
                               :: if m in batch.mailServers then batch.mailServers[m] else old(mailServers)[m]
    {
      mailServers := map m | m in mailServers
                       :: if m in batch.mailServers then batch.mailServers[m] else mailServers[m];
    }

    /** `classify(db, file)` on a new batch store: queries every domain line against the index
        of this store, puts each record into the batch, copies the records of the mail servers
        they list, and runs the aggregation pass on the batch. In the source the batch and this
        store share those mail-server records, so the pass rewrites the kinds here too; the model
        writes the batch's records back to reproduce that. */
    method Classify(dns: Dns, lines: seq<string>) returns (batch: Index)
      requires Valid()
      modifies this
      ensures fresh(batch)
      ensures (Snapshot(), batch.Snapshot()) == Classified(old(Snapshot()), dns, lines)
    {
      ghost var db0 := Snapshot();
      batch := new Index();
      var index := BuildIndex();
      var results := QueryLines(dns, lines, index);
      batch.domains := results;
      QueryAllProps(db0, index, dns, BatchDomains(lines));
      ghost var db1 := Snapshot();
      assert (db1, results) == QueryAll(db0, XRef(db0), dns, BatchDomains(lines));

      // Copy mail server section to result.
      ghost var listed := ListedBy(results);
      assert listed <= db1.mailServers.Keys;
      CopyMailServers(batch);
      ghost var copied := map m | m in listed && m in db1.mailServers :: db1.mailServers[m];
      CopiedMap(db1.mailServers, listed, batch.mailServers);
      batch.UpdateClassifications();
      ghost var aggregated := Aggregated(Db(results, copied));
      assert batch.Snapshot() == aggregated;

      // The store shares the batch's mail-server records.
      AdoptMailServers(batch);
      ClassifiedUnfold(db0, dns, lines, db1, results);
    }

    /** One domain line of `load(file, classification)`: a domain already in the store is
        skipped, a new one is entered. */
    method EnterIfNew(dns: Dns, domain: string, service: Option<string>, kind: Classification)
      requires Valid() && IsLower(domain)
      modifies this
      ensures Valid()
      ensures Snapshot() == EnterOne(old(Snapshot()), dns, domain, service, kind)
    {
      EnterOneProps(Snapshot(), dns, domain, service, kind);
      if domain !in domains {
        var info := EnterDomain(dns, domain, service, kind);
      }
    }

    /** `load(file, classification)`: enters every new domain line with the batch's kind and
        the service in force at its first line, then runs the aggregation pass. */
    method LoadClassified(dns: Dns, lines: seq<string>, kind: Classification)
      requires Valid()
      modifies this
      ensures Snapshot() == LoadedClassified(old(Snapshot()), dns, lines, kind)
    {
      ghost var db0 := Snapshot();
      var service: Option<string> := None;
      var i := 0;
      while i < |lines|
        invariant 0 <= i <= |lines|
        invariant Valid()
        invariant service == ServiceAfter(lines[..i])
        invariant Snapshot() == EnterNew(db0, dns, LoadEntries(lines[..i]), kind)
      {
        var line := lines[i];
        LoadLineStep(db0, dns, lines, i, kind);
        if IsHeader(line) {
          var name := Trim(line[1..]);
          service := if name == [] then None else Some(name);
        } else {
          var domain := Lower(Trim(line));
          if domain == [] {
            service := None;
          } else {
            EnterIfNew(dns, domain, service, kind);
          }
        }
        i := i + 1;
      }
      assert lines[..|lines|] == lines;
      UpdateClassifications();
    }
  }
}
