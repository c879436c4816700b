/** The batch commands over input lines: `load(file)` and `classify` query every domain line
    against an index built once before the batch; `load(file, classification)` enters every new
    domain with the kind of the batch and the service in force at its first line: set by the last
    `#` header, cleared by a blank line or an empty header. */
module Batch {
  import opened Lattice
  import opened Text
  import opened Records
  import opened CrossRef
  import opened Aggregation
  import opened Resolution

  /** A comment or service-header line. */
  predicate IsHeader(line: string)
  {
    line != [] && line[0] == '#'
  }

  /** The domain a line names: none for a `#` line, otherwise the trimmed, lower-cased line,
      unless that is empty. */
  function DomainOf(line: string): (r: Option<string>)
    ensures r.Some? ==> r.value != [] && IsLower(r.value)
  {
    if IsHeader(line) then None
    else
      var domain := Lower(Trim(line));
      if domain == [] then None else Some(domain)
  }

  /** The domains of the batch, in input order. */
  function BatchDomains(lines: seq<string>): (r: seq<string>)
    ensures forall d :: d in r ==> d != [] && IsLower(d)
  {
    if lines == [] then []
    else
      var init := BatchDomains(lines[..|lines| - 1]);
      match DomainOf(lines[|lines| - 1])
        case None => init
        case Some(d) => init + [d]
  }

  /** The service a `#` header names: its trimmed text after the `#`, none when that is empty. */
  function HeaderService(line: string): (r: Option<string>)
    requires IsHeader(line)
    ensures r.Some? ==> r.value != [] && r.value == Trim(r.value)
  {
    var service := Trim(line[1..]);
    TrimIdempotent(line[1..]);
    if service == [] then None else Some(service)
  }

  lemma TrimIdempotent(s: string)
    ensures Trim(Trim(s)) == Trim(s)
  {
    var t := Trim(s);
    if t != [] {
      assert TrimStart(t) == t;
      assert TrimEnd(t) == t;
    }
  }

  /** The service in force after the given lines: set by the last `#` header, cleared by a
      blank line or an empty header after it. */
  function ServiceAfter(lines: seq<string>): Option<string>
  {
    if lines == [] then None
    else
      var last := lines[|lines| - 1];
      if IsHeader(last) then HeaderService(last)
      else if Trim(last) == [] then None
      else ServiceAfter(lines[..|lines| - 1])
  }

  /** The domain lines of a classified load, each with the service in force where it stands. */
  function LoadEntries(lines: seq<string>): seq<(string, Option<string>)>
  {
    if lines == [] then []
    else
      var init := lines[..|lines| - 1];
      match DomainOf(lines[|lines| - 1])
        case None => LoadEntries(init)
        case Some(d) => LoadEntries(init) + [(d, ServiceAfter(init))]
  }

  /** A line that neither names a domain nor is a header: it is blank. */
  predicate IsBlankLine(line: string)
  {
    !IsHeader(line) && Trim(line) == []
  }

  /** A header names the service of every domain line after it, up to the next header or
      blank line. */
  lemma {:induction false} HeaderScope(before: seq<string>, header: string, after: seq<string>)
    requires IsHeader(header)
    requires forall l :: l in after ==> !IsHeader(l) && !IsBlankLine(l)
    ensures ServiceAfter(before + [header] + after) == HeaderService(header)
  {
    if after != [] {
      var init := after[..|after| - 1];
      HeaderScope(before, header, init);
      assert (before + [header] + after)[..|before + [header] + after| - 1] == before + [header] + init;
      assert after[|after| - 1] in after;
    } else {
      assert before + [header] + after == before + [header];
    }
  }

  /** After a blank line, domain lines carry no service until the next header. */
  lemma {:induction false} BlankScope(before: seq<string>, blank: string, after: seq<string>)
    requires IsBlankLine(blank)
    requires forall l :: l in after ==> !IsHeader(l) && !IsBlankLine(l)
    ensures ServiceAfter(before + [blank] + after) == None
  {
    if after != [] {
      var init := after[..|after| - 1];
      BlankScope(before, blank, init);
      assert (before + [blank] + after)[..|before + [blank] + after| - 1] == before + [blank] + init;
      assert after[|after| - 1] in after;
    } else {
      assert before + [blank] + after == before + [blank];
    }
  }

  /** The entries of a classified load are exactly the batch's domains, in order. */
  lemma {:induction false} LoadEntriesDomains(lines: seq<string>)
    ensures |LoadEntries(lines)| == |BatchDomains(lines)|
    ensures forall i :: 0 <= i < |LoadEntries(lines)| ==> LoadEntries(lines)[i].0 == BatchDomains(lines)[i]
  {
    if lines != [] {
      LoadEntriesDomains(lines[..|lines| - 1]);
    }
  }

  // ---- load(file) and classify: every domain queried against one index ----

  /** The store after querying the domains in turn, and the record returned for each. */
  ghost function QueryAll(db: Db, index: XRefIndex, dns: Dns, domains: seq<string>): (Db, map<string, DomainData>)
  {
    if domains == [] then (db, map[])
    else
      QueryNext(QueryAll(db, index, dns, domains[..|domains| - 1]), index, dns, domains[|domains| - 1])
  }

  /** One more domain queried: the store afterwards, and the results with its record. */
  ghost function QueryNext(state: (Db, map<string, DomainData>), index: XRefIndex, dns: Dns, domain: string)
    : (Db, map<string, DomainData>)
  {
    var (db, d) := Queried(state.0, index, dns, domain);
    (db, state.1[domain := d])
  }

  /** The store `db'` grows `db` by the given domains: it stays well formed and keeps every
      domain and mail-server record that was there. */
  ghost predicate GrownBy(db: Db, db': Db, domains: set<string>)
  {
    && db'.Valid()
    && db'.domains.Keys == db.domains.Keys + domains
    && (forall d :: d in db.domains ==> db'.domains[d] == db.domains[d])
    && (forall m :: m in db.mailServers ==> m in db'.mailServers && db'.mailServers[m] == db.mailServers[m])
  }

  /** The results hold, for exactly the given domains, the record the store keeps. */
  ghost predicate ResultsOf(db': Db, results: map<string, DomainData>, domains: set<string>)
  {
    && results.Keys == domains
    && (forall d :: d in results ==> d in db'.domains && results[d] == db'.domains[d])
  }

  /** What querying the domains in turn promises. */
  ghost predicate QueriedBatch(db: Db, db': Db, results: map<string, DomainData>, domains: set<string>)
  {
    GrownBy(db, db', domains) && ResultsOf(db', results, domains)
  }

  /** One more record added to the store. */
  lemma GrownByExtend(db: Db, db1: Db, domains: set<string>, db2: Db, last: string, d: DomainData)
    requires GrownBy(db, db1, domains)
    requires db2.Valid() && db2.domains == db1.domains[last := d]
    requires last in db1.domains ==> d == db1.domains[last]
    requires forall m :: m in db1.mailServers ==> m in db2.mailServers && db2.mailServers[m] == db1.mailServers[m]
    ensures GrownBy(db, db2, domains + {last})
  {
    forall x | x in db.domains ensures db2.domains[x] == db.domains[x] {
      if x == last {
        assert last in db1.domains;
      }
    }
  }

  /** One more record added to the results and the store. */
  lemma ResultsOfExtend(db1: Db, results: map<string, DomainData>, domains: set<string>, db2: Db,
                        last: string, d: DomainData)
    requires ResultsOf(db1, results, domains)
    requires db2.domains == db1.domains[last := d]
    ensures ResultsOf(db2, results[last := d], domains + {last})
  {
  }

  /** One more domain queried. */
  lemma QueriedBatchStep(db: Db, state: (Db, map<string, DomainData>), domains: set<string>,
                         index: XRefIndex, dns: Dns, last: string)
    requires QueriedBatch(db, state.0, state.1, domains) && IsLower(last)
    ensures var next := QueryNext(state, index, dns, last);
            QueriedBatch(db, next.0, next.1, domains + {last})
  {
    var step := Queried(state.0, index, dns, last);
    QueriedProps(state.0, index, dns, last);
    GrownByExtend(db, state.0, domains, step.0, last, step.1);
    ResultsOfExtend(state.0, state.1, domains, step.0, last, step.1);
  }

  /** Querying lower-case domains in turn keeps the store well formed, adds exactly the batch's
      domains, changes no domain or mail-server record that was there, and returns for every
      domain the record the store ends with. */
  lemma {:induction false} QueryAllProps(db: Db, index: XRefIndex, dns: Dns, domains: seq<string>)
    requires db.Valid()
    requires forall d :: d in domains ==> IsLower(d)
    ensures QueriedBatch(db, QueryAll(db, index, dns, domains).0, QueryAll(db, index, dns, domains).1, Elems(domains))
  {
    if domains != [] {
      var init := domains[..|domains| - 1];
      var last := domains[|domains| - 1];
      assert domains == init + [last];
      QueryAllProps(db, index, dns, init);
      QueriedBatchStep(db, QueryAll(db, index, dns, init), Elems(init), index, dns, last);
      assert Elems(domains) == Elems(init) + {last};
    }
  }

  /** `load(file)`: query every domain of the batch against the index of the store as it was
      before the batch, then run the aggregation pass. */
  ghost function Loaded(db: Db, dns: Dns, lines: seq<string>): Db
  {
    Aggregated(QueryAll(db, XRef(db), dns, BatchDomains(lines)).0)
  }

  /** The mail servers the given domains list. */
  ghost function ListedBy(domains: map<string, DomainData>): set<string>
  {
    set d, m | d in domains && m in domains[d].mailServers :: m
  }

  lemma ListedByEntry(domains: map<string, DomainData>, d: string)
    requires d in domains
    ensures Elems(domains[d].mailServers) <= ListedBy(domains)
  {
    forall m | m in Elems(domains[d].mailServers) ensures m in ListedBy(domains) {
      assert m in domains[d].mailServers;
    }
  }

  lemma ListedByStep(domains: map<string, DomainData>, d: string, v: DomainData)
    requires d !in domains
    ensures ListedBy(domains[d := v]) == ListedBy(domains) + Elems(v.mailServers)
  {
    var l := ListedBy(domains[d := v]);
    forall m | m in ListedBy(domains) ensures m in l {
      var d' :| d' in domains && m in domains[d'].mailServers;
      assert d' in domains[d := v] && domains[d := v][d'] == domains[d'];
    }
    forall m | m in Elems(v.mailServers) ensures m in l {
      assert d in domains[d := v] && domains[d := v][d] == v;
    }
  }

  /** `classify(db, file)`: the store afterwards and the batch result. The batch holds the
      records returned for its domains and the store's records of the mail servers they list,
      aggregated over the batch's domains only. The source shares those mail-server records
      between the batch and the store, so the store's copies take the batch's kinds too. */
  ghost function Classified(db: Db, dns: Dns, lines: seq<string>): (Db, Db)
  {
    var (db1, results) := QueryAll(db, XRef(db), dns, BatchDomains(lines));
    var copied := map m | m in ListedBy(results) && m in db1.mailServers :: db1.mailServers[m];
    var batch := Aggregated(Db(results, copied));
    var store := db1.(mailServers := map m | m in db1.mailServers
                        :: if m in batch.mailServers then batch.mailServers[m] else db1.mailServers[m]);
    (store, batch)
  }

  /** `Classified` in terms of the store and the results after the queries. */
  lemma ClassifiedUnfold(db: Db, dns: Dns, lines: seq<string>, db1: Db, results: map<string, DomainData>)
    requires (db1, results) == QueryAll(db, XRef(db), dns, BatchDomains(lines))
    ensures var copied := map m | m in ListedBy(results) && m in db1.mailServers :: db1.mailServers[m];
            var batch := Aggregated(Db(results, copied));
            Classified(db, dns, lines)
            == (db1.(mailServers := map m | m in db1.mailServers
                       :: if m in batch.mailServers then batch.mailServers[m] else db1.mailServers[m]),
                batch)
  {
  }

  /** The batch result is well formed and holds one record per batch domain, the same record
      the store keeps; every mail server of the batch is one its domains list, with the store's
      addresses, and the store's record of it carries the batch's kind. */
  lemma ClassifiedProps(db: Db, dns: Dns, lines: seq<string>)
    requires db.Valid()
    ensures var (store, batch) := Classified(db, dns, lines);
            && store.Valid() && batch.Valid()
            && batch.domains.Keys == Elems(BatchDomains(lines))
            && (forall d :: d in batch.domains ==> d in store.domains && batch.domains[d] == store.domains[d])
            && batch.mailServers.Keys == ListedBy(batch.domains)
            && (forall m :: m in batch.mailServers ==> m in store.mailServers && store.mailServers[m] == batch.mailServers[m])
            && (forall m :: m in batch.mailServers ==> batch.mailServers[m].kind == AggregateKind(batch.domains, m))
  {
    var domains := BatchDomains(lines);
    QueryAllProps(db, XRef(db), dns, domains);
    var (db1, results) := QueryAll(db, XRef(db), dns, domains);
    assert ListedBy(results) <= db1.mailServers.Keys;
  }

  // ---- load(file, classification): every new domain entered with the batch's kind ----

  /** The store after entering each new domain of the entries, with the batch's kind and the
      entry's service; domains already present are skipped. */
  function EnterNew(db: Db, dns: Dns, entries: seq<(string, Option<string>)>, kind: Classification): Db
  {
    if entries == [] then db
    else
      var (domain, service) := entries[|entries| - 1];
      EnterOne(EnterNew(db, dns, entries[..|entries| - 1], kind), dns, domain, service, kind)
  }

  /** One line of a classified load: a domain already present is skipped. */
  function EnterOne(db: Db, dns: Dns, domain: string, service: Option<string>, kind: Classification): Db
  {
    if domain in db.domains then db else Entered(db, dns, domain, service, kind).0
  }

  lemma EnterOneProps(db: Db, dns: Dns, domain: string, service: Option<string>, kind: Classification)
    requires db.Valid() && IsLower(domain)
    ensures var db' := EnterOne(db, dns, domain, service, kind);
            && db'.Valid()
            && db'.domains.Keys == db.domains.Keys + {domain}
            && (forall d :: d in db.domains ==> db'.domains[d] == db.domains[d])
            && (domain !in db.domains ==>
                  && db'.domains[domain].kind in {kind, DEAD} && db'.domains[domain].potentialServices == []
                  && db'.domains[domain].service == service)
  {
    LowerOfLower(domain);
    if domain !in db.domains {
      EnteredProps(db, dns, domain, service, kind);
      EnteredKind(db, dns, domain, service, kind);
    }
  }

  /** `load(file, classification)`: enter the new domains, then run the aggregation pass. */
  ghost function LoadedClassified(db: Db, dns: Dns, lines: seq<string>, kind: Classification): Db
  {
    Aggregated(EnterNew(db, dns, LoadEntries(lines), kind))
  }

  /** One more line of a classified load: a header or blank line sets the service in force
      and enters nothing; a domain line enters its domain with the service in force before it. */
  lemma LoadLineStep(db: Db, dns: Dns, lines: seq<string>, i: nat, kind: Classification)
    requires i < |lines|
    ensures ServiceAfter(lines[..i + 1])
            == if IsHeader(lines[i]) then HeaderService(lines[i])
               else if DomainOf(lines[i]).None? then None
               else ServiceAfter(lines[..i])
    ensures EnterNew(db, dns, LoadEntries(lines[..i + 1]), kind)
            == match DomainOf(lines[i])
               case None => EnterNew(db, dns, LoadEntries(lines[..i]), kind)
               case Some(d) => EnterOne(EnterNew(db, dns, LoadEntries(lines[..i]), kind), dns, d, ServiceAfter(lines[..i]), kind)
  {
    var pre := lines[..i + 1];
    assert pre[..|pre| - 1] == lines[..i];
    assert pre[|pre| - 1] == lines[i];
    if DomainOf(lines[i]).Some? {
      var e := (DomainOf(lines[i]).value, ServiceAfter(lines[..i]));
      var es := LoadEntries(lines[..i]) + [e];
      assert es[..|es| - 1] == LoadEntries(lines[..i]);
    }
  }

  /** The domains of the entries, in order. */
  function EntryDomains(entries: seq<(string, Option<string>)>): (r: seq<string>)
    ensures |r| == |entries| && forall i :: 0 <= i < |entries| ==> r[i] == entries[i].0
  {
    if entries == [] then [] else EntryDomains(entries[..|entries| - 1]) + [entries[|entries| - 1].0]
  }

  /** `db'` is `db` with the domains of `names` entered by a classified load: well formed,
      holding exactly those domains more, every domain already present as it was, and every
      new domain with the batch's kind, or DEAD when DNS shows it dead, and no potential
      services. */
  ghost predicate EnteredBatch(db: Db, db': Db, names: set<string>, kind: Classification)
  {
    && db'.Valid()
    && db'.domains.Keys == db.domains.Keys + names
    && (forall d :: d in db.domains ==> db'.domains[d] == db.domains[d])
    && (forall d :: d in db'.domains && d !in db.domains ==>
          db'.domains[d].kind in {kind, DEAD} && db'.domains[d].potentialServices == [])
  }

  /** One more entry: what holds after the earlier entries holds after this one too. */
  lemma EnterNewStep(db: Db, dns: Dns, entries: seq<(string, Option<string>)>, kind: Classification)
    requires entries != [] && IsLower(entries[|entries| - 1].0)
    requires EnteredBatch(db, EnterNew(db, dns, entries[..|entries| - 1], kind),
                          Elems(EntryDomains(entries[..|entries| - 1])), kind)
    ensures EnteredBatch(db, EnterNew(db, dns, entries, kind), Elems(EntryDomains(entries)), kind)
  {
    var init := entries[..|entries| - 1];
    var (domain, service) := entries[|entries| - 1];
    var db1 := EnterNew(db, dns, init, kind);
    EnteredBatchStep(db, db1, Elems(EntryDomains(init)), dns, domain, service, kind);
    assert EntryDomains(entries) == EntryDomains(init) + [domain];
    assert Elems(EntryDomains(entries)) == Elems(EntryDomains(init)) + {domain};
  }

  lemma EnteredBatchStep(db: Db, db1: Db, names: set<string>, dns: Dns, domain: string,
                         service: Option<string>, kind: Classification)
    requires EnteredBatch(db, db1, names, kind) && IsLower(domain)
    ensures EnteredBatch(db, EnterOne(db1, dns, domain, service, kind), names + {domain}, kind)
  {
    EnterOneProps(db1, dns, domain, service, kind);
  }

  /** Entering keeps the store well formed, adds exactly the entries' domains, leaves every
      domain already present as it was, and gives every new domain the batch's kind, or DEAD
      when DNS shows it dead, with no potential services. */
  lemma {:induction false} EnterNewProps(db: Db, dns: Dns, entries: seq<(string, Option<string>)>, kind: Classification)
    requires db.Valid()
    requires forall d :: d in EntryDomains(entries) ==> IsLower(d)
    ensures EnteredBatch(db, EnterNew(db, dns, entries, kind), Elems(EntryDomains(entries)), kind)
  {
    if entries != [] {
      var init := entries[..|entries| - 1];
      assert EntryDomains(entries)[..|init|] == EntryDomains(init);
      EnterNewProps(db, dns, init, kind);
      EnterNewStep(db, dns, entries, kind);
    }
  }

  /** An entered domain keeps the kind it was entered with, unless DNS shows it dead. */
  lemma EnteredKind(db: Db, dns: Dns, domain: string, service: Option<string>, kind: Classification)
    ensures Entered(db, dns, domain, service, kind).1.kind in {kind, DEAD}
  {
  }

  /** In a classified load, a domain already in the store is never touched: the load only adds
      domains and re-aggregates mail-server kinds. */
  lemma LoadedClassifiedKeeps(db: Db, dns: Dns, lines: seq<string>, kind: Classification)
    requires db.Valid()
    ensures var db' := LoadedClassified(db, dns, lines, kind);
            && db'.Valid()
            && db'.domains.Keys == db.domains.Keys + Elems(BatchDomains(lines))
            && (forall d :: d in db.domains ==> db'.domains[d] == db.domains[d])
  {
    LoadedEntered(db, dns, lines, kind);
    AggregatedValid(EnterNew(db, dns, LoadEntries(lines), kind));
  }

  /** Entering the lines of a classified load adds exactly the batch's domains. */
  lemma LoadedEntered(db: Db, dns: Dns, lines: seq<string>, kind: Classification)
    requires db.Valid()
    ensures EnteredBatch(db, EnterNew(db, dns, LoadEntries(lines), kind), Elems(BatchDomains(lines)), kind)
  {
    var entries := LoadEntries(lines);
    LoadEntriesDomains(lines);
    assert EntryDomains(entries) == BatchDomains(lines);
    EnterNewProps(db, dns, entries, kind);
  }

  /** Every domain of the batch comes from one of its lines. */
  lemma {:induction false} BatchDomainsFrom(lines: seq<string>, d: string)
    requires d in BatchDomains(lines)
    ensures exists j :: 0 <= j < |lines| && DomainOf(lines[j]) == Some(d)
  {
    var init := lines[..|lines| - 1];
    if d in BatchDomains(init) {
      BatchDomainsFrom(init, d);
      var j :| 0 <= j < |init| && DomainOf(init[j]) == Some(d);
      assert lines[j] == init[j];
    }
  }

  /** A domain not yet in the store is absent after the lines before its first line. */
  lemma NotEnteredBefore(db: Db, dns: Dns, lines: seq<string>, kind: Classification, d: string)
    requires db.Valid() && d !in db.domains
    requires forall j :: 0 <= j < |lines| ==> DomainOf(lines[j]) != Some(d)
    ensures EnterNew(db, dns, LoadEntries(lines), kind).Valid()
    ensures d !in EnterNew(db, dns, LoadEntries(lines), kind).domains
  {
    LoadedEntered(db, dns, lines, kind);
    if d in BatchDomains(lines) {
      BatchDomainsFrom(lines, d);
    }
  }

  /** A domain new to the store, entered by a classified load, carries the service in force at
      its first line; later lines naming it again change nothing. */
  lemma {:induction false} EnterNewService(db: Db, dns: Dns, lines: seq<string>, kind: Classification, k: nat)
    requires db.Valid()
    requires k < |lines| && DomainOf(lines[k]).Some? && DomainOf(lines[k]).value !in db.domains
    requires forall j :: 0 <= j < k ==> DomainOf(lines[j]) != DomainOf(lines[k])
    ensures var db' := EnterNew(db, dns, LoadEntries(lines), kind);
            DomainOf(lines[k]).value in db'.domains
            && db'.domains[DomainOf(lines[k]).value].service == ServiceAfter(lines[..k])
  {
    var n := |lines| - 1;
    var init := lines[..n];
    var d := DomainOf(lines[k]).value;
    LoadLineStep(db, dns, lines, n, kind);
    assert lines[..n + 1] == lines;
    var db1 := EnterNew(db, dns, LoadEntries(init), kind);
    if k < n {
      assert init[k] == lines[k] && init[..k] == lines[..k];
      assert forall j :: 0 <= j < k ==> init[j] == lines[j];
      EnterNewService(db, dns, init, kind, k);
      LoadedEntered(db, dns, init, kind);
      if DomainOf(lines[n]).Some? {
        EnterOneProps(db1, dns, DomainOf(lines[n]).value, ServiceAfter(init), kind);
      }
    } else {
      assert forall j :: 0 <= j < |init| ==> init[j] == lines[j];
      NotEnteredBefore(db, dns, init, kind, d);
      EnterOneProps(db1, dns, d, ServiceAfter(init), kind);
    }
  }

  /** After `load(file, classification)`, a domain that was new to the store has the service in
      force at its first line of the batch. */
  lemma LoadedClassifiedService(db: Db, dns: Dns, lines: seq<string>, kind: Classification, k: nat)
    requires db.Valid()
    requires k < |lines| && DomainOf(lines[k]).Some? && DomainOf(lines[k]).value !in db.domains
    requires forall j :: 0 <= j < k ==> DomainOf(lines[j]) != DomainOf(lines[k])
    ensures var db' := LoadedClassified(db, dns, lines, kind);
            DomainOf(lines[k]).value in db'.domains
            && db'.domains[DomainOf(lines[k]).value].service == ServiceAfter(lines[..k])
  {
    EnterNewService(db, dns, lines, kind, k);
  }
}
