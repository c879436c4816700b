/** The aggregation pass (`updateClassifications`): every mail server's kind is recomputed
    from scratch as the `Combine`-fold of the kinds of the domains that list it. */
module Aggregation {
  import opened Lattice
  import opened Text
  import opened Records

  /** The kinds of the domains that list mail server `m`. */
  ghost function KindsListing(domains: map<string, DomainData>, m: string): set<Classification>
  {
    set d | d in domains && m in domains[d].mailServers :: domains[d].kind
  }

  /** The kind the aggregation pass gives mail server `m`. */
  ghost function AggregateKind(domains: map<string, DomainData>, m: string): Classification
  {
    CombineAll(KindsListing(domains, m))
  }

  /** The store after the aggregation pass. */
  ghost function Aggregated(db: Db): (r: Db)
    ensures r.domains == db.domains && r.mailServers.Keys == db.mailServers.Keys
    ensures forall m :: m in r.mailServers ==>
              r.mailServers[m].addresses == db.mailServers[m].addresses
  {
    db.(mailServers := map m | m in db.mailServers
                            :: db.mailServers[m].(kind := AggregateKind(db.domains, m)))
  }

  /** A mail server that no domain lists ends as UNKNOWN. */
  lemma UnlistedIsUnknown(db: Db, m: string)
    requires m in db.mailServers
    requires forall d :: d in db.domains ==> m !in db.domains[d].mailServers
    ensures Aggregated(db).mailServers[m].kind == UNKNOWN
  {
    assert KindsListing(db.domains, m) == {};
  }

  /** A mail server listed only by domains of one known kind `k` takes that kind. */
  lemma UniformListing(db: Db, m: string, d: string, k: Classification)
    requires m in db.mailServers && k != UNKNOWN
    requires d in db.domains && m in db.domains[d].mailServers && db.domains[d].kind == k
    requires forall e :: e in db.domains && m in db.domains[e].mailServers ==>
               db.domains[e].kind in {UNKNOWN, k}
    ensures Aggregated(db).mailServers[m].kind == k
  {
    CombineAllUniform(KindsListing(db.domains, m), k);
  }

  /** A mail server listed by domains of two different known kinds becomes MIXED. */
  lemma ConflictingListing(db: Db, m: string, d: string, e: string)
    requires m in db.mailServers
    requires d in db.domains && m in db.domains[d].mailServers
    requires e in db.domains && m in db.domains[e].mailServers
    requires db.domains[d].kind != UNKNOWN && db.domains[e].kind != UNKNOWN
    requires db.domains[d].kind != db.domains[e].kind
    ensures Aggregated(db).mailServers[m].kind == MIXED
  {
    CombineAllConflict(KindsListing(db.domains, m), db.domains[d].kind, db.domains[e].kind);
  }

  /** The pass recomputes from scratch: the kinds the mail servers had before play no part. */
  lemma AggregatedFromScratch(db: Db, db': Db)
    requires db.domains == db'.domains && db.mailServers.Keys == db'.mailServers.Keys
    requires forall m :: m in db.mailServers ==>
               db.mailServers[m].addresses == db'.mailServers[m].addresses
    ensures Aggregated(db) == Aggregated(db')
  {
    var a, a' := Aggregated(db), Aggregated(db');
    assert forall m :: m in a.mailServers ==> a.mailServers[m] == a'.mailServers[m];
  }

  /** Running the pass twice is running it once. */
  lemma AggregatedIdempotent(db: Db)
    ensures Aggregated(Aggregated(db)) == Aggregated(db)
  {
    AggregatedFromScratch(Aggregated(db), db);
  }

  /** The pass keeps the store well formed. */
  lemma AggregatedValid(db: Db)
    requires db.Valid()
    ensures Aggregated(db).Valid()
  {
  }

  /** One more domain taken into account by the aggregation loop. */
  lemma KindsListingStep(domains: map<string, DomainData>, d: string, v: DomainData, m: string)
    requires d !in domains
    ensures KindsListing(domains[d := v], m)
            == if m in v.mailServers then KindsListing(domains, m) + {v.kind} else KindsListing(domains, m)
  {
    var l := KindsListing(domains[d := v], m);
    forall k | k in KindsListing(domains, m) ensures k in l {
      var d' :| d' in domains && m in domains[d'].mailServers && domains[d'].kind == k;
      assert d' in domains[d := v] && domains[d := v][d'] == domains[d'];
    }
    if m in v.mailServers {
      assert d in domains[d := v] && domains[d := v][d] == v;
    }
  }
}
