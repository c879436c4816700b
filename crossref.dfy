/** The lookup tables that the engine derives from the store before a batch
    (`buildIndex`): the classification of every address and the candidate services of every
    mail server and every address. These are the reference definitions that the building
    loops of the Store module are proved against. */
module CrossRef {
  import opened Lattice
  import opened Text
  import opened Records

  /** The kinds of the mail servers that hold address `a`. */
  ghost function KindsAt(ms: map<string, MxData>, a: string): set<Classification>
  {
    set m | m in ms && a in ms[m].addresses :: ms[m].kind
  }

  /** Every address of every mail server. */
  ghost function AllAddresses(ms: map<string, MxData>): set<string>
  {
    set m, a | m in ms && a in ms[m].addresses :: a
  }

  /** `buildAddressClassification`: each address with the `Combine`-fold of the kinds of all
      mail servers that hold it. */
  ghost function AddressClassification(ms: map<string, MxData>): map<string, Classification>
  {
    map a | a in AllAddresses(ms) :: CombineAll(KindsAt(ms, a))
  }

  /** The services of the domains that name a single service and list mail server `m`. */
  ghost function ServicesAtMx(domains: map<string, DomainData>, m: string): set<string>
  {
    set d | d in domains && domains[d].service.Some? && m in domains[d].mailServers
      :: domains[d].service.value
  }

  /** The mail servers listed by domains that name a single service. */
  ghost function ServedMxs(domains: map<string, DomainData>): set<string>
  {
    set d, m | d in domains && domains[d].service.Some? && m in domains[d].mailServers :: m
  }

  /** `buildServicesByMx`. */
  ghost function ServicesByMx(domains: map<string, DomainData>): map<string, set<string>>
  {
    map m | m in ServedMxs(domains) :: ServicesAtMx(domains, m)
  }

  /** The addresses of a listed mail server (none when it has no record). */
  ghost function AddressesOf(ms: map<string, MxData>, m: string): set<string>
  {
    if m in ms then Elems(ms[m].addresses) else {}
  }

  /** The services of the domains that name a single service and use address `a`
      through one of their mail servers. */
  ghost function ServicesAtAddress(db: Db, a: string): set<string>
  {
    set d, m | d in db.domains && db.domains[d].service.Some? && m in db.domains[d].mailServers
                 && a in AddressesOf(db.mailServers, m)
      :: db.domains[d].service.value
  }

  /** The addresses reached from domains that name a single service. */
  ghost function ServedAddresses(db: Db): set<string>
  {
    set d, m, a | d in db.domains && db.domains[d].service.Some? && m in db.domains[d].mailServers
                    && a in AddressesOf(db.mailServers, m)
      :: a
  }

  /** `buildServicesByAddress`. */
  ghost function ServicesByAddress(db: Db): map<string, set<string>>
  {
    map a | a in ServedAddresses(db) :: ServicesAtAddress(db, a)
  }

  /** `buildIndex`. */
  ghost function XRef(db: Db): XRefIndex
  {
    XRefIndex(AddressClassification(db.mailServers), ServicesByMx(db.domains), ServicesByAddress(db))
  }

  /** A service reaches a mail server in the index exactly when some domain naming that
      single service lists the server; a domain's `potentialServices` play no part. */
  lemma ServicesByMxReach(domains: map<string, DomainData>, m: string, s: string)
    ensures (m in ServicesByMx(domains) && s in ServicesByMx(domains)[m])
            <==> exists d :: d in domains && domains[d].service == Some(s) && m in domains[d].mailServers
  {
    if exists d :: d in domains && domains[d].service == Some(s) && m in domains[d].mailServers {
      var d :| d in domains && domains[d].service == Some(s) && m in domains[d].mailServers;
      assert m in ServedMxs(domains);
      assert s in ServicesAtMx(domains, m);
    }
  }

  /** A service reaches an address in the index exactly when some domain naming that single
      service lists a mail server that holds the address. */
  lemma ServicesByAddressReach(db: Db, a: string, s: string)
    ensures (a in ServicesByAddress(db) && s in ServicesByAddress(db)[a])
            <==> exists d, m :: d in db.domains && db.domains[d].service == Some(s)
                   && m in db.domains[d].mailServers && a in AddressesOf(db.mailServers, m)
  {
    if exists d, m :: d in db.domains && db.domains[d].service == Some(s)
                   && m in db.domains[d].mailServers && a in AddressesOf(db.mailServers, m) {
      var d, m :| d in db.domains && db.domains[d].service == Some(s)
                   && m in db.domains[d].mailServers && a in AddressesOf(db.mailServers, m);
      assert a in ServedAddresses(db);
      assert s in ServicesAtAddress(db, a);
    }
  }

  /** Two stores whose domains differ only in their potential services. */
  ghost predicate DifferInPotentialOnly(db: Db, db': Db)
  {
    && db.mailServers == db'.mailServers && db.domains.Keys == db'.domains.Keys
    && forall d :: d in db.domains ==>
         db'.domains[d] == db.domains[d].(potentialServices := db'.domains[d].potentialServices)
  }

  lemma ServicesByMxIgnoresPotential(db: Db, db': Db)
    requires DifferInPotentialOnly(db, db')
    ensures ServicesByMx(db.domains) == ServicesByMx(db'.domains)
  {
    assert ServedMxs(db.domains) == ServedMxs(db'.domains);
    forall m ensures ServicesAtMx(db.domains, m) == ServicesAtMx(db'.domains, m) {
    }
  }

  lemma ServicesByAddressIgnoresPotential(db: Db, db': Db)
    requires DifferInPotentialOnly(db, db')
    ensures ServicesByAddress(db) == ServicesByAddress(db')
  {
    assert ServedAddresses(db) == ServedAddresses(db');
    forall a ensures ServicesAtAddress(db, a) == ServicesAtAddress(db', a) {
    }
  }

  /** Two stores whose domains differ only in their potential services give the same index. */
  lemma XRefIgnoresPotentialServices(db: Db, db': Db)
    requires db.mailServers == db'.mailServers && db.domains.Keys == db'.domains.Keys
    requires forall d :: d in db.domains ==>
               db'.domains[d] == db.domains[d].(potentialServices := db'.domains[d].potentialServices)
    ensures XRef(db) == XRef(db')
  {
    ServicesByMxIgnoresPotential(db, db');
    ServicesByAddressIgnoresPotential(db, db');
  }

  // Steps of the building loops: one more record taken into account.

  lemma KindsAtStep(ms: map<string, MxData>, m: string, v: MxData, a: string)
    requires m !in ms
    ensures KindsAt(ms[m := v], a) == if a in v.addresses then KindsAt(ms, a) + {v.kind} else KindsAt(ms, a)
  {
    var l := KindsAt(ms[m := v], a);
    var r := KindsAt(ms, a) + (if a in v.addresses then {v.kind} else {});
    forall k | k in r ensures k in l {
      if k in KindsAt(ms, a) {
        var m' :| m' in ms && a in ms[m'].addresses && ms[m'].kind == k;
        assert m' in ms[m := v] && ms[m := v][m'] == ms[m'];
      } else {
        assert m in ms[m := v] && ms[m := v][m] == v;
      }
    }
  }

  lemma AllAddressesStep(ms: map<string, MxData>, m: string, v: MxData)
    requires m !in ms
    ensures AllAddresses(ms[m := v]) == AllAddresses(ms) + Elems(v.addresses)
  {
    var l := AllAddresses(ms[m := v]);
    forall a | a in AllAddresses(ms) ensures a in l {
      var m' :| m' in ms && a in ms[m'].addresses;
      assert m' in ms[m := v] && ms[m := v][m'] == ms[m'];
    }
    forall a | a in Elems(v.addresses) ensures a in l {
      assert m in ms[m := v] && ms[m := v][m] == v;
    }
  }

  lemma ServicesAtMxStep(domains: map<string, DomainData>, d: string, v: DomainData, m: string)
    requires d !in domains
    ensures ServicesAtMx(domains[d := v], m)
            == ServicesAtMx(domains, m) + (if v.service.Some? && m in v.mailServers then {v.service.value} else {})
  {
    var l := ServicesAtMx(domains[d := v], m);
    forall s | s in ServicesAtMx(domains, m) ensures s in l {
      var d' :| d' in domains && domains[d'].service.Some? && m in domains[d'].mailServers
                && domains[d'].service.value == s;
      assert d' in domains[d := v] && domains[d := v][d'] == domains[d'];
    }
    if v.service.Some? && m in v.mailServers {
      assert d in domains[d := v] && domains[d := v][d] == v;
    }
  }

  lemma ServedMxsStep(domains: map<string, DomainData>, d: string, v: DomainData)
    requires d !in domains
    ensures ServedMxs(domains[d := v]) == ServedMxs(domains) + (if v.service.Some? then Elems(v.mailServers) else {})
  {
    var l := ServedMxs(domains[d := v]);
    forall m | m in ServedMxs(domains) ensures m in l {
      var d' :| d' in domains && domains[d'].service.Some? && m in domains[d'].mailServers;
      assert d' in domains[d := v] && domains[d := v][d'] == domains[d'];
    }
    if v.service.Some? {
      forall m | m in Elems(v.mailServers) ensures m in l {
        assert d in domains[d := v] && domains[d := v][d] == v;
      }
    }
  }

  /** The addresses reached through the listed mail servers. */
  ghost function DomainAddresses(ms: map<string, MxData>, servers: seq<string>): set<string>
  {
    set m, a | m in servers && a in AddressesOf(ms, m) :: a
  }

  lemma DomainAddressesStep(ms: map<string, MxData>, servers: seq<string>, j: nat)
    requires j < |servers|
    ensures DomainAddresses(ms, servers[..j + 1]) == DomainAddresses(ms, servers[..j]) + AddressesOf(ms, servers[j])
  {
    assert servers[..j + 1] == servers[..j] + [servers[j]];
    var l := DomainAddresses(ms, servers[..j + 1]);
    forall a | a in AddressesOf(ms, servers[j]) ensures a in l {
      assert servers[j] in servers[..j + 1];
    }
  }

  lemma ServicesAtAddressStep(db: Db, d: string, v: DomainData, a: string)
    requires d !in db.domains
    ensures ServicesAtAddress(db.(domains := db.domains[d := v]), a)
            == ServicesAtAddress(db, a)
               + (if v.service.Some? && a in DomainAddresses(db.mailServers, v.mailServers) then {v.service.value} else {})
  {
    var db' := db.(domains := db.domains[d := v]);
    var l := ServicesAtAddress(db', a);
    forall s | s in ServicesAtAddress(db, a) ensures s in l {
      var d', m :| d' in db.domains && db.domains[d'].service.Some? && m in db.domains[d'].mailServers
                   && a in AddressesOf(db.mailServers, m) && db.domains[d'].service.value == s;
      assert d' in db'.domains && db'.domains[d'] == db.domains[d'];
    }
    if v.service.Some? && a in DomainAddresses(db.mailServers, v.mailServers) {
      var m :| m in v.mailServers && a in AddressesOf(db.mailServers, m);
      assert d in db'.domains && db'.domains[d] == v;
    }
    var r := ServicesAtAddress(db, a)
             + (if v.service.Some? && a in DomainAddresses(db.mailServers, v.mailServers) then {v.service.value} else {});
    forall s | s in l ensures s in r {
      var d', m :| d' in db'.domains && db'.domains[d'].service.Some? && m in db'.domains[d'].mailServers
                   && a in AddressesOf(db.mailServers, m) && db'.domains[d'].service.value == s;
      if d' != d {
        assert d' in db.domains && db'.domains[d'] == db.domains[d'];
      } else {
        assert a in DomainAddresses(db.mailServers, v.mailServers);
      }
    }
  }

  lemma ServedAddressesStep(db: Db, d: string, v: DomainData)
    requires d !in db.domains
    ensures ServedAddresses(db.(domains := db.domains[d := v]))
            == ServedAddresses(db) + (if v.service.Some? then DomainAddresses(db.mailServers, v.mailServers) else {})
  {
    var db' := db.(domains := db.domains[d := v]);
    var l := ServedAddresses(db');
    forall a | a in ServedAddresses(db) ensures a in l {
      var d', m :| d' in db.domains && db.domains[d'].service.Some? && m in db.domains[d'].mailServers
                   && a in AddressesOf(db.mailServers, m);
      assert d' in db'.domains && db'.domains[d'] == db.domains[d'];
    }
    if v.service.Some? {
      forall a | a in DomainAddresses(db.mailServers, v.mailServers) ensures a in l {
        var m :| m in v.mailServers && a in AddressesOf(db.mailServers, m);
        assert d in db'.domains && db'.domains[d] == v;
      }
    }
    var r := ServedAddresses(db) + (if v.service.Some? then DomainAddresses(db.mailServers, v.mailServers) else {});
    forall a | a in l ensures a in r {
      var d', m :| d' in db'.domains && db'.domains[d'].service.Some? && m in db'.domains[d'].mailServers
                   && a in AddressesOf(db.mailServers, m);
      if d' != d {
        assert d' in db.domains && db'.domains[d'] == db.domains[d'];
      }
    }
  }
}
