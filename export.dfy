/** The deterministic export of the store (`toStorage`, `xref`, `sort`): the store written out
    as sorted lists of domain, mail-server, service and host records, the last two derived by
    cross-referencing the first two. */
module Export {
  import opened Lattice
  import opened Text
  import opened Records
  import opened CrossRef

  /** A domain as exported (the generated `Domain`). */
  datatype Domain = Domain(
    name: string,
    heuristics: Heuristics,
    kind: Classification,
    mailServers: seq<string>,
    potentialServices: seq<string>,
    service: Option<string>)

  /** A mail server as exported, with the services and domains that use it. */
  datatype MailServer = MailServer(
    name: string,
    addresses: seq<string>,
    kind: Classification,
    services: seq<string>,
    domains: seq<string>)

  /** A service with the domains that name it and the addresses and mail servers they use. */
  datatype Service = Service(
    name: string,
    domains: seq<string>,
    addresses: seq<string>,
    mailServers: seq<string>)

  /** One address of some mail server with everything that uses it. */
  datatype Host = Host(
    address: string,
    services: seq<string>,
    domains: seq<string>,
    mailServers: seq<string>)

  /** The exported document (the generated `Storage`). */
  datatype Storage = Storage(
    domains: seq<Domain>,
    mailServers: seq<MailServer>,
    services: seq<Service>,
    hosts: seq<Host>)

  /** The services a domain names: its single service and its potential services. */
  function Offered(v: DomainData): set<string>
  {
    (if v.service.Some? then {v.service.value} else {}) + Elems(v.potentialServices)
  }

  // ---- What the pass over the domains (the names in D) collects ----

  /** The services named by the domains of D. */
  ghost function ServicesIn(db: Db, D: set<string>): set<string>
  {
    set d, s | d in D && d in db.domains && s in Offered(db.domains[d]) :: s
  }

  /** The domains of D that name service `s`. */
  ghost function DomainsOffering(db: Db, D: set<string>, s: string): set<string>
  {
    set d | d in D && d in db.domains && s in Offered(db.domains[d])
  }

  /** The addresses of the mail servers of the domains of D that name service `s`. */
  ghost function AddressesOffering(db: Db, D: set<string>, s: string): set<string>
  {
    set d, a | d in D && d in db.domains && s in Offered(db.domains[d])
                 && a in DomainAddresses(db.mailServers, db.domains[d].mailServers)
      :: a
  }

  /** The services named by the domains of D that list mail server `m`. */
  ghost function OfferedAt(db: Db, D: set<string>, m: string): set<string>
  {
    set d, s | d in D && d in db.domains && m in db.domains[d].mailServers && s in Offered(db.domains[d]) :: s
  }

  /** The domains of D that list mail server `m`. */
  ghost function DomainsListing(db: Db, D: set<string>, m: string): set<string>
  {
    set d | d in D && d in db.domains && m in db.domains[d].mailServers
  }

  /** The domains of D that reach address `a` through one of their mail servers. */
  ghost function DomainsReaching(db: Db, D: set<string>, a: string): set<string>
  {
    set d | d in D && d in db.domains && a in DomainAddresses(db.mailServers, db.domains[d].mailServers)
  }

  // ---- What the pass over the mail servers (the names in M) collects ----

  /** The mail servers of M that some domain names service `s` for. */
  ghost function ServersOffering(db: Db, M: set<string>, s: string): set<string>
  {
    set m | m in M && m in db.mailServers && s in OfferedAt(db, db.domains.Keys, m)
  }

  /** The addresses of the mail servers of M. */
  ghost function AddressesIn(db: Db, M: set<string>): set<string>
  {
    set m, a | m in M && m in db.mailServers && a in db.mailServers[m].addresses :: a
  }

  /** The services named for the mail servers of M that hold address `a`. */
  ghost function ServicesAtHost(db: Db, M: set<string>, a: string): set<string>
  {
    set m, s | m in M && m in db.mailServers && a in db.mailServers[m].addresses
                 && s in OfferedAt(db, db.domains.Keys, m)
      :: s
  }

  /** The mail servers of M that hold address `a`. */
  ghost function ServersHolding(db: Db, M: set<string>, a: string): set<string>
  {
    set m | m in M && m in db.mailServers && a in db.mailServers[m].addresses
  }

  // ---- The exported records ----

  ghost function DomainRecord(db: Db, name: string): Domain
    requires name in db.domains
  {
    var v := db.domains[name];
    Domain(name, v.heuristics, v.kind, SortedSet(Elems(v.mailServers)),
           SortedSet(Elems(v.potentialServices)), v.service)
  }

  ghost function ServerRecord(db: Db, name: string): MailServer
    requires name in db.mailServers
  {
    var v := db.mailServers[name];
    MailServer(name, SortedSet(Elems(v.addresses)), v.kind,
               SortedSet(OfferedAt(db, db.domains.Keys, name)),
               SortedSet(DomainsListing(db, db.domains.Keys, name)))
  }

  ghost function ServiceRecord(db: Db, name: string): Service
  {
    Service(name, SortedSet(DomainsOffering(db, db.domains.Keys, name)),
            SortedSet(AddressesOffering(db, db.domains.Keys, name)),
            SortedSet(ServersOffering(db, db.mailServers.Keys, name)))
  }

  ghost function HostRecord(db: Db, address: string): Host
  {
    Host(address, SortedSet(ServicesAtHost(db, db.mailServers.Keys, address)),
         SortedSet(DomainsReaching(db, db.domains.Keys, address)),
         SortedSet(ServersHolding(db, db.mailServers.Keys, address)))
  }

  /** The names of a list of records, as a set. */
  ghost function DomainNames(ds: seq<Domain>): set<string>
  {
    set i | 0 <= i < |ds| :: ds[i].name
  }

  ghost function ServerNames(ms: seq<MailServer>): set<string>
  {
    set i | 0 <= i < |ms| :: ms[i].name
  }

  ghost function ServiceNames(ss: seq<Service>): set<string>
  {
    set i | 0 <= i < |ss| :: ss[i].name
  }

  ghost function HostAddresses(hs: seq<Host>): set<string>
  {
    set i | 0 <= i < |hs| :: hs[i].address
  }

  /** The records of the named domains, in the order of the names. */
  ghost function DomainRecords(db: Db, names: seq<string>): seq<Domain>
    requires forall n :: n in names ==> n in db.domains
  {
    seq(|names|, i requires 0 <= i < |names| => DomainRecord(db, names[i]))
  }

  ghost function ServerRecords(db: Db, names: seq<string>): seq<MailServer>
    requires forall n :: n in names ==> n in db.mailServers
  {
    seq(|names|, i requires 0 <= i < |names| => ServerRecord(db, names[i]))
  }

  ghost function ServiceRecords(db: Db, names: seq<string>): seq<Service>
  {
    seq(|names|, i requires 0 <= i < |names| => ServiceRecord(db, names[i]))
  }

  ghost function HostRecords(db: Db, addresses: seq<string>): seq<Host>
  {
    seq(|addresses|, i requires 0 <= i < |addresses| => HostRecord(db, addresses[i]))
  }

  /** The exported document: every list of records in the order of its names. */
  ghost function Exported(db: Db): Storage
  {
    Storage(DomainRecords(db, SortedSet(db.domains.Keys)),
            ServerRecords(db, SortedSet(db.mailServers.Keys)),
            ServiceRecords(db, SortedSet(ServicesIn(db, db.domains.Keys))),
            HostRecords(db, SortedSet(AddressesIn(db, db.mailServers.Keys))))
  }

  // ---- Steps of the two passes: one more domain, one more mail server ----

  lemma ServicesInStep(db: Db, D: set<string>, n: string)
    requires n in db.domains
    ensures ServicesIn(db, D + {n}) == ServicesIn(db, D) + Offered(db.domains[n])
  {
    var l := ServicesIn(db, D + {n});
    forall s | s in Offered(db.domains[n]) ensures s in l {
      assert n in D + {n};
    }
  }

  lemma DomainsOfferingStep(db: Db, D: set<string>, n: string, s: string)
    requires n in db.domains
    ensures DomainsOffering(db, D + {n}, s)
            == DomainsOffering(db, D, s) + (if s in Offered(db.domains[n]) then {n} else {})
  {
  }

  lemma AddressesOfferingStep(db: Db, D: set<string>, n: string, s: string)
    requires n in db.domains
    ensures AddressesOffering(db, D + {n}, s)
            == AddressesOffering(db, D, s)
               + (if s in Offered(db.domains[n]) then DomainAddresses(db.mailServers, db.domains[n].mailServers) else {})
  {
    var l := AddressesOffering(db, D + {n}, s);
    if s in Offered(db.domains[n]) {
      forall a | a in DomainAddresses(db.mailServers, db.domains[n].mailServers) ensures a in l {
        assert n in D + {n};
      }
    }
  }

  lemma OfferedAtStep(db: Db, D: set<string>, n: string, m: string)
    requires n in db.domains
    ensures OfferedAt(db, D + {n}, m)
            == OfferedAt(db, D, m) + (if m in db.domains[n].mailServers then Offered(db.domains[n]) else {})
  {
    var l := OfferedAt(db, D + {n}, m);
    if m in db.domains[n].mailServers {
      forall s | s in Offered(db.domains[n]) ensures s in l {
        assert n in D + {n};
      }
    }
  }

  lemma AddressesInStep(db: Db, M: set<string>, n: string)
    requires n in db.mailServers
    ensures AddressesIn(db, M + {n}) == AddressesIn(db, M) + Elems(db.mailServers[n].addresses)
  {
    var l := AddressesIn(db, M + {n});
    forall a | a in Elems(db.mailServers[n].addresses) ensures a in l {
      assert n in M + {n};
    }
  }

  lemma ServicesAtHostStep(db: Db, M: set<string>, n: string, a: string)
    requires n in db.mailServers
    ensures ServicesAtHost(db, M + {n}, a)
            == ServicesAtHost(db, M, a)
               + (if a in db.mailServers[n].addresses then OfferedAt(db, db.domains.Keys, n) else {})
  {
    var l := ServicesAtHost(db, M + {n}, a);
    if a in db.mailServers[n].addresses {
      forall s | s in OfferedAt(db, db.domains.Keys, n) ensures s in l {
        assert n in M + {n};
      }
    }
  }

  // ---- The loops ----

  /** `map.computeIfAbsent(key, …).addAll(items)` for every key of `keys`. */
  method Extend(table: map<string, set<string>>, keys: set<string>, items: set<string>)
    returns (r: map<string, set<string>>)
    ensures r.Keys == table.Keys + keys
    ensures forall k :: SetAt(r, k) == SetAt(table, k) + (if k in keys then items else {})
  {
    r := table;
    var pending := keys;
    while pending != {}
      invariant pending <= keys
      invariant r.Keys == table.Keys + (keys - pending)
      invariant forall k :: SetAt(r, k) == SetAt(table, k) + (if k in keys - pending then items else {})
      decreases pending
    {
      var k :| k in pending;
      r := r[k := SetAt(r, k) + items];
      pending := pending - {k};
    }
  }

  /** The addresses of the listed mail servers, collected server by server. */
  method CollectAddresses(db: Db, servers: seq<string>) returns (r: set<string>)
    requires forall m :: m in servers ==> m in db.mailServers
    ensures r == DomainAddresses(db.mailServers, servers)
  {
    r := {};
    assert servers[..0] == [];
    for j := 0 to |servers|
      invariant r == DomainAddresses(db.mailServers, servers[..j])
    {
      DomainAddressesStep(db.mailServers, servers, j);
      r := r + Elems(db.mailServers[servers[j]].addresses);
    }
    assert servers[..|servers|] == servers;
  }

  /** The domain section of `toStorage`, with the lists `sort` sorts. */
  method DomainList(db: Db, names: seq<string>) returns (r: seq<Domain>)
    requires forall n :: n in names ==> n in db.domains
    ensures r == DomainRecords(db, names)
  {
    r := [];
    for i := 0 to |names|
      invariant |r| == i && forall k :: 0 <= k < i ==> r[k] == DomainRecord(db, names[k])
    {
      var v := db.domains[names[i]];
      r := r + [Domain(names[i], v.heuristics, v.kind, SortedDistinct(v.mailServers),
                       SortedDistinct(v.potentialServices), v.service)];
    }
  }

  // One more domain taken into each table of the first loop of `xref`.

  method AddServiceDomains(db: Db, ghost D: set<string>, name: string, t: map<string, set<string>>)
    returns (r: map<string, set<string>>)
    requires name in db.domains
    requires t.Keys == ServicesIn(db, D) && forall s :: SetAt(t, s) == DomainsOffering(db, D, s)
    ensures r.Keys == ServicesIn(db, D + {name}) && forall s :: SetAt(r, s) == DomainsOffering(db, D + {name}, s)
  {
    r := Extend(t, Offered(db.domains[name]), {name});
    ServicesInStep(db, D, name);
    forall s ensures SetAt(r, s) == DomainsOffering(db, D + {name}, s) {
      DomainsOfferingStep(db, D, name, s);
    }
  }

  method AddServiceAddresses(db: Db, ghost D: set<string>, name: string, reached: set<string>,
                             t: map<string, set<string>>)
    returns (r: map<string, set<string>>)
    requires name in db.domains && reached == DomainAddresses(db.mailServers, db.domains[name].mailServers)
    requires forall s :: SetAt(t, s) == AddressesOffering(db, D, s)
    ensures forall s :: SetAt(r, s) == AddressesOffering(db, D + {name}, s)
  {
    r := Extend(t, Offered(db.domains[name]), reached);
    forall s ensures SetAt(r, s) == AddressesOffering(db, D + {name}, s) {
      AddressesOfferingStep(db, D, name, s);
    }
  }

  method AddMxServices(db: Db, ghost D: set<string>, name: string, t: map<string, set<string>>)
    returns (r: map<string, set<string>>)
    requires name in db.domains
    requires forall m :: SetAt(t, m) == OfferedAt(db, D, m)
    ensures forall m :: SetAt(r, m) == OfferedAt(db, D + {name}, m)
  {
    r := Extend(t, Elems(db.domains[name].mailServers), Offered(db.domains[name]));
    forall m ensures SetAt(r, m) == OfferedAt(db, D + {name}, m) {
      OfferedAtStep(db, D, name, m);
    }
  }

  method AddMxDomains(db: Db, ghost D: set<string>, name: string, t: map<string, set<string>>)
    returns (r: map<string, set<string>>)
    requires name in db.domains
    requires forall m :: SetAt(t, m) == DomainsListing(db, D, m)
    ensures forall m :: SetAt(r, m) == DomainsListing(db, D + {name}, m)
  {
    r := Extend(t, Elems(db.domains[name].mailServers), {name});
  }

  method AddAddressDomains(db: Db, ghost D: set<string>, name: string, reached: set<string>,
                           t: map<string, set<string>>)
    returns (r: map<string, set<string>>)
    requires name in db.domains && reached == DomainAddresses(db.mailServers, db.domains[name].mailServers)
    requires forall a :: SetAt(t, a) == DomainsReaching(db, D, a)
    ensures forall a :: SetAt(r, a) == DomainsReaching(db, D + {name}, a)
  {
    r := Extend(t, reached, {name});
  }

  /** The first loop of `xref`: over the domains, in order, collecting for every service its
      domains and addresses, for every mail server its services and domains, and for every
      address its domains. */
  method PassDomains(db: Db, names: seq<string>)
    returns (serviceDomains: map<string, set<string>>, serviceAddresses: map<string, set<string>>,
             mxServices: map<string, set<string>>, domainsByMx: map<string, set<string>>,
             domainsByAddress: map<string, set<string>>)
    requires db.Valid()
    requires forall n :: n in names ==> n in db.domains
    ensures serviceDomains.Keys == ServicesIn(db, Elems(names))
    ensures forall s :: SetAt(serviceDomains, s) == DomainsOffering(db, Elems(names), s)
    ensures forall s :: SetAt(serviceAddresses, s) == AddressesOffering(db, Elems(names), s)
    ensures forall m :: SetAt(mxServices, m) == OfferedAt(db, Elems(names), m)
    ensures forall m :: SetAt(domainsByMx, m) == DomainsListing(db, Elems(names), m)
    ensures forall a :: SetAt(domainsByAddress, a) == DomainsReaching(db, Elems(names), a)
  {
    serviceDomains, serviceAddresses, mxServices, domainsByMx, domainsByAddress
      := map[], map[], map[], map[], map[];
    assert names[..0] == [];
    for i := 0 to |names|
      invariant serviceDomains.Keys == ServicesIn(db, Elems(names[..i]))
      invariant forall s :: SetAt(serviceDomains, s) == DomainsOffering(db, Elems(names[..i]), s)
      invariant forall s :: SetAt(serviceAddresses, s) == AddressesOffering(db, Elems(names[..i]), s)
      invariant forall m :: SetAt(mxServices, m) == OfferedAt(db, Elems(names[..i]), m)
      invariant forall m :: SetAt(domainsByMx, m) == DomainsListing(db, Elems(names[..i]), m)
      invariant forall a :: SetAt(domainsByAddress, a) == DomainsReaching(db, Elems(names[..i]), a)
    {
      ghost var D := Elems(names[..i]);
      var name := names[i];
      assert Elems(names[..i + 1]) == D + {name} by {
        assert names[..i + 1] == names[..i] + [name];
      }
      var reached := CollectAddresses(db, db.domains[name].mailServers);
      serviceDomains := AddServiceDomains(db, D, name, serviceDomains);
      serviceAddresses := AddServiceAddresses(db, D, name, reached, serviceAddresses);
      mxServices := AddMxServices(db, D, name, mxServices);
      domainsByMx := AddMxDomains(db, D, name, domainsByMx);
      domainsByAddress := AddAddressDomains(db, D, name, reached, domainsByAddress);
    }
    assert names[..|names|] == names;
  }

  // One more mail server taken into each table of the second loop of `xref`.

  method AddServiceServers(db: Db, ghost M: set<string>, name: string, offered: set<string>,
                           t: map<string, set<string>>)
    returns (r: map<string, set<string>>)
    requires name in db.mailServers && offered == OfferedAt(db, db.domains.Keys, name)
    requires forall s :: SetAt(t, s) == ServersOffering(db, M, s)
    ensures forall s :: SetAt(r, s) == ServersOffering(db, M + {name}, s)
  {
    r := Extend(t, offered, {name});
  }

  method AddAddressServices(db: Db, ghost M: set<string>, name: string, offered: set<string>,
                            t: map<string, set<string>>)
    returns (r: map<string, set<string>>)
    requires name in db.mailServers && offered == OfferedAt(db, db.domains.Keys, name)
    requires t.Keys == AddressesIn(db, M) && forall a :: SetAt(t, a) == ServicesAtHost(db, M, a)
    ensures r.Keys == AddressesIn(db, M + {name}) && forall a :: SetAt(r, a) == ServicesAtHost(db, M + {name}, a)
  {
    r := Extend(t, Elems(db.mailServers[name].addresses), offered);
    AddressesInStep(db, M, name);
    forall a ensures SetAt(r, a) == ServicesAtHost(db, M + {name}, a) {
      ServicesAtHostStep(db, M, name, a);
    }
  }

  method AddAddressServers(db: Db, ghost M: set<string>, name: string, t: map<string, set<string>>)
    returns (r: map<string, set<string>>)
    requires name in db.mailServers
    requires forall a :: SetAt(t, a) == ServersHolding(db, M, a)
    ensures forall a :: SetAt(r, a) == ServersHolding(db, M + {name}, a)
  {
    r := Extend(t, Elems(db.mailServers[name].addresses), {name});
  }

  lemma ServerRecordsSnoc(db: Db, names: seq<string>, servers: seq<MailServer>, entry: MailServer)
    requires |servers| < |names| && names[|servers|] in db.mailServers
    requires forall i :: 0 <= i < |servers| ==> names[i] in db.mailServers && servers[i] == ServerRecord(db, names[i])
    requires entry == ServerRecord(db, names[|servers|])
    ensures forall i :: 0 <= i < |servers| + 1 ==> (servers + [entry])[i] == ServerRecord(db, names[i])
  {
  }

  /** The tables the second loop of `xref` has built from the mail servers of M. */
  ghost predicate ServerTables(db: Db, M: set<string>, serviceServers: map<string, set<string>>,
                               servicesByAddress: map<string, set<string>>, mxByAddress: map<string, set<string>>)
  {
    && (forall s :: SetAt(serviceServers, s) == ServersOffering(db, M, s))
    && servicesByAddress.Keys == AddressesIn(db, M)
    && (forall a :: SetAt(servicesByAddress, a) == ServicesAtHost(db, M, a))
    && (forall a :: SetAt(mxByAddress, a) == ServersHolding(db, M, a))
  }

  /** One more mail server taken into the tables of the second loop of `xref`. */
  method AddServer(db: Db, ghost M: set<string>, name: string, offered: set<string>,
                   serviceServers: map<string, set<string>>, servicesByAddress: map<string, set<string>>,
                   mxByAddress: map<string, set<string>>)
    returns (serviceServers': map<string, set<string>>, servicesByAddress': map<string, set<string>>,
             mxByAddress': map<string, set<string>>)
    requires name in db.mailServers && offered == OfferedAt(db, db.domains.Keys, name)
    requires ServerTables(db, M, serviceServers, servicesByAddress, mxByAddress)
    ensures ServerTables(db, M + {name}, serviceServers', servicesByAddress', mxByAddress')
  {
    serviceServers' := AddServiceServers(db, M, name, offered, serviceServers);
    servicesByAddress' := AddAddressServices(db, M, name, offered, servicesByAddress);
    mxByAddress' := AddAddressServers(db, M, name, mxByAddress);
  }

  /** A mail server's record once `xref` has given it its domains and `sort` has sorted it. */
  method ServerEntry(db: Db, name: string, offered: set<string>, listing: set<string>) returns (e: MailServer)
    requires name in db.mailServers
    requires offered == OfferedAt(db, db.domains.Keys, name)
    requires listing == DomainsListing(db, db.domains.Keys, name)
    ensures e == ServerRecord(db, name)
  {
    var v := db.mailServers[name];
    var services := SortSet(offered);
    var domains := SortSet(listing);
    e := MailServer(name, SortedDistinct(v.addresses), v.kind, services, domains);
  }

  /** The second loop of `xref`, with the mail-server lists `sort` sorts: over the mail
      servers, in order, writing each server's record and collecting for every service its
      mail servers and for every address its services and mail servers. */
  method PassServers(db: Db, names: seq<string>, mxServices: map<string, set<string>>,
                     domainsByMx: map<string, set<string>>)
    returns (servers: seq<MailServer>, serviceServers: map<string, set<string>>,
             servicesByAddress: map<string, set<string>>, mxByAddress: map<string, set<string>>)
    requires forall n :: n in names ==> n in db.mailServers
    requires forall m :: SetAt(mxServices, m) == OfferedAt(db, db.domains.Keys, m)
    requires forall m :: SetAt(domainsByMx, m) == DomainsListing(db, db.domains.Keys, m)
    ensures servers == ServerRecords(db, names)
    ensures forall s :: SetAt(serviceServers, s) == ServersOffering(db, Elems(names), s)
    ensures servicesByAddress.Keys == AddressesIn(db, Elems(names))
    ensures forall a :: SetAt(servicesByAddress, a) == ServicesAtHost(db, Elems(names), a)
    ensures forall a :: SetAt(mxByAddress, a) == ServersHolding(db, Elems(names), a)
  {
    servers, serviceServers, servicesByAddress, mxByAddress := [], map[], map[], map[];
    ghost var M: set<string> := {};
    for j := 0 to |names|
      invariant M == Elems(names[..j])
      invariant |servers| == j && forall i :: 0 <= i < j ==> servers[i] == ServerRecord(db, names[i])
      invariant ServerTables(db, M, serviceServers, servicesByAddress, mxByAddress)
    {
      var name := names[j];
      assert Elems(names[..j + 1]) == M + {name} by {
        assert names[..j + 1] == names[..j] + [name];
      }
      var offered := SetAt(mxServices, name);
      var entry := ServerEntry(db, name, offered, SetAt(domainsByMx, name));
      ServerRecordsSnoc(db, names, servers, entry);
      servers := servers + [entry];
      serviceServers, servicesByAddress, mxByAddress
        := AddServer(db, M, name, offered, serviceServers, servicesByAddress, mxByAddress);
      M := M + {name};
    }
    assert names[..|names|] == names;
  }

  /** The service records, in order of their names, with the lists `sort` sorts. */
  method ServiceList(db: Db, names: seq<string>, serviceDomains: map<string, set<string>>,
                     serviceAddresses: map<string, set<string>>, serviceServers: map<string, set<string>>)
    returns (r: seq<Service>)
    requires forall s :: SetAt(serviceDomains, s) == DomainsOffering(db, db.domains.Keys, s)
    requires forall s :: SetAt(serviceAddresses, s) == AddressesOffering(db, db.domains.Keys, s)
    requires forall s :: SetAt(serviceServers, s) == ServersOffering(db, db.mailServers.Keys, s)
    ensures r == ServiceRecords(db, names)
  {
    r := [];
    for i := 0 to |names|
      invariant |r| == i && forall k :: 0 <= k < i ==> r[k] == ServiceRecord(db, names[k])
    {
      var s := names[i];
      var listing := SortSet(SetAt(serviceDomains, s));
      var addresses := SortSet(SetAt(serviceAddresses, s));
      var servers := SortSet(SetAt(serviceServers, s));
      r := r + [Service(s, listing, addresses, servers)];
    }
  }

  /** The host records, in order of their addresses, with the lists `sort` sorts. */
  method HostList(db: Db, names: seq<string>, servicesByAddress: map<string, set<string>>,
                  domainsByAddress: map<string, set<string>>, mxByAddress: map<string, set<string>>)
    returns (r: seq<Host>)
    requires forall a :: SetAt(servicesByAddress, a) == ServicesAtHost(db, db.mailServers.Keys, a)
    requires forall a :: SetAt(domainsByAddress, a) == DomainsReaching(db, db.domains.Keys, a)
    requires forall a :: SetAt(mxByAddress, a) == ServersHolding(db, db.mailServers.Keys, a)
    ensures r == HostRecords(db, names)
  {
    r := [];
    for i := 0 to |names|
      invariant |r| == i && forall k :: 0 <= k < i ==> r[k] == HostRecord(db, names[k])
    {
      var a := names[i];
      var services := SortSet(SetAt(servicesByAddress, a));
      var listing := SortSet(SetAt(domainsByAddress, a));
      var servers := SortSet(SetAt(mxByAddress, a));
      r := r + [Host(a, services, listing, servers)];
    }
  }

  // ---- `toDb`: a document read back into a store ----

  /** The store's view of an exported domain. */
  function DomainDataOf(d: Domain): DomainData
  {
    DomainData(d.kind, d.heuristics, d.mailServers, d.service, d.potentialServices)
  }

  /** The store's view of an exported mail server. */
  function MxDataOf(m: MailServer): MxData
  {
    MxData(m.addresses, m.kind)
  }

  /** The domain records keyed by name; the names must differ, as `Collectors.toMap` throws on
      a repeated key. */
  function DomainMap(ds: seq<Domain>): (r: map<string, DomainData>)
    requires forall i, j :: 0 <= i < j < |ds| ==> ds[i].name != ds[j].name
    ensures r.Keys == DomainNames(ds)
    ensures forall i :: 0 <= i < |ds| ==> ds[i].name in r && r[ds[i].name] == DomainDataOf(ds[i])
  {
    if ds == [] then map[]
    else
      var last := ds[|ds| - 1];
      var r := DomainMap(ds[..|ds| - 1])[last.name := DomainDataOf(last)];
      assert forall i :: 0 <= i < |ds| - 1 ==> ds[..|ds| - 1][i] == ds[i];
      r
  }

  /** The mail-server records keyed by name, under the same condition. */
  function ServerMap(ms: seq<MailServer>): (r: map<string, MxData>)
    requires forall i, j :: 0 <= i < j < |ms| ==> ms[i].name != ms[j].name
    ensures r.Keys == ServerNames(ms)
    ensures forall i :: 0 <= i < |ms| ==> ms[i].name in r && r[ms[i].name] == MxDataOf(ms[i])
  {
    if ms == [] then map[]
    else
      var last := ms[|ms| - 1];
      var r := ServerMap(ms[..|ms| - 1])[last.name := MxDataOf(last)];
      assert forall i :: 0 <= i < |ms| - 1 ==> ms[..|ms| - 1][i] == ms[i];
      r
  }

  /** `toDb`. */
  function ToDb(st: Storage): Db
    requires forall i, j :: 0 <= i < j < |st.domains| ==> st.domains[i].name != st.domains[j].name
    requires forall i, j :: 0 <= i < j < |st.mailServers| ==> st.mailServers[i].name != st.mailServers[j].name
  {
    Db(DomainMap(st.domains), ServerMap(st.mailServers))
  }

  /** `toStorage` followed by `xref` and `sort`. */
  method ToStorage(db: Db) returns (st: Storage)
    requires db.Valid()
    ensures st == Exported(db)
  {
    var domainNames := SortSet(db.domains.Keys);
    var serverNames := SortSet(db.mailServers.Keys);
    assert Elems(domainNames) == db.domains.Keys && Elems(serverNames) == db.mailServers.Keys;
    var domains := DomainList(db, domainNames);
    var serviceDomains, serviceAddresses, mxServices, domainsByMx, domainsByAddress
      := PassDomains(db, domainNames);
    var servers, serviceServers, servicesByAddress, mxByAddress
      := PassServers(db, serverNames, mxServices, domainsByMx);
    var serviceNames := SortSet(serviceDomains.Keys);
    var services := ServiceList(db, serviceNames, serviceDomains, serviceAddresses, serviceServers);
    var addresses := SortSet(servicesByAddress.Keys);
    var hosts := HostList(db, addresses, servicesByAddress, domainsByAddress, mxByAddress);
    st := Storage(domains, servers, services, hosts);
  }
}

module ExportFacts {
  import opened Lattice
  import opened Text
  import opened Records
  import opened CrossRef
  import opened Export

  /** The domain records are in strictly increasing order of names, so no name appears twice,
      and the lists each record holds are sorted and duplicate-free. */
  ghost predicate CanonicalDomains(rs: seq<Domain>)
  {
    && (forall i, j :: 0 <= i < j < |rs| ==> Less(rs[i].name, rs[j].name))
    && (forall i :: 0 <= i < |rs| ==> StrictlySorted(rs[i].mailServers) && StrictlySorted(rs[i].potentialServices))
  }

  ghost predicate CanonicalServers(rs: seq<MailServer>)
  {
    && (forall i, j :: 0 <= i < j < |rs| ==> Less(rs[i].name, rs[j].name))
    && (forall i :: 0 <= i < |rs| ==>
          StrictlySorted(rs[i].addresses) && StrictlySorted(rs[i].services) && StrictlySorted(rs[i].domains))
  }

  ghost predicate CanonicalServices(rs: seq<Service>)
  {
    && (forall i, j :: 0 <= i < j < |rs| ==> Less(rs[i].name, rs[j].name))
    && (forall i :: 0 <= i < |rs| ==>
          StrictlySorted(rs[i].domains) && StrictlySorted(rs[i].addresses) && StrictlySorted(rs[i].mailServers))
  }

  ghost predicate CanonicalHosts(rs: seq<Host>)
  {
    && (forall i, j :: 0 <= i < j < |rs| ==> Less(rs[i].address, rs[j].address))
    && (forall i :: 0 <= i < |rs| ==>
          StrictlySorted(rs[i].services) && StrictlySorted(rs[i].domains) && StrictlySorted(rs[i].mailServers))
  }

  /** Every list of records of the document is canonical. */
  ghost predicate Canonical(st: Storage)
  {
    CanonicalDomains(st.domains) && CanonicalServers(st.mailServers)
    && CanonicalServices(st.services) && CanonicalHosts(st.hosts)
  }

  lemma DomainRecordsCanonical(db: Db, names: seq<string>)
    requires forall n :: n in names ==> n in db.domains
    requires StrictlySorted(names)
    ensures CanonicalDomains(DomainRecords(db, names))
  {
    var rs := DomainRecords(db, names);
    assert forall i :: 0 <= i < |rs| ==> rs[i].name == names[i];
  }

  lemma ServerRecordsCanonical(db: Db, names: seq<string>)
    requires forall n :: n in names ==> n in db.mailServers
    requires StrictlySorted(names)
    ensures CanonicalServers(ServerRecords(db, names))
  {
    var rs := ServerRecords(db, names);
    assert forall i :: 0 <= i < |rs| ==> rs[i].name == names[i];
  }

  lemma ServiceRecordsCanonical(db: Db, names: seq<string>)
    requires StrictlySorted(names)
    ensures CanonicalServices(ServiceRecords(db, names))
  {
    var rs := ServiceRecords(db, names);
    assert forall i :: 0 <= i < |rs| ==> rs[i].name == names[i];
  }

  lemma HostRecordsCanonical(db: Db, addresses: seq<string>)
    requires StrictlySorted(addresses)
    ensures CanonicalHosts(HostRecords(db, addresses))
  {
    var rs := HostRecords(db, addresses);
    assert forall i :: 0 <= i < |rs| ==> rs[i].address == addresses[i];
  }

  /** The export is canonical. */
  lemma ExportedCanonical(db: Db)
    ensures Canonical(Exported(db))
  {
    DomainRecordsCanonical(db, SortedSet(db.domains.Keys));
    ServerRecordsCanonical(db, SortedSet(db.mailServers.Keys));
    ServiceRecordsCanonical(db, SortedSet(ServicesIn(db, db.domains.Keys)));
    HostRecordsCanonical(db, SortedSet(AddressesIn(db, db.mailServers.Keys)));
  }

  lemma DomainRecordsNames(db: Db, names: seq<string>)
    requires forall n :: n in names ==> n in db.domains
    ensures DomainNames(DomainRecords(db, names)) == Elems(names)
  {
    var rs := DomainRecords(db, names);
    forall x | x in Elems(names) ensures x in DomainNames(rs) {
      var i :| 0 <= i < |names| && names[i] == x;
      assert rs[i].name == x;
    }
  }

  lemma ServerRecordsNames(db: Db, names: seq<string>)
    requires forall n :: n in names ==> n in db.mailServers
    ensures ServerNames(ServerRecords(db, names)) == Elems(names)
  {
    var rs := ServerRecords(db, names);
    forall x | x in Elems(names) ensures x in ServerNames(rs) {
      var i :| 0 <= i < |names| && names[i] == x;
      assert rs[i].name == x;
    }
  }

  lemma ServiceRecordsNames(db: Db, names: seq<string>)
    ensures ServiceNames(ServiceRecords(db, names)) == Elems(names)
  {
    var rs := ServiceRecords(db, names);
    forall x | x in Elems(names) ensures x in ServiceNames(rs) {
      var i :| 0 <= i < |names| && names[i] == x;
      assert rs[i].name == x;
    }
  }

  lemma HostRecordsAddresses(db: Db, addresses: seq<string>)
    ensures HostAddresses(HostRecords(db, addresses)) == Elems(addresses)
  {
    var rs := HostRecords(db, addresses);
    forall x | x in Elems(addresses) ensures x in HostAddresses(rs) {
      var i :| 0 <= i < |addresses| && addresses[i] == x;
      assert rs[i].address == x;
    }
  }

  /** The export holds one record per domain of the store ... */
  lemma ExportedDomains(db: Db)
    ensures DomainNames(Exported(db).domains) == db.domains.Keys
  {
    DomainRecordsNames(db, SortedSet(db.domains.Keys));
  }

  /** ... one per mail server ... */
  lemma ExportedServers(db: Db)
    ensures ServerNames(Exported(db).mailServers) == db.mailServers.Keys
  {
    ServerRecordsNames(db, SortedSet(db.mailServers.Keys));
  }

  /** ... one per service some domain names, as its service or as a potential one ... */
  lemma ExportedServices(db: Db)
    ensures ServiceNames(Exported(db).services)
            == ServicesIn(db, db.domains.Keys)
  {
    ServiceRecordsNames(db, SortedSet(ServicesIn(db, db.domains.Keys)));
  }

  /** ... and one host per address of any mail server. */
  lemma ExportedHosts(db: Db)
    ensures HostAddresses(Exported(db).hosts) == AllAddresses(db.mailServers)
  {
    HostRecordsAddresses(db, SortedSet(AddressesIn(db, db.mailServers.Keys)));
    AddressesInAll(db);
  }

  lemma AddressesInAll(db: Db)
    ensures AddressesIn(db, db.mailServers.Keys) == AllAddresses(db.mailServers)
  {
  }

  // ---- The cross-references of the export agree with the records they summarise ----

  /** Where a domain's record sits in the export. */
  lemma DomainAt(db: Db, d: string) returns (j: nat)
    requires d in db.domains
    ensures j < |Exported(db).domains| && Exported(db).domains[j] == DomainRecord(db, d)
  {
    var dn := SortedSet(db.domains.Keys);
    var i :| 0 <= i < |dn| && dn[i] == d;
    j := i;
  }

  /** Where a mail server's record sits in the export. */
  lemma ServerAt(db: Db, m: string) returns (k: nat)
    requires m in db.mailServers
    ensures k < |Exported(db).mailServers| && Exported(db).mailServers[k] == ServerRecord(db, m)
  {
    var mn := SortedSet(db.mailServers.Keys);
    var i :| 0 <= i < |mn| && mn[i] == m;
    k := i;
  }

  /** The exported domain records are those of the store's domains ... */
  lemma DomainIndex(db: Db, j: nat)
    requires j < |Exported(db).domains|
    ensures Exported(db).domains[j].name in db.domains
    ensures Exported(db).domains[j] == DomainRecord(db, Exported(db).domains[j].name)
  {
  }

  /** ... and the exported mail-server records those of its mail servers. */
  lemma ServerIndex(db: Db, k: nat)
    requires k < |Exported(db).mailServers|
    ensures Exported(db).mailServers[k].name in db.mailServers
    ensures Exported(db).mailServers[k] == ServerRecord(db, Exported(db).mailServers[k].name)
  {
  }

  /** A domain offers a service exactly when its exported record names it. */
  lemma OfferedExported(db: Db, d: string, s: string)
    requires d in db.domains
    ensures s in Offered(db.domains[d])
            <==> DomainRecord(db, d).service == Some(s) || s in DomainRecord(db, d).potentialServices
  {
  }

  /** A mail server's `domains` name exactly the exported domains that list it. */
  lemma ServerDomainsAgree(db: Db, k: nat, j: nat)
    requires k < |Exported(db).mailServers| && j < |Exported(db).domains|
    ensures Exported(db).domains[j].name in Exported(db).mailServers[k].domains
            <==> Exported(db).mailServers[k].name in Exported(db).domains[j].mailServers
  {
    ServerIndex(db, k);
    DomainIndex(db, j);
    var m := Exported(db).mailServers[k].name;
    var d := Exported(db).domains[j].name;
    assert m in Exported(db).domains[j].mailServers <==> m in Elems(DomainRecord(db, d).mailServers);
    assert d in Exported(db).mailServers[k].domains <==> d in Elems(ServerRecord(db, m).domains);
  }

  /** A mail server's `services` are the services, single or potential, of the exported
      domains that list it: each such service is there ... */
  lemma ServerServicesFromDomain(db: Db, k: nat, j: nat, s: string)
    requires k < |Exported(db).mailServers| && j < |Exported(db).domains|
    requires Exported(db).mailServers[k].name in Exported(db).domains[j].mailServers
    requires Exported(db).domains[j].service == Some(s) || s in Exported(db).domains[j].potentialServices
    ensures s in Exported(db).mailServers[k].services
  {
    ServerIndex(db, k);
    DomainIndex(db, j);
    var m := Exported(db).mailServers[k].name;
    var d := Exported(db).domains[j].name;
    assert m in Elems(DomainRecord(db, d).mailServers);
    assert s in Elems(DomainRecord(db, d).potentialServices) ==> s in db.domains[d].potentialServices;
    assert s in Offered(db.domains[d]);
    assert s in OfferedAt(db, db.domains.Keys, m);
    assert s in Elems(ServerRecord(db, m).services);
  }

  /** A domain listing mail server `m` and naming service `s`. */
  lemma OfferedAtWitness(db: Db, m: string, s: string) returns (d: string)
    requires s in OfferedAt(db, db.domains.Keys, m)
    ensures d in db.domains && m in db.domains[d].mailServers && s in Offered(db.domains[d])
  {
    d :| d in db.domains && m in db.domains[d].mailServers && s in Offered(db.domains[d]);
  }

  /** ... and each service there comes from such a domain. */
  lemma ServerServicesToDomain(db: Db, k: nat, s: string) returns (j: nat)
    requires k < |Exported(db).mailServers|
    requires s in Exported(db).mailServers[k].services
    ensures j < |Exported(db).domains|
    ensures Exported(db).mailServers[k].name in Exported(db).domains[j].mailServers
    ensures Exported(db).domains[j].service == Some(s) || s in Exported(db).domains[j].potentialServices
  {
    ServerIndex(db, k);
    var m := Exported(db).mailServers[k].name;
    assert s in Elems(ServerRecord(db, m).services);
    var d := OfferedAtWitness(db, m, s);
    j := DomainAt(db, d);
    assert m in Elems(DomainRecord(db, d).mailServers);
    assert s in db.domains[d].potentialServices ==> s in Elems(DomainRecord(db, d).potentialServices);
  }

  /** The exported service records are those of the named services ... */
  lemma ServiceIndex(db: Db, i: nat)
    requires i < |Exported(db).services|
    ensures Exported(db).services[i] == ServiceRecord(db, Exported(db).services[i].name)
  {
  }

  /** ... and the host records those of the addresses. */
  lemma HostIndex(db: Db, h: nat)
    requires h < |Exported(db).hosts|
    ensures Exported(db).hosts[h] == HostRecord(db, Exported(db).hosts[h].address)
  {
  }

  /** A service's `domains` name exactly the exported domains that name the service, as their
      service or as a potential one. */
  lemma ServiceDomainsAgree(db: Db, i: nat, j: nat)
    requires i < |Exported(db).services| && j < |Exported(db).domains|
    ensures Exported(db).domains[j].name in Exported(db).services[i].domains
            <==> (Exported(db).domains[j].service == Some(Exported(db).services[i].name)
                  || Exported(db).services[i].name in Exported(db).domains[j].potentialServices)
  {
    ServiceIndex(db, i);
    DomainIndex(db, j);
    var s := Exported(db).services[i].name;
    var d := Exported(db).domains[j].name;
    assert d in Exported(db).services[i].domains <==> d in Elems(ServiceRecord(db, s).domains);
    assert s in Exported(db).domains[j].potentialServices <==> s in Elems(DomainRecord(db, d).potentialServices);
  }

  /** A service's `mailServers` name exactly the exported mail servers that carry the service. */
  lemma ServiceServersAgree(db: Db, i: nat, k: nat)
    requires i < |Exported(db).services| && k < |Exported(db).mailServers|
    ensures Exported(db).mailServers[k].name in Exported(db).services[i].mailServers
            <==> Exported(db).services[i].name in Exported(db).mailServers[k].services
  {
    ServiceIndex(db, i);
    ServerIndex(db, k);
    var s := Exported(db).services[i].name;
    var m := Exported(db).mailServers[k].name;
    assert m in Exported(db).services[i].mailServers <==> m in Elems(ServiceRecord(db, s).mailServers);
    assert s in Exported(db).mailServers[k].services <==> s in Elems(ServerRecord(db, m).services);
  }

  /** A host's `mailServers` name exactly the exported mail servers that hold its address. */
  lemma HostServersAgree(db: Db, h: nat, k: nat)
    requires h < |Exported(db).hosts| && k < |Exported(db).mailServers|
    ensures Exported(db).mailServers[k].name in Exported(db).hosts[h].mailServers
            <==> Exported(db).hosts[h].address in Exported(db).mailServers[k].addresses
  {
    HostIndex(db, h);
    ServerIndex(db, k);
    var a := Exported(db).hosts[h].address;
    var m := Exported(db).mailServers[k].name;
    assert m in Exported(db).hosts[h].mailServers <==> m in Elems(HostRecord(db, a).mailServers);
    assert a in Exported(db).mailServers[k].addresses <==> a in Elems(ServerRecord(db, m).addresses);
  }

  /** A host's `services` are the services of the exported mail servers that hold its address:
      each such service is there ... */
  lemma HostServicesFromServer(db: Db, h: nat, k: nat, s: string)
    requires h < |Exported(db).hosts| && k < |Exported(db).mailServers|
    requires Exported(db).hosts[h].address in Exported(db).mailServers[k].addresses
    requires s in Exported(db).mailServers[k].services
    ensures s in Exported(db).hosts[h].services
  {
    HostIndex(db, h);
    ServerIndex(db, k);
    var a := Exported(db).hosts[h].address;
    var m := Exported(db).mailServers[k].name;
    assert a in Elems(ServerRecord(db, m).addresses);
    assert s in Elems(ServerRecord(db, m).services);
    assert s in ServicesAtHost(db, db.mailServers.Keys, a);
    assert s in Elems(HostRecord(db, a).services);
  }

  /** ... and each service there comes from such a mail server. */
  lemma HostServicesToServer(db: Db, h: nat, s: string) returns (k: nat)
    requires h < |Exported(db).hosts|
    requires s in Exported(db).hosts[h].services
    ensures k < |Exported(db).mailServers|
    ensures Exported(db).hosts[h].address in Exported(db).mailServers[k].addresses
    ensures s in Exported(db).mailServers[k].services
  {
    HostIndex(db, h);
    var a := Exported(db).hosts[h].address;
    assert s in Elems(HostRecord(db, a).services);
    var m :| m in db.mailServers && a in db.mailServers[m].addresses && s in OfferedAt(db, db.domains.Keys, m);
    k := ServerAt(db, m);
    assert a in Elems(ServerRecord(db, m).addresses);
    assert s in Elems(ServerRecord(db, m).services);
  }

  /** A host's `domains` are the exported domains that list a mail server holding its address:
      each such domain is there ... */
  lemma HostDomainsFromDomain(db: Db, h: nat, j: nat, k: nat)
    requires h < |Exported(db).hosts| && j < |Exported(db).domains| && k < |Exported(db).mailServers|
    requires Exported(db).mailServers[k].name in Exported(db).domains[j].mailServers
    requires Exported(db).hosts[h].address in Exported(db).mailServers[k].addresses
    ensures Exported(db).domains[j].name in Exported(db).hosts[h].domains
  {
    HostIndex(db, h);
    DomainIndex(db, j);
    ServerIndex(db, k);
    var a := Exported(db).hosts[h].address;
    var d := Exported(db).domains[j].name;
    var m := Exported(db).mailServers[k].name;
    assert m in Elems(DomainRecord(db, d).mailServers);
    assert a in Elems(ServerRecord(db, m).addresses);
    assert a in AddressesOf(db.mailServers, m);
    assert a in DomainAddresses(db.mailServers, db.domains[d].mailServers);
    assert d in Elems(HostRecord(db, a).domains);
  }

  /** ... and each domain there is such a domain. */
  lemma HostDomainsToDomain(db: Db, h: nat, d: string) returns (j: nat, k: nat)
    requires h < |Exported(db).hosts|
    requires d in Exported(db).hosts[h].domains
    ensures j < |Exported(db).domains| && k < |Exported(db).mailServers|
    ensures Exported(db).domains[j].name == d
    ensures Exported(db).mailServers[k].name in Exported(db).domains[j].mailServers
    ensures Exported(db).hosts[h].address in Exported(db).mailServers[k].addresses
  {
    HostIndex(db, h);
    var a := Exported(db).hosts[h].address;
    assert d in Elems(HostRecord(db, a).domains);
    var m :| m in db.domains[d].mailServers && a in AddressesOf(db.mailServers, m);
    j := DomainAt(db, d);
    k := ServerAt(db, m);
    assert m in Elems(DomainRecord(db, d).mailServers);
    assert a in Elems(ServerRecord(db, m).addresses);
  }

  /** A service's `addresses` are the addresses of the mail servers of the exported domains
      that name the service: each such address is there ... */
  lemma ServiceAddressesFromDomain(db: Db, i: nat, j: nat, k: nat, a: string)
    requires i < |Exported(db).services| && j < |Exported(db).domains| && k < |Exported(db).mailServers|
    requires Exported(db).domains[j].service == Some(Exported(db).services[i].name)
             || Exported(db).services[i].name in Exported(db).domains[j].potentialServices
    requires Exported(db).mailServers[k].name in Exported(db).domains[j].mailServers
    requires a in Exported(db).mailServers[k].addresses
    ensures a in Exported(db).services[i].addresses
  {
    ServiceIndex(db, i);
    DomainIndex(db, j);
    ServerIndex(db, k);
    var s := Exported(db).services[i].name;
    var d := Exported(db).domains[j].name;
    var m := Exported(db).mailServers[k].name;
    assert m in Elems(DomainRecord(db, d).mailServers);
    assert s in Elems(DomainRecord(db, d).potentialServices) ==> s in db.domains[d].potentialServices;
    assert s in Offered(db.domains[d]);
    assert a in Elems(ServerRecord(db, m).addresses);
    assert a in AddressesOf(db.mailServers, m);
    assert a in DomainAddresses(db.mailServers, db.domains[d].mailServers);
    assert a in Elems(ServiceRecord(db, s).addresses);
  }

  /** A domain naming service `s` and one of its mail servers holding address `a`. */
  lemma ServiceAddressWitness(db: Db, s: string, a: string) returns (d: string, m: string)
    requires a in AddressesOffering(db, db.domains.Keys, s)
    ensures d in db.domains && s in Offered(db.domains[d])
    ensures m in db.domains[d].mailServers && a in AddressesOf(db.mailServers, m)
  {
    d :| d in db.domains && s in Offered(db.domains[d])
         && a in DomainAddresses(db.mailServers, db.domains[d].mailServers);
    m :| m in db.domains[d].mailServers && a in AddressesOf(db.mailServers, m);
  }

  /** ... and each address there is such an address. */
  lemma ServiceAddressesToDomain(db: Db, i: nat, a: string) returns (j: nat, k: nat)
    requires i < |Exported(db).services|
    requires a in Exported(db).services[i].addresses
    ensures j < |Exported(db).domains| && k < |Exported(db).mailServers|
    ensures Exported(db).domains[j].service == Some(Exported(db).services[i].name)
            || Exported(db).services[i].name in Exported(db).domains[j].potentialServices
    ensures Exported(db).mailServers[k].name in Exported(db).domains[j].mailServers
    ensures a in Exported(db).mailServers[k].addresses
  {
    ServiceIndex(db, i);
    var s := Exported(db).services[i].name;
    assert a in Elems(ServiceRecord(db, s).addresses);
    var d, m := ServiceAddressWitness(db, s, a);
    j := DomainAt(db, d);
    k := ServerAt(db, m);
    assert m in Elems(DomainRecord(db, d).mailServers);
    assert s in db.domains[d].potentialServices ==> s in Elems(DomainRecord(db, d).potentialServices);
    assert a in Elems(ServerRecord(db, m).addresses);
  }

  // ---- Reading an export back ----

  /** The domain records with their lists sorted and without repeats. */
  ghost function NormalDomains(domains: map<string, DomainData>): map<string, DomainData>
  {
    map d | d in domains
      :: domains[d].(mailServers := SortedSet(Elems(domains[d].mailServers)),
                     potentialServices := SortedSet(Elems(domains[d].potentialServices)))
  }

  /** The mail-server records with their addresses sorted and without repeats. */
  ghost function NormalServers(ms: map<string, MxData>): map<string, MxData>
  {
    map m | m in ms :: ms[m].(addresses := SortedSet(Elems(ms[m].addresses)))
  }

  /** The store with every list sorted and without repeats. */
  ghost function Normal(db: Db): Db
  {
    Db(NormalDomains(db.domains), NormalServers(db.mailServers))
  }

  /** No name appears twice among the exported domains or among the exported mail servers. */
  lemma ExportedDistinct(db: Db)
    ensures forall i, j :: 0 <= i < j < |Exported(db).domains| ==>
              Exported(db).domains[i].name != Exported(db).domains[j].name
    ensures forall i, j :: 0 <= i < j < |Exported(db).mailServers| ==>
              Exported(db).mailServers[i].name != Exported(db).mailServers[j].name
  {
    ExportedCanonical(db);
    var st := Exported(db);
    forall i, j | 0 <= i < j < |st.domains| ensures st.domains[i].name != st.domains[j].name {
      LessIrreflexive(st.domains[i].name);
    }
    forall i, j | 0 <= i < j < |st.mailServers| ensures st.mailServers[i].name != st.mailServers[j].name {
      LessIrreflexive(st.mailServers[i].name);
    }
  }

  /** A list of domain records with distinct names, read back, is the map with those
      records under those names. */
  lemma DomainMapIs(ds: seq<Domain>, target: map<string, DomainData>)
    requires forall i, j :: 0 <= i < j < |ds| ==> ds[i].name != ds[j].name
    requires DomainNames(ds) == target.Keys
    requires forall i :: 0 <= i < |ds| ==> ds[i].name in target && target[ds[i].name] == DomainDataOf(ds[i])
    ensures DomainMap(ds) == target
  {
  }

  lemma ServerMapIs(ms: seq<MailServer>, target: map<string, MxData>)
    requires forall i, j :: 0 <= i < j < |ms| ==> ms[i].name != ms[j].name
    requires ServerNames(ms) == target.Keys
    requires forall i :: 0 <= i < |ms| ==> ms[i].name in target && target[ms[i].name] == MxDataOf(ms[i])
    ensures ServerMap(ms) == target
  {
  }

  lemma ReloadDomains(db: Db)
    ensures forall i, j :: 0 <= i < j < |Exported(db).domains| ==>
              Exported(db).domains[i].name != Exported(db).domains[j].name
    ensures DomainMap(Exported(db).domains) == NormalDomains(db.domains)
  {
    ExportedDistinct(db);
    ExportedDomains(db);
    var ds := Exported(db).domains;
    var target := NormalDomains(db.domains);
    forall i | 0 <= i < |ds| ensures ds[i].name in target && target[ds[i].name] == DomainDataOf(ds[i]) {
      DomainIndex(db, i);
    }
    DomainMapIs(ds, target);
  }

  lemma ServerRecordReadsBack(db: Db, m: string)
    requires m in db.mailServers
    ensures m in NormalServers(db.mailServers) && MxDataOf(ServerRecord(db, m)) == NormalServers(db.mailServers)[m]
  {
  }

  lemma ReloadServers(db: Db)
    ensures forall i, j :: 0 <= i < j < |Exported(db).mailServers| ==>
              Exported(db).mailServers[i].name != Exported(db).mailServers[j].name
    ensures ServerMap(Exported(db).mailServers) == NormalServers(db.mailServers)
  {
    ExportedDistinct(db);
    ExportedServers(db);
    var ms := Exported(db).mailServers;
    var target := NormalServers(db.mailServers);
    forall i | 0 <= i < |ms| ensures ms[i].name in target && target[ms[i].name] == MxDataOf(ms[i]) {
      ServerIndex(db, i);
      ServerRecordReadsBack(db, ms[i].name);
    }
    ServerMapIs(ms, target);
  }

  /** Reading an export back gives the store, its lists sorted and without repeats. */
  lemma ExportReloads(db: Db)
    ensures forall i, j :: 0 <= i < j < |Exported(db).domains| ==>
              Exported(db).domains[i].name != Exported(db).domains[j].name
    ensures forall i, j :: 0 <= i < j < |Exported(db).mailServers| ==>
              Exported(db).mailServers[i].name != Exported(db).mailServers[j].name
    ensures ToDb(Exported(db)) == Normal(db)
  {
    ReloadDomains(db);
    ReloadServers(db);
  }

  /** Two stores with the same entries, whose lists hold the same elements, perhaps in another
      order or repeated. */
  ghost predicate SameElements(db: Db, db': Db)
  {
    && db'.domains.Keys == db.domains.Keys && db'.mailServers.Keys == db.mailServers.Keys
    && (forall d :: d in db.domains ==>
          && db'.domains[d].kind == db.domains[d].kind
          && db'.domains[d].heuristics == db.domains[d].heuristics
          && db'.domains[d].service == db.domains[d].service
          && Elems(db'.domains[d].mailServers) == Elems(db.domains[d].mailServers)
          && Elems(db'.domains[d].potentialServices) == Elems(db.domains[d].potentialServices))
    && (forall m :: m in db.mailServers ==>
          && db'.mailServers[m].kind == db.mailServers[m].kind
          && Elems(db'.mailServers[m].addresses) == Elems(db.mailServers[m].addresses))
  }

  lemma SameDomainTables(db: Db, db': Db, D: set<string>)
    requires SameElements(db, db')
    ensures ServicesIn(db', D) == ServicesIn(db, D)
    ensures forall x :: DomainsOffering(db', D, x) == DomainsOffering(db, D, x)
    ensures forall x :: AddressesOffering(db', D, x) == AddressesOffering(db, D, x)
    ensures forall x :: OfferedAt(db', D, x) == OfferedAt(db, D, x)
    ensures forall x :: DomainsListing(db', D, x) == DomainsListing(db, D, x)
    ensures forall x :: DomainsReaching(db', D, x) == DomainsReaching(db, D, x)
  {
    forall d | d in db.domains
      ensures Offered(db'.domains[d]) == Offered(db.domains[d])
      ensures forall m :: m in db'.domains[d].mailServers <==> m in db.domains[d].mailServers
    {
      forall m ensures m in db'.domains[d].mailServers <==> m in db.domains[d].mailServers {
        assert m in db'.domains[d].mailServers <==> m in Elems(db'.domains[d].mailServers);
        assert m in db.domains[d].mailServers <==> m in Elems(db.domains[d].mailServers);
      }
    }
    forall m ensures AddressesOf(db'.mailServers, m) == AddressesOf(db.mailServers, m) {
    }
    forall d | d in db.domains
      ensures DomainAddresses(db'.mailServers, db'.domains[d].mailServers)
              == DomainAddresses(db.mailServers, db.domains[d].mailServers)
    {
    }
  }

  lemma SameServerTables(db: Db, db': Db, M: set<string>)
    requires SameElements(db, db')
    ensures AddressesIn(db', M) == AddressesIn(db, M)
    ensures forall x :: ServersOffering(db', M, x) == ServersOffering(db, M, x)
    ensures forall x :: ServicesAtHost(db', M, x) == ServicesAtHost(db, M, x)
    ensures forall x :: ServersHolding(db', M, x) == ServersHolding(db, M, x)
  {
    SameDomainTables(db, db', db.domains.Keys);
    forall m | m in db.mailServers
      ensures forall a :: a in db'.mailServers[m].addresses <==> a in db.mailServers[m].addresses
    {
      forall a ensures a in db'.mailServers[m].addresses <==> a in db.mailServers[m].addresses {
        assert a in db'.mailServers[m].addresses <==> a in Elems(db'.mailServers[m].addresses);
        assert a in db.mailServers[m].addresses <==> a in Elems(db.mailServers[m].addresses);
      }
    }
  }

  lemma SameDomainRecords(db: Db, db': Db)
    requires SameElements(db, db')
    ensures Exported(db').domains == Exported(db).domains
  {
    var dn := SortedSet(db.domains.Keys);
    forall d | d in db.domains ensures DomainRecord(db', d) == DomainRecord(db, d) {
    }
    assert DomainRecords(db', dn) == DomainRecords(db, dn);
  }

  lemma SameServerRecords(db: Db, db': Db)
    requires SameElements(db, db')
    ensures Exported(db').mailServers == Exported(db).mailServers
  {
    var mn := SortedSet(db.mailServers.Keys);
    forall m | m in db.mailServers ensures ServerRecord(db', m) == ServerRecord(db, m) {
      SameServerRecord(db, db', m);
    }
    assert ServerRecords(db', mn) == ServerRecords(db, mn);
  }

  lemma SameServerRecord(db: Db, db': Db, m: string)
    requires SameElements(db, db') && m in db.mailServers
    ensures m in db'.mailServers && ServerRecord(db', m) == ServerRecord(db, m)
  {
    SameDomainTables(db, db', db.domains.Keys);
    assert OfferedAt(db', db'.domains.Keys, m) == OfferedAt(db, db.domains.Keys, m);
    assert DomainsListing(db', db'.domains.Keys, m) == DomainsListing(db, db.domains.Keys, m);
  }

  lemma SameServiceRecords(db: Db, db': Db)
    requires SameElements(db, db')
    ensures Exported(db').services == Exported(db).services
  {
    SameDomainTables(db, db', db.domains.Keys);
    SameServerTables(db, db', db.mailServers.Keys);
    var sn := SortedSet(ServicesIn(db, db.domains.Keys));
    forall x ensures ServiceRecord(db', x) == ServiceRecord(db, x) {
    }
    assert ServiceRecords(db', sn) == ServiceRecords(db, sn);
  }

  lemma SameHostRecords(db: Db, db': Db)
    requires SameElements(db, db')
    ensures Exported(db').hosts == Exported(db).hosts
  {
    SameDomainTables(db, db', db.domains.Keys);
    SameServerTables(db, db', db.mailServers.Keys);
    var an := SortedSet(AddressesIn(db, db.mailServers.Keys));
    forall x ensures HostRecord(db', x) == HostRecord(db, x) {
    }
    assert HostRecords(db', an) == HostRecords(db, an);
  }

  /** The export depends on the lists of the store only through their elements. */
  lemma ExportedSame(db: Db, db': Db)
    requires SameElements(db, db')
    ensures Exported(db') == Exported(db)
  {
    SameDomainRecords(db, db');
    SameServerRecords(db, db');
    SameServiceRecords(db, db');
    SameHostRecords(db, db');
  }

  lemma NormalSame(db: Db)
    ensures SameElements(db, Normal(db))
  {
  }

  /** Writing out a store read back from an export reproduces that export: the export is a
      fixed point of reading and writing. */
  lemma ExportStable(db: Db)
    ensures forall i, j :: 0 <= i < j < |Exported(db).domains| ==>
              Exported(db).domains[i].name != Exported(db).domains[j].name
    ensures forall i, j :: 0 <= i < j < |Exported(db).mailServers| ==>
              Exported(db).mailServers[i].name != Exported(db).mailServers[j].name
    ensures Exported(ToDb(Exported(db))) == Exported(db)
  {
    ExportReloads(db);
    NormalSame(db);
    ExportedSame(db, Normal(db));
  }
}
