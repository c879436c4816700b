/** The entities of the domain store, the cross-reference index and the DNS oracle. */
module Records {
  import opened Lattice

  datatype Option<T> = None | Some(value: T)

  /** What the store knows about one mail domain (the generated `DomainData`). */
  datatype DomainData = DomainData(
    kind: Classification,
    heuristics: Heuristics,
    mailServers: seq<string>,
    service: Option<string>,
    potentialServices: seq<string>)

  /** What the store knows about one mail server (the generated `MxData`): its resolved
      addresses and the classification the aggregation pass derives for it. */
  datatype MxData = MxData(addresses: seq<string>, kind: Classification)

  /** The contents of the store (the generated `Index`): domain name to domain record and
      mail-server name to mail-server record. */
  datatype Db = Db(domains: map<string, DomainData>, mailServers: map<string, MxData>)
  {
    /** Every mail server a domain lists has a record of its own. */
    ghost predicate Valid()
    {
      forall d, m :: d in domains && m in domains[d].mailServers ==> m in mailServers
    }
  }

  /** The lookup tables derived from the store once per batch (`XRefIndex`). */
  datatype XRefIndex = XRefIndex(
    addressClassification: map<string, Classification>,
    serviceByMx: map<string, set<string>>,
    serviceByAddress: map<string, set<string>>)

  /** The two DNS questions the engine asks. `lookupMx` gives the MX targets of a domain, or
      None when the lookup yields no records; `resolve` gives the addresses of a host name,
      or None when the name does not resolve. */
  datatype Dns = Dns(
    lookupMx: string -> Option<seq<string>>,
    resolve: string -> Option<seq<string>>)

  /** `Map.getOrDefault(key, UNKNOWN)`. */
  function ClassificationAt(m: map<string, Classification>, key: string): Classification
  {
    if key in m then m[key] else UNKNOWN
  }

  /** `Map.getOrDefault(key, emptySet())`. */
  function SetAt(m: map<string, set<string>>, key: string): set<string>
  {
    if key in m then m[key] else {}
  }
}
