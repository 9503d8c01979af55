/** The domain values every surface shares (internal/model). Times and durations are
    integer nanoseconds; generations and indexes are unbounded naturals. */
module Model {

  datatype Option<+T> = None | Some(value: T)

  datatype HealthState = Unspecified | Passing | Warning | Critical

  datatype Node = Node(
    id: string,
    name: string,
    address: string,
    datacenter: string,
    meta: map<string, string>,
    taggedAddresses: map<string, string>)
  {
    function DisplayName(): string {
      if name != "" then name else id
    }
  }

  datatype Weights = Weights(passing: nat, warning: nat)

  /** A last-writer-wins version: generation first, then the server-stamped heartbeat. */
  datatype Version = Version(generation: nat, lastSeen: int) {
    predicate Below(other: Version) {
      generation < other.generation || (generation == other.generation && lastSeen < other.lastSeen)
    }

    predicate AtMost(other: Version) {
      !other.Below(this)
    }
  }

  datatype ServiceInstance = ServiceInstance(
    id: string,
    name: string,
    address: string,
    port: nat,
    tags: seq<string>,
    meta: map<string, string>,
    weights: Weights,
    ttl: int,
    lastSeen: int,
    generation: nat)
  {
    function Stamp(): Version {
      Version(generation, lastSeen)
    }

    /** Strictly later under last-writer-wins. */
    predicate WinsLWW(other: ServiceInstance) {
      if generation != other.generation then generation > other.generation else lastSeen > other.lastSeen
    }

    predicate HasTag(tag: string) {
      tag in tags
    }

    predicate MatchesTags(wanted: seq<string>) {
      forall w | w in wanted :: HasTag(w)
    }
  }

  /** The identity of an instance across seeds: (Node.ID, Service.ID). */
  datatype Key = Key(node: string, service: string)

  datatype ServiceEntry = ServiceEntry(
    node: Node,
    service: ServiceInstance,
    health: HealthState,
    maintenance: bool,
    createIndex: nat,
    modifyIndex: nat)
  {
    function Id(): Key {
      Key(node.id, service.id)
    }

    function ReachableAddress(): string {
      if service.address != "" then service.address else node.address
    }
  }

  datatype Registration = Registration(node: Node, services: seq<ServiceInstance>, generation: nat)

  datatype Query = Query(name: string, datacenter: string, tags: seq<string>, onlyHealthy: bool)

  datatype LookupResult = LookupResult(entries: seq<ServiceEntry>, index: nat)

  datatype ChangeType = ChangePut | ChangeDelete

  datatype ChangeEvent = ChangeEvent(kind: ChangeType, entry: ServiceEntry, index: nat)

  /** The part of the filter that is about the instance itself. */
  predicate Describes(q: Query, def: ServiceInstance) {
    (q.name == "" || q.name == def.name) && def.MatchesTags(q.tags)
  }

  /** The name, datacenter and tag filter shared by store lookups and subscriptions. */
  predicate Matches(q: Query, datacenter: string, def: ServiceInstance) {
    Describes(q, def) && (q.datacenter == "" || q.datacenter == datacenter)
  }

  lemma DescribesAlike(q: Query, a: ServiceInstance, b: ServiceInstance)
    requires a.name == b.name && a.tags == b.tags
    ensures Describes(q, a) <==> Describes(q, b)
  {
    assert forall w :: a.HasTag(w) <==> b.HasTag(w);
  }
}
