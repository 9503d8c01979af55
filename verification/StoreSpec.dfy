/** What one seed's registry does (internal/store), as functions on values. The two-level
    node map is flattened to `svcs`, the name index disappears, and `log` holds every event
    handed to OnChange. Each operation, with its emission, is one step. */
module StoreSpec {
  import opened Model
  import opened Order

  datatype Options = Options(
    defaultTTL: int,
    minTTL: int,
    maxTTL: int,
    grace: int,
    startIndex: nat,
    maxServices: int)

  const DEFAULT_TTL: int := 30_000_000_000

  function Normalized(o: Options): Options {
    if o.defaultTTL <= 0 then o.(defaultTTL := DEFAULT_TTL) else o
  }

  datatype Service = Service(
    def: ServiceInstance,
    maintenance: bool,
    failed: bool,
    lastState: HealthState,
    createIndex: nat,
    modifyIndex: nat)

  datatype Registry = Registry(
    metas: map<string, Node>,
    svcs: map<Key, Service>,
    index: nat,
    log: seq<ChangeEvent>)

  datatype Status = Ok | ErrInvalid | ErrNotFound | ErrCapacity

  function Init(o: Options): Registry {
    Registry(map[], map[], o.startIndex, [])
  }

  function ClampTTL(o: Options, d: int): int {
    var d0 := if d <= 0 then o.defaultTTL else d;
    var d1 := if o.minTTL > 0 && d0 < o.minTTL then o.minTTL else d0;
    if o.maxTTL > 0 && d1 > o.maxTTL then o.maxTTL else d1
  }

  // ---- leases ----

  function State(svc: Service, now: int): HealthState {
    if !svc.failed && now - svc.def.lastSeen <= svc.def.ttl then Passing else Critical
  }

  predicate PastGrace(o: Options, svc: Service, now: int) {
    && !svc.failed
    && now - svc.def.lastSeen > svc.def.ttl
    && now - svc.def.lastSeen > svc.def.ttl + o.grace
  }

  /** Nothing stored is past grace. */
  predicate NoneExpired(o: Options, s: Registry, now: int) {
    forall k | k in s.svcs :: !PastGrace(o, s.svcs[k], now)
  }

  // ---- events ----

  function Entry(meta: Node, svc: Service, state: HealthState): ServiceEntry {
    ServiceEntry(meta, svc.def, state, svc.maintenance, svc.createIndex, svc.modifyIndex)
  }

  function PutEvent(meta: Node, svc: Service, now: int): ChangeEvent {
    ChangeEvent(ChangePut, Entry(meta, svc, State(svc, now)), svc.modifyIndex)
  }

  function DeleteEvent(meta: Node, svc: Service): ChangeEvent {
    ChangeEvent(ChangeDelete, Entry(meta, svc, Critical), svc.modifyIndex)
  }

  // ---- the elementary updates ----

  function SetMeta(s: Registry, n: Node): Registry {
    s.(metas := s.metas[n.id := n])
  }

  /** Stores `svc` under `k` at the next index and emits the put. */
  function Publish(s: Registry, k: Key, svc: Service, now: int): Registry
    requires k.node in s.metas
  {
    var v := svc.(modifyIndex := s.index + 1);
    Registry(s.metas, s.svcs[k := v], s.index + 1, s.log + [PutEvent(s.metas[k.node], v, now)])
  }

  function Add(s: Registry, k: Key, def: ServiceInstance, now: int): Registry
    requires k.node in s.metas
  {
    Publish(s, k, Service(def, false, false, Passing, s.index + 1, s.index + 1), now)
  }

  /** Removes `k` at the next index and emits the delete. */
  function Withdraw(s: Registry, k: Key): Registry
    requires k in s.svcs && k.node in s.metas
  {
    var v := s.svcs[k].(modifyIndex := s.index + 1);
    Registry(s.metas, s.svcs - {k}, s.index + 1, s.log + [DeleteEvent(s.metas[k.node], v)])
  }

  /** A lease refresh: neither index nor event. */
  function Refresh(s: Registry, k: Key, failed: bool, now: int): Registry
    requires k in s.svcs
  {
    var svc := s.svcs[k];
    s.(svcs := s.svcs[k := svc.(def := svc.def.(lastSeen := now), failed := failed)])
  }

  predicate Full(o: Options, s: Registry) {
    o.maxServices > 0 && |s.svcs| >= o.maxServices
  }

  // ---- Register ----

  /** The store's map comparison: a key missing on the right reads as the empty string. */
  predicate EqualMap(a: map<string, string>, b: map<string, string>) {
    && |a| == |b|
    && forall k | k in a :: (if k in b then b[k] else "") == a[k]
  }

  predicate Changed(a: ServiceInstance, b: ServiceInstance) {
    || a.name != b.name || a.address != b.address || a.port != b.port
    || a.ttl != b.ttl || a.generation != b.generation || a.weights != b.weights
    || a.tags != b.tags || !EqualMap(a.meta, b.meta)
  }

  function EffectiveId(svc: ServiceInstance): string {
    if svc.id == "" then svc.name else svc.id
  }

  function Incoming(o: Options, svc: ServiceInstance, generation: nat, now: int): ServiceInstance {
    svc.(id := EffectiveId(svc),
         ttl := ClampTTL(o, svc.ttl), lastSeen := now, generation := generation)
  }

  function RegisterOne(o: Options, s: Registry, n: string, def: ServiceInstance, now: int): (Registry, Status)
    requires n in s.metas
  {
    var k := Key(n, def.id);
    if k !in s.svcs then
      if Full(o, s) then (s, ErrCapacity) else (Add(s, k, def, now), Ok)
    else if Changed(s.svcs[k].def, def) then
      (Publish(s, k, s.svcs[k].(def := def, lastState := Passing), now), Ok)
    else
      (Refresh(s, k, s.svcs[k].failed, now), Ok)
  }

  function RegisterAll(o: Options, s: Registry, n: string, services: seq<ServiceInstance>, generation: nat, now: int)
    : (Registry, Status)
    requires n in s.metas
    decreases |services|
  {
    if services == [] then (s, Ok)
    else
      var r := RegisterOne(o, s, n, Incoming(o, services[0], generation, now), now);
      if r.1 != Ok then r else RegisterAll(o, r.0, n, services[1..], generation, now)
  }

  predicate ValidRegistration(reg: Registration) {
    reg.node.id != "" && forall svc | svc in reg.services :: svc.name != ""
  }

  function Register(o: Options, s: Registry, reg: Registration, now: int): (Registry, Status) {
    if !ValidRegistration(reg) then (s, ErrInvalid)
    else RegisterAll(o, SetMeta(s, reg.node), reg.node.id, reg.services, reg.generation, now)
  }

  // ---- Merge ----

  function Clamped(o: Options, def: ServiceInstance): ServiceInstance {
    def.(ttl := ClampTTL(o, def.ttl))
  }

  /** Adds within the cap, adopts what strictly wins, and ignores the rest. */
  function MergeInstance(o: Options, s: Registry, k: Key, def: ServiceInstance, now: int): (Registry, nat)
    requires k.node in s.metas
  {
    if k !in s.svcs then
      if Full(o, s) then (s, 0) else (Add(s, k, def, now), 1)
    else if def.WinsLWW(s.svcs[k].def) then
      (Publish(s, k, s.svcs[k].(def := def), now), 1)
    else (s, 0)
  }

  function MergeOne(o: Options, s: Registry, e: ServiceEntry, now: int): (Registry, nat) {
    if e.node.id == "" || e.service.id == "" then (s, 0)
    else MergeInstance(o, SetMeta(s, e.node), e.Id(), Clamped(o, e.service), now)
  }

  function Merge(o: Options, s: Registry, es: seq<ServiceEntry>, now: int): (Registry, nat)
    decreases |es|
  {
    if es == [] then (s, 0)
    else
      var r := MergeOne(o, s, es[0], now);
      var t := Merge(o, r.0, es[1..], now);
      (t.0, r.1 + t.1)
  }

  // ---- Renew, Fail, SetMaintenance ----

  function RenewNode(s: Registry, n: string, now: int): Registry {
    s.(svcs := map k | k in s.svcs ::
      if k.node == n then s.svcs[k].(def := s.svcs[k].def.(lastSeen := now), failed := false) else s.svcs[k])
  }

  /** Renews the listed services up to the first one that does not exist. */
  function RenewEach(s: Registry, n: string, ids: seq<string>, now: int): (Registry, Status)
    decreases |ids|
  {
    if ids == [] then (s, Ok)
    else if Key(n, ids[0]) !in s.svcs then (s, ErrNotFound)
    else RenewEach(Refresh(s, Key(n, ids[0]), false, now), n, ids[1..], now)
  }

  function Renew(s: Registry, n: string, ids: seq<string>, now: int): (Registry, Status) {
    if n !in s.metas then (s, ErrNotFound)
    else if ids == [] then (RenewNode(s, n, now), Ok)
    else RenewEach(s, n, ids, now)
  }

  predicate Held(s: Registry, k: Key) {
    k.node in s.metas && k in s.svcs
  }

  function Fail(s: Registry, k: Key, now: int): (Registry, Status) {
    if !Held(s, k) then (s, ErrNotFound)
    else if s.svcs[k].failed then (s, Ok)
    else (Publish(s, k, s.svcs[k].(failed := true), now), Ok)
  }

  function SetMaintenance(s: Registry, k: Key, enabled: bool, now: int): (Registry, Status) {
    if !Held(s, k) then (s, ErrNotFound)
    else if s.svcs[k].maintenance == enabled then (s, Ok)
    else (Publish(s, k, s.svcs[k].(maintenance := enabled), now), Ok)
  }

  // ---- removal; the iteration order of Go maps is the parameter `order` ----

  function NodeKeys(s: Registry, n: string): set<Key> {
    set k | k in s.svcs && k.node == n
  }

  predicate Enumerates(order: seq<Key>, ks: set<Key>) {
    multiset(order) == multiset(ks)
  }

  function WithdrawAll(s: Registry, order: seq<Key>): Registry
    decreases |order|
  {
    if order == [] then s
    else if Held(s, order[0]) then WithdrawAll(Withdraw(s, order[0]), order[1..])
    else WithdrawAll(s, order[1..])
  }

  function DropNode(s: Registry, n: string): Registry {
    s.(metas := s.metas - {n})
  }

  function Deregister(s: Registry, n: string, order: seq<Key>): (Registry, Status) {
    if n !in s.metas then (s, ErrNotFound)
    else (DropNode(WithdrawAll(s, order), n), Ok)
  }

  function DeregisterService(s: Registry, k: Key): (Registry, Status) {
    if !Held(s, k) then (s, ErrNotFound)
    else
      var t := Withdraw(s, k);
      (if NodeKeys(t, k.node) == {} then DropNode(t, k.node) else t, Ok)
  }

  function GcOne(o: Options, s: Registry, k: Key, now: int): Registry {
    if !Held(s, k) then s
    else if PastGrace(o, s.svcs[k], now) then Withdraw(s, k)
    else if State(s.svcs[k], now) != s.svcs[k].lastState then
      Publish(s, k, s.svcs[k].(lastState := State(s.svcs[k], now)), now)
    else s
  }

  function GcAll(o: Options, s: Registry, order: seq<Key>, now: int): Registry
    decreases |order|
  {
    if order == [] then s else GcAll(o, GcOne(o, s, order[0], now), order[1..], now)
  }

  function DropEmpty(s: Registry): Registry {
    s.(metas := map n | n in s.metas && NodeKeys(s, n) != {} :: s.metas[n])
  }

  function Gc(o: Options, s: Registry, order: seq<Key>, now: int): Registry {
    DropEmpty(GcAll(o, s, order, now))
  }

  // ---- Lookup ----

  /** The full scan: every stored instance that matches and is not past grace. */
  function Visible(o: Options, s: Registry, q: Query, now: int): map<Key, ServiceEntry> {
    map k | k in s.svcs && Held(s, k)
            && Matches(q, s.metas[k.node].datacenter, s.svcs[k].def) && !PastGrace(o, s.svcs[k], now)
      :: Entry(s.metas[k.node], s.svcs[k], State(s.svcs[k], now))
  }

  ghost function Lookup(o: Options, s: Registry, q: Query, now: int): LookupResult
    requires WellKeyed(s)
  {
    LookupResult(Listing(Visible(o, s, q, now)), s.index)
  }

  /** Map keys are the ids of what they hold, ids are non-empty, and every instance has
      its node. */
  ghost predicate WellKeyed(s: Registry) {
    && (forall n | n in s.metas :: s.metas[n].id == n)
    && (forall k | k in s.svcs :: k.node in s.metas && s.svcs[k].def.id == k.service && k.node != "" && k.service != "")
  }

  // ---- steps and runs ----

  datatype Op =
    | OpRegister(reg: Registration)
    | OpMerge(entries: seq<ServiceEntry>)
    | OpRenew(node: string, ids: seq<string>)
    | OpFail(key: Key)
    | OpSetMaintenance(key: Key, enabled: bool)
    | OpDeregister(node: string)
    | OpDeregisterService(key: Key)
    | OpLookup(query: Query)
    | OpGc

  ghost predicate Step(o: Options, s: Registry, op: Op, now: int, t: Registry) {
    match op
    case OpRegister(reg) => t == Register(o, s, reg, now).0
    case OpMerge(es) => t == Merge(o, s, es, now).0
    case OpRenew(n, ids) => t == Renew(s, n, ids, now).0
    case OpFail(k) => t == Fail(s, k, now).0
    case OpSetMaintenance(k, enabled) => t == SetMaintenance(s, k, enabled, now).0
    case OpDeregister(n) => exists order :: Enumerates(order, NodeKeys(s, n)) && t == Deregister(s, n, order).0
    case OpDeregisterService(k) => t == DeregisterService(s, k).0
    case OpLookup(_) => t == s
    case OpGc => exists order :: Enumerates(order, s.svcs.Keys) && t == Gc(o, s, order, now)
  }

  /** An operation and the instant at which it runs. */
  datatype Timed = Timed(op: Op, now: int)

  /** Some run of `ops` leads from `s` to `t`. */
  ghost predicate Reaches(o: Options, s: Registry, ops: seq<Timed>, t: Registry)
    decreases |ops|
  {
    if ops == [] then t == s
    else exists m :: Step(o, s, ops[0].op, ops[0].now, m) && Reaches(o, m, ops[1..], t)
  }
}
