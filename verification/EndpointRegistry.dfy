/**
 The public endpoint registry (facade/serviceregistry_cache.go, facade/zkapi.go): a cache of
 what each service has published in zookeeper, from which a sync works out what to delete.

 Public ports and virtual hosts are two kinds of one endpoint; zookeeper is a map that a sync
 request changes as one transaction.
 */
module EndpointRegistry {
  import opened Results

  datatype Key = PortKey(hostID: string, portAddress: string) | VHostKey(hostID: string, subdomain: string)

  datatype Value =
    | PublicPort(tenantID: string, application: string, serviceID: string, protocol: string, useTLS: bool)
    | VHost(tenantID: string, application: string, serviceID: string)

  type Published = map<Key, Value>

  type Registry = map<string, Published>

  datatype PortDef = PortDef(address: string, enabled: bool, protocol: string, useTLS: bool)

  datatype VHostDef = VHostDef(name: string, enabled: bool)

  datatype Endpoint = Endpoint(application: string, ports: seq<PortDef>, vhosts: seq<VHostDef>)

  datatype Service = Service(id: string, endpoints: seq<Endpoint>)

  const MASTER := "master"

  // ---------------------------------------------------------------- what a service publishes

  function AddPorts(m: Published, tenant: string, id: string, app: string, ports: seq<PortDef>): Published
    decreases |ports|
  {
    if ports == [] then m
    else
      var p := ports[0];
      var value := PublicPort(tenant, app, id, p.protocol, p.useTLS);
      var m' := if p.enabled then m[PortKey(MASTER, p.address) := value] else m;
      AddPorts(m', tenant, id, app, ports[1..])
  }

  function AddVHosts(m: Published, tenant: string, id: string, app: string, vhosts: seq<VHostDef>): Published
    decreases |vhosts|
  {
    if vhosts == [] then m
    else
      var v := vhosts[0];
      var m' := if v.enabled then m[VHostKey(MASTER, v.name) := VHost(tenant, app, id)] else m;
      AddVHosts(m', tenant, id, app, vhosts[1..])
  }

  function AddEndpoint(m: Published, tenant: string, id: string, ep: Endpoint): Published {
    AddVHosts(AddPorts(m, tenant, id, ep.application, ep.ports), tenant, id, ep.application, ep.vhosts)
  }

  function AddEndpoints(m: Published, tenant: string, id: string, eps: seq<Endpoint>): Published
    decreases |eps|
  {
    if eps == [] then m else AddEndpoints(AddEndpoint(m, tenant, id, eps[0]), tenant, id, eps[1..])
  }

  /** The maps `BuildSyncRequest` fills. */
  function ToPublish(tenant: string, svc: Service): Published {
    AddEndpoints(map[], tenant, svc.id, svc.endpoints)
  }

  /** An endpoint definition that is enabled, as a key and a value. */
  predicate Enables(tenant: string, id: string, ep: Endpoint, k: Key, v: Value) {
    || (exists p | p in ep.ports :: p.enabled && k == PortKey(MASTER, p.address)
                                    && v == PublicPort(tenant, ep.application, id, p.protocol, p.useTLS))
    || (exists h | h in ep.vhosts ::
          h.enabled && k == VHostKey(MASTER, h.name) && v == VHost(tenant, ep.application, id))
  }

  predicate EnablesKey(ep: Endpoint, k: Key) {
    || (exists p | p in ep.ports :: p.enabled && k == PortKey(MASTER, p.address))
    || (exists h | h in ep.vhosts :: h.enabled && k == VHostKey(MASTER, h.name))
  }

  lemma {:induction false} AddPortsAt(
    m: Published, tenant: string, id: string, app: string, ports: seq<PortDef>, k: Key)
    ensures var r := AddPorts(m, tenant, id, app, ports);
            && (k in r <==> k in m || exists p | p in ports :: p.enabled && k == PortKey(MASTER, p.address))
            && (k in r ==>
                  || (k in m && r[k] == m[k])
                  || exists p | p in ports ::
                       && p.enabled && k == PortKey(MASTER, p.address)
                       && r[k] == PublicPort(tenant, app, id, p.protocol, p.useTLS))
    decreases |ports|
  {
    if ports != [] {
      var p := ports[0];
      var value := PublicPort(tenant, app, id, p.protocol, p.useTLS);
      var m' := if p.enabled then m[PortKey(MASTER, p.address) := value] else m;
      AddPortsAt(m', tenant, id, app, ports[1..], k);
      assert ports == [p] + ports[1..];
    }
  }

  lemma {:induction false} AddVHostsAt(
    m: Published, tenant: string, id: string, app: string, vhosts: seq<VHostDef>, k: Key)
    ensures var r := AddVHosts(m, tenant, id, app, vhosts);
            && (k in r <==> k in m || exists h | h in vhosts :: h.enabled && k == VHostKey(MASTER, h.name))
            && (k in r ==>
                  || (k in m && r[k] == m[k])
                  || exists h | h in vhosts ::
                       h.enabled && k == VHostKey(MASTER, h.name) && r[k] == VHost(tenant, app, id))
    decreases |vhosts|
  {
    if vhosts != [] {
      var h := vhosts[0];
      var m' := if h.enabled then m[VHostKey(MASTER, h.name) := VHost(tenant, app, id)] else m;
      AddVHostsAt(m', tenant, id, app, vhosts[1..], k);
      assert vhosts == [h] + vhosts[1..];
    }
  }

  lemma {:induction false} AddEndpointAt(m: Published, tenant: string, id: string, ep: Endpoint, k: Key)
    ensures var r := AddEndpoint(m, tenant, id, ep);
            && (k in r <==> k in m || EnablesKey(ep, k))
            && (k in r ==> (k in m && r[k] == m[k]) || Enables(tenant, id, ep, k, r[k]))
  {
    AddPortsAt(m, tenant, id, ep.application, ep.ports, k);
    AddVHostsAt(AddPorts(m, tenant, id, ep.application, ep.ports), tenant, id, ep.application, ep.vhosts, k);
  }

  lemma {:induction false} AddEndpointsAt(m: Published, tenant: string, id: string, eps: seq<Endpoint>, k: Key)
    ensures var r := AddEndpoints(m, tenant, id, eps);
            && (k in r <==> k in m || exists ep | ep in eps :: EnablesKey(ep, k))
            && (k in r ==> (k in m && r[k] == m[k]) || exists ep | ep in eps :: Enables(tenant, id, ep, k, r[k]))
    decreases |eps|
  {
    if eps != [] {
      AddEndpointAt(m, tenant, id, eps[0], k);
      AddEndpointsAt(AddEndpoint(m, tenant, id, eps[0]), tenant, id, eps[1..], k);
      assert eps == [eps[0]] + eps[1..];
    }
  }

  /** A service publishes exactly its enabled ports and virtual hosts, and owns all of them. */
  lemma {:induction false} PublishesExactlyEnabled(tenant: string, svc: Service, k: Key)
    ensures k in ToPublish(tenant, svc) <==> exists ep | ep in svc.endpoints :: EnablesKey(ep, k)
    ensures k in ToPublish(tenant, svc) ==>
              && (exists ep | ep in svc.endpoints :: Enables(tenant, svc.id, ep, k, ToPublish(tenant, svc)[k]))
              && ToPublish(tenant, svc)[k].serviceID == svc.id
  {
    AddEndpointsAt(map[], tenant, svc.id, svc.endpoints, k);
  }

  // ---------------------------------------------------------------- definitions in order

  datatype Definition = Definition(key: Key, value: Value)

  /** The enabled definitions of a service, in the order in which they are met. */
  function PortDefinitions(tenant: string, id: string, app: string, ports: seq<PortDef>): seq<Definition> {
    if ports == [] then []
    else
      var p, rest := ports[0], PortDefinitions(tenant, id, app, ports[1..]);
      if p.enabled
      then [Definition(PortKey(MASTER, p.address), PublicPort(tenant, app, id, p.protocol, p.useTLS))] + rest
      else rest
  }

  function VHostDefinitions(tenant: string, id: string, app: string, vhosts: seq<VHostDef>): seq<Definition> {
    if vhosts == [] then []
    else
      var v, rest := vhosts[0], VHostDefinitions(tenant, id, app, vhosts[1..]);
      if v.enabled then [Definition(VHostKey(MASTER, v.name), VHost(tenant, app, id))] + rest else rest
  }

  function Definitions(tenant: string, id: string, eps: seq<Endpoint>): seq<Definition> {
    if eps == [] then []
    else
      var ep := eps[0];
      PortDefinitions(tenant, id, ep.application, ep.ports) + VHostDefinitions(tenant, id, ep.application, ep.vhosts) +
      Definitions(tenant, id, eps[1..])
  }

  function PutAll(m: Published, defs: seq<Definition>): Published
    decreases |defs|
  {
    if defs == [] then m else PutAll(m[defs[0].key := defs[0].value], defs[1..])
  }

  lemma {:induction false} PutAllConcat(m: Published, a: seq<Definition>, b: seq<Definition>)
    ensures PutAll(m, a + b) == PutAll(PutAll(m, a), b)
    decreases |a|
  {
    if a == [] {
      assert a + b == b;
    } else {
      assert (a + b)[1..] == a[1..] + b;
      PutAllConcat(m[a[0].key := a[0].value], a[1..], b);
    }
  }

  lemma {:induction false} AddPortsPuts(m: Published, tenant: string, id: string, app: string, ports: seq<PortDef>)
    ensures AddPorts(m, tenant, id, app, ports) == PutAll(m, PortDefinitions(tenant, id, app, ports))
    decreases |ports|
  {
    if ports != [] {
      var p := ports[0];
      var m' := m[PortKey(MASTER, p.address) := PublicPort(tenant, app, id, p.protocol, p.useTLS)];
      AddPortsPuts(if p.enabled then m' else m, tenant, id, app, ports[1..]);
      var defs := PortDefinitions(tenant, id, app, ports);
      assert p.enabled ==> defs[1..] == PortDefinitions(tenant, id, app, ports[1..]);
    }
  }

  lemma {:induction false} AddVHostsPuts(m: Published, tenant: string, id: string, app: string, vhosts: seq<VHostDef>)
    ensures AddVHosts(m, tenant, id, app, vhosts) == PutAll(m, VHostDefinitions(tenant, id, app, vhosts))
    decreases |vhosts|
  {
    if vhosts != [] {
      var v := vhosts[0];
      var m' := m[VHostKey(MASTER, v.name) := VHost(tenant, app, id)];
      AddVHostsPuts(if v.enabled then m' else m, tenant, id, app, vhosts[1..]);
      var defs := VHostDefinitions(tenant, id, app, vhosts);
      assert v.enabled ==> defs[1..] == VHostDefinitions(tenant, id, app, vhosts[1..]);
    }
  }

  lemma {:induction false} AddEndpointsPuts(m: Published, tenant: string, id: string, eps: seq<Endpoint>)
    ensures AddEndpoints(m, tenant, id, eps) == PutAll(m, Definitions(tenant, id, eps))
    decreases |eps|
  {
    if eps != [] {
      var ep := eps[0];
      var ports := PortDefinitions(tenant, id, ep.application, ep.ports);
      var vhosts := VHostDefinitions(tenant, id, ep.application, ep.vhosts);
      AddPortsPuts(m, tenant, id, ep.application, ep.ports);
      AddVHostsPuts(PutAll(m, ports), tenant, id, ep.application, ep.vhosts);
      AddEndpointsPuts(AddEndpoint(m, tenant, id, ep), tenant, id, eps[1..]);
      PutAllConcat(m, ports, vhosts);
      PutAllConcat(m, ports + vhosts, Definitions(tenant, id, eps[1..]));
    }
  }

  lemma {:induction false} PutAllLast(m: Published, defs: seq<Definition>, i: nat)
    requires i < |defs| && forall j | i < j < |defs| :: defs[j].key != defs[i].key
    ensures defs[i].key in PutAll(m, defs) && PutAll(m, defs)[defs[i].key] == defs[i].value
    decreases |defs|
  {
    var m' := m[defs[0].key := defs[0].value];
    if i > 0 {
      PutAllLast(m', defs[1..], i - 1);
    } else {
      PutAllKeeps(m', defs[1..], defs[0].key);
    }
  }

  lemma {:induction false} PutAllKeeps(m: Published, defs: seq<Definition>, k: Key)
    requires k in m && forall j | 0 <= j < |defs| :: defs[j].key != k
    ensures k in PutAll(m, defs) && PutAll(m, defs)[k] == m[k]
    decreases |defs|
  {
    if defs != [] {
      assert defs[0].key != k;
      PutAllKeeps(m[defs[0].key := defs[0].value], defs[1..], k);
    }
  }

  /** Where several definitions share a key, the last one is published. */
  lemma {:induction false} LastDefinitionWins(tenant: string, svc: Service, i: nat)
    requires i < |Definitions(tenant, svc.id, svc.endpoints)|
    requires var defs := Definitions(tenant, svc.id, svc.endpoints);
             forall j | i < j < |defs| :: defs[j].key != defs[i].key
    ensures var def := Definitions(tenant, svc.id, svc.endpoints)[i];
            def.key in ToPublish(tenant, svc) && ToPublish(tenant, svc)[def.key] == def.value
  {
    AddEndpointsPuts(map[], tenant, svc.id, svc.endpoints);
    PutAllLast(map[], Definitions(tenant, svc.id, svc.endpoints), i);
  }

  // ---------------------------------------------------------------- requests

  datatype SyncRequest = SyncRequest(serviceID: string, toDelete: set<Key>, toPublish: Published)

  /** The zookeeper transaction: deleting a missing node aborts it. */
  function Apply(zk: Published, request: SyncRequest): Option<Published> {
    if request.toDelete <= zk.Keys then Some((zk - request.toDelete) + request.toPublish) else None
  }

  function Cached(registry: Registry, id: string): Published {
    if id in registry then registry[id] else map[]
  }

  function SyncRequestFor(registry: Registry, tenant: string, svc: Service): SyncRequest {
    var publish := ToPublish(tenant, svc);
    SyncRequest(svc.id, Cached(registry, svc.id).Keys - publish.Keys, publish)
  }

  function RemoveRequestFor(registry: Registry, id: string): SyncRequest {
    SyncRequest(id, Cached(registry, id).Keys, map[])
  }

  // ---------------------------------------------------------------- the mirror

  function OwnedBy(zk: Published, id: string): Published {
    map k | k in zk && zk[k].serviceID == id :: zk[k]
  }

  /** The cache is zookeeper grouped by owner. */
  ghost predicate Mirrors(registry: Registry, zk: Published) {
    forall id :: Cached(registry, id) == OwnedBy(zk, id)
  }

  /** The request publishes a key that another service owns. */
  predicate Steals(zk: Published, request: SyncRequest) {
    exists k | k in request.toPublish :: k in zk && zk[k].serviceID != request.serviceID
  }

  /** A request as both operations build them. */
  ghost predicate Built(registry: Registry, request: SyncRequest) {
    && request.toDelete == Cached(registry, request.serviceID).Keys - request.toPublish.Keys
    && forall k | k in request.toPublish :: request.toPublish[k].serviceID == request.serviceID
  }

  lemma {:induction false} RequestsBuilt(registry: Registry, tenant: string, svc: Service, id: string)
    ensures Built(registry, SyncRequestFor(registry, tenant, svc)) && Built(registry, RemoveRequestFor(registry, id))
  {
    var publish := ToPublish(tenant, svc);
    forall k | k in publish ensures publish[k].serviceID == svc.id {
      PublishesExactlyEnabled(tenant, svc, k);
    }
    assert Cached(registry, id).Keys - {} == Cached(registry, id).Keys;
  }

  /**
   From a mirroring cache the transaction always goes through; afterwards the service owns
   exactly what it asked for, and the updated cache mirrors zookeeper if and only if the request
   did not take a key away from another service.
   */
  lemma {:induction false} SyncMirrorsIff(registry: Registry, zk: Published, request: SyncRequest)
    requires Mirrors(registry, zk) && Built(registry, request)
    ensures Apply(zk, request).Some?
    ensures OwnedBy(Apply(zk, request).value, request.serviceID) == request.toPublish
    ensures Mirrors(registry[request.serviceID := request.toPublish], Apply(zk, request).value) <==>
            !Steals(zk, request)
  {
    var id := request.serviceID;
    assert Cached(registry, id) == OwnedBy(zk, id);
    var zk' := Apply(zk, request).value;
    var registry' := registry[id := request.toPublish];
    assert OwnedBy(zk', id) == request.toPublish;
    if Steals(zk, request) {
      var k :| k in request.toPublish && k in zk && zk[k].serviceID != id;
      var victim := zk[k].serviceID;
      assert Cached(registry, victim) == OwnedBy(zk, victim);
      assert k in Cached(registry', victim) && k !in OwnedBy(zk', victim);
    } else {
      forall other ensures Cached(registry', other) == OwnedBy(zk', other) {
        if other != id {
          OtherUntouched(registry, zk, request, other);
        }
      }
    }
  }

  lemma {:induction false} OtherUntouched(registry: Registry, zk: Published, request: SyncRequest, other: string)
    requires Mirrors(registry, zk) && Built(registry, request) && !Steals(zk, request) && other != request.serviceID
    requires Apply(zk, request).Some?
    ensures Cached(registry, other) == OwnedBy(Apply(zk, request).value, other)
  {
    var id := request.serviceID;
    assert Cached(registry, id) == OwnedBy(zk, id) && Cached(registry, other) == OwnedBy(zk, other);
    assert OwnedBy(Apply(zk, request).value, other) == OwnedBy(zk, other);
  }

  // ---------------------------------------------------------------- whole runs

  datatype Event =
    | Sync(tenant: string, svc: Service)
    | Remove(id: string)
    | Failed

  datatype State = State(registry: Registry, zk: Published)

  function RequestOf(st: State, e: Event): SyncRequest
    requires !e.Failed?
  {
    if e.Sync? then SyncRequestFor(st.registry, e.tenant, e.svc) else RemoveRequestFor(st.registry, e.id)
  }

  /** A step is a transaction and the update of the cache behind it; if zookeeper refuses, neither happens. */
  function Next(st: State, e: Event): State {
    if e.Failed? then st
    else
      var request := RequestOf(st, e);
      match Apply(st.zk, request)
      case None => st
      case Some(zk) => State(st.registry[request.serviceID := request.toPublish], zk)
  }

  predicate StealsNow(st: State, e: Event) {
    !e.Failed? && Steals(st.zk, RequestOf(st, e))
  }

  lemma {:induction false} StepMirrorsIff(st: State, e: Event)
    requires Mirrors(st.registry, st.zk)
    ensures Mirrors(Next(st, e).registry, Next(st, e).zk) <==> !StealsNow(st, e)
  {
    if !e.Failed? {
      var tenant, svc := if e.Sync? then e.tenant else "", if e.Sync? then e.svc else Service("", []);
      RequestsBuilt(st.registry, tenant, svc, if e.Remove? then e.id else "");
      SyncMirrorsIff(st.registry, st.zk, RequestOf(st, e));
    }
  }

  function StateAt(st: State, events: seq<Event>, n: nat): State
    requires n <= |events|
  {
    if n == 0 then st else Next(StateAt(st, events, n - 1), events[n - 1])
  }

  ghost predicate MirrorsAt(st: State, events: seq<Event>, n: nat)
    requires n <= |events|
  {
    Mirrors(StateAt(st, events, n).registry, StateAt(st, events, n).zk)
  }

  lemma {:induction false} RunMirrors(st: State, events: seq<Event>, n: nat)
    requires Mirrors(st.registry, st.zk) && n <= |events|
    requires forall i | 0 <= i < n :: !StealsNow(StateAt(st, events, i), events[i])
    ensures MirrorsAt(st, events, n)
  {
    if n > 0 {
      RunMirrors(st, events, n - 1);
      StepMirrorsIff(StateAt(st, events, n - 1), events[n - 1]);
    }
  }

  /**
   Over every run of syncs, removals and failures from a mirroring cache, the cache is zookeeper
   grouped by owner in all states if and only if no service ever enables a key owned by another.
   */
  lemma {:induction false} RunMirrorsIff(st: State, events: seq<Event>)
    requires Mirrors(st.registry, st.zk)
    ensures (forall n | 0 <= n <= |events| :: MirrorsAt(st, events, n)) <==>
            (forall i | 0 <= i < |events| :: !StealsNow(StateAt(st, events, i), events[i]))
  {
    if forall i | 0 <= i < |events| :: !StealsNow(StateAt(st, events, i), events[i]) {
      forall n | 0 <= n <= |events| ensures MirrorsAt(st, events, n) {
        RunMirrors(st, events, n);
      }
    }
    if forall n | 0 <= n <= |events| :: MirrorsAt(st, events, n) {
      forall i | 0 <= i < |events| ensures !StealsNow(StateAt(st, events, i), events[i]) {
        assert MirrorsAt(st, events, i) && MirrorsAt(st, events, i + 1);
        StepMirrorsIff(StateAt(st, events, i), events[i]);
      }
    }
  }

  // ---------------------------------------------------------------- the cache object

  class ServiceRegistryCache {
    var registry: Registry

    constructor ()
      ensures registry == map[]
    {
      registry := map[];
    }

    /** `GetRegistryForService`: an empty entry is made when there is none. */
    method GetRegistryForService(id: string) returns (entry: Published)
      modifies this
      ensures entry == Cached(old(registry), id) && registry == old(registry)[id := entry]
      ensures forall x :: Cached(registry, x) == Cached(old(registry), x)
    {
      if id !in registry {
        registry := registry[id := map[]];
      }
      entry := registry[id];
      assert registry == old(registry)[id := entry];
    }

    /** Groups what zookeeper holds by owner, in whatever order it is listed. */
    method BuildCache(zk: Published)
      modifies this
      ensures Mirrors(registry, zk)
    {
      registry := map[];
      var left := zk.Keys;
      ghost var done: Published := map[];
      while left != {}
        invariant left <= zk.Keys && done.Keys == zk.Keys - left
        invariant forall k | k in done :: done[k] == zk[k]
        invariant Mirrors(registry, done)
        decreases left
      {
        var key :| key in left;
        left := left - {key};
        var owner := zk[key].serviceID;
        var entry := GetRegistryForService(owner);
        assert entry == OwnedBy(done, owner);
        GroupOneMore(registry, done, key, zk[key]);
        registry := registry[owner := entry[key := zk[key]]];
        done := done[key := zk[key]];
      }
      assert done == zk;
    }

    /** The loops of `BuildSyncRequest`. */
    method BuildSyncRequest(tenant: string, svc: Service) returns (request: SyncRequest)
      ensures request == SyncRequestFor(registry, tenant, svc)
    {
      var publish: Published := map[];
      var eps := svc.endpoints;
      for i := 0 to |eps|
        invariant AddEndpoints(publish, tenant, svc.id, eps[i..]) == ToPublish(tenant, svc)
      {
        assert eps[i..][1..] == eps[i + 1..];
        publish := AddOne(publish, tenant, svc.id, eps[i]);
      }
      var toDelete: set<Key> := {};
      var cached := if svc.id in registry then registry[svc.id] else map[];
      var left := cached.Keys;
      while left != {}
        invariant left <= cached.Keys
        invariant toDelete == (cached.Keys - left) - publish.Keys
        decreases left
      {
        var key :| key in left;
        left := left - {key};
        if key !in publish {
          toDelete := toDelete + {key};
        }
      }
      request := SyncRequest(svc.id, toDelete, publish);
    }

    method AddOne(m: Published, tenant: string, id: string, ep: Endpoint) returns (publish: Published)
      ensures publish == AddEndpoint(m, tenant, id, ep)
    {
      publish := m;
      for j := 0 to |ep.ports|
        invariant AddPorts(publish, tenant, id, ep.application, ep.ports[j..]) ==
                  AddPorts(m, tenant, id, ep.application, ep.ports)
      {
        assert ep.ports[j..][1..] == ep.ports[j + 1..];
        var p := ep.ports[j];
        if p.enabled {
          var value := PublicPort(tenant, ep.application, id, p.protocol, p.useTLS);
          publish := publish[PortKey(MASTER, p.address) := value];
        }
      }
      ghost var mid := publish;
      for j := 0 to |ep.vhosts|
        invariant AddVHosts(publish, tenant, id, ep.application, ep.vhosts[j..]) ==
                  AddVHosts(mid, tenant, id, ep.application, ep.vhosts)
      {
        assert ep.vhosts[j..][1..] == ep.vhosts[j + 1..];
        var v := ep.vhosts[j];
        if v.enabled {
          publish := publish[VHostKey(MASTER, v.name) := VHost(tenant, ep.application, id)];
        }
      }
    }
  }

  /** One more entry of zookeeper, filed with its owner. */
  lemma {:induction false} GroupOneMore(registry: Registry, done: Published, key: Key, value: Value)
    requires Mirrors(registry, done) && key !in done
    ensures Mirrors(registry[value.serviceID := Cached(registry, value.serviceID)[key := value]], done[key := value])
  {
    var id := value.serviceID;
    var registry', done' := registry[id := Cached(registry, id)[key := value]], done[key := value];
    forall x ensures Cached(registry', x) == OwnedBy(done', x) {
      assert Cached(registry, x) == OwnedBy(done, x);
      assert OwnedBy(done', x) == if x == id then OwnedBy(done, x)[key := value] else OwnedBy(done, x);
    }
  }

  /** The coordinator: zookeeper and the cache in front of it. */
  class Coordinator {
    var zk: Published
    const cache: ServiceRegistryCache

    constructor (zk: Published)
      ensures this.zk == zk && fresh(cache) && Mirrors(cache.registry, zk)
    {
      this.zk := zk;
      this.cache := new ServiceRegistryCache();
      new;
      cache.BuildCache(zk);
    }

    ghost function Snapshot(): State
      reads this, cache
    {
      State(cache.registry, zk)
    }

    /** `SyncServiceRegistry`; `available` says whether zookeeper can be reached. */
    method SyncServiceRegistry(tenant: string, svc: Service, available: bool) returns (ok: bool)
      requires Mirrors(cache.registry, zk)
      modifies this, cache
      ensures Snapshot() == Next(old(Snapshot()), if ok then Sync(tenant, svc) else Failed)
      ensures ok <==> available
      ensures ok ==> OwnedBy(zk, svc.id) == ToPublish(tenant, svc)
      ensures Mirrors(cache.registry, zk) <==> !ok || !Steals(old(zk), SyncRequestFor(old(cache.registry), tenant, svc))
    {
      if !available {
        return false;
      }
      var request := cache.BuildSyncRequest(tenant, svc);
      RequestsBuilt(cache.registry, tenant, svc, "");
      SyncMirrorsIff(cache.registry, zk, request);
      zk := Apply(zk, request).value;
      cache.registry := cache.registry[request.serviceID := request.toPublish];
      ok := true;
    }

    method RemoveServiceEndpoints(id: string, available: bool) returns (ok: bool)
      requires Mirrors(cache.registry, zk)
      modifies this, cache
      ensures ok <==> available
      ensures Mirrors(cache.registry, zk)
      ensures ok ==> Snapshot() == Next(old(Snapshot()), Remove(id)) && OwnedBy(zk, id) == map[]
      ensures !ok ==> zk == old(zk)
    {
      var entry := cache.GetRegistryForService(id);
      if !available {
        return false;
      }
      var request := SyncRequest(id, entry.Keys, map[]);
      assert request == RemoveRequestFor(old(cache.registry), id);
      RequestsBuilt(old(cache.registry), "", Service("", []), id);
      SyncMirrorsIff(old(cache.registry), zk, request);
      zk := Apply(zk, request).value;
      cache.registry := cache.registry[id := map[]];
      assert cache.registry == old(cache.registry)[id := map[]];
      ok := true;
    }
  }
}
