/**
 The address allocator (facade/service.go, facade/addressassignment.go): choosing an IP for a
 service's ports, dropping its assignments elsewhere and making the missing ones.

 The table of assignments is a set: the generated id of an entry is dropped, because entries
 are told apart by their contents (see `Unique`).
 */
module Addresses {
  import opened Results

  type Port = p: int | 0 <= p < 0x1_0000

  datatype Kind = Virtual | Static

  datatype Assignment = Assignment(kind: Kind, hostID: string, poolID: string, ip: string, port: Port,
                                   serviceID: string, endpoint: string)

  type Table = set<Assignment>

  datatype Endpoint = Endpoint(name: string, port: Port, protocol: string, savedIP: string) {
    predicate Configurable() { port > 0 && protocol != "" }
  }

  datatype Service = Service(id: string, poolID: string, endpoints: seq<Endpoint>)

  datatype HostIP = HostIP(hostID: string, ip: string)

  datatype Host = Host(poolID: string, ips: seq<HostIP>)

  /** What the allocator reads besides the table: virtual IPs by pool, hosts, and `net.ParseIP`. */
  datatype World = World(vips: map<string, seq<string>>, hosts: seq<Host>, isIP: string -> bool)

  /** `ipinfo` */
  datatype Choice = Choice(ip: string, kind: Kind, hostID: string)

  datatype AddressError = BadQuery | Taken | NoSuchPool | NoSuchHost | NoneAvailable | Invalid | EndpointAssigned

  // ---------------------------------------------------------------- the table

  predicate HasServiceEndpoint(t: Table, serviceID: string, endpoint: string) {
    exists a | a in t :: a.serviceID == serviceID && a.endpoint == endpoint
  }

  predicate HasHostPort(t: Table, poolID: string, ip: string, port: Port) {
    exists a | a in t :: a.poolID == poolID && a.ip == ip && a.port == port
  }

  /** No two entries share a service endpoint, and no two share a pool address and port. */
  ghost predicate Unique(t: Table) {
    forall a, b | a in t && b in t && a != b ::
      && !(a.serviceID == b.serviceID && a.endpoint == b.endpoint)
      && !(a.poolID == b.poolID && a.ip == b.ip && a.port == b.port)
  }

  /** `ValidEntity` */
  predicate ValidEntity(w: World, a: Assignment) {
    && a.serviceID != "" && a.endpoint != "" && w.isIP(a.ip) && a.port >= 1
    && (a.kind.Static? ==> a.hostID != "")
    && (a.kind.Virtual? ==> a.poolID != "")
  }

  /** Exactly when the checked insert `assign` succeeds. */
  predicate CanAssign(w: World, t: Table, a: Assignment) {
    && ValidEntity(w, a) && a.poolID != ""
    && !HasServiceEndpoint(t, a.serviceID, a.endpoint)
    && !HasHostPort(t, a.poolID, a.ip, a.port)
  }

  lemma {:induction false} AssignKeepsUnique(w: World, t: Table, a: Assignment)
    requires Unique(t) && CanAssign(w, t, a)
    ensures Unique(t + {a})
  {}

  // ---------------------------------------------------------------- choosing an address

  function HostsWith(hosts: seq<Host>, ip: string): seq<Host> {
    if hosts == [] then []
    else
      var rest := HostsWith(hosts[1..], ip);
      if exists h | h in hosts[0].ips :: h.ip == ip then [hosts[0]] + rest else rest
  }

  function FirstIP(ips: seq<HostIP>, ip: string): Option<HostIP> {
    if ips == [] then None
    else if ips[0].ip == ip then Some(ips[0])
    else FirstIP(ips[1..], ip)
  }

  /** The part of `getManualAssignment` after the table was consulted. */
  function PoolAddress(w: World, poolID: string, ip: string): Result<Choice, AddressError> {
    if poolID !in w.vips then Err(NoSuchPool)
    else if ip in w.vips[poolID] then Ok(Choice(ip, Virtual, ""))
    else
      var hosts := HostsWith(w.hosts, ip);
      if hosts == [] || hosts[0].poolID != poolID then Err(NoSuchHost)
      else
        match FirstIP(hosts[0].ips, ip)
        case None => Err(NoSuchHost)
        case Some(h) => Ok(Choice(h.ip, Static, h.hostID))
  }

  /** `getManualAssignment`: the address must be free at all the ports and belong to the pool. */
  function Manual(w: World, t: Table, poolID: string, ip: string, ports: set<Port>): (r: Result<Choice, AddressError>)
    ensures r.Ok? ==> forall p | p in ports :: !HasHostPort(t, poolID, ip, p)
  {
    if ports != {} && (poolID == "" || ip == "" || 0 in ports) then Err(BadQuery)
    else if exists p | p in ports :: HasHostPort(t, poolID, ip, p) then Err(Taken)
    else PoolAddress(w, poolID, ip)
  }

  /** The pool's virtual and static addresses that no entry of the pool uses at any of the ports. */
  function FreeVirtual(w: World, t: Table, poolID: string, ports: set<Port>): set<Choice>
    requires poolID in w.vips
  {
    set ip | ip in w.vips[poolID] && !InUse(t, poolID, ip, ports) :: Choice(ip, Virtual, "")
  }

  function FreeStatic(w: World, t: Table, poolID: string, ports: set<Port>): set<Choice> {
    set host, h | host in w.hosts && host.poolID == poolID && h in host.ips && !InUse(t, poolID, h.ip, ports)
      :: Choice(h.ip, Static, h.hostID)
  }

  predicate InUse(t: Table, poolID: string, ip: string, ports: set<Port>) {
    exists p | p in ports :: HasHostPort(t, poolID, ip, p)
  }

  /** What `getAutoAssignment` may return; the random pick is left open. */
  ghost predicate AutoMay(w: World, t: Table, poolID: string, ports: set<Port>, r: Result<Choice, AddressError>) {
    if poolID !in w.vips then r == Err(NoSuchPool)
    else if ports != {} && (poolID == "" || 0 in ports) then r == Err(BadQuery)
    else
      var free := FreeVirtual(w, t, poolID, ports) + FreeStatic(w, t, poolID, ports);
      if free == {} then r == Err(NoneAvailable) else r.Ok? && r.value in free
  }

  // ---------------------------------------------------------------- the visit, as a function of the choice

  ghost function Own(t: Table, svc: Service): Table {
    set a | a in t && a.serviceID == svc.id
  }

  function Stale(t: Table, svc: Service, ip: string): Table {
    set a | a in t && a.serviceID == svc.id && a.ip != ip
  }

  function KeptNames(t: Table, svc: Service, ip: string): set<string> {
    set a | a in t && a.serviceID == svc.id && a.ip == ip :: a.endpoint
  }

  function NewAssignment(svc: Service, c: Choice, ep: Endpoint): Assignment {
    Assignment(c.kind, c.hostID, svc.poolID, c.ip, ep.port, svc.id, ep.name)
  }

  predicate Wants(ep: Endpoint, exclude: set<string>) {
    ep.name !in exclude && ep.Configurable()
  }

  /** The assignment loop: stops at the first insert that fails. */
  function AssignFrom(
    w: World, t: Table, svc: Service, c: Choice, exclude: set<string>, eps: seq<Endpoint>): (bool, Table)
    decreases |eps|
  {
    if eps == [] then (true, t)
    else if !Wants(eps[0], exclude) then AssignFrom(w, t, svc, c, exclude, eps[1..])
    else
      var a := NewAssignment(svc, c, eps[0]);
      if CanAssign(w, t, a) then AssignFrom(w, t + {a}, svc, c, exclude, eps[1..]) else (false, t)
  }

  /** Removal of the stale entries, then the assignment loop. */
  function Settle(w: World, t: Table, svc: Service, c: Choice): (bool, Table) {
    AssignFrom(w, t - Stale(t, svc, c.ip), svc, c, KeptNames(t, svc, c.ip), svc.endpoints)
  }

  // ---------------------------------------------------------------- when it cannot fail

  /** The service's entries are in its pool and belong to its configurable endpoints. */
  ghost predicate Consistent(t: Table, svc: Service) {
    forall a | a in t && a.serviceID == svc.id ::
      a.poolID == svc.poolID &&
      exists ep | ep in svc.endpoints :: ep.Configurable() && ep.name == a.endpoint && ep.port == a.port
  }

  /** A choice that makes valid entries for the service. */
  predicate Usable(w: World, svc: Service, c: Choice) {
    && svc.id != "" && svc.poolID != "" && w.isIP(c.ip) && (c.kind.Static? ==> c.hostID != "")
    && forall ep | ep in svc.endpoints :: ep.name != ""
  }

  /** Nothing occupies the chosen address at the ports of the endpoints not yet assigned there. */
  predicate Clears(t: Table, svc: Service, c: Choice) {
    forall ep | ep in svc.endpoints && Wants(ep, KeptNames(t, svc, c.ip)) ::
      !HasHostPort(t, svc.poolID, c.ip, ep.port)
  }

  /** The endpoints that are still to be assigned differ pairwise in name and in port. */
  predicate WantedApart(exclude: set<string>, eps: seq<Endpoint>) {
    forall i, j | 0 <= i < j < |eps| && Wants(eps[i], exclude) && Wants(eps[j], exclude) ::
      eps[i].name != eps[j].name && eps[i].port != eps[j].port
  }

  ghost function News(svc: Service, c: Choice, exclude: set<string>, eps: seq<Endpoint>): Table {
    set ep | ep in eps && Wants(ep, exclude) :: NewAssignment(svc, c, ep)
  }

  predicate AllCan(w: World, t: Table, svc: Service, c: Choice, exclude: set<string>, eps: seq<Endpoint>) {
    forall i | 0 <= i < |eps| && Wants(eps[i], exclude) :: CanAssign(w, t, NewAssignment(svc, c, eps[i]))
  }

  /**
   The loop succeeds exactly when every insert could be made on its own and no two of them get
   into each other's way, and then it makes them all.
   */
  lemma {:induction false} AssignFromSpec(
    w: World, t: Table, svc: Service, c: Choice, exclude: set<string>, eps: seq<Endpoint>)
    ensures AssignFrom(w, t, svc, c, exclude, eps).0 <==>
            AllCan(w, t, svc, c, exclude, eps) && WantedApart(exclude, eps)
    ensures AssignFrom(w, t, svc, c, exclude, eps).0 ==>
              AssignFrom(w, t, svc, c, exclude, eps).1 == t + News(svc, c, exclude, eps)
    decreases |eps|
  {
    if eps != [] {
      if !Wants(eps[0], exclude) {
        AssignFromSpec(w, t, svc, c, exclude, eps[1..]);
        assert forall j | 1 <= j < |eps| :: eps[j] == eps[1..][j - 1];
      } else {
        var a := NewAssignment(svc, c, eps[0]);
        if CanAssign(w, t, a) {
          AssignFromSpec(w, t + {a}, svc, c, exclude, eps[1..]);
        }
      }
    }
  }

  /** Whatever the loop does, even when it stops half-way, it keeps the table unique and only adds to it. */
  lemma {:induction false} AssignFromKeepsUnique(
    w: World, t: Table, svc: Service, c: Choice, exclude: set<string>, eps: seq<Endpoint>)
    requires Unique(t)
    ensures var t' := AssignFrom(w, t, svc, c, exclude, eps).1;
            Unique(t') && t <= t' && forall a | a in t' - t :: a.serviceID == svc.id && a.ip == c.ip
    decreases |eps|
  {
    if eps != [] {
      if !Wants(eps[0], exclude) {
        AssignFromKeepsUnique(w, t, svc, c, exclude, eps[1..]);
      } else {
        var a := NewAssignment(svc, c, eps[0]);
        if CanAssign(w, t, a) {
          AssignKeepsUnique(w, t, a);
          AssignFromKeepsUnique(w, t + {a}, svc, c, exclude, eps[1..]);
        }
      }
    }
  }

  /**
   After an address was chosen and the stale entries removed, no insert fails if and only if
   the choice clears the ports that are still to be assigned and the endpoints still to be
   assigned share neither a name nor a port.
   */
  lemma {:induction false} SettleSucceedsIff(w: World, t: Table, svc: Service, c: Choice)
    requires Usable(w, svc, c)
    ensures Settle(w, t, svc, c).0 <==> Clears(t, svc, c) && WantedApart(KeptNames(t, svc, c.ip), svc.endpoints)
  {
    var base, exclude := t - Stale(t, svc, c.ip), KeptNames(t, svc, c.ip);
    AssignFromSpec(w, base, svc, c, exclude, svc.endpoints);
    forall ep | ep in svc.endpoints && Wants(ep, exclude)
      ensures CanAssign(w, base, NewAssignment(svc, c, ep)) <==> !HasHostPort(t, svc.poolID, c.ip, ep.port)
    {
      assert !HasServiceEndpoint(base, svc.id, ep.name);
      assert HasHostPort(base, svc.poolID, c.ip, ep.port) <==> HasHostPort(t, svc.poolID, c.ip, ep.port);
    }
  }

  /** All the service's entries are on one address, and none of its configurable endpoints is without one. */
  ghost predicate SettledOn(t: Table, svc: Service, ip: string) {
    && Unique(t) && Consistent(t, svc)
    && (forall a | a in t && a.serviceID == svc.id :: a.ip == ip)
    && (forall ep | ep in svc.endpoints && ep.Configurable() :: HasServiceEndpoint(t, svc.id, ep.name))
  }

  /** A visit that does not fail settles the service on the chosen address and leaves other services alone. */
  lemma {:induction false} SettleSettles(w: World, t: Table, svc: Service, c: Choice)
    requires Unique(t) && Consistent(t, svc) && Settle(w, t, svc, c).0
    ensures var t' := Settle(w, t, svc, c).1; SettledOn(t', svc, c.ip) && t' - Own(t', svc) == t - Own(t, svc)
  {
    var base, exclude := t - Stale(t, svc, c.ip), KeptNames(t, svc, c.ip);
    AssignFromSpec(w, base, svc, c, exclude, svc.endpoints);
    AssignFromKeepsUnique(w, base, svc, c, exclude, svc.endpoints);
    var t' := Settle(w, t, svc, c).1;
    forall ep | ep in svc.endpoints && ep.Configurable() ensures HasServiceEndpoint(t', svc.id, ep.name) {
      if ep.name in exclude {
        var a :| a in t && a.serviceID == svc.id && a.ip == c.ip && a.endpoint == ep.name;
        assert a in t';
      } else {
        assert NewAssignment(svc, c, ep) in News(svc, c, exclude, svc.endpoints);
      }
    }
  }

  // ---------------------------------------------------------------- endpoints that share a name or a port

  /** The configurable endpoints differ pairwise in name and in port; nothing in the code demands it. */
  ghost predicate Distinct(eps: seq<Endpoint>) {
    WantedApart({}, eps)
  }

  /** Configurable endpoints with one name have one port. */
  predicate OnePortPerName(eps: seq<Endpoint>) {
    forall x, y | x in eps && y in eps && x.Configurable() && y.Configurable() && x.name == y.name :: x.port == y.port
  }

  /** Every configurable endpoint has an entry at its own port. */
  ghost predicate Covered(t: Table, svc: Service) {
    forall ep | ep in svc.endpoints && ep.Configurable() :: exists a | a in t :: HoldsEndpoint(a, svc, ep)
  }

  predicate HoldsEndpoint(a: Assignment, svc: Service, ep: Endpoint) {
    a.serviceID == svc.id && a.endpoint == ep.name && a.port == ep.port
  }

  /**
   A settled service has an entry for every configurable endpoint at that endpoint's port if and
   only if no name is used for two ports: the visit takes one entry to serve all endpoints of a name.
   */
  lemma {:induction false} CoveredIff(t: Table, svc: Service, ip: string)
    requires SettledOn(t, svc, ip)
    ensures Covered(t, svc) <==> OnePortPerName(svc.endpoints)
  {
    if Covered(t, svc) {
      forall x, y | x in svc.endpoints && y in svc.endpoints && x.Configurable() && y.Configurable() && x.name == y.name
        ensures x.port == y.port
      {
        var a :| a in t && HoldsEndpoint(a, svc, x);
        var b :| b in t && HoldsEndpoint(b, svc, y);
      }
    }
    if OnePortPerName(svc.endpoints) {
      forall ep | ep in svc.endpoints && ep.Configurable() ensures exists a | a in t :: HoldsEndpoint(a, svc, ep) {
        var a :| a in t && a.serviceID == svc.id && a.endpoint == ep.name;
        var other :| other in svc.endpoints && other.Configurable() && other.name == a.endpoint && other.port == a.port;
        assert HoldsEndpoint(a, svc, ep);
      }
    }
  }

  // ---------------------------------------------------------------- what the selection guarantees

  /** Addresses on offer are well formed, and static ones name their host. */
  ghost predicate GoodWorld(w: World) {
    && !w.isIP("")
    && (forall pool | pool in w.vips :: forall ip | ip in w.vips[pool] :: w.isIP(ip))
    && (forall host | host in w.hosts :: forall h | h in host.ips :: w.isIP(h.ip) && h.hostID != "")
  }

  /** What the validation of a service demands of it. */
  ghost predicate GoodService(svc: Service) {
    svc.id != "" && svc.poolID != "" && forall ep | ep in svc.endpoints :: ep.name != ""
  }

  predicate InPool(w: World, poolID: string, c: Choice) {
    || (c.kind.Virtual? && poolID in w.vips && c.ip in w.vips[poolID])
    || (c.kind.Static? && exists host | host in w.hosts :: host.poolID == poolID && HostIP(c.hostID, c.ip) in host.ips)
  }

  function ConfigurablePorts(eps: seq<Endpoint>): set<Port> {
    set ep | ep in eps && ep.Configurable() :: ep.port
  }

  lemma {:induction false} HostsWithSound(hosts: seq<Host>, ip: string)
    ensures forall host | host in HostsWith(hosts, ip) :: host in hosts
  {
    if hosts != [] {
      HostsWithSound(hosts[1..], ip);
    }
  }

  lemma {:induction false} FirstIPSound(ips: seq<HostIP>, ip: string)
    ensures FirstIP(ips, ip).Some? ==> FirstIP(ips, ip).value in ips && FirstIP(ips, ip).value.ip == ip
  {
    if ips != [] && ips[0].ip != ip {
      FirstIPSound(ips[1..], ip);
    }
  }

  lemma {:induction false} PoolAddressSound(w: World, poolID: string, ip: string)
    requires PoolAddress(w, poolID, ip).Ok?
    ensures var c := PoolAddress(w, poolID, ip).value; c.ip == ip && InPool(w, poolID, c)
  {
    var hosts := HostsWith(w.hosts, ip);
    if ip !in w.vips[poolID] {
      HostsWithSound(w.hosts, ip);
      FirstIPSound(hosts[0].ips, ip);
      assert hosts[0] in hosts;
    }
  }

  predicate HasIP(host: Host, ip: string) {
    exists h | h in host.ips :: h.ip == ip
  }

  lemma {:induction false} HostsWithFirst(hosts: seq<Host>, ip: string)
    ensures HostsWith(hosts, ip) == [] <==> forall i | 0 <= i < |hosts| :: !HasIP(hosts[i], ip)
    ensures forall i | 0 <= i < |hosts| && HasIP(hosts[i], ip) && (forall j | 0 <= j < i :: !HasIP(hosts[j], ip)) ::
              HostsWith(hosts, ip) != [] && HostsWith(hosts, ip)[0] == hosts[i]
    ensures HostsWith(hosts, ip) != [] ==> HasIP(HostsWith(hosts, ip)[0], ip)
  {
    if hosts != [] {
      HostsWithFirst(hosts[1..], ip);
      assert forall i | 1 <= i < |hosts| :: hosts[i] == hosts[1..][i - 1];
    }
  }

  lemma {:induction false} FirstIPFound(ips: seq<HostIP>, ip: string)
    ensures FirstIP(ips, ip).Some? <==> exists h | h in ips :: h.ip == ip
  {
    if ips != [] {
      FirstIPFound(ips[1..], ip);
      assert ips == [ips[0]] + ips[1..];
    }
  }

  /** The first host that has the address. */
  predicate FirstHost(hosts: seq<Host>, ip: string, i: nat)
    requires i < |hosts|
  {
    HasIP(hosts[i], ip) && forall j | 0 <= j < i :: !HasIP(hosts[j], ip)
  }

  /** An address is found if and only if the pool has it as a virtual one, or the first host that has it is in it. */
  lemma {:induction false} PoolAddressIff(w: World, poolID: string, ip: string)
    ensures PoolAddress(w, poolID, ip).Ok? <==>
            && poolID in w.vips
            && (ip in w.vips[poolID] ||
                exists i | 0 <= i < |w.hosts| :: FirstHost(w.hosts, ip, i) && w.hosts[i].poolID == poolID)
  {
    HostsWithFirst(w.hosts, ip);
    var hosts := HostsWith(w.hosts, ip);
    if hosts != [] {
      FirstIPFound(hosts[0].ips, ip);
      var i := FirstHostExists(w.hosts, ip);
      forall k | 0 <= k < |w.hosts| && FirstHost(w.hosts, ip, k) ensures w.hosts[k] == hosts[0] {}
    }
  }

  lemma {:induction false} FirstHostExists(hosts: seq<Host>, ip: string) returns (i: nat)
    requires exists k | 0 <= k < |hosts| :: HasIP(hosts[k], ip)
    ensures i < |hosts| && FirstHost(hosts, ip, i)
    decreases |hosts|
  {
    if HasIP(hosts[0], ip) {
      i := 0;
    } else {
      var k :| 0 <= k < |hosts| && HasIP(hosts[k], ip);
      assert HasIP(hosts[1..][k - 1], ip);
      var j := FirstHostExists(hosts[1..], ip);
      i := j + 1;
      assert forall m | 1 <= m < |hosts| :: hosts[m] == hosts[1..][m - 1];
    }
  }

  /** No endpoint still to be assigned shares its port with an entry that the service keeps on the address. */
  ghost predicate ApartFromKept(t: Table, svc: Service, ip: string) {
    forall ep, a | ep in svc.endpoints && Wants(ep, KeptNames(t, svc, ip)) && a in Own(t, svc) && a.ip == ip ::
      a.port != ep.port
  }

  /** The scan of the current assignments: the common address if there is one, and the ports not seen. */
  function ScanCurrent(assignments: seq<Assignment>, ip: string, ports: set<Port>): (string, set<Port>)
    decreases |assignments|
  {
    if assignments == [] then (ip, ports)
    else
      var a := assignments[0];
      if ip != "" && ip != a.ip then ("", ports)
      else ScanCurrent(assignments[1..], a.ip, ports - {a.port})
  }

  lemma {:induction false} ScanCurrentSpec(assignments: seq<Assignment>, ip: string, ports: set<Port>)
    requires forall a | a in assignments :: a.ip != ""
    ensures var (common, left) := ScanCurrent(assignments, ip, ports);
            && (common != "" ==> (ip == "" || common == ip) && (forall a | a in assignments :: a.ip == common)
                                 && left == ports - (set a | a in assignments :: a.port))
            && ((forall a | a in assignments :: a.ip == ip) ==> common == ip)
    decreases |assignments|
  {
    if assignments != [] {
      var a := assignments[0];
      assert assignments == [a] + assignments[1..];
      if ip == "" || ip == a.ip {
        ScanCurrentSpec(assignments[1..], a.ip, ports - {a.port});
      }
    }
  }

  /** What the selection step of the visit may return for an automatic request. */
  ghost predicate AutoSelects(
    w: World, t: Table, svc: Service, assignments: seq<Assignment>, portmap: set<Port>, r: Result<Choice, AddressError>)
  {
    var (ip, left) := ScanCurrent(assignments, "", portmap);
    if ip != "" && Manual(w, t, svc.poolID, ip, left).Ok? && Manual(w, t, svc.poolID, ip, left).value.ip != ""
    then r == Manual(w, t, svc.poolID, ip, left)
    else AutoMay(w, t, svc.poolID, portmap, r)
  }

  function HeldPorts(assignments: seq<Assignment>, ip: string): set<Port> {
    set a | a in assignments && a.ip == ip :: a.port
  }

  /** What the selection step of the visit may return, for either kind of request. */
  ghost predicate Selects(w: World, t: Table, svc: Service, assignments: seq<Assignment>, portmap: set<Port>,
                          auto: bool, requestIP: string, r: Result<Choice, AddressError>) {
    if auto then AutoSelects(w, t, svc, assignments, portmap, r)
    else r == Manual(w, t, svc.poolID, requestIP, portmap - HeldPorts(assignments, requestIP))
  }

  /** `assignments` lists the service's entries, in any order. */
  ghost predicate Lists(assignments: seq<Assignment>, t: Table, svc: Service) {
    forall a :: a in assignments <==> a in t && a.serviceID == svc.id
  }

  /** What a visit leaves of the port map: the ports of the entries it looks at are struck off. */
  function Left(assignments: seq<Assignment>, portmap: set<Port>, auto: bool, requestIP: string): set<Port> {
    if auto then ScanCurrent(assignments, "", portmap).1 else portmap - HeldPorts(assignments, requestIP)
  }

  /** The selection step may return the address, or the error, and leave that much of the port map. */
  ghost predicate MaySelect(
    w: World, t: Table, svc: Service, portmap: set<Port>, auto: bool, requestIP: string,
    r: Result<Choice, AddressError>, left: set<Port>) {
    exists assignments | Lists(assignments, t, svc) ::
      && Selects(w, t, svc, assignments, portmap, auto, requestIP, r)
      && left == Left(assignments, portmap, auto, requestIP)
  }

  ghost predicate AddressesGiven(t: Table) {
    forall a | a in t :: a.ip != ""
  }

  /** A manual address is free at the requested ports, is the requested one and belongs to the pool. */
  lemma {:induction false} ManualSound(w: World, t: Table, poolID: string, ip: string, ports: set<Port>)
    requires Manual(w, t, poolID, ip, ports).Ok?
    ensures var c := Manual(w, t, poolID, ip, ports).value;
            c.ip == ip && InPool(w, poolID, c) && forall p | p in ports :: !HasHostPort(t, poolID, ip, p)
  {
    PoolAddressSound(w, poolID, ip);
  }

  lemma {:induction false} ManualClears(w: World, t: Table, svc: Service, assignments: seq<Assignment>, ip: string)
    requires Consistent(t, svc) && Lists(assignments, t, svc)
    requires Manual(w, t, svc.poolID, ip, ConfigurablePorts(svc.endpoints) - HeldPorts(assignments, ip)).Ok?
    ensures var c := PoolAddress(w, svc.poolID, ip).value;
            && PoolAddress(w, svc.poolID, ip).Ok? && c.ip == ip && InPool(w, svc.poolID, c)
            && (Clears(t, svc, c) <==> ApartFromKept(t, svc, ip))
  {
    var ports := ConfigurablePorts(svc.endpoints) - HeldPorts(assignments, ip);
    ManualSound(w, t, svc.poolID, ip, ports);
    var c := PoolAddress(w, svc.poolID, ip).value;
    forall p | p in ConfigurablePorts(svc.endpoints) && p !in ports
      ensures exists a | a in Own(t, svc) :: a.ip == c.ip && a.port == p
    {
      var a :| a in assignments && a.ip == ip && a.port == p;
      assert a in Own(t, svc);
    }
  }

  /** Whatever address the selection returns, it clears the missing ports unless the service itself is in the way. */
  lemma {:induction false} SelectionClears(
    w: World, t: Table, svc: Service, assignments: seq<Assignment>, auto: bool, requestIP: string, c: Choice)
    requires Consistent(t, svc) && AddressesGiven(t) && Lists(assignments, t, svc)
    requires Selects(w, t, svc, assignments, ConfigurablePorts(svc.endpoints), auto, requestIP, Ok(c))
    ensures InPool(w, svc.poolID, c) && (Clears(t, svc, c) <==> ApartFromKept(t, svc, c.ip))
  {
    var ports := ConfigurablePorts(svc.endpoints);
    if !auto {
      ManualClears(w, t, svc, assignments, requestIP);
    } else {
      var (ip, left) := ScanCurrent(assignments, "", ports);
      if ip != "" && Manual(w, t, svc.poolID, ip, left).Ok? && Manual(w, t, svc.poolID, ip, left).value.ip != "" {
        ScanCurrentSpec(assignments, "", ports);
        assert left == ports - HeldPorts(assignments, ip);
        ManualClears(w, t, svc, assignments, ip);
      }
    }
  }

  // ---------------------------------------------------------------- when the selection finds an address

  /** The address can be asked for at these ports, is free at them and is found in the pool. */
  ghost predicate Obtainable(w: World, t: Table, poolID: string, ip: string, ports: set<Port>) {
    && (ports != {} ==> poolID != "" && ip != "" && 0 !in ports)
    && (forall p | p in ports :: !HasHostPort(t, poolID, ip, p))
    && PoolAddress(w, poolID, ip).Ok?
  }

  /** The pool has an address that is unused at all the ports. */
  ghost predicate SomeFree(w: World, t: Table, poolID: string, ports: set<Port>) {
    && poolID in w.vips && (ports != {} ==> poolID != "" && 0 !in ports)
    && exists c :: InPool(w, poolID, c) && !InUse(t, poolID, c.ip, ports)
  }

  ghost function OwnPorts(t: Table, svc: Service): set<Port> {
    set a | a in t && a.serviceID == svc.id :: a.port
  }

  /** All the service's entries are on one address, which can be had at the ports not held there. */
  ghost predicate CurrentObtainable(w: World, t: Table, svc: Service, portmap: set<Port>) {
    exists a | a in Own(t, svc) ::
      (forall b | b in Own(t, svc) :: b.ip == a.ip) && Obtainable(w, t, svc.poolID, a.ip, portmap - OwnPorts(t, svc))
  }

  /** The ports of the map that the service does not hold on the address. */
  ghost function Unmet(t: Table, svc: Service, portmap: set<Port>, ip: string): set<Port> {
    portmap - (set a | a in t && a.serviceID == svc.id && a.ip == ip :: a.port)
  }

  lemma {:induction false} AutoMayIff(
    w: World, t: Table, poolID: string, ports: set<Port>, r: Result<Choice, AddressError>)
    requires AutoMay(w, t, poolID, ports, r)
    ensures r.Ok? <==> SomeFree(w, t, poolID, ports)
  {
    if poolID in w.vips {
      var free := FreeVirtual(w, t, poolID, ports) + FreeStatic(w, t, poolID, ports);
      forall c | InPool(w, poolID, c) && !InUse(t, poolID, c.ip, ports) ensures free != {} {
        if c.kind.Virtual? {
          assert Choice(c.ip, Virtual, "") in free;
        } else {
          assert c in free;
        }
      }
      if r.Ok? {
        assert InPool(w, poolID, r.value) && !InUse(t, poolID, r.value.ip, ports);
      }
    }
  }

  lemma {:induction false} CommonAddress(t: Table, svc: Service, assignments: seq<Assignment>, ports: set<Port>)
    requires Lists(assignments, t, svc) && AddressesGiven(t)
    ensures var (ip, left) := ScanCurrent(assignments, "", ports);
            && (ip != "" ==> Own(t, svc) != {} && left == ports - OwnPorts(t, svc))
            && (ip != "" ==> forall b | b in Own(t, svc) :: b.ip == ip)
            && forall a | a in Own(t, svc) && (forall b | b in Own(t, svc) :: b.ip == a.ip) :: ip == a.ip
  {
    ScanCurrentSpec(assignments, "", ports);
    var (ip, left) := ScanCurrent(assignments, "", ports);
    assert (set a | a in assignments :: a.port) == OwnPorts(t, svc);
    if assignments != [] {
      assert assignments[0] in assignments && assignments[0] in Own(t, svc);
      ScanCurrentSpec(assignments[1..], assignments[0].ip, ports - {assignments[0].port});
      forall a | a in Own(t, svc) && (forall b | b in Own(t, svc) :: b.ip == a.ip) ensures ip == a.ip {
        forall b | b in assignments ensures b.ip == a.ip { assert b in Own(t, svc); }
      }
    } else {
      forall a ensures a !in Own(t, svc) { assert a in Own(t, svc) ==> a in assignments; }
    }
    forall b | b in Own(t, svc) ensures b in assignments {}
  }

  /**
   A manual request finds its address if and only if that can be had at the ports the service does
   not hold there; an automatic one finds an address if and only if the current one can be had at
   the ports without an entry, or some address of the pool is unused at all the ports.
   */
  lemma {:induction false} SelectionFindsIff(
    w: World, t: Table, svc: Service, portmap: set<Port>, auto: bool, requestIP: string,
    r: Result<Choice, AddressError>, left: set<Port>)
    requires AddressesGiven(t) && MaySelect(w, t, svc, portmap, auto, requestIP, r, left)
    ensures r.Ok? <==>
            if auto then CurrentObtainable(w, t, svc, portmap) || SomeFree(w, t, svc.poolID, portmap)
            else Obtainable(w, t, svc.poolID, requestIP, Unmet(t, svc, portmap, requestIP))
  {
    var assignments :| Lists(assignments, t, svc) && Selects(w, t, svc, assignments, portmap, auto, requestIP, r);
    if auto {
      CommonAddress(t, svc, assignments, portmap);
      var (ip, struck) := ScanCurrent(assignments, "", portmap);
      if ip != "" && Manual(w, t, svc.poolID, ip, struck).Ok? {
        ManualSound(w, t, svc.poolID, ip, struck);
        var a :| a in Own(t, svc);
        assert Obtainable(w, t, svc.poolID, a.ip, portmap - OwnPorts(t, svc));
      } else {
        AutoMayIff(w, t, svc.poolID, portmap, r);
      }
    } else {
      assert Unmet(t, svc, portmap, requestIP) == portmap - HeldPorts(assignments, requestIP);
    }
  }

  /** Whatever the port map, the selection returns an address of the pool. */
  lemma {:induction false} SelectionInPool(
    w: World, t: Table, svc: Service, assignments: seq<Assignment>, portmap: set<Port>, auto: bool, requestIP: string,
    c: Choice)
    requires Selects(w, t, svc, assignments, portmap, auto, requestIP, Ok(c))
    ensures InPool(w, svc.poolID, c)
  {
    if !auto {
      ManualSound(w, t, svc.poolID, requestIP, portmap - HeldPorts(assignments, requestIP));
    } else {
      var (ip, left) := ScanCurrent(assignments, "", portmap);
      if Manual(w, t, svc.poolID, ip, left).Ok? {
        ManualSound(w, t, svc.poolID, ip, left);
      }
    }
  }

  /**
   The exact condition for a visit with any port map: the ports still to be assigned are free at
   the address returned, and the endpoints still to be assigned share neither a name nor a port.
   */
  lemma {:induction false} AnyPortMapIff(
    w: World, t: Table, svc: Service, assignments: seq<Assignment>, portmap: set<Port>, auto: bool, requestIP: string,
    c: Choice)
    requires GoodWorld(w) && GoodService(svc) && Selects(w, t, svc, assignments, portmap, auto, requestIP, Ok(c))
    ensures Settle(w, t, svc, c).0 <==> Clears(t, svc, c) && WantedApart(KeptNames(t, svc, c.ip), svc.endpoints)
  {
    SelectionInPool(w, t, svc, assignments, portmap, auto, requestIP, c);
    SettleSucceedsIff(w, t, svc, c);
  }

  /** The endpoints still to be assigned at the address are in nobody's way, as far as the service itself goes. */
  ghost predicate Apart(t: Table, svc: Service, ip: string) {
    WantedApart(KeptNames(t, svc, ip), svc.endpoints) && ApartFromKept(t, svc, ip)
  }

  /**
   Once the selection step has returned an address for the service's own ports, the rest of the
   visit fails if and only if endpoints of the service itself collide; otherwise it settles the
   service on that address and leaves other services alone.
   */
  lemma {:induction false} VisitSucceedsIff(
    w: World, t: Table, svc: Service, assignments: seq<Assignment>, auto: bool, requestIP: string, c: Choice)
    requires GoodWorld(w) && GoodService(svc)
    requires Unique(t) && Consistent(t, svc) && AddressesGiven(t) && Lists(assignments, t, svc)
    requires Selects(w, t, svc, assignments, ConfigurablePorts(svc.endpoints), auto, requestIP, Ok(c))
    ensures InPool(w, svc.poolID, c)
    ensures Settle(w, t, svc, c).0 <==> Apart(t, svc, c.ip)
    ensures var (ok, t') := Settle(w, t, svc, c);
            ok ==> SettledOn(t', svc, c.ip) && t' - Own(t', svc) == t - Own(t, svc)
  {
    SelectionClears(w, t, svc, assignments, auto, requestIP, c);
    SettleSucceedsIff(w, t, svc, c);
    if Settle(w, t, svc, c).0 {
      SettleSettles(w, t, svc, c);
    }
  }

  /** Distinct endpoints never collide. */
  lemma {:induction false} DistinctApart(t: Table, svc: Service, ip: string)
    requires Distinct(svc.endpoints) && Consistent(t, svc)
    ensures Apart(t, svc, ip)
  {
    var eps, exclude := svc.endpoints, KeptNames(t, svc, ip);
    forall i, j | 0 <= i < j < |eps| && Wants(eps[i], exclude) && Wants(eps[j], exclude)
      ensures eps[i].name != eps[j].name && eps[i].port != eps[j].port
    {
      assert Wants(eps[i], {}) && Wants(eps[j], {});
    }
    forall ep, a | ep in eps && Wants(ep, exclude) && a in Own(t, svc) && a.ip == ip ensures a.port != ep.port {
      var other :| other in eps && other.Configurable() && other.name == a.endpoint && other.port == a.port;
      var i :| 0 <= i < |eps| && eps[i] == ep;
      var j :| 0 <= j < |eps| && eps[j] == other;
      assert other.name in exclude;
      assert Wants(eps[i], {}) && Wants(eps[j], {});
    }
  }

  /** On an address where the service has nothing yet, its endpoints are apart exactly when they are distinct. */
  lemma {:induction false} ApartWhenNewIff(t: Table, svc: Service, ip: string)
    requires forall a | a in Own(t, svc) :: a.ip != ip
    ensures Apart(t, svc, ip) <==> Distinct(svc.endpoints)
  {
    assert KeptNames(t, svc, ip) == {} by {
      forall a | a in t && a.serviceID == svc.id ensures a.ip != ip { assert a in Own(t, svc); }
    }
  }

  /**
   For a service with distinct endpoints the selection step decides everything: once it has
   returned an address, no insert fails and every configurable endpoint gets its entry there.
   */
  lemma {:induction false} VisitSettles(
    w: World, t: Table, svc: Service, assignments: seq<Assignment>, auto: bool, requestIP: string, c: Choice)
    requires GoodWorld(w) && GoodService(svc) && Distinct(svc.endpoints)
    requires Unique(t) && Consistent(t, svc) && AddressesGiven(t) && Lists(assignments, t, svc)
    requires Selects(w, t, svc, assignments, ConfigurablePorts(svc.endpoints), auto, requestIP, Ok(c))
    ensures var (ok, t') := Settle(w, t, svc, c);
            ok && SettledOn(t', svc, c.ip) && Covered(t', svc) && t' - Own(t', svc) == t - Own(t, svc)
  {
    DistinctApart(t, svc, c.ip);
    VisitSucceedsIff(w, t, svc, assignments, auto, requestIP, c);
    CoveredIff(Settle(w, t, svc, c).1, svc, c.ip);
  }

  /**
   Two endpoints of one name at different ports are a valid service. The selection finds a free
   address for both ports; the first insert is made, and the second one fails.
   */
  lemma {:induction false} SharedNameFailsVisit()
    ensures exists w, svc, c, t ::
              && GoodWorld(w) && GoodService(svc)
              && Selects(w, {}, svc, [], ConfigurablePorts(svc.endpoints), true, "", Ok(c))
              && Settle(w, {}, svc, c) == (false, t) && t != {}
  {
    var w := World(map["pool" := ["ip1"]], [], s => s != "");
    var first, second := Endpoint("http", 80, "tcp", ""), Endpoint("http", 81, "tcp", "");
    var svc := Service("web", "pool", [first, second]);
    var c := Choice("ip1", Virtual, "");
    assert GoodService(svc);
    assert c in FreeVirtual(w, {}, "pool", ConfigurablePorts(svc.endpoints));
    SharedNameStops(w, svc, first, second, c);
    assert Selects(w, {}, svc, [], ConfigurablePorts(svc.endpoints), true, "", Ok(c));
    assert Settle(w, {}, svc, c) == (false, {NewAssignment(svc, c, first)});
  }

  lemma {:induction false} SharedNameStops(w: World, svc: Service, first: Endpoint, second: Endpoint, c: Choice)
    requires svc.endpoints == [first, second] && first.Configurable() && second.Configurable() &&
             first.name == second.name
    requires Usable(w, svc, c)
    ensures Settle(w, {}, svc, c) == (false, {NewAssignment(svc, c, first)})
  {
    var a := NewAssignment(svc, c, first);
    assert first in svc.endpoints;
    assert Stale({}, svc, c.ip) == {} && KeptNames({}, svc, c.ip) == {};
    var none: Table := {};
    assert none - {} == none && none + {a} == {a} && [first, second][1..] == [second];
    assert CanAssign(w, none, a);
    assert AssignFrom(w, none, svc, c, {}, [first, second]) == AssignFrom(w, {a}, svc, c, {}, [second]);
    assert a in {a} && HasServiceEndpoint({a}, svc.id, second.name);
    assert AssignFrom(w, {a}, svc, c, {}, [second]) == (false, {a});
  }

  // ---------------------------------------------------------------- repeating an assignment

  /** On a settled service all configurable endpoints are excluded from assignment. */
  lemma {:induction false} NothingWanted(
    w: World, t: Table, svc: Service, c: Choice, exclude: set<string>, eps: seq<Endpoint>)
    requires forall ep | ep in eps :: !Wants(ep, exclude)
    ensures AssignFrom(w, t, svc, c, exclude, eps) == (true, t)
    decreases |eps|
  {
    if eps != [] {
      assert eps[0] in eps;
      NothingWanted(w, t, svc, c, exclude, eps[1..]);
    }
  }

  lemma {:induction false} SettledStays(w: World, t: Table, svc: Service, ip: string, c: Choice)
    requires SettledOn(t, svc, ip) && (c.ip == ip || forall ep | ep in svc.endpoints :: !ep.Configurable())
    ensures Settle(w, t, svc, c) == (true, t)
  {
    assert Stale(t, svc, c.ip) == {} && t - {} == t;
    var exclude := KeptNames(t, svc, c.ip);
    forall ep | ep in svc.endpoints ensures !Wants(ep, exclude) {
      if ep.Configurable() {
        var a :| a in t && a.serviceID == svc.id && a.endpoint == ep.name;
        assert a.endpoint in exclude;
      }
    }
    NothingWanted(w, t, svc, c, exclude, svc.endpoints);
  }

  /** A settled service that is sent to another address loses the entries it had. */
  lemma {:induction false} SettledMoves(w: World, t: Table, svc: Service, ip: string, c: Choice)
    requires SettledOn(t, svc, ip) && c.ip != ip && exists ep | ep in svc.endpoints :: ep.Configurable()
    ensures Settle(w, t, svc, c).1 != t
  {
    var ep :| ep in svc.endpoints && ep.Configurable();
    var a :| a in t && a.serviceID == svc.id && a.endpoint == ep.name;
    var base := t - Stale(t, svc, c.ip);
    AssignFromKeepsUnique(w, base, svc, c, KeptNames(t, svc, c.ip), svc.endpoints);
    assert a !in base && a !in Settle(w, t, svc, c).1 - base;
  }

  /** The configurable ports at which the service has no entry. */
  ghost function Unheld(t: Table, svc: Service): set<Port> {
    ConfigurablePorts(svc.endpoints) - (set a | a in t && a.serviceID == svc.id :: a.port)
  }

  /** The ports without an entry are free at the address. */
  ghost predicate UnheldFree(t: Table, svc: Service, ip: string) {
    forall p | p in Unheld(t, svc) :: !HasHostPort(t, svc.poolID, ip, p)
  }

  /** The scan of a settled service's entries finds its address and strikes all held ports off. */
  lemma {:induction false} ScanSettled(t: Table, svc: Service, ip: string, assignments: seq<Assignment>)
    requires SettledOn(t, svc, ip) && AddressesGiven(t) && Lists(assignments, t, svc)
    requires exists ep | ep in svc.endpoints :: ep.Configurable()
    ensures ip != "" && ScanCurrent(assignments, "", ConfigurablePorts(svc.endpoints)) == (ip, Unheld(t, svc))
  {
    var ports := ConfigurablePorts(svc.endpoints);
    var ep :| ep in svc.endpoints && ep.Configurable();
    var a :| a in t && a.serviceID == svc.id && a.endpoint == ep.name;
    assert a in assignments;
    assert assignments != [];
    assert assignments[0] in assignments;
    ScanCurrentSpec(assignments, "", ports);
    ScanCurrentSpec(assignments[1..], ip, ports - {assignments[0].port});
    assert ScanCurrent(assignments, "", ports).0 == ip;
    assert (set x | x in assignments :: x.port) == (set x | x in t && x.serviceID == svc.id :: x.port);
  }

  /**
   Repeating an automatic assignment whose address is still in the pool changes nothing if and
   only if the ports at which the service has no entry are free at that address.
   */
  lemma {:induction false} ReassignIsIdempotentIff(
    w: World, t: Table, svc: Service, ip: string, assignments: seq<Assignment>, c: Choice)
    requires GoodService(svc) && SettledOn(t, svc, ip) && AddressesGiven(t) && Lists(assignments, t, svc)
    requires PoolAddress(w, svc.poolID, ip).Ok?
    requires AutoSelects(w, t, svc, assignments, ConfigurablePorts(svc.endpoints), Ok(c))
    ensures Settle(w, t, svc, c) == (true, t) <==> UnheldFree(t, svc, ip)
  {
    if exists ep | ep in svc.endpoints :: ep.Configurable() {
      ReselectsSame(w, t, svc, ip, assignments, c);
      if c.ip == ip {
        SettledStays(w, t, svc, ip, c);
      } else {
        SettledMoves(w, t, svc, ip, c);
      }
    } else {
      SettledStays(w, t, svc, ip, c);
    }
  }

  /** The selection returns the current address exactly when the missing ports are free there. */
  lemma {:induction false} ReselectsSame(
    w: World, t: Table, svc: Service, ip: string, assignments: seq<Assignment>, c: Choice)
    requires GoodService(svc) && SettledOn(t, svc, ip) && AddressesGiven(t) && Lists(assignments, t, svc)
    requires PoolAddress(w, svc.poolID, ip).Ok? && exists ep | ep in svc.endpoints :: ep.Configurable()
    requires AutoSelects(w, t, svc, assignments, ConfigurablePorts(svc.endpoints), Ok(c))
    ensures c.ip == ip <==> UnheldFree(t, svc, ip)
  {
    ScanSettled(t, svc, ip, assignments);
    PoolAddressSound(w, svc.poolID, ip);
    var ports := ConfigurablePorts(svc.endpoints);
    if UnheldFree(t, svc, ip) {
      assert Manual(w, t, svc.poolID, ip, Unheld(t, svc)) == PoolAddress(w, svc.poolID, ip);
    } else {
      assert Manual(w, t, svc.poolID, ip, Unheld(t, svc)).Err?;
      FreeIsUnused(w, t, svc.poolID, ports, c);
      var p :| p in Unheld(t, svc) && HasHostPort(t, svc.poolID, ip, p);
      assert p in ports && InUse(t, svc.poolID, ip, ports);
    }
  }

  lemma {:induction false} FreeIsUnused(w: World, t: Table, poolID: string, ports: set<Port>, c: Choice)
    requires AutoMay(w, t, poolID, ports, Ok(c))
    ensures !InUse(t, poolID, c.ip, ports)
  {}

  /** A service that holds all its ports keeps them. */
  lemma {:induction false} ReassignIsIdempotent(
    w: World, t: Table, svc: Service, ip: string, assignments: seq<Assignment>, c: Choice)
    requires GoodService(svc) && SettledOn(t, svc, ip) && OnePortPerName(svc.endpoints)
    requires AddressesGiven(t) && Lists(assignments, t, svc) && PoolAddress(w, svc.poolID, ip).Ok?
    requires AutoSelects(w, t, svc, assignments, ConfigurablePorts(svc.endpoints), Ok(c))
    ensures Settle(w, t, svc, c) == (true, t)
  {
    CoveredIff(t, svc, ip);
    forall p | p in ConfigurablePorts(svc.endpoints) ensures p !in Unheld(t, svc) {
      var ep :| ep in svc.endpoints && ep.Configurable() && ep.port == p;
      var a :| a in t && HoldsEndpoint(a, svc, ep);
    }
    ReassignIsIdempotentIff(w, t, svc, ip, assignments, c);
  }

  // ---------------------------------------------------------------- a port map of another service

  /**
   `AssignIPs` builds the port map from the service it was asked about and starts with it at that
   service's descendants. With a port map that is not the visited service's own, the
   selection can succeed, the old entry is removed, and the insert then fails.
   */
  lemma {:induction false} ForeignPortMapLosesAssignment()
    ensures exists w, t, svc, assignments, c :: LosesAssignment(w, t, svc, assignments, {}, "ip1", c)
  {
    var w, c := TwoAddresses();
    var ep := Endpoint("http", 80, "tcp", "");
    var svc := Service("child", "pool", [ep]);
    var mine := Assignment(Virtual, "", "pool", "ip2", 80, "child", "http");
    var theirs := Assignment(Virtual, "", "pool", "ip1", 80, "other", "http");
    BlockedLosesAssignment(w, svc, ep, mine, theirs, c);
    assert LosesAssignment(w, {mine, theirs}, svc, [mine], {}, "ip1", c);
  }

  /** A pool with two virtual addresses, and the choice of the first. */
  lemma {:induction false} TwoAddresses() returns (w: World, c: Choice)
    ensures GoodWorld(w) && PoolAddress(w, "pool", "ip1") == Ok(c) && c == Choice("ip1", Virtual, "")
  {
    w, c := World(map["pool" := ["ip1", "ip2"]], [], s => s != ""), Choice("ip1", Virtual, "");
  }

  lemma {:induction false} TwoEntries(svc: Service, ep: Endpoint, mine: Assignment, theirs: Assignment)
    requires svc.endpoints == [ep] && ep.Configurable() && ep.name != "" && svc.id != "" && svc.poolID != ""
    requires mine == NewAssignment(svc, Choice(mine.ip, mine.kind, mine.hostID), ep)
    requires theirs.serviceID != svc.id && theirs.ip != mine.ip
    ensures var t := {mine, theirs}; GoodService(svc) && Unique(t) && Consistent(t, svc) && Lists([mine], t, svc)
  {
    assert ep in svc.endpoints;
  }

  /** A service with one endpoint, assigned elsewhere, is sent to an address where its port is taken. */
  lemma {:induction false} BlockedVisitLoses(
    w: World, svc: Service, ep: Endpoint, mine: Assignment, theirs: Assignment, c: Choice)
    requires svc.endpoints == [ep] && ep.Configurable() && c.ip != mine.ip
    requires mine == NewAssignment(svc, Choice(mine.ip, mine.kind, mine.hostID), ep)
    requires theirs.serviceID != svc.id && theirs.poolID == svc.poolID && theirs.ip == c.ip && theirs.port == ep.port
    ensures var t := {mine, theirs};
            Own(t, svc) == {mine} && Settle(w, t, svc, c) == (false, {theirs}) && Own({theirs}, svc) == {}
  {
    var t := {mine, theirs};
    assert Stale(t, svc, c.ip) == {mine} && KeptNames(t, svc, c.ip) == {};
    assert t - {mine} == {theirs};
    assert HasHostPort({theirs}, svc.poolID, c.ip, ep.port);
  }

  lemma {:induction false} BlockedLosesAssignment(
    w: World, svc: Service, ep: Endpoint, mine: Assignment, theirs: Assignment, c: Choice)
    requires GoodWorld(w) && svc.id != "" && svc.poolID != ""
    requires svc.endpoints == [ep] && ep.Configurable() && ep.name != ""
    requires mine == NewAssignment(svc, Choice(mine.ip, mine.kind, mine.hostID), ep) && c.ip != mine.ip
    requires theirs.serviceID != svc.id && theirs.poolID == svc.poolID && theirs.ip == c.ip && theirs.port == ep.port
    requires PoolAddress(w, svc.poolID, c.ip) == Ok(c)
    ensures LosesAssignment(w, {mine, theirs}, svc, [mine], {}, c.ip, c)
  {
    BlockedVisitLoses(w, svc, ep, mine, theirs, c);
    TwoEntries(svc, ep, mine, theirs);
    assert {} - HeldPorts([mine], c.ip) == {};
    assert Manual(w, {mine, theirs}, svc.poolID, c.ip, {}) == Ok(c);
  }

  /** A manual request with the given port map selects an address and yet costs the service its entries. */
  ghost predicate LosesAssignment(
    w: World, t: Table, svc: Service, assignments: seq<Assignment>, portmap: set<Port>, ip: string, c: Choice) {
    && GoodWorld(w) && GoodService(svc) && Unique(t) && Consistent(t, svc) && Lists(assignments, t, svc)
    && Selects(w, t, svc, assignments, portmap, false, ip, Ok(c))
    && !Settle(w, t, svc, c).0 && Own(t, svc) != {} && Own(Settle(w, t, svc, c).1, svc) == {}
  }

  // ---------------------------------------------------------------- the port map

  /** No two configurable endpoints share a port. */
  predicate PortsDistinct(eps: seq<Endpoint>) {
    forall i, j | 0 <= i < j < |eps| && eps[i].Configurable() && eps[j].Configurable() :: eps[i].port != eps[j].port
  }

  /** `GetPorts`: the configurable ports, or an error exactly if two endpoints share one. */
  method GetPorts(eps: seq<Endpoint>) returns (r: Result<set<Port>, AddressError>)
    ensures r.Ok? <==> PortsDistinct(eps)
    ensures r.Ok? ==> r.value == ConfigurablePorts(eps)
  {
    var ports: set<Port> := {};
    for i := 0 to |eps|
      invariant PortsDistinct(eps[..i]) && ports == ConfigurablePorts(eps[..i])
    {
      assert eps[..i + 1] == eps[..i] + [eps[i]];
      if eps[i].Configurable() {
        if eps[i].port in ports {
          var ep :| ep in eps[..i] && ep.Configurable() && ep.port == eps[i].port;
          return Err(Taken);
        }
        ports := ports + {eps[i].port};
      }
    }
    assert eps[..|eps|] == eps;
    r := Ok(ports);
  }

  /** `AssignIPs` drops the error of `GetPorts`, and with it all ports. */
  method PortMap(eps: seq<Endpoint>) returns (portmap: set<Port>)
    ensures portmap == if PortsDistinct(eps) then ConfigurablePorts(eps) else {}
  {
    var r := GetPorts(eps);
    portmap := if r.Ok? then r.value else {};
  }

  /** Endpoints that share a name or a port fail every visit to a new address, whatever the port map. */
  lemma {:induction false} SharingFailsNewAddress(w: World, t: Table, svc: Service, c: Choice)
    requires Usable(w, svc, c) && !Distinct(svc.endpoints) && forall a | a in Own(t, svc) :: a.ip != c.ip
    ensures !Settle(w, t, svc, c).0
  {
    SettleSucceedsIff(w, t, svc, c);
    assert KeptNames(t, svc, c.ip) == {} by {
      forall a | a in t && a.serviceID == svc.id ensures a.ip != c.ip { assert a in Own(t, svc); }
    }
  }

  // ---------------------------------------------------------------- the assignment table object

  class AddressBook {
    var table: Table

    /** What every operation keeps, so what holds over every run. */
    ghost predicate Valid()
      reads this
    {
      Unique(table) && AddressesGiven(table)
    }

    constructor ()
      ensures table == {} && Valid()
    {
      table := {};
    }

    /** The checked insert. */
    method Assign(w: World, a: Assignment) returns (r: Result<(), AddressError>)
      requires Valid() && !w.isIP("")
      modifies this
      ensures Valid()
      ensures r.Ok? <==> CanAssign(w, old(table), a)
      ensures table == if r.Ok? then old(table) + {a} else old(table)
    {
      if !ValidEntity(w, a) {
        return Err(Invalid);
      }
      if HasServiceEndpoint(table, a.serviceID, a.endpoint) {
        return Err(EndpointAssigned);
      }
      if a.poolID == "" {
        return Err(BadQuery);
      }
      if HasHostPort(table, a.poolID, a.ip, a.port) {
        return Err(Taken);
      }
      AssignKeepsUnique(w, table, a);
      table := table + {a};
      r := Ok(());
    }

    method Remove(a: Assignment)
      requires Valid()
      modifies this
      ensures Valid() && table == old(table) - {a}
    {
      table := table - {a};
    }

    method GetServiceAssignments(svc: Service) returns (assignments: seq<Assignment>)
      ensures Lists(assignments, table, svc)
    {
      assignments := [];
      var left := table;
      while left != {}
        invariant left <= table
        invariant forall a :: a in assignments <==> a in table - left && a.serviceID == svc.id
        decreases left
      {
        var a :| a in left;
        left := left - {a};
        if a.serviceID == svc.id {
          assignments := assignments + [a];
        }
      }
    }

    method GetAutoAssignment(w: World, poolID: string, ports: set<Port>) returns (r: Result<Choice, AddressError>)
      ensures AutoMay(w, table, poolID, ports, r)
    {
      if poolID !in w.vips {
        return Err(NoSuchPool);
      }
      if ports != {} && (poolID == "" || 0 in ports) {
        return Err(BadQuery);
      }
      var free := FreeVirtual(w, table, poolID, ports) + FreeStatic(w, table, poolID, ports);
      if free == {} {
        return Err(NoneAvailable);
      }
      var c :| c in free;
      r := Ok(c);
    }

    /** The scan for a common address, which also strikes ports off the port map. */
    method CurrentAddress(assignments: seq<Assignment>, portmap: set<Port>) returns (ip: string, left: set<Port>)
      ensures (ip, left) == ScanCurrent(assignments, "", portmap)
    {
      ip, left := "", portmap;
      for i := 0 to |assignments|
        invariant ScanCurrent(assignments[i..], ip, left) == ScanCurrent(assignments, "", portmap)
      {
        var a := assignments[i];
        assert assignments[i..][1..] == assignments[i + 1..];
        if ip == "" {
          ip := a.ip;
        } else if ip != a.ip {
          ip := "";
          return;
        }
        left := left - {a.port};
      }
    }

    /** The selection step; it also strikes ports off the port map. */
    method Select(
      w: World, svc: Service, assignments: seq<Assignment>, portmap: set<Port>, auto: bool, requestIP: string)
      returns (r: Result<Choice, AddressError>, left: set<Port>)
      ensures Selects(w, table, svc, assignments, portmap, auto, requestIP, r)
      ensures left == Left(assignments, portmap, auto, requestIP)
    {
      if !auto {
        left := portmap - HeldPorts(assignments, requestIP);
        r := Manual(w, table, svc.poolID, requestIP, left);
        return;
      }
      var ip;
      ip, left := CurrentAddress(assignments, portmap);
      if ip != "" {
        r := Manual(w, table, svc.poolID, ip, left);
        if r.Ok? && r.value.ip != "" {
          return;
        }
      }
      r := GetAutoAssignment(w, svc.poolID, portmap);
    }

    /**
     The body of `IpVisitorFn` for one service and any port map. `selected` is what the selection
     returned; if that is an address, the rest of the visit is `Settle`. What is left of the port
     map is what the next service is visited with.
     */
    method Visit(w: World, svc: Service, portmap: set<Port>, auto: bool, requestIP: string)
      returns (r: Result<Choice, AddressError>, left: set<Port>, ghost selected: Result<Choice, AddressError>)
      requires Valid() && GoodWorld(w)
      modifies this
      ensures Valid()
      ensures MaySelect(w, old(table), svc, portmap, auto, requestIP, selected, left)
      ensures selected.Ok? <==>
              if auto
              then CurrentObtainable(w, old(table), svc, portmap) || SomeFree(w, old(table), svc.poolID, portmap)
              else Obtainable(w, old(table), svc.poolID, requestIP, Unmet(old(table), svc, portmap, requestIP))
      ensures selected.Err? ==> r == selected && table == old(table)
      ensures selected.Ok? ==>
                && (r.Ok?, table) == Settle(w, old(table), svc, selected.value)
                && (r.Ok? ==> r == selected)
      ensures table - Own(table, svc) == old(table) - Own(old(table), svc)
      ensures GoodService(svc) && Consistent(old(table), svc) && portmap == ConfigurablePorts(svc.endpoints) ==>
                && (r.Ok? ==> SettledOn(table, svc, r.value.ip) && InPool(w, svc.poolID, r.value))
                && (r.Ok? <==> selected.Ok? && Apart(old(table), svc, selected.value.ip))
                && (Distinct(svc.endpoints) && r.Err? ==> table == old(table))
    {
      var assignments := GetServiceAssignments(svc);
      r, left := Select(w, svc, assignments, portmap, auto, requestIP);
      selected := r;
      SelectionFindsIff(w, table, svc, portmap, auto, requestIP, selected, left);
      if r.Err? {
        return;
      }
      var c := r.value;
      if GoodService(svc) && Consistent(old(table), svc) && portmap == ConfigurablePorts(svc.endpoints) {
        VisitSucceedsIff(w, table, svc, assignments, auto, requestIP, c);
        if Distinct(svc.endpoints) {
          DistinctApart(table, svc, c.ip);
        }
      }
      var exclude := RemoveStale(svc, assignments, c.ip);
      var ok := AssignMissing(w, svc, c, exclude);
      if !ok {
        r := Err(Taken);
      }
    }

    method RemoveStale(svc: Service, assignments: seq<Assignment>, ip: string) returns (exclude: set<string>)
      requires Valid() && Lists(assignments, table, svc)
      modifies this
      ensures Valid()
      ensures table == old(table) - Stale(old(table), svc, ip)
      ensures exclude == KeptNames(old(table), svc, ip)
    {
      exclude := {};
      for i := 0 to |assignments|
        invariant Valid()
        invariant table == old(table) - (set a | a in assignments[..i] && a.ip != ip)
        invariant exclude == set a | a in assignments[..i] && a.ip == ip :: a.endpoint
      {
        var a := assignments[i];
        assert assignments[..i + 1] == assignments[..i] + [a];
        if a.ip == ip {
          exclude := exclude + {a.endpoint};
        } else {
          Remove(a);
        }
      }
      assert assignments[..|assignments|] == assignments;
    }

    method AssignMissing(w: World, svc: Service, c: Choice, exclude: set<string>) returns (ok: bool)
      requires Valid() && !w.isIP("")
      modifies this
      ensures Valid()
      ensures (ok, table) == AssignFrom(w, old(table), svc, c, exclude, svc.endpoints)
      ensures old(table) <= table && forall a | a in table - old(table) :: a.serviceID == svc.id
    {
      var eps := svc.endpoints;
      for i := 0 to |eps|
        invariant Valid()
        invariant AssignFrom(w, table, svc, c, exclude, eps[i..]) == AssignFrom(w, old(table), svc, c, exclude, eps)
        invariant old(table) <= table && forall a | a in table - old(table) :: a.serviceID == svc.id
      {
        assert eps[i..][1..] == eps[i + 1..];
        if Wants(eps[i], exclude) {
          var r := Assign(w, NewAssignment(svc, c, eps[i]));
          if r.Err? {
            return false;
          }
        }
      }
      ok := true;
    }

    /**
     `restoreIPs`: saved addresses first, any free one otherwise, none if there is none. `tables`
     are the tables before each endpoint's turn, and after the last one.
     */
    method RestoreIPs(w: World, svc: Service) returns (r: Result<(), AddressError>, ghost tables: seq<Table>)
      requires Valid() && GoodWorld(w)
      modifies this
      ensures Valid() && old(table) <= table
      ensures IsRestore(w, svc, tables) && tables[0] == old(table) && table == tables[|tables| - 1]
      ensures r.Ok? ==> |tables| == |svc.endpoints| + 1
      ensures r.Err? ==> |tables| <= |svc.endpoints| && RestoreStops(w, table, svc, svc.endpoints[|tables| - 1])
      ensures forall a | a in table - old(table) ::
                a.serviceID == svc.id && InPool(w, svc.poolID, Choice(a.ip, a.kind, a.hostID))
      ensures GoodService(svc) && NamesDistinct(svc.endpoints) && Own(old(table), svc) == {} ==> r.Ok?
      ensures r.Ok? ==> AllAttended(w, table, svc, svc.endpoints)
    {
      tables := [table];
      ghost var t0 := table;
      for i := 0 to |svc.endpoints|
        invariant Valid() && Restoring(w, svc, t0, tables, table, i)
      {
        ghost var before := table;
        r := RestoreEndpoint(w, svc, svc.endpoints[i]);
        RestoringOne(w, svc, t0, tables, before, table, i, r.Ok?);
        if r.Err? {
          return;
        }
        tables := tables + [table];
      }
      assert svc.endpoints[..|svc.endpoints|] == svc.endpoints;
      r := Ok(());
    }

    /** The body of the loop over the endpoints. */
    method RestoreEndpoint(w: World, svc: Service, ep: Endpoint) returns (r: Result<(), AddressError>)
      requires Valid() && GoodWorld(w)
      modifies this
      ensures Valid() && old(table) <= table
      ensures r.Ok? ==> RestoreStep(w, old(table), svc, ep, table) && Attended(w, table, svc, ep)
      ensures r.Err? ==> table == old(table) && RestoreStops(w, table, svc, ep)
      ensures r.Err? && GoodService(svc) && ep in svc.endpoints ==> HasServiceEndpoint(table, svc.id, ep.name)
      ensures AddedFor(w, svc, old(table), table, {ep.name})
    {
      if ep.savedIP == "" {
        return Ok(());
      }
      var choice := RestoreOne(w, svc, ep);
      if choice.Ok? {
        var a := NewAssignment(svc, choice.value, ep);
        r := Assign(w, a);
        if r.Err? {
          return;
        }
        assert a in table;
      }
      assert RestoredAs(w, old(table), svc, ep, choice, table);
      r := Ok(());
    }

    method RestoreOne(w: World, svc: Service, ep: Endpoint) returns (r: Result<Choice, AddressError>)
      requires GoodWorld(w)
      ensures r.Ok? ==>
                InPool(w, svc.poolID, r.value) && !HasHostPort(table, svc.poolID, r.value.ip, ep.port) && ep.port > 0
      ensures RestoreMay(w, table, svc, ep, r)
    {
      r := Manual(w, table, svc.poolID, ep.savedIP, {ep.port});
      if r.Ok? {
        PoolAddressSound(w, svc.poolID, ep.savedIP);
        return;
      }
      r := GetAutoAssignment(w, svc.poolID, {ep.port});
    }
  }

  /** What may be chosen for an endpoint that had an address: that one if it can be had, or else any free one. */
  ghost predicate RestoreMay(w: World, t: Table, svc: Service, ep: Endpoint, r: Result<Choice, AddressError>) {
    var saved := Manual(w, t, svc.poolID, ep.savedIP, {ep.port});
    if saved.Ok? then r == saved else AutoMay(w, t, svc.poolID, {ep.port}, r)
  }

  /** The table after the choice for an endpoint: one more entry, or the same if nothing could be chosen. */
  ghost predicate RestoredAs(
    w: World, t: Table, svc: Service, ep: Endpoint, choice: Result<Choice, AddressError>, t': Table) {
    && RestoreMay(w, t, svc, ep, choice)
    && if choice.Err? then t' == t
       else
         var a := NewAssignment(svc, choice.value, ep);
         CanAssign(w, t, a) && t' == t + {a}
  }

  ghost predicate RestoreStep(w: World, t: Table, svc: Service, ep: Endpoint, t': Table) {
    if ep.savedIP == "" then t' == t else exists choice :: RestoredAs(w, t, svc, ep, choice, t')
  }

  /** An endpoint at which the restore stops: an address was chosen, and could not be assigned. */
  ghost predicate RestoreStops(w: World, t: Table, svc: Service, ep: Endpoint) {
    ep.savedIP != "" &&
    exists c :: RestoreMay(w, t, svc, ep, Ok(c)) && !CanAssign(w, t, NewAssignment(svc, c, ep))
  }

  ghost predicate IsRestore(w: World, svc: Service, tables: seq<Table>) {
    && 1 <= |tables| <= |svc.endpoints| + 1
    && forall i | 0 <= i < |tables| - 1 :: RestoreStep(w, tables[i], svc, svc.endpoints[i], tables[i + 1])
  }

  /** An endpoint whose saved address can be had when its turn comes gets that address. */
  lemma {:induction false} SavedAddressRestored(w: World, t: Table, svc: Service, ep: Endpoint, t': Table)
    requires RestoreStep(w, t, svc, ep, t') && ep.savedIP != "" && Obtainable(w, t, svc.poolID, ep.savedIP, {ep.port})
    ensures exists a | a in t' :: HoldsEndpoint(a, svc, ep) && a.ip == ep.savedIP
  {
    var choice :| RestoredAs(w, t, svc, ep, choice, t');
    assert Manual(w, t, svc.poolID, ep.savedIP, {ep.port}) == PoolAddress(w, svc.poolID, ep.savedIP);
    PoolAddressSound(w, svc.poolID, ep.savedIP);
    var a := NewAssignment(svc, choice.value, ep);
    assert a in t' && HoldsEndpoint(a, svc, ep);
  }

  /** No address of the pool is free at the port, or the request cannot be made at all. */
  ghost predicate Unavailable(w: World, t: Table, poolID: string, port: Port) {
    || poolID !in w.vips || poolID == "" || port == 0
    || FreeVirtual(w, t, poolID, {port}) + FreeStatic(w, t, poolID, {port}) == {}
  }

  /** An endpoint that had an address has one again, unless there is none to be had. */
  ghost predicate Attended(w: World, t: Table, svc: Service, ep: Endpoint) {
    ep.savedIP != "" ==> HasServiceEndpoint(t, svc.id, ep.name) || Unavailable(w, t, svc.poolID, ep.port)
  }

  ghost predicate AllAttended(w: World, t: Table, svc: Service, eps: seq<Endpoint>) {
    forall j | 0 <= j < |eps| :: Attended(w, t, svc, eps[j])
  }

  ghost function NamesOf(eps: seq<Endpoint>): set<string> {
    set ep | ep in eps :: ep.name
  }

  /** What was added belongs to the service, to endpoints of these names, and to its pool. */
  ghost predicate AddedFor(w: World, svc: Service, before: Table, t: Table, names: set<string>) {
    && before <= t
    && forall a | a in t - before ::
         && a.serviceID == svc.id && a.endpoint in names
         && InPool(w, svc.poolID, Choice(a.ip, a.kind, a.hostID))
  }

  lemma {:induction false} AddedMore(
    w: World, svc: Service, a: Table, b: Table, c: Table, m: set<string>, n: set<string>)
    requires AddedFor(w, svc, a, b, m) && AddedFor(w, svc, b, c, n)
    ensures AddedFor(w, svc, a, c, m + n)
  {
    forall x | x in c - a ensures x in b - a || x in c - b {}
  }

  /** A service that had no entries has none but those that were added. */
  lemma {:induction false} OthersOnly(w: World, svc: Service, before: Table, t: Table, names: set<string>, name: string)
    requires Own(before, svc) == {} && name !in names && AddedFor(w, svc, before, t, names)
    ensures !HasServiceEndpoint(t, svc.id, name)
  {
    forall a | a in t && a.serviceID == svc.id ensures a.endpoint != name {
      assert a in before ==> a in Own(before, svc);
    }
  }

  /** Where the restore stands after the first `i` endpoints. */
  ghost predicate Restoring(w: World, svc: Service, t0: Table, tables: seq<Table>, t: Table, i: nat)
    requires i <= |svc.endpoints|
  {
    && IsRestore(w, svc, tables) && |tables| == i + 1 && tables[0] == t0 && t == tables[i]
    && AddedFor(w, svc, t0, t, NamesOf(svc.endpoints[..i])) && AllAttended(w, t, svc, svc.endpoints[..i])
  }

  /** One more endpoint, in terms of what its turn promises. */
  lemma {:induction false} RestoringOne(
    w: World, svc: Service, t0: Table, tables: seq<Table>, t: Table, t': Table, i: nat, ok: bool)
    requires i < |svc.endpoints| && Restoring(w, svc, t0, tables, t, i)
    requires AddedFor(w, svc, t, t', {svc.endpoints[i].name})
    requires ok ==> RestoreStep(w, t, svc, svc.endpoints[i], t') && Attended(w, t', svc, svc.endpoints[i])
    requires !ok ==> t' == t && (GoodService(svc) ==> HasServiceEndpoint(t, svc.id, svc.endpoints[i].name))
    ensures ok ==> Restoring(w, svc, t0, tables + [t'], t', i + 1)
    ensures !ok ==> !(GoodService(svc) && NamesDistinct(svc.endpoints) && Own(t0, svc) == {})
  {
    var eps := svc.endpoints;
    if ok {
      AddedMore(w, svc, t0, t, t', NamesOf(eps[..i]), {eps[i].name});
      assert eps[..i + 1] == eps[..i] + [eps[i]];
    } else if NamesDistinct(eps) && Own(t0, svc) == {} {
      OthersOnly(w, svc, t0, t, NamesOf(eps[..i]), eps[i].name);
    }
  }

  ghost predicate NamesDistinct(eps: seq<Endpoint>) {
    forall i, j | 0 <= i < j < |eps| :: eps[i].name != eps[j].name
  }
}
