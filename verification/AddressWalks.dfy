/**
 The walk of `AssignIPs` and `SetIPs` over a service and its descendants (facade/service.go,
 domain/service/walk.go). All visits share one port map, from which each of them strikes ports.
 */
module AddressWalks {
  import opened Results
  import opened Addresses

  // ---------------------------------------------------------------- the order of the walk

  datatype ServiceTree = Node(service: Service, children: seq<ServiceTree>)

  /** `service.Walk`: the children first, each with all its descendants, and then the service itself. */
  function PostOrder(tree: ServiceTree): seq<Service> {
    PostOrderAll(tree.children) + [tree.service]
  }

  function PostOrderAll(trees: seq<ServiceTree>): seq<Service> {
    if trees == [] then [] else PostOrder(trees[0]) + PostOrderAll(trees[1..])
  }

  // ---------------------------------------------------------------- a walk and what its visits see

  /** One visit that succeeds: from a table and a port map to the next ones. */
  ghost predicate Step(
    w: World, svc: Service, auto: bool, ip: string, t: Table, portmap: set<Port>, t': Table, left: set<Port>) {
    exists c :: MaySelect(w, t, svc, portmap, auto, ip, Ok(c), left) && Settle(w, t, svc, c) == (true, t')
  }

  /** The tables and the port maps before each visit, and after the last one. */
  ghost predicate IsWalk(
    w: World, services: seq<Service>, auto: bool, ip: string, tables: seq<Table>, maps: seq<set<Port>>) {
    && 1 <= |tables| == |maps| <= |services| + 1
    && forall i | 0 <= i < |tables| - 1 ::
         Step(w, services[i], auto, ip, tables[i], maps[i], tables[i + 1], maps[i + 1])
  }

  ghost predicate DistinctIds(services: seq<Service>) {
    forall i, j | 0 <= i < j < |services| :: services[i].id != services[j].id
  }

  /** A visit keeps the table unique and leaves the entries of other services alone. */
  lemma {:induction false} SettleFrame(w: World, t: Table, svc: Service, c: Choice, other: Service)
    requires Unique(t) && other.id != svc.id
    ensures var t' := Settle(w, t, svc, c).1; Unique(t') && Own(t', other) == Own(t, other)
  {
    AssignFromKeepsUnique(w, t - Stale(t, svc, c.ip), svc, c, KeptNames(t, svc, c.ip), svc.endpoints);
  }

  /** A service that has not been visited yet has the entries it had at the start. */
  lemma {:induction false} OwnUntilVisited(
    w: World, services: seq<Service>, auto: bool, ip: string, tables: seq<Table>, maps: seq<set<Port>>, i: nat, k: nat)
    requires IsWalk(w, services, auto, ip, tables, maps) && DistinctIds(services) && Unique(tables[0])
    requires i < |tables| && i <= k < |services|
    ensures Unique(tables[i]) && Own(tables[i], services[k]) == Own(tables[0], services[k])
  {
    if i > 0 {
      OwnUntilVisited(w, services, auto, ip, tables, maps, i - 1, k);
      assert Step(w, services[i - 1], auto, ip, tables[i - 1], maps[i - 1], tables[i], maps[i]);
      var c :| MaySelect(w, tables[i - 1], services[i - 1], maps[i - 1], auto, ip, Ok(c), maps[i]) &&
               Settle(w, tables[i - 1], services[i - 1], c) == (true, tables[i]);
      assert services[i - 1].id != services[k].id;
      SettleFrame(w, tables[i - 1], services[i - 1], c, services[k]);
    }
  }

  /** The ports that a service's entries hold, on the given address or, for an automatic request, on any. */
  ghost function Holds(t: Table, svc: Service, auto: bool, ip: string): set<Port> {
    set a | a in Own(t, svc) && (auto || a.ip == ip) :: a.port
  }

  /** The ports held by the first `n` services. */
  ghost function HeldBy(t: Table, services: seq<Service>, n: nat, auto: bool, ip: string): set<Port>
    requires n <= |services|
  {
    if n == 0 then {} else HeldBy(t, services, n - 1, auto, ip) + Holds(t, services[n - 1], auto, ip)
  }

  ghost predicate OneAddress(t: Table, svc: Service) {
    forall a, b | a in Own(t, svc) && b in Own(t, svc) :: a.ip == b.ip
  }

  /** If its entries are on one address, an automatic request strikes off all the service's ports. */
  lemma {:induction false} AutoStrikes(
    t: Table, svc: Service, assignments: seq<Assignment>, portmap: set<Port>, ip: string)
    requires Lists(assignments, t, svc) && OneAddress(t, svc) && AddressesGiven(t)
    ensures Left(assignments, portmap, true, ip) == portmap - Holds(t, svc, true, ip)
  {
    if assignments == [] {
      assert Holds(t, svc, true, ip) == {} by {
        forall a ensures a !in Own(t, svc) { assert a in Own(t, svc) ==> a in assignments; }
      }
    } else {
      var common := assignments[0].ip;
      assert assignments[0] in assignments && assignments[0] in Own(t, svc);
      forall a | a in assignments ensures a.ip == common { assert a in Own(t, svc); }
      ScanCurrentSpec(assignments, "", portmap);
      ScanCurrentSpec(assignments[1..], common, portmap - {assignments[0].port});
      assert ScanCurrent(assignments, "", portmap).0 == common;
      assert (set a | a in assignments :: a.port) == Holds(t, svc, true, ip);
    }
  }

  /** The entries of the services are such that a visit strikes off all the ports it looks for. */
  ghost predicate Striking(t: Table, services: seq<Service>, auto: bool) {
    auto ==> AddressesGiven(t) && forall i | 0 <= i < |services| :: OneAddress(t, services[i])
  }

  lemma {:induction false} StepStrikes(
    w: World, svc: Service, auto: bool, ip: string, t: Table, portmap: set<Port>, t': Table, left: set<Port>)
    requires Step(w, svc, auto, ip, t, portmap, t', left) && (auto ==> OneAddress(t, svc) && OwnGiven(t, svc))
    ensures left == portmap - Holds(t, svc, auto, ip)
  {
    var c :| MaySelect(w, t, svc, portmap, auto, ip, Ok(c), left) && Settle(w, t, svc, c) == (true, t');
    var assignments :| Lists(assignments, t, svc) && left == Left(assignments, portmap, auto, ip);
    if auto {
      AutoStrikes(Own(t, svc), svc, assignments, portmap, ip);
    }
  }

  ghost predicate OwnGiven(t: Table, svc: Service) {
    AddressesGiven(Own(t, svc))
  }

  /**
   The port map that each service of a walk is visited with: the one the walk began with, less the
   ports that the services visited before it held at the start.
   */
  lemma {:induction false} MapsSeen(
    w: World, services: seq<Service>, auto: bool, ip: string, tables: seq<Table>, maps: seq<set<Port>>, i: nat)
    requires IsWalk(w, services, auto, ip, tables, maps) && DistinctIds(services) && Unique(tables[0])
    requires Striking(tables[0], services, auto) && i < |tables|
    ensures maps[i] == maps[0] - HeldBy(tables[0], services, i, auto, ip)
  {
    if i > 0 {
      MapsSeen(w, services, auto, ip, tables, maps, i - 1);
      var svc, t0 := services[i - 1], tables[0];
      assert Step(w, svc, auto, ip, tables[i - 1], maps[i - 1], tables[i], maps[i]);
      OwnUntilVisited(w, services, auto, ip, tables, maps, i - 1, i - 1);
      StepStrikes(w, svc, auto, ip, tables[i - 1], maps[i - 1], tables[i], maps[i]);
      assert Holds(tables[i - 1], svc, auto, ip) == Holds(t0, svc, auto, ip);
    }
  }

  lemma {:induction false} HeldByMember(t: Table, services: seq<Service>, n: nat, auto: bool, ip: string, p: Port)
    requires n <= |services|
    ensures p in HeldBy(t, services, n, auto, ip) <==> exists i | 0 <= i < n :: p in Holds(t, services[i], auto, ip)
  {
    if n > 0 {
      HeldByMember(t, services, n - 1, auto, ip, p);
    }
  }

  /**
   The service that the walk was asked for comes last, and is visited with the port map made from
   its own endpoints if and only if none of its descendants held one of those ports.
   */
  lemma {:induction false} AskedSeesOwnMapIff(
    w: World, tree: ServiceTree, auto: bool, ip: string, tables: seq<Table>, maps: seq<set<Port>>)
    requires var services := PostOrder(tree);
             && IsWalk(w, services, auto, ip, tables, maps) && DistinctIds(services)
             && Striking(tables[0], services, auto) && |tables| >= |services|
    requires Unique(tables[0]) && maps[0] == ConfigurablePorts(tree.service.endpoints)
    ensures var below := PostOrderAll(tree.children);
            maps[|below|] == ConfigurablePorts(tree.service.endpoints) <==>
            forall i, p | 0 <= i < |below| && p in Holds(tables[0], below[i], auto, ip) :: p !in maps[0]
  {
    var services, below := PostOrder(tree), PostOrderAll(tree.children);
    var n := |below|;
    MapsSeen(w, services, auto, ip, tables, maps, n);
    forall p ensures p in HeldBy(tables[0], services, n, auto, ip) <==>
                     exists i | 0 <= i < n :: p in Holds(tables[0], below[i], auto, ip)
    {
      HeldByMember(tables[0], services, n, auto, ip, p);
      assert forall i | 0 <= i < n :: services[i] == below[i];
    }
  }

  // ---------------------------------------------------------------- a map that has shrunk

  /**
   A child that holds the port on the requested address strikes it off the map. The parent, whose
   port it is as well, is then visited with an empty map, and loses the entry it had elsewhere.
   */
  lemma {:induction false} ShrunkenMapLosesAssignment()
    ensures exists w, t, child: Service, parent: Service, assignments, c ::
              && Distinct(parent.endpoints)
              && Step(w, child, false, "ip1", t, ConfigurablePorts(parent.endpoints), t, {})
              && LosesAssignment(w, t, parent, assignments, {}, "ip1", c)
  {
    var w, c := TwoAddresses();
    var ep := Endpoint("http", 80, "tcp", "");
    var child, parent := Service("child", "pool", [ep]), Service("parent", "pool", [ep]);
    var mine := Assignment(Virtual, "", "pool", "ip2", 80, "parent", "http");
    var theirs := Assignment(Virtual, "", "pool", "ip1", 80, "child", "http");
    var t := {mine, theirs};
    BlockedLosesAssignment(w, parent, ep, mine, theirs, c);
    ChildStrikes(w, child, ep, mine, theirs, c);
    OnePort(ep);
    assert LosesAssignment(w, t, parent, [mine], {}, "ip1", c);
  }

  lemma {:induction false} OnePort(ep: Endpoint)
    requires ep.Configurable()
    ensures ConfigurablePorts([ep]) == {ep.port} && Distinct([ep])
  {
    assert ep in [ep];
  }

  lemma {:induction false} ChildStrikes(
    w: World, child: Service, ep: Endpoint, mine: Assignment, theirs: Assignment, c: Choice)
    requires child.endpoints == [ep] && ep.Configurable() && mine.serviceID != child.id
    requires theirs == NewAssignment(child, Choice(theirs.ip, theirs.kind, theirs.hostID), ep)
    requires PoolAddress(w, child.poolID, theirs.ip) == Ok(c) && c.ip == theirs.ip
    ensures Step(w, child, false, c.ip, {mine, theirs}, {ep.port}, {mine, theirs}, {})
  {
    var t, assignments := {mine, theirs}, [theirs];
    assert HeldPorts(assignments, c.ip) == {ep.port};
    assert Lists(assignments, t, child);
    assert Left(assignments, {ep.port}, false, c.ip) == {};
    assert Selects(w, t, child, assignments, {ep.port}, false, c.ip, Ok(c));
    assert Stale(t, child, c.ip) == {} && t - {} == t && ep.name in KeptNames(t, child, c.ip);
    NothingWanted(w, t, child, c, KeptNames(t, child, c.ip), child.endpoints);
    assert MaySelect(w, t, child, {ep.port}, false, c.ip, Ok(c), {});
  }

  // ---------------------------------------------------------------- the walk

  /** The visit at which a walk stopped: the selection found nothing, or an insert failed. */
  ghost predicate StoppedAt(
    w: World, svc: Service, auto: bool, ip: string, t: Table, portmap: set<Port>, t': Table) {
    exists selected, left ::
      && MaySelect(w, t, svc, portmap, auto, ip, selected, left)
      && if selected.Err? then t' == t else Settle(w, t, svc, selected.value) == (false, t')
  }

  /** Visits the services one after the other, with what is left of the port map, until one fails. */
  method Walk(book: AddressBook, w: World, services: seq<Service>, portmap: set<Port>, auto: bool, ip: string)
    returns (ok: bool, ghost tables: seq<Table>, ghost maps: seq<set<Port>>)
    requires book.Valid() && GoodWorld(w)
    modifies book
    ensures book.Valid() && IsWalk(w, services, auto, ip, tables, maps)
    ensures tables[0] == old(book.table) && maps[0] == portmap
    ensures ok ==> |tables| == |services| + 1 && book.table == tables[|services|]
    ensures !ok ==>
              var k := |tables| - 1;
              k < |services| && StoppedAt(w, services[k], auto, ip, tables[k], maps[k], book.table)
  {
    var left := portmap;
    tables, maps := [book.table], [portmap];
    for i := 0 to |services|
      invariant book.Valid() && IsWalk(w, services, auto, ip, tables, maps) && |tables| == i + 1
      invariant tables[0] == old(book.table) && maps[0] == portmap
      invariant book.table == tables[i] && left == maps[i]
    {
      ghost var selected;
      ghost var t, m := book.table, left;
      var r;
      r, left, selected := book.Visit(w, services[i], left, auto, ip);
      if r.Err? {
        return false, tables, maps;
      }
      assert Step(w, services[i], auto, ip, t, m, book.table, left);
      WalkSnoc(w, services, auto, ip, tables, maps, book.table, left);
      tables, maps := tables + [book.table], maps + [left];
    }
    ok := true;
  }

  lemma {:induction false} WalkSnoc(
    w: World, services: seq<Service>, auto: bool, ip: string, tables: seq<Table>, maps: seq<set<Port>>,
    t: Table, left: set<Port>)
    requires IsWalk(w, services, auto, ip, tables, maps) && |tables| <= |services|
    requires var i := |tables| - 1; Step(w, services[i], auto, ip, tables[i], maps[i], t, left)
    ensures IsWalk(w, services, auto, ip, tables + [t], maps + [left])
  {
    var ts, ms := tables + [t], maps + [left];
    forall i | 0 <= i < |ts| - 1 ensures Step(w, services[i], auto, ip, ts[i], ms[i], ts[i + 1], ms[i + 1]) {
      assert i < |tables| - 1 ==> Step(w, services[i], auto, ip, tables[i], maps[i], tables[i + 1], maps[i + 1]);
    }
  }

  /** `AssignIPs`: the port map comes from the service that was asked for, which is visited last. */
  method AssignIPs(book: AddressBook, w: World, tree: ServiceTree, auto: bool, ip: string)
    returns (ok: bool, ghost tables: seq<Table>, ghost maps: seq<set<Port>>)
    requires book.Valid() && GoodWorld(w)
    modifies book
    ensures book.Valid() && IsWalk(w, PostOrder(tree), auto, ip, tables, maps)
    ensures tables[0] == old(book.table)
    ensures maps[0] == if PortsDistinct(tree.service.endpoints) then ConfigurablePorts(tree.service.endpoints) else {}
    ensures ok ==> |tables| == |PostOrder(tree)| + 1 && book.table == tables[|PostOrder(tree)|]
    ensures !ok ==>
              var k := |tables| - 1;
              && k < |PostOrder(tree)|
              && StoppedAt(w, PostOrder(tree)[k], auto, ip, tables[k], maps[k], book.table)
  {
    var portmap := PortMap(tree.service.endpoints);
    ok, tables, maps := Walk(book, w, PostOrder(tree), portmap, auto, ip);
  }
}
