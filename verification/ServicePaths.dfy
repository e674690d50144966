/**
 The service path cache (facade/servicepath_cache.go): a memo of each service's tenant,
 parent and path, kept beside a store of parent links that other operations rewrite.

 A store maps a service id to its parent id, and a root to the empty string.
 */
module ServicePaths {
  import opened Results
  import opened Sequences
  import opened Paths

  type Id = string
  type Store = map<Id, Id>

  datatype ServicePath = ServicePath(serviceID: Id, tenantID: Id, parentID: Id, servicePath: string)

  type Cache = map<Id, ServicePath>

  datatype LookupError = StoreReadFailed

  // ---------------------------------------------------------------- the reference: walking the parent chain

  /** The services from a root down to `id`, each one the parent of the next. */
  ghost predicate IsChain(s: Store, chain: seq<Id>, id: Id)
    decreases |chain|
  {
    var n := |chain|;
    && n > 0 && chain[n - 1] == id && id in s
    && (if n == 1 then s[id] == "" else s[id] != "" && IsChain(s, chain[..n - 1], s[id]))
  }

  ghost predicate Rooted(s: Store, id: Id) {
    exists chain :: IsChain(s, chain, id)
  }

  /** Every stored service hangs below a root: no cycles and no dangling parents. Ids are plain names. */
  ghost predicate Forest(s: Store) {
    forall id | id in s :: Plain(id) && Rooted(s, id)
  }

  ghost function ChainOf(s: Store, id: Id): (chain: seq<Id>)
    requires Rooted(s, id)
    ensures IsChain(s, chain, id)
  {
    var chain :| IsChain(s, chain, id); chain
  }

  function PathOf(chain: seq<Id>): string {
    "/" + JoinSlash(chain)
  }

  /** What the cache ought to say about the last service of a chain. */
  function EntryOf(chain: seq<Id>): ServicePath
    requires chain != []
  {
    var n := |chain|;
    ServicePath(chain[n - 1], chain[0], if n > 1 then chain[n - 2] else "", PathOf(chain))
  }

  ghost function Entry(s: Store, id: Id): ServicePath
    requires Rooted(s, id)
  {
    EntryOf(ChainOf(s, id))
  }

  ghost predicate ProperAncestor(s: Store, a: Id, b: Id)
    requires Rooted(s, b)
  {
    var chain := ChainOf(s, b);
    a in chain[..|chain| - 1]
  }

  lemma {:induction false} ChainUnique(s: Store, a: seq<Id>, b: seq<Id>, id: Id)
    requires IsChain(s, a, id) && IsChain(s, b, id)
    ensures a == b
    decreases |a|
  {
    if |a| > 1 {
      ChainUnique(s, a[..|a| - 1], b[..|b| - 1], s[id]);
      assert a == a[..|a| - 1] + [id] && b == b[..|b| - 1] + [id];
    }
  }

  lemma {:induction false} ChainPrefix(s: Store, chain: seq<Id>, id: Id, i: nat)
    requires IsChain(s, chain, id) && i < |chain|
    ensures IsChain(s, chain[..i + 1], chain[i])
    decreases |chain|
  {
    var n := |chain|;
    if i == n - 1 {
      assert chain[..i + 1] == chain;
    } else {
      ChainPrefix(s, chain[..n - 1], s[id], i);
      assert chain[..n - 1][..i + 1] == chain[..i + 1];
    }
  }

  /** The chain of any member of a chain is the part of it up to that member. */
  lemma {:induction false} ChainOfMember(s: Store, chain: seq<Id>, id: Id, i: nat)
    requires IsChain(s, chain, id) && i < |chain|
    ensures chain[i] in s && Rooted(s, chain[i]) && ChainOf(s, chain[i]) == chain[..i + 1]
  {
    ChainPrefix(s, chain, id, i);
    ChainUnique(s, ChainOf(s, chain[i]), chain[..i + 1], chain[i]);
  }

  /** A chain that is also a chain of another store gives the same entry there. */
  lemma {:induction false} SameEntry(s: Store, s': Store, id: Id)
    requires Rooted(s, id) && IsChain(s', ChainOf(s, id), id)
    ensures Rooted(s', id) && ChainOf(s', id) == ChainOf(s, id) && Entry(s', id) == Entry(s, id)
  {
    ChainUnique(s', ChainOf(s, id), ChainOf(s', id), id);
  }

  lemma {:induction false} ChainPlain(s: Store, chain: seq<Id>, id: Id)
    requires Forest(s) && IsChain(s, chain, id)
    ensures AllPlain(chain)
  {
    forall i | 0 <= i < |chain| ensures Plain(chain[i]) {
      ChainOfMember(s, chain, id, i);
    }
  }

  // ---------------------------------------------------------------- coherence

  /** Every live entry is what walking the store gives, and the live entries are closed under parents. */
  ghost predicate Coherent(s: Store, paths: Cache)
    requires Forest(s)
  {
    forall k | k in paths && k in s :: paths[k] == Entry(s, k) && (s[k] == "" || s[k] in paths)
  }

  /** All ancestors of a cached live service are cached. */
  lemma {:induction false} AncestorsCached(s: Store, paths: Cache, chain: seq<Id>, id: Id)
    requires Forest(s) && Coherent(s, paths) && id in paths && IsChain(s, chain, id)
    ensures forall k | k in chain :: k in paths
    decreases |chain|
  {
    var n := |chain|;
    if n > 1 {
      AncestorsCached(s, paths, chain[..n - 1], s[id]);
      assert chain == chain[..n - 1] + [id];
    }
  }

  // ---------------------------------------------------------------- lookups

  /** The cache after a lookup that had to walk `chain`. */
  ghost function Filled(s: Store, paths: Cache, chain: seq<Id>): Cache
    requires forall k | k in chain :: Rooted(s, k)
  {
    map k | k in paths.Keys + (set x | x in chain) :: if k in chain then Entry(s, k) else paths[k]
  }

  /** A chain is made of stored services and contains the parents of its members. */
  lemma {:induction false} ChainClosed(s: Store, chain: seq<Id>, id: Id)
    requires IsChain(s, chain, id)
    ensures forall k | k in chain :: k in s && Rooted(s, k) && (s[k] == "" || s[k] in chain)
    decreases |chain|
  {
    var n := |chain|;
    if n > 1 {
      ChainClosed(s, chain[..n - 1], s[id]);
      assert chain == chain[..n - 1] + [id];
    }
  }

  lemma {:induction false} FilledCoherent(s: Store, paths: Cache, chain: seq<Id>, id: Id)
    requires Forest(s) && Coherent(s, paths) && IsChain(s, chain, id)
    ensures (forall k | k in chain :: Rooted(s, k)) && Coherent(s, Filled(s, paths, chain))
  {
    ChainClosed(s, chain, id);
  }

  // ---------------------------------------------------------------- eviction and the store write

  /** The cache after `RemoveIfParentChanged`. */
  function Evict(paths: Cache, id: Id, parent: Id): Cache {
    if id !in paths || paths[id].parentID == parent then paths
    else map k | k in paths && !HasPrefix(paths[k].servicePath, paths[id].servicePath) :: paths[k]
  }

  lemma {:induction false} PathOfParent(chain: seq<Id>)
    requires |chain| > 1
    ensures HasPrefix(PathOf(chain), PathOf(chain[..|chain| - 1]))
  {
    var n := |chain|;
    assert chain == chain[..n - 1] + chain[n - 1..];
    JoinAppend(chain[..n - 1], chain[n - 1..]);
  }

  /** Eviction by raw path prefix keeps coherence, although it may evict too much. */
  lemma {:induction false} EvictCoherent(s: Store, paths: Cache, id: Id, parent: Id)
    requires Forest(s) && Coherent(s, paths)
    ensures Coherent(s, Evict(paths, id, parent))
    ensures id in s ==> id !in Evict(paths, id, parent) || s[id] == parent
  {
    var after := Evict(paths, id, parent);
    if id in paths && paths[id].parentID != parent {
      forall k | k in after && k in s && s[k] != "" ensures s[k] in after {
        ParentPathIsPrefix(s, k);
      }
    }
    if id in s {
      EntryParent(s, id);
    }
  }

  /** An eviction drops nothing if and only if the service is not cached, or its parent is the stored one. */
  lemma {:induction false} EvictsNothingIff(s: Store, paths: Cache, id: Id, parent: Id)
    requires Forest(s) && Coherent(s, paths) && id in s
    ensures Evict(paths, id, parent) == paths <==> id !in paths || s[id] == parent
  {
    EntryParent(s, id);
    if id in paths && s[id] != parent {
      assert id !in Evict(paths, id, parent);
    }
  }

  /** The cached parent of a service is its stored parent. */
  lemma {:induction false} EntryParent(s: Store, id: Id)
    requires Forest(s) && id in s
    ensures Entry(s, id).parentID == s[id]
  {
    var chain := ChainOf(s, id);
    assert |chain| > 1 ==> IsChain(s, chain[..|chain| - 1], s[id]);
  }

  lemma {:induction false} ParentPathIsPrefix(s: Store, k: Id)
    requires Forest(s) && k in s && s[k] != ""
    ensures s[k] in s && HasPrefix(Entry(s, k).servicePath, Entry(s, s[k]).servicePath)
  {
    var chain := ChainOf(s, k);
    var n := |chain|;
    assert IsChain(s, chain[..n - 1], s[k]);
    ChainUnique(s, chain[..n - 1], ChainOf(s, s[k]), s[k]);
    PathOfParent(chain);
  }

  ghost predicate MayAdopt(s: Store, id: Id, parent: Id) {
    id in s && parent in s && Rooted(s, parent) && id !in ChainOf(s, parent)
  }

  /** A chain that avoids the service being moved survives the move. */
  lemma {:induction false} ChainSurvives(s: Store, chain: seq<Id>, k: Id, id: Id, parent: Id)
    requires IsChain(s, chain, k) && id !in chain
    ensures IsChain(s[id := parent], chain, k)
    decreases |chain|
  {
    if |chain| > 1 {
      ChainSurvives(s, chain[..|chain| - 1], s[k], id, parent);
    }
  }

  /** A chain through the service being moved is cut there and continued from the new parent. */
  lemma {:induction false} ChainMoves(s: Store, up: seq<Id>, chain: seq<Id>, k: Id, id: Id, parent: Id)
    requires IsChain(s, chain, k) && id in chain && parent != ""
    requires IsChain(s[id := parent], up, parent)
    ensures Rooted(s[id := parent], k)
    decreases |chain|
  {
    var s' := s[id := parent];
    if k == id {
      assert (up + [k])[..|up|] == up;
      assert IsChain(s', up + [k], k);
    } else {
      var n := |chain|;
      ChainMoves(s, up, chain[..n - 1], s[k], id, parent);
      var above := ChainOf(s', s[k]);
      assert (above + [k])[..|above|] == above;
      assert IsChain(s', above + [k], k);
    }
  }

  /** Moving a service below one that is not among its descendants keeps the store a forest. */
  lemma {:induction false} WriteForest(s: Store, id: Id, parent: Id)
    requires Forest(s) && MayAdopt(s, id, parent)
    ensures Forest(s[id := parent])
  {
    var s' := s[id := parent];
    var up := ChainOf(s, parent);
    ChainSurvives(s, up, parent, id, parent);
    forall k | k in s' ensures Rooted(s', k) {
      var chain := ChainOf(s, k);
      if id in chain {
        ChainMoves(s, up, chain, k, id, parent);
      } else {
        ChainSurvives(s, chain, k, id, parent);
      }
    }
  }

  /** Nothing cached depends on a service that is not cached. */
  lemma {:induction false} WriteUncached(s: Store, paths: Cache, id: Id, parent: Id)
    requires Forest(s) && Coherent(s, paths) && id !in paths && Forest(s[id := parent])
    ensures Coherent(s[id := parent], paths)
  {
    var s' := s[id := parent];
    forall k | k in paths && k in s' ensures paths[k] == Entry(s', k) {
      var chain := ChainOf(s, k);
      AncestorsCached(s, paths, chain, k);
      ChainSurvives(s, chain, k, id, parent);
      SameEntry(s, s', k);
    }
  }

  /**
   The store write of a reparenting keeps the cache coherent exactly when the moved service is
   not cached, or does not really move.
   */
  lemma {:induction false} WriteCoherentIff(s: Store, paths: Cache, id: Id, parent: Id)
    requires Forest(s) && Coherent(s, paths) && MayAdopt(s, id, parent)
    ensures Forest(s[id := parent])
    ensures Coherent(s[id := parent], paths) <==> (id !in paths || s[id] == parent)
  {
    WriteForest(s, id, parent);
    var s' := s[id := parent];
    if id !in paths {
      WriteUncached(s, paths, id, parent);
    } else if s[id] == parent {
      assert s' == s;
    } else {
      EntryParent(s, id);
      EntryParent(s', id);
    }
  }

  // ---------------------------------------------------------------- additions and removals

  lemma {:induction false} AddForest(s: Store, id: Id, parent: Id)
    requires Forest(s) && id !in s && Plain(id) && (parent == "" || parent in s)
    ensures Forest(s[id := parent])
  {
    var s' := s[id := parent];
    forall k | k in s ensures IsChain(s', ChainOf(s, k), k) {
      ChainClosed(s, ChainOf(s, k), k);
      ChainSurvives(s, ChainOf(s, k), k, id, parent);
    }
    if parent == "" {
      assert IsChain(s', [id], id);
    } else {
      var up := ChainOf(s, parent);
      assert (up + [id])[..|up|] == up;
      assert IsChain(s', up + [id], id);
    }
  }

  lemma {:induction false} AddCoherent(s: Store, paths: Cache, id: Id, parent: Id)
    requires Forest(s) && Coherent(s, paths)
    requires id !in s && id !in paths && Plain(id) && (parent == "" || parent in s)
    ensures Forest(s[id := parent]) && Coherent(s[id := parent], paths)
  {
    AddForest(s, id, parent);
    WriteUncached(s, paths, id, parent);
  }

  lemma {:induction false} ChainAvoidsLeaf(s: Store, chain: seq<Id>, k: Id, id: Id)
    requires IsChain(s, chain, k) && k != id && forall x | x in s :: s[x] != id
    ensures IsChain(s - {id}, chain, k)
    decreases |chain|
  {
    if |chain| > 1 {
      ChainAvoidsLeaf(s, chain[..|chain| - 1], s[k], id);
    }
  }

  /** Services are removed children first, so only leaves go; the removed entry may stay behind. */
  lemma {:induction false} DeleteCoherent(s: Store, paths: Cache, id: Id)
    requires Forest(s) && Coherent(s, paths) && forall k | k in s :: s[k] != id
    ensures Forest(s - {id}) && Coherent(s - {id}, paths)
  {
    var s' := s - {id};
    forall k | k in s' ensures Rooted(s', k) && Entry(s', k) == Entry(s, k) {
      ChainAvoidsLeaf(s, ChainOf(s, k), k, id);
      SameEntry(s, s', k);
    }
  }

  // ---------------------------------------------------------------- whole runs

  datatype Event =
    | Lookup(id: Id)
    | Add(id: Id, parent: Id)
    | Eviction(id: Id, parent: Id)
    | Write(id: Id, parent: Id)
    | Delete(id: Id)
    | Reset

  datatype State = State(store: Store, paths: Cache)

  /** One step of the facade; a reparenting is an eviction and, some steps later, a write. */
  ghost predicate Next(a: State, e: Event, b: State)
    requires Forest(a.store)
  {
    match e
    case Lookup(id) =>
      b.store == a.store &&
      (b.paths == a.paths ||
       (id in a.store &&
        (forall k | k in ChainOf(a.store, id) :: Rooted(a.store, k)) &&
        b.paths == Filled(a.store, a.paths, ChainOf(a.store, id))))
    case Add(id, parent) =>
      id !in a.store && id !in a.paths && Plain(id) && (parent == "" || parent in a.store) &&
      b == State(a.store[id := parent], a.paths)
    case Eviction(id, parent) => b == State(a.store, Evict(a.paths, id, parent))
    case Write(id, parent) => MayAdopt(a.store, id, parent) && b == State(a.store[id := parent], a.paths)
    case Delete(id) => (forall k | k in a.store :: a.store[k] != id) && b == State(a.store - {id}, a.paths)
    case Reset => b == State(a.store, map[])
  }

  /** The only step that can hurt: a write that moves a service the cache still knows. */
  predicate WritesCached(a: State, e: Event) {
    e.Write? && e.id in a.paths && e.id in a.store && a.store[e.id] != e.parent
  }

  /** The cache agrees with the store. */
  ghost predicate Agrees(a: State) {
    Forest(a.store) && Coherent(a.store, a.paths)
  }

  lemma {:induction false} StepForest(a: State, e: Event, b: State)
    requires Forest(a.store) && Next(a, e, b)
    ensures Forest(b.store)
  {
    match e
    case Add(id, parent) => AddForest(a.store, id, parent);
    case Write(id, parent) => WriteForest(a.store, id, parent);
    case Delete(id) => DeleteCoherent(a.store, map[], id);
    case _ =>
  }

  lemma {:induction false} StepAgreesIff(a: State, e: Event, b: State)
    requires Agrees(a) && Next(a, e, b)
    ensures Agrees(b) <==> !WritesCached(a, e)
  {
    StepForest(a, e, b);
    match e
    case Lookup(id) => if b.paths != a.paths { FilledCoherent(a.store, a.paths, ChainOf(a.store, id), id); }
    case Add(id, parent) => AddCoherent(a.store, a.paths, id, parent);
    case Eviction(id, parent) => EvictCoherent(a.store, a.paths, id, parent);
    case Write(id, parent) => WriteCoherentIff(a.store, a.paths, id, parent);
    case Delete(id) => DeleteCoherent(a.store, a.paths, id);
    case Reset =>
  }

  ghost predicate Linked(states: seq<State>, events: seq<Event>, i: nat)
    requires i < |events| && |states| == |events| + 1
  {
    Forest(states[i].store) && Next(states[i], events[i], states[i + 1])
  }

  /** A run starts with an empty cache beside any forest. */
  ghost predicate IsRun(states: seq<State>, events: seq<Event>) {
    && |states| == |events| + 1
    && Forest(states[0].store) && states[0].paths == map[]
    && forall i | 0 <= i < |events| :: Linked(states, events, i)
  }

  lemma {:induction false} RunAgrees(states: seq<State>, events: seq<Event>, n: nat)
    requires IsRun(states, events) && n <= |events|
    requires forall i | 0 <= i < n :: !WritesCached(states[i], events[i])
    ensures Agrees(states[n])
  {
    if n > 0 {
      RunAgrees(states, events, n - 1);
      assert Linked(states, events, n - 1);
      StepAgreesIff(states[n - 1], events[n - 1], states[n]);
    }
  }

  /**
   Along every run of the facade the cache agrees with the store in all states if and only if
   no write moves a service that is cached at that moment.
   */
  lemma {:induction false} RunAgreesIff(states: seq<State>, events: seq<Event>)
    requires IsRun(states, events)
    ensures (forall n | 0 <= n < |states| :: Agrees(states[n])) <==>
            (forall i | 0 <= i < |events| :: !WritesCached(states[i], events[i]))
  {
    if forall i | 0 <= i < |events| :: !WritesCached(states[i], events[i]) {
      forall n | 0 <= n < |states| ensures Agrees(states[n]) {
        RunAgrees(states, events, n);
      }
    }
    if forall n | 0 <= n < |states| :: Agrees(states[n]) {
      forall i | 0 <= i < |events| ensures !WritesCached(states[i], events[i]) {
        assert Linked(states, events, i);
        StepAgreesIff(states[i], events[i], states[i + 1]);
      }
    }
  }

  /** A write that directly follows its eviction never moves a cached service. */
  lemma {:induction false} AtomicReparentSafe(a: State, b: State, id: Id, parent: Id)
    requires Agrees(a) && Next(a, Eviction(id, parent), b)
    ensures !WritesCached(b, Write(id, parent))
  {
    EvictCoherent(a.store, a.paths, id, parent);
  }

  /** Every write is directly preceded by the eviction that belongs to it. */
  ghost predicate Atomic(events: seq<Event>) {
    forall i | 0 <= i < |events| && events[i].Write? ::
      i > 0 && events[i - 1] == Eviction(events[i].id, events[i].parent)
  }

  lemma {:induction false} AtomicRunAgreesUpTo(states: seq<State>, events: seq<Event>, n: nat)
    requires IsRun(states, events) && Atomic(events) && n <= |events|
    ensures forall i | 0 <= i < n :: !WritesCached(states[i], events[i])
  {
    if n > 0 {
      AtomicRunAgreesUpTo(states, events, n - 1);
      if events[n - 1].Write? {
        RunAgrees(states, events, n - 2);
        assert Linked(states, events, n - 2);
        AtomicReparentSafe(states[n - 2], states[n - 1], events[n - 1].id, events[n - 1].parent);
      }
    }
  }

  /** If every reparenting evicts and writes in one go, the cache agrees with the store in all states of the run. */
  lemma {:induction false} AtomicRunAgrees(states: seq<State>, events: seq<Event>)
    requires IsRun(states, events) && Atomic(events)
    ensures forall n | 0 <= n < |states| :: Agrees(states[n])
  {
    AtomicRunAgreesUpTo(states, events, |events|);
    RunAgreesIff(states, events);
  }

  // ---------------------------------------------------------------- the descendant test on paths

  lemma {:induction false} LongerPath(chain: seq<Id>, more: seq<Id>)
    requires chain != [] && more != []
    ensures HasPrefix(PathOf(chain + more), PathOf(chain) + "/")
  {
    JoinAppend(chain, more);
    assert PathOf(chain + more) == PathOf(chain) + "/" + JoinSlash(more);
  }

  lemma {:induction false} ShorterPath(ca: seq<Id>, cb: seq<Id>)
    requires ca != [] && cb != [] && AllPlain(ca) && AllPlain(cb) && HasPrefix(PathOf(cb), PathOf(ca) + "/")
    ensures |ca| < |cb| && ca == cb[..|ca|]
  {
    var pa, pb := PathOf(ca), PathOf(cb);
    var rest := pb[|pa| + 1..];
    assert JoinSlash(cb) == JoinSlash(ca) + "/" + rest by {
      assert pb == pa + "/" + rest;
      assert pb[1..] == JoinSlash(cb) && (pa + "/" + rest)[1..] == JoinSlash(ca) + "/" + rest;
    }
    SplitConcat(JoinSlash(ca), rest);
    SplitJoin(ca);
    SplitJoin(cb);
  }

  /** A path extends another one by a slash exactly when its service lies properly below the other. */
  lemma {:induction false} PathTestIsDescent(s: Store, a: Id, b: Id)
    requires Forest(s) && a in s && b in s
    ensures HasPrefix(Entry(s, b).servicePath, Entry(s, a).servicePath + "/") <==> ProperAncestor(s, a, b)
    ensures ProperAncestor(s, a, b) ==> Entry(s, a).tenantID == Entry(s, b).tenantID
  {
    var ca, cb := ChainOf(s, a), ChainOf(s, b);
    ChainPlain(s, ca, a);
    ChainPlain(s, cb, b);
    if ProperAncestor(s, a, b) {
      var i :| 0 <= i < |cb| - 1 && cb[i] == a;
      ChainOfMember(s, cb, b, i);
      LongerPath(ca, cb[i + 1..]);
      assert cb == ca + cb[i + 1..];
    }
    if HasPrefix(PathOf(cb), PathOf(ca) + "/") {
      ShorterPath(ca, cb);
      assert cb[|ca| - 1] == ca[|ca| - 1] == a;
    }
  }

  // ---------------------------------------------------------------- which entries an eviction drops

  /** A service's chain and entry in terms of its parent's. */
  lemma {:induction false} ChainBelow(s: Store, id: Id)
    requires Forest(s) && id in s && s[id] != ""
    ensures s[id] in s && ChainOf(s, id) == ChainOf(s, s[id]) + [id]
    ensures var parent := Entry(s, s[id]);
            Entry(s, id) == ServicePath(id, parent.tenantID, s[id], PathJoin([parent.servicePath, id]))
  {
    var chain := ChainOf(s, id);
    var above := chain[..|chain| - 1];
    assert IsChain(s, above, s[id]);
    ChainUnique(s, above, ChainOf(s, s[id]), s[id]);
    assert chain == above + [id];
    ChainPlain(s, chain, id);
    PathJoinRooted(above, id);
  }

  /** The service is, or lies below, one with the parent of `id` whose own id begins with `id`. */
  ghost predicate Near(s: Store, id: Id, k: Id)
    requires id in s && Rooted(s, k)
  {
    exists x | x in ChainOf(s, k) :: x in s && s[x] == s[id] && HasPrefix(x, id)
  }

  /** The position of a service in a chain is the length of its own chain, less one. */
  lemma {:induction false} SiblingPosition(s: Store, id: Id, k: Id, i: nat)
    requires Forest(s) && id in s && k in s && i < |ChainOf(s, k)|
    ensures var ca, cb := ChainOf(s, id), ChainOf(s, k);
            cb[i] in s && (s[cb[i]] == s[id] <==> i == |ca| - 1 && ca[..i] == cb[..i])
  {
    var ca, cb := ChainOf(s, id), ChainOf(s, k);
    var x := cb[i];
    ChainOfMember(s, cb, k, i);
    if s[id] == "" {
      assert |ca| == 1;
      assert s[x] == "" <==> i == 0;
      assert ca[..0] == cb[..0];
    } else if s[x] == s[id] {
      ChainBelow(s, id);
      ChainBelow(s, x);
      assert ca[..|ca| - 1] == ChainOf(s, s[id]) && cb[..i + 1][..i] == ChainOf(s, s[id]);
      assert cb[..i] == cb[..i + 1][..i];
    } else if i == |ca| - 1 {
      assert cb[..i + 1][..i] == cb[..i];
      assert IsChain(s, ca[..i], s[id]) && IsChain(s, cb[..i], s[x]);
      assert ca[..i][i - 1] == s[id] && cb[..i][i - 1] == s[x];
    }
  }

  lemma {:induction false} PathPrefixIff(s: Store, id: Id, k: Id)
    requires Forest(s) && id in s && k in s
    ensures HasPrefix(Entry(s, k).servicePath, Entry(s, id).servicePath) <==> Near(s, id, k)
  {
    var ca, cb := ChainOf(s, id), ChainOf(s, k);
    var n := |ca|;
    ChainPlain(s, ca, id);
    ChainPlain(s, cb, k);
    RootedPrefix(JoinSlash(ca), JoinSlash(cb));
    JoinPrefixIff(ca, cb);
    if JoinSlash(ca) <= JoinSlash(cb) {
      SiblingPosition(s, id, k, n - 1);
      assert cb[n - 1] in cb;
    }
    if Near(s, id, k) {
      var x :| x in cb && x in s && s[x] == s[id] && HasPrefix(x, id);
      var i :| 0 <= i < |cb| && cb[i] == x;
      SiblingPosition(s, id, k, i);
    }
  }

  lemma {:induction false} RootedPrefix(a: string, b: string)
    ensures "/" + a <= "/" + b <==> a <= b
  {
    assert ("/" + a)[1..] == a && ("/" + b)[1..] == b;
    if "/" + a <= "/" + b {
      assert a == ("/" + b)[1..|a| + 1];
    }
  }

  /** The live entries that an eviction drops: everything near the service, itself and its descendants included. */
  lemma {:induction false} EvictedIff(s: Store, paths: Cache, id: Id, parent: Id, k: Id)
    requires Forest(s) && Coherent(s, paths) && id in s && id in paths && s[id] != parent
    requires k in s && k in paths
    ensures k !in Evict(paths, id, parent) <==> Near(s, id, k)
  {
    EntryParent(s, id);
    PathPrefixIff(s, id, k);
  }

  /** What eviction is meant to drop. */
  ghost predicate IsOrBelow(s: Store, id: Id, k: Id)
    requires Rooted(s, k)
  {
    id in ChainOf(s, k)
  }

  /**
   An eviction drops only the service and its descendants if and only if no cached sibling has an
   id that begins with the id of the service.
   */
  lemma {:induction false} EvictsOnlyDescendantsIff(s: Store, paths: Cache, id: Id, parent: Id)
    requires Forest(s) && Coherent(s, paths) && id in s && id in paths && s[id] != parent
    ensures (forall k | k in s && k in paths :: k !in Evict(paths, id, parent) <==> IsOrBelow(s, id, k)) <==>
            (forall x | x in s && x in paths && x != id && s[x] == s[id] :: !HasPrefix(x, id))
  {
    if forall x | x in s && x in paths && x != id && s[x] == s[id] :: !HasPrefix(x, id) {
      forall k | k in s && k in paths ensures k !in Evict(paths, id, parent) <==> IsOrBelow(s, id, k) {
        EvictedIff(s, paths, id, parent, k);
        AncestorsCached(s, paths, ChainOf(s, k), k);
        assert IsOrBelow(s, id, k) ==> Near(s, id, k);
      }
    } else {
      var x :| x in s && x in paths && x != id && s[x] == s[id] && HasPrefix(x, id);
      var chain := ChainOf(s, x);
      EvictedIff(s, paths, id, parent, x);
      assert chain[|chain| - 1] == x && x in chain;
      if IsOrBelow(s, id, x) {
        var i :| 0 <= i < |chain| && chain[i] == id;
        SiblingPosition(s, id, x, i);
        SiblingPosition(s, id, x, |chain| - 1);
      }
    }
  }

  // ---------------------------------------------------------------- a lookup between eviction and write

  /** A root "a" with two children. */
  const SIBLINGS: Store := map["a" := "", "b" := "a", "c" := "a"]

  lemma {:induction false} SiblingsForest()
    ensures Forest(SIBLINGS) && MayAdopt(SIBLINGS, "c", "b")
  {
    var s := SIBLINGS;
    assert ["a", "b"][..1] == ["a"] && ["a", "c"][..1] == ["a"];
    assert IsChain(s, ["a"], "a");
    assert IsChain(s, ["a", "b"], "b");
    assert IsChain(s, ["a", "c"], "c");
    ChainUnique(s, ChainOf(s, "b"), ["a", "b"], "b");
  }

  lemma {:induction false} RunOfThree(a: State, b: State, c: State, d: State, e: Event, f: Event, g: Event)
    requires Forest(a.store) && a.paths == map[] && Next(a, e, b)
    requires Forest(b.store) && Next(b, f, c) && Forest(c.store) && Next(c, g, d)
    ensures IsRun([a, b, c, d], [e, f, g])
  {
    var states, events := [a, b, c, d], [e, f, g];
    assert Linked(states, events, 0) && Linked(states, events, 1) && Linked(states, events, 2);
  }

  /** The facade evicts before it writes; a lookup that falls in between leaves a stale entry behind. */
  lemma {:induction false} LookupBetweenEvictionAndWriteIsStale() returns (states: seq<State>)
    ensures IsRun(states, [Eviction("c", "b"), Lookup("c"), Write("c", "b")]) && !Agrees(states[3])
  {
    SiblingsForest();
    var chain := ChainOf(SIBLINGS, "c");
    FilledCoherent(SIBLINGS, map[], chain, "c");
    var empty, filled := State(SIBLINGS, map[]), State(SIBLINGS, Filled(SIBLINGS, map[], chain));
    var after := State(SIBLINGS["c" := "b"], filled.paths);
    StepAgreesIff(filled, Write("c", "b"), after);
    RunOfThree(empty, empty, filled, after, Eviction("c", "b"), Lookup("c"), Write("c", "b"));
    states := [empty, empty, filled, after];
  }

  /** Eviction by raw prefix also drops services that merely share the first characters of an id. */
  lemma {:induction false} EvictionDropsUnrelated()
    ensures exists s: Store, paths: Cache ::
              Forest(s) && Coherent(s, paths) && "ab" in paths && "ab" !in Evict(paths, "a", "r") &&
              "ab" in s && Rooted(s, "ab") && !ProperAncestor(s, "a", "ab")
  {
    var s: Store := map["a" := "", "ab" := "", "r" := ""];
    RootsForest(s);
    var paths := map["a" := Entry(s, "a"), "ab" := Entry(s, "ab")];
    assert Coherent(s, paths);
  }

  /** Services without parents. */
  lemma {:induction false} RootsForest(s: Store)
    requires forall k | k in s :: Plain(k) && s[k] == ""
    ensures Forest(s) && forall k | k in s :: ChainOf(s, k) == [k]
  {
    forall k | k in s ensures Rooted(s, k) && ChainOf(s, k) == [k] {
      assert IsChain(s, [k], k);
      ChainUnique(s, ChainOf(s, k), [k], k);
    }
  }

  // ---------------------------------------------------------------- the cache object

  /** The entries `news`, together with what is cached, give the right entry for the whole chain. */
  ghost predicate Covers(s: Store, paths: Cache, chain: seq<Id>, news: seq<ServicePath>) {
    && (forall e | e in news ::
          e.serviceID in chain && e.serviceID in s && Rooted(s, e.serviceID) && e == Entry(s, e.serviceID))
    && (forall k | k in chain :: k in paths || exists e | e in news :: e.serviceID == k)
  }

  /** The cache after storing the new entries one by one. */
  function Inserted(paths: Cache, news: seq<ServicePath>): Cache {
    if news == [] then paths
    else
      var last := news[|news| - 1];
      Inserted(paths, news[..|news| - 1])[last.serviceID := last]
  }

  lemma {:induction false} InsertedAt(paths: Cache, news: seq<ServicePath>, k: Id)
    ensures k in Inserted(paths, news) <==> k in paths || exists e | e in news :: e.serviceID == k
    ensures k in Inserted(paths, news) ==>
              var e := Inserted(paths, news)[k]; (e in news && e.serviceID == k) || (k in paths && e == paths[k])
  {
    if news != [] {
      var n := |news|;
      InsertedAt(paths, news[..n - 1], k);
      assert news == news[..n - 1] + [news[n - 1]];
    }
  }

  lemma {:induction false} InsertedIsFilled(s: Store, paths: Cache, chain: seq<Id>, id: Id, news: seq<ServicePath>)
    requires Forest(s) && Coherent(s, paths) && IsChain(s, chain, id) && Covers(s, paths, chain, news)
    ensures (forall k | k in chain :: Rooted(s, k)) && Inserted(paths, news) == Filled(s, paths, chain)
  {
    ChainClosed(s, chain, id);
    var a, b := Inserted(paths, news), Filled(s, paths, chain);
    forall k ensures k in a <==> k in b {
      InsertedAt(paths, news, k);
    }
    forall k | k in a ensures a[k] == b[k] {
      InsertedAt(paths, news, k);
    }
  }

  class ServiceCache {
    var paths: Cache

    constructor ()
      ensures paths == map[]
    {
      paths := map[];
    }

    /** The walk to the nearest cached ancestor; `down` holds the services whose store read fails. */
    method BuildServicePath(id: Id, svcPaths: seq<ServicePath>, store: Store, down: set<Id>)
      returns (r: Result<ServicePath, LookupError>, news: seq<ServicePath>)
      requires Forest(store) && Coherent(store, paths)
      ensures r.Ok? ==> id in store && r.value == Entry(store, id)
      ensures r.Ok? ==> svcPaths <= news && Covers(store, paths, ChainOf(store, id), news[|svcPaths|..])
      ensures r.Err? ==> id !in store || exists k | k in ChainOf(store, id) :: k in down
      decreases if id in store then |ChainOf(store, id)| else 0
    {
      news := svcPaths;
      if id !in store || id in down {
        return Err(StoreReadFailed), news;
      }
      var parentID := store[id];
      if parentID == "" {
        r := Ok(ServicePath(id, id, "", "/" + id));
        news := news + [r.value];
        assert news[|svcPaths|..] == [r.value];
        assert ChainOf(store, id) == [id];
        return;
      }

      ChainBelow(store, id);
      ghost var above := ChainOf(store, parentID);
      var parent: ServicePath;
      if parentID in paths {
        parent := paths[parentID];
        AncestorsCached(store, paths, above, parentID);
      } else {
        var p;
        p, news := BuildServicePath(parentID, news, store, down);
        if p.Err? {
          return p, news;
        }
        parent := p.value;
      }
      r := Ok(ServicePath(id, parent.tenantID, parentID, PathJoin([parent.servicePath, id])));
      TailSnoc(news, |svcPaths|, r.value);
      news := news + [r.value];
    }

    method UpdateCache(id: Id, store: Store, down: set<Id>) returns (r: Result<ServicePath, LookupError>)
      requires Forest(store) && Coherent(store, paths)
      modifies this
      ensures r.Ok? ==> id in store && r.value == Entry(store, id)
      ensures r.Ok? ==> (forall k | k in ChainOf(store, id) :: Rooted(store, k))
                        && paths == Filled(store, old(paths), ChainOf(store, id))
      ensures r.Err? ==> paths == old(paths) && (id !in store || exists k | k in ChainOf(store, id) :: k in down)
    {
      var news;
      r, news := BuildServicePath(id, [], store, down);
      if r.Err? {
        return;
      }
      for i := 0 to |news|
        invariant paths == Inserted(old(paths), news[..i])
      {
        paths := paths[news[i].serviceID := news[i]];
        assert news[..i + 1][..i] == news[..i];
      }
      assert news[0..] == news == news[..|news|];
      InsertedIsFilled(store, old(paths), ChainOf(store, id), id, news);
    }

    /** A lookup by service id: from the cache when it is there, otherwise by walking the store. */
    method Get(id: Id, store: Store, down: set<Id>) returns (r: Result<ServicePath, LookupError>)
      requires Forest(store) && Coherent(store, paths)
      modifies this
      ensures Next(State(store, old(paths)), Lookup(id), State(store, paths)) && Coherent(store, paths)
      ensures id in store && r.Ok? ==> r.value == Entry(store, id) && forall k | k in ChainOf(store, id) :: k in paths
      ensures r.Err? ==> paths == old(paths) && (id !in store || exists k | k in ChainOf(store, id) :: k in down)
    {
      if id in paths {
        if id in store {
          AncestorsCached(store, paths, ChainOf(store, id), id);
        }
        return Ok(paths[id]);
      }
      r := UpdateCache(id, store, down);
      if r.Ok? {
        FilledCoherent(store, old(paths), ChainOf(store, id), id);
      }
    }

    method GetTenantID(id: Id, store: Store, down: set<Id>) returns (r: Result<Id, LookupError>)
      requires Forest(store) && Coherent(store, paths)
      modifies this
      ensures Next(State(store, old(paths)), Lookup(id), State(store, paths)) && Coherent(store, paths)
      ensures id in store && r.Ok? ==> r.value == ChainOf(store, id)[0]
      ensures r.Err? ==> paths == old(paths) && (id !in store || exists k | k in ChainOf(store, id) :: k in down)
    {
      var entry :- Get(id, store, down);
      r := Ok(entry.tenantID);
    }

    method GetServicePath(id: Id, store: Store, down: set<Id>) returns (r: Result<(Id, string), LookupError>)
      requires Forest(store) && Coherent(store, paths)
      modifies this
      ensures Next(State(store, old(paths)), Lookup(id), State(store, paths)) && Coherent(store, paths)
      ensures id in store && r.Ok? ==> r.value == (ChainOf(store, id)[0], PathOf(ChainOf(store, id)))
      ensures r.Err? ==> paths == old(paths) && (id !in store || exists k | k in ChainOf(store, id) :: k in down)
    {
      var entry :- Get(id, store, down);
      r := Ok((entry.tenantID, entry.servicePath));
    }

    /** The eviction loop, in whatever order the map is traversed. */
    method RemoveIfParentChanged(id: Id, parent: Id) returns (removed: bool)
      modifies this
      ensures paths == Evict(old(paths), id, parent)
      ensures removed <==> id in old(paths) && old(paths)[id].parentID != parent
    {
      if id !in paths || paths[id].parentID == parent {
        return false;
      }
      var prefix := paths[id].servicePath;
      var keys := paths.Keys;
      while keys != {}
        invariant keys <= old(paths).Keys
        invariant forall k | k in paths :: k in old(paths) && paths[k] == old(paths)[k]
        invariant forall k | k in keys :: k in paths
        invariant forall k | k in old(paths) && k !in keys ::
                    k in paths <==> !HasPrefix(old(paths)[k].servicePath, prefix)
        decreases keys
      {
        var key :| key in keys;
        keys := keys - {key};
        if HasPrefix(paths[key].servicePath, prefix) {
          paths := paths - {key};
        }
      }
      removed := true;
    }

    method ResetCache()
      modifies this
      ensures paths == map[]
    {
      paths := map[];
    }
  }
}
