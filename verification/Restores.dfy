/**
 The run of `restoreV1` (dfs/restore.go): a loader is started for each stream found in the
 archive, fed, closed and waited for, on every way out of the function.
 */
module Restores {
  import opened Results
  import opened Paths
  import opened Archives

  /** A loading goroutine: what was written to its pipe, how often it was closed and its result received. */
  datatype Loader = Loader(key: string, received: seq<Entry>, closed: nat, collected: nat) {
    predicate Running() { closed == 0 && collected == 0 }
    predicate Finished() { closed == 1 && collected == 1 }
  }

  datatype Registration = Registration(tenant: string, snapLabel: string)

  /** A loader was waited for, after its pipe was closed properly or with an error, and what was registered then. */
  datatype Event = Waited(key: string, aborted: bool, registered: Option<Registration>)

  datatype WriteFate = Written | PipeClosed | Broken

  /** What the outside world does: failing reads, pipes and loaders. */
  datatype World = World(
    readable: nat -> bool,
    write: nat -> WriteFate,
    loads: string -> bool,
    registers: string -> bool)

  datatype RestoreError = ReadFailed | WriteFailed | ImagesFailed | SnapshotFailed | RegisterFailed | NeverHappens

  // ---------------------------------------------------------------- the stream map as a function of the entries

  /** The key under which the stream of a new loader is filed. */
  function FiledUnder(route: Route): string
    requires !route.Ignored?
  {
    if route.ToSnapshot? then route.key else DOCKER_IMAGES_FILE
  }

  function KeysNext(keys: set<string>, route: Route): set<string> {
    if route.Ignored? || route.key in keys then keys else keys + {FiledUnder(route)}
  }

  /** An archive entry with its route worked out. */
  datatype Item = Item(route: Route, data: string)

  function Items(archive: seq<Entry>): (items: seq<Item>)
    ensures |items| == |archive|
  {
    seq(|archive|, i requires 0 <= i < |archive| => Item(RouteOf(archive[i].name), archive[i].data))
  }

  /** The keys of the stream map after the first `n` items. */
  function KeysAfter(items: seq<Item>, n: nat): set<string>
    requires n <= |items|
  {
    if n == 0 then {} else KeysNext(KeysAfter(items, n - 1), items[n - 1].route)
  }

  /** The entry makes a new loader where one is already filed. */
  predicate Clobbers(keys: set<string>, route: Route) {
    !route.Ignored? && route.key !in keys && FiledUnder(route) in keys
  }

  predicate ClobbersAt(items: seq<Item>, i: nat)
    requires i < |items|
  {
    Clobbers(KeysAfter(items, i), items[i].route)
  }

  /** An image entry that is looked up under one key and filed under another. */
  predicate Misfiled(route: Route) {
    route.ToImages? && route.key != DOCKER_IMAGES_FILE
  }

  /** If all image entries lie below the images prefix, no stream is ever clobbered. */
  lemma {:induction false} ProperImagesNeverClobber(items: seq<Item>)
    requires forall i | 0 <= i < |items| :: !Misfiled(items[i].route)
    ensures forall i | 0 <= i < |items| :: !ClobbersAt(items, i)
  {}

  /** Another directory whose name begins like the images': its first entry opens a loader where theirs is filed. */
  lemma {:induction false} SecondDirectoryClobbers(dir: string, a: Entry, b: Entry, x: string, y: string)
    requires SlashFree(dir) && HasPrefix(dir, DOCKER_IMAGES_FILE) && dir != DOCKER_IMAGES_FILE
    requires SlashFree(x) && SlashFree(y) && a.name == DOCKER_IMAGES_FILE + "/" + x && b.name == dir + "/" + y
    ensures ClobbersAt(Items([a, b]), 1)
  {
    ImagesFileSlashFree();
    RouteBelowImages(DOCKER_IMAGES_FILE, x);
    RouteBelowImages(dir, y);
    var items := Items([a, b]);
    assert items[0].route == ToImages(DOCKER_IMAGES_FILE, x) && items[1].route == ToImages(dir, y);
    assert KeysAfter(items, 0) == {} && KeysAfter(items, 1) == {DOCKER_IMAGES_FILE};
  }

  lemma {:induction false} ImagesFileSlashFree()
    ensures SlashFree(DOCKER_IMAGES_FILE)
  {}

  /** Such an archive. */
  lemma {:induction false} SecondImagesDirectoryClobbers(a: Entry, b: Entry)
    requires a.name == "IMAGES.dkr/a" && b.name == "IMAGES.dkr2/x"
    ensures ClobbersAt(Items([a, b]), 1)
  {
    assert "IMAGES.dkr/a" == DOCKER_IMAGES_FILE + "/" + "a" && "IMAGES.dkr2/x" == "IMAGES.dkr2" + "/" + "x";
    SecondDirectoryClobbers("IMAGES.dkr2", a, b, "a", "x");
  }

  lemma {:induction false} RouteBelowImages(dir: string, name: string)
    requires SlashFree(dir) && SlashFree(name) && HasPrefix(dir, DOCKER_IMAGES_FILE)
    ensures RouteOf(dir + "/" + name) == ToImages(dir, name)
  {
    SplitCons(dir, name);
    SplitSlashFree(name);
    var full := dir + "/" + name;
    assert full[0] == dir[0] == 'I';
    assert HasPrefix(full, DOCKER_IMAGES_FILE);
  }

  /** What the first `n` items hold for a loader. */
  function ItemsFor(items: seq<Item>, n: nat, key: string): seq<Entry>
    requires n <= |items|
  {
    if n == 0 then [] else ItemsFor(items, n - 1, key) + PartFor(items[n - 1], key)
  }

  function PartFor(item: Item, key: string): seq<Entry> {
    if !item.route.Ignored? && item.route.key == key then [Entry(item.route.name, item.data)] else []
  }

  lemma {:induction false} DeliveredSnoc(archive: seq<Entry>, i: nat, key: string)
    requires i < |archive|
    ensures Delivered(archive[..i + 1], key) ==
            Delivered(archive[..i], key) + PartFor(Item(RouteOf(archive[i].name), archive[i].data), key)
  {
    var last := [archive[i]];
    assert archive[..i + 1] == archive[..i] + last;
    DeliveredConcat(archive[..i], last, key);
    assert last[1..] == [];
    var route := RouteOf(archive[i].name);
    if !route.Ignored? {
      assert [Entry(route.name, archive[i].data)] + [] == [Entry(route.name, archive[i].data)];
    }
  }

  lemma {:induction false} DeliveredNext(archive: seq<Entry>, i: nat, key: string)
    requires i < |archive|
    ensures Delivered(archive[..i + 1], key) == Delivered(archive[..i], key) + PartFor(Items(archive)[i], key)
  {
    DeliveredSnoc(archive, i, key);
  }

  /** Anything that grows item by item as the streams do is what the streams hold. */
  lemma {:induction false} GrowsByItems(items: seq<Item>, n: nat, key: string, held: nat -> seq<Entry>)
    requires n <= |items| && held(0) == []
    requires forall i | 0 <= i < n :: held(i + 1) == held(i) + PartFor(items[i], key)
    ensures ItemsFor(items, n, key) == held(n)
  {
    if n > 0 {
      GrowsByItems(items, n - 1, key, held);
      assert held(n - 1 + 1) == held(n - 1) + PartFor(items[n - 1], key);
    }
  }

  /** Feeding the streams item by item gives each one what the archive holds for it. */
  lemma {:induction false} ItemsForIsDelivered(archive: seq<Entry>, n: nat, key: string)
    requires n <= |archive|
    ensures ItemsFor(Items(archive), n, key) == Delivered(archive[..n], key)
  {
    var held := (i: nat) => if i <= |archive| then Delivered(archive[..i], key) else [];
    forall i | 0 <= i < n ensures held(i + 1) == held(i) + PartFor(Items(archive)[i], key) {
      DeliveredNext(archive, i, key);
    }
    GrowsByItems(Items(archive), n, key, held);
  }

  /** The entry could not be read, or not be written to its loader; a snapshot loader may close its pipe early. */
  predicate Fails(item: Item, readable: bool, fate: WriteFate) {
    !readable || (item.route.ToSnapshot? && fate.Broken?) || (item.route.ToImages? && !fate.Written?)
  }

  ghost predicate NoneFails(items: seq<Item>, w: World, n: nat)
    requires n <= |items|
  {
    forall j | 0 <= j < n :: !Fails(items[j], w.readable(j), w.write(j))
  }

  /** How many items are handled, from `i` on: up to one that cannot be read, or through one that cannot be written. */
  function Reach(items: seq<Item>, w: World, i: nat): (n: nat)
    requires i <= |items|
    ensures i <= n <= |items|
    decreases |items| - i
  {
    if i == |items| || !w.readable(i) then i
    else if Fails(items[i], true, w.write(i)) then i + 1
    else Reach(items, w, i + 1)
  }

  /** Whether all items from `i` on can be read and written. */
  predicate Completes(items: seq<Item>, w: World, i: nat)
    requires i <= |items|
    decreases |items| - i
  {
    i == |items| || (w.readable(i) && !Fails(items[i], true, w.write(i)) && Completes(items, w, i + 1))
  }

  lemma {:induction false} CompletesIff(items: seq<Item>, w: World, i: nat)
    requires i <= |items|
    ensures Completes(items, w, i) <==> forall j | i <= j < |items| :: !Fails(items[j], w.readable(j), w.write(j))
    decreases |items| - i
  {
    if i < |items| {
      CompletesIff(items, w, i + 1);
      assert Fails(items[i], w.readable(i), w.write(i)) <==> !w.readable(i) || Fails(items[i], true, w.write(i));
    }
  }

  /** The number handled is determined by the first failure. */
  lemma {:induction false} ReachIsFirstFailure(items: seq<Item>, w: World, i: nat)
    requires i <= |items|
    ensures var n := Reach(items, w, i);
            && (forall j | i <= j < n - 1 :: !Fails(items[j], w.readable(j), w.write(j)))
            && (forall j | i <= j < n :: w.readable(j))
            && (n < |items| ==> !w.readable(n) || (i < n && Fails(items[n - 1], true, w.write(n - 1))))
    decreases |items| - i
  {
    if i < |items| && w.readable(i) && !Fails(items[i], true, w.write(i)) {
      ReachIsFirstFailure(items, w, i + 1);
    }
  }

  /** The entry is looked up or filed under the key. */
  predicate Concerns(route: Route, key: string) {
    !route.Ignored? && (route.key == key || FiledUnder(route) == key)
  }

  /** All entries that concern a loader were written to it; what became of other pipes does not matter. */
  ghost predicate Served(items: seq<Item>, w: World, n: nat, key: string)
    requires n <= |items|
  {
    forall j | 0 <= j < n && Concerns(items[j].route, key) :: w.write(j).Written? && !Misfiled(items[j].route)
  }

  // ---------------------------------------------------------------- what is registered

  /** The image loader's result is never received after a snapshot was registered. */
  ghost predicate ImagesFirst(log: seq<Event>) {
    forall j, k | 0 <= k < j < |log| && log[k].registered.Some? :: log[j].key != DOCKER_IMAGES_FILE
  }

  ghost predicate NoneRegistered(log: seq<Event>) {
    log == [] || (log[|log| - 1].registered.None? && NoneRegistered(log[..|log| - 1]))
  }

  ghost predicate NoneAborted(log: seq<Event>) {
    log == [] || (!log[|log| - 1].aborted && NoneAborted(log[..|log| - 1]))
  }

  ghost predicate AllAborted(log: seq<Event>) {
    log == [] || (log[|log| - 1].aborted && AllAborted(log[..|log| - 1]))
  }

  /** What these three say of each event. */
  lemma {:induction false} EachEvent(log: seq<Event>, i: nat)
    requires i < |log|
    ensures NoneRegistered(log) ==> log[i].registered.None?
    ensures NoneAborted(log) ==> !log[i].aborted
    ensures AllAborted(log) ==> log[i].aborted
    decreases |log|
  {
    var n := |log| - 1;
    if i < n {
      EachEvent(log[..n], i);
    }
  }

  lemma {:induction false} OneMoreEvent(log: seq<Event>, e: Event)
    ensures NoneRegistered(log + [e]) <==> NoneRegistered(log) && e.registered.None?
    ensures NoneAborted(log + [e]) <==> NoneAborted(log) && !e.aborted
    ensures AllAborted(log + [e]) <==> AllAborted(log) && e.aborted
  {
    assert (log + [e])[..|log|] == log;
  }

  /** If no loader was aborted each finished one was closed properly, and none was if all were aborted. */
  lemma {:induction false} ClosedAsLogged(log: seq<Event>, finished: seq<Loader>, l: Loader)
    requires Matches(log, finished) && l in finished
    ensures NoneAborted(log) ==> ClosedProperly(log, l.key)
    ensures AllAborted(log) ==> !ClosedProperly(log, l.key)
  {
    var i :| 0 <= i < |finished| && finished[i] == l;
    EachEvent(log, i);
    forall j | 0 <= j < |log| ensures AllAborted(log) ==> log[j].aborted {
      EachEvent(log, j);
    }
  }

  /** The stream was loaded, and a snapshot's images were registered too. */
  ghost predicate Restored(w: World, key: string) {
    w.loads(key) && (key == DOCKER_IMAGES_FILE || (|Split(key)| == 3 && w.registers(key)))
  }

  /** A key whose images can be registered, because it names a tenant and a label, or needs not be. */
  predicate Registrable(key: string) {
    key == DOCKER_IMAGES_FILE || |Split(key)| == 3
  }

  /** What is to be registered for a key: its tenant and label, if the snapshot is accepted. */
  ghost function DueFor(w: World, key: string): Option<Registration> {
    if key != DOCKER_IMAGES_FILE && Restored(w, key) then Some(Registration(Split(key)[1], Split(key)[2])) else None
  }

  /** After each loader exactly that was registered which was due; after an aborted one, nothing. */
  ghost predicate Logged(w: World, log: seq<Event>) {
    forall i | 0 <= i < |log| :: log[i].registered == if log[i].aborted then None else DueFor(w, log[i].key)
  }

  /** A tenant and a label were registered. */
  ghost predicate IsRegistered(log: seq<Event>, tenant: string, snapLabel: string) {
    exists i | 0 <= i < |log| :: log[i].registered == Some(Registration(tenant, snapLabel))
  }

  /** The loader with this key was closed properly and waited for. */
  ghost predicate ClosedProperly(log: seq<Event>, key: string) {
    exists i | 0 <= i < |log| :: log[i].key == key && !log[i].aborted
  }

  /** The log is about the finished loaders, in order. */
  ghost predicate Matches(log: seq<Event>, finished: seq<Loader>) {
    |log| == |finished| && forall i | 0 <= i < |log| :: log[i].key == finished[i].key
  }

  /** The log so far, event by event: what `ImagesFirst`, `Logged` and `Matches` say of it. */
  ghost predicate Sound(w: World, log: seq<Event>, finished: seq<Loader>)
    decreases |log|
  {
    && |log| == |finished|
    && (log == [] ||
        var n := |log| - 1;
        && Sound(w, log[..n], finished[..n])
        && log[n].key == finished[n].key
        && log[n].registered == (if log[n].aborted then None else DueFor(w, log[n].key))
        && (log[n].key == DOCKER_IMAGES_FILE ==> NoneRegistered(log[..n])))
  }

  lemma {:induction false} SoundMeans(w: World, log: seq<Event>, finished: seq<Loader>)
    requires Sound(w, log, finished)
    ensures ImagesFirst(log) && Logged(w, log) && Matches(log, finished)
    decreases |log|
  {
    if log != [] {
      var n := |log| - 1;
      SoundMeans(w, log[..n], finished[..n]);
      forall k | 0 <= k < n ensures NoneRegistered(log[..n]) ==> log[k].registered.None? {
        EachEvent(log[..n], k);
      }
      assert forall i | 0 <= i < n :: log[i] == log[..n][i] && finished[i] == finished[..n][i];
    }
  }

  lemma {:induction false} SoundSnoc(w: World, log: seq<Event>, finished: seq<Loader>, e: Event)
    requires |finished| == |log| + 1 && Sound(w, log, finished[..|log|]) && finished[|log|].key == e.key
    requires e.registered == if e.aborted then None else DueFor(w, e.key)
    requires e.key == DOCKER_IMAGES_FILE ==> NoneRegistered(log)
    ensures Sound(w, log + [e], finished)
  {
    assert (log + [e])[..|log|] == log;
  }

  /** Keys of three parts that agree in two of them agree. */
  lemma {:induction false} SameSnapshot(a: string, b: string)
    requires SnapshotKey(a) && SnapshotKey(b) && |Split(a)| == |Split(b)| == 3
    requires Split(a)[1] == Split(b)[1] && Split(a)[2] == Split(b)[2]
    ensures a == b
  {
    JoinSplit(a);
    JoinSplit(b);
    assert Split(a) == [SNAPSHOTS, Split(a)[1], Split(a)[2]] == Split(b);
  }

  /**
   A plain tenant and label are registered if and only if their snapshot's loader was closed
   properly, and loaded, and accepted for registration.
   */
  lemma {:induction false} RegisteredIff(w: World, log: seq<Event>, tenant: string, snapLabel: string)
    requires Logged(w, log) && Plain(tenant) && Plain(snapLabel) && forall i | 0 <= i < |log| :: SnapshotKey(log[i].key)
    ensures var key := SnapshotId(tenant, snapLabel);
            IsRegistered(log, tenant, snapLabel) <==> ClosedProperly(log, key) && w.loads(key) && w.registers(key)
  {
    var key := SnapshotId(tenant, snapLabel);
    PlainKey(tenant, snapLabel);
    if IsRegistered(log, tenant, snapLabel) {
      var i :| 0 <= i < |log| && log[i].registered == Some(Registration(tenant, snapLabel));
      SameSnapshot(log[i].key, key);
    }
    if ClosedProperly(log, key) && w.loads(key) && w.registers(key) {
      var i :| 0 <= i < |log| && log[i].key == key && !log[i].aborted;
      assert log[i].registered == Some(Registration(tenant, snapLabel));
    }
  }

  lemma {:induction false} PlainKey(tenant: string, snapLabel: string)
    requires Plain(tenant) && Plain(snapLabel)
    ensures var key := SnapshotId(tenant, snapLabel);
            key != DOCKER_IMAGES_FILE && SnapshotKey(key) && Split(key) == [SNAPSHOTS, tenant, snapLabel]
  {
    SnapshotIdShape(tenant, snapLabel);
    SplitJoin(SnapshotBase(tenant, snapLabel));
    IdsDiffer(Snapshot(tenant, snapLabel, []), Snapshot(tenant, snapLabel, []));
  }

  /** No two events register the same snapshot. */
  lemma {:induction false} RegisteredOnce(w: World, log: seq<Event>, finished: seq<Loader>, i: nat, j: nat)
    requires Logged(w, log) && Matches(log, finished) && forall k | 0 <= k < |log| :: SnapshotKey(log[k].key)
    requires forall k, m | 0 <= k < m < |finished| :: finished[k].key != finished[m].key
    requires i < j < |log| && log[i].registered.Some?
    ensures log[i].registered != log[j].registered
  {
    assert finished[i].key != finished[j].key;
    if log[i].registered == log[j].registered {
      SameSnapshot(log[i].key, log[j].key);
    }
  }

  lemma {:induction false} KeysShape(archive: seq<Entry>, n: nat, key: string)
    requires n <= |archive| && key in KeysAfter(Items(archive), n)
    ensures SnapshotKey(key)
  {
    if key in KeysAfter(Items(archive), n - 1) {
      KeysShape(archive, n - 1, key);
    } else if RouteOf(archive[n - 1].name).ToSnapshot? {
      RouteKey(archive[n - 1].name);
    } else {
      ImagesKey();
    }
  }

  lemma {:induction false} ImagesKey()
    ensures SnapshotKey(DOCKER_IMAGES_FILE)
  {
    ImagesFileSlashFree();
    SplitSlashFree(DOCKER_IMAGES_FILE);
  }

  // ---------------------------------------------------------------- loaders and their pipes

  /** The filed loaders, those closed and waited for, and those whose filing was overwritten. */
  datatype Pipes = Pipes(streams: map<string, Loader>, finished: seq<Loader>, lost: seq<Loader>, created: nat) {

    /** Every loader ever started is filed and running, or finished, or lost and still running. */
    ghost predicate Valid() {
      && (forall k | k in streams :: streams[k].key == k && streams[k].Running())
      && (forall i | 0 <= i < |finished| :: finished[i].Finished())
      && (forall i | 0 <= i < |lost| :: lost[i].Running())
      && created == |streams| + |finished| + |lost|
    }

    /** What has been written to the stream that is filed under the key, if there is one. */
    ghost function Received(key: string): seq<Entry> {
      if key in streams then streams[key].received else []
    }

    /** Starts a loader and files it; a loader already filed there is lost. */
    function Open(key: string): (p: Pipes)
      requires Valid()
      ensures p.Valid() && p.streams.Keys == streams.Keys + {key}
      ensures p.Received(key) == [] && forall k | k != key :: p.Received(k) == Received(k)
      ensures p.finished == finished && (p.lost == [] <==> lost == [] && key !in streams)
    {
      var started := streams[key := Loader(key, [], 0, 0)];
      assert started.Keys == streams.Keys + {key};
      assert key in streams ==> started.Keys == streams.Keys;
      Pipes(started, finished, if key in streams then lost + [streams[key]] else lost, created + 1)
    }

    function Feed(key: string, e: Entry): (p: Pipes)
      requires Valid() && key in streams
      ensures p.Valid() && p.streams.Keys == streams.Keys
      ensures p.Received(key) == Received(key) + [e] && forall k | k != key :: p.Received(k) == Received(k)
      ensures p.finished == finished && p.lost == lost
    {
      var fed := streams[key := streams[key].(received := streams[key].received + [e])];
      assert fed.Keys == streams.Keys;
      Pipes(fed, finished, lost, created)
    }

    /** Closes the pipe of a stream and waits for the loader behind it. */
    function Finish(key: string): (p: Pipes)
      requires Valid() && key in streams
      ensures p.Valid() && p.streams == streams - {key} && p.lost == lost && |p.streams| < |streams|
      ensures p.finished == finished + [streams[key].(closed := 1, collected := 1)]
    {
      var l := streams[key];
      assert (streams - {key}).Keys == streams.Keys - {key};
      Pipes(streams - {key}, finished + [l.(closed := l.closed + 1, collected := l.collected + 1)], lost, created)
    }

    /** Finds the stream of an entry or opens one; the result also names the key that was used. */
    function Lookup(route: Route): (r: (Pipes, string))
      requires Valid() && !route.Ignored?
      ensures r.0.Valid() && r.0.streams.Keys == KeysNext(streams.Keys, route) && r.1 in r.0.streams
      ensures r.0.finished == finished && (r.0.lost == [] <==> lost == [] && !Clobbers(streams.Keys, route))
      ensures Concerns(route, r.1) && (!Misfiled(route) ==> r.1 == route.key)
      ensures forall k | !Concerns(route, k) || !Misfiled(route) :: r.0.Received(k) == Received(k)
    {
      if route.key in streams then (this, route.key) else (Open(FiledUnder(route)), FiledUnder(route))
    }

    /** The switch over one entry of the archive. */
    function Handle(route: Route, data: string, fate: WriteFate): (r: (Pipes, Option<RestoreError>))
      requires Valid()
      ensures r.1.None? <==> !Fails(Item(route, data), true, fate)
    {
      if route.Ignored? then (this, None)
      else
        var (found, key) := Lookup(route);
        match fate
        case PipeClosed => (found, if route.ToSnapshot? then None else Some(WriteFailed))
        case Broken => (found, Some(WriteFailed))
        case Written => (found.Feed(key, Entry(route.name, data)), None)
    }
  }

  /** What one entry of the archive does to the streams. */
  ghost predicate Handled(p: Pipes, item: Item, fate: WriteFate, after: Pipes) {
    && after.Valid() && after.finished == p.finished && after.streams.Keys == KeysNext(p.streams.Keys, item.route)
    && (after.lost == [] <==> p.lost == [] && !Clobbers(p.streams.Keys, item.route))
    && (forall k | !Concerns(item.route, k) :: after.Received(k) == p.Received(k))
    && (fate.Written? && !Misfiled(item.route) ==>
          forall k :: after.Received(k) == p.Received(k) + PartFor(item, k))
  }

  /** Looking up and then feeding, in terms of what each of them promises. */
  lemma {:induction false} WrittenHandled(p: Pipes, item: Item, found: Pipes, key: string, after: Pipes)
    requires p.Valid() && found.Valid() && after.Valid() && !item.route.Ignored? && key in found.streams
    requires found.finished == p.finished && found.streams.Keys == KeysNext(p.streams.Keys, item.route)
    requires found.lost == [] <==> p.lost == [] && !Clobbers(p.streams.Keys, item.route)
    requires Concerns(item.route, key) && (!Misfiled(item.route) ==> key == item.route.key)
    requires forall k | !Concerns(item.route, k) || !Misfiled(item.route) :: found.Received(k) == p.Received(k)
    requires after.streams.Keys == found.streams.Keys && after.finished == found.finished && after.lost == found.lost
    requires after.Received(key) == found.Received(key) + [Entry(item.route.name, item.data)]
    requires forall k | k != key :: after.Received(k) == found.Received(k)
    ensures Handled(p, item, Written, after)
  {}

  lemma {:induction false} HandleWritten(p: Pipes, item: Item)
    requires p.Valid() && !item.route.Ignored?
    ensures Handled(p, item, Written, p.Handle(item.route, item.data, Written).0)
  {
    var (found, key) := p.Lookup(item.route);
    WrittenHandled(p, item, found, key, found.Feed(key, Entry(item.route.name, item.data)));
  }

  lemma {:induction false} HandleHandles(p: Pipes, item: Item, fate: WriteFate)
    requires p.Valid()
    ensures Handled(p, item, fate, p.Handle(item.route, item.data, fate).0)
  {
    if !item.route.Ignored? && fate.Written? {
      HandleWritten(p, item);
    }
  }

  /** Where the loop stands after `n` items. */
  ghost predicate Distributed(items: seq<Item>, w: World, n: nat, p: Pipes)
    requires n <= |items|
  {
    && p.Valid() && p.finished == []
    && p.streams.Keys == KeysAfter(items, n)
    && (p.lost == [] <==> NoneClobbers(items, n))
    && (forall k | Served(items, w, n, k) :: p.Received(k) == ItemsFor(items, n, k))
  }

  ghost predicate NoneClobbers(items: seq<Item>, n: nat)
    requires n <= |items|
  {
    forall j | 0 <= j < n :: !ClobbersAt(items, j)
  }

  lemma {:induction false} NoneClobbersNext(items: seq<Item>, n: nat)
    requires n < |items|
    ensures NoneClobbers(items, n + 1) <==> NoneClobbers(items, n) && !ClobbersAt(items, n)
  {}

  lemma {:induction false} ServedNext(items: seq<Item>, w: World, n: nat, key: string)
    requires n < |items| && Served(items, w, n + 1, key)
    ensures Served(items, w, n, key)
    ensures Concerns(items[n].route, key) ==> w.write(n).Written? && !Misfiled(items[n].route)
  {}

  lemma {:induction false} ReceivedNext(items: seq<Item>, w: World, n: nat, p: Pipes, after: Pipes, key: string)
    requires n < |items| && Served(items, w, n + 1, key)
    requires Served(items, w, n, key) ==> p.Received(key) == ItemsFor(items, n, key)
    requires Handled(p, items[n], w.write(n), after)
    ensures after.Received(key) == ItemsFor(items, n + 1, key)
  {
    ServedNext(items, w, n, key);
    if !Concerns(items[n].route, key) {
      assert PartFor(items[n], key) == [];
    }
  }

  lemma {:induction false} DistributeStep(items: seq<Item>, w: World, n: nat, p: Pipes, after: Pipes)
    requires n < |items| && Distributed(items, w, n, p) && Handled(p, items[n], w.write(n), after)
    ensures Distributed(items, w, n + 1, after)
  {
    NoneClobbersNext(items, n);
    assert ClobbersAt(items, n) <==> Clobbers(p.streams.Keys, items[n].route);
    forall k | Served(items, w, n + 1, k) ensures after.Received(k) == ItemsFor(items, n + 1, k) {
      ReceivedNext(items, w, n, p, after, k);
    }
  }

  // ---------------------------------------------------------------- the run

  class RestoreRun {
    var pipes: Pipes
    var log: seq<Event>

    constructor ()
      ensures pipes == Pipes(map[], [], [], 0) && log == []
    {
      pipes, log := Pipes(map[], [], [], 0), [];
    }

    /** The body of the loop over the archive. */
    method HandleItem(items: seq<Item>, w: World, n: nat) returns (err: Option<RestoreError>)
      requires n < |items| && Distributed(items, w, n, pipes)
      modifies this`pipes
      ensures Distributed(items, w, n + 1, pipes) && (err.None? <==> !Fails(items[n], true, w.write(n)))
    {
      var (after, e) := pipes.Handle(items[n].route, items[n].data, w.write(n));
      HandleHandles(pipes, items[n], w.write(n));
      DistributeStep(items, w, n, pipes, after);
      pipes, err := after, e;
    }

    /** The loop over the archive; `handled` counts the entries whose stream was looked up. */
    method Distribute(items: seq<Item>, w: World) returns (err: Option<RestoreError>, handled: nat)
      requires pipes == Pipes(map[], [], [], 0)
      modifies this`pipes
      ensures handled <= |items| && Distributed(items, w, handled, pipes)
      ensures handled == Reach(items, w, 0)
      ensures err.None? <==> NoneFails(items, w, |items|)
      ensures err.None? ==> handled == |items|
    {
      handled, err := 0, None;
      CompletesIff(items, w, 0);
      while handled < |items|
        invariant handled <= |items| && Distributed(items, w, handled, pipes) && err.None?
        invariant Reach(items, w, 0) == Reach(items, w, handled)
        invariant Completes(items, w, 0) <==> Completes(items, w, handled)
      {
        if !w.readable(handled) {
          return Some(ReadFailed), handled;
        }
        err := HandleItem(items, w, handled);
        handled := handled + 1;
        if err.Some? {
          return;
        }
      }
    }

    /** Closes a stream and waits for its loader; `filed` is where the waiting began. */
    method Finish(key: string, ghost filed: Pipes)
      requires pipes.Valid() && key in pipes.streams && Kept(filed, pipes)
      modifies this`pipes
      ensures pipes.Valid() && Kept(filed, pipes)
      ensures pipes.streams == old(pipes.streams) - {key} && |pipes.streams| < |old(pipes.streams)|
      ensures |pipes.finished| == |old(pipes.finished)| + 1
      ensures pipes.finished[..|old(pipes.finished)|] == old(pipes.finished)
      ensures pipes.finished[|old(pipes.finished)|].key == key
    {
      KeptFinish(filed, pipes, key);
      pipes := pipes.Finish(key);
    }

    /** Notes a loader that was waited for. */
    method Note(e: Event, w: World)
      requires |pipes.finished| == |log| + 1 && Sound(w, log, pipes.finished[..|log|])
      requires pipes.finished[|log|].key == e.key
      requires e.registered == if e.aborted then None else DueFor(w, e.key)
      requires e.key == DOCKER_IMAGES_FILE ==> NoneRegistered(log)
      modifies this`log
      ensures log == old(log) + [e] && Sound(w, log, pipes.finished)
      ensures NoneRegistered(log) <==> NoneRegistered(old(log)) && e.registered.None?
      ensures NoneAborted(log) <==> NoneAborted(old(log)) && !e.aborted
      ensures AllAborted(log) <==> AllAborted(old(log)) && e.aborted
    {
      OneMoreEvent(log, e);
      SoundSnoc(w, log, pipes.finished, e);
      log := log + [e];
    }

    /** Waits for one snapshot loader and, if it succeeded, registers the snapshot's images. */
    method LoadSnapshot(key: string, w: World, ghost filed: Pipes) returns (r: Result<(), RestoreError>)
      requires pipes.Valid() && Kept(filed, pipes)
      requires Sound(w, log, pipes.finished)
      requires key in pipes.streams && key != DOCKER_IMAGES_FILE
      modifies this
      ensures pipes.Valid() && Kept(filed, pipes)
      ensures Sound(w, log, pipes.finished)
      ensures pipes.streams == old(pipes.streams) - {key} && |pipes.streams| < |old(pipes.streams)|
      ensures log == old(log) + [Waited(key, false, DueFor(w, key))]
      ensures NoneAborted(old(log)) ==> NoneAborted(log)
      ensures r.Ok? <==> Restored(w, key)
      ensures r == Err(NeverHappens) ==> !Registrable(key)
    {
      Finish(key, filed);
      var parts := Split(key);
      var registered := None;
      if !w.loads(key) {
        r := Err(SnapshotFailed);
      } else if |parts| != 3 {
        r := Err(NeverHappens);
      } else if !w.registers(key) {
        r := Err(RegisterFailed);
      } else {
        registered := Some(Registration(parts[1], parts[2]));
        r := Ok(());
      }
      Note(Waited(key, false, registered), w);
    }

    /** Takes the snapshots in any order; a failed one does not keep the others from being loaded. */
    method LoadSnapshots(w: World, ghost filed: Pipes) returns (r: Result<(), RestoreError>)
      requires pipes.Valid() && DOCKER_IMAGES_FILE !in pipes.streams && Kept(filed, pipes)
      requires Sound(w, log, pipes.finished) && NoneAborted(log)
      modifies this
      ensures pipes.Valid() && DOCKER_IMAGES_FILE !in pipes.streams && Kept(filed, pipes)
      ensures Sound(w, log, pipes.finished) && NoneAborted(log)
      ensures r.Ok? <==> forall k | k in old(pipes.streams) :: Restored(w, k)
      ensures pipes.streams == map[] || (r.Err? && exists k | k in old(pipes.streams) :: !Registrable(k))
    {
      r := Ok(());
      ghost var keys := pipes.streams.Keys;
      while pipes.streams != map[]
        invariant pipes.Valid() && DOCKER_IMAGES_FILE !in pipes.streams && Kept(filed, pipes)
        invariant Sound(w, log, pipes.finished) && NoneAborted(log)
        invariant pipes.streams.Keys <= keys
        invariant r.Ok? <==> forall k | k in keys && k !in pipes.streams :: Restored(w, k)
        decreases |pipes.streams|
      {
        var key :| key in pipes.streams;
        var one := LoadSnapshot(key, w, filed);
        if one.Err? {
          r := one;
          if one.error.NeverHappens? {
            return;
          }
        }
      }
    }

    /** After the loop: the images first, then the snapshots. */
    method LoadAll(w: World) returns (r: Result<(), RestoreError>)
      requires pipes.Valid() && log == [] && pipes.finished == []
      modifies this
      ensures pipes.Valid() && DOCKER_IMAGES_FILE !in pipes.streams && Kept(old(pipes), pipes)
      ensures Sound(w, log, pipes.finished) && NoneAborted(log)
      ensures r.Ok? <==> forall k | k in old(pipes.streams) :: Restored(w, k)
      ensures ImagesFail(w, old(pipes.streams.Keys)) ==> NoneRegistered(log)
      ensures pipes.streams == map[] || !NothingStops(w, old(pipes.streams.Keys))
    {
      ghost var filed := pipes;
      KeptSelf(filed);
      if DOCKER_IMAGES_FILE in pipes.streams {
        Finish(DOCKER_IMAGES_FILE, filed);
        Note(Waited(DOCKER_IMAGES_FILE, false, None), w);
        if !w.loads(DOCKER_IMAGES_FILE) {
          return Err(ImagesFailed);
        }
      }
      r := LoadSnapshots(w, filed);
    }

    /** The deferred clean-up: whatever is still filed is closed with an error and waited for. */
    method CleanUp(w: World, ghost filed: Pipes)
      requires pipes.Valid() && Kept(filed, pipes) && (log == [] || DOCKER_IMAGES_FILE !in pipes.streams)
      requires Sound(w, log, pipes.finished)
      modifies this
      ensures pipes.Valid() && pipes.streams == map[] && Kept(filed, pipes)
      ensures Sound(w, log, pipes.finished)
      ensures old(pipes.streams) == map[] ==> log == old(log)
      ensures AllAborted(old(log)) ==> AllAborted(log)
      ensures NoneRegistered(old(log)) ==> NoneRegistered(log)
    {
      ghost var before, some := log, pipes.streams != map[];
      while pipes.streams != map[]
        invariant pipes.Valid() && Kept(filed, pipes)
        invariant Sound(w, log, pipes.finished)
        invariant !some ==> log == before && pipes.streams == map[]
        invariant AllAborted(before) ==> AllAborted(log)
        invariant before != [] ==> DOCKER_IMAGES_FILE !in pipes.streams
        invariant NoneRegistered(before) ==> NoneRegistered(log)
        decreases |pipes.streams|
      {
        var key :| key in pipes.streams;
        Abort(key, w, filed);
      }
    }

    /** Closes one pipe with an error, and waits for the loader. */
    method Abort(key: string, w: World, ghost filed: Pipes)
      requires pipes.Valid() && Kept(filed, pipes) && key in pipes.streams
      requires Sound(w, log, pipes.finished)
      requires key == DOCKER_IMAGES_FILE ==> NoneRegistered(log)
      modifies this
      ensures pipes.Valid() && Kept(filed, pipes)
      ensures Sound(w, log, pipes.finished)
      ensures pipes.streams == old(pipes.streams) - {key} && |pipes.streams| < |old(pipes.streams)|
      ensures log == old(log) + [Waited(key, true, None)]
      ensures AllAborted(old(log)) ==> AllAborted(log)
      ensures NoneRegistered(old(log)) ==> NoneRegistered(log)
    {
      Finish(key, filed);
      Note(Waited(key, true, None), w);
    }

    /**
     `restoreV1`: on every way out each loader that was started is closed and waited for exactly
     once, unless it was clobbered, and images are waited for before any snapshot is registered.
     It reports success exactly if every entry was handed out and every stream restored, it
     registers exactly what is due, and nothing if the images could not be loaded.
     */
    method RestoreV1(archive: seq<Entry>, w: World) returns (r: Result<(), RestoreError>, handled: nat)
      requires pipes == Pipes(map[], [], [], 0) && log == []
      modifies this
      ensures pipes.Valid() && pipes.streams == map[] && ImagesFirst(log)
      ensures pipes.created == |pipes.finished| + |pipes.lost|
      ensures handled == Reach(Items(archive), w, 0)
      ensures pipes.lost == [] <==> NoneClobbers(Items(archive), handled)
      ensures LoadersServed(archive, w, handled, pipes.finished)
      ensures r.Ok? <==> NoneFails(Items(archive), w, |archive|) && AllRestored(w, pipes.finished)
      ensures r.Ok? ==> handled == |archive|
      ensures ImagesFail(w, KeysAfter(Items(archive), handled)) ==> NoneRegistered(log)
      ensures Matches(log, pipes.finished) && RegistersRight(w, log)
      ensures !NoneFails(Items(archive), w, |archive|) ==> AllAborted(log)
      ensures NoneFails(Items(archive), w, |archive|) && NothingStops(w, KeysAfter(Items(archive), handled)) ==>
                NoneAborted(log)
    {
      var items := Items(archive);
      var err;
      err, handled := Distribute(items, w);
      ghost var filed := pipes;
      if err.Some? {
        r := Err(err.value);
        KeptSelf(pipes);
      } else {
        r := LoadAll(w);
      }
      CleanUp(w, filed);
      AllRestoredIff(w, filed, pipes);
      ServedWhenFed(archive, w, handled, filed, pipes);
      SoundMeans(w, log, pipes.finished);
      FinishedOnce(filed, pipes);
      forall k | k in filed.streams ensures SnapshotKey(k) {
        KeysShape(archive, handled, k);
      }
      LoggedRegistersRight(w, log, pipes.finished);
    }
  }

  /**
   For every plain tenant and label: they are registered if and only if the loader of their snapshot
   was closed properly, and loaded, and accepted; and no registration is made twice.
   */
  ghost predicate RegistersRight(w: World, log: seq<Event>) {
    && (forall t, l | Plain(t) && Plain(l) ::
          IsRegistered(log, t, l) <==>
          ClosedProperly(log, SnapshotId(t, l)) && w.loads(SnapshotId(t, l)) && w.registers(SnapshotId(t, l)))
    && (forall i, j | 0 <= i < j < |log| && log[i].registered.Some? :: log[i].registered != log[j].registered)
    && (forall i | 0 <= i < |log| && log[i].registered.Some? ::
          Plain(log[i].registered.value.tenant) && Plain(log[i].registered.value.snapLabel))
  }

  lemma {:induction false} LoggedRegistersRight(w: World, log: seq<Event>, finished: seq<Loader>)
    requires Logged(w, log) && Matches(log, finished)
    requires forall l | l in finished :: SnapshotKey(l.key)
    requires forall i, j | 0 <= i < j < |finished| :: finished[i].key != finished[j].key
    ensures RegistersRight(w, log)
  {
    forall i | 0 <= i < |log| ensures SnapshotKey(log[i].key) {
      assert finished[i] in finished;
    }
    forall t, l | Plain(t) && Plain(l)
      ensures var key := SnapshotId(t, l);
              IsRegistered(log, t, l) <==> ClosedProperly(log, key) && w.loads(key) && w.registers(key)
    {
      RegisteredIff(w, log, t, l);
    }
    forall i, j | 0 <= i < j < |log| && log[i].registered.Some? ensures log[i].registered != log[j].registered {
      RegisteredOnce(w, log, finished, i, j);
    }
  }

  ghost predicate ImagesFail(w: World, keys: set<string>) {
    DOCKER_IMAGES_FILE in keys && !w.loads(DOCKER_IMAGES_FILE)
  }

  /** Nothing keeps the snapshots from being loaded one after the other. */
  ghost predicate NothingStops(w: World, keys: set<string>) {
    !ImagesFail(w, keys) && forall k | k in keys :: Registrable(k)
  }

  ghost predicate Finishes(finished: seq<Loader>, key: string) {
    exists l | l in finished :: l.key == key
  }

  ghost predicate AllRestored(w: World, finished: seq<Loader>) {
    forall l | l in finished :: Restored(w, l.key)
  }

  lemma {:induction false} AllRestoredIff(w: World, filed: Pipes, end: Pipes)
    requires filed.Valid() && filed.finished == [] && Kept(filed, end) && end.streams == map[]
    ensures AllRestored(w, end.finished) <==> forall k | k in filed.streams :: Restored(w, k)
  {
    forall k | k in filed.streams ensures Done(filed.streams[k]) in end.finished && Done(filed.streams[k]).key == k {}
  }

  /**
   A finished loader whose own entries were all written received exactly those of the first `n`
   entries that were meant for it, and no loader is missing for which there were any.
   */
  ghost predicate LoadersServed(archive: seq<Entry>, w: World, n: nat, finished: seq<Loader>)
    requires n <= |archive|
  {
    && (forall l | l in finished && Served(Items(archive), w, n, l.key) :: l.received == Delivered(archive[..n], l.key))
    && (forall k | Served(Items(archive), w, n, k) && Delivered(archive[..n], k) != [] :: Finishes(finished, k))
  }

  function Done(l: Loader): Loader {
    l.(closed := 1, collected := 1)
  }

  /** No two finished loaders have one key, nor has a finished one the key of a filed one. */
  ghost predicate Apart(finished: seq<Loader>, filed: set<string>)
    decreases |finished|
  {
    finished == [] ||
    (var n := |finished| - 1;
     finished[n].key !in filed && Apart(finished[..n], filed + {finished[n].key}))
  }

  lemma {:induction false} ApartDistinct(finished: seq<Loader>, filed: set<string>, i: nat)
    requires Apart(finished, filed) && i < |finished|
    ensures finished[i].key !in filed && forall j | i < j < |finished| :: finished[i].key != finished[j].key
    decreases |finished|
  {
    var n := |finished| - 1;
    if i < n {
      ApartDistinct(finished[..n], filed + {finished[n].key}, i);
      assert forall j | i < j < n :: finished[..n][j] == finished[j];
    }
  }

  lemma {:induction false} ApartFinish(finished: seq<Loader>, filed: set<string>, l: Loader)
    requires Apart(finished, filed) && l.key in filed
    ensures Apart(finished + [l], filed - {l.key})
  {
    assert (finished + [l])[..|finished|] == finished;
    assert filed - {l.key} + {l.key} == filed;
  }

  lemma {:induction false} FinishedOnce(filed: Pipes, end: Pipes)
    requires filed.finished == [] && Kept(filed, end)
    ensures forall i, j | 0 <= i < j < |end.finished| :: end.finished[i].key != end.finished[j].key
  {
    forall i | 0 <= i < |end.finished|
      ensures forall j | i < j < |end.finished| :: end.finished[i].key != end.finished[j].key
    {
      ApartDistinct(end.finished, end.streams.Keys, i);
    }
  }

  /** The loaders that were filed are still filed, or have been finished with what they had received. */
  ghost predicate Kept(a: Pipes, b: Pipes) {
    && a.finished <= b.finished && a.lost == b.lost
    && (forall k | k in b.streams :: k in a.streams && b.streams[k] == a.streams[k])
    && (forall k | k in a.streams :: k in b.streams || Done(a.streams[k]) in b.finished)
    && (forall l | l in b.finished :: l in a.finished || exists k | k in a.streams :: l == Done(a.streams[k]))
    && (a.finished == [] ==> Apart(b.finished, b.streams.Keys))
  }

  lemma {:induction false} KeptSelf(a: Pipes)
    ensures Kept(a, a)
  {}

  lemma {:induction false} KeptFinish(a: Pipes, b: Pipes, key: string)
    requires b.Valid() && Kept(a, b) && key in b.streams
    ensures Kept(a, b.Finish(key))
  {
    if a.finished == [] {
      ApartFinish(b.finished, b.streams.Keys, Done(b.streams[key]));
      assert b.Finish(key).streams.Keys == b.streams.Keys - {key};
    }
  }

  lemma {:induction false} ServedWhenFed(archive: seq<Entry>, w: World, n: nat, filed: Pipes, end: Pipes)
    requires n <= |archive| && Distributed(Items(archive), w, n, filed)
    requires Kept(filed, end) && end.streams == map[]
    ensures LoadersServed(archive, w, n, end.finished)
  {
    forall k | Served(Items(archive), w, n, k) ensures filed.Received(k) == Delivered(archive[..n], k) {
      ItemsForIsDelivered(archive, n, k);
    }
    forall k | Served(Items(archive), w, n, k) && Delivered(archive[..n], k) != [] ensures Finishes(end.finished, k) {
      assert k in filed.streams;
      assert Done(filed.streams[k]) in end.finished;
    }
  }

  // ---------------------------------------------------------------- what a backup brings back

  ghost predicate WellFiled(archive: seq<Entry>) {
    forall i | 0 <= i < |archive| :: !Misfiled(RouteOf(archive[i].name))
  }

  lemma {:induction false} RewrittenWellFiled(prefix: string, entries: seq<Entry>)
    requires forall i | 0 <= i < |entries| :: !Misfiled(RouteOf(PathJoin([prefix, entries[i].name])))
    ensures WellFiled(Rewritten(prefix, entries))
  {
    if entries != [] {
      RewrittenWellFiled(prefix, entries[1..]);
    }
  }

  lemma {:induction false} SnapshotsWellFiled(snapshots: seq<Snapshot>)
    requires GoodSnapshots(snapshots) && forall i | 0 <= i < |snapshots| :: AllStayBelow(snapshots[i].entries)
    ensures WellFiled(SnapshotPart(snapshots))
  {
    if snapshots != [] {
      var s := snapshots[0];
      forall i | 0 <= i < |s.entries| ensures !Misfiled(RouteOf(PathJoin([IdOf(s), s.entries[i].name]))) {
        RouteSnapshot(s.tenant, s.snapLabel, s.entries[i].name);
      }
      RewrittenWellFiled(IdOf(s), s.entries);
      SnapshotsWellFiled(snapshots[1..]);
    }
  }

  /** A backup in which no name climbs out of its root files all its image entries below the images prefix. */
  lemma {:induction false} BackupWellFiled(metadata: string, snapshots: seq<Snapshot>, images: seq<Entry>)
    requires GoodSnapshots(snapshots) && NoneClimbs(snapshots, images)
    ensures WellFiled(BackupArchive(metadata, snapshots, images))
  {
    SnapshotsWellFiled(snapshots);
    forall i | 0 <= i < |images| ensures !Misfiled(RouteOf(PathJoin([DOCKER_IMAGES_FILE, images[i].name]))) {
      RouteImage(images[i].name);
    }
    RewrittenWellFiled(DOCKER_IMAGES_FILE, images);
  }

  /** All entries of the archive that are meant for the loader are written to its pipe. */
  ghost predicate PipeHolds(archive: seq<Entry>, w: World, key: string) {
    forall j | 0 <= j < |archive| && Concerns(RouteOf(archive[j].name), key) :: w.write(j).Written?
  }

  lemma {:induction false} PipeHoldsServed(archive: seq<Entry>, w: World, key: string)
    requires WellFiled(archive) && PipeHolds(archive, w, key)
    ensures Served(Items(archive), w, |archive|, key)
  {}

  lemma {:induction false} ServedByPipes(archive: seq<Entry>, w: World, finished: seq<Loader>)
    requires WellFiled(archive) && LoadersServed(archive, w, |archive|, finished)
    ensures forall l | l in finished && PipeHolds(archive, w, l.key) :: l.received == Delivered(archive, l.key)
    ensures forall k | PipeHolds(archive, w, k) && Delivered(archive, k) != [] :: Finishes(finished, k)
  {
    assert archive[..|archive|] == archive;
    forall k | PipeHolds(archive, w, k) ensures Served(Items(archive), w, |archive|, k) {
      PipeHoldsServed(archive, w, k);
    }
  }

  lemma {:induction false} WellFiledNeverClobbers(archive: seq<Entry>)
    requires WellFiled(archive)
    ensures NoneClobbers(Items(archive), |archive|)
  {
    ProperImagesNeverClobber(Items(archive));
  }

  lemma {:induction false} NoneFailsReach(items: seq<Item>, w: World, i: nat)
    requires i <= |items| && NoneFails(items, w, |items|)
    ensures Reach(items, w, i) == |items|
    decreases |items| - i
  {
    if i < |items| {
      assert !Fails(items[i], w.readable(i), w.write(i));
      NoneFailsReach(items, w, i + 1);
    }
  }

  /**
   Backs up and restores: if no entry fails, every loader whose own pipe held is given its own
   entries back, cleaned, in order, whatever became of the other pipes, and none is lost.
   */
  method BackupThenRestore(metadata: string, snapshots: seq<Snapshot>, images: seq<Entry>, w: World)
    returns (archive: seq<Entry>, finished: seq<Loader>, lost: seq<Loader>)
    requires GoodSnapshots(snapshots) && NoneClimbs(snapshots, images)
    requires var a := BackupArchive(metadata, snapshots, images); NoneFails(Items(a), w, |a|)
    ensures archive == BackupArchive(metadata, snapshots, images)
    ensures lost == [] && forall l | l in finished :: l.Finished()
    ensures forall l | l in finished && PipeHolds(archive, w, l.key) :: l.received == Delivered(archive, l.key)
    ensures forall k | PipeHolds(archive, w, k) && Delivered(archive, k) != [] :: Finishes(finished, k)
    ensures RestoredCleaned(archive, snapshots, images)
  {
    var out := new TarWriter();
    out.Backup(metadata, snapshots, images);
    archive := out.entries;
    BackupWellFiled(metadata, snapshots, images);
    ArchiveRestores(metadata, snapshots, images);
    NoneFailsReach(Items(archive), w, 0);
    var run := new RestoreRun();
    var r, handled := run.RestoreV1(archive, w);
    finished, lost := run.pipes.finished, run.pipes.lost;
    ServedByPipes(archive, w, finished);
    WellFiledNeverClobbers(archive);
  }
}
