/**
 Backup archives (dfs/backup.go, dfs/restore.go): several tar streams are merged under path
 prefixes into one and split again on restore, each part being fed to a loader of its own.

 A tar stream is a sequence of named entries; the byte format is not modelled.
 */
module Archives {
  import opened Sequences
  import opened Paths

  datatype Entry = Entry(name: string, data: string)

  const BACKUP_METADATA_FILE := ".BACKUPINFO"
  const SNAPSHOTS_METADATA_DIR := "SNAPSHOTS/"
  const DOCKER_IMAGES_FILE := "IMAGES.dkr"

  datatype Snapshot = Snapshot(tenant: string, snapLabel: string, entries: seq<Entry>)

  // ---------------------------------------------------------------- writing

  function SnapshotId(tenant: string, snapLabel: string): string {
    PathJoin([SNAPSHOTS_METADATA_DIR, tenant, snapLabel])
  }

  /** `rewriteTar`: every header name is moved below the prefix. */
  function Rewritten(prefix: string, entries: seq<Entry>): (r: seq<Entry>)
    ensures |r| == |entries|
  {
    if entries == [] then []
    else [Entry(PathJoin([prefix, entries[0].name]), entries[0].data)] + Rewritten(prefix, entries[1..])
  }

  function SnapshotPart(snapshots: seq<Snapshot>): seq<Entry> {
    if snapshots == [] then []
    else
      var s := snapshots[0];
      Rewritten(SnapshotId(s.tenant, s.snapLabel), s.entries) + SnapshotPart(snapshots[1..])
  }

  /** The archive `Backup` writes: metadata, the snapshots in order, the images. */
  function BackupArchive(metadata: string, snapshots: seq<Snapshot>, images: seq<Entry>): seq<Entry> {
    [Entry(BACKUP_METADATA_FILE, metadata)] + SnapshotPart(snapshots) + Rewritten(DOCKER_IMAGES_FILE, images)
  }

  /** The archive being written. */
  class TarWriter {
    var entries: seq<Entry>

    constructor ()
      ensures entries == []
    {
      entries := [];
    }

    method RewriteTar(prefix: string, input: seq<Entry>)
      modifies this
      ensures entries == old(entries) + Rewritten(prefix, input)
    {
      for i := 0 to |input|
        invariant entries + Rewritten(prefix, input[i..]) == old(entries) + Rewritten(prefix, input)
      {
        assert input[i..][1..] == input[i + 1..];
        var moved := Entry(PathJoin([prefix, input[i].name]), input[i].data);
        Reattach(entries, [moved], Rewritten(prefix, input[i + 1..]));
        entries := entries + [moved];
      }
      assert entries + [] == entries;
    }

    method WriteSnapshots(snapshots: seq<Snapshot>)
      modifies this
      ensures entries == old(entries) + SnapshotPart(snapshots)
    {
      for i := 0 to |snapshots|
        invariant entries + SnapshotPart(snapshots[i..]) == old(entries) + SnapshotPart(snapshots)
      {
        var s := snapshots[i];
        Reattach(entries, Rewritten(SnapshotId(s.tenant, s.snapLabel), s.entries), SnapshotPart(snapshots[i + 1..]));
        RewriteTar(SnapshotId(s.tenant, s.snapLabel), s.entries);
      }
      assert entries + [] == entries;
    }

    method Backup(metadata: string, snapshots: seq<Snapshot>, images: seq<Entry>)
      requires entries == []
      modifies this
      ensures entries == BackupArchive(metadata, snapshots, images)
    {
      entries := [Entry(BACKUP_METADATA_FILE, metadata)];
      WriteSnapshots(snapshots);
      RewriteTar(DOCKER_IMAGES_FILE, images);
    }
  }

  // ---------------------------------------------------------------- splitting

  /** Where `restoreV1` sends an entry; `key` is looked up in the stream map. */
  datatype Route = Ignored | ToSnapshot(key: string, name: string) | ToImages(key: string, name: string)

  function RouteOf(name: string): Route {
    if name == BACKUP_METADATA_FILE then Ignored
    else if HasPrefix(name, SNAPSHOTS_METADATA_DIR) then
      var parts := SplitN(name, 4);
      if |parts| <= 3 then Ignored else ToSnapshot(SnapshotId(parts[1], parts[2]), parts[3])
    else if HasPrefix(name, DOCKER_IMAGES_FILE) then
      var parts := SplitN(name, 2);
      if |parts| <= 1 then Ignored else ToImages(parts[0], parts[1])
    else Ignored
  }

  /** The entries an archive holds for one loader, under the names the loader sees. */
  function Delivered(archive: seq<Entry>, key: string): seq<Entry> {
    if archive == [] then []
    else
      var route := RouteOf(archive[0].name);
      var rest := Delivered(archive[1..], key);
      if !route.Ignored? && route.key == key then [Entry(route.name, archive[0].data)] + rest else rest
  }

  lemma {:induction false} DeliveredConcat(a: seq<Entry>, b: seq<Entry>, key: string)
    ensures Delivered(a + b, key) == Delivered(a, key) + Delivered(b, key)
  {
    if a == [] {
      assert a + b == b;
    } else {
      assert (a + b)[1..] == a[1..] + b;
      DeliveredConcat(a[1..], b, key);
    }
  }

  // ---------------------------------------------------------------- names there and back

  const SNAPSHOTS := "SNAPSHOTS"

  function SnapshotBase(tenant: string, snapLabel: string): seq<string> {
    [SNAPSHOTS, tenant, snapLabel]
  }

  lemma {:induction false} ConstantsPlain()
    ensures Plain(SNAPSHOTS) && Plain(DOCKER_IMAGES_FILE)
  {
    assert SNAPSHOTS[0] == 'S' && DOCKER_IMAGES_FILE[0] == 'I';
  }

  lemma {:induction false} SnapshotIdShape(tenant: string, snapLabel: string)
    requires Plain(tenant) && Plain(snapLabel)
    ensures AllPlain(SnapshotBase(tenant, snapLabel))
    ensures SnapshotId(tenant, snapLabel) == JoinSlash(SnapshotBase(tenant, snapLabel))
  {
    ConstantsPlain();
    var p := SNAPSHOTS_METADATA_DIR + "/" + (tenant + "/" + snapLabel);
    SnapshotIdParts(tenant, snapLabel);
    NormaliseTwo(tenant, snapLabel);
    SnapshotIdClean(tenant, snapLabel);
    assert p[0] == 'S';
  }

  lemma {:induction false} SplitSnapshotsDir()
    ensures Split(SNAPSHOTS_METADATA_DIR) == [SNAPSHOTS, ""]
    ensures Normalise(false, [], [SNAPSHOTS, ""]) == [SNAPSHOTS]
  {
    ConstantsPlain();
    SplitTrailingSlash(SNAPSHOTS);
    assert SNAPSHOTS_METADATA_DIR == SNAPSHOTS + "/" + "";
  }

  /** A stream key of three parts is that of a snapshot with a plain tenant and a plain label. */
  predicate SnapshotKey(key: string) {
    |Split(key)| == 3 ==> Split(key)[0] == SNAPSHOTS && Plain(Split(key)[1]) && Plain(Split(key)[2])
  }

  /** Cleaning leaves three parts only if neither the tenant nor the label was cleaned away. */
  lemma {:induction false} NormaliseTwo(a: string, b: string)
    requires SlashFree(a) && SlashFree(b)
    ensures var parts := Normalise(false, [SNAPSHOTS], [a, b]);
            if Plain(a) && Plain(b) then parts == [SNAPSHOTS, a, b] else |parts| <= 2
    ensures forall i | 0 <= i < |Normalise(false, [SNAPSHOTS], [a, b])| ::
            SlashFree(Normalise(false, [SNAPSHOTS], [a, b])[i])
  {
    ConstantsPlain();
    assert [a, b][1..] == [b] && [b][1..] == [];
    var mid := NormaliseOne([SNAPSHOTS], a);
    assert Normalise(false, [SNAPSHOTS], [a, b]) == Normalise(false, mid, [b]);
    var end := NormaliseOne(mid, b);
    assert [SNAPSHOTS] + [a] + [b] == [SNAPSHOTS, a, b];
  }

  lemma {:induction false} NormaliseOne(stack: seq<string>, c: string) returns (next: seq<string>)
    requires SlashFree(c) && forall i | 0 <= i < |stack| :: SlashFree(stack[i])
    ensures forall rest :: Normalise(false, stack, [c] + rest) == Normalise(false, next, rest)
    ensures Normalise(false, stack, [c]) == next && forall i | 0 <= i < |next| :: SlashFree(next[i])
    ensures Plain(c) ==> next == stack + [c]
    ensures !Plain(c) && stack != [] ==> |next| <= |stack| || stack[|stack| - 1] == ".."
    ensures !Plain(c) ==> |next| <= |stack| + 1
  {
    next := Normalise(false, stack, [c]);
    assert [c][1..] == [];
    forall rest ensures Normalise(false, stack, [c] + rest) == Normalise(false, next, rest) {
      NormaliseConcat(false, stack, [c], rest);
    }
  }

  lemma {:induction false} SnapshotIdKey(a: string, b: string)
    requires SlashFree(a) && SlashFree(b)
    ensures SnapshotKey(SnapshotId(a, b))
  {
    ConstantsPlain();
    var p := SNAPSHOTS_METADATA_DIR + "/" + (a + "/" + b);
    SnapshotIdParts(a, b);
    NormaliseTwo(a, b);
    var parts := Normalise(false, [SNAPSHOTS], [a, b]);
    SnapshotIdClean(a, b);
    assert p[0] == 'S';
    if parts == [] {
      SplitSlashFree(".");
    } else {
      SplitJoin(parts);
    }
  }

  lemma {:induction false} SnapshotIdParts(a: string, b: string)
    requires SlashFree(a) && SlashFree(b)
    ensures Normalise(false, [], Split(SNAPSHOTS_METADATA_DIR + "/" + (a + "/" + b))) ==
            Normalise(false, [SNAPSHOTS], [a, b])
  {
    SplitConcat(SNAPSHOTS_METADATA_DIR, a + "/" + b);
    SplitCons(a, b);
    SplitSlashFree(b);
    SplitSnapshotsDir();
    assert [a] + [b] == [a, b];
    NormaliseConcat(false, [], [SNAPSHOTS, ""], [a, b]);
  }

  lemma {:induction false} SnapshotIdClean(a: string, b: string)
    ensures SnapshotId(a, b) == Clean(SNAPSHOTS_METADATA_DIR + "/" + (a + "/" + b))
  {
    assert [SNAPSHOTS_METADATA_DIR, a, b][1..] == [a, b] && [a, b][1..] == [b];
    assert JoinSlash([a, b]) == a + "/" + b;
    assert JoinSlash([SNAPSHOTS_METADATA_DIR, a, b]) == SNAPSHOTS_METADATA_DIR + "/" + (a + "/" + b);
    assert SNAPSHOTS_METADATA_DIR[0] == 'S';
  }

  /** Every stream key is a snapshot's, or has not three parts. */
  lemma {:induction false} RouteKey(name: string)
    requires RouteOf(name).ToSnapshot?
    ensures SnapshotKey(RouteOf(name).key)
  {
    var parts := SplitN(name, 4);
    SnapshotIdKey(parts[1], parts[2]);
  }

  /** A name with a slash at its end is split into the name and nothing, and the nothing is cleaned away. */
  lemma {:induction false} SplitTrailingSlash(name: string)
    requires Plain(name)
    ensures Split(name + "/" + "") == [name, ""] && Normalise(false, [], [name, ""]) == [name]
  {
    SplitCons(name, "");
    NormaliseConcat(false, [], [name], [""]);
    assert [name] + [""] == [name, ""];
    NormalisePlain(false, [], [name]);
    assert [] + [name] == [name] && [""][1..] == [];
  }

  lemma {:induction false} SnapshotPathStart(parts: seq<string>)
    requires |parts| > 1 && parts[0] == SNAPSHOTS
    ensures HasPrefix(JoinSlash(parts), SNAPSHOTS_METADATA_DIR) && JoinSlash(parts) != BACKUP_METADATA_FILE
  {
    assert JoinSlash(parts) == SNAPSHOTS + "/" + JoinSlash(parts[1..]);
    assert SNAPSHOTS_METADATA_DIR == SNAPSHOTS + "/" && JoinSlash(parts)[0] == 'S';
  }

  lemma {:induction false} RouteSnapshotPath(tenant: string, snapLabel: string, rest: seq<string>)
    requires Plain(tenant) && Plain(snapLabel) && rest != [] && AllPlain(rest)
    ensures RouteOf(JoinSlash(SnapshotBase(tenant, snapLabel) + rest)) ==
            ToSnapshot(SnapshotId(tenant, snapLabel), JoinSlash(rest))
  {
    ConstantsPlain();
    var parts := SnapshotBase(tenant, snapLabel) + rest;
    SnapshotPathStart(parts);
    SplitNLast(parts, 4);
    assert parts[3..] == rest;
    var cut := SplitN(JoinSlash(parts), 4);
    assert cut[1] == cut[..3][1] == tenant && cut[2] == cut[..3][2] == snapLabel;
  }

  lemma {:induction false} RouteImagePath(rest: seq<string>)
    requires rest != [] && AllPlain(rest)
    ensures RouteOf(JoinSlash([DOCKER_IMAGES_FILE] + rest)) == ToImages(DOCKER_IMAGES_FILE, JoinSlash(rest))
  {
    ConstantsPlain();
    var parts := [DOCKER_IMAGES_FILE] + rest;
    assert parts[1..] == rest;
    var full := JoinSlash(parts);
    assert full == DOCKER_IMAGES_FILE + "/" + JoinSlash(rest);
    assert full[0] == 'I';
    SplitNLast(parts, 2);
    var cut := SplitN(full, 2);
    assert cut[0] == cut[..1][0] == DOCKER_IMAGES_FILE;
  }

  /** The prefixes themselves are not passed on. */
  lemma {:induction false} SnapshotRootIgnored(tenant: string, snapLabel: string)
    requires Plain(tenant) && Plain(snapLabel)
    ensures RouteOf(JoinSlash(SnapshotBase(tenant, snapLabel))).Ignored?
  {
    ConstantsPlain();
    SnapshotPathStart(SnapshotBase(tenant, snapLabel));
    SplitJoin(SnapshotBase(tenant, snapLabel));
  }

  lemma {:induction false} SlashFreeIgnored(name: string)
    requires SlashFree(name)
    ensures RouteOf(name).Ignored?
  {
    SplitSlashFree(name);
  }

  /** A name that stays below its root travels below a snapshot's prefix and comes out clean; the root does not. */
  lemma {:induction false} RouteSnapshot(tenant: string, snapLabel: string, name: string)
    requires Plain(tenant) && Plain(snapLabel) && StaysBelow(name)
    ensures RouteOf(PathJoin([SnapshotId(tenant, snapLabel), name])) ==
            if Below(name) == [] then Ignored else ToSnapshot(SnapshotId(tenant, snapLabel), JoinSlash(Below(name)))
  {
    var base := SnapshotBase(tenant, snapLabel);
    SnapshotIdShape(tenant, snapLabel);
    StaysBelowJoin(base, name);
    if Below(name) == [] {
      SnapshotRootIgnored(tenant, snapLabel);
      assert base + [] == base;
    } else {
      RouteSnapshotPath(tenant, snapLabel, Below(name));
    }
  }

  lemma {:induction false} RouteImage(name: string)
    requires StaysBelow(name)
    ensures RouteOf(PathJoin([DOCKER_IMAGES_FILE, name])) ==
            if Below(name) == [] then Ignored else ToImages(DOCKER_IMAGES_FILE, JoinSlash(Below(name)))
  {
    ConstantsPlain();
    var base := [DOCKER_IMAGES_FILE];
    assert JoinSlash(base) == DOCKER_IMAGES_FILE;
    StaysBelowJoin(base, name);
    if Below(name) == [] {
      SlashFreeIgnored(DOCKER_IMAGES_FILE);
      assert base + [] == base;
    } else {
      RouteImagePath(Below(name));
    }
  }

  /** An entry of a snapshot that climbs out: it is handed to the image loader. */
  lemma {:induction false} ClimbingEntryGoesElsewhere(tenant: string, snapLabel: string, name: string)
    requires Plain(tenant) && Plain(snapLabel) && CleanName(name)
    ensures RouteOf(PathJoin([SnapshotId(tenant, snapLabel), "../../../" + ("IMAGES.dkr/" + name)])) ==
            ToImages(DOCKER_IMAGES_FILE, name)
  {
    ConstantsPlain();
    var base, tail := SnapshotBase(tenant, snapLabel), [DOCKER_IMAGES_FILE] + Split(name);
    var up := [".."] + ([".."] + [".."]);
    SnapshotIdShape(tenant, snapLabel);
    ClimbingSplit(name);
    PathJoinBelow(base, "../../../" + ("IMAGES.dkr/" + name));
    NormaliseConcat(false, base, up, tail);
    ClimbThree(tenant, snapLabel);
    NormalisePlain(false, [], tail);
    assert [] + tail == tail;
    RouteImagePath(Split(name));
    JoinSplit(name);
  }

  lemma {:induction false} ClimbThree(tenant: string, snapLabel: string)
    requires Plain(tenant) && Plain(snapLabel)
    ensures Normalise(false, SnapshotBase(tenant, snapLabel), [".."] + ([".."] + [".."])) == []
  {
    ConstantsPlain();
    ClimbOne([SNAPSHOTS, tenant], snapLabel, [".."] + [".."]);
    ClimbOne([SNAPSHOTS], tenant, [".."]);
    ClimbOne([], SNAPSHOTS, []);
    assert [SNAPSHOTS, tenant] + [snapLabel] == SnapshotBase(tenant, snapLabel);
    assert [SNAPSHOTS] + [tenant] == [SNAPSHOTS, tenant] && [] + [SNAPSHOTS] == [SNAPSHOTS] && [".."] + [] == [".."];
  }

  lemma {:induction false} ClimbOne(base: seq<string>, c: string, rest: seq<string>)
    requires Plain(c)
    ensures Normalise(false, base + [c], [".."] + rest) == Normalise(false, base, rest)
  {
    assert ([".."] + rest)[1..] == rest && (base + [c])[..|base|] == base;
  }

  lemma {:induction false} ClimbingSplit(name: string)
    ensures Split("../../../" + ("IMAGES.dkr/" + name)) ==
            [".."] + ([".."] + [".."]) + ([DOCKER_IMAGES_FILE] + Split(name))
  {
    ConstantsPlain();
    var below := "IMAGES.dkr/" + name;
    assert below == DOCKER_IMAGES_FILE + "/" + name;
    SplitCons(DOCKER_IMAGES_FILE, name);
    SplitCons("..", below);
    SplitCons("..", ".." + "/" + below);
    SplitCons("..", ".." + "/" + (".." + "/" + below));
    assert "../../../" + below == ".." + "/" + (".." + "/" + (".." + "/" + below));
  }

  /** Whatever was written below a prefix, the names that come out are clean. */
  lemma {:induction false} RoutedNamesClean(base: seq<string>, name: string)
    requires base != [] && AllPlain(base)
    requires !RouteOf(PathJoin([JoinSlash(base), name])).Ignored?
    ensures CleanName(RouteOf(PathJoin([JoinSlash(base), name])).name)
  {
    var parts := Normalise(false, base, Split(name));
    PathJoinBelow(base, name);
    NormaliseClimbed(false, base, Split(name));
    var full := JoinSlash(parts);
    SplitJoin(parts);
    var route := RouteOf(full);
    var n := if route.ToSnapshot? then 4 else 2;
    assert |parts| >= n;
    SplitNLast(parts, n);
    SplitJoin(parts[n - 1..]);
  }

  // ---------------------------------------------------------------- archives there and back

  predicate CleanNames(entries: seq<Entry>) {
    forall i | 0 <= i < |entries| :: CleanName(entries[i].name)
  }

  ghost predicate AllStayBelow(entries: seq<Entry>) {
    forall i | 0 <= i < |entries| :: StaysBelow(entries[i].name)
  }

  /** What a loader is given of a tar stream: clean names, and nothing about the root. */
  function Cleaned(entries: seq<Entry>): seq<Entry> {
    if entries == [] then []
    else
      var e, rest := entries[0], Cleaned(entries[1..]);
      if Below(e.name) == [] then rest else [Entry(JoinSlash(Below(e.name)), e.data)] + rest
  }

  lemma {:induction false} CleanedCons(entries: seq<Entry>)
    requires entries != [] && CleanName(entries[0].name) && AllStayBelow(entries[1..])
    requires Cleaned(entries[1..]) == entries[1..]
    ensures AllStayBelow(entries) && Cleaned(entries) == entries
  {
    var e := entries[0];
    CleanStaysBelow(e.name);
    assert entries == [e] + entries[1..] && Entry(JoinSlash(Below(e.name)), e.data) == e;
    assert forall i | 1 <= i < |entries| :: entries[i] == entries[1..][i - 1];
  }

  /** Clean names are not changed. */
  lemma {:induction false} CleanedClean(entries: seq<Entry>)
    requires CleanNames(entries)
    ensures AllStayBelow(entries) && Cleaned(entries) == entries
  {
    if entries != [] {
      CleanedClean(entries[1..]);
      CleanedCons(entries);
    }
  }

  /** The prefix under which the entries were written, as components, and the key they are routed by. */
  ghost predicate Carries(base: seq<string>, key: string) {
    && base != [] && AllPlain(base) && JoinSlash(base) == key
    && forall name | StaysBelow(name) :: CarriedTo(key, name, RouteOf(PathJoin([key, name])))
  }

  predicate CarriedTo(key: string, name: string, route: Route) {
    if Below(name) == [] then route.Ignored?
    else !route.Ignored? && route.key == key && route.name == JoinSlash(Below(name))
  }

  lemma {:induction false} SnapshotCarries(tenant: string, snapLabel: string)
    requires Plain(tenant) && Plain(snapLabel)
    ensures Carries(SnapshotBase(tenant, snapLabel), SnapshotId(tenant, snapLabel))
  {
    SnapshotIdShape(tenant, snapLabel);
    var key := SnapshotId(tenant, snapLabel);
    forall name | StaysBelow(name) ensures CarriedTo(key, name, RouteOf(PathJoin([key, name]))) {
      RouteSnapshot(tenant, snapLabel, name);
    }
  }

  lemma {:induction false} ImagesCarried()
    ensures Carries([DOCKER_IMAGES_FILE], DOCKER_IMAGES_FILE)
  {
    ConstantsPlain();
    var key := DOCKER_IMAGES_FILE;
    forall name | StaysBelow(name) ensures CarriedTo(key, name, RouteOf(PathJoin([key, name]))) {
      RouteImage(name);
    }
  }

  lemma {:induction false} RewrittenDelivered(base: seq<string>, prefix: string, entries: seq<Entry>, key: string)
    requires Carries(base, prefix) && AllStayBelow(entries)
    ensures Delivered(Rewritten(prefix, entries), key) == if key == prefix then Cleaned(entries) else []
  {
    if entries != [] {
      RewrittenDelivered(base, prefix, entries[1..], key);
      var r := Rewritten(prefix, entries);
      assert r[1..] == Rewritten(prefix, entries[1..]);
      assert CarriedTo(prefix, entries[0].name, RouteOf(r[0].name)) by {
        assert StaysBelow(entries[0].name);
      }
    }
  }

  lemma {:induction false} RewrittenDeliversClean(base: seq<string>, prefix: string, entries: seq<Entry>, key: string)
    requires base != [] && AllPlain(base) && JoinSlash(base) == prefix
    ensures CleanNames(Delivered(Rewritten(prefix, entries), key))
  {
    if entries != [] {
      RewrittenDeliversClean(base, prefix, entries[1..], key);
      var r := Rewritten(prefix, entries);
      assert r[1..] == Rewritten(prefix, entries[1..]);
      if !RouteOf(r[0].name).Ignored? {
        RoutedNamesClean(base, entries[0].name);
      }
    }
  }

  /** Tenants and labels are plain names, and no two snapshots share both. */
  ghost predicate GoodSnapshots(snapshots: seq<Snapshot>) {
    && (forall i | 0 <= i < |snapshots| :: Plain(snapshots[i].tenant) && Plain(snapshots[i].snapLabel))
    && (forall i, j | 0 <= i < j < |snapshots| ::
          snapshots[i].tenant != snapshots[j].tenant || snapshots[i].snapLabel != snapshots[j].snapLabel)
  }

  function IdOf(s: Snapshot): string {
    SnapshotId(s.tenant, s.snapLabel)
  }

  lemma {:induction false} IdsDiffer(a: Snapshot, b: Snapshot)
    requires Plain(a.tenant) && Plain(a.snapLabel) && Plain(b.tenant) && Plain(b.snapLabel)
    ensures IdOf(a) == IdOf(b) ==> a.tenant == b.tenant && a.snapLabel == b.snapLabel
    ensures IdOf(a) != DOCKER_IMAGES_FILE
  {
    SnapshotIdShape(a.tenant, a.snapLabel);
    SnapshotIdShape(b.tenant, b.snapLabel);
    var x, y := SnapshotBase(a.tenant, a.snapLabel), SnapshotBase(b.tenant, b.snapLabel);
    SplitJoin(x);
    SplitJoin(y);
    assert x[1] == a.tenant && x[2] == a.snapLabel && y[1] == b.tenant && y[2] == b.snapLabel;
    assert IdOf(a)[0] == 'S' && DOCKER_IMAGES_FILE[0] == 'I';
  }

  lemma {:induction false} SnapshotPartDelivers(snapshots: seq<Snapshot>, key: string)
    requires GoodSnapshots(snapshots) && forall i | 0 <= i < |snapshots| :: AllStayBelow(snapshots[i].entries)
    ensures forall i | 0 <= i < |snapshots| && IdOf(snapshots[i]) == key ::
              Delivered(SnapshotPart(snapshots), key) == Cleaned(snapshots[i].entries)
    ensures (forall i | 0 <= i < |snapshots| :: IdOf(snapshots[i]) != key) ==>
              Delivered(SnapshotPart(snapshots), key) == []
    decreases |snapshots|
  {
    if snapshots != [] {
      var s, rest := snapshots[0], snapshots[1..];
      SnapshotPartDelivers(rest, key);
      SnapshotCarries(s.tenant, s.snapLabel);
      RewrittenDelivered(SnapshotBase(s.tenant, s.snapLabel), IdOf(s), s.entries, key);
      DeliveredConcat(Rewritten(IdOf(s), s.entries), SnapshotPart(rest), key);
      forall i | 0 <= i < |rest| ensures IdOf(rest[i]) != IdOf(s) {
        IdsDiffer(s, rest[i]);
        assert snapshots[i + 1] == rest[i];
      }
      forall i | 0 <= i < |snapshots| && IdOf(snapshots[i]) == key
        ensures Delivered(SnapshotPart(snapshots), key) == Cleaned(snapshots[i].entries)
      {
        if i > 0 { assert snapshots[i] == rest[i - 1]; }
      }
    }
  }

  lemma {:induction false} SnapshotPartDeliversClean(snapshots: seq<Snapshot>, key: string)
    requires GoodSnapshots(snapshots)
    ensures CleanNames(Delivered(SnapshotPart(snapshots), key))
    decreases |snapshots|
  {
    if snapshots != [] {
      var s, rest := snapshots[0], snapshots[1..];
      SnapshotPartDeliversClean(rest, key);
      SnapshotIdShape(s.tenant, s.snapLabel);
      RewrittenDeliversClean(SnapshotBase(s.tenant, s.snapLabel), IdOf(s), s.entries, key);
      DeliveredConcat(Rewritten(IdOf(s), s.entries), SnapshotPart(rest), key);
    }
  }

  lemma {:induction false} ArchiveDelivers(metadata: string, snapshots: seq<Snapshot>, images: seq<Entry>, key: string)
    ensures Delivered(BackupArchive(metadata, snapshots, images), key) ==
            Delivered(SnapshotPart(snapshots), key) + Delivered(Rewritten(DOCKER_IMAGES_FILE, images), key)
  {
    var head := [Entry(BACKUP_METADATA_FILE, metadata)];
    DeliveredConcat(head + SnapshotPart(snapshots), Rewritten(DOCKER_IMAGES_FILE, images), key);
    DeliveredConcat(head, SnapshotPart(snapshots), key);
    assert head[1..] == [];
    assert Delivered(head, key) == [];
    assert [] + Delivered(SnapshotPart(snapshots), key) == Delivered(SnapshotPart(snapshots), key);
  }

  /** Every snapshot loader and the image loader receive the entries that were backed up. */
  ghost predicate RestoredExactly(archive: seq<Entry>, snapshots: seq<Snapshot>, images: seq<Entry>) {
    && Delivered(archive, DOCKER_IMAGES_FILE) == images
    && forall i | 0 <= i < |snapshots| :: Delivered(archive, IdOf(snapshots[i])) == snapshots[i].entries
  }

  ghost predicate AllClean(snapshots: seq<Snapshot>, images: seq<Entry>) {
    CleanNames(images) && forall i | 0 <= i < |snapshots| :: CleanNames(snapshots[i].entries)
  }

  /** No name in any of the tar streams climbs out of its root. */
  ghost predicate NoneClimbs(snapshots: seq<Snapshot>, images: seq<Entry>) {
    AllStayBelow(images) && forall i | 0 <= i < |snapshots| :: AllStayBelow(snapshots[i].entries)
  }

  /** Every loader receives its own entries, under clean names and without the root. */
  ghost predicate RestoredCleaned(archive: seq<Entry>, snapshots: seq<Snapshot>, images: seq<Entry>) {
    && Delivered(archive, DOCKER_IMAGES_FILE) == Cleaned(images)
    && forall i | 0 <= i < |snapshots| :: Delivered(archive, IdOf(snapshots[i])) == Cleaned(snapshots[i].entries)
  }

  /**
   As long as no name climbs out of its root, restoring what `Backup` wrote gives every loader its
   own entries in order, under clean names, with entries for the root itself dropped.
   */
  lemma {:induction false} ArchiveRestores(metadata: string, snapshots: seq<Snapshot>, images: seq<Entry>)
    requires GoodSnapshots(snapshots) && NoneClimbs(snapshots, images)
    ensures RestoredCleaned(BackupArchive(metadata, snapshots, images), snapshots, images)
  {
    var archive := BackupArchive(metadata, snapshots, images);
    ImagesCarried();
    ArchiveDelivers(metadata, snapshots, images, DOCKER_IMAGES_FILE);
    SnapshotPartDelivers(snapshots, DOCKER_IMAGES_FILE);
    RewrittenDelivered([DOCKER_IMAGES_FILE], DOCKER_IMAGES_FILE, images, DOCKER_IMAGES_FILE);
    forall i | 0 <= i < |snapshots|
      ensures IdOf(snapshots[i]) != DOCKER_IMAGES_FILE
      ensures Delivered(archive, IdOf(snapshots[i])) == Cleaned(snapshots[i].entries)
    {
      var key := IdOf(snapshots[i]);
      IdsDiffer(snapshots[i], snapshots[i]);
      ArchiveDelivers(metadata, snapshots, images, key);
      SnapshotPartDelivers(snapshots, key);
      RewrittenDelivered([DOCKER_IMAGES_FILE], DOCKER_IMAGES_FILE, images, key);
    }
  }

  /** A directory entry that ends in a slash: it arrives without the slash, so the delivery is not exact. */
  lemma {:induction false} DirectoryLosesSlash(dir: string, data: string, metadata: string)
    requires Plain(dir)
    ensures !CleanName(dir + "/" + "") && StaysBelow(dir + "/" + "")
    ensures Delivered(BackupArchive(metadata, [], [Entry(dir + "/" + "", data)]), DOCKER_IMAGES_FILE) ==
            [Entry(dir, data)]
  {
    var images := [Entry(dir + "/" + "", data)];
    SplitTrailingSlash(dir);
    assert Split(dir + "/" + "")[1] == "";
    ArchiveRestores(metadata, [], images);
    assert JoinSlash([dir]) == dir && images[1..] == [];
    assert Cleaned(images) == [Entry(dir, data)] + Cleaned([]);
  }

  lemma {:induction false} CleanArchiveRestores(metadata: string, snapshots: seq<Snapshot>, images: seq<Entry>)
    requires GoodSnapshots(snapshots) && AllClean(snapshots, images)
    ensures RestoredExactly(BackupArchive(metadata, snapshots, images), snapshots, images)
  {
    CleanedClean(images);
    forall i | 0 <= i < |snapshots|
      ensures AllStayBelow(snapshots[i].entries) && Cleaned(snapshots[i].entries) == snapshots[i].entries
    {
      CleanedClean(snapshots[i].entries);
    }
    ArchiveRestores(metadata, snapshots, images);
  }

  /**
   Restoring what `Backup` wrote gives every loader its original entries, in order, if and only
   if all entry names were clean and below the root to begin with.
   */
  lemma {:induction false} BackupRestoreRoundTripIff(metadata: string, snapshots: seq<Snapshot>, images: seq<Entry>)
    requires GoodSnapshots(snapshots)
    ensures RestoredExactly(BackupArchive(metadata, snapshots, images), snapshots, images) <==>
            AllClean(snapshots, images)
  {
    var archive := BackupArchive(metadata, snapshots, images);
    forall key ensures CleanNames(Delivered(archive, key)) {
      ConstantsPlain();
      ArchiveDelivers(metadata, snapshots, images, key);
      SnapshotPartDeliversClean(snapshots, key);
      RewrittenDeliversClean([DOCKER_IMAGES_FILE], DOCKER_IMAGES_FILE, images, key);
    }
    if AllClean(snapshots, images) {
      CleanArchiveRestores(metadata, snapshots, images);
    }
  }
}
