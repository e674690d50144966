/**
 Snapshot tags in the registry index (dfs/snapshot.go, dfs/rollback.go, dfs/delete.go,
 dfs/download.go, dfs/commit.go): a snapshot copies the images it finds to tags that carry its
 label, and a rollback copies them back to `latest`.

 Image names are strings throughout: they are printed, joined to the registry address, stored
 with the snapshot and parsed again, so the result rests on the round trip in ImageNames.
 */
module SnapshotTags {
  import opened Results
  import Paths
  import opened ImageIds
  import opened ImageNames

  const LATEST := "latest"

  /** An image's place in the index; the store's key is an encoding of its printed form. */
  datatype Ref = Ref(library: string, repo: string, tag: string)

  datatype Version = Version(uuid: string, hash: string)

  type Index = map<Ref, Version>

  datatype TagError = BadName | NotFound | InvalidImage | NotLocal | PullFailed | Collision | Stale | NoSuchSnapshot

  // ---------------------------------------------------------------- names

  /** The registry's address, as a host and a port. */
  datatype Address = Address(host: string, port: GoInt) {
    predicate Valid() {
      host != "" && AllHost(host) && port >= 0 && Paths.Plain(Text())
    }

    function Text(): string { Registry(host, port) }
  }

  /** A place whose printed form can be read back. */
  predicate Printable(r: Ref) {
    r.library != "" && AllUser(r.library) && AllRepo(r.repo) && r.tag != "" && AllRepo(r.tag)
  }

  predicate GoodRef(r: Ref) {
    Printable(r) && r.repo != ""
  }

  /** `registry.Image.String` */
  function Name(r: Ref): string {
    if r.tag == "" then r.library + "/" + r.repo else r.library + "/" + r.repo + ":" + r.tag
  }

  /** How the index reads an image name: the host is dropped and a missing tag means latest. */
  function Resolve(image: string): Result<Ref, TagError> {
    var parsed := Parse(image);
    if parsed.Err? then Err(BadName)
    else
      var id := parsed.value;
      Ok(Ref(id.user, id.repo, if id.tag == "" then LATEST else id.tag))
  }

  /** `ImagePath`: the name joined to the registry's address. */
  function ImagePath(address: Address, r: Ref): string {
    Paths.PathJoin([address.Text(), Name(r)])
  }

  lemma {:induction false} NameIsPrint(r: Ref)
    requires Printable(r)
    ensures Name(r) == Print(ImageID("", 0, r.library, r.repo, r.tag))
  {
    assert r.library + "/" + r.repo + ":" + r.tag == "" + (r.library + "/") + r.repo + (":" + r.tag);
  }

  /** A printed name leads back to its place in the index. */
  lemma {:induction false} ResolveName(r: Ref)
    requires Printable(r)
    ensures Resolve(Name(r)) == Ok(r)
  {
    NameIsPrint(r);
    RoundTrip(ImageID("", 0, r.library, r.repo, r.tag));
  }

  /** No two places share a printed name, hence a key of the store. */
  lemma {:induction false} NameInjective(a: Ref, b: Ref)
    requires GoodRef(a) && GoodRef(b) && Name(a) == Name(b)
    ensures a == b
  {
    ResolveName(a);
    ResolveName(b);
  }

  lemma {:induction false} PartsPlain(r: Ref)
    requires GoodRef(r)
    ensures Paths.Plain(r.library) && Paths.Plain(r.repo + ":" + r.tag)
  {
    var last := r.repo + ":" + r.tag;
    assert last[|r.repo|] == ':' && r.library[0] != '.';
  }

  lemma {:induction false} Reassociate(a: string, b: string, c: string, d: string)
    ensures a + "/" + (b + "/" + c + ":" + d) == a + "/" + b + "/" + c + ":" + d
    ensures b + "/" + (c + ":" + d) == b + "/" + c + ":" + d
  {}

  lemma {:induction false} ImagePathIsPrint(address: Address, r: Ref)
    requires address.Valid() && GoodRef(r)
    ensures ImagePath(address, r) == Print(ImageID(address.host, address.port, r.library, r.repo, r.tag))
  {
    PartsPlain(r);
    Paths.TwoPartsClean(r.library, r.repo + ":" + r.tag);
    Reassociate(address.Text(), r.library, r.repo, r.tag);
    Paths.PathJoinTwo(address.Text(), Name(r));
    PrintFull(ImageID(address.host, address.port, r.library, r.repo, r.tag));
  }

  /** The full path stored with a snapshot leads back to the same place in the index. */
  lemma {:induction false} ResolveImagePath(address: Address, r: Ref)
    requires address.Valid() && GoodRef(r)
    ensures Resolve(ImagePath(address, r)) == Ok(r)
  {
    ImagePathIsPrint(address, r);
    RoundTrip(ImageID(address.host, address.port, r.library, r.repo, r.tag));
  }

  // ---------------------------------------------------------------- the index

  ghost predicate GoodIndex(ix: Index) {
    forall r | r in ix :: GoodRef(r) && ix[r].uuid != ""
  }

  function Find(ix: Index, image: string): (f: Result<(Ref, Version), TagError>)
    ensures f.Ok? ==> f.value.0 in ix && ix[f.value.0] == f.value.1
  {
    var ref :- Resolve(image);
    if ref in ix then Ok((ref, ix[ref])) else Err(NotFound)
  }

  /** `PushImage`: the entry must pass validation. */
  function Push(ix: Index, image: string, v: Version): Result<Index, TagError> {
    var ref :- Resolve(image);
    if ref.library == "" || ref.repo == "" || v.uuid == "" then Err(InvalidImage) else Ok(ix[ref := v])
  }

  lemma {:induction false} PushName(ix: Index, r: Ref, v: Version)
    requires GoodRef(r) && v.uuid != ""
    ensures Push(ix, Name(r), v) == Ok(ix[r := v])
  {
    ResolveName(r);
  }

  // ---------------------------------------------------------------- taking a snapshot

  /** One round of the relabelling loop; the result holds the path that is stored with the snapshot. */
  function RelabelOne(ix: Index, image: string, snapLabel: string, address: Address, local: Ref -> bool)
    : Result<(Index, string), TagError>
  {
    var (source, v) :- Find(ix, image);
    if !local(source) then Err(NotLocal)
    else
      var target := source.(tag := snapLabel);
      var pushed :- Push(ix, Name(target), v);
      Ok((pushed, ImagePath(address, target)))
  }

  /** The relabelling loop; it stops at the first image that cannot be found, is not local or cannot be pushed. */
  function Relabel(ix: Index, images: seq<string>, snapLabel: string, address: Address, local: Ref -> bool)
    : (Index, Result<seq<string>, TagError>)
    decreases |images|
  {
    if images == [] then (ix, Ok([]))
    else
      var one := RelabelOne(ix, images[0], snapLabel, address, local);
      if one.Err? then (ix, Err(one.error))
      else
        var (end, rest) := Relabel(one.value.0, images[1..], snapLabel, address, local);
        if rest.Err? then (end, rest) else (end, Ok([one.value.1] + rest.value))
  }

  /** The index changed at most at the snapshot's tags. */
  ghost predicate OnlyTagged(before: Index, after: Index, tag: string) {
    forall r: Ref | r.tag != tag :: (r in before <==> r in after) && (r in before ==> before[r] == after[r])
  }

  predicate GoodLabel(snapLabel: string) {
    snapLabel != "" && AllRepo(snapLabel) && snapLabel != LATEST
  }

  /** The image's place under the snapshot's label. */
  function Target(image: string, snapLabel: string): Ref
    requires Resolve(image).Ok?
  {
    Resolve(image).value.(tag := snapLabel)
  }

  /** A round that succeeds copies the version it finds to the image's place under the label. */
  lemma {:induction false} RelabelOneCopies(
    ix: Index, image: string, snapLabel: string, address: Address, local: Ref -> bool)
    requires GoodIndex(ix) && GoodLabel(snapLabel) && RelabelOne(ix, image, snapLabel, address, local).Ok?
    ensures Find(ix, image).Ok? && Resolve(image).Ok? && GoodRef(Target(image, snapLabel))
    ensures var target := Target(image, snapLabel);
            var next := ix[target := Find(ix, image).value.1];
            && RelabelOne(ix, image, snapLabel, address, local).value == (next, ImagePath(address, target))
            && GoodIndex(next) && OnlyTagged(ix, next, snapLabel)
  {
    var (source, v) := Find(ix, image).value;
    PushName(ix, source.(tag := snapLabel), v);
  }

  /** A round succeeds if and only if the image is in the index and is local. */
  lemma {:induction false} RelabelOneIff(
    ix: Index, image: string, snapLabel: string, address: Address, local: Ref -> bool)
    requires GoodIndex(ix) && GoodLabel(snapLabel)
    ensures RelabelOne(ix, image, snapLabel, address, local).Ok? <==>
            Find(ix, image).Ok? && local(Find(ix, image).value.0)
  {
    if Find(ix, image).Ok? {
      var (source, v) := Find(ix, image).value;
      PushName(ix, source.(tag := snapLabel), v);
    }
  }

  lemma {:induction false} OnlyTaggedTrans(a: Index, b: Index, c: Index, tag: string)
    requires OnlyTagged(a, b, tag) && OnlyTagged(b, c, tag)
    ensures OnlyTagged(a, c, tag)
  {}

  /** The loop leaves a good index, changed at most at the snapshot's own tags. */
  lemma {:induction false} RelabelFrame(
    ix: Index, images: seq<string>, snapLabel: string, address: Address, local: Ref -> bool)
    requires GoodIndex(ix) && GoodLabel(snapLabel)
    ensures var end := Relabel(ix, images, snapLabel, address, local).0;
            GoodIndex(end) && OnlyTagged(ix, end, snapLabel)
    decreases |images|
  {
    if images != [] && RelabelOne(ix, images[0], snapLabel, address, local).Ok? {
      RelabelOneCopies(ix, images[0], snapLabel, address, local);
      var next := RelabelOne(ix, images[0], snapLabel, address, local).value.0;
      RelabelFrame(next, images[1..], snapLabel, address, local);
      OnlyTaggedTrans(ix, next, Relabel(next, images[1..], snapLabel, address, local).0, snapLabel);
    }
  }

  /** One round of a loop that succeeds. */
  lemma {:induction false} RelabelCons(
    ix: Index, images: seq<string>, snapLabel: string, address: Address, local: Ref -> bool) returns (next: Index)
    requires GoodIndex(ix) && GoodLabel(snapLabel) && images != []
    requires Relabel(ix, images, snapLabel, address, local).1.Ok?
    ensures Find(ix, images[0]).Ok? && Resolve(images[0]).Ok? && GoodRef(Target(images[0], snapLabel))
    ensures next == ix[Target(images[0], snapLabel) := Find(ix, images[0]).value.1] && GoodIndex(next)
    ensures var (end, r) := Relabel(ix, images, snapLabel, address, local);
            var (end', r') := Relabel(next, images[1..], snapLabel, address, local);
            end == end' && r'.Ok? && r.value == [ImagePath(address, Target(images[0], snapLabel))] + r'.value
  {
    RelabelOneCopies(ix, images[0], snapLabel, address, local);
    next := RelabelOne(ix, images[0], snapLabel, address, local).value.0;
  }

  /** The stored path leads to a place under the snapshot's label. */
  predicate Leads(snapLabel: string, path: string) {
    Resolve(path).Ok? && Resolve(path).value.tag == snapLabel
  }

  ghost predicate AllLead(snapLabel: string, paths: seq<string>) {
    forall i | 0 <= i < |paths| :: Leads(snapLabel, paths[i])
  }

  /** The index has an entry where the stored path leads. */
  ghost predicate Held(ix: Index, snapLabel: string, path: string) {
    Leads(snapLabel, path) && Resolve(path).value in ix
  }

  ghost predicate AllHeld(ix: Index, snapLabel: string, paths: seq<string>) {
    forall i | 0 <= i < |paths| :: Held(ix, snapLabel, paths[i])
  }

  /** The loop takes no entry away. */
  lemma {:induction false} RelabelGrows(
    ix: Index, images: seq<string>, snapLabel: string, address: Address, local: Ref -> bool)
    requires GoodIndex(ix) && GoodLabel(snapLabel) && Relabel(ix, images, snapLabel, address, local).1.Ok?
    ensures ix.Keys <= Relabel(ix, images, snapLabel, address, local).0.Keys
    decreases |images|
  {
    if images != [] {
      var next := RelabelCons(ix, images, snapLabel, address, local);
      RelabelGrows(next, images[1..], snapLabel, address, local);
    }
  }

  /** Each stored path leads to its own image's place. */
  ghost predicate LeadTo(paths: seq<string>, images: seq<string>, snapLabel: string) {
    |paths| == |images| &&
    forall i | 0 <= i < |images| :: Resolve(images[i]).Ok? && Resolve(paths[i]) == Ok(Target(images[i], snapLabel))
  }

  /** A successful snapshot stores a path per image, and the index holds all of them. */
  lemma {:induction false} RelabelTakes(
    ix: Index, images: seq<string>, snapLabel: string, address: Address, local: Ref -> bool)
    requires address.Valid() && GoodIndex(ix) && GoodLabel(snapLabel)
    requires Relabel(ix, images, snapLabel, address, local).1.Ok?
    ensures var (end, r) := Relabel(ix, images, snapLabel, address, local);
            && LeadTo(r.value, images, snapLabel) && AllHeld(end, snapLabel, r.value)
            && forall i | 0 <= i < |images| :: local(Resolve(images[i]).value)
    decreases |images|
  {
    if images != [] {
      var next := RelabelCons(ix, images, snapLabel, address, local);
      RelabelOneIff(ix, images[0], snapLabel, address, local);
      var (end, rest) := Relabel(next, images[1..], snapLabel, address, local);
      RelabelTakes(next, images[1..], snapLabel, address, local);
      RelabelGrows(next, images[1..], snapLabel, address, local);
      assert forall i | 1 <= i < |images| :: images[i] == images[1..][i - 1];
      TakesCons(end, images, snapLabel, ImagePath(address, Target(images[0], snapLabel)), rest.value) by {
        ResolveImagePath(address, Target(images[0], snapLabel));
      }
    }
  }

  lemma {:induction false} TakesCons(
    end: Index, images: seq<string>, snapLabel: string, path: string, rest: seq<string>)
    requires images != [] && Resolve(images[0]).Ok? && Resolve(path) == Ok(Target(images[0], snapLabel))
    requires Target(images[0], snapLabel) in end
    requires LeadTo(rest, images[1..], snapLabel) && AllHeld(end, snapLabel, rest)
    ensures LeadTo([path] + rest, images, snapLabel) && AllHeld(end, snapLabel, [path] + rest)
  {
    assert forall i | 1 <= i < |images| :: images[i] == images[1..][i - 1] && ([path] + rest)[i] == rest[i - 1];
  }

  // ---------------------------------------------------------------- which version a snapshot holds

  predicate SameImage(a: Ref, b: Ref) {
    a.library == b.library && a.repo == b.repo
  }

  /** The image is found, in the given version, if it is one of the given repository. */
  ghost predicate AtVersion(ix: Index, image: string, of: Ref, v: Version) {
    Resolve(image).Ok? && SameImage(Resolve(image).value, of) ==>
      Resolve(image).value in ix && ix[Resolve(image).value] == v
  }

  ghost predicate AllAtVersion(ix: Index, images: seq<string>, of: Ref, v: Version) {
    forall i | 0 <= i < |images| :: AtVersion(ix, images[i], of, v)
  }

  ghost predicate Among(images: seq<string>, of: Ref) {
    exists i | 0 <= i < |images| :: Resolve(images[i]).Ok? && SameImage(Resolve(images[i]).value, of)
  }

  lemma {:induction false} AmongCons(images: seq<string>, of: Ref)
    requires images != [] && Among(images, of)
    ensures (Resolve(images[0]).Ok? && SameImage(Resolve(images[0]).value, of)) || Among(images[1..], of)
  {
    var i :| 0 <= i < |images| && Resolve(images[i]).Ok? && SameImage(Resolve(images[i]).value, of);
    assert i > 0 ==> images[i] == images[1..][i - 1];
  }

  /** A round of the loop keeps the version of a repository whose images all have it. */
  lemma {:induction false} AtVersionStays(
    ix: Index, first: Ref, snapLabel: string, image: string, of: Ref, v: Version)
    requires first in ix && (SameImage(first, of) ==> ix[first] == v) && AtVersion(ix, image, of, v)
    ensures AtVersion(ix[first.(tag := snapLabel) := ix[first]], image, of, v)
  {}

  /** If all images of a repository have one version at the start, that is what the snapshot holds of it. */
  lemma {:induction false} RelabelUniform(
    ix: Index, images: seq<string>, snapLabel: string, address: Address, local: Ref -> bool, target: Ref, v: Version)
    requires GoodIndex(ix) && GoodLabel(snapLabel) && target.tag == snapLabel && AllAtVersion(ix, images, target, v)
    ensures var (end, r) := Relabel(ix, images, snapLabel, address, local);
            r.Ok? && ((target in ix && ix[target] == v) || Among(images, target)) ==> target in end && end[target] == v
    decreases |images|
  {
    if images != [] && Relabel(ix, images, snapLabel, address, local).1.Ok? {
      var next := RelabelCons(ix, images, snapLabel, address, local);
      var first, rest := Resolve(images[0]).value, images[1..];
      assert AtVersion(ix, images[0], target, v);
      forall i | 0 <= i < |rest| ensures AtVersion(next, rest[i], target, v) {
        assert AtVersion(ix, images[i + 1], target, v);
        AtVersionStays(ix, first, snapLabel, rest[i], target, v);
      }
      if SameImage(first, target) {
        assert first.(tag := snapLabel) == target;
      } else if Among(images, target) {
        AmongCons(images, target);
      }
      RelabelUniform(next, rest, snapLabel, address, local, target, v);
    }
  }

  // ---------------------------------------------------------------- rolling back

  /** One round of the retagging loop. */
  function RetagOne(ix: Index, path: string): Result<Index, TagError> {
    var (r, v) :- Find(ix, path);
    Push(ix, Name(r.(tag := LATEST)), v)
  }

  /** The retagging loop over the stored paths; it stops at the first image that cannot be found or pushed. */
  function Retag(ix: Index, paths: seq<string>): (Index, Option<TagError>)
    decreases |paths|
  {
    if paths == [] then (ix, None)
    else
      var one := RetagOne(ix, paths[0]);
      if one.Err? then (ix, Some(one.error)) else Retag(one.value, paths[1..])
  }

  /** The index once `latest` of an image is what it holds at the given place. */
  function MadeLatest(ix: Index, r: Ref): Index
    requires r in ix
  {
    ix[r.(tag := LATEST) := ix[r]]
  }

  /** `latest` of the image at the given place is what the index holds there. */
  ghost predicate IsLatest(ix: Index, r: Ref) {
    r in ix && r.(tag := LATEST) in ix && ix[r.(tag := LATEST)] == ix[r]
  }

  /** Whatever a round of the loop does, it writes only a latest tag. */
  lemma {:induction false} RetagOneFrame(ix: Index, path: string)
    requires GoodIndex(ix) && RetagOne(ix, path).Ok?
    ensures var next := RetagOne(ix, path).value; GoodIndex(next) && OnlyTagged(ix, next, LATEST)
    ensures Resolve(path).Ok? && Resolve(path).value in ix
  {
    LatestGood();
    var r := Resolve(path).value;
    PushName(ix, r.(tag := LATEST), ix[r]);
  }

  lemma {:induction false} RetagFrame(ix: Index, paths: seq<string>)
    requires GoodIndex(ix)
    ensures var end := Retag(ix, paths).0; GoodIndex(end) && OnlyTagged(ix, end, LATEST)
    decreases |paths|
  {
    if paths != [] && RetagOne(ix, paths[0]).Ok? {
      RetagOneFrame(ix, paths[0]);
      var next := RetagOne(ix, paths[0]).value;
      RetagFrame(next, paths[1..]);
      OnlyTaggedTrans(ix, next, Retag(next, paths[1..]).0, LATEST);
    }
  }

  /** A rollback that succeeds has found every image. */
  lemma {:induction false} RetagNeedsHeld(ix: Index, snapLabel: string, paths: seq<string>)
    requires GoodIndex(ix) && snapLabel != LATEST && AllLead(snapLabel, paths) && Retag(ix, paths).1.None?
    ensures AllHeld(ix, snapLabel, paths)
    decreases |paths|
  {
    if paths != [] {
      RetagOneFrame(ix, paths[0]);
      var next, rest := RetagOne(ix, paths[0]).value, paths[1..];
      RetagNeedsHeld(next, snapLabel, rest);
      forall i | 0 <= i < |paths| ensures Held(ix, snapLabel, paths[i]) {
        assert Leads(snapLabel, paths[i]);
        if i > 0 {
          assert paths[i] == rest[i - 1] && Held(next, snapLabel, rest[i - 1]);
        }
      }
    }
  }

  lemma {:induction false} RetagOneHeld(ix: Index, snapLabel: string, path: string)
    requires GoodIndex(ix) && snapLabel != LATEST && Held(ix, snapLabel, path)
    ensures var r := Resolve(path).value;
            && RetagOne(ix, path) == Ok(MadeLatest(ix, r)) && GoodIndex(MadeLatest(ix, r))
            && IsLatest(MadeLatest(ix, r), r)
  {
    var r := Resolve(path).value;
    LatestGood();
    PushName(ix, r.(tag := LATEST), ix[r]);
  }

  lemma {:induction false} LatestGood()
    ensures LATEST != "" && AllRepo(LATEST)
  {}

  /** Writing `latest` of one image leaves what other labels hold. */
  lemma {:induction false} HeldAfterLatest(ix: Index, r: Ref, snapLabel: string, paths: seq<string>)
    requires r in ix && snapLabel != LATEST && AllHeld(ix, snapLabel, paths)
    ensures AllHeld(MadeLatest(ix, r), snapLabel, paths)
  {
    forall i | 0 <= i < |paths| ensures Held(MadeLatest(ix, r), snapLabel, paths[i]) {
      assert Held(ix, snapLabel, paths[i]);
    }
  }

  lemma {:induction false} RetagCons(ix: Index, snapLabel: string, paths: seq<string>)
    requires GoodIndex(ix) && snapLabel != LATEST && AllHeld(ix, snapLabel, paths) && paths != []
    ensures Held(ix, snapLabel, paths[0])
    ensures var r := Resolve(paths[0]).value;
            && Retag(ix, paths) == Retag(MadeLatest(ix, r), paths[1..])
            && GoodIndex(MadeLatest(ix, r)) && AllHeld(MadeLatest(ix, r), snapLabel, paths[1..])
            && IsLatest(MadeLatest(ix, r), r) && OnlyTagged(ix, MadeLatest(ix, r), LATEST)
  {
    assert Held(ix, snapLabel, paths[0]);
    RetagOneHeld(ix, snapLabel, paths[0]);
    HeldAfterLatest(ix, Resolve(paths[0]).value, snapLabel, paths);
    assert forall i | 1 <= i < |paths| :: paths[i] == paths[1..][i - 1];
  }

  /** Two stored paths of one repository lead to one place, so a later round writes what an earlier one wrote. */
  lemma {:induction false} LatestStays(ix: Index, snapLabel: string, r: Ref, u: Ref)
    requires snapLabel != LATEST && r.tag == snapLabel && u.tag == snapLabel && u in ix && IsLatest(ix, r)
    ensures IsLatest(MadeLatest(ix, u), r)
  {
    if r.(tag := LATEST) == u.(tag := LATEST) {
      assert r == u;
    }
  }

  lemma {:induction false} RetagKeepsLatest(ix: Index, snapLabel: string, paths: seq<string>, r: Ref)
    requires GoodIndex(ix) && snapLabel != LATEST && AllHeld(ix, snapLabel, paths)
    requires r.tag == snapLabel && IsLatest(ix, r)
    ensures IsLatest(Retag(ix, paths).0, r)
    decreases |paths|
  {
    if paths != [] {
      RetagCons(ix, snapLabel, paths);
      var u := Resolve(paths[0]).value;
      LatestStays(ix, snapLabel, r, u);
      RetagKeepsLatest(MadeLatest(ix, u), snapLabel, paths[1..], r);
    }
  }

  ghost predicate AllLatest(ix: Index, paths: seq<string>) {
    forall i | 0 <= i < |paths| :: Resolve(paths[i]).Ok? && IsLatest(ix, Resolve(paths[i]).value)
  }

  /** Rolling back to held images cannot fail, writes only latest tags, and makes each held version the latest. */
  lemma {:induction false} RetagRestores(ix: Index, snapLabel: string, paths: seq<string>)
    requires GoodIndex(ix) && snapLabel != LATEST && AllHeld(ix, snapLabel, paths)
    ensures var (end, err) := Retag(ix, paths);
            err.None? && GoodIndex(end) && OnlyTagged(ix, end, LATEST) && AllLatest(end, paths)
    decreases |paths|
  {
    if paths != [] {
      RetagCons(ix, snapLabel, paths);
      var r, rest := Resolve(paths[0]).value, paths[1..];
      RetagRestores(MadeLatest(ix, r), snapLabel, rest);
      RetagKeepsLatest(MadeLatest(ix, r), snapLabel, rest, r);
      assert forall i | 1 <= i < |paths| :: paths[i] == rest[i - 1];
    }
  }

  // ---------------------------------------------------------------- the writers of `latest`

  /** `Download`; `pulled` is the image found locally or pulled from upstream, if any. */
  function Download(
    ix: Index, image: string, tenant: string, upgrade: bool, pulled: Option<Version>)
    : (Index, Result<string, TagError>)
  {
    var here := Find(ix, image);
    if !upgrade && here.Err? && here.error != NotFound then (ix, Err(here.error))
    else if !upgrade && Deployed(ix, image, tenant) then (ix, Ok(Name(here.value.0)))
    else
      var parsed := Parse(image);
      if parsed.Err? then (ix, Err(BadName))
      else if pulled.None? then (ix, Err(PullFailed))
      else
        var name := Name(Ref(tenant, parsed.value.repo, LATEST));
        var current := Find(ix, name);
        if current.Err? && current.error != NotFound then (ix, Err(current.error))
        else if current.Ok? && current.value.1.uuid == pulled.value.uuid then (ix, Ok(name))
        else if current.Ok? && !upgrade then (ix, Err(Collision))
        else
          var pushed := Push(ix, name, pulled.value);
          if pushed.Err? then (ix, Err(pushed.error)) else (pushed.value, Ok(name))
  }

  /** A stopped container: the name and the version of the image it was started from. */
  datatype Container = Container(image: string, uuid: string, hash: Option<string>)

  predicate ImagesIdentical(v: Version, ctr: Container) {
    v.uuid == ctr.uuid || ctr.hash == Some(v.hash)
  }

  /** `Commit`; `committed` is the image docker made of the container, if it made one. */
  function Commit(ix: Index, ctr: Container, committed: Option<Version>): (Index, Result<string, TagError>) {
    var found := Find(ix, ctr.image);
    if found.Err? then (ix, Err(found.error))
    else
      var (r, v) := found.value;
      if r.tag != LATEST || !ImagesIdentical(v, ctr) then (ix, Err(Stale))
      else if committed.None? then (ix, Err(PullFailed))
      else
        var pushed := Push(ix, Name(r), committed.value);
        if pushed.Err? then (ix, Err(pushed.error)) else (pushed.value, Ok(r.library))
  }

  /** The image is the latest of its repository in the tenant's library already. */
  predicate Deployed(ix: Index, image: string, tenant: string) {
    var found := Find(ix, image);
    found.Ok? && found.value.0.library == tenant && found.value.0.tag == LATEST
  }

  /** Where a download puts the image. */
  function DownloadTarget(image: string, tenant: string): Ref
    requires Parse(image).Ok?
  {
    Ref(tenant, Parse(image).value.repo, LATEST)
  }

  lemma {:induction false} TargetResolves(image: string, tenant: string)
    requires Parse(image).Ok? && tenant != "" && AllUser(tenant)
    ensures Resolve(Name(DownloadTarget(image, tenant))) == Ok(DownloadTarget(image, tenant))
  {
    ParseSound(image);
    LatestGood();
    ResolveName(DownloadTarget(image, tenant));
  }

  lemma {:induction false} PushPlace(ix: Index, name: string, r: Ref, v: Version)
    requires Resolve(name) == Ok(r)
    ensures Push(ix, name, v) ==
            if r.library == "" || r.repo == "" || v.uuid == "" then Err(InvalidImage) else Ok(ix[r := v])
  {}

  /** What a download does when the image is not deployed yet, in terms of the place it is meant for. */
  lemma {:induction false} DownloadFresh(
    ix: Index, image: string, tenant: string, upgrade: bool, pulled: Option<Version>)
    requires tenant != "" && AllUser(tenant) && Parse(image).Ok? && (upgrade || !Deployed(ix, image, tenant))
    ensures var (end, r) := Download(ix, image, tenant, upgrade, pulled);
            var target := DownloadTarget(image, tenant);
            if pulled.None? then end == ix && r == Err(PullFailed)
            else if target in ix && ix[target].uuid == pulled.value.uuid then end == ix && r == Ok(Name(target))
            else if target in ix && !upgrade then end == ix && r == Err(Collision)
            else if target.repo == "" || pulled.value.uuid == "" then end == ix && r == Err(InvalidImage)
            else end == ix[target := pulled.value] && r == Ok(Name(target))
  {
    TargetResolves(image, tenant);
    if pulled.Some? {
      var target := DownloadTarget(image, tenant);
      PushPlace(ix, Name(target), target, pulled.value);
    }
  }

  /** A download of something that cannot be parsed changes nothing and fails. */
  lemma {:induction false} DownloadUnparsed(
    ix: Index, image: string, tenant: string, upgrade: bool, pulled: Option<Version>)
    requires Parse(image).Err?
    ensures Download(ix, image, tenant, upgrade, pulled) == (ix, Err(BadName))
  {}

  /** Without upgrade, a download changes no entry that is there. */
  lemma {:induction false} DownloadKeepsEntries(
    ix: Index, image: string, tenant: string, pulled: Option<Version>, r: Ref)
    requires tenant != "" && AllUser(tenant) && r in ix
    ensures var end := Download(ix, image, tenant, false, pulled).0; r in end && end[r] == ix[r]
  {
    if Parse(image).Ok? && !Deployed(ix, image, tenant) {
      DownloadFresh(ix, image, tenant, false, pulled);
    }
  }

  /**
   A download collides if and only if it is no upgrade, the image is not deployed yet, something
   was pulled, and the tenant has a latest image of that repository under another id.
   */
  lemma {:induction false} DownloadCollidesIff(
    ix: Index, image: string, tenant: string, upgrade: bool, pulled: Option<Version>)
    requires tenant != "" && AllUser(tenant)
    ensures Download(ix, image, tenant, upgrade, pulled).1 == Err(Collision) <==>
            && !upgrade && !Deployed(ix, image, tenant) && pulled.Some? && Parse(image).Ok?
            && DownloadTarget(image, tenant) in ix && ix[DownloadTarget(image, tenant)].uuid != pulled.value.uuid
  {
    if Parse(image).Ok? && (upgrade || !Deployed(ix, image, tenant)) {
      DownloadFresh(ix, image, tenant, upgrade, pulled);
    }
  }

  /**
   A download succeeds if and only if the image is deployed already, and no upgrade is asked for,
   or something was pulled that is in place already or can be put there; and then the name it
   returns leads to an entry that, unless the image was deployed, has the id of what was pulled.
   */
  lemma {:induction false} DownloadSucceedsIff(
    ix: Index, image: string, tenant: string, upgrade: bool, pulled: Option<Version>)
    requires GoodIndex(ix) && tenant != "" && AllUser(tenant)
    ensures var (end, r) := Download(ix, image, tenant, upgrade, pulled);
            && (r.Ok? <==> (!upgrade && Deployed(ix, image, tenant)) || CanPlace(ix, image, tenant, upgrade, pulled))
            && (r.Ok? ==> Resolve(r.value).Ok? && Resolve(r.value).value in end)
            && (r.Ok? && !upgrade && Deployed(ix, image, tenant) ==> end == ix && Resolve(r.value) == Resolve(image))
            && (r.Ok? && (upgrade || !Deployed(ix, image, tenant)) ==>
                  && Resolve(r.value).value == DownloadTarget(image, tenant)
                  && end[Resolve(r.value).value].uuid == pulled.value.uuid)
  {
    if !upgrade && Deployed(ix, image, tenant) {
      ResolveName(Resolve(image).value);
    } else if Parse(image).Ok? {
      TargetResolves(image, tenant);
      DownloadFresh(ix, image, tenant, upgrade, pulled);
    }
  }

  /** What was pulled is in place already, or the place is free or may be overwritten. */
  predicate CanPlace(ix: Index, image: string, tenant: string, upgrade: bool, pulled: Option<Version>) {
    && Parse(image).Ok? && pulled.Some?
    && var target := DownloadTarget(image, tenant);
    if target in ix && ix[target].uuid == pulled.value.uuid then true
    else (target !in ix || upgrade) && target.repo != "" && pulled.value.uuid != ""
  }

  lemma {:induction false} DownloadTouchesLatest(
    ix: Index, image: string, tenant: string, upgrade: bool, pulled: Option<Version>)
    requires GoodIndex(ix) && tenant != "" && AllUser(tenant)
    ensures var end := Download(ix, image, tenant, upgrade, pulled).0; GoodIndex(end) && OnlyTagged(ix, end, LATEST)
  {
    if Parse(image).Ok? && (upgrade || !Deployed(ix, image, tenant)) {
      DownloadFresh(ix, image, tenant, upgrade, pulled);
      ParseSound(image);
      LatestGood();
    }
  }

  /** The container was started from an image that is the latest of its repository, in that very version. */
  predicate Committable(ix: Index, ctr: Container) {
    var found := Find(ix, ctr.image);
    found.Ok? && found.value.0.tag == LATEST && ImagesIdentical(found.value.1, ctr)
  }

  /**
   A commit succeeds if and only if the container's image is the latest and identical and docker
   made an image of the container; and then that image is the latest, nothing else changes, and the
   library is returned. A commit that fails changes nothing.
   */
  lemma {:induction false} CommitSucceedsIff(ix: Index, ctr: Container, committed: Option<Version>)
    requires GoodIndex(ix)
    ensures var (end, r) := Commit(ix, ctr, committed);
            && (r.Ok? <==> Committable(ix, ctr) && committed.Some? && committed.value.uuid != "")
            && (r.Ok? ==> end == ix[Resolve(ctr.image).value := committed.value]
                          && r.value == Resolve(ctr.image).value.library)
            && (r.Err? ==> end == ix)
  {
    if Committable(ix, ctr) && committed.Some? {
      var r := Resolve(ctr.image).value;
      ResolveName(r);
      PushPlace(ix, Name(r), r, committed.value);
    }
  }

  lemma {:induction false} CommitTouchesLatest(ix: Index, ctr: Container, committed: Option<Version>)
    requires GoodIndex(ix)
    ensures var end := Commit(ix, ctr, committed).0; GoodIndex(end) && OnlyTagged(ix, end, LATEST)
  {
    CommitSucceedsIff(ix, ctr, committed);
  }

  // ---------------------------------------------------------------- whole runs

  datatype SnapId = SnapId(tenant: string, snapLabel: string)

  /** The index, and the image paths stored with each snapshot. */
  datatype State = State(index: Index, snaps: map<SnapId, seq<string>>)

  /** Kept snapshots have labels of their own, and their paths lead to places under these. */
  ghost predicate Valid(st: State) {
    && GoodIndex(st.index)
    && (forall id | id in st.snaps :: GoodLabel(id.snapLabel) && AllLead(id.snapLabel, st.snaps[id]))
    && (forall a, b | a in st.snaps && b in st.snaps && a.snapLabel == b.snapLabel :: a == b)
  }

  /** A snapshot still finds all its images. */
  ghost predicate Intact(st: State, id: SnapId) {
    id in st.snaps && AllHeld(st.index, id.snapLabel, st.snaps[id])
  }

  datatype Event =
    | Downloaded(image: string, tenant: string, upgrade: bool, pulled: Option<Version>)
    | Committed(ctr: Container, committed: Option<Version>)
    | Taken(id: SnapId, images: seq<string>, local: Ref -> bool)
    | Removed(id: SnapId)
    | RemovalFailed(id: SnapId, gone: set<Ref>)
    | RolledBack(id: SnapId)

  /** `deleteImages`: everything in the tenant's library under the label goes. */
  function Untag(ix: Index, tenant: string, tag: string): Index {
    map r | r in ix && !(r.library == tenant && r.tag == tag) :: ix[r]
  }

  function Next(st: State, e: Event, address: Address): State {
    match e
    case Downloaded(image, tenant, upgrade, pulled) =>
      st.(index := Download(st.index, image, tenant, upgrade, pulled).0)
    case Committed(ctr, committed) => st.(index := Commit(st.index, ctr, committed).0)
    case Taken(id, images, local) =>
      var (end, r) := Relabel(st.index, images, id.snapLabel, address, local);
      State(end, if r.Ok? then st.snaps[id := r.value] else st.snaps)
    case Removed(id) =>
      if id in st.snaps then State(Untag(st.index, id.tenant, id.snapLabel), st.snaps - {id}) else st
    case RemovalFailed(id, gone) =>
      if id in st.snaps then st.(index := st.index - gone) else st
    case RolledBack(id) =>
      if id in st.snaps then st.(index := Retag(st.index, st.snaps[id]).0) else st
  }

  /**
   Labels are never reused while their snapshot is kept. A deletion that fails, while it removes
   images or when it then removes the volume's snapshot, has removed some or all of the images.
   */
  predicate Allowed(st: State, e: Event) {
    match e
    case Downloaded(_, tenant, _, _) => tenant != "" && AllUser(tenant)
    case Taken(id, _, _) => GoodLabel(id.snapLabel) && forall k | k in st.snaps :: k.snapLabel != id.snapLabel
    case RemovalFailed(id, gone) => forall r | r in gone :: r.library == id.tenant && r.tag == id.snapLabel
    case _ => true
  }

  /** The tags a step may change. */
  predicate Touches(e: Event, tag: string) {
    match e
    case Taken(id, _, _) => tag == id.snapLabel
    case Removed(id) => tag == id.snapLabel
    case RemovalFailed(id, _) => tag == id.snapLabel
    case _ => tag == LATEST
  }

  /** Nothing changed at the tag. */
  ghost predicate SameAt(before: Index, after: Index, tag: string) {
    forall r: Ref | r.tag == tag :: (r in before <==> r in after) && (r in before ==> before[r] == after[r])
  }

  lemma {:induction false} TakeStepValid(
    st: State, id: SnapId, images: seq<string>, local: Ref -> bool, address: Address)
    requires address.Valid() && Valid(st) && Allowed(st, Taken(id, images, local))
    ensures var st' := Next(st, Taken(id, images, local), address);
            Valid(st') && (Relabel(st.index, images, id.snapLabel, address, local).1.Ok? ==> Intact(st', id))
  {
    RelabelFrame(st.index, images, id.snapLabel, address, local);
    var (end, r) := Relabel(st.index, images, id.snapLabel, address, local);
    if r.Ok? {
      RelabelTakes(st.index, images, id.snapLabel, address, local);
      forall i | 0 <= i < |r.value| ensures Leads(id.snapLabel, r.value[i]) {
        assert Held(end, id.snapLabel, r.value[i]);
      }
    }
  }

  /** Every step keeps the invariant and changes nothing at the tags it has no business with. */
  lemma {:induction false} StepValid(st: State, e: Event, address: Address, tag: string)
    requires address.Valid() && Valid(st) && Allowed(st, e)
    ensures Valid(Next(st, e, address))
    ensures !Touches(e, tag) ==> SameAt(st.index, Next(st, e, address).index, tag)
  {
    match e
    case Downloaded(image, tenant, upgrade, pulled) => DownloadTouchesLatest(st.index, image, tenant, upgrade, pulled);
    case Committed(ctr, committed) => CommitTouchesLatest(st.index, ctr, committed);
    case Taken(id, images, local) =>
      RelabelFrame(st.index, images, id.snapLabel, address, local);
      TakeStepValid(st, id, images, local, address);
    case Removed(id) =>
    case RemovalFailed(id, gone) =>
    case RolledBack(id) => if id in st.snaps { RetagFrame(st.index, st.snaps[id]); }
  }

  /** The step removes the snapshot, or tries to. */
  predicate Deletes(e: Event, id: SnapId) {
    e == Removed(id) || (e.RemovalFailed? && e.id == id)
  }

  /** A step that does not delete a kept snapshot leaves its record and all that its label holds. */
  lemma {:induction false} StepKeeps(st: State, e: Event, address: Address, id: SnapId)
    requires address.Valid() && Valid(st) && Allowed(st, e) && id in st.snaps && !Deletes(e, id)
    ensures var st' := Next(st, e, address);
            && id in st'.snaps && st'.snaps[id] == st.snaps[id]
            && SameAt(st.index, st'.index, id.snapLabel)
  {
    if (e.Removed? || e.RemovalFailed?) && e.id !in st.snaps {
      assert Next(st, e, address) == st;
    } else {
      StepValid(st, e, address, id.snapLabel);
    }
  }

  function Run(st: State, events: seq<Event>, address: Address): State
    decreases |events|
  {
    if events == [] then st else Run(Next(st, events[0], address), events[1..], address)
  }

  ghost predicate AllowedRun(st: State, events: seq<Event>, address: Address)
    decreases |events|
  {
    events == [] || (Allowed(st, events[0]) && AllowedRun(Next(st, events[0], address), events[1..], address))
  }

  /** Over every run a snapshot that nobody tries to delete keeps its record, and its label holds what it held. */
  lemma {:induction false} RunKeeps(st: State, events: seq<Event>, address: Address, id: SnapId)
    requires address.Valid() && Valid(st) && AllowedRun(st, events, address)
    requires id in st.snaps && forall i | 0 <= i < |events| :: !Deletes(events[i], id)
    ensures var end := Run(st, events, address);
            && Valid(end) && id in end.snaps && end.snaps[id] == st.snaps[id]
            && SameAt(st.index, end.index, id.snapLabel)
    decreases |events|
  {
    if events != [] {
      StepValid(st, events[0], address, id.snapLabel);
      StepKeeps(st, events[0], address, id);
      RunKeeps(Next(st, events[0], address), events[1..], address, id);
    }
  }

  /** A label that holds what it held still holds all images, or still misses some. */
  lemma {:induction false} IntactSame(before: Index, after: Index, snapLabel: string, paths: seq<string>)
    requires SameAt(before, after, snapLabel)
    ensures AllHeld(before, snapLabel, paths) <==> AllHeld(after, snapLabel, paths)
  {
    forall i | 0 <= i < |paths| ensures Held(before, snapLabel, paths[i]) <==> Held(after, snapLabel, paths[i]) {}
  }

  /** A rollback succeeds if and only if the snapshot still finds all its images. */
  lemma {:induction false} RollbackSucceedsIff(st: State, id: SnapId)
    requires Valid(st) && id in st.snaps
    ensures Retag(st.index, st.snaps[id]).1.None? <==> Intact(st, id)
  {
    if Intact(st, id) {
      RetagRestores(st.index, id.snapLabel, st.snaps[id]);
    }
    if Retag(st.index, st.snaps[id]).1.None? {
      RetagNeedsHeld(st.index, id.snapLabel, st.snaps[id]);
    }
  }

  /**
   After a deletion that failed, and whatever else happens short of another one, rolling back to
   the snapshot succeeds if and only if none of its images was among those already removed.
   */
  lemma {:induction false} RollbackAfterFailedRemovalIff(
    st: State, id: SnapId, gone: set<Ref>, events: seq<Event>, address: Address)
    requires address.Valid() && Valid(st) && Intact(st, id) && Allowed(st, RemovalFailed(id, gone))
    requires AllowedRun(Next(st, RemovalFailed(id, gone), address), events, address)
    requires forall i | 0 <= i < |events| :: !Deletes(events[i], id)
    ensures var late := Run(Next(st, RemovalFailed(id, gone), address), events, address);
            id in late.snaps &&
            (Retag(late.index, late.snaps[id]).1.None? <==>
             forall i | 0 <= i < |st.snaps[id]| ::
               Resolve(st.snaps[id][i]).Ok? && Resolve(st.snaps[id][i]).value !in gone)
  {
    var st1 := Next(st, RemovalFailed(id, gone), address);
    StepValid(st, RemovalFailed(id, gone), address, "");
    RunKeeps(st1, events, address, id);
    var late := Run(st1, events, address);
    RollbackSucceedsIff(late, id);
    IntactSame(st1.index, late.index, id.snapLabel, st.snaps[id]);
    forall i | 0 <= i < |st.snaps[id]|
      ensures Held(st1.index, id.snapLabel, st.snaps[id][i]) <==>
              Resolve(st.snaps[id][i]).Ok? && Resolve(st.snaps[id][i]).value !in gone
    {
      assert Held(st.index, id.snapLabel, st.snaps[id][i]);
    }
  }

  /** Rolling back to an intact snapshot succeeds and makes the versions it holds the latest ones. */
  lemma {:induction false} RollbackNow(st: State, id: SnapId, address: Address)
    requires address.Valid() && Valid(st) && Intact(st, id)
    ensures Retag(st.index, st.snaps[id]).1.None?
    ensures var now := Next(st, RolledBack(id), address).index;
            AllLatest(now, st.snaps[id]) && SameAt(st.index, now, id.snapLabel)
  {
    RetagRestores(st.index, id.snapLabel, st.snaps[id]);
  }

  // ---------------------------------------------------------------- what a rollback restores

  /** The image was found before, and the same version is the latest of its repository now. */
  ghost predicate Restored(before: Index, now: Index, image: string) {
    && Find(before, image).Ok?
    && var (r, v) := Find(before, image).value; r.(tag := LATEST) in now && now[r.(tag := LATEST)] == v
  }

  ghost predicate AllRestored(before: Index, now: Index, images: seq<string>) {
    forall i | 0 <= i < |images| :: Restored(before, now, images[i])
  }

  /** Every image is there, and images of one repository are in one version. */
  ghost predicate Uniform(ix: Index, images: seq<string>) {
    && (forall i | 0 <= i < |images| :: Find(ix, images[i]).Ok?)
    && forall i, j | 0 <= i < |images| && 0 <= j < |images| && Find(ix, images[i]).Ok? && Find(ix, images[j]).Ok? ::
         SameImage(Find(ix, images[i]).value.0, Find(ix, images[j]).value.0) ==>
           Find(ix, images[i]).value.1 == Find(ix, images[j]).value.1
  }

  /** The snapshot of a uniform set of images holds each of them in the version it had. */
  lemma {:induction false} UniformHolds(
    ix: Index, images: seq<string>, snapLabel: string, address: Address, local: Ref -> bool, i: nat)
    requires GoodIndex(ix) && GoodLabel(snapLabel) && Relabel(ix, images, snapLabel, address, local).1.Ok?
    requires Uniform(ix, images) && i < |images|
    ensures Find(ix, images[i]).Ok?
    ensures var end, target := Relabel(ix, images, snapLabel, address, local).0, Target(images[i], snapLabel);
            target in end && end[target] == Find(ix, images[i]).value.1
  {
    var target, v := Target(images[i], snapLabel), Find(ix, images[i]).value.1;
    forall j | 0 <= j < |images| ensures AtVersion(ix, images[j], target, v) {
      assert Find(ix, images[j]).Ok?;
    }
    assert Among(images, target);
    RelabelUniform(ix, images, snapLabel, address, local, target, v);
  }

  /** Two images of one repository have one latest version, so both are restored only if they agreed. */
  lemma {:induction false} RestoredUniform(before: Index, now: Index, images: seq<string>)
    requires AllRestored(before, now, images)
    ensures Uniform(before, images)
  {
    forall i | 0 <= i < |images| ensures Find(before, images[i]).Ok? {
      assert Restored(before, now, images[i]);
    }
    forall i, j | 0 <= i < |images| && 0 <= j < |images| &&
                  SameImage(Find(before, images[i]).value.0, Find(before, images[j]).value.0)
      ensures Find(before, images[i]).value.1 == Find(before, images[j]).value.1
    {
      assert Restored(before, now, images[i]) && Restored(before, now, images[j]);
      assert Find(before, images[i]).value.0.(tag := LATEST) == Find(before, images[j]).value.0.(tag := LATEST);
    }
  }

  /** What the label held right after the snapshot is the latest now. */
  lemma {:induction false} HeldIsRestored(
    before: Index, taken: Index, now: Index, snapLabel: string, image: string, path: string)
    requires Find(before, image).Ok? && Target(image, snapLabel) in taken
    requires taken[Target(image, snapLabel)] == Find(before, image).value.1
    requires Resolve(path) == Ok(Target(image, snapLabel)) && SameAt(taken, now, snapLabel)
    requires IsLatest(now, Resolve(path).value)
    ensures Restored(before, now, image)
  {
    assert Find(before, image).value.0.(tag := LATEST) == Target(image, snapLabel).(tag := LATEST);
  }

  /**
   Whatever happens after a snapshot was taken, short of a deletion of it, rolling back to it succeeds;
   and it makes `latest` of every image the version that image had when the snapshot was taken if
   and only if images of one repository were in one version then.
   */
  lemma {:induction false} RollbackRestoresIff(
    st: State, id: SnapId, images: seq<string>, local: Ref -> bool, events: seq<Event>, address: Address)
    requires address.Valid() && Valid(st) && Allowed(st, Taken(id, images, local))
    requires Relabel(st.index, images, id.snapLabel, address, local).1.Ok?
    requires AllowedRun(Next(st, Taken(id, images, local), address), events, address)
    requires forall i | 0 <= i < |events| :: !Deletes(events[i], id)
    ensures var late := Run(Next(st, Taken(id, images, local), address), events, address);
            && id in late.snaps && Retag(late.index, late.snaps[id]).1.None?
            && (AllRestored(st.index, Next(late, RolledBack(id), address).index, images) <==> Uniform(st.index, images))
  {
    var taken := Taken(id, images, local);
    var st1 := Next(st, taken, address);
    TakeStepValid(st, id, images, local, address);
    RunKeeps(st1, events, address, id);
    var late := Run(st1, events, address);
    IntactSame(st1.index, late.index, id.snapLabel, st1.snaps[id]);
    RollbackNow(late, id, address);
    var now := Next(late, RolledBack(id), address).index;
    if Uniform(st.index, images) {
      RelabelTakes(st.index, images, id.snapLabel, address, local);
      forall i | 0 <= i < |images| ensures Restored(st.index, now, images[i]) {
        UniformHolds(st.index, images, id.snapLabel, address, local, i);
        SameAtTrans(st1.index, late.index, now, id.snapLabel);
        HeldIsRestored(st.index, st1.index, now, id.snapLabel, images[i], st1.snaps[id][i]);
      }
    }
    if AllRestored(st.index, now, images) {
      RestoredUniform(st.index, now, images);
    }
  }

  lemma {:induction false} SameAtTrans(a: Index, b: Index, c: Index, tag: string)
    requires SameAt(a, b, tag) && SameAt(b, c, tag)
    ensures SameAt(a, c, tag)
  {}

  /** Latest images are always uniform, provided they are there. */
  lemma {:induction false} LatestUniform(ix: Index, images: seq<string>)
    requires forall i | 0 <= i < |images| :: Find(ix, images[i]).Ok? && Find(ix, images[i]).value.0.tag == LATEST
    ensures Uniform(ix, images)
  {}

  /** Two tags of one repository in different versions: the snapshot succeeds, and a rollback cannot restore both. */
  lemma {:induction false} TwoVersionsNotRestored(
    st: State, first: Ref, second: Ref, id: SnapId, local: Ref -> bool, address: Address)
    requires address.Valid() && Valid(st) && first in st.index && second in st.index && SameImage(first, second)
    requires st.index[first] != st.index[second] && second.tag != id.snapLabel && local(first) && local(second)
    requires Allowed(st, Taken(id, [Name(first), Name(second)], local))
    ensures var images := [Name(first), Name(second)];
            var st1 := Next(st, Taken(id, images, local), address);
            id in st1.snaps && !AllRestored(st.index, Next(st1, RolledBack(id), address).index, images)
  {
    var images := [Name(first), Name(second)];
    TwoTagsTaken(st.index, first, second, id.snapLabel, address, local);
    RollbackRestoresIff(st, id, images, local, [], address);
    assert !Uniform(st.index, images) by {
      ResolveName(first);
      ResolveName(second);
      assert Find(st.index, images[0]).value == (first, st.index[first]);
      assert Find(st.index, images[1]).value == (second, st.index[second]);
    }
  }

  /** Such an index: a repository of which `latest` is one version and another tag a different one. */
  lemma {:induction false} TwoTagsNotRestored(address: Address) returns (st: State, id: SnapId, images: seq<string>)
    requires address.Valid()
    ensures Valid(st) && Allowed(st, Taken(id, images, r => true))
    ensures var st1 := Next(st, Taken(id, images, r => true), address);
            id in st1.snaps && !AllRestored(st.index, Next(st1, RolledBack(id), address).index, images)
  {
    var first, second := Ref("t", "r", LATEST), Ref("t", "r", "one");
    st := State(map[first := Version("u", "h"), second := Version("v", "h")], map[]);
    id := SnapId("t", "s1");
    images := [Name(first), Name(second)];
    LatestGood();
    TwoVersionsNotRestored(st, first, second, id, r => true, address);
  }

  lemma {:induction false} TwoTagsTaken(
    ix: Index, first: Ref, second: Ref, snapLabel: string, address: Address, local: Ref -> bool)
    requires GoodIndex(ix) && first in ix && second in ix && GoodLabel(snapLabel)
    requires second.tag != snapLabel && local(first) && local(second)
    ensures Relabel(ix, [Name(first), Name(second)], snapLabel, address, local).1.Ok?
  {
    ResolveName(first);
    ResolveName(second);
    var next := ix[first.(tag := snapLabel) := ix[first]];
    PushName(ix, first.(tag := snapLabel), ix[first]);
    PushName(next, second.(tag := snapLabel), ix[second]);
    var images := [Name(first), Name(second)];
    assert images[1..] == [Name(second)] && images[1..][1..] == [];
    assert RelabelOne(next, Name(second), snapLabel, address, local).Ok?;
    assert Relabel(next, images[1..], snapLabel, address, local).1.Ok?;
  }

  // ---------------------------------------------------------------- the file system object

  /** A result of the loop's remainder, with what was collected before it. */
  function Prepend(
    tagged: seq<string>, r: (Index, Result<seq<string>, TagError>)): (Index, Result<seq<string>, TagError>) {
    (r.0, if r.1.Ok? then Ok(tagged + r.1.value) else r.1)
  }

  lemma {:induction false} PrependMore(tagged: seq<string>, one: string, r: (Index, Result<seq<string>, TagError>))
    ensures Prepend(tagged, Prepend([one], r)) == Prepend(tagged + [one], r)
  {
    if r.1.Ok? {
      assert tagged + ([one] + r.1.value) == tagged + [one] + r.1.value;
    }
  }

  lemma {:induction false} PrependNothing(r: (Index, Result<seq<string>, TagError>))
    ensures Prepend([], r) == r
  {
    if r.1.Ok? {
      assert [] + r.1.value == r.1.value;
    }
  }

  /** The loop from image `i` on, in terms of its next round. */
  lemma {:induction false} RelabelAt(
    ix: Index, images: seq<string>, i: nat, snapLabel: string, address: Address, local: Ref -> bool)
    requires i < |images|
    ensures var one := RelabelOne(ix, images[i], snapLabel, address, local);
            Relabel(ix, images[i..], snapLabel, address, local) ==
            if one.Err? then (ix, Err(one.error))
            else Prepend([one.value.1], Relabel(one.value.0, images[i + 1..], snapLabel, address, local))
  {
    assert images[i..][0] == images[i] && images[i..][1..] == images[i + 1..];
  }

  class DistributedFilesystem {
    const address: Address
    var state: State

    constructor (address: Address)
      requires address.Valid()
      ensures this.address == address && state == State(map[], map[]) && Valid(state)
    {
      this.address := address;
      state := State(map[], map[]);
    }

    /** The part of `Snapshot` that concerns images; a failed snapshot may leave some of its tags behind. */
    method Snapshot(id: SnapId, images: seq<string>, local: Ref -> bool) returns (r: Result<seq<string>, TagError>)
      modifies this
      ensures state == Next(old(state), Taken(id, images, local), address)
      ensures r == Relabel(old(state.index), images, id.snapLabel, address, local).1
    {
      var index;
      index, r := RelabelLoop(images, id.snapLabel, local);
      state := State(index, if r.Ok? then state.snaps[id := r.value] else state.snaps);
    }

    /** The relabelling loop. */
    method RelabelLoop(images: seq<string>, snapLabel: string, local: Ref -> bool)
      returns (index: Index, r: Result<seq<string>, TagError>)
      ensures (index, r) == Relabel(state.index, images, snapLabel, address, local)
    {
      index := state.index;
      var tagged: seq<string> := [];
      PrependNothing(Relabel(index, images, snapLabel, address, local));
      assert images[0..] == images;
      for i := 0 to |images|
        invariant Relabel(state.index, images, snapLabel, address, local) ==
                  Prepend(tagged, Relabel(index, images[i..], snapLabel, address, local))
      {
        var one := RelabelOne(index, images[i], snapLabel, address, local);
        RelabelAt(index, images, i, snapLabel, address, local);
        if one.Err? {
          return index, Err(one.error);
        }
        PrependMore(tagged, one.value.1, Relabel(one.value.0, images[i + 1..], snapLabel, address, local));
        index, tagged := one.value.0, tagged + [one.value.1];
      }
      assert tagged + [] == tagged;
      r := Ok(tagged);
    }

    /** The retagging loop of `Rollback`; it gets through exactly if the snapshot is intact. */
    method Rollback(id: SnapId) returns (r: Result<(), TagError>)
      modifies this
      ensures state == Next(old(state), RolledBack(id), address)
      ensures r.Ok? ==> id in old(state).snaps
      ensures address.Valid() && Valid(old(state)) ==>
                && Valid(state) && state.snaps == old(state).snaps
                && (r.Ok? <==> Intact(old(state), id))
                && (r.Ok? ==> AllLatest(state.index, state.snaps[id]))
                && SameAt(old(state).index, state.index, id.snapLabel)
    {
      if id !in state.snaps {
        return Err(NoSuchSnapshot);
      }
      if address.Valid() && Valid(state) {
        RollbackSucceedsIff(state, id);
        if Intact(state, id) {
          RollbackNow(state, id, address);
        }
        StepValid(state, RolledBack(id), address, id.snapLabel);
      }
      var paths := state.snaps[id];
      var index, err := RetagLoop(paths);
      state := state.(index := index);
      r := if err.Some? then Err(err.value) else Ok(());
    }

    method RetagLoop(paths: seq<string>) returns (index: Index, err: Option<TagError>)
      ensures (index, err) == Retag(state.index, paths)
    {
      index, err := state.index, None;
      for i := 0 to |paths|
        invariant Retag(index, paths[i..]) == Retag(state.index, paths)
      {
        assert paths[i..][1..] == paths[i + 1..];
        var one := RetagOne(index, paths[i]);
        if one.Err? {
          return index, Some(one.error);
        }
        index := one.value;
      }
      err := None;
    }

    /**
     `Delete`: the images found by library and tag go first, in any order, and then the volume's
     snapshot. Either may fail, and then what was removed so far stays removed.
     */
    method Delete(id: SnapId, removable: Ref -> bool, volumeOk: bool) returns (ok: bool, ghost gone: set<Ref>)
      requires GoodIndex(state.index)
      modifies this
      ensures ok ==> state == Next(old(state), Removed(id), address)
      ensures !ok ==> state == Next(old(state), RemovalFailed(id, gone), address)
                      && Allowed(old(state), RemovalFailed(id, gone)) && id in old(state).snaps
      ensures id in old(state).snaps ==>
                (ok <==> volumeOk && forall r | r in Doomed(old(state), id) :: removable(r))
    {
      gone := {};
      if id !in state.snaps {
        return true, gone;
      }
      var index := state.index;
      var doomed := Doomed(state, id);
      while doomed != {}
        invariant state == old(state) && GoodIndex(index)
        invariant doomed <= Doomed(state, id) && gone == Doomed(state, id) - doomed
        invariant index == state.index - gone && forall r | r in gone :: removable(r)
        decreases doomed
      {
        var r :| r in doomed;
        ResolveName(r);
        var place := Resolve(Name(r)).value;
        if !removable(place) {
          state := state.(index := index);
          return false, gone;
        }
        doomed, index, gone := doomed - {r}, index - {place}, gone + {place};
      }
      if !volumeOk {
        state := state.(index := index);
        return false, gone;
      }
      assert index == Untag(state.index, id.tenant, id.snapLabel);
      state := State(index, state.snaps - {id});
      ok := true;
    }
  }

  /** The entries that a deletion finds by library and tag. */
  function Doomed(st: State, id: SnapId): set<Ref> {
    set r | r in st.index && r.library == id.tenant && r.tag == id.snapLabel
  }
}
