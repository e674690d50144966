/**
 Printing, validating and renaming image identifiers (commons/imageid.go). Everything here rests on
 the grammar of ImageIds, and argues about texts alone.
 */
module ImageNames {
  import opened Results
  import opened Sequences
  import opened Decimals
  import opened ImageIds

  // ---------------------------------------------------------------- printer

  /** The registry part with its closing slash. */
  function HostPart(id: ImageID): string {
    if id.host == "" then ""
    else if id.port != 0 then id.host + ":" + Itoa(id.port) + "/"
    else id.host + "/"
  }

  function UserPart(id: ImageID): string {
    if id.user == "" then "" else id.user + "/"
  }

  function TagPart(tag: string): string {
    if tag == "" then "" else ":" + tag
  }

  function BaseName(id: ImageID): string {
    HostPart(id) + UserPart(id) + id.repo
  }

  function Print(id: ImageID): string {
    BaseName(id) + TagPart(id.tag)
  }

  // ---------------------------------------------------------------- the fixed points of print-then-parse

  /** Fields drawn from the grammar's character classes; the port is not negative. */
  predicate InClasses(id: ImageID) {
    AllHost(id.host) && id.port >= 0 && AllUser(id.user) && AllRepo(id.repo) && AllRepo(id.tag)
  }

  /** Exactly the identifiers that `Validate` accepts (theorem ValidateCharacterised). */
  predicate Canonical(id: ImageID) {
    && InClasses(id)
    && (id.host == "" ==> id.port == 0)
    && (id.host != "" && id.port == 0 && id.user == "" ==> '.' in id.host)
    && (id.host == "" && id.user == "" ==>
          && PeriodsFollowUnderscore(id.repo)
          && ('.' !in id.repo && '_' !in id.repo ==> !StartsLikePortThenUnderscore(id.tag)))
  }

  function Given(s: string): Option<string> {
    if s == "" then None else Some(s)
  }

  /** What is printed, taken apart: empty fields and a zero port are left out. */
  function LocalOf(id: ImageID): Local {
    Local(Given(id.user), id.repo, Given(id.tag))
  }

  function PrintedForm(id: ImageID): Form {
    Form(Given(id.host), if id.host == "" || id.port == 0 then None else Some(Itoa(id.port)), LocalOf(id))
  }

  lemma {:induction false} AtoiItoa(n: GoInt)
    requires n >= 0
    ensures AllDigits(Itoa(n)) && Atoi(Itoa(n)) == Ok(n)
  {
    ItoaDigits(n);
  }

  lemma {:induction false} LocalText(id: ImageID)
    ensures LocalOf(id).Text() == UserPart(id) + (id.repo + TagPart(id.tag))
  {
    assert id.tag == "" ==> id.repo + TagPart(id.tag) == id.repo;
    if id.user == "" {
      assert UserPart(id) + (id.repo + TagPart(id.tag)) == id.repo + TagPart(id.tag);
    } else {
      Reattach(id.user, "/", id.repo + TagPart(id.tag));
    }
  }

  lemma {:induction false} PrintedText(id: ImageID)
    ensures PrintedForm(id).Text() == Print(id)
  {
    LocalText(id);
    Shift(HostPart(id), UserPart(id), id.repo, TagPart(id.tag));
    var tail := UserPart(id) + (id.repo + TagPart(id.tag));
    if id.host == "" {
      assert HostPart(id) + tail == tail;
    } else if id.port == 0 {
      Reattach(id.host, "/", tail);
    } else {
      HostShape(id.host, Itoa(id.port), tail);
    }
  }

  lemma {:induction false} HostShape(host: string, digits: string, tail: string)
    ensures host + (":" + digits) + ("/" + tail) == host + ":" + digits + "/" + tail
  {}

  /** Printing and then parsing a canonical identifier gives it back. */
  lemma {:induction false} RoundTrip(id: ImageID)
    requires Canonical(id)
    ensures Parse(Print(id)) == Ok(id)
  {
    var f := PrintedForm(id);
    PrintedText(id);
    AtoiItoa(id.port);
    assert f.Valid() && f.Id() == id;
    FormReads(f);
  }

  /** Whatever the parser returns has its fields in the grammar's character classes. */
  lemma {:induction false} ParseSound(text: string)
    requires Parse(text).Ok?
    ensures InClasses(Parse(text).value)
  {
    var f := FormOf(text);
  }

  /** How long the optional parts of a form are, with their separators. */
  function Extra(o: Option<string>): nat {
    if o.Some? then |o.value| + 1 else 0
  }

  /** Only canonical identifiers come back. */
  lemma {:induction false} RoundTripOnlyCanonical(id: ImageID)
    requires Parse(Print(id)) == Ok(id)
    ensures Canonical(id)
  {
    var f := FormOf(Print(id));
    ParseSound(Print(id));
  }

  /**
   `Validate` accepts exactly the canonical identifiers: the structural condition holds if
   and only if parsing the printed form gives back the same five fields.
   */
  lemma {:induction false} ValidateCharacterised(id: ImageID)
    ensures Parse(Print(id)) == Ok(id) <==> Canonical(id)
  {
    if Canonical(id) {
      RoundTrip(id);
    } else if Parse(Print(id)) == Ok(id) {
      RoundTripOnlyCanonical(id);
    }
  }

  method Validate(id: ImageID) returns (ok: bool)
    ensures ok <==> Canonical(id)
  {
    var parsed := ParseImageID(Print(id));
    ok := parsed == Ok(id);
    ValidateCharacterised(id);
  }

  // ---------------------------------------------------------------- renaming

  /** The registry as it appears in image names: host, or host and port. */
  function Registry(host: string, port: GoInt): string {
    if port != 0 then host + ":" + Itoa(port) else host
  }

  function RenameImageID(
    registry: string, tenant: string, image: string, tag: string): (r: Result<ImageID, ParseError>) {
    if image == "" then Err(EmptyImage)
    else
      var current :- Parse(registry + "/" + image);
      Parse(registry + "/" + tenant + "/" + current.repo + ":" + tag)
  }

  predicate NoSlash(s: string) { forall i | 0 <= i < |s| :: s[i] != '/' }

  /** Texts that agree agree up to their first slash and behind it. */
  lemma {:induction false} SameAtSlash(a: string, x: string, b: string, y: string)
    requires NoSlash(a) && NoSlash(b) && a + ("/" + x) == b + ("/" + y)
    ensures a == b && x == y
  {
    var s := a + ("/" + x);
    assert s[|a|] == '/' && s[|b|] == '/';
    assert |a| == |b|;
    assert a == s[..|a|] && b == s[..|b|] && x == s[|a| + 1..] && y == s[|b| + 1..];
  }

  lemma {:induction false} RegistryNoSlash(host: string, port: GoInt)
    requires AllHost(host) && port >= 0
    ensures NoSlash(Registry(host, port))
  {
    AtoiItoa(port);
  }

  /** A local name behind a registry; a registry that is a bare name is a user, unless another user follows. */
  function BehindRegistry(host: string, port: GoInt, l: Local): Form {
    if port != 0 then Form(Some(host), Some(Itoa(port)), l)
    else if '.' in host || l.user.Some? then Form(Some(host), None, l)
    else Form(None, None, l.(user := Some(host)))
  }

  lemma {:induction false} BehindRegistryReads(host: string, port: GoInt, l: Local)
    requires host != "" && AllHost(host) && port >= 0 && l.Valid()
    ensures BehindRegistry(host, port, l).Valid()
    ensures Parse(Registry(host, port) + ("/" + l.Text())) == Ok(BehindRegistry(host, port, l).Id())
  {
    AtoiItoa(port);
    if port != 0 {
      Reattach(host, ":", Itoa(port));
    }
    FormReads(BehindRegistry(host, port, l));
  }

  /** What is accepted behind a registry is a local name. */
  lemma {:induction false} BehindRegistryAccepted(host: string, port: GoInt, image: string) returns (l: Local)
    requires AllHost(host) && port >= 0 && Parse(Registry(host, port) + ("/" + image)).Ok?
    ensures l.Valid() && l.Text() == image
  {
    var registry := Registry(host, port);
    var f := FormOf(registry + ("/" + image));
    RegistryNoSlash(host, port);
    if f.host.Some? {
      SameAtSlash(registry, image, f.Authority(), f.local.Text());
      l := f.local;
    } else {
      assert (registry + ("/" + image))[|registry|] == '/';
      assert f.local.user.Some?;
      SameAtSlash(registry, image, f.local.user.value, f.local.RepoText());
      l := f.local.(user := None);
    }
  }

  /**
   The exact grammar behind a registry: a text is accepted if and only if it is an optional user, a
   repository and an optional tag; and the repository is what the parse returns as such.
   */
  lemma {:induction false} RegistryGrammarIff(host: string, port: GoInt, image: string)
    requires host != "" && AllHost(host) && port >= 0
    ensures var r := Parse(Registry(host, port) + "/" + image);
            && (r.Ok? <==> exists l: Local :: l.Valid() && l.Text() == image)
            && forall l: Local | l.Valid() && l.Text() == image :: r.Ok? && r.value.repo == l.repo
  {
    Reattach(Registry(host, port), "/", image);
    forall l: Local | l.Valid() && l.Text() == image
      ensures var r := Parse(Registry(host, port) + "/" + image); r.Ok? && r.value.repo == l.repo
    {
      BehindRegistryReads(host, port, l);
    }
    if Parse(Registry(host, port) + "/" + image).Ok? {
      var l := BehindRegistryAccepted(host, port, image);
    }
  }

  lemma {:induction false} RenamedParses(host: string, port: GoInt, tenant: string, repo: string, tag: string)
    requires host != "" && AllHost(host) && port >= 0 && AllUser(tenant) && AllRepo(repo) && AllRepo(tag)
    ensures Parse(Registry(host, port) + "/" + tenant + "/" + repo + ":" + tag) ==
            Ok(ImageID(host, port, tenant, repo, tag))
  {
    AtoiItoa(port);
    NameShape(Registry(host, port), tenant, repo, tag);
    BehindRegistryReads(host, port, Local(Some(tenant), repo, Some(tag)));
  }

  lemma {:induction false} NameShape(registry: string, tenant: string, repo: string, tag: string)
    ensures registry + "/" + tenant + "/" + repo + ":" + tag ==
            registry + ("/" + (tenant + ("/" + (repo + (":" + tag)))))
  {}

  /**
   What renaming does to any text: it succeeds if and only if the text is not empty and is an
   optional user, a repository and an optional tag, and then only the repository is kept.
   */
  lemma {:induction false} RenameIff(host: string, port: GoInt, tenant: string, image: string, tag: string)
    requires host != "" && AllHost(host) && port >= 0 && AllUser(tenant) && AllRepo(tag)
    ensures var r := RenameImageID(Registry(host, port), tenant, image, tag);
            && (r.Ok? <==> image != "" && exists l: Local :: l.Valid() && l.Text() == image)
            && forall l: Local | image != "" && l.Valid() && l.Text() == image ::
                 r == Ok(ImageID(host, port, tenant, l.repo, tag))
  {
    RegistryGrammarIff(host, port, image);
    var current := Parse(Registry(host, port) + "/" + image);
    if current.Ok? {
      ParseSound(Registry(host, port) + "/" + image);
      RenamedParses(host, port, tenant, current.value.repo, tag);
    }
  }

  // ---------------------------------------------------------------- renaming what was printed

  /** The name has no host of its own, or one that reads like a user. */
  predicate Hostless(id: ImageID) {
    id.host == "" || (id.port == 0 && '.' !in id.host && id.user == "")
  }

  /** A printed name without a host of its own is a local name. */
  lemma {:induction false} HostlessIsLocal(id: ImageID) returns (l: Local)
    requires InClasses(id) && Hostless(id)
    ensures l.Valid() && l.Text() == Print(id) && l.repo == id.repo
  {
    PrintedText(id);
    if id.host == "" {
      l := LocalOf(id);
    } else {
      l := LocalOf(id).(user := Some(id.host));
    }
  }

  /** A printed name with a host of its own is not: its period, its port or its second slash gives it away. */
  lemma {:induction false} HostedIsNotLocal(id: ImageID, l: Local)
    requires InClasses(id) && !Hostless(id) && l.Valid()
    ensures l.Text() != Print(id)
  {
    var f := PrintedForm(id);
    PrintedText(id);
    AtoiItoa(id.port);
    RegistryNoSlash(id.host, id.port);
    var tail := LocalOf(id).Text();
    assert f.Authority() == Registry(id.host, id.port) by {
      if id.port != 0 { Reattach(id.host, ":", Itoa(id.port)); }
    }
    assert Print(id)[|f.Authority()|] == '/';
    assert id.port != 0 ==> f.Authority()[|id.host|] == ':';
    assert id.user != "" ==> tail[|id.user|] == '/';
    if l.Text() == Print(id) {
      assert l.user.Some?;
      SameAtSlash(f.Authority(), tail, l.user.value, l.RepoText());
    }
  }

  /**
   A printed name is renamed if and only if it has no host of its own, or one that reads like a
   user. It then moves under the given registry, tenant and tag, and keeps nothing but its repository.
   */
  lemma {:induction false} RenameKeepsOnlyRepoIff(host: string, port: GoInt, tenant: string, id: ImageID, tag: string)
    requires host != "" && AllHost(host) && port >= 0 && AllUser(tenant) && AllRepo(tag)
    requires InClasses(id) && Print(id) != ""
    ensures var r := RenameImageID(Registry(host, port), tenant, Print(id), tag);
            && (r.Ok? <==> Hostless(id))
            && (r.Ok? ==> r.value == ImageID(host, port, tenant, id.repo, tag))
  {
    RenameIff(host, port, tenant, Print(id), tag);
    if Hostless(id) {
      var l := HostlessIsLocal(id);
    } else {
      forall l: Local | l.Valid() ensures l.Text() != Print(id) {
        HostedIsNotLocal(id, l);
      }
    }
  }

  lemma {:induction false} PrintFull(id: ImageID)
    requires id.host != "" && id.user != "" && id.tag != ""
    ensures Print(id) == Registry(id.host, id.port) + "/" + id.user + "/" + id.repo + ":" + id.tag
  {
    var registry := Registry(id.host, id.port);
    assert HostPart(id) == registry + "/";
    assert registry + "/" + (id.user + "/") == registry + "/" + id.user + "/";
  }
}
