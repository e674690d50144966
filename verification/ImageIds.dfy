/**
 Docker image identifiers (commons/imageid.go): an eight-mode scanner, and the ambiguous grammar
 that it decides, stated on texts alone.

 Letters are the ASCII letters; see README.md for what that leaves out.
 */
module ImageIds {
  import opened Results
  import opened Sequences
  import opened Decimals

  const MAX_INT := 0x7FFF_FFFF_FFFF_FFFF

  /** Go's 64-bit `int`. */
  type GoInt = n: int | -MAX_INT - 1 <= n <= MAX_INT

  datatype ImageID = ImageID(host: string, port: GoInt, user: string, repo: string, tag: string)

  datatype ParseError =
    | BadHostOrName | BadHostname | BadHostOrRepoName | BadPort | BadPortNumber
    | BadRepoName | BadRepo | BadTag | BadPortOrTag | Incomplete | EmptyImage

  // ---------------------------------------------------------------- character classes

  predicate IsAlnum(c: char) { IsDigit(c) || 'a' <= c <= 'z' || 'A' <= c <= 'Z' }

  predicate IsPlainChar(c: char) { IsAlnum(c) || c == '-' }

  predicate IsHostChar(c: char) { IsPlainChar(c) || c == '.' }

  predicate IsUserChar(c: char) { IsPlainChar(c) || c == '_' }

  predicate IsRepoChar(c: char) { IsUserChar(c) || c == '.' }

  predicate AllPlain(s: string) { forall i | 0 <= i < |s| :: IsPlainChar(s[i]) }

  predicate AllHost(s: string) { forall i | 0 <= i < |s| :: IsHostChar(s[i]) }

  predicate AllUser(s: string) { forall i | 0 <= i < |s| :: IsUserChar(s[i]) }

  predicate AllRepo(s: string) { forall i | 0 <= i < |s| :: IsRepoChar(s[i]) }

  // ---------------------------------------------------------------- decimal numbers

  /** `strconv.Atoi` on a run of digits: no digits, or too large a number, is an error. */
  function Atoi(s: string): (r: Result<GoInt, ParseError>)
    requires AllDigits(s)
    ensures r.Ok? ==> 0 <= r.value
  {
    if s == "" || DigitsValue(s) > MAX_INT then Err(BadPortNumber) else Ok(DigitsValue(s))
  }

  // ---------------------------------------------------------------- scanner

  datatype Mode =
    | HostOrRepoName | HostOnly | PortOrTag | PortOnly
    | RepoNameOrRepo | RepoName | RepoOnly | TagOnly

  /** The loop variables of the parser: `state`, `tokbuf`, `scanned` and `result`. */
  datatype Scan = Scan(mode: Mode, tok: string, scanned: seq<string>, id: ImageID) {

    /** The ambiguous modes have put one token aside, and the port modes collect digits. */
    predicate Valid() {
      && (mode.PortOrTag? || mode.RepoNameOrRepo? ==> |scanned| == 1)
      && (mode.PortOrTag? || mode.PortOnly? ==> AllDigits(tok))
    }
  }

  const NO_ID := ImageID("", 0, "", "", "")

  const START := Scan(HostOrRepoName, "", [], NO_ID)

  /** One iteration of the scanning loop. */
  function Step(s: Scan, c: char): (r: Result<Scan, ParseError>)
    requires s.Valid()
    ensures r.Ok? ==> r.value.Valid()
  {
    var more := s.tok + [c];
    match s.mode
    case HostOrRepoName =>  // nothing has been put aside yet
      if IsPlainChar(c) then Ok(s.(tok := more))
      else if c == '.' then Ok(s.(tok := more, mode := HostOnly))
      else if c == '_' then Ok(s.(tok := more, mode := RepoName))
      else if c == '/' then Ok(s.(scanned := [s.tok], tok := "", mode := RepoNameOrRepo))
      else if c == ':' then Ok(s.(scanned := [s.tok], tok := "", mode := PortOrTag))
      else Err(BadHostOrName)
    case HostOnly =>
      if IsHostChar(c) then Ok(s.(tok := more))
      else if c == ':' then Ok(s.(id := s.id.(host := s.tok), tok := "", mode := PortOnly))
      else if c == '/' then Ok(s.(id := s.id.(host := s.tok), tok := "", mode := RepoName))
      else Err(BadHostname)
    case RepoNameOrRepo =>
      if IsUserChar(c) then Ok(s.(tok := more))
      else if c == '.' then
        Ok(s.(id := s.id.(user := s.scanned[0]), scanned := [], tok := more, mode := RepoOnly))
      else if c == ':' then
        Ok(s.(id := s.id.(user := s.scanned[0], repo := s.tok), scanned := [], tok := "", mode := TagOnly))
      else if c == '/' then
        Ok(s.(id := s.id.(host := s.scanned[0], user := s.tok), scanned := [], tok := "", mode := RepoOnly))
      else Err(BadHostOrRepoName)
    case PortOnly =>
      if IsDigit(c) then Ok(s.(tok := more))
      else if c == '/' then
        var port :- Atoi(s.tok);
        Ok(s.(id := s.id.(port := port), tok := "", mode := RepoName))
      else Err(BadPort)
    case RepoName =>
      if IsUserChar(c) then Ok(s.(tok := more))
      else if c == '/' then Ok(s.(id := s.id.(user := s.tok), tok := "", mode := RepoOnly))
      else if c == ':' then Ok(s.(id := s.id.(repo := s.tok), tok := "", mode := TagOnly))
      else if c == '.' then Ok(s.(id := s.id.(user := ""), tok := more, mode := RepoOnly))
      else Err(BadRepoName)
    case RepoOnly =>
      if IsRepoChar(c) then Ok(s.(tok := more))
      else if c == ':' then Ok(s.(id := s.id.(repo := s.tok), tok := "", mode := TagOnly))
      else Err(BadRepo)
    case TagOnly =>
      if IsRepoChar(c) then Ok(s.(tok := more))
      else Err(BadTag)
    case PortOrTag =>
      if IsDigit(c) then Ok(s.(tok := more))
      else if IsPlainChar(c) || c == '.' then
        Ok(s.(id := s.id.(repo := s.scanned[0]), scanned := [], tok := more, mode := TagOnly))
      else if c == '/' then
        var port :- Atoi(s.tok);
        Ok(s.(id := s.id.(host := s.scanned[0], port := port), scanned := [], tok := "", mode := RepoName))
      else Err(BadPortOrTag)
  }

  /** The switch after the loop. */
  function Finish(s: Scan): (r: Result<ImageID, ParseError>)
    requires s.Valid()
  {
    match s.mode
    case HostOrRepoName | RepoName | RepoOnly => Ok(s.id.(repo := s.tok))
    case RepoNameOrRepo => Ok(s.id.(user := s.scanned[0], repo := s.tok))
    case PortOnly | HostOnly => Err(Incomplete)
    case PortOrTag => Ok(s.id.(repo := s.scanned[0], tag := s.tok))
    case TagOnly => Ok(s.id.(tag := s.tok))
  }

  function Run(s: Scan, text: string): (r: Result<Scan, ParseError>)
    requires s.Valid()
    ensures r.Ok? ==> r.value.Valid()
    decreases |text|
  {
    if text == "" then Ok(s)
    else
      var next :- Step(s, text[0]);
      Run(next, text[1..])
  }

  /** Resumes a run that may already have failed. */
  function Resume(r: Result<Scan, ParseError>, text: string): Result<Scan, ParseError>
    requires r.Ok? ==> r.value.Valid()
  {
    if r.Ok? then Run(r.value, text) else r
  }

  function FinishRun(r: Result<Scan, ParseError>): Result<ImageID, ParseError>
    requires r.Ok? ==> r.value.Valid()
  {
    if r.Err? then Err(r.error) else Finish(r.value)
  }

  function Parse(text: string): Result<ImageID, ParseError> {
    FinishRun(Run(START, text))
  }

  // ---------------------------------------------------------------- the grammar

  /** Every period has an underscore somewhere before it. */
  predicate PeriodsFollowUnderscore(s: string) {
    forall i | 0 <= i < |s| && s[i] == '.' :: exists j | 0 <= j < i :: s[j] == '_'
  }

  /** Digits, possibly none, and then an underscore. */
  predicate StartsLikePortThenUnderscore(s: string) {
    exists i | 0 <= i < |s| :: s[i] == '_' && AllDigits(s[..i])
  }

  function OrEmpty(o: Option<string>): string {
    if o.Some? then o.value else ""
  }

  /** An optional user, a repository and an optional tag, each of which may be empty. */
  datatype Local = Local(user: Option<string>, repo: string, tag: Option<string>) {
    predicate Valid() {
      AllRepo(repo) && (user.Some? ==> AllUser(user.value)) && (tag.Some? ==> AllRepo(tag.value))
    }

    /** A repository that opens the text must not look like a host, nor it and its tag like a host and a port. */
    predicate Opens() {
      && PeriodsFollowUnderscore(repo)
      && ('_' !in repo && tag.Some? ==> !StartsLikePortThenUnderscore(tag.value))
    }

    function RepoText(): string {
      if tag.Some? then repo + (":" + tag.value) else repo
    }

    function Text(): string {
      if user.Some? then user.value + ("/" + RepoText()) else RepoText()
    }
  }

  /** A text taken apart: an optional host, which may have a port, and what stands behind them. */
  datatype Form = Form(host: Option<string>, port: Option<string>, local: Local) {

    /** The classes of the parts, and the rules that settle what each name is. */
    predicate Valid() {
      && local.Valid()
      && (port.Some? ==> host.Some? && AllDigits(port.value) && Atoi(port.value).Ok?)
      && (host.Some? ==> AllHost(host.value) && (port.None? && '.' !in host.value ==> local.user.Some?))
      && (host.None? && local.user.None? ==> local.Opens())
    }

    function Authority(): string
      requires host.Some?
    {
      if port.Some? then host.value + (":" + port.value) else host.value
    }

    function Text(): string {
      if host.Some? then Authority() + ("/" + local.Text()) else local.Text()
    }

    function Id(): ImageID
      requires Valid()
    {
      ImageID(OrEmpty(host), if port.Some? then Atoi(port.value).value else 0,
              OrEmpty(local.user), local.repo, OrEmpty(local.tag))
    }
  }

  // ---------------------------------------------------------------- running the scanner over pieces

  lemma {:induction false} RunConcat(s: Scan, a: string, b: string)
    requires s.Valid()
    ensures Run(s, a + b) == Resume(Run(s, a), b)
    decreases |a|
  {
    if a == "" {
      assert a + b == b;
    } else {
      assert (a + b)[0] == a[0] && (a + b)[1..] == a[1..] + b;
      if Step(s, a[0]).Ok? {
        RunConcat(Step(s, a[0]).value, a[1..], b);
      }
    }
  }

  lemma {:induction false} RunSnoc(s: Scan, a: string, c: char)
    requires s.Valid() && Run(s, a).Ok?
    ensures Run(s, a + [c]) == Step(Run(s, a).value, c)
  {
    RunConcat(s, a, [c]);
    var mid := Run(s, a).value;
    assert [c][1..] == "";
    assert Run(mid, [c]) == Resume(Step(mid, c), "");
  }

  /** The characters a mode appends to the token without leaving the mode. */
  predicate Stays(m: Mode, c: char) {
    match m
    case HostOrRepoName => IsPlainChar(c)
    case HostOnly => IsHostChar(c)
    case PortOrTag | PortOnly => IsDigit(c)
    case RepoNameOrRepo | RepoName => IsUserChar(c)
    case RepoOnly | TagOnly => IsRepoChar(c)
  }

  predicate Takes(m: Mode, t: string) { forall i | 0 <= i < |t| :: Stays(m, t[i]) }

  lemma {:induction false} StepStays(s: Scan, c: char)
    requires s.Valid() && Stays(s.mode, c)
    ensures Step(s, c) == Ok(s.(tok := s.tok + [c]))
  {}

  lemma {:induction false} RunToken(s: Scan, t: string)
    requires s.Valid() && Takes(s.mode, t)
    ensures s.(tok := s.tok + t).Valid() && (s.tok == "" ==> s.tok + t == t)
    ensures Run(s, t) == Ok(s.(tok := s.tok + t))
    decreases |t|
  {
    if t == "" {
      assert s.tok + t == s.tok;
    } else {
      StepStays(s, t[0]);
      RunToken(s.(tok := s.tok + [t[0]]), t[1..]);
      CutAt(t, 0, s.tok, "");
      assert s.tok + t[..0] == s.tok;
    }
  }

  /** A token, then the rest. */
  lemma {:induction false} RunTokenOn(s: Scan, t: string, rest: string)
    requires s.Valid() && Takes(s.mode, t)
    ensures s.(tok := s.tok + t).Valid() && Run(s, t + rest) == Run(s.(tok := s.tok + t), rest)
  {
    RunToken(s, t);
    RunConcat(s, t, rest);
  }

  /** A token, then a character that the mode reacts to, then the rest. */
  lemma {:induction false} RunTokenThen(s: Scan, t: string, c: char, rest: string)
    requires s.Valid() && Takes(s.mode, t)
    ensures s.(tok := s.tok + t).Valid() && (s.tok == "" ==> s.tok + t == t)
    ensures Run(s, t + [c] + rest) == Resume(Step(s.(tok := s.tok + t), c), rest)
  {
    RunToken(s, t);
    RunConcat(s, t, [c] + rest);
    assert t + [c] + rest == t + ([c] + rest);
    assert ([c] + rest)[1..] == rest;
  }

  /** One character and then the rest. */
  lemma {:induction false} RunCons(s: Scan, c: char, rest: string)
    requires s.Valid()
    ensures Run(s, [c] + rest) == Resume(Step(s, c), rest)
  {
    assert ([c] + rest)[1..] == rest;
  }

  lemma {:induction false} FirstIndex(s: string, c: char) returns (i: nat)
    requires c in s
    ensures i < |s| && s[i] == c && forall j | 0 <= j < i :: s[j] != c
    ensures s == s[..i] + [c] + s[i + 1..]
    decreases |s|
  {
    if s[0] == c {
      i := 0;
    } else {
      var j := FirstIndex(s[1..], c);
      i := j + 1;
    }
  }

  // ---------------------------------------------------------------- what is read behind a registry

  /** The scanner is reading what may be a user or a repository. */
  predicate BehindMode(m: Mode) { m.RepoName? || m.RepoNameOrRepo? }

  /** The identifier once the repository is known: a name that was put aside was a user. */
  function WithRepo(s: Scan, repo: string): ImageID
    requires s.Valid()
  {
    if s.mode.RepoNameOrRepo? then s.id.(user := s.scanned[0], repo := repo) else s.id.(repo := repo)
  }

  /** What the scanner makes of a local name: before a user, a name that was put aside was a host. */
  function LocalId(s: Scan, l: Local): ImageID
    requires s.Valid()
  {
    if l.user.None? then WithRepo(s, s.tok + l.repo).(tag := OrEmpty(l.tag))
    else
      var id := s.id.(user := s.tok + l.user.value, repo := l.repo, tag := OrEmpty(l.tag));
      if s.mode.RepoNameOrRepo? then id.(host := s.scanned[0]) else id
  }

  /** Nothing but a host and a port has been found so far. */
  predicate Fresh(s: Scan) { s.id.user == "" && s.id.tag == "" }

  lemma {:induction false} TagReads(s: Scan, tag: string)
    requires s.Valid() && s.mode.TagOnly? && s.tok == "" && AllRepo(tag)
    ensures FinishRun(Run(s, tag)) == Ok(s.id.(tag := tag))
  {
    RunToken(s, tag);
  }

  lemma {:induction false} ColonStep(s: Scan)
    requires s.Valid() && (s.mode.RepoOnly? || BehindMode(s.mode))
    ensures Step(s, ':').Ok? && Step(s, ':').value.mode.TagOnly? && Step(s, ':').value.tok == ""
    ensures Step(s, ':').value.id == WithRepo(s, s.tok)
  {}

  /** A repository whose characters the mode takes, and an optional tag. */
  lemma {:induction false} TakenRepoReads(s: Scan, l: Local)
    requires s.Valid() && (s.mode.RepoOnly? || BehindMode(s.mode)) && l.Valid() && Takes(s.mode, l.repo) &&
             s.id.tag == ""
    ensures FinishRun(Run(s, l.RepoText())) == Ok(WithRepo(s, s.tok + l.repo).(tag := OrEmpty(l.tag)))
  {
    RunToken(s, l.repo);
    if l.tag.Some? {
      var next := s.(tok := s.tok + l.repo);
      RunConcat(s, l.repo, [':'] + l.tag.value);
      RunCons(next, ':', l.tag.value);
      ColonStep(next);
      TagReads(Step(next, ':').value, l.tag.value);
    }
  }

  lemma {:induction false} PeriodStep(s: Scan)
    requires s.Valid() && BehindMode(s.mode) && s.id.user == ""
    ensures Step(s, '.').Ok? && Step(s, '.').value.mode.RepoOnly? && Step(s, '.').value.tok == s.tok + ['.']
    ensures Step(s, '.').value.id.(repo := "") == WithRepo(s, "")
    ensures Step(s, '.').value.id.tag == s.id.tag
  {}

  /** A repository with a period: the period settles that it is one. */
  lemma {:induction false} PeriodRepoReads(s: Scan, l: Local)
    requires s.Valid() && BehindMode(s.mode) && Fresh(s) && l.Valid() && '.' in l.repo
    ensures FinishRun(Run(s, l.RepoText())) == Ok(WithRepo(s, s.tok + l.repo).(tag := OrEmpty(l.tag)))
    decreases |l.repo|
  {
    var c, rest := l.repo[0], l.(repo := l.repo[1..]);
    assert l.repo == [c] + rest.repo;
    RepoTextCons(l);
    RunCons(s, c, rest.RepoText());
    Reattach(s.tok, [c], rest.repo);
    if c == '.' {
      PeriodStep(s);
      TakenRepoReads(Step(s, c).value, rest);
    } else {
      StepStays(s, c);
      PeriodRepoReads(s.(tok := s.tok + [c]), rest);
    }
  }

  lemma {:induction false} RepoTextCons(l: Local)
    requires l.repo != ""
    ensures l.RepoText() == [l.repo[0]] + l.(repo := l.repo[1..]).RepoText()
  {
    HeadTail(l.repo, if l.tag.Some? then ":" + l.tag.value else "");
  }

  lemma {:induction false} UserStep(s: Scan)
    requires s.Valid() && BehindMode(s.mode)
    ensures Step(s, '/').Ok? && Step(s, '/').value.mode.RepoOnly? && Step(s, '/').value.tok == ""
    ensures Step(s, '/').value.id ==
            if s.mode.RepoNameOrRepo? then s.id.(host := s.scanned[0], user := s.tok) else s.id.(user := s.tok)
  {}

  /** A local name is read as what it says. */
  lemma {:induction false} LocalReads(s: Scan, l: Local)
    requires s.Valid() && BehindMode(s.mode) && Fresh(s) && l.Valid()
    ensures FinishRun(Run(s, l.Text())) == Ok(LocalId(s, l))
  {
    if l.user.Some? {
      var next := s.(tok := s.tok + l.user.value);
      RunTokenOn(s, l.user.value, ['/'] + l.RepoText());
      RunCons(next, '/', l.RepoText());
      UserStep(next);
      var behind := Step(next, '/').value;
      TakenRepoReads(behind, l);
      assert behind.tok + l.repo == l.repo;
    } else if '.' in l.repo {
      PeriodRepoReads(s, l);
    } else {
      TakenRepoReads(s, l);
    }
  }

  // ---------------------------------------------------------------- what is accepted behind a registry

  /** Whatever the tag mode accepts is a tag. */
  lemma {:induction false} TagAccepted(s: Scan, text: string)
    requires s.Valid() && s.mode.TagOnly? && Run(s, text).Ok?
    ensures AllRepo(text)
    decreases |text|
  {
    if text != "" {
      TagAccepted(Step(s, text[0]).value, text[1..]);
      assert text == [text[0]] + text[1..];
    }
  }

  /** Whatever the repository mode accepts is a repository and an optional tag. */
  lemma {:induction false} RepoOnlyAccepted(s: Scan, text: string) returns (l: Local)
    requires s.Valid() && s.mode.RepoOnly? && Run(s, text).Ok?
    ensures l.Valid() && l.user.None? && l.RepoText() == text
    decreases |text|
  {
    l := Local(None, "", None);
    if text != "" {
      var c, rest := text[0], text[1..];
      assert text == [c] + rest;
      if c == ':' {
        TagAccepted(Step(s, c).value, rest);
        l := Local(None, "", Some(rest));
      } else {
        var tail := RepoOnlyAccepted(Step(s, c).value, rest);
        l := tail.(repo := [c] + tail.repo);
        assert l.repo[1..] == tail.repo;
        RepoTextCons(l);
      }
    }
  }

  /** Whatever is accepted behind a registry is a local name. */
  lemma {:induction false} LocalAccepted(s: Scan, text: string) returns (l: Local)
    requires s.Valid() && BehindMode(s.mode) && Run(s, text).Ok?
    ensures l.Valid() && l.Text() == text
    decreases |text|
  {
    l := Local(None, "", None);
    if text != "" {
      var c, rest := text[0], text[1..];
      assert text == [c] + rest;
      var next := Step(s, c).value;
      if c == ':' {
        TagAccepted(next, rest);
        l := Local(None, "", Some(rest));
      } else if c == '/' {
        var tail := RepoOnlyAccepted(next, rest);
        l := tail.(user := Some(""));
      } else if c == '.' {
        var tail := RepoOnlyAccepted(next, rest);
        l := Prefixed([c], tail);
      } else {
        var tail := LocalAccepted(next, rest);
        l := Prefixed([c], tail);
      }
    }
  }

  /** A local name with more in front of its first part. */
  function Longer(p: string, l: Local): Local {
    if l.user.Some? then l.(user := Some(p + l.user.value)) else l.(repo := p + l.repo)
  }

  lemma {:induction false} LongerText(p: string, l: Local)
    ensures Longer(p, l).Text() == p + l.Text()
  {
    if l.user.Some? {
      Reattach(p, l.user.value, "/" + l.RepoText());
    } else if l.tag.Some? {
      Reattach(p, l.repo, ":" + l.tag.value);
    }
  }

  lemma {:induction false} Prefixed(p: string, tail: Local) returns (l: Local)
    requires tail.Valid() && (AllUser(p) || (AllRepo(p) && tail.user.None?))
    ensures l == Longer(p, tail) && l.Valid() && l.Text() == p + tail.Text()
  {
    l := Longer(p, tail);
    LongerText(p, tail);
  }

  // ---------------------------------------------------------------- what is read from the start

  /** A plain name and a period open a host. */
  lemma {:induction false} PeriodOpens(name: string, rest: string)
    requires AllPlain(name)
    ensures Run(START, name + ['.'] + rest) == Run(Scan(HostOnly, name + ['.'], [], NO_ID), rest)
  {
    RunTokenThen(START, name, '.', rest);
    assert START.(tok := START.tok + name) == Scan(HostOrRepoName, name, [], NO_ID);
  }

  /** The opening token decides between a host and something else by its first period. */
  lemma {:induction false} OpeningHost(host: string)
    requires AllHost(host)
    ensures Run(START, host) == Ok(Scan(if '.' in host then HostOnly else HostOrRepoName, host, [], NO_ID))
  {
    if '.' in host {
      var i := FirstIndex(host, '.');
      PeriodOpens(host[..i], host[i + 1..]);
      RunToken(Scan(HostOnly, host[..i] + ['.'], [], NO_ID), host[i + 1..]);
    } else {
      RunToken(START, host);
    }
  }

  lemma {:induction false} PortOnlySlash(host: string, digits: string, port: GoInt)
    requires AllDigits(digits) && Atoi(digits) == Ok(port)
    ensures Step(Scan(PortOnly, digits, [], NO_ID.(host := host)), '/') ==
            Ok(Scan(RepoName, "", [], NO_ID.(host := host, port := port)))
  {}

  lemma {:induction false} PortOrTagSlash(host: string, digits: string, port: GoInt)
    requires AllDigits(digits) && Atoi(digits) == Ok(port)
    ensures Step(Scan(PortOrTag, digits, [host], NO_ID), '/') ==
            Ok(Scan(RepoName, "", [], NO_ID.(host := host, port := port)))
  {}

  /** Digits that end in a slash, after a host that a period gave away. */
  lemma {:induction false} PortAfterHost(host: string, digits: string, port: GoInt, rest: string)
    requires AllDigits(digits) && Atoi(digits) == Ok(port)
    ensures Run(Scan(PortOnly, "", [], NO_ID.(host := host)), digits + ['/'] + rest) ==
            Run(Scan(RepoName, "", [], NO_ID.(host := host, port := port)), rest)
  {
    RunTokenThen(Scan(PortOnly, "", [], NO_ID.(host := host)), digits, '/', rest);
    PortOnlySlash(host, digits, port);
  }

  /** Digits that end in a slash, after a name that could have been a repository. */
  lemma {:induction false} PortAfterName(host: string, digits: string, port: GoInt, rest: string)
    requires AllDigits(digits) && Atoi(digits) == Ok(port)
    ensures Run(Scan(PortOrTag, "", [host], NO_ID), digits + ['/'] + rest) ==
            Run(Scan(RepoName, "", [], NO_ID.(host := host, port := port)), rest)
  {
    RunTokenThen(Scan(PortOrTag, "", [host], NO_ID), digits, '/', rest);
    PortOrTagSlash(host, digits, port);
  }

  /** The opening host, then the character after it. */
  lemma {:induction false} HostThen(host: string, c: char, rest: string)
    requires AllHost(host)
    ensures Run(START, host + ([c] + rest)) ==
            Resume(Step(Scan(if '.' in host then HostOnly else HostOrRepoName, host, [], NO_ID), c), rest)
  {
    OpeningHost(host);
    RunConcat(START, host, [c] + rest);
    assert ([c] + rest)[1..] == rest;
  }

  /** Where the scanner stands behind a host that was recognised at once. */
  function BehindHost(f: Form): Scan
    requires f.Valid() && f.host.Some?
  {
    Scan(RepoName, "", [], NO_ID.(host := f.host.value, port := if f.port.Some? then Atoi(f.port.value).value else 0))
  }

  /** A host with a port, or with a period, is recognised at once. */
  lemma {:induction false} HostOpens(f: Form, rest: string)
    requires f.Valid() && f.host.Some? && (f.port.Some? || '.' in f.host.value)
    ensures Run(START, f.Authority() + ("/" + rest)) == Run(BehindHost(f), rest)
  {
    var host := f.host.value;
    if f.port.None? {
      HostThen(host, '/', rest);
    } else {
      var digits := f.port.value;
      AuthorityShape(host, digits, rest);
      HostThen(host, ':', digits + ['/'] + rest);
      if '.' in host {
        PortAfterHost(host, digits, Atoi(digits).value, rest);
      } else {
        PortAfterName(host, digits, Atoi(digits).value, rest);
      }
    }
  }

  lemma {:induction false} AuthorityShape(host: string, digits: string, rest: string)
    ensures host + (":" + digits) + ("/" + rest) == host + ([':'] + (digits + ['/'] + rest))
  {}

  /** An opening plain name that ends in a slash is put aside. */
  lemma {:induction false} NameHeld(name: string, rest: string)
    requires AllPlain(name)
    ensures Run(START, name + ("/" + rest)) == Run(Scan(RepoNameOrRepo, "", [name], NO_ID), rest)
  {
    HostThen(name, '/', rest);
  }

  /** A plain name, an underscore, and then anything. */
  lemma {:induction false} UnderscoreOpens(name: string, rest: string)
    requires AllPlain(name)
    ensures Run(START, name + ['_'] + rest) == Run(Scan(RepoName, name + ['_'], [], NO_ID), rest)
  {
    RunTokenThen(START, name, '_', rest);
    assert START.(tok := START.tok + name) == Scan(HostOrRepoName, name, [], NO_ID);
  }

  /** A first part with an underscore before any period cannot be a host. */
  lemma {:induction false} UnderscoreReads(l: Local)
    requires l.Valid() && var first := if l.user.Some? then l.user.value else l.repo;
                          '_' in first && PeriodsFollowUnderscore(first)
    ensures FinishRun(Run(START, l.Text())) == Ok(ImageID("", 0, OrEmpty(l.user), l.repo, OrEmpty(l.tag)))
  {
    var first := if l.user.Some? then l.user.value else l.repo;
    var i := FirstIndex(first, '_');
    var p, tail := first[..i], first[i + 1..];
    var rest := if l.user.Some? then l.(user := Some(tail)) else l.(repo := tail);
    assert AllPlain(p);
    assert Longer(p + ['_'], rest) == l;
    LongerText(p + ['_'], rest);
    UnderscoreOpens(p, rest.Text());
    LocalReads(Scan(RepoName, p + ['_'], [], NO_ID), rest);
  }

  /** After a plain name and a colon, what cannot be mistaken for a port is read as a tag. */
  lemma {:induction false} BareTagReads(repo: string, tag: string)
    requires AllRepo(tag) && !StartsLikePortThenUnderscore(tag)
    ensures FinishRun(Run(Scan(PortOrTag, "", [repo], NO_ID), tag)) == Ok(ImageID("", 0, "", repo, tag))
  {
    var s := Scan(PortOrTag, "", [repo], NO_ID);
    if AllDigits(tag) {
      RunToken(s, tag);
    } else {
      var i := FirstNonDigit(tag);
      RunTokenThen(s, tag[..i], tag[i], tag[i + 1..]);
      var next := Step(s.(tok := tag[..i]), tag[i]).value;
      RunToken(next, tag[i + 1..]);
      assert next.tok + tag[i + 1..] == tag;
    }
  }

  lemma {:induction false} FirstNonDigit(s: string) returns (i: nat)
    requires !AllDigits(s)
    ensures i < |s| && !IsDigit(s[i]) && AllDigits(s[..i])
    ensures s == s[..i] + [s[i]] + s[i + 1..]
    decreases |s|
  {
    if !IsDigit(s[0]) {
      i := 0;
    } else {
      var k :| 0 <= k < |s| && !IsDigit(s[k]);
      assert !IsDigit(s[1..][k - 1]);
      var j := FirstNonDigit(s[1..]);
      i := j + 1;
      assert s[..i] == [s[0]] + s[1..][..j];
    }
  }

  /** A plain repository with neither host nor user before it. */
  lemma {:induction false} PlainRepoOpens(l: Local)
    requires l.Valid() && l.user.None? && AllPlain(l.repo) && l.Opens()
    ensures FinishRun(Run(START, l.Text())) == Ok(ImageID("", 0, "", l.repo, OrEmpty(l.tag)))
  {
    if l.tag.None? {
      RunToken(START, l.repo);
    } else {
      assert '_' !in l.repo;
      HostThen(l.repo, ':', l.tag.value);
      BareTagReads(l.repo, l.tag.value);
    }
  }

  lemma {:induction false} PlainRepo(repo: string)
    requires AllRepo(repo) && PeriodsFollowUnderscore(repo) && '_' !in repo
    ensures AllPlain(repo)
  {
    forall i | 0 <= i < |repo| ensures IsPlainChar(repo[i]) {
      assert repo[i] in repo;
    }
  }

  lemma {:induction false} UserOpens(l: Local)
    requires l.Valid() && l.user.Some?
    ensures FinishRun(Run(START, l.Text())) == Ok(ImageID("", 0, l.user.value, l.repo, OrEmpty(l.tag)))
  {
    if '_' in l.user.value {
      UnderscoreReads(l);
    } else {
      var held := Scan(RepoNameOrRepo, "", [l.user.value], NO_ID);
      NameHeld(l.user.value, l.RepoText());
      LocalReads(held, l.(user := None));
      assert held.tok + l.repo == l.repo;
    }
  }

  /** Every form is parsed as what it says. */
  lemma {:induction false} FormReads(f: Form)
    requires f.Valid()
    ensures Parse(f.Text()) == Ok(f.Id())
  {
    var l := f.local;
    if f.host.Some? && (f.port.Some? || '.' in f.host.value) {
      HostOpens(f, l.Text());
      LocalReads(BehindHost(f), l);
      assert "" + l.repo == l.repo && (l.user.Some? ==> "" + l.user.value == l.user.value);
    } else if f.host.Some? {
      var held := Scan(RepoNameOrRepo, "", [f.host.value], NO_ID);
      NameHeld(f.host.value, l.Text());
      LocalReads(held, l);
      assert held.tok + l.user.value == l.user.value;
    } else if l.user.Some? {
      UserOpens(l);
    } else if '_' in l.repo {
      UnderscoreReads(l);
    } else {
      PlainRepo(l.repo);
      PlainRepoOpens(l);
    }
  }

  // ---------------------------------------------------------------- what is accepted from the start

  /** The scan ends well. */
  predicate Accepts(s: Scan, text: string)
    requires s.Valid()
  {
    FinishRun(Run(s, text)).Ok?
  }

  lemma {:induction false} AcceptsCons(s: Scan, text: string) returns (next: Scan)
    requires s.Valid() && text != "" && Accepts(s, text)
    ensures Step(s, text[0]) == Ok(next) && next.Valid() && Accepts(next, text[1..]) && Run(next, text[1..]).Ok?
    ensures text == [text[0]] + text[1..]
  {
    next := Step(s, text[0]).value;
  }

  /** What is accepted after a host that a period gave away. */
  lemma {:induction false} HostAccepted(s: Scan, text: string) returns (f: Form)
    requires s.Valid() && s.mode.HostOnly? && AllHost(s.tok) && '.' in s.tok && Accepts(s, text)
    ensures f.Valid() && f.Text() == s.tok + text
    decreases |text|
  {
    var next := AcceptsCons(s, text);
    var c, rest := text[0], text[1..];
    if c == ':' {
      f := PortAccepted(next, s.tok, rest);
      assert next.tok + rest == rest && text == ":" + rest;
    } else if c == '/' {
      f := HostThenLocal(next, s.tok, rest);
      assert text == "/" + rest;
    } else {
      HostGrows(s.tok, c);
      f := HostAccepted(next, rest);
      Reattach(s.tok, [c], rest);
    }
  }

  lemma {:induction false} HostGrows(host: string, c: char)
    requires AllHost(host) && '.' in host && IsHostChar(c)
    ensures AllHost(host + [c]) && '.' in host + [c]
  {}

  lemma {:induction false} HostThenLocal(s: Scan, host: string, rest: string) returns (f: Form)
    requires s.Valid() && BehindMode(s.mode) && Run(s, rest).Ok? && AllHost(host) && '.' in host
    ensures f.Valid() && f.Text() == host + ("/" + rest)
  {
    var l := LocalAccepted(s, rest);
    f := Form(Some(host), None, l);
  }

  /** What is accepted after such a host and a colon: the rest of a port, and a local name. */
  lemma {:induction false} PortAccepted(s: Scan, host: string, text: string) returns (f: Form)
    requires s.Valid() && s.mode.PortOnly? && AllHost(host) && '.' in host && Accepts(s, text)
    ensures f.Valid() && f.Text() == host + (":" + (s.tok + text))
    decreases |text|
  {
    var next := AcceptsCons(s, text);
    var c, rest := text[0], text[1..];
    if c == '/' {
      var l := LocalAccepted(next, rest);
      f := Form(Some(host), Some(s.tok), l);
      PortShape(host, s.tok, l.Text());
    } else {
      f := PortAccepted(next, host, rest);
      Reattach(s.tok, [c], rest);
    }
  }

  lemma {:induction false} PortShape(host: string, digits: string, rest: string)
    ensures host + (":" + digits) + ("/" + rest) == host + (":" + (digits + (['/'] + rest)))
  {}

  /** What is accepted after a plain name and a colon: a port and a local name, or a tag. */
  lemma {:induction false} PortOrTagAccepted(s: Scan, text: string) returns (f: Form)
    requires s.Valid() && s.mode.PortOrTag? && AllPlain(s.scanned[0]) && Accepts(s, text)
    ensures f.Valid() && f.Text() == s.scanned[0] + (":" + (s.tok + text))
    decreases |text|
  {
    var name, digits := s.scanned[0], s.tok;
    if text == "" {
      assert digits + text == digits;
      f := Form(None, None, Local(None, name, Some(digits)));
    } else {
      var c, rest := text[0], text[1..];
      assert text == [c] + rest;
      var next := Step(s, c).value;
      if IsDigit(c) {
        f := PortOrTagAccepted(next, rest);
        Reattach(digits, [c], rest);
      } else if c == '/' {
        var l := LocalAccepted(next, rest);
        f := Form(Some(name), Some(digits), l);
        PortShape(name, digits, l.Text());
      } else {
        TagAccepted(next, rest);
        Reattach(digits, [c], rest);
        NotPortLike(digits, c, rest);
        f := Form(None, None, Local(None, name, Some(digits + [c] + rest)));
      }
    }
  }

  /** Digits and then something else than a digit or an underscore. */
  lemma {:induction false} NotPortLike(digits: string, c: char, rest: string)
    requires AllDigits(digits) && !IsDigit(c) && c != '_'
    ensures !StartsLikePortThenUnderscore(digits + [c] + rest)
  {
    var tag := digits + [c] + rest;
    forall i | 0 <= i < |tag| && tag[i] == '_' ensures !AllDigits(tag[..i]) {
      assert i > |digits| && tag[..i][|digits|] == c;
    }
  }

  /** What an opening plain name can be followed by. */
  lemma {:induction false} OpeningStep(name: string, c: char)
    requires AllPlain(name) && Step(Scan(HostOrRepoName, name, [], NO_ID), c).Ok?
    ensures var next := Step(Scan(HostOrRepoName, name, [], NO_ID), c).value;
            if c == '.' then next.mode.HostOnly? && next.tok == name + ['.']
            else if c == '_' then next.mode.RepoName? && next.tok == name + ['_']
            else if c == '/' then next.mode.RepoNameOrRepo? && next.tok == "" && next.scanned == [name]
            else if c == ':' then next.mode.PortOrTag? && next.tok == "" && next.scanned == [name]
            else IsPlainChar(c) && next == Scan(HostOrRepoName, name + [c], [], NO_ID)
  {}

  /** What is accepted from the start: the opening name, with what its first other character makes of it. */
  lemma {:induction false} OpeningAccepted(name: string, text: string) returns (f: Form)
    requires AllPlain(name) && Accepts(Scan(HostOrRepoName, name, [], NO_ID), text)
    ensures f.Valid() && f.Text() == name + text
    decreases |text|
  {
    if text == "" {
      f := Form(None, None, Local(None, name, None));
      assert name + text == name;
    } else {
      var next := AcceptsCons(Scan(HostOrRepoName, name, [], NO_ID), text);
      var c, rest := text[0], text[1..];
      OpeningStep(name, c);
      Reattach(name, [c], rest);
      if IsPlainChar(c) {
        f := OpeningAccepted(name + [c], rest);
      } else {
        f := NameAccepted(name, c, next, rest);
      }
    }
  }

  /** What is accepted once the opening name has ended. */
  lemma {:induction false} NameAccepted(name: string, c: char, next: Scan, rest: string) returns (f: Form)
    requires AllPlain(name) && !IsPlainChar(c) && Step(Scan(HostOrRepoName, name, [], NO_ID), c) == Ok(next)
    requires next.Valid() && Accepts(next, rest) && Run(next, rest).Ok?
    ensures f.Valid() && f.Text() == name + [c] + rest
  {
    OpeningStep(name, c);
    if c == '.' {
      assert (name + [c])[|name|] == '.';
      f := HostAccepted(next, rest);
    } else if c == '_' {
      var tail := LocalAccepted(next, rest);
      f := UnderscoreAccepted(name, tail);
    } else if c == '/' {
      f := HeldAccepted(name, next, rest);
      Reattach(name, "/", rest);
    } else {
      f := PortOrTagAccepted(next, rest);
      Reattach(name, ":", rest);
      assert next.tok + rest == rest;
    }
  }

  /** What is accepted behind an opening name and a slash: the name was a host if a user follows, and a user if not. */
  lemma {:induction false} HeldAccepted(name: string, s: Scan, rest: string) returns (f: Form)
    requires s.Valid() && BehindMode(s.mode) && Run(s, rest).Ok? && AllPlain(name)
    ensures f.Valid() && f.Text() == name + ("/" + rest)
  {
    var l := LocalAccepted(s, rest);
    f := if l.user.Some? then Form(Some(name), None, l) else Form(None, None, l.(user := Some(name)));
  }

  lemma {:induction false} UnderscoreAccepted(name: string, tail: Local) returns (f: Form)
    requires AllPlain(name) && tail.Valid()
    ensures f.Valid() && f.Text() == name + ['_'] + tail.Text()
  {
    var l := Prefixed(name + ['_'], tail);
    f := Form(None, None, l);
    if l.user.None? {
      assert l.repo[|name|] == '_';
      forall i | 0 <= i < |l.repo| && l.repo[i] == '.' ensures exists j | 0 <= j < i :: l.repo[j] == '_' {
        assert i > |name|;
      }
    }
  }

  // ---------------------------------------------------------------- the grammar theorem

  /**
   The exact grammar: a text is accepted if and only if it has a valid form, and then the parse
   returns the parts of that form.
   */
  lemma {:induction false} ParseGrammarIff(text: string)
    ensures Parse(text).Ok? <==> exists f: Form :: f.Valid() && f.Text() == text
    ensures forall f: Form | f.Valid() && f.Text() == text :: Parse(text) == Ok(f.Id())
  {
    forall f: Form | f.Valid() && f.Text() == text ensures Parse(text) == Ok(f.Id()) {
      FormReads(f);
    }
    if Parse(text).Ok? {
      var f := OpeningAccepted("", text);
      assert "" + text == text;
    }
  }

  /** The form of an accepted text. */
  lemma {:induction false} FormOf(text: string) returns (f: Form)
    requires Parse(text).Ok?
    ensures f.Valid() && f.Text() == text && Parse(text) == Ok(f.Id())
  {
    ParseGrammarIff(text);
    f :| f.Valid() && f.Text() == text;
  }

  /** A text has no more than one meaning. */
  lemma {:induction false} FormsAgree(f: Form, g: Form)
    requires f.Valid() && g.Valid() && f.Text() == g.Text()
    ensures f.Id() == g.Id()
  {
    FormReads(f);
    FormReads(g);
  }

  // ---------------------------------------------------------------- the loop

  /** The scanning loop. */
  method ParseImageID(text: string) returns (r: Result<ImageID, ParseError>)
    ensures r == Parse(text)
  {
    var s := START;
    for i := 0 to |text|
      invariant s.Valid()
      invariant Run(START, text[..i]) == Ok(s)
    {
      var next := Step(s, text[i]);
      RunSnoc(START, text[..i], text[i]);
      assert text[..i + 1] == text[..i] + [text[i]];
      if next.Err? {
        RunConcat(START, text[..i + 1], text[i + 1..]);
        assert text == text[..i + 1] + text[i + 1..];
        return Err(next.error);
      }
      s := next.value;
    }
    assert text[..|text|] == text;
    r := Finish(s);
  }
}
