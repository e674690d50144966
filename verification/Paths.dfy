/**
 Slash-separated names as the Go libraries treat them: `strings.Split`, `strings.SplitN`,
 `strings.HasPrefix`, `path.Clean` and `path.Join` (`filepath.Join` agrees with it on Unix).
 */
module Paths {

  predicate HasPrefix(s: string, prefix: string) {
    prefix <= s
  }

  predicate SlashFree(s: string) {
    forall i | 0 <= i < |s| :: s[i] != '/'
  }

  /** `strings.Split(s, "/")` */
  function Split(s: string): (parts: seq<string>)
    ensures |parts| >= 1
    ensures forall i | 0 <= i < |parts| :: SlashFree(parts[i])
  {
    if s == "" then [""]
    else
      var rest := Split(s[1..]);
      if s[0] == '/' then [""] + rest else [[s[0]] + rest[0]] + rest[1..]
  }

  /** `strings.Join(parts, "/")` */
  function JoinSlash(parts: seq<string>): string {
    if parts == [] then ""
    else if |parts| == 1 then parts[0]
    else parts[0] + "/" + JoinSlash(parts[1..])
  }

  /** `strings.SplitN(s, "/", n)` */
  function SplitN(s: string, n: nat): (parts: seq<string>)
    requires n >= 1
    ensures 1 <= |parts| <= n
  {
    var all := Split(s);
    if |all| <= n then all else all[..n - 1] + [JoinSlash(all[n - 1..])]
  }

  /** A component that `path.Clean` keeps as it is. */
  predicate Plain(c: string) {
    c != "" && c != "." && c != ".." && SlashFree(c)
  }

  predicate AllPlain(parts: seq<string>) {
    forall i | 0 <= i < |parts| :: Plain(parts[i])
  }

  /** A relative name that names something below its root and is already in its shortest form. */
  predicate CleanName(name: string) {
    AllPlain(Split(name))
  }

  /** The component stack kept by `path.Clean`. */
  function Normalise(rooted: bool, stack: seq<string>, parts: seq<string>): seq<string>
    decreases |parts|
  {
    if parts == [] then stack
    else
      var c, rest := parts[0], parts[1..];
      if c == "" || c == "." then Normalise(rooted, stack, rest)
      else if c == ".." then
        if stack != [] && stack[|stack| - 1] != ".." then Normalise(rooted, stack[..|stack| - 1], rest)
        else if rooted then Normalise(rooted, stack, rest)
        else Normalise(rooted, stack + [c], rest)
      else Normalise(rooted, stack + [c], rest)
  }

  /** `path.Clean` */
  function Clean(p: string): string {
    var rooted := p != "" && p[0] == '/';
    var parts := Normalise(rooted, [], Split(p));
    if rooted then "/" + JoinSlash(parts)
    else if parts == [] then "."
    else JoinSlash(parts)
  }

  /** `path.Join` */
  function PathJoin(parts: seq<string>): string {
    if parts == [] then ""
    else if parts[0] == "" then PathJoin(parts[1..])
    else Clean(JoinSlash(parts))
  }

  // ---------------------------------------------------------------- split and join are inverse

  lemma {:induction false} JoinSplit(s: string)
    ensures JoinSlash(Split(s)) == s
  {
    if s != "" {
      var rest := Split(s[1..]);
      JoinSplit(s[1..]);
      if s[0] == '/' {
        assert ([""] + rest)[1..] == rest;
        assert JoinSlash([""] + rest) == "" + "/" + s[1..];
      } else {
        var first := [s[0]] + rest[0];
        assert ([first] + rest[1..])[1..] == rest[1..];
        if |rest| > 1 {
          assert JoinSlash([first] + rest[1..]) == [s[0]] + (rest[0] + "/" + JoinSlash(rest[1..]));
        }
      }
    }
  }

  lemma {:induction false} SplitSlashFree(a: string)
    requires SlashFree(a)
    ensures Split(a) == [a]
  {
    if a != "" {
      SplitSlashFree(a[1..]);
      assert [a[0]] + a[1..] == a;
    }
  }

  lemma {:induction false} SplitCons(a: string, b: string)
    requires SlashFree(a)
    ensures Split(a + "/" + b) == [a] + Split(b)
  {
    var s := a + "/" + b;
    if a == "" {
      assert s[1..] == b;
    } else {
      assert s[1..] == a[1..] + "/" + b;
      SplitCons(a[1..], b);
      var rest := [a[1..]] + Split(b);
      assert rest[1..] == Split(b);
      assert [a[0]] + a[1..] == a;
    }
  }

  lemma {:induction false} SplitJoin(parts: seq<string>)
    requires |parts| >= 1 && forall i | 0 <= i < |parts| :: SlashFree(parts[i])
    ensures Split(JoinSlash(parts)) == parts
  {
    if |parts| == 1 {
      SplitSlashFree(parts[0]);
    } else {
      SplitCons(parts[0], JoinSlash(parts[1..]));
      SplitJoin(parts[1..]);
    }
  }

  lemma {:induction false} JoinAppend(a: seq<string>, b: seq<string>)
    requires a != [] && b != []
    ensures JoinSlash(a + b) == JoinSlash(a) + "/" + JoinSlash(b)
  {
    if |a| == 1 {
      assert (a + b)[1..] == b;
    } else {
      assert (a + b)[1..] == a[1..] + b;
      JoinAppend(a[1..], b);
      assert a[0] + "/" + (JoinSlash(a[1..]) + "/" + JoinSlash(b)) == JoinSlash(a) + "/" + JoinSlash(b);
    }
  }

  /** Splitting a prefix path off a longer one. */
  lemma {:induction false} SplitConcat(a: string, b: string)
    ensures Split(a + "/" + b) == Split(a) + Split(b)
  {
    JoinSplit(a);
    JoinSplit(b);
    JoinAppend(Split(a), Split(b));
    SplitJoin(Split(a) + Split(b));
  }

  // ---------------------------------------------------------------- prefixes of joined paths

  /** Up to the first slash two strings with a common prefix agree. */
  lemma {:induction false} SlashPrefixIff(a: string, x: string, b: string, y: string)
    requires SlashFree(a) && SlashFree(b)
    ensures a + "/" + x <= b + "/" + y <==> a == b && x <= y
  {
    var s, t := a + "/" + x, b + "/" + y;
    if s <= t {
      assert s[|a|] == '/' && t[|b|] == '/';
      assert |a| == |b|;
      assert a == s[..|a|] == t[..|b|] == b;
      assert x == s[|a| + 1..] && y == t[|b| + 1..];
    }
  }

  lemma {:induction false} ComponentPrefixIff(a: string, b: string, y: string)
    requires SlashFree(a)
    ensures a <= b + "/" + y <==> a <= b
  {
    var t := b + "/" + y;
    if a <= t {
      assert t[|b|] == '/';
      assert |a| <= |b|;
      assert a == t[..|a|] == b[..|a|];
    }
  }

  /** A joined path is a raw prefix of another if only the last component is cut short. */
  lemma {:induction false} JoinPrefixIff(a: seq<string>, b: seq<string>)
    requires a != [] && b != []
    requires (forall i | 0 <= i < |a| :: SlashFree(a[i])) && (forall i | 0 <= i < |b| :: SlashFree(b[i]))
    ensures var n := |a|;
            JoinSlash(a) <= JoinSlash(b) <==> n <= |b| && a[..n - 1] == b[..n - 1] && a[n - 1] <= b[n - 1]
    decreases |a|
  {
    if |a| == 1 {
      if |b| > 1 {
        ComponentPrefixIff(a[0], b[0], JoinSlash(b[1..]));
      }
      assert a[..0] == b[..0];
    } else if |b| == 1 {
      assert JoinSlash(a)[|a[0]|] == '/';
    } else {
      SlashPrefixIff(a[0], JoinSlash(a[1..]), b[0], JoinSlash(b[1..]));
      JoinPrefixIff(a[1..], b[1..]);
      if |a| <= |b| {
        PrefixCons(a, b);
      }
    }
  }

  lemma {:induction false} PrefixCons(a: seq<string>, b: seq<string>)
    requires 1 < |a| <= |b|
    ensures a[..|a| - 1] == b[..|a| - 1] <==> a[0] == b[0] && a[1..][..|a| - 2] == b[1..][..|a| - 2]
  {
    var n := |a|;
    assert a[..n - 1] == [a[0]] + a[1..][..n - 2] && b[..n - 1] == [b[0]] + b[1..][..n - 2];
    if a[..n - 1] == b[..n - 1] {
      assert a[..n - 1][1..] == a[1..][..n - 2] && b[..n - 1][1..] == b[1..][..n - 2];
      assert a[..n - 1][0] == a[0] && b[..n - 1][0] == b[0];
    }
  }

  // ---------------------------------------------------------------- cleaning

  lemma {:induction false} NormalisePlain(rooted: bool, stack: seq<string>, parts: seq<string>)
    requires AllPlain(parts)
    ensures Normalise(rooted, stack, parts) == stack + parts
    decreases |parts|
  {
    if parts != [] {
      NormalisePlain(rooted, stack + [parts[0]], parts[1..]);
      assert stack + [parts[0]] + parts[1..] == stack + parts;
    } else {
      assert stack + parts == stack;
    }
  }

  lemma {:induction false} NormaliseConcat(rooted: bool, stack: seq<string>, a: seq<string>, b: seq<string>)
    ensures Normalise(rooted, stack, a + b) == Normalise(rooted, Normalise(rooted, stack, a), b)
    decreases |a|
  {
    if a == [] {
      assert a + b == b;
    } else {
      assert (a + b)[1..] == a[1..] + b;
      var c := a[0];
      if c == "" || c == "." {
        NormaliseConcat(rooted, stack, a[1..], b);
      } else if c == ".." {
        if stack != [] && stack[|stack| - 1] != ".." {
          NormaliseConcat(rooted, stack[..|stack| - 1], a[1..], b);
        } else if rooted {
          NormaliseConcat(rooted, stack, a[1..], b);
        } else {
          NormaliseConcat(rooted, stack + [c], a[1..], b);
        }
      } else {
        NormaliseConcat(rooted, stack + [c], a[1..], b);
      }
    }
  }

  /** The components that survive cleaning are plain, apart from leading parent references. */
  predicate Climbed(stack: seq<string>) {
    forall i | 0 <= i < |stack| :: Plain(stack[i]) || (stack[i] == ".." && forall j | 0 <= j <= i :: stack[j] == "..")
  }

  lemma {:induction false} NormaliseClimbed(rooted: bool, stack: seq<string>, parts: seq<string>)
    requires Climbed(stack) && forall i | 0 <= i < |parts| :: SlashFree(parts[i])
    ensures Climbed(Normalise(rooted, stack, parts))
    decreases |parts|
  {
    if parts != [] {
      var c, rest := parts[0], parts[1..];
      if c == "" || c == "." {
        NormaliseClimbed(rooted, stack, rest);
      } else if c == ".." && stack != [] && stack[|stack| - 1] != ".." {
        NormaliseClimbed(rooted, stack[..|stack| - 1], rest);
      } else if c == ".." && rooted {
        NormaliseClimbed(rooted, stack, rest);
      } else {
        NormaliseClimbed(rooted, stack + [c], rest);
      }
    }
  }

  /** A parent reference at the bottom of the stack stays there. */
  lemma {:induction false} ParentStays(stack: seq<string>, parts: seq<string>)
    requires stack != [] && stack[0] == ".."
    ensures var end := Normalise(false, stack, parts); end != [] && end[0] == ".."
    decreases |parts|
  {
    if parts != [] {
      var c, rest := parts[0], parts[1..];
      if c == "" || c == "." {
        ParentStays(stack, rest);
      } else if c == ".." && stack[|stack| - 1] != ".." {
        ParentStays(stack[..|stack| - 1], rest);
      } else {
        ParentStays(stack + [c], rest);
      }
    }
  }

  /** A name that does not climb out of its root is cleaned in the same way below any other path. */
  lemma {:induction false} NormaliseOnTop(base: seq<string>, stack: seq<string>, parts: seq<string>)
    requires (forall i | 0 <= i < |parts| :: SlashFree(parts[i]))
    requires AllPlain(stack) && AllPlain(Normalise(false, stack, parts))
    ensures Normalise(false, base + stack, parts) == base + Normalise(false, stack, parts)
    decreases |parts|
  {
    if parts != [] {
      var c, rest := parts[0], parts[1..];
      if c == "" || c == "." {
        NormaliseOnTop(base, stack, rest);
      } else if c == ".." {
        if stack == [] {
          assert stack + [c] == [c];
          ParentStays([c], rest);
          assert false;
        } else {
          NormaliseOnTop(base, stack[..|stack| - 1], rest);
          assert (base + stack)[..|base + stack| - 1] == base + stack[..|stack| - 1];
        }
      } else {
        NormaliseOnTop(base, stack + [c], rest);
        assert base + stack + [c] == base + (stack + [c]);
      }
    }
  }

  /** Joining a plain component to a plain rooted path only adds a slash. */
  lemma {:induction false} PathJoinRooted(base: seq<string>, c: string)
    requires base != [] && AllPlain(base) && Plain(c)
    ensures PathJoin(["/" + JoinSlash(base), c]) == "/" + JoinSlash(base + [c])
  {
    var p := "/" + JoinSlash(base);
    assert [p, c][1..] == [c];
    assert JoinSlash([p, c]) == p + "/" + c;
    JoinAppend(base, [c]);
    var whole := base + [c];
    assert p + "/" + c == "" + "/" + JoinSlash(whole);
    SplitCons("", JoinSlash(whole));
    SplitJoin(whole);
    assert ([""] + whole)[1..] == whole;
    NormalisePlain(true, [], whole);
    assert [] + whole == whole;
  }

  /** The components of a name joined below a plain relative path. */
  lemma {:induction false} PathJoinBelow(base: seq<string>, name: string)
    requires base != [] && AllPlain(base)
    ensures var parts := Normalise(false, base, Split(name));
            PathJoin([JoinSlash(base), name]) == if parts == [] then "." else JoinSlash(parts)
  {
    var p := JoinSlash(base);
    assert [p, name][1..] == [name];
    assert JoinSlash([p, name]) == p + "/" + name;
    SplitConcat(p, name);
    SplitJoin(base);
    NormaliseConcat(false, [], base, Split(name));
    NormalisePlain(false, [], base);
    assert [] + base == base;
  }

  /** The components of a name once it is clean, as far as it stays below its root. */
  function Below(name: string): seq<string> {
    Normalise(false, [], Split(name))
  }

  /** The name does not climb out of its root; it may be the root itself, and need not be clean. */
  predicate StaysBelow(name: string) {
    AllPlain(Below(name))
  }

  lemma {:induction false} StaysBelowJoin(base: seq<string>, name: string)
    requires base != [] && AllPlain(base) && StaysBelow(name)
    ensures PathJoin([JoinSlash(base), name]) == JoinSlash(base + Below(name))
  {
    PathJoinBelow(base, name);
    NormaliseOnTop(base, [], Split(name));
    assert base + [] == base;
  }

  /** A clean name stays below its root, as it is. */
  lemma {:induction false} CleanStaysBelow(name: string)
    requires CleanName(name)
    ensures StaysBelow(name) && Below(name) == Split(name) && JoinSlash(Below(name)) == name
  {
    NormalisePlain(false, [], Split(name));
    assert [] + Split(name) == Split(name);
    JoinSplit(name);
  }

  lemma {:induction false} CleanNameBelow(base: seq<string>, name: string)
    requires base != [] && AllPlain(base) && CleanName(name)
    ensures PathJoin([JoinSlash(base), name]) == JoinSlash(base + Split(name))
  {
    PathJoinBelow(base, name);
    NormalisePlain(false, base, Split(name));
  }

  /** The last part of a split in `n` is the rest of the string, uncut. */
  lemma {:induction false} SplitNLast(parts: seq<string>, n: nat)
    requires 1 <= n <= |parts| && forall i | 0 <= i < |parts| :: SlashFree(parts[i])
    ensures var cut := SplitN(JoinSlash(parts), n);
            |cut| == n && cut[..n - 1] == parts[..n - 1] && cut[n - 1] == JoinSlash(parts[n - 1..])
  {
    SplitJoin(parts);
    if |parts| == n {
      assert parts[n - 1..] == [parts[n - 1]];
    }
  }

  lemma {:induction false} TwoPartsClean(a: string, b: string)
    requires Plain(a) && Plain(b)
    ensures CleanName(a + "/" + b)
  {
    SplitCons(a, b);
    SplitSlashFree(b);
  }

  lemma {:induction false} PathJoinTwo(a: string, name: string)
    requires Plain(a) && CleanName(name)
    ensures PathJoin([a, name]) == a + "/" + name
  {
    assert JoinSlash([a]) == a;
    CleanNameBelow([a], name);
    JoinAppend([a], Split(name));
    JoinSplit(name);
  }
}
