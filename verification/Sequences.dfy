/**
 Sequences glued together in one order and in another. These are facts that the verifier finds
 by itself, stated apart from everything that would distract it.
 */
module Sequences {

  lemma {:induction false} Reattach<T>(a: seq<T>, b: seq<T>, c: seq<T>)
    ensures a + (b + c) == a + b + c
  {}

  lemma {:induction false} Regroup<T>(a: seq<T>, b: seq<T>, c: seq<T>, d: seq<T>)
    ensures a + b + c + d == a + b + (c + d)
  {}

  lemma {:induction false} Shift<T>(a: seq<T>, b: seq<T>, c: seq<T>, d: seq<T>)
    ensures a + b + c + d == a + (b + (c + d))
  {}

  lemma {:induction false} Gather<T>(a: seq<T>, b: seq<T>, c: seq<T>, d: seq<T>)
    ensures a + b + c + d == a + (b + c + d)
  {}

  lemma {:induction false} TailSnoc<T>(s: seq<T>, n: nat, last: T)
    requires n <= |s|
    ensures (s + [last])[n..] == s[n..] + [last]
  {}

  lemma {:induction false} HeadTail<T>(s: seq<T>, after: seq<T>)
    requires s != []
    ensures s == [s[0]] + s[1..] && s + after == [s[0]] + (s[1..] + after)
  {}

  /** Cutting a sequence at an index and gluing it back, between two others. */
  lemma {:induction false} CutAt<T>(s: seq<T>, i: nat, before: seq<T>, after: seq<T>)
    requires i < |s|
    ensures s[..i] + [s[i]] + (s[i + 1..] + after) == s + after
    ensures before + s[..i] + [s[i]] + s[i + 1..] == before + s
  {}
}
