/** Regrouping of sequences. */
module Sequences {

  lemma Assoc<T>(a: seq<T>, b: seq<T>, c: seq<T>)
    ensures a + (b + c) == a + b + c
  {
  }

  lemma NoneRight<T>(a: seq<T>)
    ensures a + [] == a && [] + a == a
  {
  }

  /** Cutting behind a known front. */
  lemma CutFront<T>(p: seq<T>, h: seq<T>, rest: seq<T>, n: nat)
    requires p == h + rest && n <= |rest|
    ensures p[|h|..][..n] == rest[..n] && p == p[..|h| + n] + rest[n..] && p[..|h| + n] == h + rest[..n]
  {
  }
}
