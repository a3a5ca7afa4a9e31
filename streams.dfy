/**
 * The two iterators each emission loop of `main` pulls from, seen as
 * sequences: round i of a loop calls `next()` on both, which yields item i
 * of each sequence, or None once it is exhausted.
 */
module Streams {
  import opened Wrappers

  /** What the i-th call of `next()` yields. */
  function Next<T>(s: seq<T>, i: nat): (r: Option<T>)
    ensures r.Some? <==> i < |s|
    ensures r.Some? ==> r.value == s[i]
  {
    if i < |s| then Some(s[i]) else None
  }

  /** What remains of a stream after i calls of `next()`. */
  function Drop<T>(s: seq<T>, i: nat): (r: seq<T>)
    ensures |r| == if i <= |s| then |s| - i else 0
  {
    if i <= |s| then s[i..] else []
  }

  /** The first item of a stream and the stream after it. */
  function Head<T>(s: seq<T>): Option<T> { Next(s, 0) }

  function Tail<T>(s: seq<T>): seq<T> { Drop(s, 1) }

  /** One more `next()` on what remains after i calls. */
  lemma DropStep<T>(s: seq<T>, i: nat)
    ensures Head(Drop(s, i)) == Next(s, i)
    ensures Tail(Drop(s, i)) == Drop(s, i + 1)
  {
  }

  lemma AppendAssoc<T>(a: seq<T>, b: seq<T>, c: seq<T>)
    ensures a + b + c == a + (b + c)
  {
  }

  function Max(a: nat, b: nat): nat { if a < b then b else a }
}
