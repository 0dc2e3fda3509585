/** Lists of indices, and lists that a loop and a recursion build from opposite ends. */
module Sequences {
  import opened Wire

  predicate Increasing(xs: seq<nat>) {
    forall j, k :: 0 <= j < k < |xs| ==> xs[j] < xs[k]
  }

  function UpTo(n: nat): (xs: seq<nat>)
    ensures |xs| == n && forall i :: 0 <= i < n ==> xs[i] == i
  {
    seq(n, i => i)
  }

  lemma {:induction false} Associate<T>(a: seq<T>, b: seq<T>, c: seq<T>)
    ensures (a + b) + c == a + (b + c)
  {
  }

  lemma {:induction false} ListOfTwo<T>(a: seq<T>, b: seq<T>)
    requires |a| == 2 && |b| == 2 && a[0] == b[0] && a[1] == b[1]
    ensures a == b
  {
  }

  /** What a loop has, in front of what is still to come, unless that fails. */
  function Ahead<T>(xs: seq<T>, more: Result<seq<T>>): Result<seq<T>> {
    if more.Err? then more else Ok(xs + more.value)
  }

  lemma {:induction false} NothingAhead<T>(more: Result<seq<T>>)
    ensures Ahead([], more) == more
  {
    if more.Ok? {
      assert [] + more.value == more.value;
    }
  }

  lemma {:induction false} AheadTwice<T>(a: seq<T>, b: seq<T>, more: Result<seq<T>>)
    ensures Ahead(a, Ahead(b, more)) == Ahead(a + b, more)
  {
    if more.Ok? {
      Associate(a, b, more.value);
    }
  }

  lemma {:induction false} AheadOfNone<T>(xs: seq<T>)
    ensures Ahead(xs, Ok([])) == Ok(xs)
  {
    assert xs + [] == xs;
  }

  lemma {:induction false} AheadOfError<T>(xs: seq<T>, e: Error)
    ensures Ahead(xs, Err(e)) == Err(e)
  {
  }

  /** The same for a list that comes with a remainder. */
  function AheadWith<T, R>(xs: seq<T>, more: Result<(seq<T>, R)>): Result<(seq<T>, R)> {
    if more.Err? then more else Ok((xs + more.value.0, more.value.1))
  }

  lemma {:induction false} NothingAheadWith<T, R>(more: Result<(seq<T>, R)>)
    ensures AheadWith([], more) == more
  {
    if more.Ok? {
      assert [] + more.value.0 == more.value.0;
    }
  }

  lemma {:induction false} AheadWithTwice<T, R>(a: seq<T>, b: seq<T>, more: Result<(seq<T>, R)>)
    ensures AheadWith(a, AheadWith(b, more)) == AheadWith(a + b, more)
  {
    if more.Ok? {
      Associate(a, b, more.value.0);
    }
  }

  lemma {:induction false} AheadWithError<T, R>(xs: seq<T>, e: Error)
    ensures AheadWith<T, R>(xs, Err(e)) == Err(e)
  {
  }
}
