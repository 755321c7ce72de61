/** Sequence helpers: removal of repeated elements (as SQL `DISTINCT` and `UNION` do) and sequences of options. */
module Seqs {
  import opened Wrappers

  /** The elements of `s` with later repetitions dropped, first occurrences kept in order. */
  function Dedup<T(==,!new)>(s: seq<T>): (r: seq<T>)
    ensures forall x :: x in r <==> x in s
    ensures forall i, j :: 0 <= i < j < |r| ==> r[i] != r[j]
  {
    if |s| == 0 then []
    else if s[|s| - 1] in s[..|s| - 1] then Dedup(s[..|s| - 1])
    else Dedup(s[..|s| - 1]) + [s[|s| - 1]]
  }

  /** Appending in two steps is appending once. */
  lemma AppendAssoc<T>(a: seq<T>, b: seq<T>, c: seq<T>)
    ensures a + b + c == a + (b + c)
  {
  }

  /** The position of the first None (`|xs|` when there is none). */
  function FirstNone<T>(xs: seq<Option<T>>): (k: nat)
    ensures k <= |xs|
    ensures forall j :: 0 <= j < k ==> xs[j].Some?
    ensures k < |xs| ==> xs[k].None?
  {
    if |xs| == 0 || xs[0].None? then 0 else FirstNone(xs[1..]) + 1
  }

  /** The contents of a sequence of options that are all present. */
  function Values<T>(xs: seq<Option<T>>): (r: seq<T>)
    requires forall j :: 0 <= j < |xs| ==> xs[j].Some?
    ensures |r| == |xs| && forall j :: 0 <= j < |xs| ==> xs[j] == Some(r[j])
  {
    seq(|xs|, j requires 0 <= j < |xs| && xs[j].Some? => xs[j].value)
  }

  /** All the values when every option is present, None otherwise. */
  function AllSome<T>(xs: seq<Option<T>>): (r: Option<seq<T>>)
    ensures r.Some? <==> forall k :: 0 <= k < |xs| ==> xs[k].Some?
    ensures r.Some? ==> |r.value| == |xs| && forall k :: 0 <= k < |xs| ==> xs[k] == Some(r.value[k])
  {
    if FirstNone(xs) < |xs| then None else Some(Values(xs))
  }
}
