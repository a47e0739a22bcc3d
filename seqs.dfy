/** Order-preserving selection on sequences: the reference behaviour of every
    "walk the list, splice out what fails a test" loop of the game. */
module Seqs {

  /** The elements of `s` that satisfy `keep`, in their original order. */
  function Filter<T(!new)>(keep: T -> bool, s: seq<T>): (r: seq<T>)
    ensures |r| <= |s|
    ensures forall x :: x in r <==> x in s && keep(x)
    decreases |s|
  {
    if s == [] then []
    else
      assert s == [s[0]] + s[1..];
      (if keep(s[0]) then [s[0]] else []) + Filter(keep, s[1..])
  }

  /** Appending one element to the input appends it to the output exactly
      when it is kept: what one more loop iteration contributes. */
  lemma {:induction false} FilterSnoc<T(!new)>(keep: T -> bool, s: seq<T>, x: T)
    ensures Filter(keep, s + [x]) == Filter(keep, s) + (if keep(x) then [x] else [])
    decreases |s|
  {
    if s == [] {
      assert s + [x] == [x];
      assert [x][1..] == [];
    } else {
      assert (s + [x])[0] == s[0];
      assert (s + [x])[1..] == s[1..] + [x];
      FilterSnoc(keep, s[1..], x);
    }
  }

  /** The positions of `s` whose elements `Filter` keeps, in increasing order. */
  function KeptIndices<T>(keep: T -> bool, s: seq<T>): seq<nat>
    decreases |s|
  {
    if s == [] then []
    else
      var rest := Shift(KeptIndices(keep, s[1..]));
      if keep(s[0]) then [0] + rest else rest
  }

  /** Strictly increasing positions. */
  predicate Increasing(idx: seq<nat>)
  {
    forall t, u :: 0 <= t < u < |idx| ==> idx[t] < idx[u]
  }

  /** Positions below `n`, moved one place to the right and with position 0
      put in front or not, are increasing positions below `n + 1`; a
      position from 1 on is listed exactly when the one before it was. */
  lemma ShiftPositions(idx: seq<nat>, n: nat)
    requires Increasing(idx) && forall t :: 0 <= t < |idx| ==> idx[t] < n
    ensures Increasing(Shift(idx)) && Increasing([0] + Shift(idx))
    ensures forall t :: 0 <= t < |idx| ==> Shift(idx)[t] < n + 1
    ensures 0 !in Shift(idx)
    ensures forall j :: 0 <= j ==> (j in idx <==> j + 1 in Shift(idx))
  {
    var sh := Shift(idx);
    forall j | 0 <= j
      ensures j in idx <==> j + 1 in sh
    {
      if j in idx {
        var t :| 0 <= t < |idx| && idx[t] == j;
        assert sh[t] == j + 1;
      }
      if j + 1 in sh {
        var t :| 0 <= t < |sh| && sh[t] == j + 1;
        assert idx[t] == j;
      }
    }
    var z := [0] + sh;
    forall t, u | 0 <= t < u < |z|
      ensures z[t] < z[u]
    {
      if t > 0 {
        assert z[t] == sh[t - 1] && z[u] == sh[u - 1];
      }
    }
  }

  /** Every position moved one place to the right. */
  function Shift(idx: seq<nat>): (r: seq<nat>)
    ensures |r| == |idx|
    ensures forall t :: 0 <= t < |r| ==> r[t] == idx[t] + 1
  {
    seq(|idx|, t requires 0 <= t < |idx| => idx[t] + 1)
  }

  /** `Filter` is an order-preserving selection: its positions are strictly
      increasing, the t-th kept element is the element at the t-th position,
      and a position is listed exactly when its element passes `keep`, so
      nothing is skipped and nothing is taken twice. */
  lemma FilterKeepsOrder<T(!new)>(keep: T -> bool, s: seq<T>)
    ensures |KeptIndices(keep, s)| == |Filter(keep, s)|
    ensures forall t :: 0 <= t < |KeptIndices(keep, s)| ==>
      KeptIndices(keep, s)[t] < |s| && Filter(keep, s)[t] == s[KeptIndices(keep, s)[t]]
    ensures forall t, u :: 0 <= t < u < |KeptIndices(keep, s)| ==>
      KeptIndices(keep, s)[t] < KeptIndices(keep, s)[u]
    ensures forall j :: 0 <= j < |s| ==> (j in KeptIndices(keep, s) <==> keep(s[j]))
  {
    KeptIndicesSelect(keep, s);
    KeptIndicesIncreasing(keep, s);
    KeptIndicesExact(keep, s);
  }

  lemma {:induction false} KeptIndicesSelect<T(!new)>(keep: T -> bool, s: seq<T>)
    ensures |KeptIndices(keep, s)| == |Filter(keep, s)|
    ensures forall t :: 0 <= t < |KeptIndices(keep, s)| ==>
      KeptIndices(keep, s)[t] < |s| && Filter(keep, s)[t] == s[KeptIndices(keep, s)[t]]
    decreases |s|
  {
    if s != [] {
      var tail := s[1..];
      KeptIndicesSelect(keep, tail);
      var inner := KeptIndices(keep, tail);
      var ft := Filter(keep, tail);
      var rest := Shift(inner);
      forall t | 0 <= t < |rest|
        ensures rest[t] < |s| && ft[t] == s[rest[t]]
      {
        assert s[inner[t] + 1] == tail[inner[t]];
      }
      if keep(s[0]) {
        assert KeptIndices(keep, s) == [0] + rest;
        assert Filter(keep, s) == [s[0]] + ft;
      } else {
        assert KeptIndices(keep, s) == rest;
        assert Filter(keep, s) == [] + ft;
      }
    }
  }

  lemma {:induction false} KeptIndicesIncreasing<T>(keep: T -> bool, s: seq<T>)
    ensures forall t, u :: 0 <= t < u < |KeptIndices(keep, s)| ==>
      KeptIndices(keep, s)[t] < KeptIndices(keep, s)[u]
    ensures forall t :: 0 <= t < |KeptIndices(keep, s)| ==> KeptIndices(keep, s)[t] < |s|
    decreases |s|
  {
    if s != [] {
      var tail := s[1..];
      KeptIndicesIncreasing(keep, tail);
      var rest := Shift(KeptIndices(keep, tail));
      if keep(s[0]) {
        var idx := KeptIndices(keep, s);
        assert idx == [0] + rest;
        forall t, u | 0 <= t < u < |idx|
          ensures idx[t] < idx[u]
        {
          if t > 0 {
            assert idx[t] == rest[t - 1] && idx[u] == rest[u - 1];
          }
        }
      }
    }
  }

  lemma {:induction false} KeptIndicesExact<T>(keep: T -> bool, s: seq<T>)
    ensures forall j :: 0 <= j < |s| ==> (j in KeptIndices(keep, s) <==> keep(s[j]))
    decreases |s|
  {
    if s != [] {
      var tail := s[1..];
      KeptIndicesExact(keep, tail);
      var inner := KeptIndices(keep, tail);
      var rest := Shift(inner);
      forall j | 1 <= j < |s|
        ensures j in rest <==> keep(s[j])
      {
        assert s[j] == tail[j - 1];
        if j - 1 in inner {
          var t :| 0 <= t < |inner| && inner[t] == j - 1;
          assert rest[t] == j;
        }
        if j in rest {
          var t :| 0 <= t < |rest| && rest[t] == j;
          assert inner[t] == j - 1;
        }
      }
      assert 0 !in rest;
    }
  }

  /** `s` with the element at position `k` taken out (`splice(k, 1)`). */
  function Remove<T(!new)>(s: seq<T>, k: nat): (r: seq<T>)
    requires k < |s|
    ensures |r| == |s| - 1
    ensures forall x :: x in r ==> x in s
    ensures forall t :: 0 <= t < |r| ==> r[t] == if t < k then s[t] else s[t + 1]
  {
    s[..k] + s[k + 1..]
  }

  /** The state of a loop that walks `orig` with a cursor `i` into the list
      `cur` being edited in place, having handled its first `k` elements,
      each replaced by its updated form (`updated[k]`) and spliced out unless
      kept: the part before the cursor is the filtered prefix, the part from
      the cursor on is the untouched rest. */
  ghost predicate Culled<T(!new)>(keep: T -> bool, cur: seq<T>, i: int, updated: seq<T>, orig: seq<T>, k: int)
  {
    && 0 <= i <= |cur| && 0 <= k <= |updated| && |updated| == |orig|
    && cur[..i] == Filter(keep, updated[..k]) && cur[i..] == orig[k..]
  }

  /** Before the first step nothing is handled. */
  lemma CullStart<T(!new)>(keep: T -> bool, orig: seq<T>, updated: seq<T>)
    requires |updated| == |orig|
    ensures Culled(keep, orig, 0, updated, orig, 0)
  {
    assert updated[..0] == [];
  }

  /** One step: overwrite the element under the cursor with its updated
      form, then splice it out unless it is kept; the cursor stays on a
      splice and moves on otherwise. */
  lemma CullStep<T(!new)>(keep: T -> bool, prev: seq<T>, i: int, updated: seq<T>, orig: seq<T>, k: int)
    requires Culled(keep, prev, i, updated, orig, k) && i < |prev|
    ensures k < |updated| && prev[i] == orig[k]
    ensures keep(updated[k]) ==>
      Culled(keep, prev[i := updated[k]], i + 1, updated, orig, k + 1)
    ensures !keep(updated[k]) ==>
      Culled(keep, prev[i := updated[k]][..i] + prev[i := updated[k]][i + 1..], i, updated, orig, k + 1)
  {
    assert prev[i..][0] == prev[i];
    var x := updated[k];
    assert updated[..k + 1] == updated[..k] + [x];
    FilterSnoc(keep, updated[..k], x);
    var t := prev[i := x];
    assert t[..i + 1] == prev[..i] + [x];
    assert (t[..i] + t[i + 1..])[..i] == prev[..i];
    assert (t[..i] + t[i + 1..])[i..] == prev[i + 1..];
    assert prev[i + 1..] == prev[i..][1..];
  }

  /** When the cursor reaches the end, every element has been handled and
      the list is the filtered update of the original. */
  lemma CullDone<T(!new)>(keep: T -> bool, cur: seq<T>, updated: seq<T>, orig: seq<T>, k: int)
    requires Culled(keep, cur, |cur|, updated, orig, k)
    ensures cur == Filter(keep, updated)
  {
    assert cur[|cur|..] == [];
    assert cur[..|cur|] == cur;
    assert updated[..k] == updated;
  }
}
