/** `Array.prototype.filter` over sequences: the rows that satisfy a test, in order. */
module Seqs {

  /** The elements of `s` that satisfy `p`, in their original order. */
  function Filter<T>(s: seq<T>, p: T -> bool): (r: seq<T>)
    ensures |r| <= |s|
    ensures forall j :: 0 <= j < |r| ==> p(r[j])
  {
    if s == [] then []
    else
      (if p(s[0]) then [s[0]] else []) + Filter(s[1..], p)
  }

  /** `idx` lists strictly increasing positions below `n`. */
  predicate Increasing(idx: seq<nat>, n: nat) {
    && (forall j :: 0 <= j < |idx| ==> idx[j] < n)
    && (forall j, k :: 0 <= j < k < |idx| ==> idx[j] < idx[k])
  }

  /** `idx` picks out, in order, exactly the elements of `s` that satisfy
      `p`, and they form `r`. */
  ghost predicate Selects<T>(s: seq<T>, p: T -> bool, r: seq<T>, idx: seq<nat>) {
    && |idx| == |r| && Increasing(idx, |s|)
    && (forall j :: 0 <= j < |idx| ==> idx[j] < |s| && r[j] == s[idx[j]])
    && (forall i {:trigger i in idx} :: 0 <= i < |s| && p(s[i]) ==> i in idx)
  }

  /** The filtered sequence is the subsequence of `s` at the positions whose
      element satisfies `p`: it keeps the original order and misses none. */
  lemma {:induction false} FilterPositions<T>(s: seq<T>, p: T -> bool) returns (idx: seq<nat>)
    ensures Selects(s, p, Filter(s, p), idx)
  {
    if s == [] {
      idx := [];
    } else {
      var rest := FilterPositions(s[1..], p);
      var shifted := ShiftPositions(s, p, Filter(s[1..], p), rest);
      if p(s[0]) {
        assert Filter(s, p) == [s[0]] + Filter(s[1..], p);
        idx := PrependFirst(s, p, Filter(s[1..], p), shifted);
      } else {
        assert Filter(s, p) == Filter(s[1..], p);
        idx := shifted;
      }
    }
  }

  /** When the first element passes, its position goes in front. */
  lemma PrependFirst<T>(s: seq<T>, p: T -> bool, r: seq<T>, shifted: seq<nat>) returns (idx: seq<nat>)
    requires s != [] && p(s[0])
    requires |shifted| == |r| && Increasing(shifted, |s|) && 0 !in shifted
    requires forall j :: 0 <= j < |shifted| ==> shifted[j] < |s| && r[j] == s[shifted[j]]
    requires forall i {:trigger i in shifted} :: 1 <= i < |s| && p(s[i]) ==> i in shifted
    ensures Selects(s, p, [s[0]] + r, idx)
  {
    idx := [0] + shifted;
    forall j | 1 <= j < |idx|
      ensures idx[j] == shifted[j - 1]
    {
    }
    forall i | 0 <= i < |s| && p(s[i])
      ensures i in idx
    {
      if i > 0 {
        assert i in shifted;
      }
    }
  }

  /** Positions in the tail of `s`, moved one place to the right. */
  lemma ShiftPositions<T>(s: seq<T>, p: T -> bool, r: seq<T>, rest: seq<nat>) returns (shifted: seq<nat>)
    requires s != [] && Selects(s[1..], p, r, rest)
    ensures |shifted| == |r| && Increasing(shifted, |s|) && 0 !in shifted
    ensures forall j :: 0 <= j < |shifted| ==> shifted[j] < |s| && r[j] == s[shifted[j]]
    ensures forall i {:trigger i in shifted} :: 1 <= i < |s| && p(s[i]) ==> i in shifted
    ensures !p(s[0]) ==> Selects(s, p, r, shifted)
  {
    var tail := s[1..];
    shifted := seq(|rest|, j requires 0 <= j < |rest| => rest[j] + 1);
    forall j | 0 <= j < |shifted|
      ensures shifted[j] < |s| && r[j] == s[shifted[j]]
    {
      assert s[shifted[j]] == tail[rest[j]];
    }
    forall i | 1 <= i < |s| && p(s[i])
      ensures i in shifted
    {
      assert tail[i - 1] == s[i];
      assert i - 1 in rest;
      var j :| 0 <= j < |rest| && rest[j] == i - 1;
      assert shifted[j] == i;
    }
  }

  /** An element is in the filtered sequence exactly when it is in `s` and passes `p`. */
  lemma {:induction false} FilterMembership<T>(s: seq<T>, p: T -> bool, x: T)
    ensures x in Filter(s, p) <==> x in s && p(x)
  {
    if s != [] {
      FilterMembership(s[1..], p, x);
      assert x in s <==> x == s[0] || x in s[1..];
    }
  }

  /** A filter that every element passes keeps the whole sequence. */
  lemma {:induction false} FilterKeepsAll<T>(s: seq<T>, p: T -> bool)
    requires forall i :: 0 <= i < |s| ==> p(s[i])
    ensures Filter(s, p) == s
  {
    if s != [] {
      FilterKeepsAll(s[1..], p);
    }
  }

  /** A filter that no element passes keeps nothing. */
  lemma {:induction false} FilterDropsAll<T>(s: seq<T>, p: T -> bool)
    requires forall i :: 0 <= i < |s| ==> !p(s[i])
    ensures Filter(s, p) == []
  {
    if s != [] {
      FilterDropsAll(s[1..], p);
    }
  }
}
