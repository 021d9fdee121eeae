/** Sequence and string helpers shared by the export action and the font
    installer: order-preserving filtering, first-match search, joining, and the
    `str.endswith` / `in` tests on strings. */
module Sequences {
  import opened Wrappers

  /** The elements of `s` that satisfy `keep`, in their original order (a Python
      list comprehension with an `if` clause). */
  function Filter<T>(s: seq<T>, keep: T -> bool): (r: seq<T>)
    ensures |r| <= |s|
    ensures forall k :: 0 <= k < |r| ==> r[k] in s && keep(r[k])
    ensures forall i :: 0 <= i < |s| && keep(s[i]) ==> s[i] in r
  {
    if s == [] then []
    else if keep(s[0]) then [s[0]] + Filter(s[1..], keep)
    else Filter(s[1..], keep)
  }

  /** The positions of `s` whose element passes `keep`, in increasing order. */
  function KeptPositions<T>(s: seq<T>, keep: T -> bool): seq<nat>
  {
    if s == [] then []
    else
      var rest := Shift(KeptPositions(s[1..], keep));
      if keep(s[0]) then [0] + rest else rest
  }

  /** Every position moved one place to the right. */
  function Shift(idx: seq<nat>): (r: seq<nat>)
    ensures |r| == |idx| && forall k :: 0 <= k < |r| ==> r[k] == idx[k] + 1
  {
    seq(|idx|, k requires 0 <= k < |idx| => idx[k] + 1)
  }

  /** `Filter` is `s` read at exactly the positions whose element passes, in
      increasing order: the survivors keep the relative order they had in `s`. */
  lemma FilterKeepsOrder<T>(s: seq<T>, keep: T -> bool)
    ensures var idx := KeptPositions(s, keep);
      && |idx| == |Filter(s, keep)|
      && (forall k :: 0 <= k < |idx| ==> idx[k] < |s| && s[idx[k]] == Filter(s, keep)[k])
      && (forall k, l :: 0 <= k < l < |idx| ==> idx[k] < idx[l])
      && (forall i :: 0 <= i < |s| ==> (i in idx <==> keep(s[i])))
  {
    KeptReadsFilter(s, keep);
    KeptIncreasing(s, keep);
    KeptExactly(s, keep);
  }

  lemma {:induction false} KeptReadsFilter<T>(s: seq<T>, keep: T -> bool)
    ensures |KeptPositions(s, keep)| == |Filter(s, keep)|
    ensures forall k :: 0 <= k < |KeptPositions(s, keep)| ==>
      KeptPositions(s, keep)[k] < |s| && s[KeptPositions(s, keep)[k]] == Filter(s, keep)[k]
  {
    if s != [] {
      var t := s[1..];
      KeptReadsFilter(t, keep);
      var inner, f := KeptPositions(t, keep), Filter(t, keep);
      var rest := Shift(inner);
      forall k | 0 <= k < |rest|
        ensures rest[k] < |s| && s[rest[k]] == f[k]
      {
        assert s[rest[k]] == t[inner[k]];
      }
      if keep(s[0]) {
        assert KeptPositions(s, keep) == [0] + rest && Filter(s, keep) == [s[0]] + f;
      } else {
        assert KeptPositions(s, keep) == rest && Filter(s, keep) == f;
      }
    }
  }

  lemma {:induction false} KeptIncreasing<T>(s: seq<T>, keep: T -> bool)
    ensures forall i, k :: 0 <= i < k < |KeptPositions(s, keep)| ==>
      KeptPositions(s, keep)[i] < KeptPositions(s, keep)[k]
  {
    if s != [] {
      KeptIncreasing(s[1..], keep);
    }
  }

  lemma {:induction false} KeptExactly<T>(s: seq<T>, keep: T -> bool)
    ensures forall i :: 0 <= i < |s| ==> (i in KeptPositions(s, keep) <==> keep(s[i]))
  {
    if s != [] {
      var inner := KeptPositions(s[1..], keep);
      var rest := Shift(inner);
      KeptExactly(s[1..], keep);
      forall i | 1 <= i < |s|
        ensures i in rest <==> keep(s[i])
      {
        assert s[i] == s[1..][i - 1];
        if i in rest {
          var k :| 0 <= k < |rest| && rest[k] == i;
          assert inner[k] == i - 1;
        }
        if i - 1 in inner {
          var k :| 0 <= k < |inner| && inner[k] == i - 1;
          assert rest[k] == i;
        }
      }
      assert 0 !in rest;
    }
  }

  /** The index of the first element of `s` that satisfies `p`, if any (the
      Python idiom `next(x for x in s if p(x))`). */
  function FirstIndex<T>(s: seq<T>, p: T -> bool): (r: Option<nat>)
    ensures r.Some? ==> r.value < |s| && p(s[r.value])
    ensures r.Some? ==> forall j :: 0 <= j < r.value ==> !p(s[j])
    ensures r.None? <==> forall j :: 0 <= j < |s| ==> !p(s[j])
  {
    if s == [] then None
    else if p(s[0]) then Some(0)
    else match FirstIndex(s[1..], p)
      case None => None
      case Some(k) => Some(k + 1)
  }

  /** `sep.join(parts)`. */
  function Join<T>(sep: seq<T>, parts: seq<seq<T>>): seq<T>
  {
    if parts == [] then []
    else if |parts| == 1 then parts[0]
    else parts[0] + sep + Join(sep, parts[1..])
  }

  /** The parts written one after the other, with nothing between them. */
  function Concat<T>(parts: seq<seq<T>>): seq<T>
  {
    if parts == [] then [] else parts[0] + Concat(parts[1..])
  }

  /** Python's `s.endswith(suffix)`. */
  predicate EndsWith<T(==)>(s: seq<T>, suffix: seq<T>)
  {
    |suffix| <= |s| && s[|s| - |suffix|..] == suffix
  }

  /** Python's `needle in s` on strings: `needle` occurs as a contiguous run. */
  predicate Contains<T(==)>(s: seq<T>, needle: seq<T>)
  {
    exists i | 0 <= i <= |s| - |needle| :: OccursAt(s, needle, i)
  }

  /** `needle` is the run of `s` that starts at position `i`. */
  predicate OccursAt<T(==)>(s: seq<T>, needle: seq<T>, i: nat)
  {
    i + |needle| <= |s| && s[i..i + |needle|] == needle
  }
}
