/** Limiting a core file by priority: the loop that takes space away from the
    largest mappings until the file fits. */
module Prioritize {
  import opened ElfFormat

  // ---------- The loop, on the sizes alone ----------

  function Sum(ws: seq<nat>): nat {
    if ws == [] then 0 else Sum(ws[..|ws| - 1]) + ws[|ws| - 1]
  }

  /** Index of the largest size, the first one among equals; -1 if there is none. */
  function Largest(ws: seq<nat>): (l: int)
    ensures -1 <= l < |ws|
    ensures l < 0 <==> ws == []
    ensures l >= 0 ==> forall i :: 0 <= i < |ws| ==> ws[i] <= ws[l]
    ensures l >= 0 ==> forall i :: 0 <= i < l ==> ws[i] < ws[l]
  {
    if ws == [] then -1
    else
      var k := Largest(ws[..|ws| - 1]);
      if k < 0 || ws[k] < ws[|ws| - 1] then |ws| - 1 else k
  }

  lemma {:induction false} SumUpdate(ws: seq<nat>, i: nat, w: nat)
    requires i < |ws|
    ensures Sum(ws[i := w]) == Sum(ws) - ws[i] + w
  {
    var k := |ws| - 1;
    if i < k {
      assert ws[i := w][..k] == ws[..k][i := w];
      SumUpdate(ws[..k], i, w);
    } else {
      assert ws[i := w][..k] == ws[..k];
    }
  }

  lemma {:induction false} SumAtLeast(ws: seq<nat>, i: nat)
    requires i < |ws|
    ensures ws[i] <= Sum(ws)
  {
    if i < |ws| - 1 {
      SumAtLeast(ws[..|ws| - 1], i);
    }
  }

  lemma {:induction false} SumZero(ws: seq<nat>)
    requires forall i :: 0 <= i < |ws| ==> ws[i] == 0
    ensures Sum(ws) == 0
  {
    if ws != [] {
      SumZero(ws[..|ws| - 1]);
    }
  }

  /** The sizes left after the loop, when everything but the mappings takes `fixed`
      bytes and the file may take `limit`. */
  function Shrink(ws: seq<nat>, fixed: nat, limit: nat): (r: seq<nat>)
    ensures |r| == |ws|
    decreases Sum(ws)
  {
    var l := Largest(ws);
    if l < 0 || fixed + Sum(ws) <= limit || ws[l] == 0 then ws
    else
      var needed := fixed + Sum(ws) - limit;
      SumUpdate(ws, l, 0);
      if needed > ws[l] then Shrink(ws[l := 0], fixed, limit)
      else ws[l := ws[l] - needed]
  }

  // ---------- The loop, in place ----------

  function Sizes(ms: seq<Mapping>): (ws: seq<nat>)
    ensures |ws| == |ms|
    ensures forall i :: 0 <= i < |ws| ==> ws[i] == ms[i].writeSize
  {
    seq(|ms|, i requires 0 <= i < |ms| => ms[i].writeSize)
  }

  /** The mappings with new sizes. */
  function WithSizes(ms: seq<Mapping>, ws: seq<nat>): (r: seq<Mapping>)
    requires |ms| == |ws|
    ensures |r| == |ms|
    ensures forall i :: 0 <= i < |r| ==> r[i] == ms[i].(writeSize := ws[i])
  {
    seq(|ms|, i requires 0 <= i < |ms| => ms[i].(writeSize := ws[i]))
  }

  /** One sweep over the table: the largest mapping and the total size. */
  method FindLargest(mappings: array<Mapping>, num: nat, fixed: nat) returns (largest: int, total: nat)
    requires num <= mappings.Length
    ensures largest == Largest(Sizes(mappings[..num]))
    ensures total == fixed + Sum(Sizes(mappings[..num]))
  {
    largest, total := -1, fixed;
    var i := 0;
    while i < num
      invariant 0 <= i <= num
      invariant largest == Largest(Sizes(mappings[..i]))
      invariant total == fixed + Sum(Sizes(mappings[..i]))
    {
      assert Sizes(mappings[..i + 1])[..i] == Sizes(mappings[..i]);
      total := total + mappings[i].writeSize;
      if largest < 0 || mappings[largest].writeSize < mappings[i].writeSize {
        largest := i;
      }
      i := i + 1;
    }
  }

  /** One turn of the loop, on the sizes. */
  lemma ShrinkStep(ws: seq<nat>, fixed: nat, limit: nat)
    ensures var l := Largest(ws);
            if l < 0 || fixed + Sum(ws) <= limit || ws[l] == 0 then Shrink(ws, fixed, limit) == ws
            else
              var needed := fixed + Sum(ws) - limit;
              && Sum(ws[l := 0]) < Sum(ws)
              && Shrink(ws, fixed, limit)
                 == if needed > ws[l] then Shrink(ws[l := 0], fixed, limit) else ws[l := ws[l] - needed]
  {
    if Largest(ws) >= 0 {
      SumUpdate(ws, Largest(ws), 0);
    }
  }

  /** Sets the size of one mapping. */
  method Resize(mappings: array<Mapping>, num: nat, i: nat, size: nat, ghost before: seq<Mapping>, ghost ws: seq<nat>)
    requires i < num <= mappings.Length && |before| == |ws| == num
    requires mappings[..num] == WithSizes(before, ws)
    modifies mappings
    ensures mappings[..num] == WithSizes(before, ws[i := size])
  {
    mappings[i] := mappings[i].(writeSize := size);
  }

  /** The loop of the source, run on the table itself. */
  method ShrinkMappings(mappings: array<Mapping>, num: nat, fixed: nat, limit: nat)
    requires num <= mappings.Length
    modifies mappings
    ensures mappings[..num]
         == WithSizes(old(mappings[..num]), Shrink(old(Sizes(mappings[..num])), fixed, limit))
  {
    hide Shrink, Sum, Largest;
    ghost var before := mappings[..num];
    ghost var ws: seq<nat> := Sizes(before);
    assert mappings[..num] == WithSizes(before, ws);
    while true
      invariant |ws| == |before| == num
      invariant mappings[..num] == WithSizes(before, ws)
      invariant Shrink(ws, fixed, limit) == Shrink(Sizes(before), fixed, limit)
      decreases Sum(ws)
    {
      assert Sizes(mappings[..num]) == ws;
      ShrinkStep(ws, fixed, limit);
      var largest, total := FindLargest(mappings, num, fixed);
      if largest >= 0 && total > limit {
        var needed, size := total - limit, mappings[largest].writeSize;
        assert size == ws[largest];
        if size > 0 {
          if needed > size {
            Resize(mappings, num, largest, 0, before, ws);
            ws := ws[largest := 0];
            continue;
          } else {
            Resize(mappings, num, largest, size - needed, before, ws);
            ws := ws[largest := size - needed];
          }
        }
      }
      assert ws == Shrink(Sizes(before), fixed, limit);
      break;
    }
  }

  // ---------- What the loop achieves ----------

  /** The total is what it was if that fits, the limit if it can be reached, and as
      little as possible otherwise. */
  lemma {:induction false} ShrunkTotal(ws: seq<nat>, fixed: nat, limit: nat)
    ensures fixed + Sum(Shrink(ws, fixed, limit))
         == if fixed + Sum(ws) <= limit then fixed + Sum(ws) else if fixed <= limit then limit else fixed
    decreases Sum(ws)
  {
    var l := Largest(ws);
    if l >= 0 && fixed + Sum(ws) > limit {
      if ws[l] == 0 {
        SumZero(ws);
      } else {
        var needed := fixed + Sum(ws) - limit;
        SumAtLeast(ws, l);
        SumUpdate(ws, l, 0);
        if needed > ws[l] {
          ShrunkTotal(ws[l := 0], fixed, limit);
        } else {
          SumUpdate(ws, l, ws[l] - needed);
        }
      }
    }
  }

  /** The order in which mappings lose space: larger ones first, earlier ones first
      among equals. */
  predicate Before(ws: seq<nat>, i: nat, j: nat)
    requires i < |ws| && j < |ws|
  {
    ws[i] > ws[j] || (ws[i] == ws[j] && i < j)
  }

  /** `r` takes space away from `ws` in that order: before a mapping loses anything,
      all mappings in front of it have lost everything. */
  ghost predicate TakenInOrder(ws: seq<nat>, r: seq<nat>) {
    && |r| == |ws|
    && (forall i :: 0 <= i < |ws| ==> r[i] <= ws[i])
    && (forall i, j :: 0 <= i < |ws| && 0 <= j < |ws| && r[j] < ws[j] && Before(ws, i, j) ==> r[i] == 0)
  }

  lemma {:induction false} ShrinkInOrder(ws: seq<nat>, fixed: nat, limit: nat)
    ensures TakenInOrder(ws, Shrink(ws, fixed, limit))
    decreases Sum(ws)
  {
    var l := Largest(ws);
    if l >= 0 && fixed + Sum(ws) > limit && ws[l] > 0 {
      var needed := fixed + Sum(ws) - limit;
      if needed > ws[l] {
        SumUpdate(ws, l, 0);
        var rest := ws[l := 0];
        ShrinkInOrder(rest, fixed, limit);
        var r := Shrink(rest, fixed, limit);
        forall i, j | 0 <= i < |ws| && 0 <= j < |ws| && r[j] < ws[j] && Before(ws, i, j)
          ensures r[i] == 0
        {
          if i != l {
            assert j != l;
            assert rest[i] == ws[i] && rest[j] == ws[j];
            assert Before(rest, i, j);
          }
        }
      }
    }
  }

  /** Of the reduced mappings at most one keeps a part. */
  lemma AtMostOnePartial(ws: seq<nat>, r: seq<nat>, i: nat, j: nat)
    requires TakenInOrder(ws, r) && i < |ws| && j < |ws| && i != j
    requires 0 < r[i] < ws[i] && r[j] < ws[j]
    ensures r[j] == 0
  {
    assert Before(ws, i, j) || Before(ws, j, i);
  }

  /** The sizes of those of the first `n` mappings that lose space before mapping `q`. */
  function SumBefore(ws: seq<nat>, q: nat, n: nat): nat
    requires q < |ws| && n <= |ws|
  {
    if n == 0 then 0 else SumBefore(ws, q, n - 1) + if Before(ws, n - 1, q) then ws[n - 1] else 0
  }

  /** The space to be freed ends inside mapping `q`, after everything in front of it. */
  predicate CutInside(ws: seq<nat>, excess: int, q: nat)
    requires q < |ws|
  {
    SumBefore(ws, q, |ws|) < excess < SumBefore(ws, q, |ws|) + ws[q]
  }

  /** What is taken from the first `n` mappings, when nothing behind `q` is touched or
      everything in front of it is gone. */
  lemma {:induction false} TakenAround(ws: seq<nat>, r: seq<nat>, q: nat, n: nat)
    requires TakenInOrder(ws, r) && q < |ws| && n <= |ws|
    ensures r[q] > 0 ==>
              Sum(ws[..n]) - Sum(r[..n]) <= SumBefore(ws, q, n) + (if q < n then ws[q] - r[q] else 0)
    ensures r[q] < ws[q] ==>
              Sum(ws[..n]) - Sum(r[..n]) >= SumBefore(ws, q, n) + (if q < n then ws[q] - r[q] else 0)
    decreases n
  {
    hide Sum;
    if n > 0 {
      TakenAround(ws, r, q, n - 1);
      SumNext(ws, n - 1);
      SumNext(r, n - 1);
      assert n - 1 != q ==> Before(ws, n - 1, q) || Before(ws, q, n - 1);
    } else {
      assert ws[..0] == r[..0];
    }
  }

  /** Which mapping keeps a part can be told from the sizes before anything is reduced. */
  lemma PartialIff(ws: seq<nat>, r: seq<nat>, q: nat)
    requires TakenInOrder(ws, r) && q < |ws|
    ensures 0 < r[q] < ws[q] <==> CutInside(ws, Sum(ws) - Sum(r), q)
  {
    hide Sum, SumBefore, TakenInOrder;
    TakenAround(ws, r, q, |ws|);
    SizesBounded(ws, r, q);
    assert ws[..|ws|] == ws && r[..|ws|] == r;
  }

  /** The loop cuts mapping `q` in two exactly if the excess over the limit ends in it. */
  lemma ShrinkCuts(ws: seq<nat>, fixed: nat, limit: nat, q: nat)
    requires q < |ws|
    ensures 0 < Shrink(ws, fixed, limit)[q] < ws[q] <==> CutInside(ws, fixed + Sum(ws) - limit, q)
  {
    hide Shrink, Sum, SumBefore, TakenInOrder;
    var r := Shrink(ws, fixed, limit);
    ShrinkInOrder(ws, fixed, limit);
    ShrunkTotal(ws, fixed, limit);
    SizesBounded(ws, r, q);
    SumAtLeast(r, q);
    PartialIff(ws, r, q);
    TakenAround(ws, r, q, |ws|);
    assert ws[..|ws|] == ws && r[..|ws|] == r;
  }

  lemma SizesBounded(ws: seq<nat>, r: seq<nat>, q: nat)
    requires TakenInOrder(ws, r) && q < |ws|
    ensures |r| == |ws| && r[q] <= ws[q]
  {
  }

  /** Taking space in that order until the total is `total` leaves no choice: the
      loop's result is determined by its order and its total. */
  lemma {:induction false} OrderDetermines(ws: seq<nat>, r: seq<nat>, s: seq<nat>)
    requires TakenInOrder(ws, r) && TakenInOrder(ws, s) && Sum(r) == Sum(s)
    ensures r == s
  {
    if r != s {
      var i :| 0 <= i < |ws| && r[i] != s[i];
      if r[i] < s[i] {
        TakenMore(ws, r, s, i);
      } else {
        TakenMore(ws, s, r, i);
      }
    }
  }

  /** If `r` takes more than `s` from one mapping it takes no less from any other. */
  lemma TakenMore(ws: seq<nat>, r: seq<nat>, s: seq<nat>, i: nat)
    requires TakenInOrder(ws, r) && TakenInOrder(ws, s) && i < |ws| && r[i] < s[i]
    ensures Sum(r) < Sum(s)
  {
    forall j | 0 <= j < |ws|
      ensures r[j] <= s[j]
    {
      assert i == j || Before(ws, i, j) || Before(ws, j, i);
      if s[j] < r[j] {
        // Mapping i is reduced in r and j in s, so the one in front is zero there.
        assert false;
      }
    }
    SumLess(r, s, i);
  }

  lemma {:induction false} SumMonotone(r: seq<nat>, s: seq<nat>)
    requires |r| == |s| && forall j :: 0 <= j < |r| ==> r[j] <= s[j]
    ensures Sum(r) <= Sum(s)
  {
    if r != [] {
      SumMonotone(r[..|r| - 1], s[..|r| - 1]);
    }
  }

  lemma {:induction false} SumLess(r: seq<nat>, s: seq<nat>, i: nat)
    requires |r| == |s| && i < |r| && r[i] < s[i]
    requires forall j :: 0 <= j < |r| ==> r[j] <= s[j]
    ensures Sum(r) < Sum(s)
  {
    SumUpdate(r, i, s[i]);
    SumMonotone(r[i := s[i]], s);
  }

  // ---------- Optimality ----------

  /** How many mappings keep their full size. */
  function Untouched(ws: seq<nat>, r: seq<nat>): nat
    requires |r| == |ws|
  {
    if ws == [] then 0
    else
      var k := |ws| - 1;
      Untouched(ws[..k], r[..k]) + (if r[k] == ws[k] then 1 else 0)
  }

  /** The last mapping to lose space. */
  lemma {:induction false} LastReduced(ws: seq<nat>, r: seq<nat>, n: nat) returns (p: nat)
    requires |r| == |ws| && n <= |ws| && exists i :: 0 <= i < n && r[i] < ws[i]
    ensures p < n && r[p] < ws[p]
    ensures forall i :: 0 <= i < n && r[i] < ws[i] && i != p ==> Before(ws, i, p)
  {
    var k := n - 1;
    if forall i :: 0 <= i < k ==> r[i] >= ws[i] {
      p := k;
    } else {
      p := LastReduced(ws, r, k);
      if r[k] < ws[k] && Before(ws, p, k) {
        p := k;
      }
    }
  }

  /** Counting against the size `t` of mapping `p`: every mapping that `s` keeps beyond
      the untouched ones of `r` and `p` costs at least `t`, every one of them that `s`
      gives up saves at most `t`. */
  lemma {:induction false} Exchange(ws: seq<nat>, r: seq<nat>, s: seq<nat>, p: nat, n: nat)
    requires |r| == |s| == |ws| && n <= |ws| && p < |ws|
    requires r[p] < ws[p]
    requires forall i :: 0 <= i < |ws| ==> s[i] <= ws[i] && r[i] <= ws[i]
    requires forall i :: 0 <= i < |ws| && r[i] < ws[i] && i != p ==> ws[i] >= ws[p] && r[i] == 0
    requires forall i :: 0 <= i < |ws| && r[i] == ws[i] ==> ws[i] <= ws[p]
    ensures Sum(s[..n]) - Sum(r[..n]) - (if p < n then ws[p] - r[p] else 0)
         >= ws[p] * (Untouched(ws[..n], s[..n]) - Untouched(ws[..n], r[..n]) - (if p < n then 1 else 0))
  {
    if n > 0 {
      var k := n - 1;
      hide Sum, Untouched;
      Exchange(ws, r, s, p, k);
      SumNext(s, k);
      SumNext(r, k);
      UntouchedNext(ws, s, k);
      UntouchedNext(ws, r, k);
      var d := Untouched(ws[..k], s[..k]) - Untouched(ws[..k], r[..k]) - (if p < k then 1 else 0);
      var e := (if s[k] == ws[k] then 1 else 0) - (if r[k] == ws[k] then 1 else 0) - (if p == k then 1 else 0);
      Distribute(ws[p], d, e);
    }
  }

  lemma SumNext(ws: seq<nat>, k: nat)
    requires k < |ws|
    ensures Sum(ws[..k + 1]) == Sum(ws[..k]) + ws[k]
  {
    assert ws[..k + 1][..k] == ws[..k];
  }

  lemma UntouchedNext(ws: seq<nat>, r: seq<nat>, k: nat)
    requires |r| == |ws| && k < |ws|
    ensures Untouched(ws[..k + 1], r[..k + 1]) == Untouched(ws[..k], r[..k]) + if r[k] == ws[k] then 1 else 0
  {
    assert ws[..k + 1][..k] == ws[..k] && r[..k + 1][..k] == r[..k];
  }

  lemma Distribute(t: nat, d: int, e: int)
    requires -1 <= e <= 1
    ensures e == 1 ==> t * (d + e) == t * d + t
    ensures e == 0 ==> t * (d + e) == t * d
    ensures e == -1 ==> t * (d + e) == t * d - t
  {
    if e == 1 {
      assert t * (d + 1) == t * d + t;
    } else if e == -1 {
      assert t * (d - 1) == t * d - t;
    }
  }

  /** The greedy choice is the best one: no other way to choose sizes that meets the
      limit leaves more mappings at their full size. */
  lemma ShrinkIsOptimal(ws: seq<nat>, fixed: nat, limit: nat, s: seq<nat>)
    requires |s| == |ws| && forall i :: 0 <= i < |ws| ==> s[i] <= ws[i]
    requires fixed + Sum(s) <= limit
    ensures Untouched(ws, s) <= Untouched(ws, Shrink(ws, fixed, limit))
  {
    var r := Shrink(ws, fixed, limit);
    ShrunkTotal(ws, fixed, limit);
    ShrinkInOrder(ws, fixed, limit);
    if exists i :: 0 <= i < |ws| && r[i] < ws[i] {
      var p := LastReduced(ws, r, |ws|);
      SumLess(r, ws, p);
      KeepsMost(ws, r, s, p);
    } else {
      assert r == ws;
      AllUntouched(ws, s);
    }
  }

  /** Whoever keeps more mappings than `r` does needs more space than `r` has. */
  lemma KeepsMost(ws: seq<nat>, r: seq<nat>, s: seq<nat>, p: nat)
    requires TakenInOrder(ws, r) && |s| == |ws| && forall i :: 0 <= i < |ws| ==> s[i] <= ws[i]
    requires p < |ws| && r[p] < ws[p]
    requires forall i :: 0 <= i < |ws| && r[i] < ws[i] && i != p ==> Before(ws, i, p)
    ensures Untouched(ws, s) > Untouched(ws, r) ==> Sum(s) > Sum(r)
  {
    forall i | 0 <= i < |ws| && r[i] == ws[i]
      ensures ws[i] <= ws[p]
    {
      assert ws[i] > ws[p] ==> Before(ws, i, p);
    }
    KeepsMostBy(ws, r, s, p);
  }

  lemma KeepsMostBy(ws: seq<nat>, r: seq<nat>, s: seq<nat>, p: nat)
    requires |r| == |s| == |ws| && p < |ws|
    requires r[p] < ws[p]
    requires forall i :: 0 <= i < |ws| ==> s[i] <= ws[i] && r[i] <= ws[i]
    requires forall i :: 0 <= i < |ws| && r[i] < ws[i] && i != p ==> ws[i] >= ws[p] && r[i] == 0
    requires forall i :: 0 <= i < |ws| && r[i] == ws[i] ==> ws[i] <= ws[p]
    ensures Untouched(ws, s) > Untouched(ws, r) ==> Sum(s) > Sum(r)
  {
    hide Sum, Untouched;
    Exchange(ws, r, s, p, |ws|);
    assert s[..|ws|] == s && r[..|ws|] == r && ws[..|ws|] == ws;
    FinalCount(ws[p], r[p], Untouched(ws, s) - Untouched(ws, r) - 1, Sum(s) - Sum(r));
  }

  lemma FinalCount(t: nat, kept: nat, d: int, diff: int)
    requires kept < t && diff - (t - kept) >= t * d
    ensures d >= 0 ==> diff > 0
  {
    if d >= 0 {
      assert t * d >= 0;
    }
  }

  lemma {:induction false} AllUntouched(ws: seq<nat>, s: seq<nat>)
    requires |s| == |ws|
    ensures Untouched(ws, s) <= |ws| == Untouched(ws, ws)
  {
    if ws != [] {
      AllUntouched(ws[..|ws| - 1], s[..|ws| - 1]);
    }
  }
}
