/**
 * Trigger price under the "best hours" (ratio) strategy of `ratioprice`:
 * sort the SEK prices of a series ascending and take the entry at index
 * k = floor(h / 24 * n). The fixed strategy needs no function: it copies the
 * configured value (see PriceControl.Controller.FixedPrice).
 */
module Trigger {
  import opened Options

  /** Every earlier element is at most every later one. */
  predicate Ascending(s: seq<real>) {
    forall i, j :: 0 <= i <= j < |s| ==> s[i] <= s[j]
  }

  /** Insert `x` before the first element that is not smaller than it. */
  function Insert(x: real, s: seq<real>): (r: seq<real>)
    ensures |r| == |s| + 1
  {
    if s == [] || x <= s[0] then [x] + s else [s[0]] + Insert(x, s[1..])
  }

  /** The ascending sort that `prices.sort()` performs (insertion sort). */
  function Sort(s: seq<real>): (r: seq<real>)
    ensures |r| == |s|
  {
    if s == [] then [] else Insert(s[0], Sort(s[1..]))
  }

  /** A lower bound of `x` and of every element of `s` bounds every element after the insertion. */
  lemma {:induction false} InsertBelow(lo: real, x: real, s: seq<real>)
    requires lo <= x && forall i :: 0 <= i < |s| ==> lo <= s[i]
    ensures forall i :: 0 <= i < |Insert(x, s)| ==> lo <= Insert(x, s)[i]
  {
    if s != [] && x > s[0] {
      InsertBelow(lo, x, s[1..]);
      var r := Insert(x, s);
      assert r == [s[0]] + Insert(x, s[1..]);
      forall i | 0 <= i < |r| ensures lo <= r[i] {
        if i > 0 { assert r[i] == Insert(x, s[1..])[i - 1]; }
      }
    }
  }

  /** A head no larger than any element of an ascending tail keeps the sequence ascending. */
  lemma AscendingCons(a: real, r: seq<real>)
    requires Ascending(r) && forall i :: 0 <= i < |r| ==> a <= r[i]
    ensures Ascending([a] + r)
  {
    var q := [a] + r;
    forall i, j | 0 <= i <= j < |q|
      ensures q[i] <= q[j]
    {
      if i > 0 {
        assert q[i] == r[i - 1] && q[j] == r[j - 1];
      } else if j > 0 {
        assert q[j] == r[j - 1];
      }
    }
  }

  lemma {:induction false} InsertSpec(x: real, s: seq<real>)
    requires Ascending(s)
    ensures Ascending(Insert(x, s))
    ensures multiset(Insert(x, s)) == multiset{x} + multiset(s)
  {
    if s == [] || x <= s[0] {
      AscendingCons(x, s);
    } else {
      assert s == [s[0]] + s[1..];
      InsertSpec(x, s[1..]);
      InsertBelow(s[0], x, s[1..]);
      AscendingCons(s[0], Insert(x, s[1..]));
    }
  }

  /** Sort returns the same prices, in ascending order. */
  lemma {:induction false} SortSpec(s: seq<real>)
    ensures Ascending(Sort(s))
    ensures multiset(Sort(s)) == multiset(s)
  {
    if s != [] {
      SortSpec(s[1..]);
      InsertSpec(s[0], Sort(s[1..]));
      assert s == [s[0]] + s[1..];
    }
  }

  /**
   * `int(h / 24 * n)`: h*n/24 truncated toward zero, so a floor for
   * h >= 0 and a ceiling for negative h (computed exactly here).
   */
  function RatioOffset(h: int, n: nat): (k: int)
    ensures h >= 0 ==> 24 * k <= h * n < 24 * (k + 1)
    ensures h < 0 ==> 24 * (k - 1) < h * n <= 24 * k
  {
    if h >= 0 then (h * n) / 24 else -((-h * n) / 24)
  }

  /**
   * The element Python's `prices[k]` reads in a list of length n: k itself,
   * or n + k when k is negative (counting from the end); None where the
   * index raises IndexError.
   */
  function PyIndex(k: int, n: nat): (i: Option<nat>)
    ensures i.Some? <==> -(n as int) <= k < n
    ensures i.Some? ==> i.value < n && (if k >= 0 then i.value == k else i.value == n + k)
  {
    if 0 <= k < n then Some(k) else if -(n as int) <= k < 0 then Some(n + k) else None
  }

  /** The position in the sorted prices that `prices[int(h / 24 * n)]` reads, if any. */
  function RatioSlot(h: int, n: nat): Option<nat> {
    PyIndex(RatioOffset(h, n), n)
  }

  /** The index into the sorted prices for 0 <= h <= 23: floor(h / 24 * n), always in range. */
  function RatioIndex(h: int, n: nat): (k: nat)
    requires 0 <= h <= 23 && n > 0
    ensures k < n
    ensures 24 * k <= h * n < 24 * (k + 1)
  {
    assert h * n < 24 * n;
    (h * n) / 24
  }

  /** Settings 0..23 read from the start of the sorted prices. */
  lemma RatioSlotInRange(h: int, n: nat)
    requires 0 <= h <= 23 && n > 0
    ensures RatioSlot(h, n) == Some(RatioIndex(h, n))
  {
  }

  /** Settings -24..-1 read from the end (or the first element when the offset truncates to 0). */
  lemma RatioSlotNegative(h: int, n: nat)
    requires -24 <= h < 0 && n > 0
    ensures RatioSlot(h, n) == Some(if RatioOffset(h, n) < 0 then n + RatioOffset(h, n) else 0)
  {
    var q := (-h * n) / 24;
    assert 0 <= q <= n by {
      ShareAtMostWhole(-h, n);
    }
    assert RatioOffset(h, n) == -q;
  }

  /** m twenty-fourths of n, rounded down, is at most n when m <= 24. */
  lemma ShareAtMostWhole(m: int, n: nat)
    requires 0 < m <= 24
    ensures 0 <= (m * n) / 24 <= n
  {
    assert m * n <= 24 * n by {
      assert (24 - m) * n >= 0;
    }
  }

  /** Settings of 24 and more, or an empty series, index past the end. */
  lemma RatioSlotPastEnd(h: int, n: nat)
    requires h >= 24 || n == 0
    ensures RatioSlot(h, n) == None
  {
    if h >= 24 {
      assert 24 * n <= h * n by {
        assert (h - 24) * n >= 0;
      }
    }
  }

  /** Which hour settings the indexing accepts: 0..23 read from the start, -24..-1 from the end, 24 and up raise. */
  lemma RatioSlotCases(h: int, n: nat)
    ensures 0 <= h <= 23 && n > 0 ==> RatioSlot(h, n) == Some(RatioIndex(h, n))
    ensures -24 <= h < 0 && n > 0 ==>
      RatioSlot(h, n) == Some(if RatioOffset(h, n) < 0 then n + RatioOffset(h, n) else 0)
    ensures h >= 24 || n == 0 ==> RatioSlot(h, n) == None
  {
    if 0 <= h <= 23 && n > 0 {
      RatioSlotInRange(h, n);
    } else if -24 <= h < 0 && n > 0 {
      RatioSlotNegative(h, n);
    } else if h >= 24 || n == 0 {
      RatioSlotPastEnd(h, n);
    }
  }

  /** More hours never select an earlier index. */
  lemma RatioIndexMonotone(h1: int, h2: int, n: nat)
    requires 0 <= h1 <= h2 <= 23 && n > 0
    ensures RatioIndex(h1, n) <= RatioIndex(h2, n)
  {
    assert (h2 - h1) * n >= 0;
  }

  /** The ratio trigger for 0 <= h <= 23: the price at rank RatioIndex(h, n) of the sorted series. */
  function RatioTrigger(prices: seq<real>, h: int): (t: real)
    requires 0 <= h <= 23 && |prices| > 0
    ensures t in prices
  {
    SortSpec(prices);
    var t := Sort(prices)[RatioIndex(h, |prices|)];
    assert t in multiset(Sort(prices));
    t
  }

  /**
   * What `prices.sort()` followed by `prices[int(h / 24 * n)]` yields for
   * any hour setting: a price of the series, or None where it raises.
   */
  function RatioPick(prices: seq<real>, h: int): (t: Option<real>)
    ensures t.Some? <==> RatioSlot(h, |prices|).Some?
    ensures t.Some? ==> t.value in prices
    ensures 0 <= h <= 23 && prices != [] ==> t == Some(RatioTrigger(prices, h))
    ensures h >= 24 || prices == [] ==> t == None
  {
    RatioSlotCases(h, |prices|);
    match RatioSlot(h, |prices|)
    case None => None
    case Some(i) =>
      SortSpec(prices);
      assert Sort(prices)[i] in multiset(Sort(prices));
      Some(Sort(prices)[i])
  }

  predicate Under(x: real, t: real, strict: bool) {
    if strict then x < t else x <= t
  }

  /** How many elements of `s` are below `t` (strictly when `strict`, else at most `t`). */
  function CountUnder(s: seq<real>, t: real, strict: bool): (c: nat)
    ensures c <= |s|
  {
    if s == [] then 0
    else (if Under(s[0], t, strict) then 1 else 0) + CountUnder(s[1..], t, strict)
  }

  lemma {:induction false} CountSplit(a: seq<real>, b: seq<real>, t: real, strict: bool)
    ensures CountUnder(a + b, t, strict) == CountUnder(a, t, strict) + CountUnder(b, t, strict)
  {
    if a != [] {
      assert (a + b)[1..] == a[1..] + b;
      CountSplit(a[1..], b, t, strict);
    } else {
      assert a + b == b;
    }
  }

  lemma {:induction false} CountInsert(x: real, s: seq<real>, t: real, strict: bool)
    ensures CountUnder(Insert(x, s), t, strict) == CountUnder([x] + s, t, strict)
  {
    if s == [] || x <= s[0] {
    } else {
      var r := Insert(x, s[1..]);
      assert ([s[0]] + r)[1..] == r;
      assert ([x] + s)[1..] == s;
      assert ([x] + s[1..])[1..] == s[1..];
      CountInsert(x, s[1..], t, strict);
    }
  }

  /** Counting is insensitive to the sort: Sort only permutes. */
  lemma {:induction false} CountSort(s: seq<real>, t: real, strict: bool)
    ensures CountUnder(Sort(s), t, strict) == CountUnder(s, t, strict)
  {
    if s != [] {
      CountInsert(s[0], Sort(s[1..]), t, strict);
      CountSort(s[1..], t, strict);
      assert ([s[0]] + Sort(s[1..]))[1..] == Sort(s[1..]);
    }
  }

  lemma {:induction false} CountAll(s: seq<real>, t: real, strict: bool)
    requires forall i :: 0 <= i < |s| ==> Under(s[i], t, strict)
    ensures CountUnder(s, t, strict) == |s|
  {
    if s != [] {
      CountAll(s[1..], t, strict);
    }
  }

  lemma {:induction false} CountNone(s: seq<real>, t: real, strict: bool)
    requires forall i :: 0 <= i < |s| ==> !Under(s[i], t, strict)
    ensures CountUnder(s, t, strict) == 0
  {
    if s != [] {
      CountNone(s[1..], t, strict);
    }
  }

  /** In an ascending sequence, the element at index k has rank k. */
  lemma SortedRank(s: seq<real>, k: nat)
    requires Ascending(s) && k < |s|
    ensures CountUnder(s, s[k], true) <= k
    ensures CountUnder(s, s[k], false) >= k + 1
  {
    var t, below, rest := s[k], s[..k], s[k..];
    assert s == below + rest;
    CountSplit(below, rest, t, true);
    forall i | 0 <= i < |rest|
      ensures !Under(rest[i], t, true)
    {
      assert rest[i] == s[k + i];
    }
    CountNone(rest, t, true);
    var upTo, after := s[..k + 1], s[k + 1..];
    assert s == upTo + after;
    CountSplit(upTo, after, t, false);
    forall i | 0 <= i < |upTo|
      ensures Under(upTo[i], t, false)
    {
      assert upTo[i] == s[i];
    }
    CountAll(upTo, t, false);
  }

  /**
   * The ratio trigger is the k-th order statistic of the series: at most k
   * prices lie strictly below it and at least k + 1 prices are at most it.
   */
  lemma RatioTriggerRank(prices: seq<real>, h: int)
    requires 0 <= h <= 23 && |prices| > 0
    ensures CountUnder(prices, RatioTrigger(prices, h), true) <= RatioIndex(h, |prices|)
    ensures CountUnder(prices, RatioTrigger(prices, h), false) >= RatioIndex(h, |prices|) + 1
  {
    var s, k := Sort(prices), RatioIndex(h, |prices|);
    SortSpec(prices);
    SortedRank(s, k);
    CountSort(prices, s[k], true);
    CountSort(prices, s[k], false);
  }

  /** For a fixed series the ratio trigger is non-decreasing in the number of hours. */
  lemma RatioTriggerMonotone(prices: seq<real>, h1: int, h2: int)
    requires 0 <= h1 <= h2 <= 23 && |prices| > 0
    ensures RatioTrigger(prices, h1) <= RatioTrigger(prices, h2)
  {
    RatioIndexMonotone(h1, h2, |prices|);
    SortSpec(prices);
  }
}
