/**
 * One day's price series: its entries, the current-price lookup of
 * `update_list_today` and the synthetic fallback series of `defaultprice`.
 * Timestamps are integer seconds; prices are SEK per kWh.
 */
module PriceSeries {
  import opened Options

  /**
   * A price entry: `SEK_per_kWh`, `time_start` and `time_end`. Fetched
   * entries carry an end time; the fallback entries do not.
   */
  datatype Entry = Entry(sek: real, start: int, end: Option<int>)

  type Series = seq<Entry>

  /** The SEK prices of a series, in series order. */
  function SekPrices(s: Series): (r: seq<real>)
    ensures |r| == |s|
    ensures forall i :: 0 <= i < |s| ==> r[i] == s[i].sek
  {
    seq(|s|, i requires 0 <= i < |s| => s[i].sek)
  }

  /** Every entry has an end time, so the lookup can read `time_end` of each. */
  predicate AllEnded(s: Series) {
    forall i :: 0 <= i < |s| ==> s[i].end.Some?
  }

  /**
   * How many leading entries carry an end time: the scan of
   * `update_list_today` raises at the first entry without one.
   */
  function EndedPrefix(s: Series): (n: nat)
    ensures n <= |s| && AllEnded(s[..n])
    ensures n < |s| ==> s[n].end == None
    ensures n == |s| <==> AllEnded(s)
  {
    if s == [] || s[0].end.None? then 0
    else
      var m := EndedPrefix(s[1..]);
      assert s[..m + 1] == [s[0]] + s[1..][..m];
      1 + m
  }

  /** The scan stops at i exactly when the entries before i have end times and entry i has none. */
  lemma EndedPrefixAt(s: Series, i: nat)
    requires i <= |s| && AllEnded(s[..i]) && (i == |s| || s[i].end == None)
    ensures EndedPrefix(s) == i
  {
    var n := EndedPrefix(s);
    assert forall k :: 0 <= k < i ==> s[..i][k] == s[k];
    assert forall k :: 0 <= k < n ==> s[..n][k] == s[k];
  }

  /** `now` lies strictly inside the entry's interval (both ends excluded). */
  predicate Covers(e: Entry, now: int) {
    e.end.Some? && e.start < now < e.end.value
  }

  /** Entry i covers `now` and no later entry does. */
  ghost predicate IsLastMatch(s: Series, now: int, i: int) {
    0 <= i < |s| && Covers(s[i], now) && forall j :: i < j < |s| ==> !Covers(s[j], now)
  }

  /**
   * The price after scanning the series for `now`: the forward scan
   * overwrites `prev` at each covering entry, so the last covering entry
   * wins; with no covering entry `prev` is kept.
   */
  function Lookup(s: Series, now: int, prev: real): real
    requires AllEnded(s)
    decreases |s|
  {
    if s == [] then prev
    else if Covers(s[|s| - 1], now) then s[|s| - 1].sek
    else Lookup(s[..|s| - 1], now, prev)
  }

  /** When some entry covers `now`, the lookup yields the last covering entry's price. */
  lemma {:induction false} LookupFound(s: Series, now: int, prev: real, i: int)
    requires AllEnded(s) && IsLastMatch(s, now, i)
    ensures Lookup(s, now, prev) == s[i].sek
    decreases |s|
  {
    var n := |s| - 1;
    if i < n {
      assert !Covers(s[n], now);
      var init := s[..n];
      assert AllEnded(init) by {
        forall j | 0 <= j < |init| ensures init[j].end.Some? { assert init[j] == s[j]; }
      }
      forall j | i < j < |init| ensures !Covers(init[j], now) { assert init[j] == s[j]; }
      assert init[i] == s[i];
      LookupFound(init, now, prev, i);
    }
  }

  /** When no entry covers `now`, the previous price is kept. */
  lemma {:induction false} LookupNone(s: Series, now: int, prev: real)
    requires AllEnded(s)
    requires forall i :: 0 <= i < |s| ==> !Covers(s[i], now)
    ensures Lookup(s, now, prev) == prev
    decreases |s|
  {
    if s != [] {
      var init := s[..|s| - 1];
      assert AllEnded(init) by {
        forall j | 0 <= j < |init| ensures init[j].end.Some? { assert init[j] == s[j]; }
      }
      forall j | 0 <= j < |init| ensures !Covers(init[j], now) { assert init[j] == s[j]; }
      LookupNone(init, now, prev);
    }
  }

  /** Scanning one more entry: the step the forward loop of `update_list_today` takes. */
  lemma LookupStep(s: Series, i: nat, now: int, prev: real)
    requires i < |s| && AllEnded(s[..i + 1])
    ensures AllEnded(s[..i])
    ensures Lookup(s[..i + 1], now, prev)
         == if Covers(s[i], now) then s[i].sek else Lookup(s[..i], now, prev)
  {
    assert s[..i + 1][..i] == s[..i];
    assert s[..i + 1][i] == s[i];
    forall j | 0 <= j < i ensures s[..i][j].end.Some? { assert s[..i][j] == s[..i + 1][j]; }
  }

  /** No price of `s` is above zero. */
  predicate NonePositive(s: seq<real>) {
    forall i :: 0 <= i < |s| ==> s[i] <= 0.0
  }

  /**
   * The running maximum `update_list_today` keeps for the graph scale: it
   * starts at 0 and rises to each larger price in turn.
   */
  function Highest(s: seq<real>): (m: real)
    ensures 0.0 <= m
    ensures forall i :: 0 <= i < |s| ==> s[i] <= m
    decreases |s|
  {
    if s == [] then 0.0
    else
      var init := s[..|s| - 1];
      var m := Highest(init);
      assert forall i :: 0 <= i < |init| ==> s[i] == init[i];
      if m < s[|s| - 1] then s[|s| - 1] else m
  }

  /** The maximum is 0 or one of the prices. */
  lemma {:induction false} HighestAttained(s: seq<real>)
    ensures Highest(s) == 0.0 || exists i :: 0 <= i < |s| && s[i] == Highest(s)
    decreases |s|
  {
    if s != [] {
      var init := s[..|s| - 1];
      HighestAttained(init);
      if Highest(s) != 0.0 && Highest(s) != s[|s| - 1] {
        var i :| 0 <= i < |init| && init[i] == Highest(init);
        assert s[i] == init[i];
      }
    }
  }

  /** The maximum stays 0 exactly when no price is above zero. */
  lemma HighestZero(s: seq<real>)
    ensures Highest(s) == 0.0 <==> NonePositive(s)
  {
    var m := Highest(s);
    HighestAttained(s);
    if m != 0.0 {
      var i :| 0 <= i < |s| && s[i] == m;
      assert s[i] > 0.0;
    }
  }

  /** Taking one more price into the maximum: the step of the scanning loops. */
  lemma HighestStep(s: seq<real>, i: nat)
    requires i < |s|
    ensures Highest(s[..i + 1]) == if Highest(s[..i]) < s[i] then s[i] else Highest(s[..i])
  {
    assert s[..i + 1][..i] == s[..i];
  }

  /** Entry i of the fallback series: i/100 SEK at even hours, 4 + i/100 at odd hours. */
  function FallbackEntry(dayStart: int, i: nat): Entry {
    var price := if i % 2 == 0 then (i as real) / 100.0 else 4.0 + (i as real) / 100.0;
    Entry(price, dayStart + 3600 * i, None)
  }

  /** The 24 hourly entries `defaultprice` builds for the day starting at `dayStart`. */
  function Fallback(dayStart: int): Series {
    seq(24, i requires 0 <= i < 24 => FallbackEntry(dayStart, i))
  }

  /** The fallback series has 24 entries, starting 0.00 then 4.01 SEK. */
  lemma FallbackShape(dayStart: int)
    ensures |Fallback(dayStart)| == 24
    ensures Fallback(dayStart)[0].sek == 0.0 && Fallback(dayStart)[1].sek == 4.01
    ensures forall i :: 0 <= i < 24 ==> Fallback(dayStart)[i].start == dayStart + 3600 * i
  {
  }

  /** Every odd (expensive) hour of the fallback costs more than every even (cheap) hour. */
  lemma FallbackAlternates(dayStart: int, i: nat, j: nat)
    requires i < 24 && j < 24 && i % 2 == 0 && j % 2 == 1
    ensures Fallback(dayStart)[i].sek < Fallback(dayStart)[j].sek
  {
  }

  /** The fallback entries have no end time, so the lookup cannot scan them. */
  lemma FallbackNotEnded(dayStart: int)
    ensures !AllEnded(Fallback(dayStart))
    ensures Fallback(dayStart)[0].end == None
  {
    assert Fallback(dayStart)[0].end == None;
  }
}
