/**
 * The retrieval policy of `getprice`: the cache file name derived from the
 * date and the price area, and the cache-or-fetch-or-nothing step. The
 * price log folder is a map from file name to the series stored in it; the
 * network answer is an input.
 */
module Retrieval {
  import opened Options
  import opened PriceSeries

  /** `s.replace(a, b)` for single characters. */
  function ReplaceChar(s: string, a: char, b: char): (r: string)
    ensures |r| == |s|
  {
    if s == [] then [] else [if s[0] == a then b else s[0]] + ReplaceChar(s[1..], a, b)
  }

  /** Each `a` becomes `b`; every other character stays. */
  lemma {:induction false} ReplaceCharAt(s: string, a: char, b: char)
    ensures forall i :: 0 <= i < |s| ==> ReplaceChar(s, a, b)[i] == (if s[i] == a then b else s[i])
  {
    if s != [] {
      ReplaceCharAt(s[1..], a, b);
      var r := ReplaceChar(s, a, b);
      forall i | 0 < i < |s| ensures r[i] == (if s[i] == a then b else s[i]) {
        assert r[i] == ReplaceChar(s[1..], a, b)[i - 1] && s[i] == s[1..][i - 1];
      }
    }
  }

  /** A string without `a` is left as it is. */
  lemma {:induction false} ReplaceCharAbsent(s: string, a: char, b: char)
    requires a !in s
    ensures ReplaceChar(s, a, b) == s
  {
    if s != [] {
      assert s[0] != a && a !in s[1..];
      ReplaceCharAbsent(s[1..], a, b);
    }
  }

  lemma {:induction false} ReplaceCharAppend(s: string, t: string, a: char, b: char)
    ensures ReplaceChar(s + t, a, b) == ReplaceChar(s, a, b) + ReplaceChar(t, a, b)
  {
    if s != [] {
      assert (s + t)[0] == s[0] && (s + t)[1..] == s[1..] + t;
      ReplaceCharAppend(s[1..], t, a, b);
      var c := if s[0] == a then b else s[0];
      assert [c] + (ReplaceChar(s[1..], a, b) + ReplaceChar(t, a, b))
          == ([c] + ReplaceChar(s[1..], a, b)) + ReplaceChar(t, a, b);
    } else {
      assert s + t == t;
    }
  }

  /** The price-log file name: date + "_" + area + ".json" with each '/' turned into '-'. */
  function CacheName(date: string, area: string): (name: string)
    ensures '/' !in name
    ensures |name| == |date| + |area| + 6
    ensures name[|name| - 5..] == ".json"
    ensures '/' !in date && '/' !in area ==> name == date + "_" + area + ".json"
  {
    var raw := date + "_" + area + ".json";
    var name := ReplaceChar(raw, '/', '-');
    ReplaceCharAt(raw, '/', '-');
    assert forall i :: 0 <= i < |name| ==> name[i] != '/';
    assert name[|name| - 5..] == ".json" by {
      ReplaceCharAppend(date + "_" + area, ".json", '/', '-');
      ReplaceCharAbsent(".json", '/', '-');
    }
    assert '/' !in date && '/' !in area ==> raw == name by {
      if '/' !in date && '/' !in area {
        assert '/' !in raw;
        ReplaceCharAbsent(raw, '/', '-');
      }
    }
    name
  }

  /** Only the date and the area are rewritten: '_' and ".json" stay as they are. */
  lemma CacheNameParts(date: string, area: string)
    ensures CacheName(date, area) == ReplaceChar(date, '/', '-') + "_" + ReplaceChar(area, '/', '-') + ".json"
  {
    ReplaceCharAppend(date, "_", '/', '-');
    ReplaceCharAppend(date + "_", area, '/', '-');
    ReplaceCharAppend(date + "_" + area, ".json", '/', '-');
    ReplaceCharAbsent("_", '/', '-');
    ReplaceCharAbsent(".json", '/', '-');
  }

  /** The provider URL: the date keeps its '/' here. */
  function RequestUrl(base: string, date: string, area: string): string {
    base + date + "_" + area + ".json"
  }

  /** What the price provider's request ends in. */
  datatype FetchOutcome =
    | Fetched(payload: Series)  // 2xx: the parsed JSON list
    | NotOk                     // a response that is not ok
    | ConnectionError
    | ReadTimeout

  /** The series returned, the log folder afterwards, and whether a request went out. */
  datatype Retrieval = Retrieval(result: Option<Series>, cache: map<string, Series>, fetched: bool)

  /**
   * `getprice` for file `name`: a cached file is read back without a
   * request; otherwise one request is made, and only a successful one is
   * written to the cache before its series is returned.
   */
  function Retrieve(cache: map<string, Series>, name: string, outcome: FetchOutcome): Retrieval {
    if name in cache then Retrieval(Some(cache[name]), cache, false)
    else
      match outcome
      case Fetched(p) => Retrieval(Some(p), cache[name := p], true)
      case NotOk => Retrieval(None, cache, true)
      case ConnectionError => Retrieval(None, cache, true)
      case ReadTimeout => Retrieval(None, cache, true)
  }

  /** A returned series is what the cache holds under `name` afterwards; no other file changes. */
  lemma RetrieveConsistent(cache: map<string, Series>, name: string, outcome: FetchOutcome)
    ensures var r := Retrieve(cache, name, outcome);
      && (r.result.Some? ==> name in r.cache && r.cache[name] == r.result.value)
      && (r.result.None? ==> r.cache == cache && name !in cache)
      && r.cache - {name} == cache - {name}
      && (name in cache ==> r.cache == cache && !r.fetched)
      && r.fetched == (name !in cache)
  {
  }

  /**
   * Asking twice for the same file: once a series has been returned, the
   * second request is a cache hit with the same series, whatever the network does.
   */
  lemma RetrieveTwice(cache: map<string, Series>, name: string, first: FetchOutcome, second: FetchOutcome)
    requires Retrieve(cache, name, first).result.Some?
    ensures var r1 := Retrieve(cache, name, first);
            Retrieve(r1.cache, name, second) == Retrieval(r1.result, r1.cache, false)
  {
  }
}
