/**
 * The decision engine of `MainWindowBuilder` without its window: the
 * fields the price loop updates, the trigger computations, the current-price
 * lookup, the decision cycle, device dispatch, the device registry and its
 * file, and price retrieval with its fallback. The clock, the network and
 * process launches are parameters; the "devices" file and the price log
 * folder are fields; everything sent outside is appended to `trace`.
 */
module PriceControl {
  import opened Options
  import opened Trigger
  import opened PriceSeries
  import Registry
  import opened Retrieval
  import opened Decision
  import opened Effects

  /** The request a retrieval made, if any. */
  function FetchEvents(r: Retrieval, url: string): seq<Event> {
    if r.fetched then [Fetch(url)] else []
  }

  /** How a cycle of `timer_loop` ends: with a decision, or with an exception. */
  datatype CycleOutcome = Completed(desired: OnOff, dispatched: bool) | Crashed

  class Controller {
    // Configuration (settings.ini and the window's controls).
    const area: string
    const elApi: string
    const mode: string          // "fixed" or "ratio"
    const fixedPrice: real      // the fixed trigger (PRICE)
    const ratioHours: int       // the "best hours" count (RATIO)
    const override: string      // "ON" repeats commands every cycle
    const onCommand: string     // custom command before switching ON
    const offCommand: string    // custom command before switching OFF

    // Decision state.
    var triggerprice: real
    var triggerpriceTomorrow: real
    var lastaction: LastAction
    var pricenow: real
    var highestprice: real               // the graph scale: highest price shown
    var dateToFetch: string
    var todaysPrice: Series
    var tomorrowsPrice: Option<Series>   // None: not a list (not published yet)

    // Devices and files.
    var controlDeviceList: Registry.Devices
    var deviceFile: Option<string>       // contents of "devices", if it exists
    var cache: map<string, Series>       // files of the "log" folder
    var trace: seq<Event>                // requests and launches, in order

    ghost predicate Valid()
      reads this
    {
      Registry.Valid(controlDeviceList)
    }

    /** The state `__init__` sets up, then the registry loaded by `populate_list`. */
    constructor (area: string, elApi: string, mode: string, fixedPrice: real, ratioHours: int,
                 override: string, onCommand: string, offCommand: string,
                 deviceFile: Option<string>, cache: map<string, Series>)
      ensures Valid()
      ensures this.area == area && this.elApi == elApi && this.mode == mode
      ensures this.fixedPrice == fixedPrice && this.ratioHours == ratioHours
      ensures this.override == override && this.onCommand == onCommand && this.offCommand == offCommand
      ensures triggerprice == 0.0 && triggerpriceTomorrow == 0.0 && pricenow == 0.0 && highestprice == 0.0
      ensures lastaction == Unset && todaysPrice == [] && tomorrowsPrice == None
      ensures this.deviceFile == deviceFile && this.cache == cache && trace == []
      ensures controlDeviceList ==
        if deviceFile.Some? then
          Registry.LoadLines(Registry.Empty, Registry.Lines(Registry.UniversalNewlines(deviceFile.value)))
        else Registry.Empty
    {
      this.area, this.elApi, this.mode := area, elApi, mode;
      this.fixedPrice, this.ratioHours, this.override := fixedPrice, ratioHours, override;
      this.onCommand, this.offCommand := onCommand, offCommand;
      triggerprice, triggerpriceTomorrow, pricenow, highestprice := 0.0, 0.0, 0.0, 0.0;
      lastaction := Unset;
      dateToFetch := "";
      todaysPrice, tomorrowsPrice := [], None;
      controlDeviceList := Registry.Empty;
      this.deviceFile, this.cache, trace := deviceFile, cache, [];
      new;
      assert Registry.Valid(Registry.Empty);
      PopulateList();
    }

    // ---------------------------------------------------------------- registry

    /** Adds each line of the "devices" file, keyed by its first token, without its last character. */
    method PopulateList()
      requires Valid()
      modifies this`controlDeviceList
      ensures Valid()
      ensures controlDeviceList ==
        if deviceFile.Some? then
          Registry.LoadLines(old(controlDeviceList), Registry.Lines(Registry.UniversalNewlines(deviceFile.value)))
        else old(controlDeviceList)
    {
      if deviceFile.Some? {
        var lines := Registry.Lines(Registry.UniversalNewlines(deviceFile.value));
        var i := 0;
        while i < |lines|
          invariant 0 <= i <= |lines|
          invariant Registry.Valid(controlDeviceList)
          invariant controlDeviceList == Registry.LoadLines(old(controlDeviceList), lines[..i])
        {
          var line := lines[i];
          assert lines[..i + 1][..i] == lines[..i];
          Registry.PutValid(controlDeviceList, Registry.FirstToken(line), Registry.DropLast(line));
          controlDeviceList := Registry.Put(controlDeviceList, Registry.FirstToken(line), Registry.DropLast(line));
          i := i + 1;
        }
        assert lines[..|lines|] == lines;
      }
    }

    /** Replaces the "devices" file with every value followed by a newline, in registry order. */
    method SaveDevices()
      requires Valid()
      modifies this`deviceFile
      ensures deviceFile == Some(Registry.Serialize(Registry.Values(controlDeviceList)))
    {
      var values := Registry.Values(controlDeviceList);
      var listToSave := "";
      var i := 0;
      while i < |values|
        invariant 0 <= i <= |values|
        invariant listToSave == Registry.Serialize(values[..i])
      {
        Registry.SerializeSnoc(values[..i], values[i]);
        assert values[..i + 1] == values[..i] + [values[i]];
        listToSave := listToSave + values[i] + "\n";
        i := i + 1;
      }
      assert values[..|values|] == values;
      deviceFile := Some(listToSave);
    }

    /** Registers `deviceString` under its first token and saves, unless it is "Select one". */
    method AddDevice(deviceString: string)
      requires Valid()
      modifies this`controlDeviceList, this`deviceFile
      ensures Valid()
      ensures deviceString == "Select one" ==>
        controlDeviceList == old(controlDeviceList) && deviceFile == old(deviceFile)
      ensures deviceString != "Select one" ==>
        && controlDeviceList == Registry.Put(old(controlDeviceList), Registry.FirstToken(deviceString), deviceString)
        && deviceFile == Some(Registry.Serialize(Registry.Values(controlDeviceList)))
    {
      var deviceId := Registry.FirstToken(deviceString);
      if deviceString == "Select one" {
        return;
      }
      Registry.PutValid(controlDeviceList, deviceId, deviceString);
      controlDeviceList := Registry.Put(controlDeviceList, deviceId, deviceString);
      SaveDevices();
    }

    /** Drops the id of the selected string (nothing if absent) and saves. */
    method RemoveDevice(deviceString: string)
      requires Valid()
      modifies this`controlDeviceList, this`deviceFile
      ensures Valid()
      ensures controlDeviceList == Registry.Remove(old(controlDeviceList), Registry.FirstToken(deviceString))
      ensures deviceFile == Some(Registry.Serialize(Registry.Values(controlDeviceList)))
    {
      var deviceId := Registry.FirstToken(deviceString);
      Registry.RemoveValid(controlDeviceList, deviceId);
      controlDeviceList := Registry.Remove(controlDeviceList, deviceId);
      SaveDevices();
    }

    // ---------------------------------------------------------------- prices

    /**
     * `getprice` for `dateToFetch`: reads the cached file, or makes one
     * request whose answer is `outcome` and caches a successful one.
     */
    method GetPrice(outcome: FetchOutcome) returns (r: Option<Series>)
      modifies this`cache, this`trace
      ensures var rv := Retrieve(old(cache), CacheName(dateToFetch, area), outcome);
        && r == rv.result && cache == rv.cache
        && trace == old(trace) + FetchEvents(rv, RequestUrl(elApi, dateToFetch, area))
    {
      var logFilename := CacheName(dateToFetch, area);
      if logFilename !in cache {
        trace := trace + [Fetch(RequestUrl(elApi, dateToFetch, area))];
        match outcome {
          case Fetched(p) =>
            cache := cache[logFilename := p];
            return Some(p);
          case NotOk =>
            return None;
          case ConnectionError =>
          case ReadTimeout =>
        }
      }
      if logFilename in cache {
        return Some(cache[logFilename]);
      }
      return None;
    }

    /** The 24 hourly stand-in entries for the day starting at `dayStart`. */
    method DefaultPrice(dayStart: int) returns (defaultPrice: Series)
      ensures defaultPrice == Fallback(dayStart)
    {
      defaultPrice := [];
      var i := 0;
      while i < 24
        invariant 0 <= i <= 24
        invariant defaultPrice == Fallback(dayStart)[..i]
      {
        if i % 2 == 0 {
          defaultPrice := defaultPrice + [Entry((i as real) / 100.0, dayStart + 3600 * i, None)];
        } else {
          defaultPrice := defaultPrice + [Entry(4.0 + (i as real) / 100.0, dayStart + 3600 * i, None)];
        }
        assert Fallback(dayStart)[..i + 1] == Fallback(dayStart)[..i] + [Fallback(dayStart)[i]];
        i := i + 1;
      }
    }

    // ---------------------------------------------------------------- triggers and current price

    /** The prices `update_list_today` scans for the graph scale: today's, then tomorrow's when it is a list. */
    function ShownPrices(): seq<real>
      reads this
    {
      SekPrices(todaysPrice) + if tomorrowsPrice.Some? then SekPrices(tomorrowsPrice.value) else []
    }

    /**
     * `update_list_today` raises: reading the end time of an entry that has
     * none, or averaging over no entries at all.
     */
    predicate TodayListFails()
      reads this
    {
      todaysPrice == [] || !AllEnded(todaysPrice)
    }

    /**
     * `update_list_tomorrow` raises: tomorrow's list has entries and no
     * price of either day is above zero, so the graph scale divides by zero.
     */
    predicate TomorrowListFails()
      reads this
    {
      tomorrowsPrice.Some? && tomorrowsPrice.value != [] && NonePositive(ShownPrices())
    }

    /**
     * The non-display part of `update_list_today`: scans today's entries in
     * order, taking the price of each entry whose interval strictly contains
     * `now` and keeping the running maximum; then averages (which raises on
     * no entries) and extends the maximum over tomorrow's list. Returns false
     * where the source raises.
     */
    method UpdateListToday(now: int) returns (ok: bool)
      modifies this`pricenow, this`highestprice
      ensures ok == !TodayListFails()
      ensures pricenow == Lookup(todaysPrice[..EndedPrefix(todaysPrice)], now, old(pricenow))
      ensures ok ==> highestprice == Highest(ShownPrices())
      ensures !ok ==> highestprice == old(highestprice)
    {
      var highest := 0.0;
      var i := 0;
      while i < |todaysPrice|
        invariant 0 <= i <= |todaysPrice|
        invariant AllEnded(todaysPrice[..i])
        invariant pricenow == Lookup(todaysPrice[..i], now, old(pricenow))
        invariant highest == Highest(SekPrices(todaysPrice)[..i])
        invariant highestprice == old(highestprice)
      {
        var hour := todaysPrice[i];
        if hour.end.None? {
          EndedPrefixAt(todaysPrice, i);
          return false;
        }
        assert AllEnded(todaysPrice[..i + 1]) by {
          var upTo := todaysPrice[..i + 1];
          forall j | 0 <= j <= i ensures upTo[j].end.Some? {
            if j < i { assert upTo[j] == todaysPrice[..i][j]; }
          }
        }
        LookupStep(todaysPrice, i, now, old(pricenow));
        if hour.start < now && hour.end.value > now {
          pricenow := hour.sek;
        }
        HighestStep(SekPrices(todaysPrice), i);
        if highest < hour.sek {
          highest := hour.sek;
        }
        i := i + 1;
      }
      assert todaysPrice[..i] == todaysPrice;
      EndedPrefixAt(todaysPrice, i);
      if |todaysPrice| == 0 {
        return false;  // the average divides by the number of entries
      }
      var today := SekPrices(todaysPrice);
      assert today[..|today|] == today;
      highestprice := highest;
      if tomorrowsPrice.Some? {
        highest := ExtendHighest(highest, today, SekPrices(tomorrowsPrice.value));
        if highest > highestprice {
          highestprice := highest;
        }
      } else {
        assert ShownPrices() == today;
      }
      return true;
    }

    /** The running maximum of `update_list_today` carried on over tomorrow's entries. */
    method ExtendHighest(highest: real, today: seq<real>, tomorrow: seq<real>) returns (m: real)
      requires highest == Highest(today)
      ensures m == Highest(today + tomorrow)
      ensures highest <= m
    {
      var all := today + tomorrow;
      assert all[..|today|] == today;
      m := highest;
      var k := |today|;  // tomorrow's entry k - |today|
      while k < |all|
        invariant |today| <= k <= |all|
        invariant m == Highest(all[..k])
        invariant highest <= m
      {
        HighestStep(all, k);
        if m < all[k] {
          m := all[k];
        }
        k := k + 1;
      }
      assert all[..|all|] == all;
    }

    /**
     * The part of `update_list_tomorrow` that can raise: every entry's bar is
     * scaled by dividing by `highestprice`.
     */
    method UpdateListTomorrow() returns (ok: bool)
      requires tomorrowsPrice.Some?
      ensures ok <==> tomorrowsPrice.value == [] || highestprice != 0.0
    {
      var i := 0;
      while i < |tomorrowsPrice.value|
        invariant 0 <= i <= |tomorrowsPrice.value|
        invariant i > 0 ==> highestprice != 0.0
      {
        if highestprice == 0.0 {
          return false;  // ZeroDivisionError
        }
        i := i + 1;
      }
      return true;
    }

    /**
     * The listing both trigger methods end with: `update_list_today`, then
     * `update_list_tomorrow` when tomorrow's series is a list.
     */
    method UpdateLists(now: int) returns (ok: bool)
      modifies this`pricenow, this`highestprice
      ensures ok == (!TodayListFails() && !TomorrowListFails())
      ensures pricenow == Lookup(todaysPrice[..EndedPrefix(todaysPrice)], now, old(pricenow))
      ensures !TodayListFails() ==> highestprice == Highest(ShownPrices())
      ensures TodayListFails() ==> highestprice == old(highestprice)
    {
      ok := UpdateListToday(now);
      if ok && tomorrowsPrice.Some? {
        HighestZero(ShownPrices());
        ok := UpdateListTomorrow();
      }
    }

    /** In fixed mode: the trigger becomes the configured price, then the prices are listed. */
    method FixedPrice(now: int) returns (ok: bool)
      modifies this`triggerprice, this`pricenow, this`highestprice
      ensures mode == "fixed" ==>
        && triggerprice == fixedPrice
        && ok == (!TodayListFails() && !TomorrowListFails())
        && pricenow == Lookup(todaysPrice[..EndedPrefix(todaysPrice)], now, old(pricenow))
      ensures mode == "fixed" && !TodayListFails() ==> highestprice == Highest(ShownPrices())
      ensures mode != "fixed" || TodayListFails() ==> highestprice == old(highestprice)
      ensures mode != "fixed" ==> ok && triggerprice == old(triggerprice) && pricenow == old(pricenow)
    {
      ok := true;
      if mode == "fixed" {
        triggerprice := fixedPrice;
        ok := UpdateLists(now);
      }
    }

    /** Today's ratio trigger, or None where indexing the sorted prices raises. */
    function TodayPick(): Option<real>
      reads this
    {
      RatioPick(SekPrices(todaysPrice), ratioHours)
    }

    /** Tomorrow's ratio trigger when tomorrow's series is a list, or None where indexing raises. */
    function TomorrowPick(): Option<real>
      reads this
      requires tomorrowsPrice.Some?
    {
      RatioPick(SekPrices(tomorrowsPrice.value), ratioHours)
    }

    /** In ratio mode, indexing a sorted series raises before the listing. */
    predicate RatioFails()
      reads this
    {
      mode == "ratio" && (TodayPick().None? || (tomorrowsPrice.Some? && TomorrowPick().None?))
    }

    /** Ratio mode recomputes tomorrow's trigger only when tomorrow's series is a list. */
    predicate RecomputesTomorrow()
      reads this
    {
      mode == "ratio" && TodayPick().Some? && tomorrowsPrice.Some? && TomorrowPick().Some?
    }

    /**
     * `ratioprice`: in ratio mode today's trigger (and tomorrow's, when that
     * series is a list) become the ratio trigger of the series; in every mode
     * the prices are then listed.
     */
    method RatioPrice(now: int) returns (ok: bool)
      modifies this`triggerprice, this`triggerpriceTomorrow, this`pricenow, this`highestprice
      ensures mode == "ratio" && TodayPick().Some? ==> triggerprice == TodayPick().value
      ensures !(mode == "ratio" && TodayPick().Some?) ==> triggerprice == old(triggerprice)
      ensures RecomputesTomorrow() ==> triggerpriceTomorrow == TomorrowPick().value
      ensures !RecomputesTomorrow() ==> triggerpriceTomorrow == old(triggerpriceTomorrow)
      ensures RatioFails() ==> !ok && pricenow == old(pricenow) && highestprice == old(highestprice)
      ensures !RatioFails() ==>
        && ok == (!TodayListFails() && !TomorrowListFails())
        && pricenow == Lookup(todaysPrice[..EndedPrefix(todaysPrice)], now, old(pricenow))
        && (!TodayListFails() ==> highestprice == Highest(ShownPrices()))
        && (TodayListFails() ==> highestprice == old(highestprice))
    {
      if mode == "ratio" {
        var trigger := RatioPick(SekPrices(todaysPrice), ratioHours);
        if trigger.None? {
          return false;  // IndexError
        }
        triggerprice := trigger.value;
        if tomorrowsPrice.Some? {
          trigger := RatioPick(SekPrices(tomorrowsPrice.value), ratioHours);
          if trigger.None? {
            return false;  // IndexError
          }
          triggerpriceTomorrow := trigger.value;
        }
      }
      ok := UpdateLists(now);
    }

    // ---------------------------------------------------------------- dispatch

    /**
     * `devices_on` / `devices_off`: the custom command for `state` if it is
     * non-empty (a launch failure is swallowed), then one request per
     * registered id in registry order (a failing device is logged and skipped).
     */
    method SwitchDevices(state: OnOff, launched: bool, failed: set<string>)
      modifies this`trace
      ensures trace == old(trace) +
        Commands(if state == On then onCommand else offCommand, launched, controlDeviceList.ids, state, failed)
    {
      var command := if state == On then onCommand else offCommand;
      if command != "" {
        trace := trace + [Launch(command, launched)];
      }
      ghost var before := trace;
      var ids := controlDeviceList.ids;
      var i := 0;
      while i < |ids|
        invariant 0 <= i <= |ids|
        invariant trace == before + Requests(ids[..i], state, failed)
      {
        RequestsSnoc(ids, i, state, failed);
        trace := trace + [Switch(ids[i], state, ids[i] !in failed)];
        i := i + 1;
      }
      assert ids[..|ids|] == ids;
    }

    // ---------------------------------------------------------------- the cycle

    /**
     * The retrieval half of `timer_loop`: today's series (the fallback when
     * the result is missing or empty), then tomorrow's series as returned.
     */
    method RefreshPrices(today: string, tomorrow: string, dayStart: int,
                         todayOutcome: FetchOutcome, tomorrowOutcome: FetchOutcome)
      modifies this`dateToFetch, this`cache, this`trace, this`todaysPrice, this`tomorrowsPrice
      ensures var first := Retrieve(old(cache), CacheName(today, area), todayOutcome);
              var second := Retrieve(first.cache, CacheName(tomorrow, area), tomorrowOutcome);
        && cache == second.cache
        && todaysPrice == (if first.result.Some? && first.result.value != [] then first.result.value
                           else Fallback(dayStart))
        && tomorrowsPrice == second.result
        && dateToFetch == tomorrow
        && todaysPrice != []
        && trace == old(trace) + FetchEvents(first, RequestUrl(elApi, today, area))
                               + FetchEvents(second, RequestUrl(elApi, tomorrow, area))
    {
      dateToFetch := today;
      var todays := GetPrice(todayOutcome);
      if todays.Some? && todays.value != [] {
        todaysPrice := todays.value;
      } else {
        todaysPrice := DefaultPrice(dayStart);
      }
      dateToFetch := tomorrow;
      tomorrowsPrice := GetPrice(tomorrowOutcome);
    }

    /**
     * The decision half of `timer_loop`: ON iff the current price is below
     * the trigger; the devices are switched unless the last action already
     * is that state and override is not "ON"; the last action is recorded
     * either way.
     */
    method Decide(launched: bool, failed: set<string>) returns (desired: OnOff, dispatched: bool)
      modifies this`lastaction, this`trace
      ensures desired == Desired(pricenow, triggerprice)
      ensures dispatched == Dispatches(old(lastaction), desired, override)
      ensures lastaction == Was(desired)
      ensures trace == old(trace) +
        (if dispatched then Commands(if desired == On then onCommand else offCommand, launched,
                                     controlDeviceList.ids, desired, failed)
         else [])
    {
      desired := if pricenow < triggerprice then On else Off;
      dispatched := lastaction != Was(desired) || override == "ON";
      if dispatched {
        SwitchDevices(desired, launched, failed);
      }
      lastaction := Was(desired);
    }

    /**
     * The second half of `timer_loop`, on the series just fetched: the ratio
     * triggers and the listing, then the decision. An exception ends the
     * cycle before the decision (Crashed).
     */
    method PriceAndDecide(now: int, launched: bool, failed: set<string>) returns (outcome: CycleOutcome)
      modifies this`trace, this`triggerprice, this`triggerpriceTomorrow, this`pricenow
      modifies this`highestprice, this`lastaction
      ensures mode == "ratio" && TodayPick().Some? ==> triggerprice == TodayPick().value
      ensures !(mode == "ratio" && TodayPick().Some?) ==> triggerprice == old(triggerprice)
      ensures RecomputesTomorrow() ==> triggerpriceTomorrow == TomorrowPick().value
      ensures !RecomputesTomorrow() ==> triggerpriceTomorrow == old(triggerpriceTomorrow)
      ensures outcome.Crashed? <==> RatioFails() || TodayListFails() || TomorrowListFails()
      ensures outcome.Crashed? ==> lastaction == old(lastaction)
      ensures RatioFails() ==> pricenow == old(pricenow) && highestprice == old(highestprice)
      ensures !RatioFails() ==> pricenow == Lookup(todaysPrice[..EndedPrefix(todaysPrice)], now, old(pricenow))
      ensures !RatioFails() && !TodayListFails() ==> highestprice == Highest(ShownPrices())
      ensures RatioFails() || TodayListFails() ==> highestprice == old(highestprice)
      ensures outcome.Completed? ==>
        && pricenow == Lookup(todaysPrice, now, old(pricenow))
        && outcome.desired == Desired(pricenow, triggerprice)
        && outcome.dispatched == Dispatches(old(lastaction), outcome.desired, override)
        && lastaction == Was(outcome.desired)
      ensures trace == old(trace) +
        (if outcome.Completed? && outcome.dispatched
         then Commands(if outcome.desired == On then onCommand else offCommand, launched,
                       controlDeviceList.ids, outcome.desired, failed)
         else [])
    {
      var ok := RatioPrice(now);
      if !ok {
        return Crashed;
      }
      assert todaysPrice[..EndedPrefix(todaysPrice)] == todaysPrice;
      var desired, dispatched := Decide(launched, failed);
      outcome := Completed(desired, dispatched);
    }

    /**
     * One cycle of `timer_loop`. `today` and `tomorrow` are the formatted
     * dates, `dayStart` the start of today for the fallback, `now` the time of
     * the lookup; the outcomes stand for the two price requests, `launched`
     * and `failed` for the custom command and the devices that fail. An
     * exception ends the cycle before the decision (Crashed).
     */
    method TimerLoop(now: int, today: string, tomorrow: string, dayStart: int,
                     todayOutcome: FetchOutcome, tomorrowOutcome: FetchOutcome,
                     launched: bool, failed: set<string>) returns (outcome: CycleOutcome)
      modifies this`dateToFetch, this`cache, this`trace, this`todaysPrice, this`tomorrowsPrice
      modifies this`triggerprice, this`triggerpriceTomorrow, this`pricenow, this`highestprice, this`lastaction
      // Retrieval: today's series or the fallback, then tomorrow's series.
      ensures var first := Retrieve(old(cache), CacheName(today, area), todayOutcome);
              var second := Retrieve(first.cache, CacheName(tomorrow, area), tomorrowOutcome);
        && cache == second.cache
        && todaysPrice == (if first.result.Some? && first.result.value != [] then first.result.value
                           else Fallback(dayStart))
        && tomorrowsPrice == second.result
        && dateToFetch == tomorrow
        && todaysPrice != []
      // Triggers: recomputed in ratio mode; in fixed mode left as FixedPrice set them.
      ensures mode == "ratio" && TodayPick().Some? ==> triggerprice == TodayPick().value
      ensures !(mode == "ratio" && TodayPick().Some?) ==> triggerprice == old(triggerprice)
      ensures RecomputesTomorrow() ==> triggerpriceTomorrow == TomorrowPick().value
      ensures !RecomputesTomorrow() ==> triggerpriceTomorrow == old(triggerpriceTomorrow)
      // Crash: indexing in ratio mode, an entry without an end time, or a zero graph scale.
      ensures outcome.Crashed? <==> RatioFails() || TodayListFails() || TomorrowListFails()
      ensures outcome.Crashed? ==> lastaction == old(lastaction)
      ensures RatioFails() ==> pricenow == old(pricenow) && highestprice == old(highestprice)
      ensures !RatioFails() ==> pricenow == Lookup(todaysPrice[..EndedPrefix(todaysPrice)], now, old(pricenow))
      ensures !RatioFails() && !TodayListFails() ==> highestprice == Highest(ShownPrices())
      ensures RatioFails() || TodayListFails() ==> highestprice == old(highestprice)
      // Decision: ON iff below the trigger; a command unless unchanged without override.
      ensures outcome.Completed? ==>
        && pricenow == Lookup(todaysPrice, now, old(pricenow))
        && outcome.desired == Desired(pricenow, triggerprice)
        && outcome.dispatched == Dispatches(old(lastaction), outcome.desired, override)
        && lastaction == Was(outcome.desired)
      // Effects: the price requests, then the commands if any.
      ensures var first := Retrieve(old(cache), CacheName(today, area), todayOutcome);
              var second := Retrieve(first.cache, CacheName(tomorrow, area), tomorrowOutcome);
        trace == old(trace) + FetchEvents(first, RequestUrl(elApi, today, area))
                            + FetchEvents(second, RequestUrl(elApi, tomorrow, area)) +
          (if outcome.Completed? && outcome.dispatched
           then Commands(if outcome.desired == On then onCommand else offCommand, launched,
                         controlDeviceList.ids, outcome.desired, failed)
           else [])
    {
      RefreshPrices(today, tomorrow, dayStart, todayOutcome, tomorrowOutcome);
      outcome := PriceAndDecide(now, launched, failed);
    }
  }
}
