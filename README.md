# Telldus price control: the price-decision engine

This project models, in Dafny, the engine inside `MainWindowBuilder` of
`price_control.py` (telldus_price_control) with the Tkinter window taken
away. On a timer the program fetches the day's electricity spot prices
(SEK per kWh) for a price area. It caches them in a log folder and falls
back to a synthetic 24-hour series when no data is available. It then
computes a trigger price, either a fixed value or the "best hours" ratio
trigger. It finds the price of the interval that contains the current
time and switches every registered Telldus device ON when that price is
below the trigger, and OFF otherwise. A command goes out only when the
state changes, unless override is "ON". The registered devices live in an
insertion-ordered dictionary that is saved to a flat "devices" file.

Modules:

- `Options` (options.dfy): `Option`.
- `Trigger` (trigger.dfy): the ratio trigger. The SEK prices are sorted
  ascending and `prices[int(h/24 * n)]` is taken, with Python's
  truncation toward zero and its negative indices. For `0 <= h <= 23` the
  index is `k = floor(h*n/24)`. The lemmas prove that the sort is an
  ordered permutation, that the trigger is a price of the series and that
  it is the k-th order statistic, and that it does not decrease as `h`
  grows. They also say which settings raise `IndexError`.
- `PriceSeries` (series.dfy): price entries with integer timestamps, the
  current-price lookup, the running highest price (starting at 0) and the
  fallback series.
- `Registry` (registry.dfy): the device dictionary as an ordered value
  (`Devices`). It covers `d[id] = v`, `d.pop(id, None)`, the saved text,
  text-mode reading with universal newlines, `readlines` and the load,
  with the save/load round trip.
- `Retrieval` (retrieval.dfy): the cache file name and the
  cache-or-fetch-or-nothing step of `getprice`.
- `Decision` (decision.dfy): the ON/OFF rule and the rule for sending a
  command, and how they behave over a run of cycles.
- `Effects` (effects.dfy): the outside effects in order: price requests,
  custom command launches and switch requests.
- `PriceControl` (price_control.dfy): class `Controller`. It holds the
  fields the loop updates (`triggerprice`, `triggerpriceTomorrow`,
  `lastaction`, `pricenow`, `highestprice`, `todaysPrice`,
  `tomorrowsPrice`, `controlDeviceList`). It also holds the "devices" file
  and the log folder as fields, and the trace of effects. Most source
  methods have one method of the same role. `SwitchDevices` stands for both
  `devices_on` and `devices_off`. `timer_loop` is split into
  `RefreshPrices` (the two fetches), `PriceAndDecide` (`ratioprice` and
  the decision, through `Decide`) and `TimerLoop`, which runs the two.
  `UpdateLists` is the listing that `fixedprice` and `ratioprice` both end
  with. Of `update_list_today` and `update_list_tomorrow` only the parts
  that set state or can raise are modelled (`UpdateListToday`,
  `ExtendHighest`, `UpdateListTomorrow`).

Inputs from outside become parameters:

- The clock (`now`, the formatted dates, the start of today).
- Each price request's answer (`FetchOutcome`: fetched series, not ok,
  connection error, read timeout).
- Whether the custom command launched.
- Which devices fail.

Prices are `real`; timestamps are integer seconds.

At these points the model follows the code as written:

- The ratio index is not clamped. A setting of 24 or more, an empty
  series, or a negative setting whose offset falls before the start ends
  the cycle with an exception (`Crashed`). A negative setting otherwise
  counts from the end, or reads the cheapest price when the offset
  truncates to 0.
- Listing today's prices divides by their number, so an empty series
  raises. This can only happen when `fixedprice` or `ratioprice` runs
  before any retrieval (`FixedPrice` and `RatioPrice` return false). In a
  cycle, an empty today's series has already been replaced by the
  fallback.
- When tomorrow's series is a non-empty list and no price of either day
  is above 0, the highest price stays 0. Scaling tomorrow's graph then
  divides by zero. This ends the cycle in `Crashed`, after the triggers
  and the current price have been updated.
- An entry covers `now` only when `start < now < end`, strict at both ends,
  and the last covering entry wins.
- `lastaction` is recorded on every completed cycle, whether or not a
  command was sent.
- In fixed mode the cycle does not recompute the trigger. It stays at what
  `fixedprice` set.
- The fallback entries have no `time_end`, so the current-price lookup
  raises on them. A cycle that has to use the fallback therefore ends in
  `Crashed` and makes no decision (`FallbackNotEnded`,
  `Controller.TimerLoop`).
- The device file is removed and then written. It is not replaced
  atomically.

## Model

| member | source | states |
|---|---|---|
| `Trigger.Sort` | price_control.py:337 | `prices.sort()`: keeps the length; `SortSpec` proves it is ascending and a permutation |
| `Trigger.SortSpec` | price_control.py:337 | sorting leaves the prices in ascending order and is a permutation of them |
| `Trigger.RatioOffset` | price_control.py:333-338 | `int(h/24 * n)` truncates toward zero: `24k <= h*n < 24(k+1)` for `h >= 0`, and `24(k-1) < h*n <= 24k` for negative `h` |
| `Trigger.PyIndex` | price_control.py:338 | `prices[k]` on a list of length n succeeds exactly when `-n <= k < n`, and reads position k, or n + k for a negative k |
| `Trigger.RatioIndex` | price_control.py:333 | `k = floor(h*n/24)`: `24k <= h*n < 24(k+1)`, and `k < n` whenever `0 <= h <= 23` and the series is non-empty |
| `Trigger.RatioSlotCases` | price_control.py:332-338 | settings 0..23 read position `floor(h*n/24)`; settings -24..-1 read from the end, or position 0 when the offset truncates to 0; 24 and more, or an empty series, raise `IndexError` |
| `Trigger.RatioPick` | price_control.py:326-338 | the trigger exists exactly when the indexing succeeds, and is then one of the series' prices; for 0..23 on a non-empty series it is the ratio trigger; for 24 and more or an empty series there is none |
| `Trigger.RatioIndexMonotone` | price_control.py:333 | more hours never give a smaller index |
| `Trigger.RatioTrigger` | price_control.py:338 | the ratio trigger is one of the series' prices, never an interpolated value |
| `Trigger.RatioTriggerRank` | price_control.py:332-338 | at most k prices are strictly below the trigger and at least k+1 are at most the trigger |
| `Trigger.RatioTriggerMonotone` | price_control.py:332-338 | for a fixed series the trigger does not decrease as `h` grows |
| `PriceSeries.EndedPrefix` | price_control.py:567-570 | the scan stops at the first entry without an end time; every earlier entry has one, and the whole series has one exactly when the scan reaches the end |
| `PriceSeries.Lookup` | price_control.py:567-589 | the forward scan for `now`, seen from its last entry; `LookupFound` and `LookupNone` give its meaning (strict bounds, the last covering entry wins, otherwise the previous price), and `Controller.UpdateListToday` computes it |
| `PriceSeries.LookupFound` | price_control.py:567-589 | when an entry strictly covers `now`, the price becomes that of the last covering entry |
| `PriceSeries.LookupNone` | price_control.py:567-589 | when no entry covers `now`, the previous `pricenow` is kept |
| `PriceSeries.Highest` | price_control.py:560-610 | the running highest price, starting at 0, is at least 0 and at least every price |
| `PriceSeries.HighestAttained` | price_control.py:594-595 | the highest price is 0 or one of the prices |
| `PriceSeries.HighestZero` | price_control.py:594-610 | the highest price stays 0 exactly when no price is above zero |
| `PriceSeries.Fallback` | price_control.py:826-840 | the synthetic day `defaultprice` builds; `FallbackShape`, `FallbackAlternates` and `FallbackNotEnded` give its meaning, and `Controller.DefaultPrice` computes it |
| `PriceSeries.FallbackShape` | price_control.py:826-840 | the fallback has 24 entries, entry 0 costs 0.00 and entry 1 costs 4.01, and entry i starts i hours into the day |
| `PriceSeries.FallbackAlternates` | price_control.py:833-838 | every odd hour of the fallback costs more than every even hour |
| `PriceSeries.FallbackNotEnded` | price_control.py:834-837 | fallback entries carry no end time, so the lookup cannot scan them |
| `Registry.FirstToken` | price_control.py:283 | the id is the longest space-free prefix of the device string |
| `Registry.Put` | price_control.py:289 | `d[id] = v`: its meaning (a new id goes last, an existing id keeps its place, one entry per id) is stated by `PutValid` |
| `Registry.PutValid` | price_control.py:289 | adding keeps one entry per id; a new id goes last, an existing id keeps its place and gets the new value |
| `Registry.Remove` | price_control.py:303 | `d.pop(id, None)`: the id is taken out of the key order and the map; its meaning is stated by `RemoveValid`, `WithoutAt` and `RemoveAbsent` |
| `Registry.WithoutAt` | price_control.py:303 | taking a registered id out of distinct ids closes its gap and keeps the order of the others |
| `Registry.RemoveValid` | price_control.py:303 | removing drops exactly that id, keeps every other id's value, keeps the remaining ids in their order, and keeps one entry per id |
| `Registry.RemoveAbsent` | price_control.py:303 | removing an id that is not registered leaves the registry unchanged |
| `Registry.Serialize` | price_control.py:269-272 | the text `save_devices` builds, each value then a newline in registry order; read back by `LinesOfSerialize` and `SaveLoadRoundTrip`, and built by `Controller.SaveDevices` |
| `Registry.Lines` | price_control.py:258-259 | `readlines`: splits after each newline; its meaning on saved text is stated by `LinesOfSerialize` |
| `Registry.UniversalNewlines` | price_control.py:258-259 | text-mode reading turns "\r\n" and a lone carriage return into a newline; `UniversalNewlinesPlain` (text without a carriage return is unchanged) and `LoneReturnSplitsValue` (a lone carriage return splits a line) give its meaning |
| `Registry.LoadLines` | price_control.py:256-266 | each line put under its first token with its last character dropped, in file order; its meaning is stated by `SaveLoadRoundTrip` and `SpacelessValueChangesKey`, and `Controller.PopulateList` computes it |
| `Registry.LinesOfSerialize` | price_control.py:259 | reading back saved text gives one line per value, each ending in a newline |
| `Registry.UniversalNewlinesPlain` | price_control.py:258-259 | text without a carriage return reads back unchanged in text mode |
| `Registry.SaveLoadRoundTrip` | price_control.py:256-279 | saving and then reading back in text mode into an empty registry gives the same ordered map, when no value has a newline or carriage return, every value has a space, and each id is its value's first token |
| `Registry.LoneReturnSplitsValue` | price_control.py:258-259 | a saved value holding a lone carriage return reads back as two lines, so the return condition is needed |
| `Registry.SpacelessValueChangesKey` | price_control.py:262-263 | a value without a space, such as "Lamp", reloads under the key "Lamp\n" |
| `Retrieval.CacheName` | price_control.py:777-778 | the file name contains no '/', ends in ".json", and equals date + "_" + area + ".json" when neither has a '/' |
| `Retrieval.CacheNameParts` | price_control.py:777-778 | the name is the date with '/' turned into '-', then "_", the area with '/' turned into '-', and ".json" |
| `Retrieval.Retrieve` | price_control.py:784-824 | the cache-or-fetch-or-nothing step of `getprice`; its meaning is stated by `RetrieveConsistent` and `RetrieveTwice`, and `Controller.GetPrice` computes it |
| `Retrieval.RetrieveConsistent` | price_control.py:784-824 | a returned series is what the cache holds afterwards; a failure leaves the cache unchanged; only that one file can change; a request is made exactly when the file is not cached |
| `Retrieval.RetrieveTwice` | price_control.py:784-824 | once a series has been returned, asking again is a cache hit with the same series and no request, whatever the network does |
| `Decision.Desired` | price_control.py:466 | ON when the price is strictly below the trigger; `DesiredAtTrigger` states the boundary |
| `Decision.Dispatches` | price_control.py:467-477 | a command goes out unless the state is unchanged and override is not "ON"; `AlwaysDispatches`, `RunSendsOnChange` and `SteadyRunIsQuiet` state what that means over cycles |
| `Decision.DesiredAtTrigger` | price_control.py:466 | the desired state is ON exactly when the price is strictly below the trigger, so a price equal to the trigger means OFF |
| `Decision.AlwaysDispatches` | price_control.py:467-477 | with the initial empty last action, and with override "ON", a command is always sent |
| `Decision.RunSendsOnChange` | price_control.py:466-484 | over a run of cycles, a cycle sends a command exactly when its desired state differs from the previous one, or override is "ON" |
| `Decision.SteadyRunIsQuiet` | price_control.py:466-484 | without override, cycles after the first in a steady run send nothing |
| `Effects.Commands` | price_control.py:492-552 | one dispatch's events: the custom command launch, then one switch request per id; `CommandsReachEveryDevice` gives its meaning, and `Controller.SwitchDevices` produces it |
| `Effects.CommandsReachEveryDevice` | price_control.py:492-552 | a dispatch sends one request per registered id, in registry order, all with the desired state, whatever devices fail; the custom command, when non-empty, is the first event and every other event is a switch request |
| `PriceControl.Controller.constructor` | price_control.py:50-60 | the initial state: triggers, price and highest price 0, an empty last action, no series, and the registry loaded from the "devices" file |
| `PriceControl.Controller.PopulateList` | price_control.py:256-266 | each line of the file is added under its first token, with its last character dropped |
| `PriceControl.Controller.SaveDevices` | price_control.py:268-279 | the file becomes each value followed by a newline, in registry order |
| `PriceControl.Controller.AddDevice` | price_control.py:281-295 | "Select one" changes nothing; any other string is put under its first token and the file is saved |
| `PriceControl.Controller.RemoveDevice` | price_control.py:297-309 | the selected string's id is removed if present, and the file is saved |
| `PriceControl.Controller.GetPrice` | price_control.py:775-824 | the result, the log folder and the requests made are those of the retrieval step for the date to fetch |
| `PriceControl.Controller.DefaultPrice` | price_control.py:826-840 | the loop builds exactly the 24-entry fallback series |
| `PriceControl.Controller.UpdateListToday` | price_control.py:556-610 | `pricenow` is the lookup over the entries scanned before the scan stops; it succeeds exactly when the series is non-empty and every entry has an end time; then `highestprice` is the highest of today's and tomorrow's prices, and on failure it is unchanged |
| `PriceControl.Controller.ExtendHighest` | price_control.py:605-610 | carrying the running maximum over tomorrow's prices gives the highest price of both days, never below today's |
| `PriceControl.Controller.UpdateListTomorrow` | price_control.py:705-714 | scaling tomorrow's graph succeeds exactly when tomorrow's list is empty or the highest price is not 0 |
| `PriceControl.Controller.UpdateLists` | price_control.py:357-359 | the listing fails exactly when today's listing fails, or tomorrow's list is non-empty and no shown price is above 0; the current and highest prices are set as in `UpdateListToday` |
| `PriceControl.Controller.FixedPrice` | price_control.py:311-319 | in fixed mode the trigger becomes the configured price and the prices are listed, failing as the listing does; in any other mode nothing changes |
| `PriceControl.Controller.RatioPrice` | price_control.py:321-360 | in ratio mode today's trigger, and tomorrow's only when that series is a list, become the price the indexing reads; a failing index raises before the listing; otherwise the listing follows in every mode and fails as it does |
| `PriceControl.Controller.SwitchDevices` | price_control.py:492-552 | the trace grows by the custom command, if any, and one request per registered id |
| `PriceControl.Controller.RefreshPrices` | price_control.py:449-461 | today's series is the fetched one, or the fallback when that is missing or empty, so it is never empty; tomorrow's is as returned; the two requests appear in order |
| `PriceControl.Controller.Decide` | price_control.py:466-484 | the desired state is ON iff below the trigger; a command goes out iff the state changed or override is "ON"; the last action becomes the desired state |
| `PriceControl.Controller.PriceAndDecide` | price_control.py:464-484 | the ratio triggers and the listing, then the decision; the cycle crashes exactly when the indexing or the listing raises, and then no command goes out and `lastaction` is untouched |
| `PriceControl.Controller.TimerLoop` | price_control.py:447-490 | one cycle: retrieval, the trigger update, the current and highest prices, then the decision; it crashes exactly when the indexing or the listing raises, with `lastaction` untouched and no command sent |

## Left out

- The window: widget construction, layout, the price list and the listbox
  order, the bar graph's drawing, the lowest price and the average shown
  (price_control.py:30-254 and the display parts of 554-773). Of the
  listing, the model keeps what sets state or can raise: the current
  price, the highest price, the division by the number of today's
  entries, and the division by the highest price when tomorrow's graph is
  scaled. Today's graph falls back to a fixed scale when the highest price
  is 0, so it cannot raise.
- `refresh_devices`, `onbutton` and `offbutton`, JSON decoding of
  responses, HTTP headers and timeouts. These are network plumbing. A
  switch request's result is only the `delivered` flag in the trace,
  because the source logs it and goes on.
- Logging, `configparser` and module-level configuration loading. The
  configuration is a set of constructor arguments kept in `const` fields.
  Edits made through the window's controls while running are not modelled.
- Starting the custom command (`subprocess.Popen`) is a `Launch` event
  whose success is an input.
- Time zones and ISO-8601 parsing. Timestamps are integers. The fallback's
  `time_start` strings are modelled as the start of the day plus i hours.
- The `after` rescheduling: one cycle is one call of `TimerLoop`. A cycle
  that ends in `Crashed` is where the source's callback raises and is not
  rescheduled.
- `main()` at startup. It runs the same retrieval and one `fixedprice` or
  `ratioprice` call, which are `RefreshPrices`, `FixedPrice` and
  `RatioPrice`.
- Creating the "log" folder. The log folder is a map of file names.
- Exceptions other than connection errors and read timeouts, such as a
  body that does not parse, propagate out of `getprice`. They are not
  outcomes here. A cached file is always readable.
- Trigger.RatioSlotCases: does not spell out settings below -24.
  `Trigger.RatioPick` still models them through `Trigger.RatioOffset` and
  `Trigger.PyIndex`: the truncated offset reads from the end when it is at
  least -n and raises otherwise.
- Trigger.RatioOffset: computes the truncation of h*n/24 exactly. The
  source computes `int(h/24 * n)` in floating point, which can land one
  off at exact multiples.
- Trigger.RatioIndex: computes floor(h*n/24) exactly, for the same reason.
- Floating-point prices are `real`. Rounding in the fallback's `i/100` is
  not modelled.
- make_dummy_json.py is a test-data script. It only shows that a series
  may have 96 fifteen-minute entries, which the model allows, because no
  length is assumed.
