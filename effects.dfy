/**
 * The outside effects of a cycle, in the order they happen: price
 * requests, custom command launches and per-device switch requests, and
 * the commands that `devices_on` / `devices_off` issue.
 */
module Effects {
  import opened Decision

  datatype Event =
    | Fetch(url: string)
    | Launch(command: string, launched: bool)
    | Switch(id: string, state: OnOff, delivered: bool)

  /** The custom command, attempted only when it is non-empty. */
  function LaunchEvents(command: string, launched: bool): seq<Event> {
    if command != "" then [Launch(command, launched)] else []
  }

  /** One switch request per id, in order; ids in `failed` are not delivered. */
  function Requests(ids: seq<string>, state: OnOff, failed: set<string>): (r: seq<Event>)
    ensures |r| == |ids|
  {
    seq(|ids|, i requires 0 <= i < |ids| => Switch(ids[i], state, ids[i] !in failed))
  }

  /** Everything one dispatch sends: the custom command first, then the devices. */
  function Commands(command: string, launched: bool, ids: seq<string>, state: OnOff, failed: set<string>): seq<Event> {
    LaunchEvents(command, launched) + Requests(ids, state, failed)
  }

  /** The ids that switch requests went to, in order. */
  function SwitchedIds(events: seq<Event>): seq<string> {
    if events == [] then []
    else (if events[0].Switch? then [events[0].id] else []) + SwitchedIds(events[1..])
  }

  /**
   * A dispatch reaches every registered id exactly once and in registry
   * order, with the one desired state, whether or not some devices fail.
   */
  lemma {:induction false} CommandsReachEveryDevice(command: string, launched: bool, ids: seq<string>, state: OnOff, failed: set<string>)
    ensures SwitchedIds(Commands(command, launched, ids, state, failed)) == ids
    ensures forall e :: e in Commands(command, launched, ids, state, failed) && e.Switch? ==> e.state == state
    ensures |Commands(command, launched, ids, state, failed)| == |ids| + (if command != "" then 1 else 0)
    ensures command != "" ==>
      && Commands(command, launched, ids, state, failed)[0] == Launch(command, launched)
      && forall e :: e in Commands(command, launched, ids, state, failed)[1..] ==> e.Switch?
    ensures command == "" ==> forall e :: e in Commands(command, launched, ids, state, failed) ==> e.Switch?
  {
    RequestsIds(ids, state, failed);
    var r := Requests(ids, state, failed);
    assert forall e :: e in r ==> e.Switch? && e.state == state;
    if command != "" {
      assert ([Launch(command, launched)] + r)[1..] == r;
    } else {
      assert [] + r == r;
    }
  }

  lemma {:induction false} RequestsIds(ids: seq<string>, state: OnOff, failed: set<string>)
    ensures SwitchedIds(Requests(ids, state, failed)) == ids
  {
    if ids != [] {
      RequestsIds(ids[1..], state, failed);
      assert Requests(ids, state, failed)[1..] == Requests(ids[1..], state, failed);
    }
  }

  /** The step of the dispatch loop: one more id, one more request. */
  lemma RequestsSnoc(ids: seq<string>, i: nat, state: OnOff, failed: set<string>)
    requires i < |ids|
    ensures Requests(ids[..i + 1], state, failed)
         == Requests(ids[..i], state, failed) + [Switch(ids[i], state, ids[i] !in failed)]
  {
  }
}
