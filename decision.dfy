/**
 * The ON/OFF decision of `timer_loop`: the desired state from the current
 * price and the trigger, and whether a command goes out given the last
 * action and the override setting.
 */
module Decision {

  datatype OnOff = On | Off

  /** `lastaction`: "" before the first cycle, then "ON" or "OFF". */
  datatype LastAction = Unset | Was(state: OnOff)

  /** ON exactly when the price is strictly below the trigger. */
  function Desired(pricenow: real, trigger: real): OnOff {
    if pricenow < trigger then On else Off
  }

  /** A command goes out unless the state is unchanged and override is not "ON". */
  function Dispatches(last: LastAction, desired: OnOff, override: string): bool {
    last != Was(desired) || override == "ON"
  }

  /** A price equal to the trigger switches OFF; any lower price switches ON. */
  lemma DesiredAtTrigger(pricenow: real, trigger: real)
    ensures Desired(trigger, trigger) == Off
    ensures Desired(pricenow, trigger) == On <==> pricenow < trigger
  {
  }

  /** The first cycle always dispatches, and override "ON" always dispatches. */
  lemma AlwaysDispatches(last: LastAction, desired: OnOff, override: string)
    ensures Dispatches(Unset, desired, override)
    ensures override == "ON" ==> Dispatches(last, desired, override)
  {
  }

  /**
   * The desired states of successive cycles, each recording `lastaction`
   * afterwards: which cycles send a command.
   */
  function Run(last: LastAction, states: seq<OnOff>, override: string): (sent: seq<bool>)
    ensures |sent| == |states|
    decreases |states|
  {
    if states == [] then []
    else [Dispatches(last, states[0], override)] + Run(Was(states[0]), states[1..], override)
  }

  /**
   * Over a run, a cycle sends a command exactly when its desired state
   * differs from the previous cycle's (or from the initial last action), or
   * override is "ON".
   */
  lemma {:induction false} RunSendsOnChange(last: LastAction, states: seq<OnOff>, override: string, i: nat)
    requires i < |states|
    ensures Run(last, states, override)[i]
        <==> override == "ON" || (if i == 0 then last != Was(states[0]) else states[i - 1] != states[i])
    decreases i
  {
    if i > 0 {
      RunSendsOnChange(Was(states[0]), states[1..], override, i - 1);
      assert states[1..][i - 1] == states[i];
      if i > 1 {
        assert states[1..][i - 2] == states[i - 1];
      }
    }
  }

  /** Without override, a run whose desired state never changes sends at most one command. */
  lemma {:induction false} SteadyRunIsQuiet(last: LastAction, states: seq<OnOff>, override: string, i: nat)
    requires override != "ON" && 0 < i < |states|
    requires forall j :: 0 <= j < |states| ==> states[j] == states[0]
    ensures !Run(last, states, override)[i]
  {
    RunSendsOnChange(last, states, override, i);
  }
}
