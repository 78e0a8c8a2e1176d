/** The lifecycle transition table of src/lifecycle.cpp. */
module Lifecycle {

  datatype LifecycleState =
    | Discovered | Registered | Attached | Active | Degraded | Quarantined | Removed | Retired | Replaced

  /** `kTargets`: the legal moves, one row per state. */
  function Targets(from: LifecycleState): set<LifecycleState> {
    match from
    case Discovered => {Registered, Removed}
    case Registered => {Attached, Quarantined, Removed, Retired, Replaced}
    case Attached => {Active, Degraded, Quarantined, Removed, Replaced}
    case Active => {Degraded, Quarantined, Removed, Retired, Replaced}
    case Degraded => {Active, Quarantined, Removed, Replaced}
    case Quarantined => {Registered, Attached, Active, Removed, Retired, Replaced}
    case Removed => {Registered, Retired}
    case Retired => {}
    case Replaced => {Removed, Retired}
  }

  predicate TransitionAllowed(from: LifecycleState, to: LifecycleState) {
    to in Targets(from)
  }

  predicate IsTerminal(s: LifecycleState) {
    Targets(s) == {}
  }

  predicate ImpliesAttachment(s: LifecycleState) {
    s == Attached || s == Active || s == Degraded
  }

  /** Every legal move changes the state, none leads to Discovered, and exactly Retired is terminal. */
  lemma TableShape(from: LifecycleState, to: LifecycleState)
    ensures TransitionAllowed(from, to) ==> from != to && to != Discovered && from != Retired
    ensures IsTerminal(from) <==> from == Retired
    ensures ImpliesAttachment(from) ==> TransitionAllowed(from, Removed)
  {
    if from != Retired {
      assert Removed in Targets(from) || Retired in Targets(from);
    }
  }

  // ----- The table as the code stores it -----

  /** Row of a state in the table. */
  function Index(s: LifecycleState): nat {
    match s
    case Discovered => 0
    case Registered => 1
    case Attached => 2
    case Active => 3
    case Degraded => 4
    case Quarantined => 5
    case Removed => 6
    case Retired => 7
    case Replaced => 8
  }

  /** The bit that stands for a state. */
  function StateBit(s: LifecycleState): (bit: nat)
    ensures bit > 0
  {
    match s
    case Discovered => 1
    case Registered => 2
    case Attached => 4
    case Active => 8
    case Degraded => 16
    case Quarantined => 32
    case Removed => 64
    case Retired => 128
    case Replaced => 256
  }

  /** The nine masks: the bit of `to` is set in the row of `from` for a legal move. */
  const MASKS: seq<nat> := [66, 484, 376, 496, 360, 462, 130, 0, 192]

  lemma TableIsMasks(from: LifecycleState, to: LifecycleState)
    ensures TransitionAllowed(from, to) <==> MASKS[Index(from)] / StateBit(to) % 2 == 1
  {
    var row := MASKS[Index(from)];
    match from
    case Discovered => assert row == 66;
    case Registered => assert row == 484;
    case Attached => assert row == 376;
    case Active => assert row == 496;
    case Degraded => assert row == 360;
    case Quarantined => assert row == 462;
    case Removed => assert row == 130;
    case Retired => assert row == 0;
    case Replaced => assert row == 192;
  }
}
