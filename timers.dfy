/** The host's interval timers as the metronome drives them: a history of
    `clearInterval` and `setInterval` calls on the module-level handle, the
    intervals such a history leaves scheduled, and the discipline (clear the
    held handle right before every arm) that keeps at most one of them live. */
module Timers {

  /** One call into the host's timer interface: `Clear(h)` is
      `clearInterval(h)`, `Arm(h)` is a `setInterval` that returned handle `h`. */
  datatype TimerOp = Clear(handle: nat) | Arm(handle: nat)

  /** Handles of the intervals still scheduled after `ops`, starting with none:
      clearing cancels the handle (an unknown handle is ignored), arming
      schedules a new one. */
  ghost function LiveAfter(ops: seq<TimerOp>): set<nat>
    decreases |ops|
  {
    if ops == [] then {}
    else
      var prev := LiveAfter(ops[..|ops| - 1]);
      match ops[|ops| - 1]
      case Clear(h) => prev - {h}
      case Arm(h) => prev + {h}
  }

  /** The value of the module-level `timer` variable after `ops`: the handle of
      the latest arm, and 0 (standing for `undefined`, which no interval has)
      before any. */
  ghost function LastHandle(ops: seq<TimerOp>): nat
    decreases |ops|
  {
    if ops == [] then 0
    else if ops[|ops| - 1].Arm? then ops[|ops| - 1].handle
    else LastHandle(ops[..|ops| - 1])
  }

  /** Every arm comes right after a clear of the handle `timer` held. */
  ghost predicate ClearsBeforeArms(ops: seq<TimerOp>)
    decreases |ops|
  {
    ops == [] ||
    var init := ops[..|ops| - 1];
    ClearsBeforeArms(init) &&
    (ops[|ops| - 1].Arm? ==>
       |init| > 0 && init[|init| - 1] == Clear(LastHandle(init[..|init| - 1])))
  }

  /** Under the discipline, the only interval that can still be scheduled is
      the one `timer` holds: at most one interval is ever live. */
  lemma {:induction false} AtMostOneLive(ops: seq<TimerOp>)
    requires ClearsBeforeArms(ops)
    ensures LiveAfter(ops) <= {LastHandle(ops)}
  {
    if ops != [] {
      var init := ops[..|ops| - 1];
      AtMostOneLive(init);
      if ops[|ops| - 1].Arm? {
        var before := init[..|init| - 1];
        assert init == before + [init[|init| - 1]];
        AtMostOneLive(before);
      }
    }
  }

  /** Clearing the held handle keeps the discipline and cancels that handle. */
  lemma ClearHeld(ops: seq<TimerOp>)
    requires ClearsBeforeArms(ops)
    ensures ClearsBeforeArms(ops + [Clear(LastHandle(ops))])
    ensures LiveAfter(ops + [Clear(LastHandle(ops))]) == LiveAfter(ops) - {LastHandle(ops)}
    ensures LastHandle(ops + [Clear(LastHandle(ops))]) == LastHandle(ops)
  {
  }

  /** Arming right after clearing the held handle keeps the discipline and
      leaves the new interval as the only live one. */
  lemma ClearThenArm(ops: seq<TimerOp>, h: nat)
    requires ClearsBeforeArms(ops)
    ensures ClearsBeforeArms(ops + [Clear(LastHandle(ops)), Arm(h)])
    ensures LiveAfter(ops + [Clear(LastHandle(ops)), Arm(h)]) == {h}
    ensures LastHandle(ops + [Clear(LastHandle(ops)), Arm(h)]) == h
  {
    var cleared := ops + [Clear(LastHandle(ops))];
    ClearHeld(ops);
    AtMostOneLive(ops);
    assert ops + [Clear(LastHandle(ops)), Arm(h)] == cleared + [Arm(h)];
    assert (cleared + [Arm(h)])[..|cleared|] == cleared;
    assert cleared[..|ops|] == ops;
  }
}
