/** The metronome component of src/Metronome.tsx: its three state cells, the
    module-level interval handle, and the host's scheduled intervals, with one
    method per handler and effect of the component. React's state updates are
    applied in program order, so a functional update sees the value queued
    before it; a handler or effect reads the state of the render it belongs to,
    which in a sequential run is the committed state when it starts. */
module MetronomeWidget {
  import opened Beats
  import opened Timers
  import opened NumberInput

  /** The tempo a fresh component starts with. */
  const DefaultBpm: int := 100

  /** What a scheduled interval runs: the `playClick` closure of one render,
      which reads that render's `count`, every 60000/`bpm` milliseconds of
      that render's tempo. */
  datatype Interval = Interval(bpm: int, renderedCount: int)

  class Metronome {
    /** Tempo in beats per minute (the `bpm` state cell). */
    var bpm: int
    /** Whether the click track runs (the `isPlaying` state cell). */
    var isPlaying: bool
    /** Position of the next beat in its measure (the `count` state cell). */
    var count: int
    /** The module-level `timer` variable; 0 stands for `undefined`. */
    var timer: nat
    /** The host's scheduled intervals, by handle. */
    var intervals: map<nat, Interval>
    /** The handle the host gives the next interval it schedules. */
    var nextHandle: nat
    /** Every cue played so far, oldest first. */
    ghost var cues: seq<Cue>
    /** Every clear and arm issued on the handle so far, oldest first. */
    ghost var timerOps: seq<TimerOp>

    /** The count is a beat position; the intervals are those the history of
        clears and arms leaves, `timer` holds the latest arm, and at most the
        interval `timer` holds is scheduled. */
    ghost predicate Valid()
      reads this
    {
      0 <= count < BeatsPerMeasure &&
      ClearsBeforeArms(timerOps) &&
      intervals.Keys == LiveAfter(timerOps) &&
      timer == LastHandle(timerOps) &&
      timer < nextHandle &&
      intervals.Keys <= {timer}
    }

    /** The interval schedule agrees with the play state: an interval is
        scheduled exactly while playing. */
    ghost predicate Reconciled()
      reads this
    {
      isPlaying <==> intervals != map[]
    }

    /** A freshly mounted component: default tempo, stopped, on the first
        beat, nothing scheduled and `timer` undefined. */
    constructor ()
      ensures Valid() && Reconciled()
      ensures bpm == DefaultBpm && !isPlaying && count == 0
      ensures timer == 0 && intervals == map[] && cues == [] && timerOps == []
    {
      bpm := DefaultBpm;
      isPlaying := false;
      count := 0;
      timer := 0;
      intervals := map[];
      nextHandle := 1;
      cues := [];
      timerOps := [];
    }

    /** `playClick` of the render whose count was `renderedCount`: plays the
        accent on the first beat of a measure and the regular cue otherwise,
        then advances the queued count to the next beat. */
    method PlayClick(renderedCount: int)
      requires Valid()
      modifies this`count, this`cues
      ensures Valid()
      ensures cues == old(cues) + [CueFor(renderedCount)]
      ensures count == NextCount(old(count))
    {
      cues := cues + [CueFor(renderedCount)];
      count := NextCount(count);
    }

    /** `handleBpmChange`: stores the tempo the control's text converts to.
        The conversion does not throw, so the error branch is never taken. */
    method HandleBpmChange(text: string)
      requires Valid()
      requires AllDigits(text)
      modifies this`bpm
      ensures Valid()
      ensures bpm == DigitsValue(text)
    {
      bpm := DigitsValue(text);
    }

    /** `startStop`: while playing, stops and plays nothing; while stopped,
        resets the count, starts and plays one click. That click is chosen from
        the count of the current render, not the reset one, and its functional
        update moves the reset count on to the second beat. */
    method StartStop()
      requires Valid()
      modifies this`isPlaying, this`count, this`cues
      ensures Valid()
      ensures isPlaying == !old(isPlaying)
      ensures old(isPlaying) ==> count == old(count) && cues == old(cues)
      ensures !old(isPlaying) ==> count == 1 && cues == old(cues) + [CueFor(old(count))]
    {
      if isPlaying {
        isPlaying := false;
        return;
      }
      var rendered := count;
      count := 0;
      isPlaying := true;
      PlayClick(rendered);
    }

    /** `clearInterval(timer)`: cancels the interval `timer` holds, which
        leaves nothing scheduled. */
    method ClearTimer()
      requires Valid()
      modifies this`intervals, this`timerOps
      ensures Valid()
      ensures intervals == map[]
      ensures timerOps == old(timerOps) + [Clear(timer)]
    {
      ClearHeld(timerOps);
      intervals := intervals - {timer};
      timerOps := timerOps + [Clear(timer)];
      assert intervals.Keys == {};
    }

    /** `clearInterval(timer); timer = setInterval(playClick, ...)`: cancels
        the held interval, then schedules `iv` under a new handle, which
        becomes the only scheduled interval. */
    method Rearm(iv: Interval)
      requires Valid()
      modifies this`intervals, this`timerOps, this`timer, this`nextHandle
      ensures Valid()
      ensures timer == old(nextHandle) && nextHandle == old(nextHandle) + 1
      ensures intervals == map[timer := iv]
      ensures timerOps == old(timerOps) + [Clear(old(timer)), Arm(timer)]
    {
      ClearThenArm(timerOps, nextHandle);
      ClearTimer();
      timer := nextHandle;
      nextHandle := nextHandle + 1;
      intervals := intervals[timer := iv];
      timerOps := timerOps + [Arm(timer)];
    }

    /** The effect on `[isPlaying, playClick]`: while playing, re-arms the
        interval at the current tempo with the current render's `playClick`;
        while stopped, cancels it. Afterwards an interval is scheduled exactly
        while playing. */
    method PlayStateEffect()
      requires Valid()
      modifies this`intervals, this`timerOps, this`timer, this`nextHandle
      ensures Valid() && Reconciled()
      ensures isPlaying ==> timer == old(nextHandle) && intervals == map[timer := Interval(bpm, count)]
      ensures isPlaying ==> timerOps == old(timerOps) + [Clear(old(timer)), Arm(timer)]
      ensures !isPlaying ==> timer == old(timer) && intervals == map[]
      ensures !isPlaying ==> timerOps == old(timerOps) + [Clear(timer)]
      ensures nextHandle == if isPlaying then old(nextHandle) + 1 else old(nextHandle)
    {
      if isPlaying {
        Rearm(Interval(bpm, count));
      } else {
        ClearTimer();
      }
    }

    /** The cleanup that effect returns, run before it runs again and on
        unmount: cancels the interval, so no further click is scheduled. */
    method PlayStateCleanup()
      requires Valid()
      modifies this`intervals, this`timerOps
      ensures Valid() && intervals == map[]
      ensures timerOps == old(timerOps) + [Clear(timer)]
    {
      ClearTimer();
    }

    /** The effect on `[bpm]`: while playing, re-arms the interval at the new
        tempo and resets the count to the first beat; while stopped, changes
        nothing. The re-armed interval runs the `playClick` of the render
        before the reset. */
    method TempoEffect()
      requires Valid()
      modifies this`intervals, this`timerOps, this`timer, this`nextHandle, this`count
      ensures Valid()
      ensures isPlaying ==> count == 0 && timer == old(nextHandle) && Reconciled()
      ensures isPlaying ==> intervals == map[timer := Interval(bpm, old(count))]
      ensures isPlaying ==> timerOps == old(timerOps) + [Clear(old(timer)), Arm(timer)]
      ensures isPlaying ==> nextHandle == old(nextHandle) + 1
      ensures !isPlaying ==> unchanged(this)
    {
      if isPlaying {
        Rearm(Interval(bpm, count));
        count := 0;
      }
    }

    /** The host fires the scheduled interval `h`: its `playClick` plays the
        cue for the count of the render that armed it. */
    method Tick(h: nat)
      requires Valid()
      requires h in intervals
      modifies this`count, this`cues
      ensures Valid()
      ensures cues == old(cues) + [CueFor(intervals[h].renderedCount)]
      ensures count == NextCount(old(count))
    {
      PlayClick(intervals[h].renderedCount);
    }

    /** One beat of a running metronome: the interval fires, the count it
        changes makes React render a new `playClick`, and the play-state
        effect's cleanup and re-run re-arm the interval with it, so the next
        beat reads the count this one left. */
    method Beat()
      requires Valid() && isPlaying
      requires intervals == map[timer := Interval(bpm, count)]
      modifies this`count, this`cues, this`intervals, this`timerOps, this`timer, this`nextHandle
      ensures Valid() && isPlaying
      ensures intervals == map[timer := Interval(bpm, count)]
      ensures count == NextCount(old(count))
      ensures cues == old(cues) + [CueFor(old(count))]
      ensures timer == old(nextHandle) && nextHandle == old(nextHandle) + 1
      ensures timerOps == old(timerOps) + [Clear(old(timer)), Clear(old(timer)), Arm(timer)]
    {
      Tick(timer);
      PlayStateCleanup();
      PlayStateEffect();
    }

    /** `n` beats of a running metronome: every beat reads the count the beat
        before left, so the cues are those of `n` clicks from the starting
        count. */
    method RunBeats(n: nat)
      requires Valid() && isPlaying
      requires intervals == map[timer := Interval(bpm, count)]
      modifies this`count, this`cues, this`intervals, this`timerOps, this`timer, this`nextHandle
      ensures Valid() && isPlaying
      ensures intervals == map[timer := Interval(bpm, count)]
      ensures count == CountAfter(old(count), n)
      ensures cues == old(cues) + CuesFrom(old(count), n)
      ensures nextHandle == old(nextHandle) + n
      ensures n > 0 ==> timer == old(nextHandle) + n - 1
      ensures n == 0 ==> timer == old(timer) && timerOps == old(timerOps)
      ensures |timerOps| == |old(timerOps)| + 3 * n
      decreases n
    {
      if n > 0 {
        RunBeats(n - 1);
        Beat();
      }
    }
  }

  /** A freshly mounted component whose Start button is pressed: the start
      plays the accent, leaves the count on the second beat, and the
      play-state effect leaves one interval at the default tempo reading that
      count. */
  method StartFromMount() returns (m: Metronome)
    ensures fresh(m) && m.Valid() && m.isPlaying && m.Reconciled()
    ensures m.bpm == DefaultBpm && m.count == 1 && m.cues == [Accent]
    ensures m.intervals == map[m.timer := Interval(DefaultBpm, 1)]
  {
    m := new Metronome();
    assert m.cues == [] && m.count == 0 && !m.isPlaying && m.bpm == DefaultBpm;
    m.PlayStateEffect();
    assert m.cues == [] && m.count == 0 && !m.isPlaying && m.bpm == DefaultBpm;
    m.TempoEffect();
    assert m.cues == [] && m.count == 0 && !m.isPlaying && m.bpm == DefaultBpm;
    m.StartStop();
    assert m.cues == [Accent] && m.count == 1 && m.isPlaying && m.bpm == DefaultBpm;
    m.PlayStateCleanup();
    assert m.cues == [Accent] && m.count == 1 && m.isPlaying && m.bpm == DefaultBpm;
    m.PlayStateEffect();
  }

  /** A mounted component started with the button and left to play `n`
      further beats: the accent falls on the starting click and on every
      fourth click after it. */
  method StartAndPlay(n: nat) returns (m: Metronome)
    ensures fresh(m) && m.Valid() && m.isPlaying
    ensures |m.cues| == n + 1
    ensures forall i :: 0 <= i <= n ==> (m.cues[i] == Accent <==> i % BeatsPerMeasure == 0)
  {
    m := StartFromMount();
    m.RunBeats(n);
    assert m.cues == [Accent] + CuesFrom(1, n);
    StartedCuesAccents(n);
  }

  /** Started, stopped after the first click and started again: the restart
      click reads the count the stop left (the second beat) and plays the
      regular cue, not the accent. */
  method RestartAfterOneClick() returns (m: Metronome)
    ensures fresh(m) && m.Valid() && m.isPlaying && m.Reconciled()
    ensures m.cues == [Accent, Regular] && m.count == 1
  {
    m := StartFromMount();
    m.StartStop();
    assert m.cues == [Accent] && m.count == 1 && !m.isPlaying;
    m.PlayStateCleanup();
    m.PlayStateEffect();
    assert m.cues == [Accent] && m.count == 1 && !m.isPlaying && m.intervals == map[];
    m.StartStop();
    assert m.cues == [Accent, Regular] && m.count == 1 && m.isPlaying;
    m.PlayStateCleanup();
    m.PlayStateEffect();
  }

  /** A change to a different tempo while playing: the count goes back to the
      first beat and the only scheduled interval runs at the new tempo. An
      unchanged tempo is left out, because React then runs no effect on
      `[bpm]`. */
  method ChangeTempoWhilePlaying(text: string) returns (m: Metronome)
    requires AllDigits(text)
    requires DigitsValue(text) != DefaultBpm
    ensures fresh(m) && m.Valid() && m.isPlaying && m.Reconciled()
    ensures m.bpm == DigitsValue(text) && m.count == 0
    ensures m.intervals == map[m.timer := Interval(DigitsValue(text), 0)]
  {
    m := StartFromMount();
    m.HandleBpmChange(text);
    assert m.bpm == DigitsValue(text) && m.isPlaying && m.count == 1;
    m.TempoEffect();
    assert m.count == 0 && m.bpm == DigitsValue(text) && m.isPlaying;
    m.PlayStateCleanup();
    m.PlayStateEffect();
  }
}
