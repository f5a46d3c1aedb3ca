/** Beat counting and cue choice of the metronome: the value-level part of
    `playClick` (src/Metronome.tsx), with JavaScript's `%` written out. */
module Beats {

  /** Beats in one measure; the first beat of every measure is accented. */
  const BeatsPerMeasure: int := 4

  /** The two audio cues: `Accent` is the CLICK2 sample, `Regular` the CLICK1 sample. */
  datatype Cue = Accent | Regular

  /** `a % BEATS_PER_MEASURE` as JavaScript computes it: the remainder of
      the division truncated toward zero, so it carries the sign of the
      dividend (Dafny's own `%` is Euclidean and never negative). */
  function MeasureRem(a: int): (r: int)
    ensures (a - r) % BeatsPerMeasure == 0
    ensures 0 <= a ==> 0 <= r < BeatsPerMeasure
    ensures a < 0 ==> -BeatsPerMeasure < r <= 0
  {
    if a >= 0 then a % BeatsPerMeasure else -((-a) % BeatsPerMeasure)
  }

  /** The cue `playClick` plays for the count its render captured
      (`count % BEATS_PER_MEASURE === 0`): the accent exactly on a multiple of
      the measure length, negative counts included. */
  function CueFor(renderedCount: int): (c: Cue)
    ensures c == Accent <==> renderedCount % BeatsPerMeasure == 0
  {
    if MeasureRem(renderedCount) == 0 then Accent else Regular
  }

  /** The functional update `prevCount => (prevCount + 1) % BEATS_PER_MEASURE`:
      the next beat position, wrapping from the last beat to the first. */
  function NextCount(prev: int): (n: int)
    ensures 0 <= prev ==> 0 <= n < BeatsPerMeasure
    ensures 0 <= prev < BeatsPerMeasure ==>
              n == if prev == BeatsPerMeasure - 1 then 0 else prev + 1
  {
    MeasureRem(prev + 1)
  }

  /** The count after `n` clicks starting from `start`: the update at line 26
      applied `n` times. After at least one click from a non-negative count it
      is a beat position. */
  function CountAfter(start: int, n: nat): (c: int)
    ensures 0 < n && 0 <= start ==> 0 <= c < BeatsPerMeasure
  {
    if n == 0 then start else NextCount(CountAfter(start, n - 1))
  }

  /** The cues of `n` clicks starting from `start`, when every click reads the
      count left by the click before it. */
  function CuesFrom(start: int, n: nat): (cs: seq<Cue>)
    ensures |cs| == n
  {
    if n == 0 then [] else CuesFrom(start, n - 1) + [CueFor(CountAfter(start, n - 1))]
  }

  /** The count cycles 0, 1, 2, 3, 0, ...: after `n` clicks from `start` it is
      `(start + n) mod 4`. */
  lemma {:induction false} CountCycle(start: int, n: nat)
    requires 0 <= start < BeatsPerMeasure
    ensures CountAfter(start, n) == (start + n) % BeatsPerMeasure
  {
    if n > 0 {
      CountCycle(start, n - 1);
      NextOfRemainder(start + n - 1);
    }
  }

  /** One click from the remainder of `a` gives the remainder of `a + 1`. */
  lemma NextOfRemainder(a: nat)
    ensures NextCount(a % BeatsPerMeasure) == (a + 1) % BeatsPerMeasure
  {
  }

  /** The `i`-th of `n` cues is chosen from the count after `i` clicks. */
  lemma {:induction false} CuesFromAt(start: int, n: nat, i: nat)
    requires i < n
    ensures CuesFrom(start, n)[i] == CueFor(CountAfter(start, i))
  {
    if i < n - 1 {
      CuesFromAt(start, n - 1, i);
    }
  }

  /** The accent falls on every fourth click: click `i` is accented exactly
      when `start + i` is a multiple of the measure length. */
  lemma AccentEveryFourth(start: int, n: nat, i: nat)
    requires 0 <= start < BeatsPerMeasure
    requires i < n
    ensures CuesFrom(start, n)[i] == Accent <==> (start + i) % BeatsPerMeasure == 0
  {
    CuesFromAt(start, n, i);
    CountCycle(start, i);
  }

  /** The cues of a start followed by `n` beats: the start plays the accent
      from count 0 and leaves count 1, and the beats continue from there, so
      the accent falls exactly on every fourth cue. */
  lemma StartedCuesAccents(n: nat)
    ensures |[Accent] + CuesFrom(1, n)| == n + 1
    ensures forall i :: 0 <= i <= n ==>
              (([Accent] + CuesFrom(1, n))[i] == Accent <==> i % BeatsPerMeasure == 0)
  {
    forall i | 0 < i <= n
      ensures ([Accent] + CuesFrom(1, n))[i] == Accent <==> i % BeatsPerMeasure == 0
    {
      AccentEveryFourth(1, n, i - 1);
    }
  }
}
