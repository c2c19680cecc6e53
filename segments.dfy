/** The three segment generators of cli.py (lines 40-82), reduced to their
    boundary arithmetic: each one either rejects, or names the part of the
    video to extract and where the cursor moves next. */
module Segments {
  import opened Wrappers
  import opened Timestamps
  import opened IntervalCursor

  datatype Effect = Normal | Slow | Freeze

  /** An accepted cut: the video is extracted over [start, end) and the
      cursor moves to `next`. */
  datatype Cut = Cut(start: real, end: real, next: real)

  /** Every generator looks for material at least this far past the cursor. */
  const MinGap: real := 2.0
  /** The freeze effect extracts a tenth of a second and holds it. */
  const FreezeExtract: real := 0.1
  /** ... and moves the cursor five seconds on. */
  const FreezeAdvance: real := 5.0
  /** The slow-motion effect extracts four seconds and moves past them. */
  const SlowLength: real := 4.0

  function Min(a: real, b: real): real { if a <= b then a else b }

  /** The shape all three generators share: take the next interval at least
      MinGap past the cursor; reject when there is none, or when `extract`
      seconds from its start reach the end of the video; otherwise cut
      [start, min(start + extract, videoDuration)) and move the cursor to
      start + advance. */
  function CutAt(currentTime: real, timestamps: seq<Interval>, videoDuration: real, extract: real, advance: real): (r: Option<Cut>)
    ensures r.None? <==>
              NextValid(currentTime, timestamps, MinGap).None? ||
              NextValid(currentTime, timestamps, MinGap).value.start + extract >= videoDuration
    ensures r.Some? ==>
              r.value.start == NextValid(currentTime, timestamps, MinGap).value.start &&
              r.value.start >= currentTime + MinGap &&
              r.value.end == r.value.start + extract &&
              r.value.end < videoDuration &&
              r.value.next == r.value.start + advance
  {
    match NextValid(currentTime, timestamps, MinGap)
    case None => None
    case Some(next) =>
      if next.start + extract >= videoDuration then None
      else Some(Cut(next.start, Min(next.start + extract, videoDuration), next.start + advance))
  }

  /** `apply_freeze_effect` */
  function FreezeCut(currentTime: real, timestamps: seq<Interval>, videoDuration: real): (r: Option<Cut>)
    ensures r.None? <==>
              NextValid(currentTime, timestamps, MinGap).None? ||
              NextValid(currentTime, timestamps, MinGap).value.start + FreezeExtract >= videoDuration
    ensures r.Some? ==>
              r.value.start == NextValid(currentTime, timestamps, MinGap).value.start &&
              r.value.start >= currentTime + MinGap &&
              r.value.end == r.value.start + FreezeExtract < videoDuration &&
              r.value.next == r.value.start + FreezeAdvance
  {
    CutAt(currentTime, timestamps, videoDuration, FreezeExtract, FreezeAdvance)
  }

  /** `apply_slow_motion_effect` */
  function SlowCut(currentTime: real, timestamps: seq<Interval>, videoDuration: real): (r: Option<Cut>)
    ensures r.None? <==>
              NextValid(currentTime, timestamps, MinGap).None? ||
              NextValid(currentTime, timestamps, MinGap).value.start + SlowLength >= videoDuration
    ensures r.Some? ==>
              r.value.start == NextValid(currentTime, timestamps, MinGap).value.start &&
              r.value.start >= currentTime + MinGap &&
              r.value.end == r.value.start + SlowLength < videoDuration &&
              r.value.next == r.value.end
  {
    CutAt(currentTime, timestamps, videoDuration, SlowLength, SlowLength)
  }

  /** `generate_normal_clip`, with the uniform draw from [3, 4] passed in as
      `duration`. */
  function NormalCut(currentTime: real, timestamps: seq<Interval>, videoDuration: real, duration: real): (r: Option<Cut>)
    requires 3.0 <= duration <= 4.0
    ensures r.None? <==>
              NextValid(currentTime, timestamps, MinGap).None? ||
              NextValid(currentTime, timestamps, MinGap).value.start + duration >= videoDuration
    ensures r.Some? ==>
              r.value.start == NextValid(currentTime, timestamps, MinGap).value.start &&
              r.value.start >= currentTime + MinGap &&
              r.value.end == r.value.start + duration < videoDuration &&
              r.value.next == r.value.end
  {
    CutAt(currentTime, timestamps, videoDuration, duration, duration)
  }

  /** How much of the video each effect extracts; `duration` is the
      uniform draw a normal cut uses. */
  function Extract(effect: Effect, duration: real): real {
    match effect
    case Normal => duration
    case Slow => SlowLength
    case Freeze => FreezeExtract
  }

  /** What an accepted cut of `effect` satisfies: it starts at one of the
      timestamps, at least MinGap past the cursor, it has the effect's
      extraction length, it ends inside the video, and the cursor moves
      to its end (to five seconds past its start for a freeze). */
  predicate CutFits(effect: Effect, currentTime: real, timestamps: seq<Interval>, videoDuration: real, cut: Cut) {
    currentTime + MinGap <= cut.start < cut.end < videoDuration &&
    (exists k :: 0 <= k < |timestamps| && timestamps[k].start == cut.start) &&
    match effect
    case Normal => 3.0 <= cut.end - cut.start <= 4.0 && cut.next == cut.end
    case Slow => cut.end - cut.start == SlowLength && cut.next == cut.end
    case Freeze => cut.end - cut.start == FreezeExtract && cut.next == cut.start + FreezeAdvance
  }

  /** The dispatch on the chosen effect (cli.py lines 126-134): an accepted
      cut fits the effect; GenerateFinds says when it is accepted and
      where it starts. */
  function Generate(effect: Effect, currentTime: real, timestamps: seq<Interval>, videoDuration: real, duration: real): (r: Option<Cut>)
    requires 3.0 <= duration <= 4.0
    ensures r.Some? ==> CutFits(effect, currentTime, timestamps, videoDuration, r.value)
  {
    NextValidIsFirst(currentTime, timestamps, MinGap);
    match effect
    case Slow => SlowCut(currentTime, timestamps, videoDuration)
    case Freeze => FreezeCut(currentTime, timestamps, videoDuration)
    case Normal => NormalCut(currentTime, timestamps, videoDuration, duration)
  }

  /** The chosen generator rejects exactly when there is no interval MinGap
      past the cursor, or when the effect's extraction from its start
      reaches the end of the video; otherwise its cut starts there. */
  lemma GenerateFinds(effect: Effect, currentTime: real, timestamps: seq<Interval>, videoDuration: real, duration: real)
    requires 3.0 <= duration <= 4.0
    ensures Generate(effect, currentTime, timestamps, videoDuration, duration).None? <==>
              NextValid(currentTime, timestamps, MinGap).None? ||
              NextValid(currentTime, timestamps, MinGap).value.start + Extract(effect, duration) >= videoDuration
    ensures Generate(effect, currentTime, timestamps, videoDuration, duration).Some? ==>
              Generate(effect, currentTime, timestamps, videoDuration, duration).value.start ==
              NextValid(currentTime, timestamps, MinGap).value.start
  {
  }

  /** An accepted cut moves the cursor at least five seconds on. */
  lemma CutAdvances(effect: Effect, currentTime: real, timestamps: seq<Interval>, videoDuration: real, cut: Cut)
    requires CutFits(effect, currentTime, timestamps, videoDuration, cut)
    ensures cut.end <= cut.next && cut.next >= currentTime + MinGap + 3.0
  {
  }

  /** An accepted cut leaves fewer intervals in front of the cursor: the
      one it started at is now behind it. */
  lemma CutUsesMaterial(effect: Effect, currentTime: real, timestamps: seq<Interval>, videoDuration: real, cut: Cut)
    requires CutFits(effect, currentTime, timestamps, videoDuration, cut)
    ensures CountFrom(timestamps, cut.next + MinGap) < CountFrom(timestamps, currentTime + MinGap)
  {
    var k :| 0 <= k < |timestamps| && timestamps[k].start == cut.start;
    CountFromDrops(timestamps, currentTime + MinGap, cut.next + MinGap, k);
  }

  /** No generator can accept without an interval at least MinGap past the
      cursor. */
  lemma NothingAheadRejects(effect: Effect, currentTime: real, timestamps: seq<Interval>, videoDuration: real, duration: real)
    requires 3.0 <= duration <= 4.0
    requires forall i :: 0 <= i < |timestamps| ==> timestamps[i].start < currentTime + MinGap
    ensures Generate(effect, currentTime, timestamps, videoDuration, duration).None?
  {
    NextValidIsFirst(currentTime, timestamps, MinGap);
    GenerateFinds(effect, currentTime, timestamps, videoDuration, duration);
  }

  /** Every generator accepts when the first interval past the gap leaves
      four seconds before the end of the video: no extraction is longer. */
  lemma RoomAccepts(effect: Effect, currentTime: real, timestamps: seq<Interval>, videoDuration: real, duration: real)
    requires 3.0 <= duration <= 4.0
    requires NextValid(currentTime, timestamps, MinGap).Some?
    requires NextValid(currentTime, timestamps, MinGap).value.start + SlowLength < videoDuration
    ensures Generate(effect, currentTime, timestamps, videoDuration, duration).Some?
  {
    GenerateFinds(effect, currentTime, timestamps, videoDuration, duration);
  }
}
