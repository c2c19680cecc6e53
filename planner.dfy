/** The effect-balancing selector and the planning loop of `generate_recap`
    (cli.py lines 96-144): repeatedly choose an effect among those still
    under their share ceiling, ask its generator for a cut, and collect the
    accepted cuts until the recap is long enough or the material runs out. */
module Planner {
  import opened Wrappers
  import opened Timestamps
  import opened IntervalCursor
  import opened Segments

  // ---------------------------------------------------------------------
  // The selector (cli.py lines 102, 107-124)

  /** The `effect_counts` dict: how often each effect has been chosen, as
      the multiplicity of that effect. */
  type Counts = multiset<Effect>

  const NoCounts: Counts := multiset{}

  /** The three counts add up to the number of choices made. */
  lemma {:induction false} CountsAddUp(c: Counts)
    ensures |c| == c[Normal] + c[Slow] + c[Freeze]
    decreases |c|
  {
    if c != multiset{} {
      var e :| e in c;
      var rest := c - multiset{e};
      CountsAddUp(rest);
      assert c == rest + multiset{e};
      match e
      case Normal => assert c[Normal] == rest[Normal] + 1 && c[Slow] == rest[Slow] && c[Freeze] == rest[Freeze];
      case Slow => assert c[Normal] == rest[Normal] && c[Slow] == rest[Slow] + 1 && c[Freeze] == rest[Freeze];
      case Freeze => assert c[Normal] == rest[Normal] && c[Slow] == rest[Slow] && c[Freeze] == rest[Freeze] + 1;
    }
  }

  /** `count / total_clips if total_clips > 0 else 0` */
  function Share(count: nat, total: nat): real {
    if total > 0 then count as real / total as real else 0.0
  }

  /** Comparing a share with a bound is comparing the count with that
      fraction of the total. */
  lemma ShareBelow(count: nat, total: nat, bound: real)
    requires total > 0 && bound >= 0.0
    ensures Share(count, total) < bound <==> count as real < bound * total as real
  {
    var q := Share(count, total);
    assert q * total as real == count as real;
    if q < bound {
      assert q * total as real < bound * total as real;
    } else {
      assert q * total as real >= bound * total as real;
    }
  }

  /** The share above which an effect stops being offered: half of the
      clips for the normal cut, a quarter each for slow motion and freeze. */
  function Ceiling(e: Effect): real {
    match e
    case Normal => 0.5
    case Slow => 0.25
    case Freeze => 0.25
  }

  /** Whether effect `e` is still offered: its share is below its ceiling.
      The comparison is made on whole numbers, without dividing (a share
      below one half is twice the count below the total, below a quarter
      four times the count); OpenIsShareBelowCeiling shows it is the same. */
  predicate Open(c: Counts, total: nat, e: Effect) {
    total == 0 ||
    match e
    case Normal => 2 * c[Normal] < total
    case Slow => 4 * c[Slow] < total
    case Freeze => 4 * c[Freeze] < total
  }

  /** Open is exactly the comparison `percentages[e] < ceiling` of cli.py
      lines 114-119. */
  lemma OpenIsShareBelowCeiling(c: Counts, total: nat, e: Effect)
    ensures Open(c, total, e) <==> Share(c[e], total) < Ceiling(e)
  {
    if total > 0 {
      ShareBelow(c[e], total, Ceiling(e));
    }
  }

  /** `available_effects` before the fallback: the effects still open, the
      normal cut listed twice. */
  function CandidateList(c: Counts, total: nat): seq<Effect>
  {
    (if Open(c, total, Normal) then [Normal, Normal] else []) +
    (if Open(c, total, Slow) then [Slow] else []) +
    (if Open(c, total, Freeze) then [Freeze] else [])
  }

  /** An effect is a candidate exactly when it is still open. */
  lemma CandidatesAreOpen(c: Counts, total: nat, e: Effect)
    ensures e in CandidateList(c, total) <==> Open(c, total, e)
  {
  }

  /** The normal cut carries twice the weight of each other open effect:
      it is listed twice when open, the others once. */
  lemma CandidateWeights(c: Counts, total: nat)
    ensures Open(c, total, Normal) ==> multiset(CandidateList(c, total))[Normal] == 2
    ensures Open(c, total, Slow) ==> multiset(CandidateList(c, total))[Slow] == 1
    ensures Open(c, total, Freeze) ==> multiset(CandidateList(c, total))[Freeze] == 1
  {
  }

  /** `available_effects` after the fallback of cli.py lines 121-122. */
  function Candidates(c: Counts, total: nat): (r: seq<Effect>)
    ensures r != []
    ensures CandidateList(c, total) != [] ==> r == CandidateList(c, total)
  {
    var open := CandidateList(c, total);
    if open == [] then [Normal, Slow, Freeze] else open
  }

  /** How many entries `e` has in `available_effects`: two for an open
      normal cut, one for an open slow or freeze cut, none once closed. */
  function Weight(c: Counts, total: nat, e: Effect): nat {
    if !Open(c, total, e) then 0 else if e == Normal then 2 else 1
  }

  /** `random.choice(available_effects)`, the random index passed in as
      `pick`, computed from the weights rather than by building the list:
      ChooseIsListPick shows it is the entry at `pick` modulo the length. */
  function Choose(c: Counts, total: nat, pick: nat): Effect
  {
    var normal := Weight(c, total, Normal);
    var slow := Weight(c, total, Slow);
    var freeze := Weight(c, total, Freeze);
    if normal + slow + freeze == 0 then
      (if pick % 3 == 0 then Normal else if pick % 3 == 1 then Slow else Freeze)
    else
      var k := pick % (normal + slow + freeze);
      if k < normal then Normal else if k < normal + slow then Slow else Freeze
  }

  /** Choose picks exactly the list entry `random.choice` would. */
  lemma ChooseIsListPick(c: Counts, total: nat, pick: nat)
    ensures Choose(c, total, pick) == Candidates(c, total)[pick % |Candidates(c, total)|]
  {
    var list := CandidateList(c, total);
    var normal := Weight(c, total, Normal);
    var slow := Weight(c, total, Slow);
    assert |list| == normal + slow + Weight(c, total, Freeze);
    if list != [] {
      var k := pick % |list|;
      if k < normal {
        assert list[k] == Normal;
      } else if k < normal + slow {
        assert list[k] == Slow;
      } else {
        assert list[k] == Freeze;
      }
    }
  }

  /** Whatever the random index, the chosen effect is a candidate. */
  lemma ChosenIsCandidate(c: Counts, total: nat, pick: nat)
    ensures Choose(c, total, pick) in Candidates(c, total)
  {
    ChooseIsListPick(c, total, pick);
  }

  /** When the shares are computed, the counts add up to one less than
      `total_clips`, so the three shares cannot all have reached their
      ceilings, whose sum is one: the fallback is never taken. */
  lemma FallbackUnreachable(c: Counts, total: nat)
    requires |c| + 1 == total
    ensures CandidateList(c, total) != []
  {
    CountsAddUp(c);
    assert Open(c, total, Normal) || Open(c, total, Slow) || Open(c, total, Freeze);
  }

  /** Hence the chosen effect is always one still under its ceiling. */
  lemma ChosenIsOpen(c: Counts, total: nat, pick: nat)
    requires |c| + 1 == total
    ensures Open(c, total, Choose(c, total, pick))
  {
    FallbackUnreachable(c, total);
    ChosenIsCandidate(c, total, pick);
    CandidatesAreOpen(c, total, Choose(c, total, pick));
  }

  /** No effect is ever a whole clip or more above its ceiling's share:
      normal < total/2 + 1, slow and freeze < total/4 + 1. */
  predicate WithinCeilings(c: Counts, total: nat) {
    2 * c[Normal] < total + 2 && 4 * c[Slow] < total + 4 && 4 * c[Freeze] < total + 4
  }

  /** Counting the chosen effect keeps every effect within its ceiling. */
  lemma ChoiceKeepsCeilings(c: Counts, total: nat, pick: nat)
    requires |c| + 1 == total
    requires WithinCeilings(c, total - 1)
    ensures WithinCeilings(c + multiset{Choose(c, total, pick)}, total)
  {
    ChosenIsOpen(c, total, pick);
  }

  // ---------------------------------------------------------------------
  // The planning loop (cli.py lines 96-144)

  /** An accepted clip: its effect, the span of the video it is cut from,
      and how long it lasts on the recap's timeline. */
  datatype Clip = Clip(effect: Effect, start: real, end: real, duration: real)

  /** What the loop reads: the timestamps, the video's and the recap's
      durations, the random choices (`pick(k)` is the choice index and
      `draw(k)` the uniform draw of the pass that starts with k clips
      counted), and the timeline durations of a slowed and of a frozen
      clip. */
  datatype Config = Config(
    timestamps: seq<Interval>,
    videoDuration: real,
    targetDuration: real,
    pick: nat -> nat,
    draw: nat -> real,
    slowClipDuration: real,
    freezeClipDuration: real)

  /** `random.uniform(3, 4)` lies in [3, 4]. */
  ghost predicate ValidConfig(cfg: Config) {
    forall k: nat :: 3.0 <= cfg.draw(k) <= 4.0
  }

  /** How long a clip lasts on the timeline: a normal cut as long as it is
      extracted, slowed and frozen clips as the effect makes them. */
  function TimelineDuration(cfg: Config, effect: Effect, cut: Cut): real {
    match effect
    case Normal => cut.end - cut.start
    case Slow => cfg.slowClipDuration
    case Freeze => cfg.freezeClipDuration
  }

  /** The clip an accepted cut adds to the recap. */
  function ClipOf(cfg: Config, effect: Effect, cut: Cut): (c: Clip)
    ensures c.effect == effect && c.start == cut.start && c.end == cut.end
  {
    Clip(effect, cut.start, cut.end, TimelineDuration(cfg, effect, cut))
  }

  /** The counts of the effects of `clips`. */
  function Tally(clips: seq<Clip>): (c: Counts)
    ensures |c| == |clips|
  {
    if clips == [] then NoCounts else Tally(clips[..|clips| - 1]) + multiset{clips[|clips| - 1].effect}
  }

  /** Appending a clip counts its effect once more. */
  lemma TallyAppend(clips: seq<Clip>, clip: Clip)
    ensures Tally(clips + [clip]) == Tally(clips) + multiset{clip.effect}
  {
    assert (clips + [clip])[..|clips|] == clips;
  }

  function SumDurations(clips: seq<Clip>): real {
    if clips == [] then 0.0 else SumDurations(clips[..|clips| - 1]) + clips[|clips| - 1].duration
  }

  /** The loop's variables between passes: the clips so far, the effects
      counted, the accumulated timeline duration and the cursor. */
  datatype Progress = Progress(clips: seq<Clip>, counts: Counts, total: real, cursor: real)

  /** Before the first pass: nothing cut, nothing counted, the cursor at 0. */
  const Start := Progress([], NoCounts, 0.0, 0.0)

  /** The effect chosen by the pass that follows `s`: `total_clips` is then
      one more than the clips so far. */
  function PassEffect(cfg: Config, s: Progress): Effect {
    Choose(s.counts, |s.clips| + 1, cfg.pick(|s.clips|))
  }

  /** The cut the generator of that effect makes from the cursor. */
  function PassCut(cfg: Config, s: Progress): Option<Cut>
    requires ValidConfig(cfg)
  {
    Generate(PassEffect(cfg, s), s.cursor, cfg.timestamps, cfg.videoDuration, cfg.draw(|s.clips|))
  }

  /** The variables after a pass whose generator made `cut`: its clip
      appended, its effect counted, its timeline duration added, the cursor
      where the generator left it. */
  function Accept(cfg: Config, s: Progress, cut: Cut): Progress {
    var effect := PassEffect(cfg, s);
    var clip := ClipOf(cfg, effect, cut);
    Progress(s.clips + [clip], s.counts + multiset{effect}, s.total + clip.duration, cut.next)
  }

  /** Whether the very first pass is rejected: from the start of the video,
      with nothing counted yet, the generator of the chosen effect finds no
      room. */
  function FirstPassRejected(cfg: Config): bool
    requires ValidConfig(cfg)
  {
    PassCut(cfg, Start).None?
  }

  /** The reference run of the loop: its variables after `n` accepted
      passes, or None when it stops before its n-th pass is accepted. A pass
      runs only while the total falls short of the target, and is accepted
      when its generator makes a cut. */
  function Run(cfg: Config, n: nat): Option<Progress>
    requires ValidConfig(cfg)
  {
    if n == 0 then Some(Start)
    else
      match Run(cfg, n - 1)
      case None => None
      case Some(s) =>
        if s.total >= cfg.targetDuration then None
        else
          match PassCut(cfg, s)
          case None => None
          case Some(cut) => Some(Accept(cfg, s, cut))
  }

  /** How the loop ends: its clips and total are those of the reference run
      after as many accepted passes, and either that total reaches the
      target, with the run's counts, or it falls short and the next pass's
      generator rejects, its choice counted as well. */
  ghost predicate Stopped(cfg: Config, p: Plan)
    requires ValidConfig(cfg)
  {
    Run(cfg, |p.clips|).Some? &&
    var s := Run(cfg, |p.clips|).value;
    s.clips == p.clips && s.total == p.totalDuration &&
    if p.totalClips == |p.clips| then
      s.total >= cfg.targetDuration && p.counts == s.counts
    else
      p.totalClips == |p.clips| + 1 && s.total < cfg.targetDuration &&
      PassCut(cfg, s).None? && p.counts == s.counts + multiset{PassEffect(cfg, s)}
  }

  /** One pass of the reference run, from the state after n passes. */
  lemma RunStep(cfg: Config, n: nat)
    requires ValidConfig(cfg) && Run(cfg, n).Some?
    ensures var s := Run(cfg, n).value;
            Run(cfg, n + 1) ==
              if s.total >= cfg.targetDuration || PassCut(cfg, s).None? then None
              else Some(Accept(cfg, s, PassCut(cfg, s).value))
  {
    assert n + 1 - 1 == n;
  }

  /** A run that reaches n > 0 accepted passes reached n - 1 of them, and
      the pass that followed ran because the total fell short of the
      target, and was accepted: the n-th state is that pass's Accept. */
  lemma RunPrevAccepted(cfg: Config, n: nat)
    requires ValidConfig(cfg) && n > 0 && Run(cfg, n).Some?
    ensures Run(cfg, n - 1).Some?
    ensures Run(cfg, n - 1).value.total < cfg.targetDuration
    ensures PassCut(cfg, Run(cfg, n - 1).value).Some?
    ensures Run(cfg, n) == Some(Accept(cfg, Run(cfg, n - 1).value, PassCut(cfg, Run(cfg, n - 1).value).value))
  {
  }

  /** A run that reaches n accepted passes reached every earlier count. */
  lemma {:induction false} RunShrinks(cfg: Config, m: nat, n: nat)
    requires ValidConfig(cfg) && m <= n && Run(cfg, n).Some?
    ensures Run(cfg, m).Some?
    decreases n - m
  {
    if m < n {
      RunShrinks(cfg, m + 1, n);
      RunPrevAccepted(cfg, m + 1);
    }
  }

  /** The loop's outcome is determined by its configuration: two plans
      that both end the reference run as Stopped says are the same plan. */
  lemma StoppedIsUnique(cfg: Config, p: Plan, q: Plan)
    requires ValidConfig(cfg) && Stopped(cfg, p) && Stopped(cfg, q)
    requires |p.clips| <= |q.clips|
    ensures p == q
  {
    if |p.clips| < |q.clips| {
      RunShrinks(cfg, |p.clips| + 1, |q.clips|);
      RunPrevAccepted(cfg, |p.clips| + 1);
      assert false;
    }
  }

  /** A clip cut from one of the timestamps, inside the video, with the
      extraction length and timeline duration of its effect. */
  predicate ClipFits(cfg: Config, c: Clip) {
    MinGap <= c.start < c.end < cfg.videoDuration &&
    (exists k :: 0 <= k < |cfg.timestamps| && cfg.timestamps[k].start == c.start) &&
    match c.effect
    case Normal => 3.0 <= c.end - c.start <= 4.0 && c.duration == c.end - c.start
    case Slow => c.end - c.start == SlowLength && c.duration == cfg.slowClipDuration
    case Freeze => c.end - c.start == FreezeExtract && c.duration == cfg.freezeClipDuration
  }

  /** The clips in ascending order, each at least MinGap after the end of
      every earlier one: no two overlap. */
  predicate Spaced(clips: seq<Clip>) {
    forall i, j :: 0 <= i < j < |clips| ==> clips[i].end + MinGap <= clips[j].start
  }

  /** Clip `i` starts at least MinGap after the end of the one before. */
  predicate Follows(clips: seq<Clip>, i: nat)
    requires 0 < i < |clips|
  {
    clips[i - 1].end + MinGap <= clips[i].start
  }

  /** Each clip starts at least MinGap after the end of the one before. */
  predicate Ordered(clips: seq<Clip>) {
    forall i :: 0 < i < |clips| ==> Follows(clips, i)
  }

  /** Neighbours far enough apart, each clip ending after it starts, make
      every pair far enough apart. */
  lemma {:induction false} OrderedSpaced(cfg: Config, clips: seq<Clip>)
    requires Ordered(clips)
    requires forall i :: 0 <= i < |clips| ==> ClipFits(cfg, clips[i])
    ensures Spaced(clips)
  {
    forall i, j | 0 <= i < j < |clips| ensures clips[i].end + MinGap <= clips[j].start {
      OrderedPair(cfg, clips, i, j);
    }
  }

  lemma {:induction false} OrderedPair(cfg: Config, clips: seq<Clip>, i: nat, j: nat)
    requires Ordered(clips)
    requires forall k :: 0 <= k < |clips| ==> ClipFits(cfg, clips[k])
    requires i < j < |clips|
    ensures clips[i].end + MinGap <= clips[j].start
    decreases j - i
  {
    assert Follows(clips, j);
    if i + 1 < j {
      OrderedPair(cfg, clips, i, j - 1);
      assert ClipFits(cfg, clips[j - 1]);
    }
  }

  /** The clips fit and each starts at least MinGap after the end of the
      one before, stated from the last clip backwards, the way the loop
      appends them. */
  predicate Chained(cfg: Config, clips: seq<Clip>)
    decreases |clips|
  {
    clips == [] ||
    (Chained(cfg, clips[..|clips| - 1]) &&
     ClipFits(cfg, clips[|clips| - 1]) &&
     (|clips| > 1 ==> clips[|clips| - 2].end + MinGap <= clips[|clips| - 1].start))
  }

  /** Chained says that every clip fits and the clips are Ordered. */
  lemma {:induction false} ChainedMeans(cfg: Config, clips: seq<Clip>)
    requires Chained(cfg, clips)
    ensures forall i :: 0 <= i < |clips| ==> ClipFits(cfg, clips[i])
    ensures Ordered(clips)
    decreases |clips|
  {
    if clips != [] {
      var front := clips[..|clips| - 1];
      ChainedMeans(cfg, front);
      forall i | 0 <= i < |clips| ensures ClipFits(cfg, clips[i]) {
        if i < |front| {
          assert clips[i] == front[i];
        }
      }
      forall i | 0 < i < |clips| ensures Follows(clips, i) {
        if i < |front| {
          assert Follows(front, i);
          assert clips[i - 1] == front[i - 1] && clips[i] == front[i];
        }
      }
    }
  }

  /** What every pass keeps about the clips and the cursor: the clips are
      Chained and lie behind the cursor; no more clips than timestamps used
      up; the accumulated duration is theirs. */
  predicate ClipsKept(cfg: Config, clips: seq<Clip>, currentTime: real, totalDuration: real) {
    0.0 <= currentTime &&
    Chained(cfg, clips) &&
    (clips != [] ==> clips[|clips| - 1].end <= currentTime) &&
    |clips| + CountFrom(cfg.timestamps, currentTime + MinGap) <= |cfg.timestamps| &&
    totalDuration == SumDurations(clips)
  }

  /** An accepted cut keeps ClipsKept: the new clip fits, starts MinGap
      past the cursor (so past every earlier clip), and the cursor moves
      past its end while one more timestamp falls behind it. */
  lemma AcceptKeeps(cfg: Config, clips: seq<Clip>, currentTime: real, totalDuration: real, effect: Effect, cut: Cut)
    requires ClipsKept(cfg, clips, currentTime, totalDuration)
    requires CutFits(effect, currentTime, cfg.timestamps, cfg.videoDuration, cut)
    ensures ClipsKept(cfg, clips + [ClipOf(cfg, effect, cut)], cut.next, totalDuration + ClipOf(cfg, effect, cut).duration)
  {
    var clip := ClipOf(cfg, effect, cut);
    var t := clips + [clip];
    assert t[..|clips|] == clips;
    CutAdvances(effect, currentTime, cfg.timestamps, cfg.videoDuration, cut);
    CutUsesMaterial(effect, currentTime, cfg.timestamps, cfg.videoDuration, cut);
    assert ClipFits(cfg, clip);
    if clips != [] {
      assert t[|t| - 2] == clips[|clips| - 1];
    }
  }

  /** What holds at the head of the loop: the clips and the cursor as
      ClipsKept says, one count per accepted clip, no effect far above its
      ceiling, and the cursor still at zero while there is no clip. */
  predicate LoopKept(cfg: Config, s: Progress) {
    ClipsKept(cfg, s.clips, s.cursor, s.total) &&
    s.counts == Tally(s.clips) &&
    WithinCeilings(s.counts, |s.clips|) &&
    (s.clips == [] ==> s.cursor == 0.0)
  }

  lemma StartKeeps(cfg: Config)
    ensures LoopKept(cfg, Start)
  {
  }

  /** A pass whose chosen effect's generator accepts keeps LoopKept. */
  lemma PassKeeps(cfg: Config, s: Progress, cut: Cut)
    requires LoopKept(cfg, s)
    requires CutFits(PassEffect(cfg, s), s.cursor, cfg.timestamps, cfg.videoDuration, cut)
    ensures LoopKept(cfg, Accept(cfg, s, cut))
  {
    var effect := PassEffect(cfg, s);
    ChoiceKeepsCeilings(s.counts, |s.clips| + 1, cfg.pick(|s.clips|));
    AcceptKeeps(cfg, s.clips, s.cursor, s.total, effect, cut);
    TallyAppend(s.clips, ClipOf(cfg, effect, cut));
  }

  /** A run that gets past its first pass had a positive target and a
      first pass that was accepted. */
  lemma RunPastStart(cfg: Config, n: nat)
    requires ValidConfig(cfg) && n > 0 && Run(cfg, n).Some?
    ensures cfg.targetDuration > 0.0 && !FirstPassRejected(cfg)
  {
    RunShrinks(cfg, 1, n);
    RunPrevAccepted(cfg, 1);
  }

  /** Every state of the reference run satisfies LoopKept, with one clip
      per pass: by induction on the passes, each accepted one keeping it. */
  lemma {:induction false} RunKept(cfg: Config, n: nat)
    requires ValidConfig(cfg) && Run(cfg, n).Some?
    ensures LoopKept(cfg, Run(cfg, n).value) && |Run(cfg, n).value.clips| == n
  {
    if n == 0 {
      StartKeeps(cfg);
    } else {
      RunPrevAccepted(cfg, n);
      RunKept(cfg, n - 1);
      var s := Run(cfg, n - 1).value;
      PassKeeps(cfg, s, PassCut(cfg, s).value);
    }
  }

  /** The reference run accepts at most one pass per timestamp, and after
      n passes holds n clips. */
  lemma RunBounded(cfg: Config, n: nat)
    requires ValidConfig(cfg) && Run(cfg, n).Some?
    ensures |Run(cfg, n).value.clips| == n <= |cfg.timestamps|
  {
    RunKept(cfg, n);
  }

  /** A pass whose generator rejects ends the loop with a plan the
      reference run Stopped at, and one that satisfies PlanFits when there
      are clips. */
  lemma RejectedPlan(cfg: Config, s: Progress)
    requires ValidConfig(cfg) && Run(cfg, |s.clips|) == Some(s)
    requires s.total < cfg.targetDuration && PassCut(cfg, s).None?
    ensures var p := Plan(s.clips, s.total, s.counts + multiset{PassEffect(cfg, s)}, |s.clips| + 1);
            Stopped(cfg, p) && (s.clips != [] ==> PlanFits(cfg, p))
  {
    RunKept(cfg, |s.clips|);
    if s.clips != [] {
      ChoiceKeepsCeilings(s.counts, |s.clips| + 1, cfg.pick(|s.clips|));
      RejectedFits(cfg, s.clips, s.cursor, s.total, PassEffect(cfg, s));
    }
  }

  /** The loop ends with the total at the target: a plan the reference run
      Stopped at, which satisfies PlanFits when there are clips. */
  lemma FinishedPlan(cfg: Config, s: Progress)
    requires ValidConfig(cfg) && Run(cfg, |s.clips|) == Some(s)
    requires s.total >= cfg.targetDuration
    ensures var p := Plan(s.clips, s.total, s.counts, |s.clips|);
            Stopped(cfg, p) && (s.clips != [] ==> PlanFits(cfg, p))
  {
    RunKept(cfg, |s.clips|);
    if s.clips != [] {
      FinishedFits(cfg, s.clips, s.cursor, s.total);
    }
  }

  /** The plan the loop hands on: the clips and the final values of its
      accumulators. */
  datatype Plan = Plan(clips: seq<Clip>, totalDuration: real, counts: Counts, totalClips: nat)

  /** The exception raised at cli.py line 144. */
  datatype PlanError = InsufficientMaterial

  /** What a finished plan satisfies: at least one clip and no more clips
      than timestamps; one count per pass, and one pass per clip plus
      possibly the rejected one; a plan without a rejected pass has
      reached the target; each clip's effect is counted and no effect is
      far above its ceiling; the clips fit and are spaced; the total
      duration is theirs. */
  predicate PlanFits(cfg: Config, p: Plan) {
    p.clips != [] &&
    |p.clips| <= |cfg.timestamps| &&
    (p.totalClips == |p.clips| || p.totalClips == |p.clips| + 1) &&
    (p.totalClips == |p.clips| ==> p.totalDuration >= cfg.targetDuration) &&
    |p.counts| == p.totalClips &&
    Tally(p.clips) <= p.counts &&
    WithinCeilings(p.counts, p.totalClips) &&
    (forall i :: 0 <= i < |p.clips| ==> ClipFits(cfg, p.clips[i])) &&
    Ordered(p.clips) &&
    p.totalDuration == SumDurations(p.clips)
  }

  /** The plan after the loop stops because the recap is long enough. */
  lemma FinishedFits(cfg: Config, clips: seq<Clip>, currentTime: real, totalDuration: real)
    requires ClipsKept(cfg, clips, currentTime, totalDuration)
    requires WithinCeilings(Tally(clips), |clips|)
    requires clips != [] && totalDuration >= cfg.targetDuration
    ensures PlanFits(cfg, Plan(clips, totalDuration, Tally(clips), |clips|))
  {
    ChainedMeans(cfg, clips);
  }

  /** The plan after the loop stops at a rejected pass of `effect`. */
  lemma RejectedFits(cfg: Config, clips: seq<Clip>, currentTime: real, totalDuration: real, effect: Effect)
    requires ClipsKept(cfg, clips, currentTime, totalDuration)
    requires WithinCeilings(Tally(clips) + multiset{effect}, |clips| + 1)
    requires clips != []
    ensures PlanFits(cfg, Plan(clips, totalDuration, Tally(clips) + multiset{effect}, |clips| + 1))
  {
    ChainedMeans(cfg, clips);
  }

  /** In a finished plan no two clips overlap: each starts at least MinGap
      after the end of every earlier one. */
  lemma PlanSpaced(cfg: Config, p: Plan)
    requires PlanFits(cfg, p)
    ensures Spaced(p.clips)
  {
    OrderedSpaced(cfg, p.clips);
  }

  /** Without an interval starting at least MinGap into the video, the
      first pass is rejected. */
  lemma NoMaterialFails(cfg: Config)
    requires ValidConfig(cfg)
    requires forall i :: 0 <= i < |cfg.timestamps| ==> cfg.timestamps[i].start < MinGap
    ensures FirstPassRejected(cfg)
  {
    NothingAheadRejects(Choose(NoCounts, 1, cfg.pick(0)), 0.0, cfg.timestamps, cfg.videoDuration, cfg.draw(0));
  }

  /** With an interval past MinGap that leaves four seconds before the end
      of the video, the first pass is accepted whatever effect it chooses. */
  lemma RoomSucceeds(cfg: Config)
    requires ValidConfig(cfg)
    requires NextValid(0.0, cfg.timestamps, MinGap).Some?
    requires NextValid(0.0, cfg.timestamps, MinGap).value.start + SlowLength < cfg.videoDuration
    ensures !FirstPassRejected(cfg)
  {
    RoomAccepts(Choose(NoCounts, 1, cfg.pick(0)), 0.0, cfg.timestamps, cfg.videoDuration, cfg.draw(0));
  }

  /** A loop that stops at `s` with clips, `rejected` saying whether a
      last pass was rejected, hands on a plan that satisfies PlanFits and
      that the run Stopped at; its target was positive and its first pass
      accepted. */
  lemma PlanMeets(cfg: Config, s: Progress, rejected: bool, p: Plan)
    requires ValidConfig(cfg) && Run(cfg, |s.clips|) == Some(s) && s.clips != []
    requires rejected ==> s.total < cfg.targetDuration && PassCut(cfg, s).None?
    requires !rejected ==> s.total >= cfg.targetDuration
    requires p.clips == s.clips && p.totalDuration == s.total
    requires rejected ==> p.counts == s.counts + multiset{PassEffect(cfg, s)} && p.totalClips == |s.clips| + 1
    requires !rejected ==> p.counts == s.counts && p.totalClips == |s.clips|
    ensures PlanFits(cfg, p) && Stopped(cfg, p)
    ensures cfg.targetDuration > 0.0 && !FirstPassRejected(cfg)
  {
    if rejected {
      RejectedPlan(cfg, s);
    } else {
      FinishedPlan(cfg, s);
    }
    RunPastStart(cfg, |s.clips|);
  }

  /** A loop that stops without clips had a target that was not positive,
      or a first pass that was rejected. */
  lemma EmptyMeets(cfg: Config, s: Progress, rejected: bool)
    requires ValidConfig(cfg) && Run(cfg, |s.clips|) == Some(s) && s.clips == []
    requires rejected ==> PassCut(cfg, s).None?
    requires !rejected ==> s.total >= cfg.targetDuration
    ensures cfg.targetDuration <= 0.0 || FirstPassRejected(cfg)
  {
    assert s == Start;
  }

  /** The loop of `generate_recap` (cli.py lines 105-141): passes run
      while the total falls short of the target and stop early when a
      generator finds no room. `state` holds the loop's variables
      `clips_with_transitions`, `effect_counts`, `total_duration` and
      `current_time`; `totalClips` is `total_clips`. The loop stops where
      the reference run stops: `last` is the run's state after its
      accepted passes, and the loop's variables are that state, with the
      choice of a rejected last pass counted too. */
  method CollectClips(cfg: Config) returns (state: Progress, totalClips: nat, ghost last: Progress, ghost rejected: bool)
    requires ValidConfig(cfg)
    ensures Run(cfg, |last.clips|) == Some(last)
    ensures state.clips == last.clips && state.total == last.total
    ensures rejected ==> last.total < cfg.targetDuration && PassCut(cfg, last).None?
    ensures rejected ==> state.counts == last.counts + multiset{PassEffect(cfg, last)} && totalClips == |last.clips| + 1
    ensures !rejected ==> last.total >= cfg.targetDuration && state.counts == last.counts && totalClips == |last.clips|
  {
    state := Start;
    totalClips := 0;
    rejected := false;
    last := Start;

    while state.total < cfg.targetDuration
      invariant !rejected && totalClips == |state.clips| && last == state
      invariant Run(cfg, |state.clips|) == Some(state)
      decreases |cfg.timestamps| - |state.clips|
    {
      totalClips := totalClips + 1;
      assert totalClips - 1 == |state.clips| && totalClips == |state.clips| + 1;
      var effect := Choose(state.counts, totalClips, cfg.pick(totalClips - 1));
      var cut := Generate(effect, state.cursor, cfg.timestamps, cfg.videoDuration, cfg.draw(totalClips - 1));
      assert effect == PassEffect(cfg, state) && cut == PassCut(cfg, state);
      if cut.None? {
        state := state.(counts := state.counts + multiset{effect});
        rejected := true;
        break;
      }
      RunStep(cfg, |state.clips|);
      RunBounded(cfg, |state.clips| + 1);
      var clip := ClipOf(cfg, effect, cut.value);
      state := Progress(state.clips + [clip], state.counts + multiset{effect}, state.total + clip.duration, cut.value.next);
      assert state == Accept(cfg, last, cut.value);
      last := state;
    }
  }

  /** `generate_recap` up to its plan (cli.py lines 97-144): the recap is
      empty, and the exception raised, exactly when the target is not
      positive or the very first pass is rejected; otherwise the plan
      satisfies PlanFits and is the one the reference run stops at. */
  method PlanRecap(cfg: Config) returns (r: Result<Plan, PlanError>)
    requires ValidConfig(cfg)
    ensures r.Err? <==> cfg.targetDuration <= 0.0 || FirstPassRejected(cfg)
    ensures r.Ok? ==> PlanFits(cfg, r.value) && Stopped(cfg, r.value)
  {
    var state, totalClips, last, rejected := CollectClips(cfg);
    if state.clips == [] {
      EmptyMeets(cfg, last, rejected);
      r := Err(InsufficientMaterial);
    } else {
      r := Ok(Plan(state.clips, state.total, state.counts, totalClips));
      PlanMeets(cfg, last, rejected, r.value);
    }
  }
}
