# Recap planner model

A Dafny model of the planning core of `cli.py`, a tool that cuts a recap
video out of a film. The tool reads a file of marker lines
(`HH:MM:SS.sss --> HH:MM:SS.sss`) and picks an effect for each clip. It
chooses between a normal cut, slow motion and a freeze frame, balancing
how often each is used. It cuts clips at the markers, always at least two
seconds past the previous cut, until the recap reaches its target length
or the material runs out. Finally it chooses which neighbouring clips are
joined by a crossfade.

The model covers the decisions, not the pixels:

- `Text` holds the Python string primitives the code relies on: `in`,
  `split`, `strip`, `int()` and `float()`.
- `Timestamps` models `time_str_to_seconds` and `read_timestamps`. The
  file is its list of lines; the per-line filter and clamp, the reading
  loop (a method) and the stable sort by start are modelled.
- `IntervalCursor` models `get_next_valid_timestamp`: the search loop and
  the function it computes.
- `Segments` models the three generators reduced to their boundary
  arithmetic (start, end and next cursor of a cut, or rejection), and the
  dispatch on the chosen effect.
- `Planner` models the effect-balancing selector and the `while` loop of
  `generate_recap` as a method. Its random choices are read from oracles
  in its configuration. It ends in a plan or the "not enough clips"
  exception. `Run` is a reference run of the loop, pass by pass, as a
  function. `Stopped` says that a plan is where that run stops. The
  method's contract ties its result to the run through `Stopped`.
- `Transitions` models the `for` loop that places crossfades, as written.
  It also holds the placement the code evidently intends (see Findings).

Where the code and its description differ, the model follows the code:

- A marker line with any other text around the two times is skipped. The
  text ends up inside a time field, and `int()` or `float()` raises.
- A marker whose end lies before its start is kept.
- A SubRip time with a comma before the milliseconds (`00:01:02,500`) is
  rejected.
- With the loop as written, a clip can appear in two crossfades.

## Model

| member | source | states |
|---|---|---|
| Text.JoinSplit | cli.py:10 | joining the fields of `split` with the separator gives back the original string: splitting loses and reorders nothing |
| Text.SplitFindsSeparator | cli.py:18-19 | `split` yields more than one part exactly when the separator occurs in the string |
| Text.SplitWhole | cli.py:10 | a string that cannot hold the separator splits into itself alone |
| Text.SplitAfterPrefix | cli.py:10 | splitting `a + sep + rest`, `a` free of the separator, gives `a` followed by the fields of `rest` |
| Text.TrimStart | cli.py:18 | the result is a suffix of the input, the part removed is all whitespace, and the result does not start with whitespace |
| Text.TrimEnd | cli.py:18 | the result is a prefix of the input, the part removed is all whitespace, and the result does not end with whitespace |
| Text.Strip | cli.py:18 | a non-empty result neither starts nor ends with whitespace |
| Text.StripPadded | cli.py:18 | stripping whitespace padding off a text that has no whitespace at either end returns exactly that text |
| Text.ParseInt | cli.py:11 | `int()` accepts only a non-empty run of decimal digits |
| Text.ParseFloat | cli.py:11 | an accepted `float()` value is never negative; FloatOfDigits and FloatOfFraction give the value of every accepted spelling |
| Text.FloatCharset | cli.py:11 | any text `float()` accepts is non-empty and made of digits and dots only |
| Text.FloatOfDigits | cli.py:11 | a plain run of digits such as `05` reads as its integer value |
| Text.FloatOfFraction | cli.py:11 | `W.F` reads as the value of the digits `W` plus the digits `F` over the matching power of ten, with either side possibly empty (`5.`, `.5`) but not both |
| Timestamps.TimeStrToSeconds | cli.py:9-11 | a time is accepted only when it has exactly three `:` fields, and its value is never negative |
| Timestamps.TimeTextFields | cli.py:10 | splitting a formatted `h:m:s` on `:` gives back its three fields |
| Timestamps.TimeStrOfText | cli.py:9-11 | round trip: formatting valid hours, minutes and seconds and reading the text back gives `h*3600 + m*60 + s` |
| Timestamps.WholeSecondsExample | cli.py:9-11 | `00:01:05` reads as 65 seconds |
| Timestamps.FormatCharset | cli.py:9-11 | a formatted time consists of digits, `.` and `:` only |
| Timestamps.TimeStrCharset | cli.py:9-11 | every accepted time is made of digits, `.` and `:` only, so it contains no `,` |
| Timestamps.SubRipTimeRejected | cli.py:9-11 | the SubRip spelling `00:01:02,500` raises, so it yields no time |
| Timestamps.ParseLine | cli.py:17-31 | a line yields an interval only when it contains `-->`, its stripped form splits on the arrow into exactly two parts, and both stripped parts read as times; the start is the first time and lies inside the video; the end is the second time, or the video's end when that time lies past it |
| Timestamps.MarkerLineParts | cli.py:17-19 | a line `A --> B` with a newline contains the arrow, and its stripped form splits into exactly the two sides |
| Timestamps.MarkerLineSplit | cli.py:18-19 | `A --> B` without hyphens in `A` or `B` splits on the arrow into `A ` and ` B` |
| Timestamps.MarkerTimesStripped | cli.py:23-24 | stripping each side recovers the two times |
| Timestamps.FormattedLineParses | cli.py:16-31 | a well-formed marker line `a --> b` yields the interval from `a`'s seconds to `b`'s, clamped to the video's end; it is dropped exactly when `a` is at or past the video's end |
| Timestamps.SubRipLineRejected | cli.py:22-33 | a marker line with a `,` in either time is skipped, because `float()` raises on that field |
| Timestamps.SubRipLineExample | cli.py:22-33 | the SubRip line `00:00:01,000 --> 00:00:02,000` is skipped |
| Timestamps.KeptStep | cli.py:16-31 | reading one more line appends exactly what that line yields to the pairs kept |
| Timestamps.KeptCount | cli.py:16-33 | a skipped line never aborts the read: exactly one pair is kept per line that yields an interval |
| Timestamps.KeptWithinVideo | cli.py:26-31 | every kept pair starts inside the video and ends no later than its end |
| Timestamps.InsertAddsOne | cli.py:34 | inserting by start adds exactly the one interval, as multisets |
| Timestamps.InsertKeepsSorted | cli.py:34 | inserting into a list sorted by start keeps it sorted |
| Timestamps.SortSorts | cli.py:34 | the result of the sort is ordered by start |
| Timestamps.SortKeeps | cli.py:34 | the sort is a permutation of its input |
| Timestamps.ReadTimestampsFits | cli.py:13-34 | `read_timestamps` returns one interval per line that yields one, a permutation of the kept pairs, sorted by start, each inside the video |
| Timestamps.ReadTimestamps | cli.py:13-34 | the reading loop returns the stable sort by start of the pairs kept from the lines |
| IntervalCursor.NextValid | cli.py:36-38 | an interval found starts at least `min_gap` past the cursor |
| IntervalCursor.NextValidIsFirst | cli.py:36-38 | None exactly when no interval starts at least `min_gap` past the cursor; otherwise the first such interval in list order |
| IntervalCursor.GetNextValidTimestamp | cli.py:36-38 | the search loop returns exactly NextValid |
| IntervalCursor.NextValidIsLeast | cli.py:34-38 | on a list sorted by start, the interval found has the least qualifying start |
| IntervalCursor.CountFromDrops | cli.py:36-38 | moving the cursor past an interval's start leaves strictly fewer intervals in front of it |
| Segments.CutAt | cli.py:40-82 | the shared generator shape: rejects exactly when there is no next interval, or when the extraction from its start reaches the video's end; otherwise cuts from the next interval's start with the extraction length and moves the cursor by the advance |
| Segments.FreezeCut | cli.py:40-54 | the freeze frame rejects on those conditions with a 0.1 s extraction; otherwise it starts at the next interval and moves the cursor five seconds past the start |
| Segments.SlowCut | cli.py:56-69 | slow motion rejects on those conditions with a 4 s extraction; otherwise it starts at the next interval and the cursor moves to the end of the cut |
| Segments.NormalCut | cli.py:71-82 | the normal cut rejects on those conditions with the drawn duration; otherwise it starts at the next interval and the cursor moves to the end of the cut |
| Segments.Generate | cli.py:126-134 | an accepted cut of the chosen effect starts at a marker at least two seconds past the cursor, has that effect's extraction length, ends inside the video and moves the cursor as that effect does |
| Segments.GenerateFinds | cli.py:40-82 | the chosen generator rejects exactly when there is no next interval or that effect's extraction from it reaches the video's end; an accepted cut starts at the next interval |
| Segments.CutAdvances | cli.py:40-82 | an accepted cut ends before the new cursor, and the cursor moves at least five seconds on |
| Segments.CutUsesMaterial | cli.py:36-82 | after an accepted cut, fewer intervals lie in front of the cursor |
| Segments.NothingAheadRejects | cli.py:40-82 | with no interval past the gap, every generator rejects |
| Segments.RoomAccepts | cli.py:40-82 | when the next interval leaves four seconds before the video's end, every generator accepts |
| Planner.CountsAddUp | cli.py:102 | the three effect counts add up to the number of choices counted |
| Planner.ShareBelow | cli.py:107-111 | a share is below a bound exactly when the count is below that fraction of the total |
| Planner.OpenIsShareBelowCeiling | cli.py:107-119 | an effect is offered exactly when its share is below its ceiling (one half for normal, one quarter for slow and freeze) |
| Planner.CandidatesAreOpen | cli.py:113-119 | an effect is among the candidates exactly when it is offered |
| Planner.CandidateWeights | cli.py:113-119 | an offered normal cut is listed twice, an offered slow or freeze once |
| Planner.Candidates | cli.py:121-122 | the list after the fallback is never empty, and equals the offered list when that is non-empty |
| Planner.ChooseIsListPick | cli.py:124 | the chosen effect is the entry of `available_effects` at the random index, taken modulo the list's length |
| Planner.ChosenIsCandidate | cli.py:124 | the chosen effect is one of the candidates |
| Planner.FallbackUnreachable | cli.py:103-122 | because the counts sum to one less than `total_clips`, some effect is always offered: the fallback list is never used |
| Planner.ChosenIsOpen | cli.py:105-124 | the chosen effect is always under its ceiling |
| Planner.ChoiceKeepsCeilings | cli.py:105-134 | counting the chosen effect keeps each effect less than one clip above its ceiling's share |
| Planner.Tally | cli.py:126-134 | one count per clip |
| Planner.TallyAppend | cli.py:126-141 | appending a clip counts its effect once more |
| Planner.RunPrevAccepted | cli.py:105-141 | a run that reaches n passes ran its n-th pass with the total short of the target, and that pass's cut was accepted |
| Planner.RunShrinks | cli.py:105-141 | a run that reaches n accepted passes reached every smaller number of them |
| Planner.StoppedIsUnique | cli.py:105-141 | the configuration determines the plan: two plans at which the run has stopped are equal |
| Planner.StartKeeps | cli.py:97-103 | the empty recap at cursor 0, duration 0 and no counts satisfies the loop invariant |
| Planner.AcceptKeeps | cli.py:136-141 | an accepted cut keeps the invariant: the clips fit, stay spaced and lie behind the cursor; the duration is theirs; and one more interval is used up |
| Planner.PassKeeps | cli.py:105-141 | a whole pass whose cut is accepted keeps the loop invariant, including the effect counts and ceilings |
| Planner.RunKept | cli.py:105-141 | every state of the reference run satisfies the loop invariant and holds one clip per accepted pass |
| Planner.RunBounded | cli.py:105-141 | the run accepts no more passes than there are markers |
| Planner.RunPastStart | cli.py:105-137 | a run that gets past its first pass had a positive target and an accepted first pass |
| Planner.RejectedPlan | cli.py:128-137 | a run that stops at a rejected cut hands on a plan the run Stopped at, with the rejected choice counted; it satisfies PlanFits when there are clips |
| Planner.FinishedPlan | cli.py:105 | a run that stops on reaching the target hands on a plan the run Stopped at; it satisfies PlanFits when there are clips |
| Planner.FinishedFits | cli.py:105 | when the loop stops on reaching the target, the plan satisfies PlanFits |
| Planner.RejectedFits | cli.py:136-137 | when the loop stops at a rejected cut after some clips, the plan satisfies PlanFits, with the rejected pass counted |
| Planner.PlanSpaced | cli.py:139-141 | in a finished plan no two clips overlap: each starts at least two seconds after the end of every earlier clip |
| Planner.NoMaterialFails | cli.py:143-144 | with no marker starting at least two seconds into the video, the first pass is rejected |
| Planner.RoomSucceeds | cli.py:143-144 | with a marker past two seconds that leaves four seconds before the end, the first pass is accepted whatever effect it chooses |
| Planner.PlanMeets | cli.py:105-144 | a loop that stops with clips where the run stops hands on a plan that satisfies PlanFits and that the run Stopped at; its target was positive and its first pass accepted |
| Planner.EmptyMeets | cli.py:105-144 | a loop that stops without clips had a target that was not positive, or a rejected first pass |
| Planner.CollectClips | cli.py:105-141 | the `while` loop stops where the reference run stops: its clips and total are the run's after its accepted passes; either the total has reached the target, or the next pass's generator rejected and its choice is counted too |
| Planner.PlanRecap | cli.py:96-144 | the loop raises exactly when the target is not positive or the first pass is rejected; otherwise it returns the plan at which the reference run stops (Stopped), and that plan satisfies PlanFits: clips fit and are spaced, counts within ceilings, target reached unless a pass was rejected, no more clips than markers |
| Transitions.SampleFits | cli.py:147-150 | the sample size never exceeds the number of gaps between clips, so `random.sample` never raises; it is the largest count within 60% of the gaps |
| Transitions.Step | cli.py:152-162 | each pass of the loop appends at most one piece, and that piece starts at the current clip |
| Transitions.PlaceTransitions | cli.py:152-162 | the `for` loop builds exactly Placement |
| Transitions.PlacedHas | cli.py:152-162 | a piece is in the output exactly when the pass for its first clip appended it |
| Transitions.WrittenCrossfades | cli.py:153-158 | clip i starts a crossfade exactly when i was drawn |
| Transitions.WrittenSingles | cli.py:160-162 | clip i appears on its own exactly when neither i nor i-1 was drawn |
| Transitions.PlacedAscending | cli.py:152-162 | the pieces appear in ascending order of their first clip |
| Transitions.WrittenCovers | cli.py:152-162 | every clip appears in some piece |
| Transitions.UsesByPass | cli.py:152-162 | the number of pieces showing a clip is the sum, over the passes, of what each pass shows of it |
| Transitions.WrittenUses | cli.py:152-162 | a clip appears twice when both it and its predecessor were drawn, and exactly once otherwise |
| Transitions.WrittenExample | cli.py:146-162 | for 5 clips with transitions {1, 2}, the output is clip 0, crossfade 1-2, crossfade 2-3, clip 4 |
| Transitions.WrittenRepeatsClip | cli.py:159 | for 5 clips with transitions {1, 2}, clip 2 appears twice |
| Transitions.ExclusiveAdvance | cli.py:152-159 | one pass of the skipping loop moves the next piece from the pieces still to come to the pieces placed |
| Transitions.PlaceTransitionsExclusive | cli.py:152-162 | the loop with the skip builds exactly Exclusive |
| Transitions.ExclusiveAscending | cli.py:152-162 | with the skip, the pieces still appear in ascending order of their first clip |
| Transitions.ExclusiveCrossfadesDrawn | cli.py:153-158 | with the skip, every crossfade starts at a drawn clip that has a clip after it |
| Transitions.ExclusiveHonours | cli.py:153-158 | with the skip, a drawn clip whose predecessor was not drawn starts a crossfade |
| Transitions.ExclusiveOnce | cli.py:152-162 | with the skip, every clip from the current one on appears exactly once, and no other clip appears |
| Transitions.ExclusivePlacement | cli.py:152-162 | with the skip, over a valid sample: crossfades start only at drawn clips, at every drawn clip when no two drawn clips are neighbours, and every clip appears exactly once |

## Left out

- Video and audio processing are left out: moviepy's subclips, speed change, freeze, crossfades, the concatenation, the final trim to the target, the audio track and the resize (cli.py lines 84-88 and 164 on). A clip is its effect, its span of the source video and its duration on the timeline.
- The timeline durations of slowed and frozen clips are inputs of the planner, since they come from moviepy. A normal clip lasts as long as it is extracted.
- The target duration is an input, since the audio file's duration comes from moviepy.
- Opening and reading the marker file is left out: the file is its list of lines. The printed messages are left out too.
- `main`, `get_file_path`, `find_files_recursive` and the command-line handling are not part of this model.
- Randomness becomes inputs. `random.choice` takes the index `pick(k) % |candidates|` for the pass that starts with k clips. `random.uniform(3, 4)` is `draw(k)`, any real in [3, 4]. `random.sample` is any set of clip numbers that satisfies ValidSample; the loop only tests membership in it.
- Floating point is modelled by exact reals, so rounding in `float()` and in the sums of durations is not modelled.
- The loop's variables `clips_with_transitions`, `effect_counts`, `total_duration` and `current_time` are held in one Progress value that each pass replaces as a whole, and the loop is its own method, CollectClips, which PlanRecap calls before the check for an empty recap.
- Transitions.SampleSize: `int(0.6 * (n - 1))` is modelled as `3 * (n - 1) / 5`. This is not stated to agree with the binary product for every n.
- Text.ParseInt: accepts ASCII digits only. Python's `int()` also accepts surrounding whitespace, a sign, underscores between digits and non-ASCII digits. No field reaching it here carries any of these except through malformed marker lines.
- Text.ParseFloat: accepts digits with at most one `.`. Python's `float()` also accepts a sign, an exponent, `inf`, `nan`, underscores and surrounding whitespace.
- Text.Strip: removes the ASCII characters for which `str.isspace()` holds, the separators 0x1C-0x1F included, but not the non-ASCII Unicode whitespace Python's `strip()` also removes.
- Timestamps.FormattedLineParses: covers lines spelled `a --> b` with one blank on each side of the arrow and a closing newline. ParseLine reads every other spelling too (`a-->b`, a last line without a newline), but no lemma restates those cases.
- Timestamps.SortSorts: the sort is stable by its definition (an interval goes before the first one whose start is not smaller); stability is not stated as a separate lemma.
- Planner.PlanRecap: the error case is stated through FirstPassRejected, the first pass only. The plan's spacing is proved as the separate lemma PlanSpaced.

## Findings

| source | as written | input that shows it | evidently intended | confidence | as-written member | corrected member |
|---|---|---|---|---|---|---|
| cli.py:159 | `i += 1` inside a `for` loop only rebinds the loop variable, so the clip folded into a crossfade is visited again, and can start a crossfade of its own | 5 clips with transitions {1, 2}: the output is clip 0, crossfade 1-2, crossfade 2-3, clip 4, so clip 2 is shown twice | a crossfade consumes the next clip, which is then skipped, so every clip is shown exactly once; the corrected loop also drops the test at line 161, which next to the skip would lose clip 3 in the same example | not executed | Transitions.WrittenRepeatsClip | Transitions.ExclusivePlacement |
