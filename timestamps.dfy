/** Reading the marker file: `time_str_to_seconds` and `read_timestamps`
    (cli.py lines 9-34). The file is given as its sequence of lines, each
    still ending in its newline as Python's line iteration yields it. */
module Timestamps {
  import opened Wrappers
  import opened Text

  /** A marker `(start, end)` in seconds of source video. */
  datatype Interval = Interval(start: real, end: real)

  /** `time_str_to_seconds`: exactly three `:`-separated fields, the first
      two read by `int()`, the last by `float()`. None stands for the
      ValueError raised by a wrong field count or a non-numeric field. */
  function TimeStrToSeconds(timeStr: string): (r: Option<real>)
    ensures r.Some? ==> |Split(timeStr, ":")| == 3 && r.value >= 0.0
  {
    var fields := Split(timeStr, ":");
    if |fields| != 3 then None
    else
      match (ParseInt(fields[0]), ParseInt(fields[1]), ParseFloat(fields[2]))
      case (Some(h), Some(m), Some(s)) => Some((h * 3600 + m * 60) as real + s)
      case _ => None
  }

  predicate TimeChar(c: char) { IsDigit(c) || c == '.' || c == ':' }

  /** Only digits, `.` and `:` ever make up an accepted time: a SubRip-style
      `,` before the milliseconds, a sign or any surrounding text makes
      `time_str_to_seconds` raise. */
  lemma TimeStrCharset(timeStr: string)
    requires TimeStrToSeconds(timeStr).Some?
    ensures timeStr != [] && forall i :: 0 <= i < |timeStr| ==> TimeChar(timeStr[i])
    ensures ',' !in timeStr
  {
    var f := Split(timeStr, ":");
    JoinSplit(timeStr, ":");
    FloatCharset(f[2]);
    assert Join(f[1..], ":") == f[1] + ":" + f[2] by {
      assert f[1..][1..] == [f[2]];
    }
    assert timeStr == f[0] + ":" + f[1] + ":" + f[2];
    forall i | 0 <= i < |timeStr| ensures TimeChar(timeStr[i]) {
      var a, b := |f[0]|, |f[0]| + 1 + |f[1]|;
      if i < a {
        assert timeStr[i] == f[0][i];
      } else if a < i < b {
        assert timeStr[i] == f[1][i - a - 1];
      } else if b < i {
        assert timeStr[i] == f[2][i - b - 1];
        assert DecimalChar(f[2][i - b - 1]);
      }
    }
  }

  /** The SubRip spelling `00:01:02,500` is refused. */
  lemma SubRipTimeRejected()
    ensures TimeStrToSeconds("00:01:02,500") == None
  {
    var s := "00:01:02,500";
    assert s[8] == ',';
    if TimeStrToSeconds(s).Some? {
      TimeStrCharset(s);
    }
  }

  /** The text of a well-formed time `H:M:S`: hours and minutes are digit
      strings, seconds anything `float()` accepts here ("05", "05.250"). */
  datatype TimeText = TimeText(hours: string, minutes: string, seconds: string) {
    predicate Valid() {
      hours != [] && AllDigits(hours) && minutes != [] && AllDigits(minutes) && ParseFloat(seconds).Some?
    }

    function Format(): string { hours + ":" + minutes + ":" + seconds }

    /** The number of seconds the text denotes. */
    function Seconds(): real
      requires Valid()
    {
      (DigitsValue(hours) * 3600 + DigitsValue(minutes) * 60) as real + ParseFloat(seconds).value
    }
  }

  /** What `float()` accepts here holds no `:`. */
  lemma FloatHasNoColon(seconds: string)
    requires ParseFloat(seconds).Some?
    ensures ':' !in seconds
  {
    FloatCharset(seconds);
    forall i | 0 <= i < |seconds| ensures seconds[i] != ':' {
      assert DecimalChar(seconds[i]);
    }
  }

  /** A well-formed `H:M:S` text splits on `:` into its three fields. */
  lemma TimeTextFields(t: TimeText)
    requires t.Valid()
    ensures Split(t.Format(), ":") == [t.hours, t.minutes, t.seconds]
  {
    DigitsHaveNo(t.hours, ':');
    DigitsHaveNo(t.minutes, ':');
    FloatHasNoColon(t.seconds);
    var rest := t.minutes + ":" + t.seconds;
    assert t.Format() == t.hours + ":" + rest;
    SplitAfterPrefix(t.hours, ":", rest);
    SplitAfterPrefix(t.minutes, ":", t.seconds);
    SplitWhole(t.seconds, ":");
  }

  /** Every well-formed `H:M:S` text is read as hours * 3600 + minutes * 60 +
      seconds. */
  lemma TimeStrOfText(t: TimeText)
    requires t.Valid()
    ensures TimeStrToSeconds(t.Format()) == Some(t.Seconds())
  {
    TimeTextFields(t);
  }

  /** The fields of `00:01:05`, and their values. */
  lemma WholeSecondsText()
    ensures TimeText("00", "01", "05").Format() == "00:01:05"
    ensures DigitsValue("00") == 0 && DigitsValue("01") == 1 && DigitsValue("05") == 5
  {
    assert "00"[..1] == "0" && "01"[..1] == "0" && "05"[..1] == "0";
    assert "0"[..0] == [];
  }

  /** `00:01:05` is sixty-five seconds. */
  lemma WholeSecondsExample()
    ensures TimeStrToSeconds("00:01:05") == Some(65.0)
  {
    var t := TimeText("00", "01", "05");
    WholeSecondsText();
    FloatOfDigits("05");
    TimeStrOfText(t);
  }

  lemma FormatCharset(t: TimeText)
    requires t.Valid()
    ensures t.Format() != [] && forall i :: 0 <= i < |t.Format()| ==> TimeChar(t.Format()[i])
  {
    TimeStrOfText(t);
    TimeStrCharset(t.Format());
  }

  const Arrow: string := "-->"

  /** One pass of `read_timestamps`' loop body: the interval a line adds, or
      None when the line is skipped: no `-->`, a split into other than two
      parts, a time that raises ValueError, or a start at or past the end
      of the video. An end past the video is clamped to it. */
  function ParseLine(line: string, videoDuration: real): (r: Option<Interval>)
    ensures r.Some? ==> Contains(line, Arrow)
    ensures r.Some? ==>
              var parts := Split(Strip(line), Arrow);
              |parts| == 2 &&
              TimeStrToSeconds(Strip(parts[0])) == Some(r.value.start) &&
              TimeStrToSeconds(Strip(parts[1])).Some? &&
              var end := TimeStrToSeconds(Strip(parts[1])).value;
              (r.value.end == end || (end > videoDuration && r.value.end == videoDuration))
    ensures r.Some? ==> 0.0 <= r.value.start < videoDuration && r.value.end <= videoDuration
  {
    if !Contains(line, Arrow) then None
    else
      var parts := Split(Strip(line), Arrow);
      if |parts| != 2 then None
      else
        match (TimeStrToSeconds(Strip(parts[0])), TimeStrToSeconds(Strip(parts[1])))
        case (Some(start), Some(end)) =>
          if start >= videoDuration then None
          else Some(Interval(start, if end > videoDuration then videoDuration else end))
        case _ => None
  }

  /** The whitespace around a marker line goes ... */
  lemma MarkerLineStripped(A: string, B: string)
    requires A != [] && !IsSpace(A[0]) && B != [] && !IsSpace(B[|B| - 1])
    ensures Strip(A + " --> " + B + "\n") == (A + " ") + Arrow + (" " + B)
  {
    var body := (A + " ") + Arrow + (" " + B);
    assert A + " --> " + B + "\n" == [] + body + "\n";
    assert body[0] == A[0] && body[|body| - 1] == B[|B| - 1];
    StripPadded([], body, "\n");
  }

  /** ... and `-->` is found in it. */
  lemma MarkerLineHasArrow(A: string, B: string)
    ensures Contains(A + " --> " + B + "\n", Arrow)
  {
    assert A + " --> " + B + "\n" == (A + " ") + Arrow + (" " + B + "\n");
    ContainsInMiddle(A + " ", Arrow, " " + B + "\n");
  }

  /** Splitting `A --> B` on the arrow gives `A ` and ` B`, when neither
      time contains a `-`. */
  lemma MarkerLineSplit(A: string, B: string)
    requires '-' !in A && '-' !in B
    ensures Split((A + " ") + Arrow + (" " + B), Arrow) == [A + " ", " " + B]
  {
    assert '-' !in A + " " by {
      forall i | 0 <= i < |A + " "| ensures (A + " ")[i] != '-' {
        if i < |A| { assert A[i] in A; }
      }
    }
    assert '-' !in " " + B by {
      forall i | 0 <= i < |" " + B| ensures (" " + B)[i] != '-' {
        if i > 0 { assert B[i - 1] in B; }
      }
    }
    SplitAfterPrefix(A + " ", Arrow, " " + B);
    SplitWhole(" " + B, Arrow);
  }

  lemma TimeTextShape(t: TimeText)
    requires t.Valid()
    ensures t.Format() != [] && !IsSpace(t.Format()[0]) && !IsSpace(t.Format()[|t.Format()| - 1])
    ensures '-' !in t.Format()
  {
    var A := t.Format();
    FormatCharset(t);
    assert TimeChar(A[0]) && TimeChar(A[|A| - 1]);
    forall i | 0 <= i < |A| ensures A[i] != '-' {
      assert TimeChar(A[i]);
    }
  }

  /** How `ParseLine` reads a line once its stripped form splits into two
      times. */
  lemma ParseLineOfParts(line: string, A: string, B: string, videoDuration: real)
    requires Contains(line, Arrow)
    requires Split(Strip(line), Arrow) == [A + " ", " " + B]
    requires Strip(A + " ") == A && Strip(" " + B) == B
    requires TimeStrToSeconds(A).Some? && TimeStrToSeconds(B).Some?
    ensures ParseLine(line, videoDuration)
         == var start, end := TimeStrToSeconds(A).value, TimeStrToSeconds(B).value;
            if start >= videoDuration then None
            else Some(Interval(start, if end > videoDuration then videoDuration else end))
  {
  }

  /** A marker line `A --> B` falls apart into `A ` and ` B`. */
  lemma MarkerLineParts(A: string, B: string)
    requires A != [] && !IsSpace(A[0]) && '-' !in A
    requires B != [] && !IsSpace(B[|B| - 1]) && '-' !in B
    ensures Contains(A + " --> " + B + "\n", Arrow)
    ensures Split(Strip(A + " --> " + B + "\n"), Arrow) == [A + " ", " " + B]
  {
    MarkerLineStripped(A, B);
    MarkerLineHasArrow(A, B);
    MarkerLineSplit(A, B);
  }

  /** Each half loses the blank next to the arrow. */
  lemma MarkerTimesStripped(A: string, B: string)
    requires A != [] && !IsSpace(A[0]) && !IsSpace(A[|A| - 1])
    requires B != [] && !IsSpace(B[0]) && !IsSpace(B[|B| - 1])
    ensures Strip(A + " ") == A && Strip(" " + B) == B
  {
    StripPadded([], A, " ");
    StripPadded(" ", B, []);
    assert [] + A + " " == A + " ";
    assert " " + B + [] == " " + B;
  }

  /** A marker line `A --> B` is read as the interval from A to B, dropped
      when A is at or past the end of the video and with B clamped to it. */
  lemma FormattedLineParses(a: TimeText, b: TimeText, videoDuration: real)
    requires a.Valid() && b.Valid()
    ensures ParseLine(a.Format() + " --> " + b.Format() + "\n", videoDuration)
         == if a.Seconds() >= videoDuration then None
            else Some(Interval(a.Seconds(), if b.Seconds() > videoDuration then videoDuration else b.Seconds()))
  {
    TimeTextShape(a);
    TimeTextShape(b);
    MarkerLineParts(a.Format(), b.Format());
    MarkerTimesStripped(a.Format(), b.Format());
    TimeStrOfText(a);
    TimeStrOfText(b);
    ParseLineOfParts(a.Format() + " --> " + b.Format() + "\n", a.Format(), b.Format(), videoDuration);
  }

  /** A marker line in SubRip spelling, with a `,` before the milliseconds
      of either time, is skipped: `float()` raises on that field. */
  lemma SubRipLineRejected(A: string, B: string, videoDuration: real)
    requires A != [] && !IsSpace(A[0]) && !IsSpace(A[|A| - 1]) && '-' !in A
    requires B != [] && !IsSpace(B[0]) && !IsSpace(B[|B| - 1]) && '-' !in B
    requires ',' in A || ',' in B
    ensures ParseLine(A + " --> " + B + "\n", videoDuration) == None
  {
    MarkerLineParts(A, B);
    MarkerTimesStripped(A, B);
    if TimeStrToSeconds(A).Some? {
      TimeStrCharset(A);
    }
    if TimeStrToSeconds(B).Some? {
      TimeStrCharset(B);
    }
  }

  /** The SubRip line `00:00:01,000 --> 00:00:02,000` yields nothing. */
  lemma SubRipLineExample(videoDuration: real)
    ensures ParseLine("00:00:01,000 --> 00:00:02,000\n", videoDuration) == None
  {
    var A, B := "00:00:01,000", "00:00:02,000";
    assert A[8] == ',';
    assert "00:00:01,000 --> 00:00:02,000\n" == A + " --> " + B + "\n";
    SubRipLineRejected(A, B, videoDuration);
  }

  /** What each line yields: a pair to keep, or None when it is skipped. */
  function LineOutcomes(lines: seq<string>, videoDuration: real): (outcomes: seq<Option<Interval>>)
    ensures |outcomes| == |lines|
  {
    seq(|lines|, i requires 0 <= i < |lines| => ParseLine(lines[i], videoDuration))
  }

  /** The values of the present entries, in order. */
  function Present<T>(xs: seq<Option<T>>): seq<T>
    decreases |xs|
  {
    if xs == [] then []
    else
      var init := Present(xs[..|xs| - 1]);
      match xs[|xs| - 1]
      case Some(v) => init + [v]
      case None => init
  }

  /** The positions of the present entries. */
  function PresentAt<T>(xs: seq<Option<T>>): set<nat>
  {
    set i: nat | i < |xs| && xs[i].Some?
  }

  /** One value per present entry. */
  lemma {:induction false} PresentCount<T>(xs: seq<Option<T>>)
    ensures |Present(xs)| == |PresentAt(xs)|
    decreases |xs|
  {
    if xs != [] {
      var n := |xs| - 1;
      var init := xs[..n];
      PresentCount(init);
      var before := PresentAt(init);
      assert n !in before;
      if xs[n].Some? {
        assert PresentAt(xs) == before + {n};
      } else {
        assert PresentAt(xs) == before;
      }
    }
  }

  /** The pairs `read_timestamps` appends, in line order. */
  function KeptPairs(lines: seq<string>, videoDuration: real): (kept: seq<Interval>)
  {
    Present(LineOutcomes(lines, videoDuration))
  }

  /** The positions of the lines that pass every filter. */
  function AcceptedLines(lines: seq<string>, videoDuration: real): (accepted: set<nat>)
    ensures forall i: nat :: i in accepted <==> i < |lines| && ParseLine(lines[i], videoDuration).Some?
  {
    PresentAt(LineOutcomes(lines, videoDuration))
  }

  /** Skipping a line never aborts the read: exactly one pair is kept per
      line that passes every filter. */
  lemma KeptCount(lines: seq<string>, videoDuration: real)
    ensures |KeptPairs(lines, videoDuration)| == |AcceptedLines(lines, videoDuration)|
  {
    PresentCount(LineOutcomes(lines, videoDuration));
  }

  /** Every kept pair starts inside the video and ends by its end. */
  lemma {:induction false} KeptWithinVideo(outcomes: seq<Option<Interval>>, lines: seq<string>, videoDuration: real)
    requires outcomes == LineOutcomes(lines, videoDuration)
    ensures forall iv :: iv in Present(outcomes) ==> 0.0 <= iv.start < videoDuration && iv.end <= videoDuration
    decreases |lines|
  {
    if lines != [] {
      var n := |lines| - 1;
      assert outcomes[..n] == LineOutcomes(lines[..n], videoDuration);
      KeptWithinVideo(outcomes[..n], lines[..n], videoDuration);
    }
  }

  predicate SortedByStart(s: seq<Interval>)
  {
    forall i, j :: 0 <= i < j < |s| ==> s[i].start <= s[j].start
  }

  /** Places `x` before the first element whose start is not smaller, so
      that among equal starts the earlier input stays first. */
  function InsertByStart(x: Interval, s: seq<Interval>): seq<Interval>
    decreases |s|
  {
    if s == [] || x.start <= s[0].start then [x] + s
    else [s[0]] + InsertByStart(x, s[1..])
  }

  /** Inserting adds `x` and loses nothing. */
  lemma {:induction false} InsertAddsOne(x: Interval, s: seq<Interval>)
    ensures multiset(InsertByStart(x, s)) == multiset(s) + multiset{x}
    decreases |s|
  {
    if s != [] && x.start > s[0].start {
      InsertAddsOne(x, s[1..]);
      assert s == [s[0]] + s[1..];
    }
  }

  /** A sorted list stays sorted with a head that starts no later than
      any of its elements. */
  lemma SortedCons(h: Interval, t: seq<Interval>)
    requires SortedByStart(t)
    requires forall i :: 0 <= i < |t| ==> h.start <= t[i].start
    ensures SortedByStart([h] + t)
  {
    var r := [h] + t;
    forall i, j | 0 <= i < j < |r| ensures r[i].start <= r[j].start {
      assert r[j] == t[j - 1];
      if i > 0 {
        assert r[i] == t[i - 1];
      }
    }
  }

  /** Inserting into a sorted list keeps it sorted. */
  lemma {:induction false} InsertKeepsSorted(x: Interval, s: seq<Interval>)
    requires SortedByStart(s)
    ensures SortedByStart(InsertByStart(x, s))
    decreases |s|
  {
    if s == [] || x.start <= s[0].start {
      SortedCons(x, s);
    } else {
      var rest := InsertByStart(x, s[1..]);
      InsertKeepsSorted(x, s[1..]);
      InsertAddsOne(x, s[1..]);
      forall i | 0 <= i < |rest| ensures s[0].start <= rest[i].start {
        assert rest[i] in multiset(rest);
        if rest[i] != x {
          assert rest[i] in s[1..];
        }
      }
      SortedCons(s[0], rest);
    }
  }

  /** `sorted(timestamps, key=lambda x: x[0])`: a stable insertion sort on
      the start time. */
  function SortByStart(s: seq<Interval>): seq<Interval>
    decreases |s|
  {
    if s == [] then [] else InsertByStart(s[0], SortByStart(s[1..]))
  }

  lemma MultisetOfCons(s: seq<Interval>)
    requires s != []
    ensures multiset(s) == multiset(s[1..]) + multiset{s[0]}
  {
    assert s == [s[0]] + s[1..];
  }

  /** The sort returns a list ordered by start ... */
  lemma {:induction false} SortSorts(s: seq<Interval>)
    ensures SortedByStart(SortByStart(s))
    decreases |s|
  {
    if s != [] {
      SortSorts(s[1..]);
      InsertKeepsSorted(s[0], SortByStart(s[1..]));
    }
  }

  /** ... holding the same pairs. */
  lemma {:induction false} SortKeeps(s: seq<Interval>)
    ensures multiset(SortByStart(s)) == multiset(s)
    decreases |s|
  {
    if s != [] {
      var t := s[1..];
      SortKeeps(t);
      InsertAddsOne(s[0], SortByStart(t));
      MultisetOfCons(s);
    }
  }

  /** The pairs a line adds: one when it passes every filter, none when it
      is skipped. */
  function LineYield(o: Option<Interval>): seq<Interval> {
    match o
    case Some(iv) => [iv]
    case None => []
  }

  /** Reading one more line appends what that line yields. */
  lemma KeptStep(lines: seq<string>, i: nat, videoDuration: real)
    requires i < |lines|
    ensures KeptPairs(lines[..i + 1], videoDuration)
         == KeptPairs(lines[..i], videoDuration) + LineYield(ParseLine(lines[i], videoDuration))
  {
    var outcomes := LineOutcomes(lines[..i + 1], videoDuration);
    assert outcomes[..i] == LineOutcomes(lines[..i], videoDuration);
  }

  /** What `read_timestamps` returns: the kept pairs, one per accepted
      line, sorted by start, each inside the video. */
  lemma ReadTimestampsFits(lines: seq<string>, videoDuration: real)
    ensures SortedByStart(SortByStart(KeptPairs(lines, videoDuration)))
    ensures multiset(SortByStart(KeptPairs(lines, videoDuration))) == multiset(KeptPairs(lines, videoDuration))
    ensures |SortByStart(KeptPairs(lines, videoDuration))| == |AcceptedLines(lines, videoDuration)|
    ensures forall iv :: iv in SortByStart(KeptPairs(lines, videoDuration)) ==>
              0.0 <= iv.start < videoDuration && iv.end <= videoDuration
  {
    var kept := KeptPairs(lines, videoDuration);
    var timestamps := SortByStart(kept);
    SortSorts(kept);
    SortKeeps(kept);
    KeptCount(lines, videoDuration);
    KeptWithinVideo(LineOutcomes(lines, videoDuration), lines, videoDuration);
    assert |timestamps| == |multiset(timestamps)| == |kept|;
    forall iv | iv in timestamps ensures 0.0 <= iv.start < videoDuration && iv.end <= videoDuration {
      assert iv in multiset(timestamps);
    }
  }

  /** `read_timestamps`: collect the kept pairs line by line, then sort them
      by start. */
  method ReadTimestamps(lines: seq<string>, videoDuration: real) returns (timestamps: seq<Interval>)
    ensures timestamps == SortByStart(KeptPairs(lines, videoDuration))
  {
    var kept: seq<Interval> := [];
    for i := 0 to |lines|
      invariant kept == KeptPairs(lines[..i], videoDuration)
    {
      KeptStep(lines, i, videoDuration);
      match ParseLine(lines[i], videoDuration)
      case Some(iv) =>
        kept := kept + [iv];
      case None =>
    }
    assert lines[..|lines|] == lines;
    timestamps := SortByStart(kept);
  }
}
