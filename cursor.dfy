/** `get_next_valid_timestamp` (cli.py lines 36-38): where the next clip
    may start, given the playhead position `currentTime`. */
module IntervalCursor {
  import opened Wrappers
  import opened Timestamps

  /** The first interval, in list order from index `from` on, whose start
      is at least `currentTime + minGap`; None when there is none. */
  function NextValidFrom(currentTime: real, timestamps: seq<Interval>, minGap: real, from: nat): (r: Option<Interval>)
    requires from <= |timestamps|
    ensures r.Some? ==> r.value.start >= currentTime + minGap
    decreases |timestamps| - from
  {
    if from == |timestamps| then None
    else if timestamps[from].start >= currentTime + minGap then Some(timestamps[from])
    else NextValidFrom(currentTime, timestamps, minGap, from + 1)
  }

  /** The scan from `from` finds nothing exactly when no interval from there
      on starts late enough, and otherwise finds the first that does. */
  lemma {:induction false} NextValidFromIsFirst(currentTime: real, timestamps: seq<Interval>, minGap: real, from: nat)
    requires from <= |timestamps|
    ensures NextValidFrom(currentTime, timestamps, minGap, from).None? <==>
              forall i :: from <= i < |timestamps| ==> timestamps[i].start < currentTime + minGap
    ensures NextValidFrom(currentTime, timestamps, minGap, from).Some? ==>
              exists k :: from <= k < |timestamps| && timestamps[k] == NextValidFrom(currentTime, timestamps, minGap, from).value &&
                forall j :: from <= j < k ==> timestamps[j].start < currentTime + minGap
    decreases |timestamps| - from
  {
    if from < |timestamps| && timestamps[from].start < currentTime + minGap {
      NextValidFromIsFirst(currentTime, timestamps, minGap, from + 1);
    }
  }

  /** The first interval, in list order, whose start is at least
      `currentTime + minGap`; None when there is none. */
  function NextValid(currentTime: real, timestamps: seq<Interval>, minGap: real): (r: Option<Interval>)
    ensures r.Some? ==> r.value.start >= currentTime + minGap
  {
    NextValidFrom(currentTime, timestamps, minGap, 0)
  }

  /** NextValid is None exactly when no interval starts `minGap` past the
      cursor, and otherwise it is the first such interval in list order. */
  lemma NextValidIsFirst(currentTime: real, timestamps: seq<Interval>, minGap: real)
    ensures NextValid(currentTime, timestamps, minGap).None? <==>
              forall i :: 0 <= i < |timestamps| ==> timestamps[i].start < currentTime + minGap
    ensures NextValid(currentTime, timestamps, minGap).Some? ==>
              exists k :: 0 <= k < |timestamps| && timestamps[k] == NextValid(currentTime, timestamps, minGap).value &&
                forall j :: 0 <= j < k ==> timestamps[j].start < currentTime + minGap
  {
    NextValidFromIsFirst(currentTime, timestamps, minGap, 0);
  }

  /** The search loop itself: scan the list in order and return the first
      interval far enough past the cursor. */
  method GetNextValidTimestamp(currentTime: real, timestamps: seq<Interval>, minGap: real) returns (r: Option<Interval>)
    ensures r == NextValid(currentTime, timestamps, minGap)
  {
    var i := 0;
    while i < |timestamps|
      invariant i <= |timestamps|
      invariant NextValidFrom(currentTime, timestamps, minGap, i) == NextValid(currentTime, timestamps, minGap)
    {
      if timestamps[i].start >= currentTime + minGap {
        return Some(timestamps[i]);
      }
      i := i + 1;
    }
    return None;
  }

  /** On a list sorted by start, as `read_timestamps` returns it, the
      interval found has the least qualifying start. */
  lemma NextValidIsLeast(currentTime: real, timestamps: seq<Interval>, minGap: real)
    requires SortedByStart(timestamps)
    requires NextValid(currentTime, timestamps, minGap).Some?
    ensures forall i :: 0 <= i < |timestamps| && timestamps[i].start >= currentTime + minGap ==>
              NextValid(currentTime, timestamps, minGap).value.start <= timestamps[i].start
  {
    NextValidIsFirst(currentTime, timestamps, minGap);
    var r := NextValid(currentTime, timestamps, minGap).value;
    var k :| 0 <= k < |timestamps| && timestamps[k] == r &&
             forall j :: 0 <= j < k ==> timestamps[j].start < currentTime + minGap;
    forall i | 0 <= i < |timestamps| && timestamps[i].start >= currentTime + minGap
      ensures r.start <= timestamps[i].start
    {
      if i != k {
        assert k < i;
      }
    }
  }

  /** How many of the first `n` intervals start at or after `bound`. */
  function CountIn(timestamps: seq<Interval>, bound: real, n: nat): (c: nat)
    requires n <= |timestamps|
    ensures c <= n
  {
    if n == 0 then 0
    else if timestamps[n - 1].start >= bound then CountIn(timestamps, bound, n - 1) + 1
    else CountIn(timestamps, bound, n - 1)
  }

  /** How many intervals still start at or after `bound`: the material left
      in front of the cursor. */
  function CountFrom(timestamps: seq<Interval>, bound: real): (c: nat)
    ensures c <= |timestamps|
  {
    CountIn(timestamps, bound, |timestamps|)
  }

  lemma {:induction false} CountInMonotone(timestamps: seq<Interval>, lo: real, hi: real, n: nat)
    requires lo <= hi && n <= |timestamps|
    ensures CountIn(timestamps, hi, n) <= CountIn(timestamps, lo, n)
  {
    if n > 0 {
      CountInMonotone(timestamps, lo, hi, n - 1);
    }
  }

  lemma {:induction false} CountInDrops(timestamps: seq<Interval>, lo: real, hi: real, k: nat, n: nat)
    requires lo <= hi && k < n <= |timestamps| && lo <= timestamps[k].start < hi
    ensures CountIn(timestamps, hi, n) < CountIn(timestamps, lo, n)
  {
    if k == n - 1 {
      CountInMonotone(timestamps, lo, hi, n - 1);
    } else {
      CountInDrops(timestamps, lo, hi, k, n - 1);
    }
  }

  /** Moving the bound past an interval's start leaves strictly less
      material. */
  lemma CountFromDrops(timestamps: seq<Interval>, lo: real, hi: real, k: nat)
    requires lo <= hi && k < |timestamps| && lo <= timestamps[k].start < hi
    ensures CountFrom(timestamps, hi) < CountFrom(timestamps, lo)
  {
    CountInDrops(timestamps, lo, hi, k, |timestamps|);
  }
}
