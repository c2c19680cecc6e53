/** Where `generate_recap` puts its crossfades (cli.py lines 146-162).
    The clips of a plan are numbered 0 .. n-1; a piece of the final video
    is either one clip on its own or a crossfade of a clip with the next. */
module Transitions {

  datatype Piece = Single(index: nat) | Crossfade(first: nat)

  /** The first clip a piece shows. */
  function First(p: Piece): nat {
    match p
    case Single(i) => i
    case Crossfade(i) => i
  }

  /** Whether piece `p` shows clip `j`. */
  predicate Covers(p: Piece, j: nat) {
    match p
    case Single(i) => j == i
    case Crossfade(i) => j == i || j == i + 1
  }

  /** How many pieces show clip `j`. */
  function Uses(pieces: seq<Piece>, j: nat): nat
    decreases |pieces|
  {
    if pieces == [] then 0
    else if Covers(pieces[|pieces| - 1], j) then Uses(pieces[..|pieces| - 1], j) + 1
    else Uses(pieces[..|pieces| - 1], j)
  }

  /** `int(0.6 * (n - 1))` transitions are drawn for n clips; for n = 0 the
      product is -0.6, which `int()` truncates to 0. */
  function SampleSize(n: nat): nat {
    if n == 0 then 0 else 3 * (n - 1) / 5
  }

  /** What `random.sample(range(n - 1), SampleSize(n))` returns, as the
      loop uses it (only through `i in transition_indices`): that many
      distinct clip numbers, each with a clip after it. */
  predicate ValidSample(n: nat, transitions: set<nat>) {
    |transitions| == SampleSize(n) &&
    forall t :: t in transitions ==> t + 1 < n
  }

  /** The draw never asks for more transitions than there are gaps between
      clips, so `random.sample` never raises; SampleSize(n) is the largest
      count not above 60% of the gaps. */
  lemma SampleFits(n: nat)
    requires n >= 1
    ensures SampleSize(n) <= n - 1
    ensures 5 * SampleSize(n) <= 3 * (n - 1) < 5 * (SampleSize(n) + 1)
  {
  }

  // ---------------------------------------------------------------------
  // The loop as written

  /** What the body of the for loop appends for clip `i`: a crossfade when
      `i` is a drawn transition with a clip after it; nothing when the clip
      before is a drawn transition; the clip itself otherwise. The
      `i += 1` at cli.py line 159 rebinds the loop variable and has no
      effect on the next pass. */
  function Step(n: nat, transitions: set<nat>, i: nat): (r: seq<Piece>)
    ensures |r| <= 1 && forall p :: p in r ==> First(p) == i
  {
    if i + 1 < n && i in transitions then [Crossfade(i)]
    else if i > 0 && i - 1 in transitions then []
    else [Single(i)]
  }

  /** The pieces after the passes for clips 0 .. k-1. */
  function Placed(n: nat, transitions: set<nat>, k: nat): seq<Piece>
    decreases k
  {
    if k == 0 then [] else Placed(n, transitions, k - 1) + Step(n, transitions, k - 1)
  }

  /** `final_clips` as cli.py builds it. */
  function Placement(n: nat, transitions: set<nat>): seq<Piece> {
    Placed(n, transitions, n)
  }

  /** The for loop of cli.py lines 152-162. */
  method PlaceTransitions(n: nat, transitions: set<nat>) returns (pieces: seq<Piece>)
    ensures pieces == Placement(n, transitions)
  {
    pieces := [];
    for i := 0 to n
      invariant pieces == Placed(n, transitions, i)
    {
      if i + 1 < n && i in transitions {
        pieces := pieces + [Crossfade(i)];
      } else if !(i > 0 && i - 1 in transitions) {
        pieces := pieces + [Single(i)];
      }
    }
  }

  /** A piece is placed exactly when the pass for its first clip produced
      it. */
  lemma {:induction false} PlacedHas(n: nat, transitions: set<nat>, k: nat, p: Piece)
    ensures p in Placed(n, transitions, k) <==> First(p) < k && p in Step(n, transitions, First(p))
    decreases k
  {
    if k > 0 {
      PlacedHas(n, transitions, k - 1, p);
    }
  }

  /** With a valid sample, clip i starts a crossfade exactly when i was
      drawn. */
  lemma WrittenCrossfades(n: nat, transitions: set<nat>, i: nat)
    requires ValidSample(n, transitions)
    ensures Crossfade(i) in Placement(n, transitions) <==> i in transitions
  {
    PlacedHas(n, transitions, n, Crossfade(i));
  }

  /** With a valid sample, clip i stands alone exactly when neither i nor
      i - 1 was drawn. */
  lemma WrittenSingles(n: nat, transitions: set<nat>, i: nat)
    requires ValidSample(n, transitions)
    ensures Single(i) in Placement(n, transitions) <==>
              i < n && i !in transitions && !(i > 0 && i - 1 in transitions)
  {
    PlacedHas(n, transitions, n, Single(i));
  }

  predicate Ascending(pieces: seq<Piece>) {
    forall a, b :: 0 <= a < b < |pieces| ==> First(pieces[a]) < First(pieces[b])
  }

  /** The pieces follow the order of the clips. */
  lemma {:induction false} PlacedAscending(n: nat, transitions: set<nat>, k: nat)
    ensures Ascending(Placed(n, transitions, k))
    decreases k
  {
    if k > 0 {
      var init := Placed(n, transitions, k - 1);
      var r := Placed(n, transitions, k);
      PlacedAscending(n, transitions, k - 1);
      forall a | 0 <= a < |init| ensures First(init[a]) < k - 1 {
        PlacedHas(n, transitions, k - 1, init[a]);
      }
      forall a, b | 0 <= a < b < |r| ensures First(r[a]) < First(r[b]) {
        if b >= |init| {
          assert r[b] in Step(n, transitions, k - 1);
          assert r[a] == init[a];
        } else {
          assert r[a] == init[a] && r[b] == init[b];
        }
      }
    }
  }

  /** No clip is lost: with a valid sample every clip is shown by some
      piece. */
  lemma WrittenCovers(n: nat, transitions: set<nat>, j: nat)
    requires ValidSample(n, transitions) && j < n
    ensures exists p :: p in Placement(n, transitions) && Covers(p, j)
  {
    if j in transitions {
      WrittenCrossfades(n, transitions, j);
      assert Covers(Crossfade(j), j);
    } else if j > 0 && j - 1 in transitions {
      WrittenCrossfades(n, transitions, j - 1);
      assert Covers(Crossfade(j - 1), j);
    } else {
      WrittenSingles(n, transitions, j);
      assert Covers(Single(j), j);
    }
  }

  /** Appending a piece adds one use of each clip it shows. */
  lemma UsesLast(pieces: seq<Piece>, q: Piece, j: nat)
    ensures Covers(q, j) ==> Uses(pieces + [q], j) == Uses(pieces, j) + 1
    ensures !Covers(q, j) ==> Uses(pieces + [q], j) == Uses(pieces, j)
  {
    assert (pieces + [q])[..|pieces|] == pieces;
  }

  /** How many uses of clip j a piece list of at most one piece adds. */
  function ShownBy(step: seq<Piece>, j: nat): nat {
    if step != [] && Covers(step[0], j) then 1 else 0
  }

  /** How many uses of clip j the pass for clip i adds. */
  function Shown(n: nat, transitions: set<nat>, i: nat, j: nat): nat {
    ShownBy(Step(n, transitions, i), j)
  }

  lemma UsesAppendStep(pieces: seq<Piece>, step: seq<Piece>, j: nat)
    requires |step| <= 1
    ensures Uses(pieces + step, j) == Uses(pieces, j) + ShownBy(step, j)
  {
    if step == [] {
      assert pieces + step == pieces;
    } else {
      assert step == [step[0]];
      UsesLast(pieces, step[0], j);
    }
  }

  /** The uses of clip j added by the passes for clips 0 .. k-1. */
  function PassUses(n: nat, transitions: set<nat>, k: nat, j: nat): nat
    decreases k
  {
    if k == 0 then 0 else PassUses(n, transitions, k - 1, j) + Shown(n, transitions, k - 1, j)
  }

  /** The pass for clip k - 1 adds its uses of clip j to the pieces
      placed. */
  lemma UsesAfterPass(n: nat, transitions: set<nat>, k: nat, j: nat)
    requires k > 0
    ensures Uses(Placed(n, transitions, k), j) == Uses(Placed(n, transitions, k - 1), j) + Shown(n, transitions, k - 1, j)
  {
    var placed, step := Placed(n, transitions, k - 1), Step(n, transitions, k - 1);
    assert Placed(n, transitions, k) == placed + step;
    UsesAppendStep(placed, step, j);
  }

  /** Counting the placed pieces pass by pass. */
  lemma {:induction false} UsesByPass(n: nat, transitions: set<nat>, k: nat, j: nat)
    ensures Uses(Placed(n, transitions, k), j) == PassUses(n, transitions, k, j)
    decreases k
  {
    if k > 0 {
      calc {
        Uses(Placed(n, transitions, k), j);
        == { UsesAfterPass(n, transitions, k, j); }
        Uses(Placed(n, transitions, k - 1), j) + Shown(n, transitions, k - 1, j);
        == { UsesByPass(n, transitions, k - 1, j); }
        PassUses(n, transitions, k - 1, j) + Shown(n, transitions, k - 1, j);
      }
    }
  }

  /** The pass for clip i shows nothing of a clip j other than i and
      i + 1. */
  lemma StepFar(n: nat, transitions: set<nat>, i: nat, j: nat)
    requires j < i || i + 1 < j
    ensures Shown(n, transitions, i, j) == 0
  {
  }

  /** The passes before clip j - 1 show nothing of clip j. */
  lemma {:induction false} UsesBefore(n: nat, transitions: set<nat>, k: nat, j: nat)
    requires k == 0 || k < j
    ensures PassUses(n, transitions, k, j) == 0
    decreases k
  {
    if k > 0 {
      UsesBefore(n, transitions, k - 1, j);
      StepFar(n, transitions, k - 1, j);
    }
  }

  /** The passes after clip j show nothing of it. */
  lemma {:induction false} UsesAfter(n: nat, transitions: set<nat>, k: nat, j: nat)
    requires j + 1 <= k
    ensures PassUses(n, transitions, k, j) == PassUses(n, transitions, j + 1, j)
    decreases k
  {
    if k > j + 1 {
      UsesAfter(n, transitions, k - 1, j);
      StepFar(n, transitions, k - 1, j);
    }
  }

  /** The pass for clip j shows it unless j - 1 was drawn and j was not. */
  lemma ShownSelf(n: nat, transitions: set<nat>, j: nat)
    requires j < n && ValidSample(n, transitions)
    ensures j in transitions || !(j > 0 && j - 1 in transitions) ==> Shown(n, transitions, j, j) == 1
    ensures !(j in transitions || !(j > 0 && j - 1 in transitions)) ==> Shown(n, transitions, j, j) == 0
  {
  }

  /** The pass for clip j - 1 shows clip j exactly when j - 1 was drawn. */
  lemma ShownPrev(n: nat, transitions: set<nat>, j: nat)
    requires 0 < j < n && ValidSample(n, transitions)
    ensures j - 1 in transitions ==> Shown(n, transitions, j - 1, j) == 1
    ensures j - 1 !in transitions ==> Shown(n, transitions, j - 1, j) == 0
  {
  }

  /** With a valid sample, the loop as written shows clip j twice exactly
      when both j - 1 and j were drawn, and once otherwise. */
  lemma WrittenUses(n: nat, transitions: set<nat>, j: nat)
    requires ValidSample(n, transitions) && j < n
    ensures j > 0 && j - 1 in transitions && j in transitions ==> Uses(Placement(n, transitions), j) == 2
    ensures !(j > 0 && j - 1 in transitions && j in transitions) ==> Uses(Placement(n, transitions), j) == 1
  {
    UsesByPass(n, transitions, n, j);
    UsesAfter(n, transitions, n, j);
    ShownSelf(n, transitions, j);
    if j > 0 {
      UsesBefore(n, transitions, j - 1, j);
      ShownPrev(n, transitions, j);
      assert PassUses(n, transitions, j + 1, j)
          == PassUses(n, transitions, j - 1, j) + Shown(n, transitions, j - 1, j) + Shown(n, transitions, j, j);
    } else {
      assert PassUses(n, transitions, 1, j) == Shown(n, transitions, 0, j);
    }
  }

  /** With five clips and the draw {1, 2}, the loop yields clip 0, the
      crossfades from clips 1 and 2, and clip 4. */
  lemma WrittenExample()
    ensures ValidSample(5, {1, 2})
    ensures Placement(5, {1, 2}) == [Single(0), Crossfade(1), Crossfade(2), Single(4)]
  {
    var t: set<nat> := {1, 2};
    assert Step(5, t, 0) == [Single(0)];
    assert Step(5, t, 1) == [Crossfade(1)];
    assert Step(5, t, 2) == [Crossfade(2)];
    assert 3 !in t;
    assert Step(5, t, 3) == [];
    assert Step(5, t, 4) == [Single(4)];
    assert Placed(5, t, 1) == [Single(0)];
    assert Placed(5, t, 2) == [Single(0), Crossfade(1)];
    assert Placed(5, t, 3) == [Single(0), Crossfade(1), Crossfade(2)];
    assert Placed(5, t, 4) == Placed(5, t, 3);
  }

  /** Two adjacent drawn transitions show the clip between them twice:
      clip 2 ends the first crossfade and starts the second. */
  lemma WrittenRepeatsClip()
    ensures ValidSample(5, {1, 2}) && Uses(Placement(5, {1, 2}), 2) == 2
  {
    WrittenExample();
    var pieces := [Single(0), Crossfade(1), Crossfade(2), Single(4)];
    assert pieces[..3] == [Single(0), Crossfade(1), Crossfade(2)];
    assert pieces[..3][..2] == [Single(0), Crossfade(1)];
    assert pieces[..3][..2][..1] == [Single(0)];
    assert pieces[..3][..2][..1][..0] == [];
    assert Uses(pieces[..3][..2][..1], 2) == 0;
    assert Uses(pieces[..3][..2], 2) == 1;
    assert Uses(pieces[..3], 2) == 2;
  }

  // ---------------------------------------------------------------------
  // The evidently intended loop: a crossfade consumes the next clip

  /** The pieces for clips p .. n-1 when a crossfade skips the clip it
      has already shown. */
  function Exclusive(n: nat, transitions: set<nat>, p: nat): seq<Piece>
    decreases n - p
  {
    if p >= n then []
    else if p + 1 < n && p in transitions then [Crossfade(p)] + Exclusive(n, transitions, p + 2)
    else [Single(p)] + Exclusive(n, transitions, p + 1)
  }

  /** One pass of the loop with the skip: the piece for clip i moves from
      the pieces still to come to the pieces placed. */
  lemma ExclusiveAdvance(n: nat, transitions: set<nat>, pieces: seq<Piece>, i: nat)
    requires i < n
    requires pieces + Exclusive(n, transitions, i) == Exclusive(n, transitions, 0)
    ensures i + 1 < n && i in transitions ==>
              (pieces + [Crossfade(i)]) + Exclusive(n, transitions, i + 2) == Exclusive(n, transitions, 0)
    ensures !(i + 1 < n && i in transitions) ==>
              (pieces + [Single(i)]) + Exclusive(n, transitions, i + 1) == Exclusive(n, transitions, 0)
  {
    var q := if i + 1 < n && i in transitions then Crossfade(i) else Single(i);
    var next := if i + 1 < n && i in transitions then i + 2 else i + 1;
    assert Exclusive(n, transitions, i) == [q] + Exclusive(n, transitions, next);
    assert (pieces + [q]) + Exclusive(n, transitions, next) == pieces + ([q] + Exclusive(n, transitions, next));
  }

  /** The placement loop with the skip in effect: a crossfade at clip i
      moves the loop on to clip i + 2. The test at cli.py line 161, which
      drops every clip that follows a drawn transition, goes with it: kept
      beside the skip it would drop a clip no crossfade shows (clip 3 of
      five with transitions {1, 2}). */
  method PlaceTransitionsExclusive(n: nat, transitions: set<nat>) returns (pieces: seq<Piece>)
    ensures pieces == Exclusive(n, transitions, 0)
  {
    pieces := [];
    var i := 0;
    while i < n
      invariant pieces + Exclusive(n, transitions, i) == Exclusive(n, transitions, 0)
      decreases n - i
    {
      ExclusiveAdvance(n, transitions, pieces, i);
      if i + 1 < n && i in transitions {
        pieces := pieces + [Crossfade(i)];
        i := i + 2;
      } else {
        pieces := pieces + [Single(i)];
        i := i + 1;
      }
    }
    assert Exclusive(n, transitions, i) == [];
    assert pieces + [] == pieces;
  }

  /** A piece before pieces that all start later keeps them ascending. */
  lemma AscendingCons(head: Piece, rest: seq<Piece>)
    requires Ascending(rest) && forall q :: q in rest ==> First(head) < First(q)
    ensures Ascending([head] + rest)
  {
    var r := [head] + rest;
    forall a, b | 0 <= a < b < |r| ensures First(r[a]) < First(r[b]) {
      assert r[b] == rest[b - 1] && rest[b - 1] in rest;
      if a > 0 {
        assert r[a] == rest[a - 1];
      }
    }
  }

  /** The corrected pieces follow the order of the clips too, and none of
      those for clips p .. n-1 starts before clip p. */
  lemma {:induction false} ExclusiveAscending(n: nat, transitions: set<nat>, p: nat)
    ensures Ascending(Exclusive(n, transitions, p))
    ensures forall q :: q in Exclusive(n, transitions, p) ==> First(q) >= p
    decreases n - p
  {
    if p < n {
      var skip := p + 1 < n && p in transitions;
      var head := if skip then Crossfade(p) else Single(p);
      var next := if skip then p + 2 else p + 1;
      var rest := Exclusive(n, transitions, next);
      ExclusiveAscending(n, transitions, next);
      assert Exclusive(n, transitions, p) == [head] + rest;
      AscendingCons(head, rest);
    }
  }

  lemma {:induction false} UsesCons(q: Piece, rest: seq<Piece>, j: nat)
    ensures Covers(q, j) ==> Uses([q] + rest, j) == Uses(rest, j) + 1
    ensures !Covers(q, j) ==> Uses([q] + rest, j) == Uses(rest, j)
    decreases |rest|
  {
    if rest != [] {
      var s := [q] + rest;
      assert s[..|s| - 1] == [q] + rest[..|rest| - 1];
      UsesCons(q, rest[..|rest| - 1], j);
    } else {
      assert ([q] + rest)[..0] == [];
    }
  }

  /** With the skip, every clip from p on is shown by exactly one piece and
      no clip before p by any. */
  lemma {:induction false} ExclusiveOnce(n: nat, transitions: set<nat>, p: nat, j: nat)
    ensures p <= j < n ==> Uses(Exclusive(n, transitions, p), j) == 1
    ensures !(p <= j < n) ==> Uses(Exclusive(n, transitions, p), j) == 0
    decreases n - p
  {
    if p < n {
      if p + 1 < n && p in transitions {
        ExclusiveOnce(n, transitions, p + 2, j);
        UsesCons(Crossfade(p), Exclusive(n, transitions, p + 2), j);
      } else {
        ExclusiveOnce(n, transitions, p + 1, j);
        UsesCons(Single(p), Exclusive(n, transitions, p + 1), j);
      }
    }
  }

  /** Every crossfade with the skip starts at a drawn transition. */
  lemma {:induction false} ExclusiveCrossfadesDrawn(n: nat, transitions: set<nat>, p: nat, i: nat)
    requires Crossfade(i) in Exclusive(n, transitions, p)
    ensures i in transitions && p <= i && i + 1 < n
    decreases n - p
  {
    if p + 1 < n && p in transitions {
      if Crossfade(i) != Crossfade(p) {
        ExclusiveCrossfadesDrawn(n, transitions, p + 2, i);
      }
    } else {
      ExclusiveCrossfadesDrawn(n, transitions, p + 1, i);
    }
  }

  /** No two drawn transitions are neighbours. */
  predicate NoAdjacent(transitions: set<nat>) {
    forall a, b :: a in transitions && b in transitions ==> b != a + 1
  }

  lemma PrevNotDrawn(transitions: set<nat>, x: nat)
    requires NoAdjacent(transitions) && x in transitions && x > 0
    ensures x - 1 !in transitions
  {
  }

  /** A drawn transition whose clip was not itself consumed by a crossfade
      is honoured by the skip. */
  lemma {:induction false} ExclusiveHonours(n: nat, transitions: set<nat>, p: nat, t: nat)
    requires t in transitions && p <= t && t + 1 < n
    requires t == 0 || t - 1 !in transitions
    ensures Crossfade(t) in Exclusive(n, transitions, p)
    decreases n - p
  {
    if p == t {
    } else if p + 1 < n && p in transitions {
      ExclusiveHonours(n, transitions, p + 2, t);
    } else {
      ExclusiveHonours(n, transitions, p + 1, t);
    }
  }

  /** The corrected placement, over a valid sample: a clip starts a
      crossfade only when it was drawn, and exactly then when no two drawn
      transitions are neighbours; every clip is shown exactly once. */
  lemma ExclusivePlacement(n: nat, transitions: set<nat>, i: nat, j: nat)
    requires ValidSample(n, transitions)
    ensures Crossfade(i) in Exclusive(n, transitions, 0) ==> i in transitions
    ensures NoAdjacent(transitions) && i in transitions ==> Crossfade(i) in Exclusive(n, transitions, 0)
    ensures j < n ==> Uses(Exclusive(n, transitions, 0), j) == 1
  {
    if Crossfade(i) in Exclusive(n, transitions, 0) {
      ExclusiveCrossfadesDrawn(n, transitions, 0, i);
    }
    if NoAdjacent(transitions) && i in transitions {
      if i > 0 {
        PrevNotDrawn(transitions, i);
      }
      ExclusiveHonours(n, transitions, 0, i);
    }
    ExclusiveOnce(n, transitions, 0, j);
  }
}
