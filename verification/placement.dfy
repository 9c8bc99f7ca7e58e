/** The two alignment scans of `mapTags`: the span of target words aligned to
    the inside of a tag pair, and the score-driven placement of a tag that is
    treated as self-closing. */
module Placement {
  import opened Model

  // ---------------------------------------------------------------------
  // Words aligned to the inside of a tag pair
  // ---------------------------------------------------------------------

  /** The alignment point's source word lies in `[lo, hi)`. */
  predicate InSpan(a: AlignPoint, lo: nat, hi: nat) { lo <= a.src < hi }

  /** The largest target index aligned to a source word in `[lo, hi)`, or -1 when there is none. */
  function SpanMax(al: Alignment, lo: nat, hi: nat): (r: int)
    ensures r >= -1
    ensures r == -1 <==> forall k :: 0 <= k < |al| ==> !InSpan(al[k], lo, hi)
    ensures r != -1 ==> exists k :: 0 <= k < |al| && InSpan(al[k], lo, hi) && al[k].tgt == r
    ensures forall k :: 0 <= k < |al| && InSpan(al[k], lo, hi) ==> al[k].tgt <= r
  {
    if al == [] then -1
    else
      var prev := SpanMax(al[..|al| - 1], lo, hi);
      var last := al[|al| - 1];
      if InSpan(last, lo, hi) && last.tgt > prev then last.tgt else prev
  }

  /** The smallest target index aligned to a source word in `[lo, hi)`, or -1 when there is none. */
  function SpanMin(al: Alignment, lo: nat, hi: nat): (r: int)
    ensures r >= -1
    ensures r == -1 <==> forall k :: 0 <= k < |al| ==> !InSpan(al[k], lo, hi)
    ensures r != -1 ==> exists k :: 0 <= k < |al| && InSpan(al[k], lo, hi) && al[k].tgt == r
    ensures r != -1 ==> forall k :: 0 <= k < |al| && InSpan(al[k], lo, hi) ==> r <= al[k].tgt
  {
    if al == [] then -1
    else
      var prev := SpanMin(al[..|al| - 1], lo, hi);
      var last := al[|al| - 1];
      if InSpan(last, lo, hi) && (prev == -1 || last.tgt < prev) then last.tgt else prev
  }

  /** The loop of `mapTags` over the alignment for a tag pair: the least and
      the greatest target index aligned to the inside `[lo, hi)` of the pair;
      `maxPos == -1` says that nothing inside is aligned. */
  method AlignedSpan(alignments: Alignment, lo: nat, hi: nat) returns (minPos: int, maxPos: int)
    ensures maxPos == -1 <==> forall k :: 0 <= k < |alignments| ==> !InSpan(alignments[k], lo, hi)
    ensures maxPos != -1 ==> 0 <= minPos <= maxPos
    ensures maxPos != -1 ==> forall k :: 0 <= k < |alignments| && InSpan(alignments[k], lo, hi) ==>
                               minPos <= alignments[k].tgt <= maxPos
    ensures minPos == SpanMin(alignments, lo, hi) && maxPos == SpanMax(alignments, lo, hi)
  {
    minPos, maxPos := -1, -1;
    var k := 0;
    while k < |alignments|
      invariant 0 <= k <= |alignments|
      invariant minPos == SpanMin(alignments[..k], lo, hi)
      invariant maxPos == SpanMax(alignments[..k], lo, hi)
    {
      assert alignments[..k + 1][..k] == alignments[..k];
      var align := alignments[k];
      if InSpan(align, lo, hi) {
        minPos := if minPos == -1 || align.tgt < minPos then align.tgt else minPos;
        maxPos := if align.tgt > maxPos then align.tgt else maxPos;
      }
      k := k + 1;
    }
    assert alignments[..k] == alignments;
  }

  lemma SpanMinAtMostMax(al: Alignment, lo: nat, hi: nat)
    requires SpanMax(al, lo, hi) != -1
    ensures 0 <= SpanMin(al, lo, hi) <= SpanMax(al, lo, hi)
  {
  }

  // ---------------------------------------------------------------------
  // Self-closing placement
  // ---------------------------------------------------------------------

  /** Whether `al[k]` is the first point, in array order, that mentions its target word. */
  predicate FirstMention(al: Alignment, k: nat)
    requires k < |al|
  {
    forall k' :: 0 <= k' < k ==> al[k'].tgt != al[k].tgt
  }

  /** Target words whose first mention is aligned to a source word left of `pos`. */
  function LeftSet(al: Alignment, pos: nat): set<nat>
  {
    set k | 0 <= k < |al| && FirstMention(al, k) && al[k].src < pos :: al[k].tgt
  }

  /** Target words whose first mention is aligned to a source word at or right of `pos`. */
  function RightSet(al: Alignment, pos: nat): set<nat>
  {
    set k | 0 <= k < |al| && FirstMention(al, k) && al[k].src >= pos :: al[k].tgt
  }

  /** Every target word of the alignment. */
  function Targets(al: Alignment): set<nat>
  {
    set k | 0 <= k < |al| :: al[k].tgt
  }

  /** Extending the alignment by one point changes the two sides only when
      the point is the first to mention its target word. */
  lemma SidesSnoc(al: Alignment, a: AlignPoint, pos: nat)
    ensures Targets(al + [a]) == Targets(al) + {a.tgt}
    ensures a.tgt in Targets(al) ==> LeftSet(al + [a], pos) == LeftSet(al, pos)
    ensures a.tgt in Targets(al) ==> RightSet(al + [a], pos) == RightSet(al, pos)
    ensures a.tgt !in Targets(al) && a.src < pos ==>
              LeftSet(al + [a], pos) == LeftSet(al, pos) + {a.tgt} && RightSet(al + [a], pos) == RightSet(al, pos)
    ensures a.tgt !in Targets(al) && a.src >= pos ==>
              RightSet(al + [a], pos) == RightSet(al, pos) + {a.tgt} && LeftSet(al + [a], pos) == LeftSet(al, pos)
  {
    var al' := al + [a];
    assert forall k :: 0 <= k < |al| ==> al'[k] == al[k];
    assert al'[|al|] == a;
    assert forall k :: 0 <= k < |al| ==> (FirstMention(al', k) <==> FirstMention(al, k));
    assert FirstMention(al', |al|) <==> a.tgt !in Targets(al) by {
      if a.tgt in Targets(al) {
        var k :| 0 <= k < |al| && al[k].tgt == a.tgt;
        assert al'[k].tgt == al'[|al|].tgt;
      }
    }
  }

  /** The two sides never share a target word, and together they hold every
      target word of the alignment. */
  lemma {:induction false} SidesPartition(al: Alignment, pos: nat)
    ensures LeftSet(al, pos) !! RightSet(al, pos)
    ensures LeftSet(al, pos) + RightSet(al, pos) == Targets(al)
  {
    if al != [] {
      var init := al[..|al| - 1];
      SidesPartition(init, pos);
      assert init + [al[|al| - 1]] == al;
      SidesSnoc(init, al[|al| - 1], pos);
    }
  }

  /** One more point of the alignment, as the loop of `mapTags` sees it: its
      target word joins the left side when its source word is left of `pos`
      and the word is not on the right side yet, and symmetrically. */
  lemma SidesStep(al: Alignment, k: nat, pos: nat)
    requires k < |al|
    ensures var pre, a := al[..k], al[k];
            && LeftSet(al[..k + 1], pos)
                 == (if a.src < pos && a.tgt !in RightSet(pre, pos) then LeftSet(pre, pos) + {a.tgt} else LeftSet(pre, pos))
            && RightSet(al[..k + 1], pos)
                 == (if a.src >= pos && a.tgt !in LeftSet(pre, pos) then RightSet(pre, pos) + {a.tgt} else RightSet(pre, pos))
  {
    var pre, a := al[..k], al[k];
    assert al[..k + 1] == pre + [a];
    SidesSnoc(pre, a, pos);
    SidesPartition(pre, pos);
  }

  /** The loop of `mapTags` that fills `sourceLeftToken` and `sourceRightToken`:
      a target word is put on the side of the first point that mentions it. */
  method SplitSides(alignments: Alignment, sourcePosition: nat) returns (left: set<nat>, right: set<nat>)
    ensures left == LeftSet(alignments, sourcePosition)
    ensures right == RightSet(alignments, sourcePosition)
    ensures left !! right && left + right == Targets(alignments)
  {
    left, right := {}, {};
    var k := 0;
    while k < |alignments|
      invariant 0 <= k <= |alignments|
      invariant left == LeftSet(alignments[..k], sourcePosition)
      invariant right == RightSet(alignments[..k], sourcePosition)
    {
      var align := alignments[k];
      SidesStep(alignments, k, sourcePosition);
      if align.src < sourcePosition {
        if align.tgt !in right {
          left := left + {align.tgt};
        }
      } else {
        if align.tgt !in left {
          right := right + {align.tgt};
        }
      }
      k := k + 1;
    }
    assert alignments[..k] == alignments;
    SidesPartition(alignments, sourcePosition);
  }

  /** How many of the words `lo..hi-1` are in `s`. */
  function CountIn(s: set<nat>, lo: nat, hi: nat): nat
    decreases hi - lo
  {
    if lo >= hi then 0 else (if lo in s then 1 else 0) + CountIn(s, lo + 1, hi)
  }

  /** Counting one more word at the top end. */
  lemma {:induction false} CountInExtend(s: set<nat>, lo: nat, hi: nat)
    requires lo <= hi
    ensures CountIn(s, lo, hi + 1) == CountIn(s, lo, hi) + (if hi in s then 1 else 0)
    decreases hi - lo
  {
    if lo < hi {
      CountInExtend(s, lo + 1, hi);
    }
  }

  /** How many of the left-side words fall before gap `p` plus how many of
      the right-side words fall at or after it, among target words `0..n-1`. */
  function Score(left: set<nat>, right: set<nat>, n: nat, p: nat): nat
  {
    CountIn(left, 0, p) + CountIn(right, p, n)
  }

  /** The scores of the gaps `0..n`, in order. */
  function Scores(left: set<nat>, right: set<nat>, n: nat): (s: seq<nat>)
    ensures |s| == n + 1
  {
    seq(n + 1, q requires 0 <= q <= n => Score(left, right, n, q))
  }

  /** Entry `q` of the scores is the score of gap `q`. */
  lemma ScoreOfGap(left: set<nat>, right: set<nat>, n: nat, q: nat)
    requires q <= n
    ensures Scores(left, right, n)[q] == Score(left, right, n, q)
  {
  }

  /** The gap among `0..p` that the scan has chosen once it has scored gap
      `p`: the last gap that scored at least (opening tag) or more than
      (other tags) the gap chosen before it. */
  function BestUpTo(scores: seq<nat>, opening: bool, p: nat): (b: nat)
    requires p < |scores|
    ensures b <= p
  {
    if p == 0 then 0
    else
      var b := BestUpTo(scores, opening, p - 1);
      if (opening && scores[p] >= scores[b]) || (!opening && scores[p] > scores[b]) then p else b
  }

  /** The gap chosen among `0..p` is a maximum of `scores`: the right-most
      one for an opening tag and the left-most one otherwise. */
  lemma {:induction false} BestUpToIsBest(scores: seq<nat>, opening: bool, p: nat)
    requires p < |scores|
    ensures var b := BestUpTo(scores, opening, p);
            && (forall q :: 0 <= q <= p ==> scores[q] <= scores[b])
            && (opening ==> forall q :: b < q <= p ==> scores[q] < scores[b])
            && (!opening ==> forall q :: 0 <= q < b ==> scores[q] < scores[b])
  {
    if p > 0 {
      BestUpToIsBest(scores, opening, p - 1);
    }
  }

  /** `b` is the gap the scoring loop must choose among `0..|scores|-1`. */
  predicate IsBestGap(scores: seq<nat>, opening: bool, b: nat)
  {
    && b < |scores|
    && (forall q :: 0 <= q < |scores| ==> scores[q] <= scores[b])
    && (opening ==> forall q :: b < q < |scores| ==> scores[q] < scores[b])
    && (!opening ==> forall q :: 0 <= q < b ==> scores[q] < scores[b])
  }

  /** There is only one such gap. */
  lemma BestGapUnique(scores: seq<nat>, opening: bool, b1: nat, b2: nat)
    requires IsBestGap(scores, opening, b1) && IsBestGap(scores, opening, b2)
    ensures b1 == b2
  {
    assert scores[b1] <= scores[b2] && scores[b2] <= scores[b1];
  }

  /** The gap a tag treated as self-closing is given among `0..n`, when the
      target sentence has `n` words. */
  function SelfClosingGap(left: set<nat>, right: set<nat>, n: nat, opening: bool): (b: nat)
    ensures b <= n
    ensures IsBestGap(Scores(left, right, n), opening, b)
  {
    BestUpToIsBest(Scores(left, right, n), opening, n);
    BestUpTo(Scores(left, right, n), opening, n)
  }

  /** Before the scan the right-hand candidates are all the words. */
  lemma {:induction false} RightCountStart(right: set<nat>, targetRight: set<nat>, n: nat)
    requires forall x: nat :: x in targetRight <==> x < n
    ensures |right * targetRight| == CountIn(right, 0, n)
  {
    if n > 0 {
      var smaller := targetRight - {n - 1};
      RightCountStart(right, smaller, n - 1);
      CountInExtend(right, 0, n - 1);
      if n - 1 in right {
        assert right * targetRight == right * smaller + {n - 1};
      } else {
        assert right * targetRight == right * smaller;
      }
    }
  }

  /** Moving word `i` from the right-hand candidates to the left-hand ones. */
  lemma MoveLeft(left: set<nat>, right: set<nat>, targetLeft: set<nat>, targetRight: set<nat>, i: nat)
    requires i !in targetLeft && i in targetRight
    ensures |left * (targetLeft + {i})| == |left * targetLeft| + (if i in left then 1 else 0)
    ensures |right * (targetRight - {i})| == |right * targetRight| - (if i in right then 1 else 0)
  {
    if i in left {
      assert left * (targetLeft + {i}) == left * targetLeft + {i};
    } else {
      assert left * (targetLeft + {i}) == left * targetLeft;
    }
    if i in right {
      assert right * targetRight == right * (targetRight - {i}) + {i};
    } else {
      assert right * (targetRight - {i}) == right * targetRight;
    }
  }

  /** The left-hand candidates `0..i-1` grow by word `i`. */
  lemma GrowLeft(s: set<nat>, i: nat)
    requires forall x: nat :: x in s <==> x < i
    ensures forall x: nat :: x in s + {i} <==> x < i + 1
  {
  }

  /** The right-hand candidates `i..n-1` lose word `i`. */
  lemma ShrinkRight(s: set<nat>, i: nat, n: nat)
    requires forall x: nat :: x in s <==> i <= x < n
    ensures forall x: nat :: x in s - {i} <==> i + 1 <= x < n
  {
  }

  /** The candidate sets of the scoring scan before gap `i` is scored:
      `targetLeft` holds the words `0..i-1`, `targetRight` the words
      `i..n-1`, and their intersections with the sides count the side words
      in those ranges. */
  ghost predicate ScanState(left: set<nat>, right: set<nat>, targetLeft: set<nat>, targetRight: set<nat>, n: nat, i: nat)
  {
    && i <= n
    && (forall x: nat :: x in targetLeft <==> x < i)
    && (forall x: nat :: x in targetRight <==> i <= x < n)
    && |left * targetLeft| == CountIn(left, 0, i)
    && |right * targetRight| == CountIn(right, i, n)
  }

  /** One step of the scoring scan: word `i` moves from the right-hand
      candidates to the left-hand ones, and the two intersection sizes then
      add up to the score of gap `i + 1`. */
  lemma ScanMove(left: set<nat>, right: set<nat>, targetLeft: set<nat>, targetRight: set<nat>, n: nat, i: nat)
    requires i < n && ScanState(left, right, targetLeft, targetRight, n, i)
    ensures ScanState(left, right, targetLeft + {i}, targetRight - {i}, n, i + 1)
    ensures |left * (targetLeft + {i})| + |right * (targetRight - {i})| == Score(left, right, n, i + 1)
  {
    MoveLeft(left, right, targetLeft, targetRight, i);
    CountInExtend(left, 0, i);
    GrowLeft(targetLeft, i);
    ShrinkRight(targetRight, i, n);
  }

  /** The loop that puts every target word `0..n-1` into `targetRightToken`. */
  method AllWords(n: nat) returns (words: set<nat>)
    ensures forall x: nat :: x in words <==> x < n
  {
    words := {};
    var i := 0;
    while i < n
      invariant 0 <= i <= n
      invariant forall x: nat :: x in words <==> x < i
    {
      words := words + {i};
      i := i + 1;
    }
  }

  /** The start of one iteration of the scoring loop: word `i` moves from
      `targetRightToken` to `targetLeftToken`, and the sizes of the two
      intersections give the score of gap `i + 1`. */
  method ScoreNextGap(sourceLeftToken: set<nat>, sourceRightToken: set<nat>,
                      targetLeftToken: set<nat>, targetRightToken: set<nat>, n: nat, i: nat)
    returns (targetLeft': set<nat>, targetRight': set<nat>, score: nat)
    requires i < n && ScanState(sourceLeftToken, sourceRightToken, targetLeftToken, targetRightToken, n, i)
    ensures ScanState(sourceLeftToken, sourceRightToken, targetLeft', targetRight', n, i + 1)
    ensures score == Scores(sourceLeftToken, sourceRightToken, n)[i + 1]
  {
    ScoreOfGap(sourceLeftToken, sourceRightToken, n, i + 1);
    ScanMove(sourceLeftToken, sourceRightToken, targetLeftToken, targetRightToken, n, i);
    targetLeft' := targetLeftToken + {i};
    targetRight' := targetRightToken - {i};
    var leftTokenIntersection := sourceLeftToken * targetLeft';
    var rightTokenIntersection := sourceRightToken * targetRight';
    score := |leftTokenIntersection| + |rightTokenIntersection|;
  }

  /** The scoring loop of `mapTags`: gap 0 is scored first, then every gap
      `1..n` in turn (there is no early exit), moving words from the
      right-hand candidate set to the left-hand one. */
  method BestPosition(sourceLeftToken: set<nat>, sourceRightToken: set<nat>, n: nat, openingTag: bool)
    returns (bestPosition: nat)
    ensures bestPosition == SelfClosingGap(sourceLeftToken, sourceRightToken, n, openingTag)
  {
    ghost var scores := Scores(sourceLeftToken, sourceRightToken, n);
    var targetLeftToken: set<nat> := {};
    var targetRightToken := AllWords(n);
    var maxScore := |sourceRightToken * targetRightToken|;
    RightCountStart(sourceRightToken, targetRightToken, n);
    ScoreOfGap(sourceLeftToken, sourceRightToken, n, 0);
    bestPosition := 0;
    var actualPosition := 0;
    var i := 0;
    while i < n
      invariant 0 <= i <= n && actualPosition == i
      invariant ScanState(sourceLeftToken, sourceRightToken, targetLeftToken, targetRightToken, n, i)
      invariant |scores| == n + 1
      invariant bestPosition == BestUpTo(scores, openingTag, i)
      invariant maxScore == scores[bestPosition]
    {
      actualPosition := actualPosition + 1;
      var score;
      targetLeftToken, targetRightToken, score :=
        ScoreNextGap(sourceLeftToken, sourceRightToken, targetLeftToken, targetRightToken, n, i);
      assert score == scores[i + 1];
      if (openingTag && score >= maxScore) || (!openingTag && score > maxScore) {
        maxScore := score;
        bestPosition := actualPosition;
      }
      i := i + 1;
    }
  }
}
