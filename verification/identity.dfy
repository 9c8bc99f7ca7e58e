/** The projection under the identity alignment: when source and target
    have the same `n` words and word `i` is aligned to word `i`, every tag
    keeps its own gap. */
module IdentityProjection {
  import opened Model
  import opened TagMatching
  import opened Placement
  import opened TagProjection

  /** The alignment `{i, i}` for every word `i` below `n`, in order. */
  function Identity(n: nat): (al: Alignment)
    ensures |al| == n && forall k :: 0 <= k < n ==> al[k] == AlignPoint(k, k)
  {
    seq(n, k requires 0 <= k < n => AlignPoint(k, k))
  }

  /** Tag positions never decrease along the tag array and never pass the
      last gap `n`. */
  predicate SortedWithin(tags: seq<Tag>, n: nat)
  {
    && (forall j :: 0 <= j < |tags| ==> tags[j].position <= n)
    && (forall a, b :: 0 <= a < b < |tags| ==> tags[a].position <= tags[b].position)
  }

  /** Inside `[lo, hi)` the identity alignment reaches exactly the target
      words `lo..hi-1`. */
  lemma IdentitySpan(n: nat, lo: nat, hi: nat)
    requires lo <= hi <= n
    ensures SpanMax(Identity(n), lo, hi) == (if lo < hi then hi - 1 else -1)
    ensures SpanMin(Identity(n), lo, hi) == (if lo < hi then lo else -1)
  {
    var al := Identity(n);
    if lo < hi {
      assert InSpan(al[hi - 1], lo, hi) && InSpan(al[lo], lo, hi);
    } else {
      assert forall k :: 0 <= k < |al| ==> !InSpan(al[k], lo, hi);
    }
  }

  /** Under the identity alignment the left side of `pos` is the words
      before it and the right side the words from it on. */
  lemma IdentitySides(n: nat, pos: nat)
    ensures forall x: nat :: x in LeftSet(Identity(n), pos) <==> x < pos && x < n
    ensures forall x: nat :: x in RightSet(Identity(n), pos) <==> pos <= x < n
  {
    var al := Identity(n);
    assert forall k :: 0 <= k < n ==> FirstMention(al, k);
    forall x: nat | x < pos && x < n
      ensures x in LeftSet(al, pos)
    {
      assert al[x].tgt == x;
    }
    forall x: nat | pos <= x < n
      ensures x in RightSet(al, pos)
    {
      assert al[x].tgt == x;
    }
  }

  /** Counting the words of `[lo, hi)` that lie in a set which, over that
      range, is the interval `[a, b)`. */
  lemma {:induction false} CountInInterval(s: set<nat>, lo: nat, hi: nat, a: nat, b: nat)
    requires forall x: nat :: lo <= x < hi ==> (x in s <==> a <= x < b)
    ensures CountIn(s, lo, hi) == Max(0, Min(hi, b) - Max(lo, a))
    decreases hi - lo
  {
    if lo < hi {
      CountInInterval(s, lo + 1, hi, a, b);
    }
  }

  function Min(a: int, b: int): int
  {
    if a <= b then a else b
  }

  /** Under the identity alignment gap `q` scores `n - |pos - q|`. */
  lemma IdentityScore(n: nat, pos: nat, q: nat)
    requires pos <= n && q <= n
    ensures Score(LeftSet(Identity(n), pos), RightSet(Identity(n), pos), n, q)
              == n - (if pos <= q then q - pos else pos - q)
  {
    var left, right := LeftSet(Identity(n), pos), RightSet(Identity(n), pos);
    IdentitySides(n, pos);
    CountInInterval(left, 0, q, 0, pos);
    CountInInterval(right, q, n, pos, n);
  }

  /** A tag placed as self-closing keeps its own gap: that gap scores `n`
      and every other gap scores less. */
  lemma IdentitySelfPosition(tags: seq<Tag>, n: nat, j: nat)
    requires j < |tags| && tags[j].position <= n
    ensures SelfPosition(tags, Identity(n), n, j) == tags[j].position
  {
    var pos := tags[j].position;
    var left, right := LeftSet(Identity(n), pos), RightSet(Identity(n), pos);
    var scores := Scores(left, right, n);
    forall q | 0 <= q < |scores|
      ensures scores[q] == n - (if pos <= q then q - pos else pos - q)
    {
      ScoreOfGap(left, right, n, q);
      IdentityScore(n, pos, q);
    }
    assert IsBestGap(scores, tags[j].IsOpening(), pos);
    BestGapUnique(scores, tags[j].IsOpening(), pos, SelfPosition(tags, Identity(n), n, j));
  }

  /** With the identity alignment and tags in gap order, every tag is
      projected onto its own gap. */
  lemma IdentityProjectsInPlace(tags: seq<Tag>, n: nat, j: nat)
    requires SortedWithin(tags, n) && j < |tags|
    ensures Projected(tags, Identity(n), n, j) == tags[j].position
  {
    var al := Identity(n);
    var o := OpenerOf(tags, j);
    IdentitySelfPosition(tags, n, j);
    if o != -1 {
      IdentitySpan(n, tags[o].position, tags[j].position);
      IdentitySelfPosition(tags, n, o);
    } else if Closer(tags, j) != -1 {
      IdentitySpan(n, tags[j].position, tags[Closer(tags, j)].position);
    }
  }

  /** So `mapTags` under the identity alignment leaves every tag in the gap
      it had in the source. */
  lemma IdentityMapTags(tags: seq<Tag>, n: nat, ext: seq<ExtendedTag>)
    requires SortedWithin(tags, n) && IsProjection(tags, n, Identity(n), ext)
    ensures forall k :: 0 <= k < |ext| ==> ext[k].tag == tags[ext[k].sourceTagIndex]
  {
    forall k | 0 <= k < |ext|
      ensures ext[k].tag == tags[ext[k].sourceTagIndex]
    {
      IdentityProjectsInPlace(tags, n, ext[k].sourceTagIndex);
    }
  }
}
