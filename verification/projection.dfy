/** `XMLTagProjector.mapTags`: the target gap of every source tag, stated tag
    by tag (`Projected`), and the imperative projection that computes them
    all and returns them sorted. */
module TagProjection {
  import opened Model
  import opened TagMatching
  import opened Placement

  function Max(a: int, b: int): (r: int)
    ensures r >= a && r >= b && (r == a || r == b)
  {
    if a >= b then a else b
  }

  // ---------------------------------------------------------------------
  // The position of each tag, one tag at a time
  // ---------------------------------------------------------------------

  /** `tags[i]` has a closing partner and some source word inside the pair
      is aligned. */
  predicate AlignedPair(tags: seq<Tag>, al: Alignment, i: nat)
    requires i < |tags|
  {
    var c := Closer(tags, i);
    c != -1 && SpanMax(al, tags[i].position, tags[c].position) != -1
  }

  /** The gap `tags[j]` gets when it is treated as a self-closing tag. */
  function SelfPosition(tags: seq<Tag>, al: Alignment, n: nat, j: nat): (p: nat)
    requires j < |tags|
    ensures p <= n
  {
    var pos := tags[j].position;
    SelfClosingGap(LeftSet(al, pos), RightSet(al, pos), n, tags[j].IsOpening())
  }

  /** The target gap of source tag `j` in a target sentence of `n` words:
      - the closing partner of an aligned pair goes after the last target
        word aligned inside the pair, and its opening tag before the first;
      - the closing partner of an unaligned pair is placed as self-closing,
        but never before the place its opening tag was given;
      - every other tag is placed as self-closing. */
  function Projected(tags: seq<Tag>, al: Alignment, n: nat, j: nat): nat
    requires j < |tags|
  {
    var o := OpenerOf(tags, j);
    if o != -1 then
      if AlignedPair(tags, al, o) then SpanMax(al, tags[o].position, tags[j].position) + 1
      else Max(SelfPosition(tags, al, n, o), SelfPosition(tags, al, n, j))
    else if AlignedPair(tags, al, j) then SpanMin(al, tags[j].position, tags[Closer(tags, j)].position)
    else SelfPosition(tags, al, n, j)
  }

  /** A tag that closes another has no closing partner of its own, and a tag
      with a closing partner closes nothing. */
  lemma OpenerAndCloserExclusive(tags: seq<Tag>, j: nat)
    requires j < |tags|
    ensures OpenerOf(tags, j) != -1 ==> Closer(tags, j) == -1
    ensures Closer(tags, j) != -1 ==> OpenerOf(tags, j) == -1
  {
    if OpenerOf(tags, j) != -1 {
      CloserIsOpening(tags, OpenerOf(tags, j));
    }
  }

  /** Both tags of an aligned pair enclose the aligned target words: the
      opening tag goes to the least aligned target index and the closing
      tag just after the greatest. */
  lemma {:induction false} AlignedPairProjection(tags: seq<Tag>, al: Alignment, n: nat, i: nat)
    requires i < |tags| && AlignedPair(tags, al, i)
    ensures var c := Closer(tags, i);
            && Projected(tags, al, n, i) == SpanMin(al, tags[i].position, tags[c].position)
            && Projected(tags, al, n, c) == SpanMax(al, tags[i].position, tags[c].position) + 1
            && Projected(tags, al, n, i) < Projected(tags, al, n, c)
  {
    var c := Closer(tags, i);
    OpenerAndCloserExclusive(tags, i);
    assert OpenerOf(tags, c) == i;
    SpanMinAtMostMax(al, tags[i].position, tags[c].position);
  }

  /** A closing tag never lands before its opening partner. */
  lemma {:induction false} PairStaysOrdered(tags: seq<Tag>, al: Alignment, n: nat, i: nat)
    requires i < |tags| && Closer(tags, i) != -1
    ensures Projected(tags, al, n, i) <= Projected(tags, al, n, Closer(tags, i))
  {
    var c := Closer(tags, i);
    OpenerAndCloserExclusive(tags, i);
    assert OpenerOf(tags, c) == i;
    if AlignedPair(tags, al, i) {
      AlignedPairProjection(tags, al, n, i);
    }
  }

  /** With every aligned target index below `n`, every tag lands in a gap
      `0..n` of the target sentence. */
  lemma {:induction false} ProjectedInRange(tags: seq<Tag>, al: Alignment, n: nat, j: nat)
    requires j < |tags|
    requires forall k :: 0 <= k < |al| ==> al[k].tgt < n
    ensures Projected(tags, al, n, j) <= n
  {
    var o := OpenerOf(tags, j);
    if o != -1 && AlignedPair(tags, al, o) {
      var lo, hi := tags[o].position, tags[j].position;
      var k :| 0 <= k < |al| && InSpan(al[k], lo, hi) && al[k].tgt == SpanMax(al, lo, hi);
    } else if o == -1 && AlignedPair(tags, al, j) {
      var lo, hi := tags[j].position, tags[Closer(tags, j)].position;
      var k :| 0 <= k < |al| && InSpan(al[k], lo, hi) && al[k].tgt == SpanMin(al, lo, hi);
    }
  }

  // ---------------------------------------------------------------------
  // Projected tags and their order
  // ---------------------------------------------------------------------

  /** A projected tag together with where it came from. */
  datatype ExtendedTag = ExtendedTag(tag: Tag, sourcePosition: nat, sourceTagIndex: nat,
                                     targetTagIndex: nat, targetPosition: nat)
  {
    /** Compares the (projected) tag positions first, then the source tag indexes. */
    function CompareTo(other: ExtendedTag): (c: int)
      ensures c < 0 <==> (tag.position < other.tag.position
                         || (tag.position == other.tag.position && sourceTagIndex < other.sourceTagIndex))
      ensures c == 0 <==> (tag.position == other.tag.position && sourceTagIndex == other.sourceTagIndex)
    {
      var c := tag.position - other.tag.position;
      if c == 0 then sourceTagIndex - other.sourceTagIndex else c
    }
  }

  /** The projection of source tag `j`, as `mapTags` first records it. */
  function Expected(tags: seq<Tag>, al: Alignment, n: nat, j: nat): ExtendedTag
    requires j < |tags|
  {
    var p := Projected(tags, al, n, j);
    ExtendedTag(tags[j].MovedTo(p), tags[j].position, j, 0, p)
  }

  /** `a` is not after `b` in the order of `CompareTo`. */
  predicate Le(a: ExtendedTag, b: ExtendedTag)
  {
    a.tag.position < b.tag.position
    || (a.tag.position == b.tag.position && a.sourceTagIndex <= b.sourceTagIndex)
  }

  /** No element of `s` is after a later one. */
  predicate Sorted(s: seq<ExtendedTag>)
  {
    forall a, b :: 0 <= a < b < |s| ==> Le(s[a], s[b])
  }

  /** Putting `x` after the elements that are not after it and before the
      ones that are keeps a sorted list sorted. */
  lemma InsertSorted(sorted: seq<ExtendedTag>, j: nat, x: ExtendedTag)
    requires Sorted(sorted) && j <= |sorted|
    requires j > 0 ==> Le(sorted[j - 1], x)
    requires forall k :: j <= k < |sorted| ==> !Le(sorted[k], x)
    ensures Sorted(sorted[..j] + [x] + sorted[j..])
  {
    var r := sorted[..j] + [x] + sorted[j..];
    assert forall k :: 0 <= k < j ==> r[k] == sorted[k];
    assert forall k :: j < k < |r| ==> r[k] == sorted[k - 1];
    forall a, b | 0 <= a < b < |r| ensures Le(r[a], r[b]) {
      if b == j {
        assert Le(sorted[a], sorted[j - 1]);
      }
    }
  }

  /** One step of the sort: places `x` after the elements of `sorted` that
      are not after it. */
  method Insert(sorted: seq<ExtendedTag>, x: ExtendedTag) returns (r: seq<ExtendedTag>)
    requires Sorted(sorted)
    ensures Sorted(r)
    ensures multiset(r) == multiset(sorted) + multiset{x}
  {
    var j := |sorted|;
    while j > 0 && sorted[j - 1].CompareTo(x) > 0
      invariant 0 <= j <= |sorted|
      invariant forall k :: j <= k < |sorted| ==> !Le(sorted[k], x)
    {
      j := j - 1;
    }
    InsertSorted(sorted, j, x);
    r := sorted[..j] + [x] + sorted[j..];
    assert sorted == sorted[..j] + sorted[j..];
  }

  /** `Collections.sort` on the projected tags, by `CompareTo`. */
  method SortTags(list: seq<ExtendedTag>) returns (sorted: seq<ExtendedTag>)
    ensures Sorted(sorted)
    ensures multiset(sorted) == multiset(list)
  {
    sorted := [];
    var i := 0;
    while i < |list|
      invariant 0 <= i <= |list|
      invariant Sorted(sorted)
      invariant multiset(sorted) == multiset(list[..i])
    {
      assert list[..i + 1] == list[..i] + [list[i]];
      sorted := Insert(sorted, list[i]);
      i := i + 1;
    }
    assert list[..i] == list;
  }

  // ---------------------------------------------------------------------
  // The source indexes held by a list of projected tags
  // ---------------------------------------------------------------------

  function Indices(s: seq<ExtendedTag>): set<nat>
  {
    if s == [] then {} else Indices(s[..|s| - 1]) + {s[|s| - 1].sourceTagIndex}
  }

  predicate Distinct(s: seq<ExtendedTag>)
  {
    forall a, b :: 0 <= a < b < |s| ==> s[a].sourceTagIndex != s[b].sourceTagIndex
  }

  lemma {:induction false} IndicesMembers(s: seq<ExtendedTag>)
    ensures forall k :: 0 <= k < |s| ==> s[k].sourceTagIndex in Indices(s)
    ensures forall x :: x in Indices(s) ==> exists k :: 0 <= k < |s| && s[k].sourceTagIndex == x
  {
    if s != [] {
      IndicesMembers(s[..|s| - 1]);
    }
  }

  /** A list holds as many distinct source indexes as it has elements
      exactly when no index repeats. */
  lemma {:induction false} IndicesCard(s: seq<ExtendedTag>)
    ensures |Indices(s)| <= |s|
    ensures |Indices(s)| == |s| <==> Distinct(s)
  {
    if s != [] {
      var init := s[..|s| - 1];
      var last := s[|s| - 1].sourceTagIndex;
      IndicesCard(init);
      IndicesMembers(init);
      if last in Indices(init) {
        var k :| 0 <= k < |init| && init[k].sourceTagIndex == last;
        assert s[k] == init[k];
      } else {
        DistinctSnocIff(init, s[|s| - 1]);
        assert init + [s[|s| - 1]] == s;
      }
    }
  }

  /** Appending an element whose index is new keeps the list distinct. */
  lemma DistinctSnocIff(init: seq<ExtendedTag>, e: ExtendedTag)
    requires forall k :: 0 <= k < |init| ==> init[k].sourceTagIndex != e.sourceTagIndex
    ensures Distinct(init + [e]) <==> Distinct(init)
  {
    var s := init + [e];
    if Distinct(init) {
      forall a, b | 0 <= a < b < |s| ensures s[a].sourceTagIndex != s[b].sourceTagIndex {
        if b < |init| {
          assert s[a] == init[a] && s[b] == init[b];
        } else {
          assert s[a] == init[a];
        }
      }
    }
    if Distinct(s) {
      forall a, b | 0 <= a < b < |init| ensures init[a].sourceTagIndex != init[b].sourceTagIndex {
        assert s[a] == init[a] && s[b] == init[b];
      }
    }
  }

  /** Lists with the same elements hold the same source indexes. */
  lemma SameIndices(s: seq<ExtendedTag>, t: seq<ExtendedTag>)
    requires multiset(s) == multiset(t)
    ensures Indices(s) == Indices(t)
  {
    IndicesMembers(s);
    IndicesMembers(t);
    forall x | x in Indices(s) ensures x in Indices(t) {
      var k :| 0 <= k < |s| && s[k].sourceTagIndex == x;
      assert s[k] in multiset(t);
    }
    forall x | x in Indices(t) ensures x in Indices(s) {
      var k :| 0 <= k < |t| && t[k].sourceTagIndex == x;
      assert t[k] in multiset(s);
    }
  }

  /** The naturals below `m` form a set of `m` elements. */
  lemma {:induction false} BelowCard(s: set<nat>, m: nat)
    requires forall x: nat :: x in s <==> x < m
    ensures |s| == m
  {
    if m > 0 {
      BelowCard(s - {m - 1}, m - 1);
    }
  }

  // ---------------------------------------------------------------------
  // mapTags
  // ---------------------------------------------------------------------

  /** Once `mapTags` has looked at the tags `0..t-1`, tag `x` has been given
      its place: it was looked at, or it closes an aligned pair opened before `t`. */
  predicate Placed(tags: seq<Tag>, al: Alignment, t: nat, x: nat)
    requires x < |tags|
  {
    x < t
    || (var o := OpenerOf(tags, x); o != -1 && o < t && AlignedPair(tags, al, o))
  }

  /** Looking at tag `t` places `t` and, when it opens an aligned pair, its partner. */
  lemma PlacedStep(tags: seq<Tag>, al: Alignment, t: nat)
    requires t < |tags|
    ensures forall x :: 0 <= x < |tags| ==>
              (Placed(tags, al, t + 1, x) <==>
                 Placed(tags, al, t, x) || x == t || (AlignedPair(tags, al, t) && x == Closer(tags, t)))
  {
    forall x | 0 <= x < |tags|
      ensures Placed(tags, al, t + 1, x) <==>
                Placed(tags, al, t, x) || x == t || (AlignedPair(tags, al, t) && x == Closer(tags, t))
    {
      var o := OpenerOf(tags, x);
      if AlignedPair(tags, al, t) && x == Closer(tags, t) {
        assert o == t;
      }
      if o == t && AlignedPair(tags, al, t) {
        assert Closer(tags, t) == x;
      }
    }
  }

  /** The entry in `closing2opening` for closing tag `c`: the self-closing
      place of its unaligned opening partner, looked at before `t`. */
  predicate Recorded(tags: seq<Tag>, al: Alignment, n: nat, t: nat, c: nat, v: nat)
    requires c < |tags|
  {
    var o := OpenerOf(tags, c);
    o != -1 && o < t && !AlignedPair(tags, al, o) && v == SelfPosition(tags, al, n, o)
  }

  /** `alignedTags` holds exactly the tags placed once `0..t-1` have been looked at. */
  ghost predicate PlacedSet(tags: seq<Tag>, al: Alignment, t: nat, alignedTags: set<nat>)
  {
    forall x: nat :: x in alignedTags <==> x < |tags| && Placed(tags, al, t, x)
  }

  /** Every entry of `closing2opening` is the place of an unaligned opening
      tag looked at before `t`, under its closing partner. */
  predicate AllRecorded(tags: seq<Tag>, al: Alignment, n: nat, t: nat, closing2opening: map<nat, nat>)
  {
    forall c :: c in closing2opening ==> c < |tags| && Recorded(tags, al, n, t, c, closing2opening[c])
  }

  /** Every unaligned opening tag looked at before `t` has left its place
      under its closing partner. */
  predicate Remembered(tags: seq<Tag>, al: Alignment, t: nat, closing2opening: map<nat, nat>)
    requires t <= |tags|
  {
    forall i :: 0 <= i < t && Closer(tags, i) != -1 && !AlignedPair(tags, al, i) ==>
      Closer(tags, i) in closing2opening
  }

  /** Entry `j` of `want` is the projection of source tag `j`. */
  predicate Indexed(want: seq<ExtendedTag>)
  {
    forall j :: 0 <= j < |want| ==> want[j].sourceTagIndex == j
  }

  /** Every entry of `list` is the wanted projection of its own source tag. */
  predicate Matches(want: seq<ExtendedTag>, list: seq<ExtendedTag>)
  {
    forall k :: 0 <= k < |list| ==>
      list[k].sourceTagIndex < |want| && list[k] == want[list[k].sourceTagIndex]
  }

  /** The projections of all source tags, indexed by source tag. */
  ghost function Wanted(tags: seq<Tag>, al: Alignment, n: nat): (want: seq<ExtendedTag>)
    ensures |want| == |tags| && Indexed(want)
    ensures forall j :: 0 <= j < |tags| ==> want[j] == Expected(tags, al, n, j)
  {
    seq(|tags|, j requires 0 <= j < |tags| => Expected(tags, al, n, j))
  }

  /** What `mapTags` knows after looking at the tags `0..t-1`: `list` holds
      exactly the placed tags, once each and at their projected gap, and
      `closing2opening` holds the place of every unaligned opening tag
      looked at, under its closing partner. */
  ghost predicate Progress(tags: seq<Tag>, al: Alignment, n: nat, want: seq<ExtendedTag>, t: nat,
                           list: seq<ExtendedTag>, alignedTags: set<nat>, closing2opening: map<nat, nat>)
  {
    && t <= |tags| && |want| == |tags|
    && PlacedSet(tags, al, t, alignedTags)
    && Matches(want, list)
    && Indices(list) == alignedTags && Distinct(list)
    && AllRecorded(tags, al, n, t, closing2opening)
    && Remembered(tags, al, t, closing2opening)
  }

  lemma IndicesSnoc(s: seq<ExtendedTag>, e: ExtendedTag)
    ensures Indices(s + [e]) == Indices(s) + {e.sourceTagIndex}
  {
    assert (s + [e])[..|s|] == s;
  }

  /** Appending the projection of a tag not yet in the list. */
  lemma ListSnoc(want: seq<ExtendedTag>, list: seq<ExtendedTag>, j: nat)
    requires Matches(want, list) && Distinct(list) && Indexed(want)
    requires j < |want| && j !in Indices(list)
    ensures Matches(want, list + [want[j]]) && Distinct(list + [want[j]])
    ensures Indices(list + [want[j]]) == Indices(list) + {j}
  {
    IndicesMembers(list);
    IndicesSnoc(list, want[j]);
    var list' := list + [want[j]];
    forall k | 0 <= k < |list'|
      ensures list'[k].sourceTagIndex < |want| && list'[k] == want[list'[k].sourceTagIndex]
    {
      if k < |list| {
        assert list'[k] == list[k];
      }
    }
  }

  /** A tag already placed closes a pair and is skipped. */
  lemma {:induction false} PlacedSkip(tags: seq<Tag>, al: Alignment, t: nat, alignedTags: set<nat>)
    requires PlacedSet(tags, al, t, alignedTags) && t < |tags| && t in alignedTags
    ensures PlacedSet(tags, al, t + 1, alignedTags) && Closer(tags, t) == -1
  {
    PlacedStep(tags, al, t);
    OpenerAndCloserExclusive(tags, t);
  }

  /** The opening tag of an aligned pair is placed together with its partner. */
  lemma {:induction false} PlacedPair(tags: seq<Tag>, al: Alignment, t: nat, alignedTags: set<nat>)
    requires PlacedSet(tags, al, t, alignedTags) && t < |tags| && t !in alignedTags
    requires AlignedPair(tags, al, t)
    ensures Closer(tags, t) !in alignedTags
    ensures PlacedSet(tags, al, t + 1, alignedTags + {t, Closer(tags, t)})
  {
    PlacedStep(tags, al, t);
    assert OpenerOf(tags, Closer(tags, t)) == t;
    assert !Placed(tags, al, t, Closer(tags, t));
  }

  /** A tag treated as self-closing is placed alone. */
  lemma {:induction false} PlacedSingle(tags: seq<Tag>, al: Alignment, t: nat, alignedTags: set<nat>)
    requires PlacedSet(tags, al, t, alignedTags) && t < |tags|
    requires !AlignedPair(tags, al, t)
    ensures PlacedSet(tags, al, t + 1, alignedTags + {t})
  {
    PlacedStep(tags, al, t);
  }

  /** `closing2opening` is left alone when tag `t` records nothing. */
  lemma {:induction false} RecordsKept(tags: seq<Tag>, al: Alignment, n: nat, t: nat, c2o: map<nat, nat>)
    requires t < |tags| && AllRecorded(tags, al, n, t, c2o) && Remembered(tags, al, t, c2o)
    requires Closer(tags, t) == -1 || AlignedPair(tags, al, t)
    ensures AllRecorded(tags, al, n, t + 1, c2o) && Remembered(tags, al, t + 1, c2o)
  {
  }

  /** A tag treated as self-closing gets its own self-closing place, or, for
      the closing partner of an unaligned pair, the later of that place and
      the one recorded for its opening partner. */
  lemma {:induction false} SinglePlace(tags: seq<Tag>, al: Alignment, n: nat, t: nat,
                                       alignedTags: set<nat>, c2o: map<nat, nat>)
    requires t < |tags| && PlacedSet(tags, al, t, alignedTags) && t !in alignedTags
    requires AllRecorded(tags, al, n, t, c2o) && Remembered(tags, al, t, c2o)
    requires !AlignedPair(tags, al, t)
    ensures t in c2o ==> Closer(tags, t) == -1
                         && Projected(tags, al, n, t) == Max(c2o[t], SelfPosition(tags, al, n, t))
    ensures t !in c2o ==> Projected(tags, al, n, t) == SelfPosition(tags, al, n, t)
  {
    OpenerAndCloserExclusive(tags, t);
  }

  /** An unaligned opening tag records its place under its closing partner. */
  lemma {:induction false} RecordsAdded(tags: seq<Tag>, al: Alignment, n: nat, t: nat, c2o: map<nat, nat>)
    requires t < |tags| && AllRecorded(tags, al, n, t, c2o) && Remembered(tags, al, t, c2o)
    requires Closer(tags, t) != -1 && !AlignedPair(tags, al, t)
    ensures var c2o' := c2o[Closer(tags, t) := SelfPosition(tags, al, n, t)];
            AllRecorded(tags, al, n, t + 1, c2o') && Remembered(tags, al, t + 1, c2o')
  {
    var c := Closer(tags, t);
    assert OpenerOf(tags, c) == t;
    var c2o' := c2o[c := SelfPosition(tags, al, n, t)];
    assert Recorded(tags, al, n, t + 1, c, c2o'[c]);
  }

  /** Placing an aligned pair: both projections join the list, both tags
      join `alignedTags`, and `closing2opening` is left alone. */
  lemma PairStep(tags: seq<Tag>, al: Alignment, n: nat, want: seq<ExtendedTag>, t: nat,
                 list: seq<ExtendedTag>, alignedTags: set<nat>, c2o: map<nat, nat>)
    requires want == Wanted(tags, al, n)
    requires t < |tags| && t !in alignedTags && AlignedPair(tags, al, t)
    requires Progress(tags, al, n, want, t, list, alignedTags, c2o)
    ensures Progress(tags, al, n, want, t + 1, list + [want[t]] + [want[Closer(tags, t)]],
                     alignedTags + {t, Closer(tags, t)}, c2o)
  {
    var c := Closer(tags, t);
    PlacedPair(tags, al, t, alignedTags);
    RecordsKept(tags, al, n, t, c2o);
    ListSnoc(want, list, t);
    ListSnoc(want, list + [want[t]], c);
    assert alignedTags + {t} + {c} == alignedTags + {t, c};
  }

  /** Placing a tag as self-closing: its projection joins the list, it joins
      `alignedTags`, and an unaligned opening tag records its place under its
      closing partner. Its projected place is its self-closing place,
      clamped after the place recorded for it, if any. */
  lemma SingleStep(tags: seq<Tag>, al: Alignment, n: nat, want: seq<ExtendedTag>, t: nat,
                   list: seq<ExtendedTag>, alignedTags: set<nat>, c2o: map<nat, nat>, c2o': map<nat, nat>)
    requires want == Wanted(tags, al, n)
    requires t < |tags| && t !in alignedTags && !AlignedPair(tags, al, t)
    requires Progress(tags, al, n, want, t, list, alignedTags, c2o)
    requires c2o' == if t in c2o then c2o
                     else if Closer(tags, t) != -1 then c2o[Closer(tags, t) := SelfPosition(tags, al, n, t)]
                     else c2o
    ensures Projected(tags, al, n, t)
              == if t in c2o then Max(c2o[t], SelfPosition(tags, al, n, t)) else SelfPosition(tags, al, n, t)
    ensures Progress(tags, al, n, want, t + 1, list + [want[t]], alignedTags + {t}, c2o')
  {
    SinglePlace(tags, al, n, t, alignedTags, c2o);
    PlacedSingle(tags, al, t, alignedTags);
    if t !in c2o && Closer(tags, t) != -1 {
      RecordsAdded(tags, al, n, t, c2o);
    } else {
      RecordsKept(tags, al, n, t, c2o);
    }
    ListSnoc(want, list, t);
  }

  /** At the end of the loop every source tag is in the list exactly once. */
  lemma {:induction false} ProgressDone(tags: seq<Tag>, al: Alignment, alignedTags: set<nat>, list: seq<ExtendedTag>)
    requires PlacedSet(tags, al, |tags|, alignedTags) && Indices(list) == alignedTags && Distinct(list)
    ensures |list| == |tags|
    ensures forall x: nat :: x in Indices(list) <==> x < |tags|
  {
    BelowCard(alignedTags, |tags|);
    IndicesCard(list);
  }

  /** Sorting a list that holds every wanted projection once yields a
      strictly ordered list that still does. */
  lemma {:induction false} SortedProjection(want: seq<ExtendedTag>, list: seq<ExtendedTag>, sorted: seq<ExtendedTag>)
    requires multiset(sorted) == multiset(list) && Sorted(sorted)
    requires |list| == |want| && Matches(want, list) && Distinct(list)
    ensures |sorted| == |want| && Indices(sorted) == Indices(list)
    ensures Matches(want, sorted)
    ensures forall a, b :: 0 <= a < b < |sorted| ==> sorted[a].CompareTo(sorted[b]) < 0
  {
    assert |sorted| == |multiset(sorted)| == |list|;
    SameIndices(sorted, list);
    IndicesCard(list);
    IndicesCard(sorted);
    forall k | 0 <= k < |sorted|
      ensures sorted[k].sourceTagIndex < |want| && sorted[k] == want[sorted[k].sourceTagIndex]
    {
      assert sorted[k] in multiset(list);
    }
  }

  /** The body of the main loop of `mapTags` for a tag not placed yet: an
      opening tag with an aligned pair encloses the aligned target words
      together with its partner; any other tag is placed as self-closing,
      clamped after the place recorded for its opening partner, and an
      unaligned opening tag records its place for its closing partner. */
  method PlaceTag(sourceTags: seq<Tag>, n: nat, alignments: Alignment, ghost want: seq<ExtendedTag>, tagIndex: nat,
                  list: seq<ExtendedTag>, alignedTags: set<nat>, closing2opening: map<nat, nat>)
    returns (list': seq<ExtendedTag>, alignedTags': set<nat>, closing2opening': map<nat, nat>)
    requires want == Wanted(sourceTags, alignments, n)
    requires tagIndex < |sourceTags| && tagIndex !in alignedTags
    requires Progress(sourceTags, alignments, n, want, tagIndex, list, alignedTags, closing2opening)
    ensures Progress(sourceTags, alignments, n, want, tagIndex + 1, list', alignedTags', closing2opening')
  {
    list', alignedTags', closing2opening' := list, alignedTags, closing2opening;
    var sourceTag := sourceTags[tagIndex];
    var sourcePosition := sourceTag.position;
    var singleTag := false;
    var closingTagIndex := GetClosingTagIndex(sourceTag, tagIndex, sourceTags);
    if closingTagIndex != -1 {
      var closingTag := sourceTags[closingTagIndex];
      var closePosition := closingTag.position;
      var minPos, maxPos := AlignedSpan(alignments, sourcePosition, closePosition);
      if maxPos == -1 {
        singleTag := true;
      } else {
        maxPos := maxPos + 1;
        PairStep(sourceTags, alignments, n, want, tagIndex, list, alignedTags, closing2opening);
        AlignedPairProjection(sourceTags, alignments, n, tagIndex);
        assert want[tagIndex] == ExtendedTag(sourceTag.MovedTo(minPos), sourceTag.position, tagIndex, 0, minPos);
        assert want[closingTagIndex] == ExtendedTag(closingTag.MovedTo(maxPos), closingTag.position, closingTagIndex, 0, maxPos);
        list' := list' + [ExtendedTag(sourceTag.MovedTo(minPos), sourceTag.position, tagIndex, 0, minPos)];
        list' := list' + [ExtendedTag(closingTag.MovedTo(maxPos), closingTag.position, closingTagIndex, 0, maxPos)];
        alignedTags' := alignedTags' + {tagIndex, closingTagIndex};
      }
    } else {
      singleTag := true;
    }
    if singleTag {
      var sourceLeftToken, sourceRightToken := SplitSides(alignments, sourcePosition);
      var openingTag := sourceTag.IsOpening();
      var bestPosition := BestPosition(sourceLeftToken, sourceRightToken, n, openingTag);
      if tagIndex in closing2opening' {
        bestPosition := Max(closing2opening'[tagIndex], bestPosition);
      } else if closingTagIndex != -1 {
        closing2opening' := closing2opening'[closingTagIndex := bestPosition];
      }
      SingleStep(sourceTags, alignments, n, want, tagIndex, list, alignedTags, closing2opening, closing2opening');
      assert want[tagIndex] == ExtendedTag(sourceTag.MovedTo(bestPosition), sourceTag.position, tagIndex, 0, bestPosition);
      list' := list' + [ExtendedTag(sourceTag.MovedTo(bestPosition), sourceTag.position, tagIndex, 0, bestPosition)];
      alignedTags' := alignedTags' + {tagIndex};
    }
  }

  /** `ext` is what `mapTags` returns for `sourceTags`, `n` target words and
      `al`: one entry per source tag, at its projected gap, strictly ordered
      by (position, source tag index) and numbered in that order. */
  ghost predicate IsProjection(sourceTags: seq<Tag>, n: nat, al: Alignment, ext: seq<ExtendedTag>)
  {
    && |ext| == |sourceTags|
    && (forall j: nat :: j in Indices(ext) <==> j < |sourceTags|)
    && (forall k :: 0 <= k < |ext| ==>
          ext[k].sourceTagIndex < |sourceTags|
          && ext[k] == Expected(sourceTags, al, n, ext[k].sourceTagIndex).(targetTagIndex := k))
    && (forall a, b :: 0 <= a < b < |ext| ==> ext[a].CompareTo(ext[b]) < 0)
  }

  /** `mapTags` on source tags `sourceTags`, a target sentence of `n` words
      and `alignments`: every source tag is projected once, to the gap
      `Projected` states, and the projected tags come out sorted by
      (position, source tag index) and numbered in that order. */
  method MapTags(sourceTags: seq<Tag>, n: nat, alignments: Alignment)
    returns (translationTags: seq<ExtendedTag>, result: seq<Tag>)
    ensures |translationTags| == |sourceTags| && |result| == |sourceTags|
    ensures forall j: nat :: j in Indices(translationTags) <==> j < |sourceTags|
    ensures forall k :: 0 <= k < |translationTags| ==>
              translationTags[k].sourceTagIndex < |sourceTags|
              && translationTags[k] == Expected(sourceTags, alignments, n, translationTags[k].sourceTagIndex).(targetTagIndex := k)
    ensures forall a, b :: 0 <= a < b < |translationTags| ==> translationTags[a].CompareTo(translationTags[b]) < 0
    ensures forall k :: 0 <= k < |result| ==> result[k] == translationTags[k].tag
  {
    ghost var want := Wanted(sourceTags, alignments, n);
    var list: seq<ExtendedTag> := [];
    var closing2opening: map<nat, nat> := map[];
    var alignedTags: set<nat> := {};
    var tagIndex := 0;
    while tagIndex < |sourceTags|
      invariant Progress(sourceTags, alignments, n, want, tagIndex, list, alignedTags, closing2opening)
    {
      if tagIndex in alignedTags {
        // already placed as the closing partner of an aligned pair
        PlacedSkip(sourceTags, alignments, tagIndex, alignedTags);
        RecordsKept(sourceTags, alignments, n, tagIndex, closing2opening);
      } else {
        list, alignedTags, closing2opening :=
          PlaceTag(sourceTags, n, alignments, want, tagIndex, list, alignedTags, closing2opening);
      }
      tagIndex := tagIndex + 1;
    }
    ProgressDone(sourceTags, alignments, alignedTags, list);

    var sorted := SortTags(list);
    SortedProjection(want, list, sorted);

    translationTags, result := NumberTags(sorted);
  }

  /** The end of `mapTags`: numbers the sorted tags in order and collects
      the tags themselves. */
  method NumberTags(sorted: seq<ExtendedTag>) returns (numbered: seq<ExtendedTag>, result: seq<Tag>)
    ensures |numbered| == |sorted| && |result| == |sorted|
    ensures forall k :: 0 <= k < |sorted| ==> numbered[k] == sorted[k].(targetTagIndex := k)
    ensures forall k :: 0 <= k < |sorted| ==> result[k] == numbered[k].tag
    ensures Indices(numbered) == Indices(sorted)
  {
    numbered := sorted;
    var i := 0;
    while i < |numbered|
      invariant 0 <= i <= |numbered| == |sorted|
      invariant forall k :: 0 <= k < |sorted| ==>
                  numbered[k] == sorted[k].(targetTagIndex := if k < i then k else sorted[k].targetTagIndex)
    {
      numbered := numbered[i := numbered[i].(targetTagIndex := i)];
      i := i + 1;
    }
    IndicesMembers(sorted);
    IndicesMembers(numbered);

    result := [];
    i := 0;
    while i < |numbered|
      invariant 0 <= i <= |numbered|
      invariant |result| == i
      invariant forall k :: 0 <= k < i ==> result[k] == numbered[k].tag
    {
      result := result + [numbered[i].tag];
      i := i + 1;
    }
  }
}

module ProjectionExample {
  import opened Model
  import opened TagMatching
  import opened Placement
  import opened TagProjection

  /** The sentence of the `main` example: `<i>` before word 3 and `</i>`
      before word 4 of "It is often *99***1# ." */
  function ExampleTags(): seq<Tag>
  {
    [Tag("i", Opening, 3, true, None), Tag("i", Closing, 4, false, None)]
  }

  /** Its alignment with "Spesso corrisponde a *99***1# ." */
  function ExampleAlignment(): Alignment
  {
    [AlignPoint(1, 1), AlignPoint(1, 2), AlignPoint(2, 0), AlignPoint(3, 3), AlignPoint(4, 4)]
  }

  /** Only the point (3, 3) lies inside the pair, so `<i>` goes to gap 3 and
      `</i>` to gap 4 of the five target words. */
  lemma MainExample()
    ensures Projected(ExampleTags(), ExampleAlignment(), 5, 0) == 3
    ensures Projected(ExampleTags(), ExampleAlignment(), 5, 1) == 4
  {
    var tags, al := ExampleTags(), ExampleAlignment();
    assert Depth(tags, 0, 1) == 0;
    assert Closer(tags, 0) == 1;
    assert SpanMax(al[..0], 3, 4) == -1 && SpanMin(al[..0], 3, 4) == -1;
    assert al[..1][..0] == al[..0];
    assert SpanMax(al[..1], 3, 4) == -1 && SpanMin(al[..1], 3, 4) == -1;
    assert al[..2][..1] == al[..1];
    assert SpanMax(al[..2], 3, 4) == -1 && SpanMin(al[..2], 3, 4) == -1;
    assert al[..3][..2] == al[..2];
    assert SpanMax(al[..3], 3, 4) == -1 && SpanMin(al[..3], 3, 4) == -1;
    assert al[..4][..3] == al[..3];
    assert SpanMax(al[..4], 3, 4) == 3 && SpanMin(al[..4], 3, 4) == 3;
    assert al[..4] == al[..|al| - 1];
    assert SpanMax(al, 3, 4) == 3 && SpanMin(al, 3, 4) == 3;
    AlignedPairProjection(tags, al, 5, 0);
  }
}
