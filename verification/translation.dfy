/** `XMLTagProjector.call` and `simpleSpaceAnalysis`: a translation whose tags
    are projected from its source sentence and whose whitespace is then tidied
    along the merged stream of words and tags. */
module Projector {
  import opened Model
  import opened TagProjection

  // ---------------------------------------------------------------------
  // The merged stream of words and tags
  // ---------------------------------------------------------------------

  /** A token of a translation: word `i` or tag `j`. */
  datatype Ref = W(i: nat) | T(j: nat)

  predicate ValidRef(n: nat, m: nat, r: Ref)
  {
    if r.W? then r.i < n else r.j < m
  }

  /** The words `wi..n-1` merged with the tags `tj..` whose positions are
      `pos`: a tag comes out before every word at or after its gap, and the
      tags left over after the last word come out at the end. Each word and
      each tag comes out once, words in order and tags in order. */
  function Merge(n: nat, pos: seq<nat>, wi: nat, tj: nat): (r: seq<Ref>)
    requires wi <= n && tj <= |pos|
    ensures |r| == (n - wi) + (|pos| - tj)
    ensures forall k :: 0 <= k < |r| ==> ValidRef(n, |pos|, r[k])
    ensures forall k :: 0 <= k < |r| ==> (r[k].W? ==> wi <= r[k].i) && (r[k].T? ==> tj <= r[k].j)
    decreases (n - wi) + (|pos| - tj)
  {
    if tj < |pos| && (wi == n || pos[tj] <= wi) then [T(tj)] + Merge(n, pos, wi, tj + 1)
    else if wi < n then [W(wi)] + Merge(n, pos, wi + 1, tj)
    else []
  }

  /** Every word and every tag is in the merge. */
  lemma {:induction false} MergeCovers(n: nat, pos: seq<nat>, wi: nat, tj: nat)
    requires wi <= n && tj <= |pos|
    ensures forall i :: wi <= i < n ==> W(i) in Merge(n, pos, wi, tj)
    ensures forall j :: tj <= j < |pos| ==> T(j) in Merge(n, pos, wi, tj)
    decreases (n - wi) + (|pos| - tj)
  {
    if tj < |pos| && (wi == n || pos[tj] <= wi) {
      MergeCovers(n, pos, wi, tj + 1);
    } else if wi < n {
      MergeCovers(n, pos, wi + 1, tj);
    }
  }

  /** Words come out in order, and so do tags. */
  lemma {:induction false} MergeOrdered(n: nat, pos: seq<nat>, wi: nat, tj: nat)
    requires wi <= n && tj <= |pos|
    ensures var r := Merge(n, pos, wi, tj);
            forall a, b :: 0 <= a < b < |r| ==> r[a] != r[b] && (r[a].W? && r[b].W? ==> r[a].i < r[b].i)
                                                          && (r[a].T? && r[b].T? ==> r[a].j < r[b].j)
    decreases (n - wi) + (|pos| - tj)
  {
    var r := Merge(n, pos, wi, tj);
    if tj < |pos| && (wi == n || pos[tj] <= wi) {
      MergeOrdered(n, pos, wi, tj + 1);
      assert forall k :: 0 < k < |r| ==> r[k] == Merge(n, pos, wi, tj + 1)[k - 1];
    } else if wi < n {
      MergeOrdered(n, pos, wi + 1, tj);
      assert forall k :: 0 < k < |r| ==> r[k] == Merge(n, pos, wi + 1, tj)[k - 1];
    }
  }

  function Positions(tags: seq<Tag>): (pos: seq<nat>)
    ensures |pos| == |tags| && forall j :: 0 <= j < |tags| ==> pos[j] == tags[j].position
  {
    seq(|tags|, j requires 0 <= j < |tags| => tags[j].position)
  }

  /** The tags of projected tags, in order. */
  function TagsOf(ext: seq<ExtendedTag>): (tags: seq<Tag>)
    ensures |tags| == |ext| && forall k :: 0 <= k < |ext| ==> tags[k] == ext[k].tag
  {
    seq(|ext|, k requires 0 <= k < |ext| => ext[k].tag)
  }

  /** The order in which a translation yields its tokens. */
  function TokenOrder(n: nat, tags: seq<Tag>): seq<Ref>
  {
    Merge(n, Positions(tags), 0, 0)
  }

  /** Every word and every tag comes out exactly once. */
  lemma TokenOrderIsPermutation(n: nat, tags: seq<Tag>)
    ensures |TokenOrder(n, tags)| == n + |tags|
    ensures forall r :: r in TokenOrder(n, tags) <==> ValidRef(n, |tags|, r)
    ensures forall a, b :: 0 <= a < b < |TokenOrder(n, tags)| ==> TokenOrder(n, tags)[a] != TokenOrder(n, tags)[b]
  {
    var order := TokenOrder(n, tags);
    MergeCovers(n, Positions(tags), 0, 0);
    MergeOrdered(n, Positions(tags), 0, 0);
    assert order == Merge(n, Positions(tags), 0, 0);
    forall r | r in order ensures ValidRef(n, |tags|, r) {
      var k :| 0 <= k < |order| && order[k] == r;
    }
    forall r | ValidRef(n, |tags|, r) ensures r in order {
      if r.W? { assert W(r.i) in order; } else { assert T(r.j) in order; }
    }
  }

  // ---------------------------------------------------------------------
  // Whitespace of a token
  // ---------------------------------------------------------------------

  function RightSpaceOf(words: seq<Word>, tags: seq<Tag>, r: Ref): Space
    requires ValidRef(|words|, |tags|, r)
  {
    match r
    case W(i) => words[i].rightSpace
    case T(j) => tags[j].rightSpace
  }

  /** The same tag, except perhaps for its whitespace. */
  predicate SameMarkup(a: Tag, b: Tag)
  {
    a.name == b.name && a.kind == b.kind && a.position == b.position
  }

  /** The same words and tags, except perhaps for their whitespace. */
  predicate SameTokens(words: seq<Word>, tags: seq<Tag>, words': seq<Word>, tags': seq<Tag>)
  {
    && |words'| == |words| && |tags'| == |tags|
    && (forall i :: 0 <= i < |words| ==> words'[i].text == words[i].text)
    && (forall j :: 0 <= j < |tags| ==> SameMarkup(tags'[j], tags[j]))
  }

  lemma SameTokensOrder(words: seq<Word>, tags: seq<Tag>, words': seq<Word>, tags': seq<Tag>)
    requires SameTokens(words, tags, words', tags')
    ensures TokenOrder(|words'|, tags') == TokenOrder(|words|, tags)
  {
    assert Positions(tags') == Positions(tags);
  }

  /** The whitespace rules `simpleSpaceAnalysis` leaves in force along the
      token stream: no tag without a left space follows a token with a right
      space, a leading tag has no left space and the last token has no right
      space. */
  predicate Tidy(words: seq<Word>, tags: seq<Tag>)
  {
    var order := TokenOrder(|words|, tags);
    && (forall a :: 0 < a < |order| && order[a].T? && !tags[order[a].j].leftSpace ==>
          RightSpaceOf(words, tags, order[a - 1]).None?)
    && (|order| > 0 && order[0].T? ==> !tags[order[0].j].leftSpace)
    && (|order| > 0 ==> RightSpaceOf(words, tags, order[|order| - 1]).None?)
  }

  /** Where the trailing run of tags sitting at gap `n` (after the last word)
      starts, searching down from `f`. */
  function TrailingStart(tags: seq<Tag>, n: nat, f: nat): (r: nat)
    requires f <= |tags|
    ensures r <= f
    ensures forall k :: r <= k < f ==> tags[k].position == n
    ensures r > 0 ==> tags[r - 1].position != n
  {
    if f == 0 || tags[f - 1].position != n then f else TrailingStart(tags, n, f - 1)
  }

  /** The first of the tags after the last word has a left space. */
  predicate TrailingLeftSpace(words: seq<Word>, tags: seq<Tag>)
  {
    var f := TrailingStart(tags, |words|, |tags|);
    f < |tags| && tags[f].leftSpace
  }

  /** The trailing-space pass cannot run: there is no word, and the first of
      the tags after the (missing) last word has a left space. */
  predicate TrailingFails(words: seq<Word>, tags: seq<Tag>)
  {
    |words| == 0 && TrailingLeftSpace(words, tags)
  }

  /** The words after the trailing-space pass: only the last word can
      change; it ends with a right space exactly when it had one or the
      first tag after it has a left space, a space it had is kept and a new
      one is a single blank. */
  function TrailingSpaced(words: seq<Word>, tags: seq<Tag>): (r: seq<Word>)
    ensures |r| == |words| && forall i :: 0 <= i < |words| - 1 ==> r[i] == words[i]
    ensures |words| > 0 ==> r[|words| - 1].text == words[|words| - 1].text
    ensures |words| > 0 ==>
              (r[|words| - 1].HasRightSpace() <==> words[|words| - 1].HasRightSpace() || TrailingLeftSpace(words, tags))
    ensures |words| > 0 && words[|words| - 1].HasRightSpace() ==> r[|words| - 1] == words[|words| - 1]
    ensures |words| > 0 && !words[|words| - 1].HasRightSpace() && TrailingLeftSpace(words, tags) ==>
              r[|words| - 1].rightSpace == Some(" ")
  {
    if |words| > 0 && TrailingLeftSpace(words, tags) && !words[|words| - 1].HasRightSpace()
    then words[|words| - 1 := Word(words[|words| - 1].text, Some(" "))]
    else words
  }

  // ---------------------------------------------------------------------
  // One visit of the whitespace pass
  // ---------------------------------------------------------------------

  /** The words and tags of a translation, taken together. */
  datatype Stream = Stream(words: seq<Word>, tags: seq<Tag>)
  {
    predicate Has(r: Ref) { ValidRef(|words|, |tags|, r) }

    /** Every entry of `order` is a token of this stream. */
    predicate HasAll(order: seq<Ref>)
    {
      && (forall a :: 0 <= a < |order| && order[a].W? ==> order[a].i < |words|)
      && (forall a :: 0 <= a < |order| && order[a].T? ==> order[a].j < |tags|)
    }

    function RightSpace(r: Ref): Space
      requires Has(r)
    {
      RightSpaceOf(words, tags, r)
    }

    /** `r.setRightSpace(s)`. */
    function WithRightSpace(r: Ref, s: Space): (st: Stream)
      requires Has(r)
      ensures |st.words| == |words| && |st.tags| == |tags| && st.RightSpace(r) == s
      ensures forall q :: Has(q) && q != r ==> st.RightSpace(q) == RightSpace(q)
      ensures forall i :: 0 <= i < |words| ==> st.words[i].text == words[i].text
      ensures forall j :: 0 <= j < |tags| ==> st.tags[j] == tags[j].(rightSpace := st.tags[j].rightSpace)
    {
      match r
      case W(i) => this.(words := words[i := words[i].(rightSpace := s)])
      case T(j) => this.(tags := tags[j := tags[j].(rightSpace := s)])
    }
  }

  /** What the whitespace pass does on meeting `token` right after `prev`
      (`None` when `token` comes first). */
  function Visit(st: Stream, prev: Option<Ref>, token: Ref): (r: Stream)
    requires st.Has(token) && (prev.Some? ==> st.Has(prev.value) && prev.value != token)
    ensures |r.words| == |st.words| && |r.tags| == |st.tags|
  {
    match token
    case W(_) => st
    case T(j) =>
      var tag := st.tags[j];
      if prev.Some? && st.RightSpace(prev.value).Some? && !tag.leftSpace then
        var moved := if tag.HasRightSpace() then tag else tag.(rightSpace := st.RightSpace(prev.value));
        st.(tags := st.tags[j := moved]).WithRightSpace(prev.value, None)
      else if prev.None? then st.(tags := st.tags[j := tag.(leftSpace := false)])
      else st
  }

  /** The tokens of `order` are tokens of `st0`, each listed once. */
  predicate Listed(st0: Stream, order: seq<Ref>)
  {
    && st0.HasAll(order)
    && (forall a, b :: 0 <= a < b < |order| ==> order[a] != order[b])
  }

  function Previous(order: seq<Ref>, k: nat): Option<Ref>
    requires k <= |order|
  {
    if k == 0 then None else Some(order[k - 1])
  }

  /** The stream once the pass has visited `order[..k]`, each token right
      after the one before it. */
  function Pass(st: Stream, order: seq<Ref>, k: nat): (r: Stream)
    requires Listed(st, order) && k <= |order|
    ensures |r.words| == |st.words| && |r.tags| == |st.tags|
  {
    if k == 0 then st
    else Visit(Pass(st, order, k - 1), Previous(order, k - 1), order[k - 1])
  }

  /** The token order lists tokens of the stream. */
  lemma TokenOrderInStream(st: Stream)
    ensures st.HasAll(TokenOrder(|st.words|, st.tags))
  {
    var order := TokenOrder(|st.words|, st.tags);
    TokenOrderIsPermutation(|st.words|, st.tags);
    forall a | 0 <= a < |order|
      ensures ValidRef(|st.words|, |st.tags|, order[a])
    {
      assert order[a] in order;
    }
  }

  /** Only whitespace differs from `st0`, and the tokens from `order[k]` on
      are untouched. */
  predicate Unvisited(st0: Stream, order: seq<Ref>, k: nat, st: Stream)
  {
    && k <= |order| && Listed(st0, order)
    && SameTokens(st0.words, st0.tags, st.words, st.tags)
    && (forall a :: k <= a < |order| && order[a].W? ==> st.words[order[a].i] == st0.words[order[a].i])
    && (forall a :: k <= a < |order| && order[a].T? ==> st.tags[order[a].j] == st0.tags[order[a].j])
  }

  /** No tag without a left space among `order[1..k]` follows a token with a
      right space. */
  predicate Separated(order: seq<Ref>, k: nat, st: Stream)
    requires k <= |order| && st.HasAll(order)
  {
    forall a :: 0 < a < k && order[a].T? && !st.tags[order[a].j].leftSpace ==>
      st.RightSpace(order[a - 1]).None?
  }

  /** A leading tag, once visited, has no left space; no other tag changes
      its left space. */
  predicate LeftSpaces(st0: Stream, order: seq<Ref>, k: nat, st: Stream)
    requires Unvisited(st0, order, k, st)
  {
    && (k > 0 && order[0].T? ==> !st.tags[order[0].j].leftSpace)
    && (forall a :: 0 < a < |order| && order[a].T? ==> st.tags[order[a].j].leftSpace == st0.tags[order[a].j].leftSpace)
  }

  /** A word's right space is only removed; a tag keeps or loses the right
      space it had, or gains one where it had none. */
  predicate OnlyRemoved(st0: Stream, st: Stream)
    requires |st.words| == |st0.words| && |st.tags| == |st0.tags|
  {
    && (forall i :: 0 <= i < |st.words| ==> st.words[i].rightSpace == st0.words[i].rightSpace || st.words[i].rightSpace.None?)
    && (forall j :: 0 <= j < |st.tags| ==>
          st.tags[j].rightSpace == st0.tags[j].rightSpace || st.tags[j].rightSpace.None? || st0.tags[j].rightSpace.None?)
  }

  /** Every right space among the visited tokens was, in `st0`, the right
      space of the same token or of an earlier one. */
  ghost predicate Origin(st0: Stream, order: seq<Ref>, k: nat, st: Stream)
    requires k <= |order| && st0.HasAll(order) && st.HasAll(order)
  {
    forall a :: 0 <= a < k ==>
      st.RightSpace(order[a]).None?
      || exists b :: 0 <= b <= a && st.RightSpace(order[a]) == st0.RightSpace(order[b])
  }

  /** What holds of the stream once the pass has visited `order[..k]`,
      starting from `st0`. */
  ghost predicate PassInv(st0: Stream, order: seq<Ref>, k: nat, st: Stream)
  {
    && Unvisited(st0, order, k, st)
    && Separated(order, k, st)
    && LeftSpaces(st0, order, k, st)
    && OnlyRemoved(st0, st)
    && Origin(st0, order, k, st)
  }

  /** A visit that changes nothing: the token is a word, or a tag that keeps
      its place in the separation rule. */
  lemma VisitStays(st0: Stream, order: seq<Ref>, k: nat, st: Stream)
    requires PassInv(st0, order, k, st) && 0 < k < |order|
    requires order[k].W? || st.tags[order[k].j].leftSpace || st.RightSpace(order[k - 1]).None?
    ensures Visit(st, Previous(order, k), order[k]) == st
    ensures PassInv(st0, order, k + 1, st)
  {
    assert st.RightSpace(order[k]) == st0.RightSpace(order[k]);
    forall a | 0 < a < k + 1 && order[a].T? && !st.tags[order[a].j].leftSpace
      ensures st.RightSpace(order[a - 1]).None?
    {
    }
  }

  /** Visiting the leading token. */
  lemma VisitFirst(st0: Stream, order: seq<Ref>, st: Stream)
    requires PassInv(st0, order, 0, st) && 0 < |order|
    ensures PassInv(st0, order, 1, Visit(st, None, order[0]))
  {
    var st' := Visit(st, None, order[0]);
    assert st'.RightSpace(order[0]) == st0.RightSpace(order[0]);
    assert forall a :: 0 <= a < |order| ==> st'.RightSpace(order[a]) == st.RightSpace(order[a]);
  }

  /** The step that moves the right space of `order[k-1]` onto the tag
      `order[k]`. */
  lemma VisitMoves(st0: Stream, order: seq<Ref>, k: nat, st: Stream)
    requires PassInv(st0, order, k, st) && 0 < k < |order|
    requires order[k].T? && !st.tags[order[k].j].leftSpace && st.RightSpace(order[k - 1]).Some?
    ensures PassInv(st0, order, k + 1, Visit(st, Previous(order, k), order[k]))
  {
    var st' := Visit(st, Previous(order, k), order[k]);
    var prev, token := order[k - 1], order[k];
    MovedUnvisited(st0, order, k, st, st');
    MovedSeparated(order, k, st, st');
    MovedOrigin(st0, order, k, st, st');
  }

  /** What the move step does to the stream, token by token. */
  lemma MoveEffect(st: Stream, prev: Ref, token: Ref, st': Stream)
    requires st.Has(prev) && st.Has(token) && prev != token && token.T?
    requires !st.tags[token.j].leftSpace && st.RightSpace(prev).Some?
    requires st' == Visit(st, Some(prev), token)
    ensures SameTokens(st.words, st.tags, st'.words, st'.tags)
    ensures st'.RightSpace(prev).None?
    ensures st'.RightSpace(token) == st.RightSpace(prev) || st'.RightSpace(token) == st.RightSpace(token)
    ensures forall i :: 0 <= i < |st.words| && W(i) != prev ==> st'.words[i] == st.words[i]
    ensures forall j :: 0 <= j < |st.tags| && T(j) != prev && T(j) != token ==> st'.tags[j] == st.tags[j]
    ensures forall j :: 0 <= j < |st.tags| ==> st'.tags[j].leftSpace == st.tags[j].leftSpace
    ensures forall i :: 0 <= i < |st.words| ==> st'.words[i].rightSpace == st.words[i].rightSpace || st'.words[i].rightSpace.None?
    ensures forall j :: 0 <= j < |st.tags| && T(j) != token ==>
              st'.tags[j].rightSpace == st.tags[j].rightSpace || st'.tags[j].rightSpace.None?
    ensures st'.tags[token.j].rightSpace == st.tags[token.j].rightSpace || st.tags[token.j].rightSpace.None?
  {
  }

  lemma MovedUnvisited(st0: Stream, order: seq<Ref>, k: nat, st: Stream, st': Stream)
    requires PassInv(st0, order, k, st) && 0 < k < |order|
    requires order[k].T? && !st.tags[order[k].j].leftSpace && st.RightSpace(order[k - 1]).Some?
    requires st' == Visit(st, Previous(order, k), order[k])
    ensures Unvisited(st0, order, k + 1, st') && LeftSpaces(st0, order, k + 1, st') && OnlyRemoved(st0, st')
    ensures st'.RightSpace(order[k - 1]).None?
    ensures st'.RightSpace(order[k]) == st.RightSpace(order[k - 1]) || st'.RightSpace(order[k]) == st.RightSpace(order[k])
    ensures forall a :: 0 <= a < |order| && a != k - 1 && a != k ==> st'.RightSpace(order[a]) == st.RightSpace(order[a])
    ensures forall a :: 0 <= a < |order| && order[a].T? ==> st'.tags[order[a].j].leftSpace == st.tags[order[a].j].leftSpace
  {
    var prev, token := order[k - 1], order[k];
    MoveEffect(st, prev, token, st');
    assert st.tags[token.j] == st0.tags[token.j];
    forall a | 0 <= a < |order| && a != k - 1 && a != k
      ensures st'.RightSpace(order[a]) == st.RightSpace(order[a])
    {
      assert order[a] != prev && order[a] != token;
    }
  }

  lemma MovedSeparated(order: seq<Ref>, k: nat, st: Stream, st': Stream)
    requires 0 < k < |order| && st.HasAll(order) && st'.HasAll(order)
    requires Separated(order, k, st)
    requires st'.RightSpace(order[k - 1]).None?
    requires forall a :: 0 <= a < |order| && a != k - 1 && a != k ==> st'.RightSpace(order[a]) == st.RightSpace(order[a])
    requires forall a :: 0 <= a < |order| && order[a].T? ==> st'.tags[order[a].j].leftSpace == st.tags[order[a].j].leftSpace
    ensures Separated(order, k + 1, st')
  {
  }

  lemma MovedOrigin(st0: Stream, order: seq<Ref>, k: nat, st: Stream, st': Stream)
    requires PassInv(st0, order, k, st) && 0 < k < |order| && Unvisited(st0, order, k + 1, st')
    requires st'.RightSpace(order[k - 1]).None?
    requires st'.RightSpace(order[k]) == st.RightSpace(order[k - 1]) || st'.RightSpace(order[k]) == st.RightSpace(order[k])
    requires forall a :: 0 <= a < |order| && a != k - 1 && a != k ==> st'.RightSpace(order[a]) == st.RightSpace(order[a])
    ensures Origin(st0, order, k + 1, st')
  {
    assert st.RightSpace(order[k]) == st0.RightSpace(order[k]);
    forall a | 0 <= a < k + 1
      ensures st'.RightSpace(order[a]).None?
              || exists b :: 0 <= b <= a && st'.RightSpace(order[a]) == st0.RightSpace(order[b])
    {
      if a == k && st'.RightSpace(order[k]) == st.RightSpace(order[k - 1]) && st'.RightSpace(order[k]).Some? {
        var b :| 0 <= b <= k - 1 && st.RightSpace(order[k - 1]) == st0.RightSpace(order[b]);
      }
    }
  }

  /** Visiting the next token keeps `PassInv`. */
  lemma VisitStep(st0: Stream, order: seq<Ref>, k: nat, st: Stream)
    requires PassInv(st0, order, k, st) && k < |order|
    ensures PassInv(st0, order, k + 1, Visit(st, Previous(order, k), order[k]))
  {
    if k == 0 {
      VisitFirst(st0, order, st);
    } else if order[k].T? && !st.tags[order[k].j].leftSpace && st.RightSpace(order[k - 1]).Some? {
      VisitMoves(st0, order, k, st);
    } else {
      VisitStays(st0, order, k, st);
    }
  }

  /** Every prefix of the pass keeps `PassInv`. */
  lemma {:induction false} PassKeepsInv(st0: Stream, order: seq<Ref>, k: nat)
    requires PassInv(st0, order, 0, st0) && k <= |order|
    ensures PassInv(st0, order, k, Pass(st0, order, k))
  {
    if k > 0 {
      PassKeepsInv(st0, order, k - 1);
      VisitStep(st0, order, k - 1, Pass(st0, order, k - 1));
    }
  }

  /** A tag with neither a left nor a right space of its own takes the
      right space the token before it has when the pass reaches it, and that
      token loses it. */
  lemma PassMovesSpace(st0: Stream, order: seq<Ref>, a: nat)
    requires PassInv(st0, order, 0, st0) && 0 < a < |order| && order[a].T?
    requires !st0.tags[order[a].j].leftSpace && st0.tags[order[a].j].rightSpace.None?
    requires Pass(st0, order, a).RightSpace(order[a - 1]).Some?
    ensures Pass(st0, order, a + 1).RightSpace(order[a]) == Pass(st0, order, a).RightSpace(order[a - 1])
    ensures Pass(st0, order, a + 1).RightSpace(order[a - 1]).None?
  {
    PassKeepsInv(st0, order, a);
    var st := Pass(st0, order, a);
    assert st.tags[order[a].j] == st0.tags[order[a].j];
    MoveEffect(st, order[a - 1], order[a], Pass(st0, order, a + 1));
  }

  /** The separation rule, a leading tag without a left space and a last
      token without a right space make the stream tidy. */
  lemma TidyStream(order: seq<Ref>, st: Stream)
    requires order == TokenOrder(|st.words|, st.tags) && st.HasAll(order)
    requires Separated(order, |order|, st)
    requires |order| > 0 && order[0].T? ==> !st.tags[order[0].j].leftSpace
    requires |order| > 0 ==> st.RightSpace(order[|order| - 1]).None?
    ensures Tidy(st.words, st.tags)
  {
    forall a | 0 < a < |order| && order[a].T? && !st.tags[order[a].j].leftSpace
      ensures RightSpaceOf(st.words, st.tags, order[a - 1]).None?
    {
      assert st.RightSpace(order[a - 1]).None?;
    }
  }

  /** The token order lists each token of the stream once. */
  lemma TokenOrderListed(st: Stream)
    ensures Listed(st, TokenOrder(|st.words|, st.tags))
  {
    TokenOrderIsPermutation(|st.words|, st.tags);
    TokenOrderInStream(st);
  }

  /** Before the pass, nothing has been visited. */
  lemma PassStart(st0: Stream, order: seq<Ref>)
    requires order == TokenOrder(|st0.words|, st0.tags)
    ensures PassInv(st0, order, 0, st0)
  {
    TokenOrderIsPermutation(|st0.words|, st0.tags);
    TokenOrderInStream(st0);
  }

  /** Every tag keeps its left space, except a leading tag, which loses
      it. */
  predicate LeftSpacesKept(order: seq<Ref>, tags0: seq<Tag>, tags: seq<Tag>)
    requires |tags| == |tags0|
  {
    forall j :: 0 <= j < |tags| ==> tags[j].leftSpace == (tags0[j].leftSpace && !(|order| > 0 && order[0] == T(j)))
  }

  /** Once every token is visited, `LeftSpaces` speaks of every tag. */
  lemma KeptLeftSpaces(st0: Stream, order: seq<Ref>, st: Stream)
    requires order == TokenOrder(|st0.words|, st0.tags)
    requires Unvisited(st0, order, |order|, st) && LeftSpaces(st0, order, |order|, st)
    ensures LeftSpacesKept(order, st0.tags, st.tags)
  {
    TokenOrderIsPermutation(|st0.words|, st0.tags);
    forall j | 0 <= j < |st.tags|
      ensures st.tags[j].leftSpace == (st0.tags[j].leftSpace && !(|order| > 0 && order[0] == T(j)))
    {
      assert ValidRef(|st0.words|, |st0.tags|, T(j));
      var a :| 0 <= a < |order| && order[a] == T(j);
      if a > 0 {
        assert order[0] != order[a];
      }
    }
  }

  /** Removing the right space of the last token keeps what the pass has
      established. */
  lemma ClearLast(st0: Stream, order: seq<Ref>, st: Stream, st': Stream)
    requires PassInv(st0, order, |order|, st) && |order| > 0
    requires st' == st.WithRightSpace(order[|order| - 1], None)
    ensures SameTokens(st0.words, st0.tags, st'.words, st'.tags) && st'.HasAll(order)
    ensures Separated(order, |order|, st')
    ensures order[0].T? ==> !st'.tags[order[0].j].leftSpace
    ensures st'.RightSpace(order[|order| - 1]).None?
    ensures OnlyRemoved(st0, st')
    ensures Origin(st0, order, |order|, st')
  {
    var last := |order| - 1;
    forall a | 0 <= a < last
      ensures st'.RightSpace(order[a]) == st.RightSpace(order[a])
    {
      assert order[a] != order[last];
    }
  }

  /** Removing the right space of the last token finishes the pass: the
      stream is then tidy, and only whitespace moved. */
  lemma FinishPass(st0: Stream, order: seq<Ref>, st: Stream, st': Stream)
    requires PassInv(st0, order, |order|, st) && order == TokenOrder(|st0.words|, st0.tags)
    requires st' == if |order| == 0 then st else st.WithRightSpace(order[|order| - 1], None)
    ensures SameTokens(st0.words, st0.tags, st'.words, st'.tags)
    ensures Tidy(st'.words, st'.tags)
    ensures LeftSpacesKept(order, st0.tags, st'.tags)
    ensures OnlyRemoved(st0, st')
    ensures Origin(st0, order, |order|, st')
  {
    KeptLeftSpaces(st0, order, st);
    if |order| > 0 {
      ClearLast(st0, order, st, st');
      assert forall j :: 0 <= j < |st.tags| ==> st'.tags[j].leftSpace == st.tags[j].leftSpace;
    }
    SameTokensOrder(st0.words, st0.tags, st'.words, st'.tags);
    TidyStream(order, st');
  }

  /** The second pass on `st`: every token of the token order visited in
      turn, then the right space of the last token removed. The token order
      always lists each token once (`TokenOrderListed`), so the guard never
      stops the pass. */
  function SpacePass(st: Stream): (r: Stream)
    ensures |r.words| == |st.words| && |r.tags| == |st.tags|
  {
    var order := TokenOrder(|st.words|, st.tags);
    if !Listed(st, order) then st else
    var visited := Pass(st, order, |order|);
    if |order| == 0 then visited else visited.WithRightSpace(order[|order| - 1], None)
  }

  /** What the second pass leaves of `st0` in `st`: only whitespace
      changes; the stream is tidy; every tag keeps its left space except a
      leading tag, which loses it; a word's right space is only removed; and
      every right space left was there before, on the same token or an
      earlier one. */
  ghost predicate SpacesTidied(st0: Stream, st: Stream)
  {
    var order := TokenOrder(|st0.words|, st0.tags);
    && SameTokens(st0.words, st0.tags, st.words, st.tags)
    && Tidy(st.words, st.tags)
    && LeftSpacesKept(order, st0.tags, st.tags)
    && OnlyRemoved(st0, st)
    && st0.HasAll(order) && st.HasAll(order)
    && Origin(st0, order, |order|, st)
  }

  /** The second pass establishes all of that. */
  lemma SpacePassTidies(st0: Stream)
    ensures SpacesTidied(st0, SpacePass(st0))
  {
    var order := TokenOrder(|st0.words|, st0.tags);
    PassStart(st0, order);
    PassKeepsInv(st0, order, |order|);
    FinishPass(st0, order, Pass(st0, order, |order|), SpacePass(st0));
  }

  /** "a <b/>c" written as word `a` followed by a space, a self-closing tag
      with no space of its own before word 1, and word `c`: the pass moves
      the space onto the tag, giving "a<b/> c". */
  lemma SpaceMovesOntoTag()
    ensures SpacePass(Stream([Word("a", Some(" ")), Word("c", None)], [Tag("b", SelfClosing, 1, false, None)]))
              == Stream([Word("a", None), Word("c", None)], [Tag("b", SelfClosing, 1, false, Some(" "))])
  {
    var st := Stream([Word("a", Some(" ")), Word("c", None)], [Tag("b", SelfClosing, 1, false, None)]);
    var order := TokenOrder(2, st.tags);
    assert Positions(st.tags) == [1];
    assert Merge(2, [1], 2, 1) == [];
    assert Merge(2, [1], 1, 1) == [W(1)];
    assert Merge(2, [1], 1, 0) == [T(0), W(1)];
    assert order == [W(0), T(0), W(1)];
    PassStart(st, order);
    assert Pass(st, order, 1) == st;
    assert Pass(st, order, 2) == Stream([Word("a", None), Word("c", None)], [Tag("b", SelfClosing, 1, false, Some(" "))]);
    assert Pass(st, order, 3) == Pass(st, order, 2);
  }

  // ---------------------------------------------------------------------
  // The translation
  // ---------------------------------------------------------------------

  /** What the aligned case of `call` leaves, from the words `words0` it
      started with: the same words with their texts; tags that are the
      projection `ext` of the source tags with their markup; when the
      whitespace pass succeeds, words and tags that are the trailing-space
      pass and then `SpacePass` applied to the projected tags, with all that
      `SpacesTidied` says of them; when it fails, the projected tags as they
      are. */
  ghost predicate ProjectedTidied(sourceTags: seq<Tag>, al: Alignment, words0: seq<Word>,
                                  words: seq<Word>, tags: seq<Tag>, ok: bool)
  {
    exists ext: seq<ExtendedTag> :: IsProjection(sourceTags, |words0|, al, ext)
          && SameTokens(words0, TagsOf(ext), words, tags)
          && (ok ==> Stream(words, tags) == SpacePass(Stream(TrailingSpaced(words0, TagsOf(ext)), TagsOf(ext))))
          && (ok ==> SpacesTidied(Stream(TrailingSpaced(words0, TagsOf(ext)), TagsOf(ext)), Stream(words, tags)))
          && (!ok ==> tags == TagsOf(ext))
  }

  class Translation {
    var words: seq<Word>
    var tags: seq<Tag>
    const source: Sentence
    const alignment: Option<Alignment>

    constructor (words: seq<Word>, tags: seq<Tag>, source: Sentence, alignment: Option<Alignment>)
      ensures this.words == words && this.tags == tags
      ensures this.source == source && this.alignment == alignment
    {
      this.words := words;
      this.tags := tags;
      this.source := source;
      this.alignment := alignment;
    }

    /** `call`: projects the source tags onto the translation. A source
        without tags leaves the translation alone; a source with tags but no
        words hands its tags over unchanged; without an alignment nothing
        happens; otherwise the tags are projected and the whitespace tidied.
        `ok` is false when the whitespace pass fails on a translation without
        words (Java's `ArrayIndexOutOfBoundsException`); the projected tags
        are then already in place. */
    method Call() returns (ok: bool)
      modifies this
      ensures !source.HasTags() ==> ok && words == old(words) && tags == old(tags)
      ensures source.HasTags() && !source.HasWords() ==> ok && words == old(words) && tags == source.tags
      ensures source.HasTags() && source.HasWords() && alignment.None? ==>
                ok && words == old(words) && tags == old(tags)
      ensures !ok ==> words == old(words) && |words| == 0
      ensures source.HasTags() && source.HasWords() && alignment.Some? ==>
                ProjectedTidied(source.tags, alignment.value, old(words), words, tags, ok)
    {
      ok := true;
      if source.HasTags() {
        if source.HasWords() {
          if alignment.Some? {
            ok := ProjectAligned(alignment.value);
          }
        } else {
          tags := source.tags;
        }
      }
    }

    /** The aligned case of `call`: `mapTags`, then `simpleSpaceAnalysis`. */
    method ProjectAligned(al: Alignment) returns (ok: bool)
      modifies this
      ensures ProjectedTidied(source.tags, al, old(words), words, tags, ok)
      ensures !ok ==> words == old(words) && |words| == 0
    {
      var ext, result := MapTags(source.tags, |words|, al);
      assert IsProjection(source.tags, |words|, al, ext);
      assert result == TagsOf(ext);
      tags := result;
      ok := SimpleSpaceAnalysis();
    }

    /** `simpleSpaceAnalysis`: the trailing-space pass, then the pass along
        the token stream; when the first pass fails nothing changes. */
    method SimpleSpaceAnalysis() returns (ok: bool)
      modifies this
      ensures ok <==> !TrailingFails(old(words), old(tags))
      ensures SameTokens(old(words), old(tags), words, tags)
      ensures ok ==> Stream(words, tags) == SpacePass(Stream(TrailingSpaced(old(words), old(tags)), old(tags)))
      ensures ok ==> SpacesTidied(Stream(TrailingSpaced(old(words), old(tags)), old(tags)), Stream(words, tags))
      ensures !ok ==> words == old(words) && tags == old(tags)
    {
      ok := AddTrailingSpace();
      if ok {
        TidySpaces();
      }
    }

    /** The first pass: when the first of the tags after the last word has a
        left space and the last word has no right space, the last word gets
        a single space. Without any word there is no last word to look at,
        and the pass fails. */
    method AddTrailingSpace() returns (ok: bool)
      modifies this
      ensures tags == old(tags)
      ensures ok <==> !TrailingFails(old(words), tags)
      ensures words == TrailingSpaced(old(words), tags)
    {
      ok := true;
      var firstTagAfterLastWord: int := |tags| - 1;
      var found := false;
      while firstTagAfterLastWord >= 0 && tags[firstTagAfterLastWord].position == |words|
        invariant -1 <= firstTagAfterLastWord < |tags|
        invariant TrailingStart(tags, |words|, |tags|) == TrailingStart(tags, |words|, firstTagAfterLastWord + 1)
        invariant found <==> firstTagAfterLastWord < |tags| - 1
      {
        firstTagAfterLastWord := firstTagAfterLastWord - 1;
        found := true;
      }
      if found {
        firstTagAfterLastWord := firstTagAfterLastWord + 1;
        if tags[firstTagAfterLastWord].leftSpace {
          if |words| == 0 {
            return false;
          }
          var last := |words| - 1;
          if !words[last].HasRightSpace() {
            words := words[last := words[last].(rightSpace := Some(" "))];
          }
        }
      }
    }

    /** `r.setRightSpace(s)` on the words and tags of this translation. */
    method SetRightSpace(r: Ref, s: Space)
      requires ValidRef(|words|, |tags|, r)
      modifies this
      ensures Stream(words, tags) == Stream(old(words), old(tags)).WithRightSpace(r, s)
    {
      match r
      case W(i) => words := words[i := words[i].(rightSpace := s)];
      case T(j) => tags := tags[j := tags[j].(rightSpace := s)];
    }

    /** One step of the second pass: the visit of `token`, which comes right
        after `previousToken`. */
    method VisitToken(previousToken: Option<Ref>, token: Ref)
      requires ValidRef(|words|, |tags|, token)
      requires previousToken.Some? ==> ValidRef(|words|, |tags|, previousToken.value) && previousToken.value != token
      modifies this
      ensures Stream(words, tags) == Visit(Stream(old(words), old(tags)), previousToken, token)
    {
      if token.T? {
        var tag := tags[token.j];
        if previousToken.Some? && RightSpaceOf(words, tags, previousToken.value).Some? && !tag.leftSpace {
          if !tag.HasRightSpace() {
            tags := tags[token.j := tag.(rightSpace := RightSpaceOf(words, tags, previousToken.value))];
          }
          SetRightSpace(previousToken.value, None);
        } else if previousToken.None? {
          tags := tags[token.j := tag.(leftSpace := false)];
        }
      }
    }

    /** The second pass, along the token stream: a tag without a left space
        that follows a token with a right space takes that space (when it has
        none of its own) and the token loses it; a leading tag loses its left
        space; the last token loses its right space. Only whitespace changes,
        a word's right space can only be removed, a tag keeps or loses the
        right space it had, and every right space left was there before, on
        the same token or on an earlier one. */
    method TidySpaces()
      modifies this
      ensures Stream(words, tags) == SpacePass(Stream(old(words), old(tags)))
      ensures SpacesTidied(Stream(old(words), old(tags)), Stream(words, tags))
    {
      ghost var st0 := Stream(words, tags);
      var order := TokenOrder(|words|, tags);
      PassStart(st0, order);
      var previousToken := VisitAll(st0, order);
      if previousToken.Some? {
        SetRightSpace(previousToken.value, None);
      }
      SpacePassTidies(st0);
    }

    /** The loop of the second pass: visits the tokens of `order` one by one,
        each right after the previous one. */
    method VisitAll(ghost st0: Stream, order: seq<Ref>) returns (previousToken: Option<Ref>)
      requires Stream(words, tags) == st0 && Listed(st0, order)
      modifies this
      ensures Stream(words, tags) == Pass(st0, order, |order|)
      ensures previousToken == Previous(order, |order|)
    {
      previousToken := None;
      var k := 0;
      while k < |order|
        invariant k <= |order|
        invariant Stream(words, tags) == Pass(st0, order, k)
        invariant previousToken == Previous(order, k)
      {
        VisitToken(previousToken, order[k]);
        previousToken := Some(order[k]);
        k := k + 1;
      }
    }
  }
}
