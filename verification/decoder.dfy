/** Reading the decoder's output (`TranslationXObject`): the best text split
    into words, the n-best hypotheses and their feature-value strings grouped
    into one value vector per feature. */
module MosesOutput {
  import opened Model

  // ---------------------------------------------------------------------
  // Splitting text on runs of separators (Java's `String.split`)
  // ---------------------------------------------------------------------

  /** The two separator classes the decoder output is split on: a space
      (`" +"`) and Java's `\s` (`"\\s+"`: space, tab, line feed, vertical
      tab, form feed, carriage return). */
  datatype Separator = Spaces | Whitespace

  predicate IsSep(sep: Separator, c: char)
  {
    match sep
    case Spaces => c == ' '
    case Whitespace => c == ' ' || 9 <= c as int <= 13
  }

  predicate NoSep(sep: Separator, s: string)
  {
    forall i :: 0 <= i < |s| ==> !IsSep(sep, s[i])
  }

  /** `s` without its leading separators. */
  function SkipSeps(sep: Separator, s: string): (r: string)
    ensures |r| <= |s| && r == s[|s| - |r|..]
    ensures r == [] || !IsSep(sep, r[0])
    ensures forall i :: 0 <= i < |s| - |r| ==> IsSep(sep, s[i])
  {
    if |s| > 0 && IsSep(sep, s[0]) then SkipSeps(sep, s[1..]) else s
  }

  /** The pieces of `s` between maximal runs of separators, `cur` being the
      piece already begun; a separator at either end leaves an empty piece. */
  function Pieces(sep: Separator, s: string, cur: string): (r: seq<string>)
    ensures |r| > 0
    decreases |s|
  {
    if |s| == 0 then [cur]
    else if IsSep(sep, s[0]) then [cur] + Pieces(sep, SkipSeps(sep, s[1..]), "")
    else Pieces(sep, s[1..], cur + [s[0]])
  }

  /** The pieces without the empty ones at the end. */
  function DropTrailingEmpty(ps: seq<string>): (r: seq<string>)
    ensures |r| <= |ps| && r == ps[..|r|]
    ensures |r| > 0 ==> r[|r| - 1] != ""
    ensures forall i :: |r| <= i < |ps| ==> ps[i] == ""
  {
    if |ps| > 0 && ps[|ps| - 1] == "" then DropTrailingEmpty(ps[..|ps| - 1]) else ps
  }

  /** `s.split(regex)` for a regex matching runs of `sep`: text with no
      separator is its own single piece; otherwise the pieces between runs,
      the empty ones at the end dropped. */
  function Split(sep: Separator, s: string): seq<string>
  {
    if NoSep(sep, s) then [s] else DropTrailingEmpty(Pieces(sep, s, ""))
  }

  /** The pieces joined by single spaces. */
  function Join(ps: seq<string>): string
  {
    if |ps| == 0 then "" else if |ps| == 1 then ps[0] else ps[0] + " " + Join(ps[1..])
  }

  /** The characters of `s` that are not separators, in order. */
  function Strip(sep: Separator, s: string): string
  {
    if |s| == 0 then "" else (if IsSep(sep, s[0]) then "" else [s[0]]) + Strip(sep, s[1..])
  }

  function Concat(ps: seq<string>): string
  {
    if |ps| == 0 then "" else ps[0] + Concat(ps[1..])
  }

  /** Pieces that a split can produce: none contains a separator and only the
      first may be empty. */
  predicate WellSplit(sep: Separator, ps: seq<string>)
  {
    && (forall i :: 0 <= i < |ps| ==> NoSep(sep, ps[i]))
    && (forall i :: 0 < i < |ps| ==> ps[i] != "")
  }

  lemma {:induction false} PiecesWord(sep: Separator, p: string, t: string, cur: string)
    requires NoSep(sep, p)
    ensures Pieces(sep, p + t, cur) == Pieces(sep, t, cur + p)
    decreases |p|
  {
    if |p| > 0 {
      assert (p + t)[1..] == p[1..] + t;
      assert (cur + [p[0]]) + p[1..] == cur + p;
      PiecesWord(sep, p[1..], t, cur + [p[0]]);
    } else {
      assert p + t == t && cur + p == cur;
    }
  }

  lemma {:induction false} PiecesShape(sep: Separator, s: string, cur: string)
    requires NoSep(sep, cur)
    ensures var r := Pieces(sep, s, cur);
            |r| > 0
            && (forall i :: 0 <= i < |r| ==> NoSep(sep, r[i]))
            && (forall i :: 0 < i < |r| - 1 ==> r[i] != "")
            && r[0] == cur + Pieces(sep, s, "")[0]
    decreases |s|, 1
  {
    if |s| > 0 {
      if IsSep(sep, s[0]) {
        var rest := SkipSeps(sep, s[1..]);
        PiecesShape(sep, rest, "");
        if |rest| > 0 {
          PiecesNonEmpty(sep, rest);
        }
      } else {
        PiecesShape(sep, s[1..], cur + [s[0]]);
        PiecesShape(sep, s[1..], [s[0]]);
        assert "" + [s[0]] == [s[0]];
        assert cur + [s[0]] + Pieces(sep, s[1..], "")[0] == cur + ([s[0]] + Pieces(sep, s[1..], "")[0]);
      }
    }
  }

  /** Text that does not start with a separator begins with a non-empty
      piece. */
  lemma {:induction false} PiecesNonEmpty(sep: Separator, s: string)
    requires |s| > 0 && !IsSep(sep, s[0])
    ensures Pieces(sep, s, "")[0] != ""
    decreases |s|, 0
  {
    assert "" + [s[0]] == [s[0]];
    PiecesShape(sep, s[1..], [s[0]]);
  }

  /** Every piece of a split is free of separators, and only the first may be
      empty. */
  lemma SplitIsWellSplit(sep: Separator, s: string)
    ensures WellSplit(sep, Split(sep, s))
  {
    if !NoSep(sep, s) {
      PiecesShape(sep, s, "");
    }
  }

  lemma {:induction false} ConcatPieces(sep: Separator, s: string, cur: string)
    ensures Concat(Pieces(sep, s, cur)) == cur + Strip(sep, s)
    decreases |s|
  {
    if |s| > 0 {
      if IsSep(sep, s[0]) {
        var rest := SkipSeps(sep, s[1..]);
        ConcatPieces(sep, rest, "");
        StripSkip(sep, s[1..]);
      } else {
        ConcatPieces(sep, s[1..], cur + [s[0]]);
        assert cur + [s[0]] + Strip(sep, s[1..]) == cur + ([s[0]] + Strip(sep, s[1..]));
      }
    } else {
      assert Concat([cur]) == cur + Concat([]);
    }
  }

  lemma {:induction false} StripSkip(sep: Separator, s: string)
    ensures Strip(sep, SkipSeps(sep, s)) == Strip(sep, s)
    decreases |s|
  {
    if |s| > 0 && IsSep(sep, s[0]) {
      StripSkip(sep, s[1..]);
    }
  }

  lemma {:induction false} ConcatDrop(ps: seq<string>)
    ensures Concat(DropTrailingEmpty(ps)) == Concat(ps)
    decreases |ps|
  {
    if |ps| > 0 && ps[|ps| - 1] == "" {
      ConcatDrop(ps[..|ps| - 1]);
      ConcatSnoc(ps[..|ps| - 1], "");
      assert ps[..|ps| - 1] + [""] == ps;
    }
  }

  lemma {:induction false} ConcatSnoc(ps: seq<string>, p: string)
    ensures Concat(ps + [p]) == Concat(ps) + p
    decreases |ps|
  {
    if |ps| == 0 {
      assert Concat([p]) == p + Concat([]);
    } else {
      assert (ps + [p])[1..] == ps[1..] + [p];
      ConcatSnoc(ps[1..], p);
    }
  }

  lemma {:induction false} StripNoSep(sep: Separator, s: string)
    requires NoSep(sep, s)
    ensures Strip(sep, s) == s
    decreases |s|
  {
    if |s| > 0 {
      StripNoSep(sep, s[1..]);
      assert [s[0]] + s[1..] == s;
    }
  }

  /** Splitting loses only the separators: the pieces, put back together,
      are the text with its separators removed. */
  lemma SplitKeepsText(sep: Separator, s: string)
    ensures Concat(Split(sep, s)) == Strip(sep, s)
  {
    if NoSep(sep, s) {
      StripNoSep(sep, s);
      assert Concat([s]) == s + Concat([]);
    } else {
      ConcatPieces(sep, s, "");
      ConcatDrop(Pieces(sep, s, ""));
    }
  }

  lemma {:induction false} PiecesJoin(ps: seq<string>, cur: string)
    requires |ps| > 0 && WellSplit(Spaces, ps)
    ensures Pieces(Spaces, Join(ps), cur) == [cur + ps[0]] + ps[1..]
    decreases |ps|
  {
    if |ps| == 1 {
      PiecesWord(Spaces, ps[0], "", cur);
      assert ps[0] + "" == ps[0];
    } else {
      PiecesAfterFirst(ps, cur);
      PiecesJoin(ps[1..], "");
      assert "" + ps[1] == ps[1];
      assert [ps[1]] + ps[2..] == ps[1..];
    }
  }

  /** Past the first piece and its space, the joined text splits on. */
  lemma PiecesAfterFirst(ps: seq<string>, cur: string)
    requires |ps| > 1 && WellSplit(Spaces, ps)
    ensures Pieces(Spaces, Join(ps), cur) == [cur + ps[0]] + Pieces(Spaces, Join(ps[1..]), "")
  {
    var tail := Join(ps[1..]);
    assert Join(ps) == ps[0] + (" " + tail);
    PiecesWord(Spaces, ps[0], " " + tail, cur);
    JoinStart(ps[1..]);
    assert (" " + tail)[1..] == tail;
    assert SkipSeps(Spaces, tail) == tail;
  }

  /** Joined pieces start with the first piece. */
  lemma {:induction false} JoinStart(ps: seq<string>)
    requires |ps| > 0
    ensures |Join(ps)| >= |ps[0]| && Join(ps)[..|ps[0]|] == ps[0]
    ensures |ps| > 1 ==> |Join(ps)| > |ps[0]| && Join(ps)[|ps[0]|] == ' '
  {
  }

  /** Splitting pieces joined by single spaces gives the pieces back. */
  lemma SplitJoin(ps: seq<string>)
    requires |ps| > 0 && WellSplit(Spaces, ps)
    ensures Split(Spaces, Join(ps)) == ps
  {
    if |ps| == 1 {
      assert Join(ps) == ps[0] && NoSep(Spaces, ps[0]);
    } else {
      JoinStart(ps);
      assert !NoSep(Spaces, Join(ps));
      PiecesJoin(ps, "");
      assert "" + ps[0] == ps[0];
      assert [ps[0]] + ps[1..] == ps;
      assert ps[|ps| - 1] != "";
      assert DropTrailingEmpty(ps) == ps;
    }
  }

  /** Re-joining the pieces of a split and splitting again changes
      nothing. */
  lemma SplitJoinSplit(s: string)
    requires Split(Spaces, s) != []
    ensures Split(Spaces, Join(Split(Spaces, s))) == Split(Spaces, s)
  {
    SplitIsWellSplit(Spaces, s);
    SplitJoin(Split(Spaces, s));
  }

  /** `String.trim()`: drops the characters up to `' '` at both ends. */
  function TrimStart(s: string): (r: string)
    ensures |r| <= |s| && r == s[|s| - |r|..]
    ensures r == [] || r[0] > ' '
    ensures forall i :: 0 <= i < |s| - |r| ==> s[i] <= ' '
  {
    if |s| > 0 && s[0] <= ' ' then TrimStart(s[1..]) else s
  }

  function TrimEnd(s: string): (r: string)
    ensures |r| <= |s| && r == s[..|r|]
    ensures r == [] || r[|r| - 1] > ' '
    ensures forall i :: |r| <= i < |s| ==> s[i] <= ' '
  {
    if |s| > 0 && s[|s| - 1] <= ' ' then TrimEnd(s[..|s| - 1]) else s
  }

  function Trim(s: string): string
  {
    TrimEnd(TrimStart(s))
  }

  /** `fvals.trim().split("\\s+")`. */
  function FeatureTokens(fvals: string): seq<string>
  {
    Split(Whitespace, Trim(fvals))
  }

  // ---------------------------------------------------------------------
  // Words
  // ---------------------------------------------------------------------

  /** `words` hold the pieces in order; every word but the last is followed
      by one space, and the last by `last`. */
  predicate SpacedAs(words: seq<Word>, pieces: seq<string>, last: Space)
  {
    && |words| == |pieces|
    && (forall i :: 0 <= i < |words| ==> words[i].text == pieces[i])
    && (forall i :: 0 <= i < |words| - 1 ==> words[i].rightSpace == Some(" "))
    && (|words| > 0 ==> words[|words| - 1].rightSpace == last)
  }

  /** The text the words stand for: each word followed by its right space. */
  function Render(words: seq<Word>): string
  {
    if |words| == 0 then ""
    else words[0].text + (if words[0].rightSpace.Some? then words[0].rightSpace.value else "") + Render(words[1..])
  }

  /** Words spaced as a split spaces them render as the pieces joined by
      single spaces, followed by the last word's right space. */
  lemma {:induction false} RenderSpaced(words: seq<Word>, pieces: seq<string>, last: Space)
    requires |pieces| > 0 && SpacedAs(words, pieces, last)
    ensures Render(words) == Join(pieces) + (if last.Some? then last.value else "")
    decreases |pieces|
  {
    if |pieces| > 1 {
      RenderSpaced(words[1..], pieces[1..], last);
    }
  }

  /** The words `getTranslation` builds from a text read back as that text's
      pieces: rendering them and splitting again gives the same words. */
  lemma TranslationWordsReparse(text: string, words: seq<Word>)
    requires Split(Spaces, text) != [] && SpacedAs(words, Split(Spaces, text), None)
    ensures Split(Spaces, Render(words)) == Split(Spaces, text)
  {
    RenderSpaced(words, Split(Spaces, text), None);
    assert Render(words) == Join(Split(Spaces, text));
    SplitJoinSplit(text);
  }

  /** The words `explode` builds render as the single-spaced text followed
      by one more space. */
  lemma ExplodedRender(text: string, words: seq<Word>)
    requires Split(Spaces, text) != [] && SpacedAs(words, Split(Spaces, text), Some(" "))
    ensures Render(words) == Join(Split(Spaces, text)) + " "
  {
    RenderSpaced(words, Split(Spaces, text), Some(" "));
  }

  /** `Hypothesis.explode`: one word per piece of `text.split(" +")`, every
      word followed by a space. */
  method Explode(text: string) returns (words: seq<Word>)
    ensures SpacedAs(words, Split(Spaces, text), Some(" "))
  {
    var pieces := Split(Spaces, text);
    var a := new Word[|pieces|];
    for i := 0 to |pieces|
      invariant forall k :: 0 <= k < i ==> a[k] == Word(pieces[k], Some(" "))
    {
      a[i] := Word(pieces[i], Some(" "));
    }
    words := a[..];
  }

  // ---------------------------------------------------------------------
  // Grouping feature values
  // ---------------------------------------------------------------------

  /** A token `name=` starts the values of feature `name`. */
  predicate IsName(t: string) { |t| > 0 && t[|t| - 1] == '=' }

  function NameOf(t: string): string
    requires IsName(t)
  {
    t[..|t| - 1]
  }

  /** The state of the grouping loop: the feature being read, the values
      read for it so far and the vectors already stored. */
  datatype GroupState = GroupState(feature: Option<string>, values: seq<string>, scores: map<string, seq<string>>)

  /** Stores the values read for the current feature, if there is one. */
  function Flush(st: GroupState): map<string, seq<string>>
  {
    if st.feature.Some? then st.scores[st.feature.value := st.values] else st.scores
  }

  /** The grouping state after the first `k` tokens. */
  function Scan(tokens: seq<string>, k: nat): GroupState
    requires k <= |tokens|
  {
    if k == 0 then GroupState(None, [], map[])
    else
      var st := Scan(tokens, k - 1);
      var t := tokens[k - 1];
      if IsName(t) then GroupState(Some(NameOf(t)), [], Flush(st))
      else st.(values := st.values + [t])
  }

  /** The feature vectors read from `tokens`. */
  function Grouped(tokens: seq<string>): map<string, seq<string>>
  {
    Flush(Scan(tokens, |tokens|))
  }

  /** The last index below `k` of a token `name=`, or -1. */
  function LastDecl(tokens: seq<string>, name: string, k: nat): (r: int)
    requires k <= |tokens|
    ensures r == -1 || (0 <= r < k && IsName(tokens[r]) && NameOf(tokens[r]) == name)
    ensures forall i :: r < i < k ==> !(IsName(tokens[i]) && NameOf(tokens[i]) == name)
  {
    if k == 0 then -1
    else if IsName(tokens[k - 1]) && NameOf(tokens[k - 1]) == name then k - 1
    else LastDecl(tokens, name, k - 1)
  }

  /** The last index below `k` of any `name=` token, or -1. */
  function LastName(tokens: seq<string>, k: nat): (r: int)
    requires k <= |tokens|
    ensures r == -1 || (0 <= r < k && IsName(tokens[r]))
    ensures forall i :: r < i < k ==> !IsName(tokens[i])
  {
    if k == 0 then -1
    else if IsName(tokens[k - 1]) then k - 1
    else LastName(tokens, k - 1)
  }

  /** The tokens from `i` on, below `k`, up to the first `name=` token. */
  function RunFrom(tokens: seq<string>, i: nat, k: nat): seq<string>
    requires i <= k <= |tokens|
    decreases k - i
  {
    if i == k || IsName(tokens[i]) then [] else [tokens[i]] + RunFrom(tokens, i + 1, k)
  }

  lemma {:induction false} RunFromStops(tokens: seq<string>, i: nat, j: nat, k: nat)
    requires i <= j < k <= |tokens| && IsName(tokens[j])
    ensures RunFrom(tokens, i, k) == RunFrom(tokens, i, j)
    decreases j - i
  {
    if i < j && !IsName(tokens[i]) {
      RunFromStops(tokens, i + 1, j, k);
    }
  }

  /** A run that stops at a `name=` token before `k` is not changed by the
      token at `k`. */
  lemma RunEndsBefore(tokens: seq<string>, i: nat, j: nat, k: nat)
    requires i <= j < k < |tokens| && IsName(tokens[j])
    ensures RunFrom(tokens, i, k + 1) == RunFrom(tokens, i, k)
  {
    RunFromStops(tokens, i, j, k + 1);
    RunFromStops(tokens, i, j, k);
  }

  lemma {:induction false} RunFromExtend(tokens: seq<string>, i: nat, k: nat)
    requires i <= k < |tokens| && !IsName(tokens[k])
    requires forall m :: i <= m < k ==> !IsName(tokens[m])
    ensures RunFrom(tokens, i, k + 1) == RunFrom(tokens, i, k) + [tokens[k]]
    decreases k - i
  {
    if i < k {
      RunFromExtend(tokens, i + 1, k);
    }
  }

  /** A feature declared before the one being read keeps its run when a
      value token is read. */
  lemma EarlierRunKept(tokens: seq<string>, k: nat, ln: nat, name: string)
    requires ln < k < |tokens| && !IsName(tokens[k]) && IsName(tokens[ln])
    requires forall i :: ln < i < k ==> !IsName(tokens[i])
    requires LastDecl(tokens, name, k) != -1 && NameOf(tokens[ln]) != name
    ensures LastDecl(tokens, name, k + 1) == LastDecl(tokens, name, k)
    ensures RunFrom(tokens, LastDecl(tokens, name, k) + 1, k + 1) == RunFrom(tokens, LastDecl(tokens, name, k) + 1, k)
  {
    var d := LastDecl(tokens, name, k);
    assert d < ln;
    RunEndsBefore(tokens, d + 1, ln, k);
  }

  /** The current feature after `k` tokens is the one named last, and its
      values are the tokens since then. */
  ghost predicate CurrentIsLast(tokens: seq<string>, k: nat)
    requires k <= |tokens|
  {
    var st := Scan(tokens, k);
    var ln := LastName(tokens, k);
    && (ln == -1 ==> st.feature.None?)
    && (ln != -1 ==> st.feature == Some(NameOf(tokens[ln])))
    && st.values == RunFrom(tokens, ln + 1, k)
  }

  /** After `k` tokens, `m` holds feature `name` exactly when a `name=` token
      was read, and then the tokens after the last one. */
  ghost predicate StoredAt(tokens: seq<string>, k: nat, m: map<string, seq<string>>, name: string)
    requires k <= |tokens|
  {
    && (name in m <==> LastDecl(tokens, name, k) != -1)
    && (name in m ==> m[name] == RunFrom(tokens, LastDecl(tokens, name, k) + 1, k))
  }

  /** Every feature is held in `m` as `StoredAt` says. */
  ghost predicate StoredAll(tokens: seq<string>, k: nat, m: map<string, seq<string>>)
    requires k <= |tokens|
  {
    forall name :: StoredAt(tokens, k, m, name)
  }

  /** Once the current vector is stored, every feature is held as `StoredAt`
      says. */
  ghost predicate StoredIsLast(tokens: seq<string>, k: nat)
    requires k <= |tokens|
  {
    StoredAll(tokens, k, Flush(Scan(tokens, k)))
  }

  ghost predicate ScanMeaning(tokens: seq<string>, k: nat)
    requires k <= |tokens|
  {
    CurrentIsLast(tokens, k) && StoredIsLast(tokens, k)
  }

  lemma {:induction false} ScanStep(tokens: seq<string>, k: nat)
    requires k < |tokens| && ScanMeaning(tokens, k)
    ensures ScanMeaning(tokens, k + 1)
  {
    if IsName(tokens[k]) {
      ScanName(tokens, k);
    } else {
      ScanValue(tokens, k);
    }
  }

  /** A `name=` token stores the current vector and starts an empty one. */
  lemma ScanName(tokens: seq<string>, k: nat)
    requires k < |tokens| && StoredIsLast(tokens, k) && IsName(tokens[k])
    ensures ScanMeaning(tokens, k + 1)
  {
    var f := NameOf(tokens[k]);
    var m, m' := Flush(Scan(tokens, k)), Flush(Scan(tokens, k + 1));
    assert m' == m[f := []];
    var k1 := k + 1;
    forall name
      ensures StoredAt(tokens, k1, m', name)
    {
      if name == f {
        assert LastDecl(tokens, name, k + 1) == k;
      } else {
        NameKeepsOther(tokens, k, m, m', name);
      }
    }
  }

  /** A `name=` token leaves every other feature as it was. */
  lemma NameKeepsOther(tokens: seq<string>, k: nat, m: map<string, seq<string>>, m': map<string, seq<string>>, name: string)
    requires k < |tokens| && IsName(tokens[k]) && name != NameOf(tokens[k])
    requires StoredAt(tokens, k, m, name)
    requires (name in m' <==> name in m) && (name in m ==> m'[name] == m[name])
    ensures StoredAt(tokens, k + 1, m', name)
  {
    var d := LastDecl(tokens, name, k);
    assert LastDecl(tokens, name, k + 1) == d;
    if d != -1 {
      RunFromStops(tokens, d + 1, k, k + 1);
    }
  }

  /** Any other token extends the current vector, if there is one. */
  lemma ScanValue(tokens: seq<string>, k: nat)
    requires k < |tokens| && ScanMeaning(tokens, k) && !IsName(tokens[k])
    ensures ScanMeaning(tokens, k + 1)
  {
    var st := Scan(tokens, k);
    var ln := LastName(tokens, k);
    assert LastName(tokens, k + 1) == ln;
    RunFromExtend(tokens, ln + 1, k);
    var m, m' := Flush(st), Flush(Scan(tokens, k + 1));
    if st.feature.Some? {
      assert m' == m[NameOf(tokens[ln]) := RunFrom(tokens, ln + 1, k) + [tokens[k]]];
      StoreExtended(tokens, k, ln, m, m');
    } else {
      assert m' == m;
      var k1 := k + 1;
      forall name
        ensures StoredAt(tokens, k1, m', name)
      {
        assert StoredAt(tokens, k, m, name);
        assert LastDecl(tokens, name, k + 1) == LastDecl(tokens, name, k) == -1;
      }
    }
  }

  /** The stored vectors after a value token: only the current feature's
      vector grows. */
  lemma StoreExtended(tokens: seq<string>, k: nat, ln: nat, m: map<string, seq<string>>, m': map<string, seq<string>>)
    requires ln < k < |tokens| && !IsName(tokens[k]) && IsName(tokens[ln])
    requires forall i :: ln < i < k ==> !IsName(tokens[i])
    requires StoredAll(tokens, k, m)
    requires m' == m[NameOf(tokens[ln]) := RunFrom(tokens, ln + 1, k) + [tokens[k]]]
    ensures StoredAll(tokens, k + 1, m')
  {
    var k1 := k + 1;
    forall name
      ensures StoredAt(tokens, k1, m', name)
    {
      if name == NameOf(tokens[ln]) {
        ValueExtendsCurrent(tokens, k, ln, m');
      } else {
        ValueKeepsOther(tokens, k, ln, m, m', name);
      }
    }
  }

  /** The current feature's vector grows by the value token. */
  lemma ValueExtendsCurrent(tokens: seq<string>, k: nat, ln: nat, m': map<string, seq<string>>)
    requires ln < k < |tokens| && !IsName(tokens[k]) && IsName(tokens[ln])
    requires forall i :: ln < i < k ==> !IsName(tokens[i])
    requires NameOf(tokens[ln]) in m' && m'[NameOf(tokens[ln])] == RunFrom(tokens, ln + 1, k) + [tokens[k]]
    ensures StoredAt(tokens, k + 1, m', NameOf(tokens[ln]))
  {
    RunFromExtend(tokens, ln + 1, k);
    assert LastDecl(tokens, NameOf(tokens[ln]), k + 1) == ln;
  }

  /** A value token leaves every other feature as it was. */
  lemma ValueKeepsOther(tokens: seq<string>, k: nat, ln: nat, m: map<string, seq<string>>, m': map<string, seq<string>>, name: string)
    requires ln < k < |tokens| && !IsName(tokens[k]) && IsName(tokens[ln])
    requires forall i :: ln < i < k ==> !IsName(tokens[i])
    requires name != NameOf(tokens[ln]) && StoredAt(tokens, k, m, name)
    requires (name in m' <==> name in m) && (name in m ==> m'[name] == m[name])
    ensures StoredAt(tokens, k + 1, m', name)
  {
    var d := LastDecl(tokens, name, k);
    assert LastDecl(tokens, name, k + 1) == d;
    if d != -1 {
      EarlierRunKept(tokens, k, ln, name);
    }
  }

  lemma {:induction false} ScanMeaningHolds(tokens: seq<string>, k: nat)
    requires k <= |tokens|
    ensures ScanMeaning(tokens, k)
  {
    if k == 0 {
      assert Flush(Scan(tokens, 0)) == map[];
    } else {
      ScanMeaningHolds(tokens, k - 1);
      ScanStep(tokens, k - 1);
    }
  }

  /** The vector of one feature: present exactly when some token names it,
      and then the tokens after the LAST token naming it, up to the next
      `name=` token or the end. */
  lemma GroupedAt(tokens: seq<string>, name: string)
    ensures name in Grouped(tokens) <==> LastDecl(tokens, name, |tokens|) != -1
    ensures name in Grouped(tokens) ==>
              Grouped(tokens)[name] == RunFrom(tokens, LastDecl(tokens, name, |tokens|) + 1, |tokens|)
  {
    ScanMeaningHolds(tokens, |tokens|);
    assert StoredAt(tokens, |tokens|, Grouped(tokens), name);
  }

  /** A `name=` token followed at once by another `name=` token, or by the
      end, and not named again later, gives an empty vector. */
  lemma EmptyFeature(tokens: seq<string>, i: nat)
    requires i < |tokens| && IsName(tokens[i])
    requires i + 1 == |tokens| || IsName(tokens[i + 1])
    requires LastDecl(tokens, NameOf(tokens[i]), |tokens|) == i
    ensures NameOf(tokens[i]) in Grouped(tokens) && Grouped(tokens)[NameOf(tokens[i])] == []
  {
    GroupedAt(tokens, NameOf(tokens[i]));
  }

  lemma {:induction false} LastDeclShift(vs: seq<string>, rest: seq<string>, name: string, k: nat)
    requires k <= |rest| && forall m :: 0 <= m < |vs| ==> !IsName(vs[m])
    ensures LastDecl(vs + rest, name, |vs| + k) == if LastDecl(rest, name, k) == -1 then -1 else |vs| + LastDecl(rest, name, k)
    decreases |vs| + k
  {
    if k > 0 {
      assert (vs + rest)[|vs| + k - 1] == rest[k - 1];
      LastDeclShift(vs, rest, name, k - 1);
    } else if |vs| > 0 {
      LastDeclShift(vs[..|vs| - 1], [vs[|vs| - 1]] + rest, name, 0);
      assert vs[..|vs| - 1] + ([vs[|vs| - 1]] + rest) == vs + rest;
    }
  }

  lemma {:induction false} RunFromShift(vs: seq<string>, rest: seq<string>, i: nat, k: nat)
    requires i <= k <= |rest|
    ensures RunFrom(vs + rest, |vs| + i, |vs| + k) == RunFrom(rest, i, k)
    decreases k - i
  {
    if i < k {
      assert (vs + rest)[|vs| + i] == rest[i];
      RunFromShift(vs, rest, i + 1, k);
    }
  }

  /** Values before the first `name=` token belong to no feature: dropping
      them changes nothing. */
  lemma LeadingValuesDropped(vs: seq<string>, rest: seq<string>)
    requires forall m :: 0 <= m < |vs| ==> !IsName(vs[m])
    ensures Grouped(vs + rest) == Grouped(rest)
  {
    forall name
      ensures name in Grouped(vs + rest) <==> name in Grouped(rest)
      ensures name in Grouped(rest) ==> Grouped(vs + rest)[name] == Grouped(rest)[name]
    {
      LeadingValuesDroppedAt(vs, rest, name);
    }
  }

  lemma LeadingValuesDroppedAt(vs: seq<string>, rest: seq<string>, name: string)
    requires forall m :: 0 <= m < |vs| ==> !IsName(vs[m])
    ensures name in Grouped(vs + rest) <==> name in Grouped(rest)
    ensures name in Grouped(rest) ==> Grouped(vs + rest)[name] == Grouped(rest)[name]
  {
    GroupedAt(vs + rest, name);
    GroupedAt(rest, name);
    LastDeclShift(vs, rest, name, |rest|);
    assert |vs + rest| == |vs| + |rest|;
    if name in Grouped(rest) {
      RunFromShift(vs, rest, LastDecl(rest, name, |rest|) + 1, |rest|);
    }
  }

  /** The grouping loop of `getTranslationHypothesis`: a `name=` token (or
      the end) stores the values read for the current feature and starts a
      new one; any other token is the next value. */
  method GroupFeatures(tokens: seq<string>) returns (scores: map<string, seq<string>>)
    ensures scores == Grouped(tokens)
  {
    scores := map[];
    var feature: Option<string> := None;
    var weights := new string[|tokens|];
    var index := 0;
    for i := 0 to |tokens| + 1
      invariant i <= |tokens| ==> feature == Scan(tokens, i).feature && scores == Scan(tokens, i).scores
      invariant i <= |tokens| ==> index <= i && weights[..index] == Scan(tokens, i).values
      invariant i == |tokens| + 1 ==> scores == Grouped(tokens)
    {
      var token: Option<string> := if i < |tokens| then Some(tokens[i]) else None;
      if token.None? || IsName(token.value) {
        if feature.Some? {
          scores := scores[feature.value := weights[..index]];
        }
        if token.Some? {
          feature := Some(NameOf(token.value));
        }
        index := 0;
      } else {
        weights[index] := token.value;
        index := index + 1;
      }
    }
  }

  // ---------------------------------------------------------------------
  // Hypotheses and translations
  // ---------------------------------------------------------------------

  /** A translation hypothesis as the decoder builds it: words, the source
      sentence, no alignment, the total score and the feature vectors. */
  datatype TranslationHypothesis = TranslationHypothesis(
    words: seq<Word>, source: Sentence, alignment: Option<Alignment>,
    totalScore: real, scores: map<string, seq<string>>)

  /** One entry of the decoder's n-best list. */
  datatype Hypothesis = Hypothesis(text: string, totalScore: real, fvals: string)
  {
    /** What `getTranslationHypothesis` promises of `h`. */
    ghost predicate Built(source: Sentence, h: TranslationHypothesis)
    {
      && SpacedAs(h.words, Split(Spaces, text), Some(" "))
      && h.source == source && h.alignment.None?
      && h.totalScore == totalScore
      && h.scores == Grouped(FeatureTokens(fvals))
    }

    /** `getTranslationHypothesis`: the exploded text and the grouped
        feature vectors. */
    method GetTranslationHypothesis(source: Sentence) returns (h: TranslationHypothesis)
      ensures Built(source, h)
    {
      var tokens := FeatureTokens(fvals);
      var scores := GroupFeatures(tokens);
      var words := Explode(text);
      h := TranslationHypothesis(words, source, None, totalScore, scores);
    }
  }

  /** The words of the best text in `getTranslation`: one word per piece of
      `text.split(" +")`, every word but the last followed by a space. */
  method TranslationWords(text: string) returns (words: seq<Word>)
    ensures SpacedAs(words, Split(Spaces, text), None)
  {
    var pieces := Split(Spaces, text);
    var a := new Word[|pieces|];
    for i := 0 to |pieces|
      invariant forall k :: 0 <= k < i ==>
                  a[k] == Word(pieces[k], if k < |pieces| - 1 then Some(" ") else None)
    {
      a[i] := Word(pieces[i], if i < |pieces| - 1 then Some(" ") else None);
    }
    words := a[..];
  }

  /** The n-best loop of `getTranslation`: one hypothesis per entry, in order. */
  method NBest(list: seq<Hypothesis>, source: Sentence) returns (nbest: seq<TranslationHypothesis>)
    ensures |nbest| == |list|
    ensures forall k :: 0 <= k < |list| ==> list[k].Built(source, nbest[k])
  {
    nbest := [];
    for i := 0 to |list|
      invariant |nbest| == i
      invariant forall k :: 0 <= k < i ==> list[k].Built(source, nbest[k])
    {
      var h := list[i].GetTranslationHypothesis(source);
      forall k | 0 <= k < i + 1
        ensures list[k].Built(source, (nbest + [h])[k])
      {
        if k < i {
          assert (nbest + [h])[k] == nbest[k];
        }
      }
      nbest := nbest + [h];
    }
  }

  /** The translation handed back to the engine: words, source sentence,
      alignment and, when there is one, the n-best list. */
  datatype DecoderTranslation = DecoderTranslation(
    words: seq<Word>, source: Sentence, alignment: Option<Alignment>,
    nbest: Option<seq<TranslationHypothesis>>)

  /** What the decoder returns: the best text, the n-best list (`None` for
      Java's `null`) and the alignment. */
  datatype TranslationXObject = TranslationXObject(
    text: string, nbestList: Option<seq<Hypothesis>>, alignment: Option<Alignment>)
  {
    /** `getTranslation`: the words of the best text, the alignment as
        given and, only when the n-best list is there and not empty, one
        hypothesis per entry in the same order. */
    method GetTranslation(source: Sentence) returns (t: DecoderTranslation)
      ensures SpacedAs(t.words, Split(Spaces, text), None)
      ensures t.source == source && t.alignment == alignment
      ensures t.nbest.Some? <==> nbestList.Some? && |nbestList.value| > 0
      ensures t.nbest.Some? ==>
                |t.nbest.value| == |nbestList.value|
                && forall i :: 0 <= i < |t.nbest.value| ==> nbestList.value[i].Built(source, t.nbest.value[i])
    {
      var words := TranslationWords(text);
      t := DecoderTranslation(words, source, alignment, None);
      if nbestList.Some? && |nbestList.value| > 0 {
        var nbest := NBest(nbestList.value, source);
        t := t.(nbest := Some(nbest));
      }
    }
  }
}
