/** Finding the closing partner of a tag (`getClosingTagIndex`), the counter
    it runs, and the fact that two tags never share a closing partner. */
module TagMatching {
  import opened Model

  /** The value of `open` in `getClosingTagIndex(tags[i], i, tags)` once the
      tags `i+1..j` have been looked at: it starts at 1, goes up for every
      same-name opening tag and down for every tag that `tags[i]` opens. */
  function Depth(tags: seq<Tag>, i: nat, j: nat): int
    requires i <= j < |tags|
    decreases j - i
  {
    if j == i then 1
    else Depth(tags, i, j - 1)
         + (if tags[i].name == tags[j].name && tags[j].IsOpening() then 1 else 0)
         - (if tags[i].Opens(tags[j]) then 1 else 0)
  }

  /** Searches `j, j+1, ...` for the first index at which the counter of
      `tags[i]` reaches 0, given that it is still positive just before `j`. */
  function CloserFrom(tags: seq<Tag>, i: nat, j: nat): (r: int)
    requires i < j <= |tags|
    requires Depth(tags, i, j - 1) > 0
    ensures r == -1 || j <= r < |tags|
    ensures r != -1 ==> Depth(tags, i, r) == 0 && tags[i].Opens(tags[r])
    ensures forall k :: j <= k < (if r == -1 then |tags| else r) ==> Depth(tags, i, k) > 0
    decreases |tags| - j
  {
    if j == |tags| then -1
    else if Depth(tags, i, j) == 0 then j
    else CloserFrom(tags, i, j + 1)
  }

  /** The index of the closing partner of `tags[i]`, or -1 when it has none:
      the first index after `i` at which the same-name counter reaches 0. */
  function Closer(tags: seq<Tag>, i: nat): (r: int)
    requires i < |tags|
    ensures r == -1 || i < r < |tags|
    ensures r != -1 ==> Depth(tags, i, r) == 0 && tags[i].Opens(tags[r])
    ensures forall k :: i < k < (if r == -1 then |tags| else r) ==> Depth(tags, i, k) > 0
  {
    CloserFrom(tags, i, i + 1)
  }

  /** `getClosingTagIndex`: walks the tags after `tagIndex` keeping the
      same-name counter and returns the index where it first drops to 0. */
  method GetClosingTagIndex(openingTag: Tag, tagIndex: nat, tags: seq<Tag>) returns (r: int)
    requires tagIndex < |tags| && tags[tagIndex] == openingTag
    ensures r == -1 || tagIndex < r < |tags|
    ensures r != -1 ==> openingTag.Opens(tags[r]) && Depth(tags, tagIndex, r) == 0
    ensures forall k :: tagIndex < k < (if r == -1 then |tags| else r) ==> Depth(tags, tagIndex, k) != 0
    ensures r == Closer(tags, tagIndex)
  {
    var minIndex := tagIndex + 1;
    var open := 1;
    var index := minIndex;
    while index < |tags|
      invariant minIndex <= index <= |tags|
      invariant open == Depth(tags, tagIndex, index - 1) && open > 0
      invariant forall k :: tagIndex < k < index ==> Depth(tags, tagIndex, k) > 0
      invariant Closer(tags, tagIndex) == -1 || index <= Closer(tags, tagIndex)
    {
      var tag := tags[index];
      // `getClosingTagIndex` first skips `tag` when it is the very object
      // `openingTag`; tags are distinct objects and `index > tagIndex`, so
      // that never happens.
      if openingTag.name == tag.name && tag.IsOpening() {
        open := open + 1;
      }
      if openingTag.Opens(tag) {
        open := open - 1;
        if open == 0 {
          return index;
        }
      }
      index := index + 1;
    }
    return -1;
  }

  /** Two tags with the same name that are both opening shift the counter
      in the same way after the later one. */
  lemma {:induction false} DepthShift(tags: seq<Tag>, i: nat, i2: nat, k: nat)
    requires i < i2 <= k < |tags|
    requires tags[i].IsOpening() && tags[i2].IsOpening() && tags[i].name == tags[i2].name
    ensures Depth(tags, i, k) == Depth(tags, i, i2) + Depth(tags, i2, k) - 1
    decreases k
  {
    if k > i2 {
      DepthShift(tags, i, i2, k - 1);
    }
  }

  /** Only an opening tag has a closing partner, and that partner is a
      closing tag. */
  lemma CloserIsOpening(tags: seq<Tag>, i: nat)
    requires i < |tags| && Closer(tags, i) != -1
    ensures tags[i].kind == Opening && tags[Closer(tags, i)].kind == Closing
  {
  }

  /** Two different tags never have the same closing partner. */
  lemma {:induction false} CloserInjective(tags: seq<Tag>, i: nat, i2: nat)
    requires i < i2 < |tags| && Closer(tags, i) != -1
    ensures Closer(tags, i) != Closer(tags, i2)
  {
    var c := Closer(tags, i);
    if c == Closer(tags, i2) {
      assert tags[i].Opens(tags[c]) && tags[i2].Opens(tags[c]);
      assert Depth(tags, i, i2 - 1) > 0;
      assert Depth(tags, i, i2) >= 2;
      DepthShift(tags, i, i2, c);
      assert false;
    }
  }

  /** Searches `b-1, b-2, ..., 0` for a tag whose closing partner is `j`. */
  function OpenerBelow(tags: seq<Tag>, j: nat, b: nat): (r: int)
    requires j < |tags| && b <= |tags|
    ensures r == -1 ==> forall i :: 0 <= i < b ==> Closer(tags, i) != j
    ensures r != -1 ==> 0 <= r < b && r < j && Closer(tags, r) == j
  {
    if b == 0 then -1
    else if Closer(tags, b - 1) == j then b - 1
    else OpenerBelow(tags, j, b - 1)
  }

  /** The tag whose closing partner is `tags[j]`, or -1 when there is none;
      it is unique. */
  function OpenerOf(tags: seq<Tag>, j: nat): (r: int)
    requires j < |tags|
    ensures r == -1 ==> forall i :: 0 <= i < |tags| ==> Closer(tags, i) != j
    ensures r != -1 ==> 0 <= r < j && Closer(tags, r) == j
    ensures r != -1 ==> forall i :: 0 <= i < |tags| && Closer(tags, i) == j ==> i == r
  {
    var r := OpenerBelow(tags, j, |tags|);
    if r != -1 then
      assert forall i :: 0 <= i < |tags| && i != r ==> Closer(tags, i) != j by {
        forall i | 0 <= i < |tags| && i != r
          ensures Closer(tags, i) != j
        {
          if i < r && Closer(tags, i) == j { CloserInjective(tags, i, r); }
          else if r < i { CloserInjective(tags, r, i); }
        }
      }
      r
    else r
  }
}
