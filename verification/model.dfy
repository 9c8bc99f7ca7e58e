/** The tagged-sentence model shared by the tag projector, the decoder output
    parser and the post-processor: words, tags, sentences and word alignments. */
module Model {

  datatype Option<+T> = None | Some(value: T)

  /** Whitespace text that follows a token; `None` stands for Java's `null`. */
  type Space = Option<string>

  /** The three kinds of markup tag. */
  datatype TagKind = Opening | Closing | SelfClosing

  /** A markup tag sitting in the gap before word `position`. */
  datatype Tag = Tag(name: string, kind: TagKind, position: nat, leftSpace: bool, rightSpace: Space)
  {
    predicate IsOpening() { kind == Opening }

    /** `this.opens(t)`: this is an opening tag and `t` the closing tag of the same name. */
    predicate Opens(t: Tag) { kind == Opening && t.kind == Closing && name == t.name }

    predicate HasRightSpace() { rightSpace.Some? }

    /** `Tag.fromTag(this)` followed by `setPosition(p)`. */
    function MovedTo(p: nat): (r: Tag)
      ensures r.name == name && r.kind == kind && r.position == p
      ensures r.leftSpace == leftSpace && r.rightSpace == rightSpace
    {
      this.(position := p)
    }
  }

  /** A word with its text and the whitespace that follows it. */
  datatype Word = Word(text: string, rightSpace: Space)
  {
    predicate HasRightSpace() { rightSpace.Some? }
  }

  /** A sentence: its words and its tags (tags in array order). */
  datatype Sentence = Sentence(words: seq<Word>, tags: seq<Tag>)
  {
    predicate HasTags() { |tags| > 0 }
    predicate HasWords() { |words| > 0 }
  }

  /** One row `{sourceIndex, targetIndex}` of the `int[][]` alignment. */
  datatype AlignPoint = AlignPoint(src: nat, tgt: nat)

  type Alignment = seq<AlignPoint>
}
