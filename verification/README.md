# Tag projection, decoder output and post-processing pipeline choice

This project models three parts of a machine-translation engine in Dafny and proves
properties of them.

1. **The XML tag projector** (`XMLTagProjector`).
   - A source sentence carries markup tags, each sitting in a gap between words. Its
     translation comes with a word alignment: pairs of (source word, target word).
   - The projector gives every source tag a gap in the translation:
     - An opening/closing pair that encloses aligned source words encloses the
       aligned target words.
     - Every other tag goes to the gap that keeps the most aligned words on the same
       side of it as in the source. Ties go right for opening tags and left for
       the others.
     - A closing tag is never put before its self-placed opening partner.
   - The projected tags are sorted by (gap, source tag index). Then the whitespace
     around the tags is tidied along the merged stream of words and tags.
2. **Reading the decoder's output** (`TranslationXObject`).
   - The best translation text is split into words on runs of spaces. The n-best
     hypotheses are split the same way.
   - A hypothesis's feature string `name= v v name= v ...` is grouped into one value
     vector per feature.
3. **The post-processor** (`Postprocessor`).
   - It holds two pipelines, one with and one without a detokenizer. It picks one of
     them from a flag.
   - A batch is fed to the chosen pipeline through a cursor (`BatchTask`). The
     cursor hands out the translations in order and then nothing.

Files:
- `model.dfy` (module `Model`): words, tags, sentences and alignments.
- `closing.dfy` (`TagMatching`): the closing partner of a tag.
- `placement.dfy` (`Placement`): the aligned span of a pair, and the self-closing
  placement with its scoring scan.
- `identity.dfy` (`IdentityProjection`): the projection under the identity
  alignment.
- `projection.dfy` (`TagProjection`, `ProjectionExample`):
  - the projected gap of every tag;
  - the imperative `mapTags`;
  - the sort;
  - the example of `main`.
- `translation.dfy` (`Projector`): the translation object with `call` and the
  whitespace passes of `simpleSpaceAnalysis`.
- `decoder.dfy` (`MosesOutput`): Java's `String.split` and `String.trim`, the
  decoder words, feature grouping, hypotheses and `getTranslation`.
- `postprocessor.dfy` (`Postprocessing`): the stage lists, the pipeline choice and
  the batch cursor.

How each operation is stated:
- `mapTags` is specified tag by tag. `Projected(tags, al, n, j)` is the gap of tag
  `j` in a translation of `n` words. It is stated from the closing partner
  (`Closer`), its inverse (`OpenerOf`), the aligned span (`SpanMin`/`SpanMax`) and
  the best-scoring gap (`SelfClosingGap`). The imperative method, with its
  `alignedTags` set, its `closing2opening` map, its list of projected tags and its
  insertion sort, is proved to produce exactly that.
- The whitespace pass is a function of the stream (`SpacePass`): one visit per
  token of the token order, then the last right space cleared. The imperative
  pass is proved equal to it, and it is proved to leave the stream *tidy*:
  - no tag without a left space follows a token with a right space;
  - a leading tag has no left space;
  - the last token has no right space.
  It also changes nothing but whitespace, keeps every tag's left space but the
  leading tag's, and only moves or removes spaces.
- With the identity alignment (`IdentityProjection`), every tag keeps its own
  gap.
- The grouping loop is proved to compute a declarative grouping. That grouping is
  then characterised per feature: a feature's values are the tokens after its
  *last* `name=` token.

Three behaviours of the code that the model keeps as they are:
- With tags and words in the source but no alignment, `call` does nothing and
  raises no error (`XMLTagProjector.java:58`).
- In the `main` example, only the alignment point (3, 3) lies inside the `<i>`
  pair, so `<i>` is projected to gap 3 and `</i>` to gap 4
  (`ProjectionExample.MainExample`).
- The "no words" branch of `call` tests the source sentence, not the target.

## Model

| member | source | states |
|---|---|---|
| TagMatching.Closer | src/TextProcessing/src/main/java/eu/modernmt/processing/xml/XMLTagProjector.java:227-246 | the closing partner of `tags[i]` is -1 or an index after `i`; there the same-name counter first reaches 0 and `tags[i]` opens that tag; the counter stays positive before it |
| TagMatching.GetClosingTagIndex | src/TextProcessing/src/main/java/eu/modernmt/processing/xml/XMLTagProjector.java:227-246 | the counter loop returns -1 or the first index after `tagIndex` where the counter reaches 0, at a tag the opener opens; it equals `Closer` |
| TagMatching.CloserIsOpening | src/TextProcessing/src/main/java/eu/modernmt/processing/xml/XMLTagProjector.java:235-238 | only an opening tag has a closing partner, and the partner is a closing tag |
| TagMatching.CloserInjective | src/TextProcessing/src/main/java/eu/modernmt/processing/xml/XMLTagProjector.java:227-246 | two different tags never have the same closing partner |
| TagMatching.OpenerOf | src/TextProcessing/src/main/java/eu/modernmt/processing/xml/XMLTagProjector.java:198-203 | the tag whose closing partner is `j` comes before `j` and is unique; -1 means no tag has `j` as its partner |
| Placement.SpanMax | src/TextProcessing/src/main/java/eu/modernmt/processing/xml/XMLTagProjector.java:103-112 | -1 exactly when no alignment point has its source word in `[lo, hi)`; otherwise the greatest target word of such a point |
| Placement.SpanMin | src/TextProcessing/src/main/java/eu/modernmt/processing/xml/XMLTagProjector.java:103-112 | -1 exactly when no point lies in `[lo, hi)`; otherwise the least target word of such a point |
| Placement.AlignedSpan | src/TextProcessing/src/main/java/eu/modernmt/processing/xml/XMLTagProjector.java:103-112 | the scan over the alignment yields the min and max target word aligned inside the pair; `maxPos == -1` exactly when there is none |
| Placement.SpanMinAtMostMax | src/TextProcessing/src/main/java/eu/modernmt/processing/xml/XMLTagProjector.java:115-120 | when the pair has aligned words, `0 <= min <= max`, so the opening tag comes strictly before the closing one (`max + 1`) |
| Placement.SidesSnoc | src/TextProcessing/src/main/java/eu/modernmt/processing/xml/XMLTagProjector.java:143-157 | one more alignment point adds its target word to the left set (source word before the tag) or the right set, and only when no earlier point mentioned that word |
| Placement.SidesPartition | src/TextProcessing/src/main/java/eu/modernmt/processing/xml/XMLTagProjector.java:139-157 | the left and right sets are disjoint and together hold every aligned target word |
| Placement.SidesStep | src/TextProcessing/src/main/java/eu/modernmt/processing/xml/XMLTagProjector.java:143-157 | one more point puts its target word on the left side when its source word is left of the tag and the word is not on the right side yet, and symmetrically for the right side |
| Placement.SplitSides | src/TextProcessing/src/main/java/eu/modernmt/processing/xml/XMLTagProjector.java:139-157 | the loop filling `sourceLeftToken`/`sourceRightToken` yields the left and right sets decided by the first mention of each target word |
| Placement.BestUpToIsBest | src/TextProcessing/src/main/java/eu/modernmt/processing/xml/XMLTagProjector.java:188-191 | after scoring gaps `0..p`, the chosen gap has the greatest score so far; for an opening tag no later gap scores as much, for other tags no earlier gap does |
| Placement.BestGapUnique | src/TextProcessing/src/main/java/eu/modernmt/processing/xml/XMLTagProjector.java:188-197 | for a given tag kind, only one gap satisfies the tie-breaking rule |
| Placement.SelfClosingGap | src/TextProcessing/src/main/java/eu/modernmt/processing/xml/XMLTagProjector.java:158-197 | a gap in `0..n` of maximum score: the right-most maximum for an opening tag, the left-most otherwise |
| Placement.CountInExtend | src/TextProcessing/src/main/java/eu/modernmt/processing/xml/XMLTagProjector.java:182-186 | counting a set's members in a range grows by one exactly when the next word is a member |
| Placement.RightCountStart | src/TextProcessing/src/main/java/eu/modernmt/processing/xml/XMLTagProjector.java:165-170 | before the scan, the right intersection has as many words as the right set has below `n` (the score of gap 0) |
| Placement.MoveLeft | src/TextProcessing/src/main/java/eu/modernmt/processing/xml/XMLTagProjector.java:177-186 | moving target word `i` from the right set of the scan to the left set changes each intersection by one exactly when `i` is in it |
| Placement.GrowLeft | src/TextProcessing/src/main/java/eu/modernmt/processing/xml/XMLTagProjector.java:177 | adding word `i` to the left-hand candidates `0..i-1` gives the words `0..i` |
| Placement.ShrinkRight | src/TextProcessing/src/main/java/eu/modernmt/processing/xml/XMLTagProjector.java:178 | removing word `i` from the right-hand candidates `i..n-1` gives the words `i+1..n-1` |
| Placement.ScanMove | src/TextProcessing/src/main/java/eu/modernmt/processing/xml/XMLTagProjector.java:177-186 | after word `i` moves to the left candidates, the candidate sets are the words before and after gap `i + 1`, and the two intersection sizes add up to that gap's score |
| Placement.ScoreNextGap | src/TextProcessing/src/main/java/eu/modernmt/processing/xml/XMLTagProjector.java:175-186 | the first half of one loop iteration: it moves word `i` and returns the score of gap `i + 1`, keeping the scan's set invariant |
| Placement.AllWords | src/TextProcessing/src/main/java/eu/modernmt/processing/xml/XMLTagProjector.java:165-167 | the loop fills `targetRightToken` with exactly the words `0..n-1` |
| Placement.BestPosition | src/TextProcessing/src/main/java/eu/modernmt/processing/xml/XMLTagProjector.java:158-197 | the full scoring scan, with no early exit, returns a gap in `0..n` that maximises the score with the tie-breaking rule; it is `SelfClosingGap` |
| TagProjection.SelfPosition | src/TextProcessing/src/main/java/eu/modernmt/processing/xml/XMLTagProjector.java:138-197 | a tag placed as self-closing lands in a gap `0..n` |
| TagProjection.OpenerAndCloserExclusive | src/TextProcessing/src/main/java/eu/modernmt/processing/xml/XMLTagProjector.java:198-203 | a tag that closes another has no closing partner of its own, and a tag with a closing partner closes nothing |
| TagProjection.AlignedPairProjection | src/TextProcessing/src/main/java/eu/modernmt/processing/xml/XMLTagProjector.java:100-131 | for a pair with aligned interior, the opening tag goes to the least aligned target word and the closing tag after the greatest; open < close |
| TagProjection.PairStaysOrdered | src/TextProcessing/src/main/java/eu/modernmt/processing/xml/XMLTagProjector.java:198-203 | a closing tag never lands before its opening partner, aligned or not (the clamp `max(opening, best)`) |
| TagProjection.ProjectedInRange | src/TextProcessing/src/main/java/eu/modernmt/processing/xml/XMLTagProjector.java:100-209 | when every aligned target word is below `n`, every projected gap lies in `0..n` |
| TagProjection.ExtendedTag.CompareTo | src/TextProcessing/src/main/java/eu/modernmt/processing/xml/XMLTagProjector.java:31-37 | negative exactly when this tag's gap is smaller, or equal with a smaller source tag index; zero exactly when both are equal |
| TagProjection.InsertSorted | src/TextProcessing/src/main/java/eu/modernmt/processing/xml/XMLTagProjector.java:213 | inserting after the elements not after `x` and before those after it keeps a list sorted |
| TagProjection.Insert | src/TextProcessing/src/main/java/eu/modernmt/processing/xml/XMLTagProjector.java:213 | one insertion step gives a sorted list with the same elements plus `x` |
| TagProjection.SortTags | src/TextProcessing/src/main/java/eu/modernmt/processing/xml/XMLTagProjector.java:213 | the sort gives a list sorted by `CompareTo` that is a permutation of its input |
| TagProjection.ProgressDone | src/TextProcessing/src/main/java/eu/modernmt/processing/xml/XMLTagProjector.java:88-210 | once the main loop is over, the list holds each source tag index exactly once |
| TagProjection.SortedProjection | src/TextProcessing/src/main/java/eu/modernmt/processing/xml/XMLTagProjector.java:212-216 | sorting a list with each tag's projection once gives a list strictly increasing by `CompareTo`, with the same projections |
| TagProjection.PairStep | src/TextProcessing/src/main/java/eu/modernmt/processing/xml/XMLTagProjector.java:111-126 | adding both projections of an aligned pair to the list and both indices to `alignedTags` keeps the loop invariant one index further, with `closing2opening` unchanged |
| TagProjection.SingleStep | src/TextProcessing/src/main/java/eu/modernmt/processing/xml/XMLTagProjector.java:198-208 | a self-placed tag lands at its self-closing gap, clamped to at least the gap recorded under it; adding it, and recording its gap under its closing partner when it is an unrecorded opener, keeps the loop invariant one index further |
| TagProjection.PlaceTag | src/TextProcessing/src/main/java/eu/modernmt/processing/xml/XMLTagProjector.java:95-209 | one iteration for a tag not yet placed keeps the loop invariant: the list holds each placed tag (every tag looked at, plus the closing partners of aligned pairs) once, at its `Projected` gap; `alignedTags` is exactly that set; `closing2opening` holds the self-placed gap of every unaligned opener looked at, under its closing partner |
| TagProjection.MapTags | src/TextProcessing/src/main/java/eu/modernmt/processing/xml/XMLTagProjector.java:71-225 | one projected tag per source tag, each at its `Projected` gap with its markup kept, strictly ordered by (gap, source tag index) and numbered in that order; the result array holds their tags |
| TagProjection.NumberTags | src/TextProcessing/src/main/java/eu/modernmt/processing/xml/XMLTagProjector.java:214-221 | entry `k` of the sorted list gets target index `k`, and the result array lists the tags in that order |
| ProjectionExample.MainExample | src/TextProcessing/src/main/java/eu/modernmt/processing/xml/XMLTagProjector.java:297-321 | in the example sentence, `<i>` projects to gap 3 and `</i>` to gap 4 |
| IdentityProjection.IdentitySpan | src/TextProcessing/src/main/java/eu/modernmt/processing/xml/XMLTagProjector.java:103-112 | under the identity alignment the inside `[lo, hi)` of a pair reaches the target words `lo..hi-1`: its least word is `lo` and its greatest `hi-1`; an empty inside reaches none |
| IdentityProjection.IdentitySides | src/TextProcessing/src/main/java/eu/modernmt/processing/xml/XMLTagProjector.java:139-157 | under the identity alignment the left side of a tag is the words before its gap and the right side the words from it on |
| IdentityProjection.IdentityScore | src/TextProcessing/src/main/java/eu/modernmt/processing/xml/XMLTagProjector.java:165-186 | under the identity alignment gap `q` scores `n - abs(pos - q)` for a tag at gap `pos` |
| IdentityProjection.IdentitySelfPosition | src/TextProcessing/src/main/java/eu/modernmt/processing/xml/XMLTagProjector.java:158-197 | under the identity alignment a self-placed tag keeps its own gap, for either tie rule |
| IdentityProjection.IdentityProjectsInPlace | src/TextProcessing/src/main/java/eu/modernmt/processing/xml/XMLTagProjector.java:95-209 | with the identity alignment over `n` words and tag gaps in order within `0..n`, every tag is projected to its own gap, whether paired, clamped or self-placed |
| IdentityProjection.IdentityMapTags | src/TextProcessing/src/main/java/eu/modernmt/processing/xml/XMLTagProjector.java:71-225 | so `mapTags` then gives back every source tag unchanged |
| Projector.Merge | src/TextProcessing/src/main/java/eu/modernmt/processing/xml/XMLTagProjector.java:269 | the token stream has one entry per word and per tag still to merge, each a valid word or tag |
| Projector.MergeCovers | src/TextProcessing/src/main/java/eu/modernmt/processing/xml/XMLTagProjector.java:269 | every word and every tag appears in the token stream |
| Projector.MergeOrdered | src/TextProcessing/src/main/java/eu/modernmt/processing/xml/XMLTagProjector.java:269 | no token appears twice; words come in order, and so do tags |
| Projector.TokenOrderIsPermutation | src/TextProcessing/src/main/java/eu/modernmt/processing/xml/XMLTagProjector.java:269 | the translation's tokens are each word and each tag exactly once |
| Projector.TrailingStart | src/TextProcessing/src/main/java/eu/modernmt/processing/xml/XMLTagProjector.java:253-258 | the start of the run of tags, at the end of the tag array, that sit after the last word |
| Projector.TrailingSpaced | src/TextProcessing/src/main/java/eu/modernmt/processing/xml/XMLTagProjector.java:250-264 | only the last word can change; it ends with a right space exactly when it had one or the first tag after it has a left space; a space it had is kept and a new one is `" "` |
| Projector.MoveEffect | src/TextProcessing/src/main/java/eu/modernmt/processing/xml/XMLTagProjector.java:272-276 | visiting a tag with no left space after a spaced token clears that token's right space; the tag takes the space unless it had one; nothing else changes |
| Projector.KeptLeftSpaces | src/TextProcessing/src/main/java/eu/modernmt/processing/xml/XMLTagProjector.java:277-280 | once every token is visited, every tag has its old left space except the leading tag, which has none |
| Projector.VisitStays | src/TextProcessing/src/main/java/eu/modernmt/processing/xml/XMLTagProjector.java:270-282 | a word, a tag with a left space, or a tag after an unspaced token is left alone, and the pass invariant extends over it |
| Projector.VisitFirst | src/TextProcessing/src/main/java/eu/modernmt/processing/xml/XMLTagProjector.java:277-280 | visiting the first token (a leading tag loses its left space) establishes the pass invariant for one token |
| Projector.VisitMoves | src/TextProcessing/src/main/java/eu/modernmt/processing/xml/XMLTagProjector.java:272-276 | the space-moving visit keeps the pass invariant |
| Projector.VisitStep | src/TextProcessing/src/main/java/eu/modernmt/processing/xml/XMLTagProjector.java:269-283 | every visit keeps the pass invariant: only whitespace changed, unvisited tokens are untouched, visited tags are separated, spaces were only moved forward or removed |
| Projector.Pass | src/TextProcessing/src/main/java/eu/modernmt/processing/xml/XMLTagProjector.java:268-284 | the stream after the loop has visited the first `k` tokens, each right after the one before it; the number of words and tags is kept |
| Projector.PassKeepsInv | src/TextProcessing/src/main/java/eu/modernmt/processing/xml/XMLTagProjector.java:268-284 | every prefix of the loop keeps the pass invariant, including that tags keep their left spaces except a leading one |
| Projector.PassMovesSpace | src/TextProcessing/src/main/java/eu/modernmt/processing/xml/XMLTagProjector.java:270-276 | a tag with neither a left nor a right space of its own takes the right space the token before it has when the loop reaches it, and that token loses it |
| Projector.FinishPass | src/TextProcessing/src/main/java/eu/modernmt/processing/xml/XMLTagProjector.java:285-288 | clearing the last token's right space after the loop leaves the stream tidy, every tag with its old left space except the leading tag (which has none), word spaces only removed and every right space traced to the same or an earlier token |
| Projector.SpacePass | src/TextProcessing/src/main/java/eu/modernmt/processing/xml/XMLTagProjector.java:266-288 | the second pass as a function of the stream: one visit per token of the token order, then the last right space cleared; the number of words and tags is kept |
| Projector.SpacePassTidies | src/TextProcessing/src/main/java/eu/modernmt/processing/xml/XMLTagProjector.java:266-288 | the result of the pass: only whitespace changes; the stream is tidy; every tag keeps its left space except a leading tag, which loses it; word spaces are only removed; every right space left was there before on the same or an earlier token |
| Projector.SpaceMovesOntoTag | src/TextProcessing/src/main/java/eu/modernmt/processing/xml/XMLTagProjector.java:270-282 | on word `a` with a space, a self-closing tag with no spaces, and word `c`, the pass moves the space onto the tag ("a<b/> c") |
| Projector.Translation.Call | src/TextProcessing/src/main/java/eu/modernmt/processing/xml/XMLTagProjector.java:54-69 | no source tags: unchanged; tags but no source words: the tags are the source's tags as they are; no alignment: unchanged; otherwise words and texts kept, the tags are a sorted projection of the source tags, and the words and tags are exactly the trailing-space pass and then `SpacePass` applied to the projected tags, with all that `SpacesTidied` states of them (tidy, left spaces kept but the leading tag's, word spaces only removed, every right space traced to the same or an earlier token), unless the whitespace pass fails (only possible with no target words), in which case the tags are the projected ones |
| Projector.Translation.ProjectAligned | src/TextProcessing/src/main/java/eu/modernmt/processing/xml/XMLTagProjector.java:57-60 | with an alignment: the words keep their texts, the tags are the projection of the source tags with their markup, and the result is `SpacePass` of the trailing-spaced words and projected tags with everything `SpacesTidied` states of it; when the whitespace pass fails, the projected tags stay as they are and there are no words |
| Projector.Translation.SimpleSpaceAnalysis | src/TextProcessing/src/main/java/eu/modernmt/processing/xml/XMLTagProjector.java:248-290 | fails exactly when there is no word and the first trailing tag has a left space, and then changes nothing; otherwise the result is `SpacePass` of the trailing-spaced words and the tags, with all that `SpacesTidied` states: only whitespace changes, left spaces kept but the leading tag's, word spaces only removed, every right space traced to the same or an earlier token, and the stream ends tidy |
| Projector.Translation.AddTrailingSpace | src/TextProcessing/src/main/java/eu/modernmt/processing/xml/XMLTagProjector.java:250-264 | the tags are unchanged and the words become `TrailingSpaced` of the old words; fails exactly when there is no last word to look at and the first trailing tag has a left space |
| Projector.Translation.SetRightSpace | src/TextProcessing/src/main/java/eu/modernmt/processing/xml/XMLTagProjector.java:274-276 | only the given token's right space changes |
| Projector.Translation.VisitToken | src/TextProcessing/src/main/java/eu/modernmt/processing/xml/XMLTagProjector.java:270-282 | one loop body changes the words and tags as one `Visit` of the token says |
| Projector.Translation.VisitAll | src/TextProcessing/src/main/java/eu/modernmt/processing/xml/XMLTagProjector.java:268-284 | the loop visits the whole token stream: the words and tags end as `Pass` over every token, and the last token is `previousToken` |
| Projector.Translation.TidySpaces | src/TextProcessing/src/main/java/eu/modernmt/processing/xml/XMLTagProjector.java:266-288 | the words and tags become `SpacePass` of the old ones: the stream is tidy; only whitespace changed; every tag keeps its left space except the leading one; words only lose right spaces; every right space left was there before, on the same or an earlier token |
| MosesOutput.DropTrailingEmpty | src/Moses/src/main/java/eu/modernmt/decoder/moses/TranslationXObject.java:80 | the pieces without the empty ones at the end: a prefix whose last piece is not empty, followed only by empty pieces |
| MosesOutput.SplitIsWellSplit | src/Moses/src/main/java/eu/modernmt/decoder/moses/TranslationXObject.java:80 | no piece of a split contains a separator, and only the first piece may be empty |
| MosesOutput.SplitKeepsText | src/Moses/src/main/java/eu/modernmt/decoder/moses/TranslationXObject.java:80 | the pieces, concatenated, are the text with its separators removed |
| MosesOutput.SplitJoin | src/Moses/src/main/java/eu/modernmt/decoder/moses/TranslationXObject.java:80 | joining well-formed pieces with single spaces and splitting again gives back the pieces |
| MosesOutput.SplitJoinSplit | src/Moses/src/main/java/eu/modernmt/decoder/moses/TranslationXObject.java:80 | re-joining a split with single spaces and splitting again gives the same pieces |
| MosesOutput.TrimStart | src/Moses/src/main/java/eu/modernmt/decoder/moses/TranslationXObject.java:32 | a suffix of the text that is empty or starts above `' '`; every character removed is at most `' '` |
| MosesOutput.TrimEnd | src/Moses/src/main/java/eu/modernmt/decoder/moses/TranslationXObject.java:32 | a prefix of the text that is empty or ends above `' '`; every character removed is at most `' '` |
| MosesOutput.RenderSpaced | src/Moses/src/main/java/eu/modernmt/decoder/moses/TranslationXObject.java:84 | words spaced as a split spaces them render as the pieces joined by single spaces, plus the last word's right space |
| MosesOutput.TranslationWordsReparse | src/Moses/src/main/java/eu/modernmt/decoder/moses/TranslationXObject.java:80-85 | the words of `getTranslation`, rendered and split again, give the same pieces as the original text |
| MosesOutput.ExplodedRender | src/Moses/src/main/java/eu/modernmt/decoder/moses/TranslationXObject.java:57-66 | the words of `explode` render as the single-spaced text followed by one more space |
| MosesOutput.Explode | src/Moses/src/main/java/eu/modernmt/decoder/moses/TranslationXObject.java:57-66 | one word per piece of `text.split(" +")`, in order, every word including the last followed by `" "` |
| MosesOutput.LastDecl | src/Moses/src/main/java/eu/modernmt/decoder/moses/TranslationXObject.java:41-47 | the last `name=` token below `k` for a feature, or -1 when there is none |
| MosesOutput.ScanStep | src/Moses/src/main/java/eu/modernmt/decoder/moses/TranslationXObject.java:38-52 | one token read keeps the loop's meaning: the current feature is the one named last, its values are the tokens since then, and every stored feature holds the run after its last `name=` |
| MosesOutput.GroupedAt | src/Moses/src/main/java/eu/modernmt/decoder/moses/TranslationXObject.java:32-52 | a feature has a vector exactly when some token names it; the vector is the tokens after its last `name=`, up to the next `name=` or the end |
| MosesOutput.EmptyFeature | src/Moses/src/main/java/eu/modernmt/decoder/moses/TranslationXObject.java:42-47 | a `name=` not named again later and followed at once by another `name=`, or by the end, maps to an empty vector |
| MosesOutput.LeadingValuesDropped | src/Moses/src/main/java/eu/modernmt/decoder/moses/TranslationXObject.java:41-48 | values before the first `name=` belong to no feature: removing them changes nothing |
| MosesOutput.GroupFeatures | src/Moses/src/main/java/eu/modernmt/decoder/moses/TranslationXObject.java:30-52 | the loop with `feature`, `weights` and `index` computes the grouping of the tokens |
| MosesOutput.Hypothesis.GetTranslationHypothesis | src/Moses/src/main/java/eu/modernmt/decoder/moses/TranslationXObject.java:29-55 | the hypothesis has the exploded words, the source, no alignment, the total score and the grouped feature vectors of `fvals.trim().split("\\s+")` |
| MosesOutput.TranslationWords | src/Moses/src/main/java/eu/modernmt/decoder/moses/TranslationXObject.java:80-85 | one word per piece of `text.split(" +")`, in order, each but the last followed by `" "` and the last by nothing |
| MosesOutput.NBest | src/Moses/src/main/java/eu/modernmt/decoder/moses/TranslationXObject.java:90-93 | one hypothesis per n-best entry, in the same order, each built by `getTranslationHypothesis` |
| MosesOutput.TranslationXObject.GetTranslation | src/Moses/src/main/java/eu/modernmt/decoder/moses/TranslationXObject.java:79-99 | one word per piece of the text, each but the last followed by `" "`, the last by nothing; the source and alignment as given; an n-best list exactly when one was given and is non-empty, one hypothesis per entry in order |
| Postprocessing.GetPipeline | src/TextProcessing/src/main/java/eu/modernmt/processing/Postprocessor.java:48-60 | six stages in the fixed order; the detokenizer slot is filled, with the language's detokenizer, exactly when asked to detokenize |
| Postprocessing.PipelinesDifferOnlyInDetokenizer | src/TextProcessing/src/main/java/eu/modernmt/processing/Postprocessor.java:66-69 | the two pipelines agree in every slot but the detokenizer, and both end with the tag projector |
| Postprocessing.ReadsInOrder | src/TextProcessing/src/main/java/eu/modernmt/processing/Postprocessor.java:107-113 | successive reads give the items in order, one per read, and then nothing on every further read |
| Postprocessing.BatchTask.constructor | src/TextProcessing/src/main/java/eu/modernmt/processing/Postprocessor.java:102-105 | the array is a copy of the list, of the same length, and the read index is 0 |
| Postprocessing.BatchTask.Read | src/TextProcessing/src/main/java/eu/modernmt/processing/Postprocessor.java:107-113 | returns the item at the read index and advances it, or nothing once all were read; the index never passes the length |
| Postprocessing.BatchTask.Write | src/TextProcessing/src/main/java/eu/modernmt/processing/Postprocessor.java:115-117 | changes nothing |
| Postprocessing.BatchTask.Close | src/TextProcessing/src/main/java/eu/modernmt/processing/Postprocessor.java:119-121 | changes nothing |
| Postprocessing.Postprocessor.constructor | src/TextProcessing/src/main/java/eu/modernmt/processing/Postprocessor.java:66-69 | builds the with- and the without-detokenization pipeline for the language and thread count |
| Postprocessing.Postprocessor.ProcessBatch | src/TextProcessing/src/main/java/eu/modernmt/processing/Postprocessor.java:71-82 | a fresh cursor over the translations at index 0, and the pipeline that detokenizes exactly when asked to |
| Postprocessing.Postprocessor.Process | src/TextProcessing/src/main/java/eu/modernmt/processing/Postprocessor.java:84-89 | the pipeline the translation goes to detokenizes exactly when asked to |

## Left out

- The `Tag`, `Word`, `Token`, `Sentence` and `Translation` classes are not part of this model. They are reduced to the fields the core reads and writes. `Tag.compareTo` is taken to compare positions.
- Iterating a `Translation` yields its tokens in the order of `Projector.TokenOrder`: a tag comes before the first word at or after its gap, and the tags after the last word come last. The iterator itself is not part of this model.
- `hasAlignment()` is modelled as the alignment being present.
- Alignment indices are natural numbers, so the `Integer.MAX_VALUE` start of `minPos` is not modelled. An empty span is recognised by `maxPos == -1` alone, which agrees for every index below `Integer.MAX_VALUE`.
- `TagMatching.GetClosingTagIndex`: the skip of the very opening-tag object (`openingTag == tag`) is left out. Tags are distinct objects and the scan starts after `tagIndex`, so it never fires.
- `Projector.Translation.Call`: when the whitespace pass hits a translation with no words (Java's `ArrayIndexOutOfBoundsException` on `words[-1]`), the model returns `false` and keeps the projected tags. It does not model the exception being raised to the caller.
- The `equals`/`hashCode` of `ExtendedTag` are left out. The list is sorted by `compareTo` only.
- `main`'s printing is left out. Its sentence and alignment are `ProjectionExample`.
- The `close()` methods of the projector and the post-processor are left out. They only release resources.
- `Float.parseFloat` is not modelled: feature values are kept as the token strings. A value token that is not a number (including the single empty token of an empty `fvals`) makes Java throw, but here it is kept as a value.
- `totalScore` is a `real` that is passed through unchanged, so single-precision rounding is not modelled.
- The `ProcessingPipeline` engine is not part of this model. That covers its builder, thread pool, jobs, `start`/`join`, `process` and `close`. A pipeline is its thread count and its list of stage slots, and the builder's handling of an empty (`null`) slot is not modelled.
- `Detokenizers.forLanguage` and the stage objects themselves are not modelled; a stage is a name.
- `Postprocessing.Postprocessor.Process` returns the chosen pipeline instead of running it on the translation.
- `Postprocessing.Postprocessor.ProcessBatch` returns the job (pipeline and cursor) instead of starting and joining it. The `InterruptedException` wrapping is not modelled.
- The one-argument `getPipeline` and constructor are left out. They only read the number of processors from the runtime and pass it on.
