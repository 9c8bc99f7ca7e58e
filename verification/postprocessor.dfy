/** The post-processor: the stage list of its two pipelines, the choice
    between them, and the batch cursor that feeds a list of translations to
    a pipeline job. */
module Postprocessing {
  import opened Model

  // ---------------------------------------------------------------------
  // Pipelines
  // ---------------------------------------------------------------------

  /** The processing stages a post-processing pipeline is built from. */
  datatype Stage =
    | AlignmentsInterpolator
    | Detokenizer(language: string)
    | WordTransformationFactory
    | WordTransformer
    | Recaser
    | TagProjector

  /** A pipeline as its builder receives it: the thread count and the stage
      slots in the order they were added; an empty slot is Java's `null`. */
  datatype Pipeline = Pipeline(threads: int, stages: seq<Option<Stage>>)
  {
    /** The pipeline detokenizes: its detokenizer slot is filled. */
    predicate Detokenizes()
    {
      |stages| > 1 && stages[1].Some?
    }
  }

  /** `getPipeline(language, detokenize, threads)`. */
  function GetPipeline(language: string, detokenize: bool, threads: int): (p: Pipeline)
    ensures p.threads == threads && |p.stages| == 6
    ensures p.stages[0] == Some(AlignmentsInterpolator)
    ensures p.Detokenizes() <==> detokenize
    ensures p.Detokenizes() ==> p.stages[1] == Some(Detokenizer(language))
    ensures p.stages[2..] == [Some(WordTransformationFactory), Some(WordTransformer), Some(Recaser), Some(TagProjector)]
  {
    var detokenizer := if detokenize then Some(Detokenizer(language)) else None;
    Pipeline(threads, [Some(AlignmentsInterpolator), detokenizer, Some(WordTransformationFactory),
                       Some(WordTransformer), Some(Recaser), Some(TagProjector)])
  }

  /** The two pipelines of a post-processor differ only in the detokenizer
      slot, and in both the tag projector is the last stage. */
  lemma PipelinesDifferOnlyInDetokenizer(language: string, threads: int)
    ensures var w, wo := GetPipeline(language, true, threads), GetPipeline(language, false, threads);
            && |w.stages| == |wo.stages|
            && (forall i :: 0 <= i < |w.stages| && i != 1 ==> w.stages[i] == wo.stages[i])
            && w.stages[1] != wo.stages[1]
            && w.stages[|w.stages| - 1] == wo.stages[|wo.stages| - 1] == Some(TagProjector)
  {
    var w, wo := GetPipeline(language, true, threads), GetPipeline(language, false, threads);
    assert w.stages[2..][3] == w.stages[5] && wo.stages[2..][3] == wo.stages[5];
    forall i | 2 <= i < 6
      ensures w.stages[i] == wo.stages[i]
    {
      assert w.stages[i] == w.stages[2..][i - 2] && wo.stages[i] == wo.stages[2..][i - 2];
    }
  }

  // ---------------------------------------------------------------------
  // The batch cursor
  // ---------------------------------------------------------------------

  /** One `read()` on the items `items` at read index `i`: the item there and
      the next index, or nothing and the same index once all are read. */
  function Next<T>(items: seq<T>, i: nat): (Option<T>, nat)
  {
    if i < |items| then (Some(items[i]), i + 1) else (None, i)
  }

  /** The results of `n` successive reads from index `i`. */
  function Reads<T>(items: seq<T>, i: nat, n: nat): seq<Option<T>>
    decreases n
  {
    if n == 0 then [] else var (r, j) := Next(items, i); [r] + Reads(items, j, n - 1)
  }

  /** Successive reads give the items in order, one per read, and then
      nothing on every further read. */
  lemma {:induction false} ReadsInOrder<T>(items: seq<T>, i: nat, n: nat)
    requires i <= |items|
    ensures |Reads(items, i, n)| == n
    ensures forall k :: 0 <= k < n ==>
              Reads(items, i, n)[k] == if i + k < |items| then Some(items[i + k]) else None
    decreases n
  {
    if n > 0 {
      var (r, j) := Next(items, i);
      ReadsInOrder(items, j, n - 1);
      assert Reads(items, i, n) == [r] + Reads(items, j, n - 1);
    }
  }

  /** The `BatchTask`: the translations copied into an array at
      construction and a read index over them. It is both the input and the
      output stream of a pipeline job; what the job writes back is
      discarded. */
  class BatchTask<T> {
    const source: array<T>
    var readIndex: nat

    ghost predicate Valid()
      reads this
    {
      readIndex <= source.Length
    }

    /** The items not read yet, in order. */
    ghost function Remaining(): seq<T>
      reads this, source
      requires Valid()
    {
      source[readIndex..]
    }

    constructor (translations: seq<T>)
      ensures Valid() && fresh(source)
      ensures source[..] == translations && source.Length == |translations|
      ensures readIndex == 0 && Remaining() == translations
    {
      source := new T[|translations|](i requires 0 <= i < |translations| => translations[i]);
      readIndex := 0;
    }

    /** `read()`: the next unread item, or nothing (Java's `null`) once all
        were read. */
    method Read() returns (r: Option<T>)
      requires Valid()
      modifies this
      ensures Valid()
      ensures (r, readIndex) == Next(source[..], old(readIndex))
      ensures old(Remaining()) == (if r.Some? then [r.value] else []) + Remaining()
      ensures r.None? <==> old(readIndex) == source.Length
    {
      if readIndex < source.Length {
        r := Some(source[readIndex]);
        readIndex := readIndex + 1;
      } else {
        r := None;
      }
    }

    /** `write(value)`: the job's output is ignored. */
    method Write(value: ())
      ensures unchanged(this) && unchanged(source)
    {
    }

    /** `close()`: nothing to release. */
    method Close()
      ensures unchanged(this) && unchanged(source)
    {
    }
  }

  // ---------------------------------------------------------------------
  // The post-processor
  // ---------------------------------------------------------------------

  /** A pipeline job over a batch: the pipeline it runs and the task it
      reads from and writes to. */
  datatype Job<T> = Job(pipeline: Pipeline, task: BatchTask<T>)

  /** A post-processor holds one pipeline with and one without
      detokenization. */
  class Postprocessor {
    const pipelineWithDetokenization: Pipeline
    const pipelineWithoutDetokenization: Pipeline

    ghost predicate Valid()
    {
      pipelineWithDetokenization.Detokenizes() && !pipelineWithoutDetokenization.Detokenizes()
    }

    /** `Postprocessor(language, threads)`. */
    constructor (language: string, threads: int)
      ensures pipelineWithDetokenization == GetPipeline(language, true, threads)
      ensures pipelineWithoutDetokenization == GetPipeline(language, false, threads)
      ensures Valid()
    {
      pipelineWithDetokenization := GetPipeline(language, true, threads);
      pipelineWithoutDetokenization := GetPipeline(language, false, threads);
    }

    /** `process(translations, detokenize)`: a fresh batch over the
        translations, run by the pipeline that detokenizes exactly when
        asked to. */
    method ProcessBatch<T>(translations: seq<T>, detokenize: bool) returns (job: Job<T>)
      requires Valid()
      ensures fresh(job.task) && job.task.Valid()
      ensures job.task.readIndex == 0 && job.task.source[..] == translations
      ensures job.pipeline.Detokenizes() <==> detokenize
      ensures job.pipeline == if detokenize then pipelineWithDetokenization else pipelineWithoutDetokenization
    {
      var task := new BatchTask(translations);
      var pipeline := if detokenize then pipelineWithDetokenization else pipelineWithoutDetokenization;
      job := Job(pipeline, task);
    }

    /** `process(translation, detokenize)`: the pipeline the single
        translation is handed to. */
    method Process(detokenize: bool) returns (pipeline: Pipeline)
      requires Valid()
      ensures pipeline.Detokenizes() <==> detokenize
      ensures pipeline == if detokenize then pipelineWithDetokenization else pipelineWithoutDetokenization
    {
      if detokenize {
        pipeline := pipelineWithDetokenization;
      } else {
        pipeline := pipelineWithoutDetokenization;
      }
    }
  }
}
