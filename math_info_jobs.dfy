/**
 * `ExplorationMathRichTextInfoModelGenerationOneOffJob` and
 * `ExplorationMathRichTextInfoModelDeletionOneOffJob`.
 *
 * The generation map yields, for each live exploration that validates,
 * the latex strings of its math components that have no svg yet; the
 * reduce builds one info record per exploration (the records it saves) and
 * a summary with an estimate of how many batches the svgs need. The
 * deletion job deletes every info model and reports how many it deleted.
 *
 * Foreign calls are parameters: non-strict validation (`validate`, the
 * error text when it raises), `get_latex_strings_without_svg_from_html`
 * (`latexWithoutSvg`), the info record's `get_svg_size_in_bytes`
 * (`svgSizeInBytes`, already truncated by `int()`) and
 * `get_longest_latex_expression` (`longestLatex`). The batch limit
 * `MAX_SIZE_OF_MATH_SVGS_BATCH_BYTES` is the parameter `maxBatchBytes`.
 */
module MathInfoJobs {
  import opened Common
  import opened MapReduce

  /** `_SUCCESS_KEY`. */
  const MathTagsKey := "exploration-with-math-tags"
  const ValidationErrorKey := "validation_error"
  const ModelDeletedKey := "model_deleted"

  /** A generation map value: a validation error message, or an exploration id with its latex strings. */
  datatype MathValue = ValidationError(message: string) | LatexStrings(expId: string, latexStrings: seq<string>)

  /** `'Exploration %s failed non-strict validation: %s'`. */
  function ValidationErrorMessage(id: string, error: string): string
  {
    "Exploration " + id + " failed non-strict validation: " + error
  }

  /** All the html of an exploration: each state's strings joined, in state order. */
  function AllHtml(states: seq<State>): string
  {
    if states == [] then "" else AllHtml(states[..|states| - 1]) + Concat(states[|states| - 1].htmlStrings)
  }

  /** The generation map's emissions for one record. */
  function MathInfoEmissions(item: ExplorationModel, validate: string -> Outcome<string>,
                             latexWithoutSvg: string -> seq<string>): (es: seq<Emission<MathValue>>)
    ensures |es| <= 1
    ensures item.deleted ==> es == []
    ensures !item.deleted && validate(item.id).Fail? ==>
      es == [Emission(ValidationErrorKey, ValidationError(ValidationErrorMessage(item.id, validate(item.id).error)))]
    ensures !item.deleted && validate(item.id).Pass? ==>
      (es != [] <==> |latexWithoutSvg(AllHtml(item.states))| > 0)
    ensures !item.deleted && validate(item.id).Pass? && |latexWithoutSvg(AllHtml(item.states))| > 0 ==>
      es == [Emission(MathTagsKey, LatexStrings(item.id, latexWithoutSvg(AllHtml(item.states))))]
  {
    if item.deleted then []
    else match validate(item.id)
      case Fail(e) => [Emission(ValidationErrorKey, ValidationError(ValidationErrorMessage(item.id, e)))]
      case Pass =>
        var latex := latexWithoutSvg(AllHtml(item.states));
        if |latex| > 0 then [Emission(MathTagsKey, LatexStrings(item.id, latex))] else []
  }

  /** The generation map: validate, then the loop gathering the html of all states. */
  method MathInfoMap(item: ExplorationModel, validate: string -> Outcome<string>,
                     latexWithoutSvg: string -> seq<string>) returns (out: seq<Emission<MathValue>>)
    ensures out == MathInfoEmissions(item, validate, latexWithoutSvg)
  {
    if item.deleted {
      return [];
    }
    var validation := validate(item.id);
    if validation.Fail? {
      return [Emission(ValidationErrorKey, ValidationError(ValidationErrorMessage(item.id, validation.error)))];
    }
    var htmlStringsInExploration := "";
    for i := 0 to |item.states|
      invariant htmlStringsInExploration == AllHtml(item.states[..i])
    {
      assert item.states[..i + 1][..i] == item.states[..i];
      htmlStringsInExploration := htmlStringsInExploration + Concat(item.states[i].htmlStrings);
    }
    assert item.states[..|item.states|] == item.states;
    var latex := latexWithoutSvg(htmlStringsInExploration);
    out := if |latex| > 0 then [Emission(MathTagsKey, LatexStrings(item.id, latex))] else [];
  }

  /** Every value the map yields under the math key is an id with a non-empty list of latex strings. */
  lemma MathKeyValuesAreLatex(item: ExplorationModel, validate: string -> Outcome<string>,
                              latexWithoutSvg: string -> seq<string>)
    ensures var es := MathInfoEmissions(item, validate, latexWithoutSvg);
      forall i :: 0 <= i < |es| && es[i].key == MathTagsKey ==>
        es[i].value.LatexStrings? && es[i].value.expId == item.id && |es[i].value.latexStrings| > 0
    ensures item.deleted ==> MathInfoEmissions(item, validate, latexWithoutSvg) == []
  {
  }

  // ---------------------------------------------------------------------
  // Generation reduce
  // ---------------------------------------------------------------------

  /** `ExplorationMathRichTextInfo(exp_id, True, latex_strings)`. */
  datatype MathRichTextInfo = MathRichTextInfo(expId: string, mathImagesGenerationRequired: bool,
                                               latexStringsWithoutSvg: seq<string>)

  /** The reduce's summary dict. */
  datatype MathSummary = MathSummary(estimatedNoOfBatches: int, longestRawLatexString: string,
                                     numberOfExplorationsHavingMath: nat, totalNumberOfSvgsRequired: int)

  /** The reduce's result: the info records saved and the summary, or the values of another key unchanged. */
  datatype MathReduceResult =
    | Summary(saved: seq<MathRichTextInfo>, summary: Emission<MathSummary>)
    | PassThrough(emission: Emission<seq<MathValue>>)

  predicate AllLatex(values: seq<MathValue>)
  {
    forall i :: 0 <= i < |values| ==> values[i].LatexStrings?
  }

  /** The running batch estimate after the given sizes: (batches, bytes in the current batch). */
  function BatchFold(sizes: seq<int>, maxBatchBytes: int): (r: (int, int))
    ensures 1 <= r.0 <= 1 + |sizes|
  {
    if sizes == [] then (1, 0)
    else
      var (batches, current) := BatchFold(sizes[..|sizes| - 1], maxBatchBytes);
      var next := current + sizes[|sizes| - 1];
      if next > maxBatchBytes then (batches + 1, 0) else (batches, next)
  }

  /** Python `max(a, b, key=len)`: the first argument unless the second is strictly longer. */
  function LongerOf(a: string, b: string): (r: string)
    ensures |r| >= |a| && |r| >= |b| && (r == a || r == b)
  {
    if |b| > |a| then b else a
  }

  function Infos(values: seq<MathValue>): (infos: seq<MathRichTextInfo>)
    requires AllLatex(values)
    ensures |infos| == |values|
    ensures forall i :: 0 <= i < |values| ==>
      infos[i] == MathRichTextInfo(values[i].expId, true, values[i].latexStrings)
  {
    if values == [] then []
    else Infos(values[..|values| - 1]) + [MathRichTextInfo(values[|values| - 1].expId, true, values[|values| - 1].latexStrings)]
  }

  function SvgSizes(values: seq<MathValue>, svgSizeInBytes: seq<string> -> int): (sizes: seq<int>)
    requires AllLatex(values)
    ensures |sizes| == |values|
    ensures forall i :: 0 <= i < |values| ==> sizes[i] == svgSizeInBytes(values[i].latexStrings)
  {
    if values == [] then []
    else SvgSizes(values[..|values| - 1], svgSizeInBytes) + [svgSizeInBytes(values[|values| - 1].latexStrings)]
  }

  function LatexCounts(values: seq<MathValue>): (counts: seq<int>)
    requires AllLatex(values)
    ensures |counts| == |values|
    ensures forall i :: 0 <= i < |values| ==> counts[i] == |values[i].latexStrings|
  {
    if values == [] then []
    else LatexCounts(values[..|values| - 1]) + [|values[|values| - 1].latexStrings|]
  }

  /** The running longest string, starting from `''`. */
  function Longest(values: seq<MathValue>, longestLatex: seq<string> -> string): (r: string)
    requires AllLatex(values)
    ensures forall i :: 0 <= i < |values| ==> |r| >= |longestLatex(values[i].latexStrings)|
    ensures r == "" || exists i :: 0 <= i < |values| && r == longestLatex(values[i].latexStrings)
  {
    if values == [] then ""
    else
      var init := values[..|values| - 1];
      var prev := Longest(init, longestLatex);
      assert forall i :: 0 <= i < |init| ==> init[i] == values[i];
      LongerOf(longestLatex(values[|values| - 1].latexStrings), prev)
  }

  /** The generation reduce: for the math key, the loop over the values; any other key passes through. */
  method MathInfoReduce(key: string, values: seq<MathValue>, svgSizeInBytes: seq<string> -> int,
                        longestLatex: seq<string> -> string, maxBatchBytes: int) returns (r: MathReduceResult)
    requires key == MathTagsKey ==> AllLatex(values)
    ensures key != MathTagsKey ==> r == PassThrough(Emission(key, values))
    ensures key == MathTagsKey ==>
      r == Summary(Infos(values),
                   Emission(key, MathSummary(BatchFold(SvgSizes(values, svgSizeInBytes), maxBatchBytes).0,
                                             Longest(values, longestLatex), |values|, Sum(LatexCounts(values)))))
  {
    if key != MathTagsKey {
      return PassThrough(Emission(key, values));
    }
    var estimatedNoOfBatches := 1;
    var sizeInCurrentBatch := 0;
    var infoList: seq<MathRichTextInfo> := [];
    var longestRawLatexString := "";
    var totalNumberOfSvgsRequired := 0;
    for i := 0 to |values|
      invariant AllLatex(values[..i])
      invariant (estimatedNoOfBatches, sizeInCurrentBatch) == BatchFold(SvgSizes(values[..i], svgSizeInBytes), maxBatchBytes)
      invariant infoList == Infos(values[..i])
      invariant longestRawLatexString == Longest(values[..i], longestLatex)
      invariant totalNumberOfSvgsRequired == Sum(LatexCounts(values[..i]))
    {
      ReduceStep(values, i, svgSizeInBytes, longestLatex, maxBatchBytes);
      var expId := values[i].expId;
      var latexStrings := values[i].latexStrings;
      var info := MathRichTextInfo(expId, true, latexStrings);
      infoList := infoList + [info];
      var approxSize := svgSizeInBytes(latexStrings);
      totalNumberOfSvgsRequired := totalNumberOfSvgsRequired + |latexStrings|;
      longestRawLatexString := LongerOf(longestLatex(latexStrings), longestRawLatexString);
      sizeInCurrentBatch := sizeInCurrentBatch + approxSize;
      if sizeInCurrentBatch > maxBatchBytes {
        sizeInCurrentBatch := 0;
        estimatedNoOfBatches := estimatedNoOfBatches + 1;
      }
    }
    assert values[..|values|] == values;
    r := Summary(infoList, Emission(key, MathSummary(estimatedNoOfBatches, longestRawLatexString,
                                                      |values|, totalNumberOfSvgsRequired)));
  }

  /** How each running value of the reduce moves when one more value is taken in. */
  lemma ReduceStep(values: seq<MathValue>, i: nat, svgSizeInBytes: seq<string> -> int,
                   longestLatex: seq<string> -> string, maxBatchBytes: int)
    requires AllLatex(values) && i < |values|
    ensures AllLatex(values[..i]) && AllLatex(values[..i + 1])
    ensures var (batches, current) := BatchFold(SvgSizes(values[..i], svgSizeInBytes), maxBatchBytes);
      var next := current + svgSizeInBytes(values[i].latexStrings);
      BatchFold(SvgSizes(values[..i + 1], svgSizeInBytes), maxBatchBytes)
        == if next > maxBatchBytes then (batches + 1, 0) else (batches, next)
    ensures Infos(values[..i + 1]) == Infos(values[..i]) + [MathRichTextInfo(values[i].expId, true, values[i].latexStrings)]
    ensures Longest(values[..i + 1], longestLatex) == LongerOf(longestLatex(values[i].latexStrings), Longest(values[..i], longestLatex))
    ensures Sum(LatexCounts(values[..i + 1])) == Sum(LatexCounts(values[..i])) + |values[i].latexStrings|
  {
    var prefix := values[..i + 1];
    assert prefix[..i] == values[..i];
    var sizes := SvgSizes(prefix, svgSizeInBytes);
    assert sizes[..i] == SvgSizes(values[..i], svgSizeInBytes);
    var counts := LatexCounts(prefix);
    assert counts[..i] == LatexCounts(values[..i]);
  }

  /**
   * Every batch closed so far held more than `maxBatchBytes`: the sizes add
   * up to at least that much per closed batch plus the open batch, and the
   * open batch never exceeds the limit unless it was just reset.
   */
  lemma {:induction false} BatchesAccountForBytes(sizes: seq<int>, maxBatchBytes: int)
    ensures var (batches, current) := BatchFold(sizes, maxBatchBytes);
      && Sum(sizes) >= (batches - 1) * (maxBatchBytes + 1) + current
      && (current <= maxBatchBytes || current == 0)
    decreases |sizes|
  {
    if sizes != [] {
      var init := sizes[..|sizes| - 1];
      BatchesAccountForBytes(init, maxBatchBytes);
      var (batches, current) := BatchFold(init, maxBatchBytes);
      assert Sum(sizes) == Sum(init) + sizes[|sizes| - 1];
      assert batches * (maxBatchBytes + 1) == (batches - 1) * (maxBatchBytes + 1) + (maxBatchBytes + 1);
    }
  }

  lemma {:induction false} OpenBatchNonNegative(sizes: seq<int>, maxBatchBytes: int)
    requires forall i :: 0 <= i < |sizes| ==> sizes[i] >= 0
    ensures BatchFold(sizes, maxBatchBytes).1 >= 0
    decreases |sizes|
  {
    if sizes != [] {
      OpenBatchNonNegative(sizes[..|sizes| - 1], maxBatchBytes);
    }
  }

  /** Sizes that fit the limit together need a single batch. */
  lemma SingleBatchWhenSmall(sizes: seq<int>, maxBatchBytes: int)
    requires maxBatchBytes >= 0
    requires forall i :: 0 <= i < |sizes| ==> sizes[i] >= 0
    requires Sum(sizes) <= maxBatchBytes
    ensures BatchFold(sizes, maxBatchBytes).0 == 1
  {
    BatchesAccountForBytes(sizes, maxBatchBytes);
    OpenBatchNonNegative(sizes, maxBatchBytes);
  }

  function MathJobEmissions(items: seq<ExplorationModel>, validate: string -> Outcome<string>,
                            latexWithoutSvg: string -> seq<string>): seq<Emission<MathValue>>
  {
    if items == [] then []
    else MathJobEmissions(items[..|items| - 1], validate, latexWithoutSvg)
         + MathInfoEmissions(items[|items| - 1], validate, latexWithoutSvg)
  }

  /** The values grouped under the math key are always id/latex pairs, so the reduce's unpacking cannot fail. */
  lemma {:induction false} MathJobValuesAreLatex(items: seq<ExplorationModel>, validate: string -> Outcome<string>,
                                                 latexWithoutSvg: string -> seq<string>)
    ensures AllLatex(ValuesFor(MathJobEmissions(items, validate, latexWithoutSvg), MathTagsKey))
    decreases |items|
  {
    if items != [] {
      var a := MathJobEmissions(items[..|items| - 1], validate, latexWithoutSvg);
      var b := MathInfoEmissions(items[|items| - 1], validate, latexWithoutSvg);
      MathJobValuesAreLatex(items[..|items| - 1], validate, latexWithoutSvg);
      ValuesForAppend(a, b, MathTagsKey);
      MathRecordValuesAreLatex(items[|items| - 1], validate, latexWithoutSvg);
      AllLatexAppend(ValuesFor(a, MathTagsKey), ValuesFor(b, MathTagsKey));
    }
  }

  lemma MathRecordValuesAreLatex(item: ExplorationModel, validate: string -> Outcome<string>,
                                 latexWithoutSvg: string -> seq<string>)
    ensures AllLatex(ValuesFor(MathInfoEmissions(item, validate, latexWithoutSvg), MathTagsKey))
  {
    var b := MathInfoEmissions(item, validate, latexWithoutSvg);
    MathKeyValuesAreLatex(item, validate, latexWithoutSvg);
    if b != [] {
      assert b == [b[0]];
      assert ValuesFor(b, MathTagsKey) == ValuesFor([], MathTagsKey) + (if b[0].key == MathTagsKey then [b[0].value] else []);
    }
  }

  lemma AllLatexAppend(va: seq<MathValue>, vb: seq<MathValue>)
    requires AllLatex(va) && AllLatex(vb)
    ensures AllLatex(va + vb)
  {
    assert forall i :: 0 <= i < |va + vb| ==> (va + vb)[i] == if i < |va| then va[i] else vb[i - |va|];
  }

  // ---------------------------------------------------------------------
  // ExplorationMathRichTextInfoModelDeletionOneOffJob
  // ---------------------------------------------------------------------

  /** What the deletion map does for one info model: the id it deletes and what it yields. */
  datatype DeletionStep = DeletionStep(deletedId: string, emitted: seq<Emission<int>>)

  /** The deletion map: delete the model and yield a 1 under `model_deleted`. */
  function DeletionMap(modelId: string): (r: DeletionStep)
    ensures r.deletedId == modelId
    ensures ValuesFor(r.emitted, ModelDeletedKey) == [1] && |r.emitted| == 1
  {
    assert [Emission(ModelDeletedKey, 1)][..0] == [];
    DeletionStep(modelId, [Emission(ModelDeletedKey, 1)])
  }

  /** `'%d models successfully delelted.'` (the message's spelling is the job's own). */
  function DeletionReduce(key: string, values: seq<int>): (r: Emission<seq<string>>)
    ensures r.key == key && |r.value| == 1
    ensures (forall i :: 0 <= i < |values| ==> values[i] == 1) ==>
      r.value == [NatToDecimal(|values|) + " models successfully delelted."]
  {
    assert (forall i :: 0 <= i < |values| ==> values[i] == 1) ==> Sum(values) == |values| by {
      if forall i :: 0 <= i < |values| ==> values[i] == 1 {
        SumOfOnes(values);
      }
    }
    Emission(key, [IntToDecimal(Sum(values)) + " models successfully delelted."])
  }

  function DeletionJob(modelIds: seq<string>): (seq<string>, seq<Emission<int>>)
  {
    if modelIds == [] then ([], [])
    else
      var (deleted, es) := DeletionJob(modelIds[..|modelIds| - 1]);
      var step := DeletionMap(modelIds[|modelIds| - 1]);
      (deleted + [step.deletedId], es + step.emitted)
  }

  /** The whole deletion job deletes every model once, in order, and each yields a 1. */
  lemma {:induction false} DeletionJobDeletesAll(modelIds: seq<string>)
    ensures var (deleted, es) := DeletionJob(modelIds);
      var ones := ValuesFor(es, ModelDeletedKey);
      && deleted == modelIds
      && |ones| == |modelIds| && forall i :: 0 <= i < |ones| ==> ones[i] == 1
    decreases |modelIds|
  {
    if modelIds != [] {
      var init := modelIds[..|modelIds| - 1];
      var (d0, e0) := DeletionJob(init);
      DeletionJobDeletesAll(init);
      var step := DeletionMap(modelIds[|modelIds| - 1]);
      assert DeletionJob(modelIds) == (d0 + [step.deletedId], e0 + step.emitted);
      ValuesForAppend(e0, step.emitted, ModelDeletedKey);
      var ones0 := ValuesFor(e0, ModelDeletedKey);
      assert ValuesFor(e0 + step.emitted, ModelDeletedKey) == ones0 + [1];
      assert forall i :: 0 <= i < |ones0 + [1]| ==> (ones0 + [1])[i] == 1;
      assert modelIds == init + [modelIds[|modelIds| - 1]];
    }
  }

  /** The deletion job deletes every model and its reduce reports how many. */
  lemma DeletionJobReport(modelIds: seq<string>)
    ensures var (deleted, es) := DeletionJob(modelIds);
      && deleted == modelIds
      && DeletionReduce(ModelDeletedKey, ValuesFor(es, ModelDeletedKey))
           == Emission(ModelDeletedKey, [NatToDecimal(|modelIds|) + " models successfully delelted."])
  {
    var (deleted, es) := DeletionJob(modelIds);
    DeletionJobDeletesAll(modelIds);
    SumOfOnes(ValuesFor(es, ModelDeletedKey));
  }
}
