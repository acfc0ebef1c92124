/**
 * `ExplorationMathSvgFilenameValidationOneOffJob`: the map validates the
 * svg filenames of the math components in each state of a live
 * exploration and yields the states with errors; the reduce totals the
 * invalid tags and collects, per exploration, the states' errors without
 * their counts.
 *
 * `validate_svg_filenames_in_math_rich_text` is the parameter
 * `validateSvgFilenames`, from an exploration id and the state's joined
 * html to the list of errors found.
 */
module SvgFilenameJob {
  import opened Common
  import opened MapReduce

  const FoundInvalidTagsKey := "Found invalid tags"
  const OverallResultKey := "Overall result."
  const DetailedInformationKey := "Detailed information on invalid tags. "

  /** The dict built for a state with errors: its name, its errors and how many there are. */
  datatype StateTagInfo = StateTagInfo(stateName: string, errorList: seq<string>, noOfInvalidTags: int)

  /** The same dict after `del value['no_of_invalid_tags']`. */
  datatype StateTagErrors = StateTagErrors(stateName: string, errorList: seq<string>)

  /** A map value: the exploration id and the states with errors. */
  datatype SvgValue = SvgValue(expId: string, infos: seq<StateTagInfo>)

  /** The reduce's overall dict. */
  datatype SvgSummary = SvgSummary(noOfExplorationsWithNoSvgs: nat, noOfInvalidTags: int)

  /** The states with errors, in state order, each with its error count. */
  function InvalidTagsInStates(id: string, states: seq<State>,
                               validateSvgFilenames: (string, string) -> seq<string>): (infos: seq<StateTagInfo>)
    ensures |infos| <= |states|
    ensures forall j :: 0 <= j < |infos| ==>
      infos[j].noOfInvalidTags == |infos[j].errorList| > 0
      && exists k :: 0 <= k < |states| && infos[j].stateName == states[k].name
                     && infos[j].errorList == validateSvgFilenames(id, Concat(states[k].htmlStrings))
    ensures forall k :: 0 <= k < |states| && |validateSvgFilenames(id, Concat(states[k].htmlStrings))| > 0 ==>
      var errors := validateSvgFilenames(id, Concat(states[k].htmlStrings));
      StateTagInfo(states[k].name, errors, |errors|) in infos
  {
    if states == [] then []
    else
      var init := states[..|states| - 1];
      var last := states[|states| - 1];
      var prefix := InvalidTagsInStates(id, init, validateSvgFilenames);
      assert forall k :: 0 <= k < |init| ==> init[k] == states[k];
      var errors := validateSvgFilenames(id, Concat(last.htmlStrings));
      prefix + (if |errors| > 0 then [StateTagInfo(last.name, errors, |errors|)] else [])
  }

  /** The entries of a run of states are those of each part, in turn: the states keep their order. */
  lemma {:induction false} InvalidTagsAppend(id: string, a: seq<State>, b: seq<State>,
                                             validateSvgFilenames: (string, string) -> seq<string>)
    ensures InvalidTagsInStates(id, a + b, validateSvgFilenames)
            == InvalidTagsInStates(id, a, validateSvgFilenames) + InvalidTagsInStates(id, b, validateSvgFilenames)
    decreases |b|
  {
    if b == [] {
      assert a + b == a;
    } else {
      var init := b[..|b| - 1];
      var last := b[|b| - 1];
      assert (a + b)[..|a + b| - 1] == a + init;
      assert (a + b)[|a + b| - 1] == last;
      InvalidTagsAppend(id, a, init, validateSvgFilenames);
      var errors := validateSvgFilenames(id, Concat(last.htmlStrings));
      var tail := if |errors| > 0 then [StateTagInfo(last.name, errors, |errors|)] else [];
      assert InvalidTagsInStates(id, a + b, validateSvgFilenames)
             == InvalidTagsInStates(id, a + init, validateSvgFilenames) + tail;
      assert InvalidTagsInStates(id, b, validateSvgFilenames)
             == InvalidTagsInStates(id, init, validateSvgFilenames) + tail;
    }
  }

  /** The number of errors the validator finds over the states. */
  function StateErrors(id: string, states: seq<State>, validateSvgFilenames: (string, string) -> seq<string>): nat
  {
    if states == [] then 0
    else StateErrors(id, states[..|states| - 1], validateSvgFilenames)
         + |validateSvgFilenames(id, Concat(states[|states| - 1].htmlStrings))|
  }

  /** The entries list every error the validator finds, no more and no fewer. */
  lemma {:induction false} InvalidTagsCountAll(id: string, states: seq<State>,
                                               validateSvgFilenames: (string, string) -> seq<string>)
    ensures ErrorCount(InvalidTagsInStates(id, states, validateSvgFilenames)) == StateErrors(id, states, validateSvgFilenames)
    decreases |states|
  {
    if states != [] {
      var init := states[..|states| - 1];
      InvalidTagsCountAll(id, init, validateSvgFilenames);
      var prefix := InvalidTagsInStates(id, init, validateSvgFilenames);
      var errors := validateSvgFilenames(id, Concat(states[|states| - 1].htmlStrings));
      if |errors| > 0 {
        var all := prefix + [StateTagInfo(states[|states| - 1].name, errors, |errors|)];
        assert all[..|all| - 1] == prefix;
      } else {
        assert prefix + [] == prefix;
      }
    }
  }

  /**
   * The map's emissions for one record: one value exactly when the record is
   * live and some state has errors, holding the record's id and its states'
   * entries, each counted by its error list.
   */
  function SvgFilenameEmissions(item: ExplorationModel, validateSvgFilenames: (string, string) -> seq<string>)
    : (es: seq<Emission<SvgValue>>)
    ensures |es| <= 1
    ensures es != [] <==>
      !item.deleted && exists k :: 0 <= k < |item.states| && |validateSvgFilenames(item.id, Concat(item.states[k].htmlStrings))| > 0
    ensures es != [] ==>
      && es[0] == Emission(FoundInvalidTagsKey, SvgValue(item.id, InvalidTagsInStates(item.id, item.states, validateSvgFilenames)))
      && WellCounted(es[0].value)
  {
    if item.deleted then []
    else
      var infos := InvalidTagsInStates(item.id, item.states, validateSvgFilenames);
      InvalidTagsNonEmpty(item.id, item.states, validateSvgFilenames);
      if |infos| > 0 then [Emission(FoundInvalidTagsKey, SvgValue(item.id, infos))] else []
  }

  /** Some state has an entry exactly when the validator finds errors in some state. */
  lemma {:induction false} InvalidTagsNonEmpty(id: string, states: seq<State>,
                                               validateSvgFilenames: (string, string) -> seq<string>)
    ensures |InvalidTagsInStates(id, states, validateSvgFilenames)| > 0 <==>
      exists k :: 0 <= k < |states| && |validateSvgFilenames(id, Concat(states[k].htmlStrings))| > 0
    decreases |states|
  {
    if states != [] {
      var init := states[..|states| - 1];
      InvalidTagsNonEmpty(id, init, validateSvgFilenames);
      assert forall k :: 0 <= k < |init| ==> init[k] == states[k];
    }
  }

  /** The map: the loop over the states appending the dict of each state with errors. */
  method SvgFilenameMap(item: ExplorationModel, validateSvgFilenames: (string, string) -> seq<string>)
    returns (out: seq<Emission<SvgValue>>)
    ensures out == SvgFilenameEmissions(item, validateSvgFilenames)
  {
    if item.deleted {
      return [];
    }
    var invalidTagsInfoInExp: seq<StateTagInfo> := [];
    for i := 0 to |item.states|
      invariant invalidTagsInfoInExp == InvalidTagsInStates(item.id, item.states[..i], validateSvgFilenames)
    {
      assert item.states[..i + 1][..i] == item.states[..i];
      var state := item.states[i];
      var htmlString := Concat(state.htmlStrings);
      var errorList := validateSvgFilenames(item.id, htmlString);
      if |errorList| > 0 {
        invalidTagsInfoInExp := invalidTagsInfoInExp + [StateTagInfo(state.name, errorList, |errorList|)];
      }
    }
    assert item.states[..|item.states|] == item.states;
    out := if |invalidTagsInfoInExp| > 0 then [Emission(FoundInvalidTagsKey, SvgValue(item.id, invalidTagsInfoInExp))]
           else [];
  }

  // ---------------------------------------------------------------------
  // Reduce
  // ---------------------------------------------------------------------

  function TagCount(infos: seq<StateTagInfo>): int
  {
    if infos == [] then 0 else TagCount(infos[..|infos| - 1]) + infos[|infos| - 1].noOfInvalidTags
  }

  /** The sum of the per-state counts over all values. */
  function TotalInvalidTags(values: seq<SvgValue>): int
  {
    if values == [] then 0 else TotalInvalidTags(values[..|values| - 1]) + TagCount(values[|values| - 1].infos)
  }

  function WithoutCount(info: StateTagInfo): StateTagErrors
  {
    StateTagErrors(info.stateName, info.errorList)
  }

  function StripCounts(infos: seq<StateTagInfo>): (r: seq<StateTagErrors>)
    ensures |r| == |infos|
    ensures forall j :: 0 <= j < |infos| ==>
      r[j].stateName == infos[j].stateName && r[j].errorList == infos[j].errorList
  {
    if infos == [] then [] else StripCounts(infos[..|infos| - 1]) + [WithoutCount(infos[|infos| - 1])]
  }

  /** The detail dict: each exploration id mapped to its states' errors, a later value for an id replacing an earlier one. */
  function Details(values: seq<SvgValue>): map<string, seq<StateTagErrors>>
  {
    if values == [] then map[]
    else Details(values[..|values| - 1])[values[|values| - 1].expId := StripCounts(values[|values| - 1].infos)]
  }

  /** The reduce: the nested loops summing counts and collecting the stripped dicts per exploration. */
  method SvgFilenameReduce(values: seq<SvgValue>)
    returns (overall: Emission<SvgSummary>, detailed: Emission<map<string, seq<StateTagErrors>>>)
    ensures overall == Emission(OverallResultKey, SvgSummary(|values|, TotalInvalidTags(values)))
    ensures detailed == Emission(DetailedInformationKey, Details(values))
  {
    var noOfInvalidTags := 0;
    var invalidTagsInfo: map<string, seq<StateTagErrors>> := map[];
    for i := 0 to |values|
      invariant noOfInvalidTags == TotalInvalidTags(values[..i])
      invariant invalidTagsInfo == Details(values[..i])
    {
      assert values[..i + 1][..i] == values[..i];
      var expId := values[i].expId;
      var infos := values[i].infos;
      invalidTagsInfo := invalidTagsInfo[expId := []];
      for j := 0 to |infos|
        invariant noOfInvalidTags == TotalInvalidTags(values[..i]) + TagCount(infos[..j])
        invariant invalidTagsInfo == Details(values[..i])[expId := StripCounts(infos[..j])]
      {
        assert infos[..j + 1][..j] == infos[..j];
        noOfInvalidTags := noOfInvalidTags + infos[j].noOfInvalidTags;
        invalidTagsInfo := invalidTagsInfo[expId := invalidTagsInfo[expId] + [WithoutCount(infos[j])]];
      }
      assert infos[..|infos|] == infos;
    }
    assert values[..|values|] == values;
    overall := Emission(OverallResultKey, SvgSummary(|values|, noOfInvalidTags));
    detailed := Emission(DetailedInformationKey, invalidTagsInfo);
  }

  /** The detail dict has an entry for exactly the exploration ids among the values. */
  lemma {:induction false} DetailsKeys(values: seq<SvgValue>, id: string)
    ensures id in Details(values) <==> exists i :: 0 <= i < |values| && values[i].expId == id
    decreases |values|
  {
    if values != [] {
      var init := values[..|values| - 1];
      var last := values[|values| - 1];
      DetailsKeys(init, id);
      assert Details(values) == Details(init)[last.expId := StripCounts(last.infos)];
      if exists i :: 0 <= i < |values| && values[i].expId == id {
        var i :| 0 <= i < |values| && values[i].expId == id;
        if i < |init| {
          assert init[i] == values[i];
        }
      }
      if exists i :: 0 <= i < |init| && init[i].expId == id {
        var i :| 0 <= i < |init| && init[i].expId == id;
        assert values[i] == init[i];
      }
    }
  }

  /** An exploration's entry holds the stripped dicts of the last value with its id. */
  lemma {:induction false} DetailsLastWins(values: seq<SvgValue>, id: string)
    requires id in Details(values)
    ensures exists i :: 0 <= i < |values| && values[i].expId == id && Details(values)[id] == StripCounts(values[i].infos)
                        && forall k :: i < k < |values| ==> values[k].expId != id
    decreases |values|
  {
    var init := values[..|values| - 1];
    var last := values[|values| - 1];
    var d := Details(init);
    assert Details(values) == d[last.expId := StripCounts(last.infos)];
    if last.expId != id {
      assert id in d;
      DetailsLastWins(init, id);
      var i :| 0 <= i < |init| && init[i].expId == id && d[id] == StripCounts(init[i].infos)
               && forall k :: i < k < |init| ==> init[k].expId != id;
      assert values[i] == init[i];
      assert forall k :: i < k < |values| ==> values[k].expId != id by {
        forall k | i < k < |values| ensures values[k].expId != id {
          if k < |init| {
            assert values[k] == init[k];
          }
        }
      }
    } else {
      assert values[|values| - 1].expId == id;
    }
  }

  /** When every count is its error list's length, the total is the number of errors listed. */
  function ErrorCount(infos: seq<StateTagInfo>): nat
  {
    if infos == [] then 0 else ErrorCount(infos[..|infos| - 1]) + |infos[|infos| - 1].errorList|
  }

  function TotalErrors(values: seq<SvgValue>): nat
  {
    if values == [] then 0 else TotalErrors(values[..|values| - 1]) + ErrorCount(values[|values| - 1].infos)
  }

  /** A map value as the map builds it: at least one state, each count the length of its error list. */
  predicate WellCounted(v: SvgValue)
  {
    |v.infos| > 0 && forall j :: 0 <= j < |v.infos| ==> v.infos[j].noOfInvalidTags == |v.infos[j].errorList|
  }

  predicate CountsMatch(values: seq<SvgValue>)
  {
    forall i :: 0 <= i < |values| ==> WellCounted(values[i])
  }

  lemma {:induction false} TagCountIsErrorCount(infos: seq<StateTagInfo>)
    requires forall j :: 0 <= j < |infos| ==> infos[j].noOfInvalidTags == |infos[j].errorList|
    ensures TagCount(infos) == ErrorCount(infos)
    decreases |infos|
  {
    if infos != [] {
      TagCountIsErrorCount(infos[..|infos| - 1]);
    }
  }

  lemma {:induction false} TotalIsErrorsListed(values: seq<SvgValue>)
    requires CountsMatch(values)
    ensures TotalInvalidTags(values) == TotalErrors(values)
    decreases |values|
  {
    if values != [] {
      var init := values[..|values| - 1];
      assert forall i :: 0 <= i < |init| ==> init[i] == values[i];
      assert WellCounted(values[|values| - 1]);
      TotalIsErrorsListed(init);
      TagCountIsErrorCount(values[|values| - 1].infos);
    }
  }

  lemma CountsMatchAppend(a: seq<SvgValue>, b: seq<SvgValue>)
    requires CountsMatch(a) && CountsMatch(b)
    ensures CountsMatch(a + b)
  {
    forall i | 0 <= i < |a + b| ensures WellCounted((a + b)[i]) {
      if i < |a| {
        assert (a + b)[i] == a[i];
      } else {
        assert (a + b)[i] == b[i - |a|];
      }
    }
  }

  function SvgJobEmissions(items: seq<ExplorationModel>, validateSvgFilenames: (string, string) -> seq<string>)
    : seq<Emission<SvgValue>>
  {
    if items == [] then []
    else SvgJobEmissions(items[..|items| - 1], validateSvgFilenames)
         + SvgFilenameEmissions(items[|items| - 1], validateSvgFilenames)
  }

  /**
   * The whole job: the values reaching the reduce are one per live
   * exploration with an invalid tag, all with counts that match their error
   * lists, so the reported total is the number of errors the validator finds
   * over the states of the live explorations.
   */
  lemma {:induction false} SvgJobValues(items: seq<ExplorationModel>, validateSvgFilenames: (string, string) -> seq<string>)
    ensures var values := ValuesFor(SvgJobEmissions(items, validateSvgFilenames), FoundInvalidTagsKey);
      && CountsMatch(values)
      && TotalInvalidTags(values) == TotalErrors(values)
      && TotalErrors(values) == JobStateErrors(items, validateSvgFilenames)
    decreases |items|
  {
    var values := ValuesFor(SvgJobEmissions(items, validateSvgFilenames), FoundInvalidTagsKey);
    if items != [] {
      var init := items[..|items| - 1];
      var last := items[|items| - 1];
      SvgJobValues(init, validateSvgFilenames);
      var a := SvgJobEmissions(init, validateSvgFilenames);
      var b := SvgFilenameEmissions(last, validateSvgFilenames);
      ValuesForAppend(a, b, FoundInvalidTagsKey);
      if b != [] {
        assert ValuesFor(b, FoundInvalidTagsKey) == ValuesFor([], FoundInvalidTagsKey) + [b[0].value];
      }
      assert CountsMatch(ValuesFor(b, FoundInvalidTagsKey));
      CountsMatchAppend(ValuesFor(a, FoundInvalidTagsKey), ValuesFor(b, FoundInvalidTagsKey));
    }
    TotalIsErrorsListed(values);
    SvgJobFindsAllErrors(items, validateSvgFilenames);
  }

  /** The errors listed in the values are all the errors the validator finds in the live records. */
  lemma {:induction false} SvgJobFindsAllErrors(items: seq<ExplorationModel>,
                                                validateSvgFilenames: (string, string) -> seq<string>)
    ensures TotalErrors(ValuesFor(SvgJobEmissions(items, validateSvgFilenames), FoundInvalidTagsKey))
            == JobStateErrors(items, validateSvgFilenames)
    decreases |items|
  {
    if items != [] {
      var init := items[..|items| - 1];
      var last := items[|items| - 1];
      SvgJobFindsAllErrors(init, validateSvgFilenames);
      var a := SvgJobEmissions(init, validateSvgFilenames);
      var b := SvgFilenameEmissions(last, validateSvgFilenames);
      var va := ValuesFor(a, FoundInvalidTagsKey);
      var vb := ValuesFor(b, FoundInvalidTagsKey);
      ValuesForAppend(a, b, FoundInvalidTagsKey);
      InvalidTagsCountAll(last.id, last.states, validateSvgFilenames);
      if b != [] {
        assert vb == ValuesFor([], FoundInvalidTagsKey) + [b[0].value];
        assert (va + vb)[..|va + vb| - 1] == va;
        assert TotalErrors(va + vb) == TotalErrors(va) + ErrorCount(b[0].value.infos);
      } else {
        assert last.deleted || |InvalidTagsInStates(last.id, last.states, validateSvgFilenames)| == 0;
        assert va + vb == va;
      }
    }
  }

  /** The number of errors the validator finds over the states of the live records. */
  function JobStateErrors(items: seq<ExplorationModel>, validateSvgFilenames: (string, string) -> seq<string>): nat
  {
    if items == [] then 0
    else JobStateErrors(items[..|items| - 1], validateSvgFilenames)
         + (var last := items[|items| - 1];
            if last.deleted then 0 else StateErrors(last.id, last.states, validateSvgFilenames))
  }
}
