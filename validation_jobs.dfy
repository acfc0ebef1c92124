/**
 * `ExplorationContentValidationJobForCKEditor` and
 * `RTECustomizationArgsValidationOneOffJob`.
 *
 * Both maps load each live exploration (yielding the loading error against
 * the exploration id when that raises) and validate its html, yielding the
 * errors found under their error keys. The CKEditor reduce merges the error
 * lists of a key into one set and moves the exploration id from the key
 * into the list; the RTE reduce turns the flattened `[err, id, err, id, ...]`
 * into sorted `(id, err)` pairs.
 *
 * Foreign calls are parameters: `get_exploration_from_model` raising
 * (`loadError`, the exception text), `validate_rte_format` and
 * `validate_customization_args` (`validateRteFormat`,
 * `validateCustomizationArgs`), each from an exploration id to its error
 * dict as a list of (error key, error list) in dict order.
 */
module ValidationJobs {
  import opened Common
  import opened MapReduce
  import opened PairOrder

  const ExpIdMarker := "Exp Id:"
  const LoadingMarker := "loading exploration"
  const RteExpIdPrefix := "Exp ID: "

  /** `'Error %s when loading exploration' % e`. */
  function LoadingErrorKey(error: string): string
  {
    "Error " + error + " when loading exploration"
  }

  // ---------------------------------------------------------------------
  // ExplorationContentValidationJobForCKEditor
  // ---------------------------------------------------------------------

  /** `'%s Exp Id: %s' % (key, exp_id)`. */
  function CKEditorKey(errorKey: string, id: string): string
  {
    errorKey + " " + ExpIdMarker + " " + id
  }

  /** The error dict's non-empty entries, each under its key tagged with the exploration id. */
  function CKEditorErrorEmissions(errDict: seq<(string, seq<string>)>, id: string): (es: seq<Emission<seq<string>>>)
    ensures |es| <= |errDict|
    ensures forall j :: 0 <= j < |es| ==>
      |es[j].value| > 0 && exists k :: 0 <= k < |errDict| && es[j] == Emission(CKEditorKey(errDict[k].0, id), errDict[k].1)
    ensures forall k :: 0 <= k < |errDict| && |errDict[k].1| > 0 ==> Emission(CKEditorKey(errDict[k].0, id), errDict[k].1) in es
  {
    if errDict == [] then []
    else
      var init := errDict[..|errDict| - 1];
      var (key, errors) := errDict[|errDict| - 1];
      var prefix := CKEditorErrorEmissions(init, id);
      assert forall k :: 0 <= k < |init| ==> init[k] == errDict[k];
      prefix + (if |errors| > 0 then [Emission(CKEditorKey(key, id), errors)] else [])
  }

  /** The entries of a dict's items are those of each part, in turn: the dict's order is kept. */
  lemma {:induction false} CKEditorErrorEmissionsAppend(a: seq<(string, seq<string>)>, b: seq<(string, seq<string>)>,
                                                        id: string)
    ensures CKEditorErrorEmissions(a + b, id) == CKEditorErrorEmissions(a, id) + CKEditorErrorEmissions(b, id)
    decreases |b|
  {
    if b == [] {
      assert a + b == a;
    } else {
      var init := b[..|b| - 1];
      var (key, errors) := b[|b| - 1];
      assert (a + b)[..|a + b| - 1] == a + init;
      assert (a + b)[|a + b| - 1] == (key, errors);
      CKEditorErrorEmissionsAppend(a, init, id);
      var tail := if |errors| > 0 then [Emission(CKEditorKey(key, id), errors)] else [];
      assert CKEditorErrorEmissions(a + b, id) == CKEditorErrorEmissions(a + init, id) + tail;
      assert CKEditorErrorEmissions(b, id) == CKEditorErrorEmissions(init, id) + tail;
    }
  }

  /**
   * The CKEditor map for one record: nothing for a deleted record, the
   * exploration id under the loading error when loading raises, and otherwise
   * the validator's non-empty error lists under their tagged keys.
   */
  function CKEditorEmissions(item: ExplorationModel, loadError: string -> Option<string>,
                             validateRteFormat: string -> seq<(string, seq<string>)>): (es: seq<Emission<seq<string>>>)
    ensures item.deleted ==> es == []
    ensures !item.deleted && loadError(item.id).Some? ==>
      es == [Emission(LoadingErrorKey(loadError(item.id).value), [item.id])]
    ensures !item.deleted && loadError(item.id).None? ==>
      var errDict := validateRteFormat(item.id);
      forall k :: 0 <= k < |errDict| && |errDict[k].1| > 0 ==> Emission(CKEditorKey(errDict[k].0, item.id), errDict[k].1) in es
    ensures !item.deleted && loadError(item.id).None? ==>
      var errDict := validateRteFormat(item.id);
      forall j :: 0 <= j < |es| ==> exists k :: 0 <= k < |errDict| && es[j] == Emission(CKEditorKey(errDict[k].0, item.id), errDict[k].1)
    // ... exactly the dict's non-empty entries, in the dict's order (CKEditorErrorEmissionsAppend)
    ensures !item.deleted && loadError(item.id).None? ==> es == CKEditorErrorEmissions(validateRteFormat(item.id), item.id)
    ensures forall j :: 0 <= j < |es| ==> |es[j].value| > 0
  {
    if item.deleted then []
    else match loadError(item.id)
      case Some(e) => [Emission(LoadingErrorKey(e), [item.id])]
      case None => CKEditorErrorEmissions(validateRteFormat(item.id), item.id)
  }

  /** `set().union(*lists)`. */
  function UnionAll(lists: seq<seq<string>>): (u: set<string>)
    ensures forall x :: x in u <==> exists i :: 0 <= i < |lists| && x in lists[i]
  {
    if lists == [] then {}
    else
      var init := lists[..|lists| - 1];
      assert forall i :: 0 <= i < |init| ==> init[i] == lists[i];
      var last := lists[|lists| - 1];
      UnionAll(init) + set i | 0 <= i < |last| :: last[i]
  }

  /** Python `s[:stop]`, where a negative `stop` counts from the end. */
  function SliceTo(s: string, stop: int): (r: string)
    ensures 0 <= stop <= |s| ==> r == s[..stop]
    ensures -|s| <= stop < 0 ==> r == s[..|s| + stop]
  {
    if stop < 0 then (if |s| + stop < 0 then "" else s[..|s| + stop])
    else if stop > |s| then s
    else s[..stop]
  }

  /**
   * The CKEditor reduce's output: the key, the merged error set (the list
   * `list(set)` holds them in an unspecified order) and, when the key named
   * an exploration, the `'Exp Id: ...'` text appended to the list.
   */
  datatype CKEditorOutput = CKEditorOutput(key: string, errors: set<string>, expIdTag: Option<string>)

  /** The CKEditor reduce: merge the lists; split the key at its first `'Exp Id:'`. */
  function CKEditorReduce(key: string, values: seq<seq<string>>): (r: CKEditorOutput)
    ensures r.errors == UnionAll(values)
    ensures var idx := Find(key, ExpIdMarker);
      && (idx == -1 ==> r.key == key && r.expIdTag.None?)
      && (idx != -1 ==> r.expIdTag == Some(key[idx..]))
      && (idx >= 1 ==> r.key + [key[idx - 1]] + r.expIdTag.value == key)
      && (idx == 0 ==> r.key == key[..|key| - 1])
  {
    var outputValues := UnionAll(values);
    var expIdIndex := Find(key, ExpIdMarker);
    if expIdIndex == -1 then CKEditorOutput(key, outputValues, None)
    else
      assert key == key[..expIdIndex] + key[expIdIndex..];
      CKEditorOutput(SliceTo(key, expIdIndex - 1), outputValues, Some(key[expIdIndex..]))
  }

  /**
   * No `'Exp Id:'` starts in the error key and reaches past it: the marker
   * would need the ' ' after the error key at its offset 3, and then has 'I'
   * where the tag has 'E'.
   */
  lemma NoMarkerAcrossTag(key: string, n: int, j: int)
    requires 0 <= j <= n < j + 7 <= |key| && n + 1 < |key|
    requires key[n] == ' ' && key[n + 1] == 'E'
    ensures key[j..j + 7] != ExpIdMarker
  {
    var m := ExpIdMarker;
    assert m[0] == 'E' && m[1] == 'x' && m[2] == 'p' && m[3] == ' ' && m[4] == 'I' && m[5] == 'd' && m[6] == ':';
    var t := n - j;
    assert key[j..j + 7][t] == ' ';
    if t == 3 {
      assert key[j..j + 7][4] == 'E';
    }
  }

  /** The first `'Exp Id:'` of a tagged key is the one the map put there, when the error key has none. */
  lemma FindMarkerInTaggedKey(errorKey: string, id: string)
    requires !Contains(errorKey, ExpIdMarker)
    ensures Find(CKEditorKey(errorKey, id), ExpIdMarker) == |errorKey| + 1
  {
    var key := CKEditorKey(errorKey, id);
    var n := |errorKey|;
    assert key == errorKey + " Exp Id: " + id;
    assert key[n + 1..n + 8] == ExpIdMarker;
    assert OccursAt(key, ExpIdMarker, n + 1);
    forall j | 0 <= j < n + 1 ensures !OccursAt(key, ExpIdMarker, j) {
      if OccursAt(key, ExpIdMarker, j) {
        if j + 7 <= n {
          assert key[j..j + 7] == errorKey[j..j + 7];
          assert OccursAt(errorKey, ExpIdMarker, j);
          assert false;
        } else {
          NoMarkerAcrossTag(key, n, j);
          assert false;
        }
      }
    }
  }

  /**
   * The reduce undoes the map's tagging: a key the map built from an error
   * key without `'Exp Id:'` in it comes back as that error key, with the
   * `'Exp Id: <id>'` text moved into the output list.
   */
  lemma CKEditorKeyRoundTrip(errorKey: string, id: string, values: seq<seq<string>>)
    requires !Contains(errorKey, ExpIdMarker)
    ensures CKEditorReduce(CKEditorKey(errorKey, id), values)
            == CKEditorOutput(errorKey, UnionAll(values), Some(ExpIdMarker + " " + id))
  {
    var key := CKEditorKey(errorKey, id);
    FindMarkerInTaggedKey(errorKey, id);
    assert key == errorKey + " Exp Id: " + id;
    assert key[..|errorKey|] == errorKey;
    assert key[|errorKey| + 1..] == ExpIdMarker + " " + id;
  }

  // ---------------------------------------------------------------------
  // RTECustomizationArgsValidationOneOffJob
  // ---------------------------------------------------------------------

  /** The error dict's entries, each list with `'Exp ID: <id>'` appended. */
  function RteErrorEmissions(errDict: seq<(string, seq<string>)>, id: string): (es: seq<Emission<seq<string>>>)
    ensures |es| == |errDict|
    ensures forall j :: 0 <= j < |es| ==> es[j] == Emission(errDict[j].0, errDict[j].1 + [RteExpIdPrefix + id])
  {
    if errDict == [] then []
    else
      var init := errDict[..|errDict| - 1];
      var (key, errors) := errDict[|errDict| - 1];
      RteErrorEmissions(init, id) + [Emission(key, errors + [RteExpIdPrefix + id])]
  }

  /**
   * The RTE map for one record: nothing for a deleted record, the exploration
   * id under the loading error when loading raises, and otherwise one pair per
   * entry of the error dict, its list ending in the exploration's tag.
   */
  function RteEmissions(item: ExplorationModel, loadError: string -> Option<string>,
                        validateCustomizationArgs: string -> seq<(string, seq<string>)>): (es: seq<Emission<seq<string>>>)
    ensures item.deleted ==> es == []
    ensures !item.deleted && loadError(item.id).Some? ==>
      es == [Emission(LoadingErrorKey(loadError(item.id).value), [item.id])]
    ensures !item.deleted && loadError(item.id).None? ==>
      var errDict := validateCustomizationArgs(item.id);
      && |es| == |errDict|
      && forall j :: 0 <= j < |es| ==> es[j] == Emission(errDict[j].0, errDict[j].1 + [RteExpIdPrefix + item.id])
  {
    if item.deleted then []
    else match loadError(item.id)
      case Some(e) => [Emission(LoadingErrorKey(e), [item.id])]
      case None => RteErrorEmissions(validateCustomizationArgs(item.id), item.id)
  }

  /** `[item for sublist in lists for item in sublist]`. */
  function Flatten(lists: seq<seq<string>>): (flat: seq<string>)
    ensures forall x :: x in flat <==> exists i :: 0 <= i < |lists| && x in lists[i]
  {
    if lists == [] then []
    else
      var init := lists[..|lists| - 1];
      assert forall i :: 0 <= i < |init| ==> init[i] == lists[i];
      Flatten(init) + lists[|lists| - 1]
  }

  /** Flattening keeps the lists' order: the flattening of a concatenation is that of each part, in turn. */
  lemma {:induction false} FlattenAppend(a: seq<seq<string>>, b: seq<seq<string>>)
    ensures Flatten(a + b) == Flatten(a) + Flatten(b)
    decreases |b|
  {
    if b == [] {
      assert a + b == a;
    } else {
      var init := b[..|b| - 1];
      var last := b[|b| - 1];
      assert (a + b)[..|a + b| - 1] == a + init;
      assert (a + b)[|a + b| - 1] == last;
      FlattenAppend(a, init);
      assert Flatten(a + b) == Flatten(a + init) + last;
      assert Flatten(b) == Flatten(init) + last;
    }
  }

  /** `[(f[1], f[0]), (f[3], f[2]), ...]` of an even-length list. */
  function PairsOf(flat: seq<string>): (ps: seq<(string, string)>)
    requires |flat| % 2 == 0
    ensures |ps| == |flat| / 2
    ensures forall k :: 0 <= k < |ps| ==> ps[k] == (flat[2 * k + 1], flat[2 * k])
    decreases |flat|
  {
    if flat == [] then []
    else
      var init := flat[..|flat| - 2];
      assert forall i :: 0 <= i < |init| ==> init[i] == flat[i];
      PairsOf(init) + [(flat[|flat| - 1], flat[|flat| - 2])]
  }

  /** What the RTE reduce yields for a key. */
  datatype RtePayload = Flattened(items: seq<string>) | IdErrorPairs(pairs: seq<(string, string)>)

  /** `flattened_values[index + 1]` past the end. */
  datatype RteError = IndexError

  /** The RTE reduce: loading errors pass through flattened; other keys pair up and sort. */
  method RteReduce(key: string, values: seq<seq<string>>) returns (r: Result<Emission<RtePayload>, RteError>)
    ensures Contains(key, LoadingMarker) ==> r == Ok(Emission(key, Flattened(Flatten(values))))
    ensures !Contains(key, LoadingMarker) ==> (r.Err? <==> |Flatten(values)| % 2 == 1)
    ensures !Contains(key, LoadingMarker) && |Flatten(values)| % 2 == 0 ==>
      && r.Ok? && r.value.key == key && r.value.value.IdErrorPairs?
      && var pairs := r.value.value.pairs;
         && pairs == SortPairs(PairsOf(Flatten(values)))
         && Sorted(pairs)
         && multiset(pairs) == multiset(PairsOf(Flatten(values)))
         && |pairs| == |Flatten(values)| / 2
  {
    var flattenedValues := Flatten(values);
    if Contains(key, LoadingMarker) {
      return Ok(Emission(key, Flattened(flattenedValues)));
    }
    var outputValues: seq<(string, string)> := [];
    var index := 0;
    while index < |flattenedValues|
      invariant 0 <= index <= |flattenedValues| && index % 2 == 0
      invariant outputValues == PairsOf(flattenedValues[..index])
      decreases |flattenedValues| - index
    {
      if index + 1 >= |flattenedValues| {
        return Err(IndexError);
      }
      var next := flattenedValues[..index + 2];
      assert next[..index] == flattenedValues[..index];
      outputValues := outputValues + [(flattenedValues[index + 1], flattenedValues[index])];
      index := index + 2;
    }
    assert flattenedValues[..index] == flattenedValues;
    outputValues := SortPairs(outputValues);
    r := Ok(Emission(key, IdErrorPairs(outputValues)));
  }

  /**
   * When every value holds exactly one error and then its id tag, as the map
   * yields for an exploration with one error under the key, the pairs are
   * (tag, error) of each value, in order, before sorting.
   */
  lemma {:induction false} PairsOfOneErrorEach(values: seq<seq<string>>)
    requires forall i :: 0 <= i < |values| ==> |values[i]| == 2
    ensures |Flatten(values)| == 2 * |values|
    ensures PairsOf(Flatten(values)) == seq(|values|, i requires 0 <= i < |values| => (values[i][1], values[i][0]))
    decreases |values|
  {
    if values != [] {
      var init := values[..|values| - 1];
      var last := values[|values| - 1];
      assert forall i :: 0 <= i < |init| ==> init[i] == values[i];
      PairsOfOneErrorEach(init);
      var f := Flatten(values);
      assert f == Flatten(init) + last;
      assert f[..|f| - 2] == Flatten(init);
      assert PairsOf(f) == PairsOf(Flatten(init)) + [(last[1], last[0])];
      var want := seq(|values|, i requires 0 <= i < |values| => (values[i][1], values[i][0]));
      var wantInit := seq(|init|, i requires 0 <= i < |init| => (init[i][1], init[i][0]));
      assert want == wantInit + [(last[1], last[0])];
    }
  }

  /** A value of one exploration holding two errors under the key leaves the flattened list misaligned. */
  lemma TwoErrorsMisalign(e1: string, e2: string, id: string)
    ensures var value := RteErrorEmissions([("key", [e1, e2])], id)[0].value;
      |Flatten([value])| == 3
  {
    var value := RteErrorEmissions([("key", [e1, e2])], id)[0].value;
    assert Flatten([value]) == Flatten([]) + value;
  }

  function RteJobEmissions(items: seq<ExplorationModel>, loadError: string -> Option<string>,
                           validateCustomizationArgs: string -> seq<(string, seq<string>)>): seq<Emission<seq<string>>>
  {
    if items == [] then []
    else RteJobEmissions(items[..|items| - 1], loadError, validateCustomizationArgs)
         + RteEmissions(items[|items| - 1], loadError, validateCustomizationArgs)
  }

  function CKEditorJobEmissions(items: seq<ExplorationModel>, loadError: string -> Option<string>,
                                validateRteFormat: string -> seq<(string, seq<string>)>): seq<Emission<seq<string>>>
  {
    if items == [] then []
    else CKEditorJobEmissions(items[..|items| - 1], loadError, validateRteFormat)
         + CKEditorEmissions(items[|items| - 1], loadError, validateRteFormat)
  }
}
