/**
 * Every map of the exploration jobs starts by returning when the record is
 * soft-deleted, so a deleted record yields nothing and the output of a
 * whole job is the output over its live records alone.
 */
module DeletedRecords {
  import opened Common
  import opened MapReduce
  import opened MigrationJobs
  import opened SvgFilenameJob
  import opened MathInfoJobs
  import opened ValidationJobs

  /** The records that are not soft-deleted, in their order. */
  function Live(items: seq<ExplorationModel>): (live: seq<ExplorationModel>)
    ensures |live| <= |items|
    ensures forall i :: 0 <= i < |live| ==> !live[i].deleted
    ensures forall x :: x in live <==> x in items && !x.deleted
  {
    if items == [] then []
    else
      var init := items[..|items| - 1];
      assert items == init + [items[|items| - 1]];
      Live(init) + (if items[|items| - 1].deleted then [] else [items[|items| - 1]])
  }

  /** Filtering keeps order: the live records of a concatenation are those of each part, in turn. */
  lemma {:induction false} LiveAppend(a: seq<ExplorationModel>, b: seq<ExplorationModel>)
    ensures Live(a + b) == Live(a) + Live(b)
    decreases |b|
  {
    if b == [] {
      assert a + b == a;
    } else {
      var init := b[..|b| - 1];
      var last := b[|b| - 1];
      assert (a + b)[..|a + b| - 1] == a + init;
      assert (a + b)[|a + b| - 1] == last;
      LiveAppend(a, init);
      var tail := if last.deleted then [] else [last];
      assert Live(a + b) == Live(a + init) + tail;
      assert Live(b) == Live(init) + tail;
    }
  }

  /** A deleted record yields nothing in any of the maps, and the migration map writes nothing for it. */
  lemma DeletedRecordEmitsNothing(item: ExplorationModel, current: int,
                                  migrateStep: (string, int) -> Outcome<string>, validates: string -> bool,
                                  validateSvgFilenames: (string, string) -> seq<string>,
                                  validate: string -> Outcome<string>, latexWithoutSvg: string -> seq<string>,
                                  loadError: string -> Option<string>,
                                  validateRte: string -> seq<(string, seq<string>)>)
    requires item.deleted
    ensures AuditEmissions(item, current, migrateStep) == []
    ensures MigrationMap(item, current, validates) == MigrationStep(None, [])
    ensures SvgFilenameEmissions(item, validateSvgFilenames) == []
    ensures MathInfoEmissions(item, validate, latexWithoutSvg) == []
    ensures CKEditorEmissions(item, loadError, validateRte) == []
    ensures RteEmissions(item, loadError, validateRte) == []
  {
  }

  lemma {:induction false} AuditIgnoresDeleted(items: seq<ExplorationModel>, current: int,
                                               migrateStep: (string, int) -> Outcome<string>)
    ensures AuditJobEmissions(items, current, migrateStep) == AuditJobEmissions(Live(items), current, migrateStep)
    decreases |items|
  {
    if items != [] {
      var init := items[..|items| - 1];
      var last := items[|items| - 1];
      AuditIgnoresDeleted(init, current, migrateStep);
      AuditAppend(Live(init), if last.deleted then [] else [last], current, migrateStep);
    }
  }

  lemma {:induction false} AuditAppend(a: seq<ExplorationModel>, b: seq<ExplorationModel>, current: int,
                                       migrateStep: (string, int) -> Outcome<string>)
    requires |b| <= 1
    ensures AuditJobEmissions(a + b, current, migrateStep)
            == AuditJobEmissions(a, current, migrateStep) + AuditJobEmissions(b, current, migrateStep)
  {
    if b == [] {
      assert a + b == a;
    } else {
      assert (a + b)[..|a + b| - 1] == a;
      assert b[..0] == [];
    }
  }

  lemma {:induction false} MigrationIgnoresDeleted(items: seq<ExplorationModel>, current: int,
                                                   validates: string -> bool)
    ensures MigrationJob(items, current, validates) == MigrationJob(Live(items), current, validates)
    decreases |items|
  {
    if items != [] {
      var init := items[..|items| - 1];
      var last := items[|items| - 1];
      MigrationIgnoresDeleted(init, current, validates);
      var live := Live(init);
      if last.deleted {
        assert Live(items) == live;
        var (commits, es) := MigrationJob(init, current, validates);
        assert MigrationMap(last, current, validates) == MigrationStep(None, []);
        assert commits + [] == commits && es + [] == es;
      } else {
        assert Live(items) == live + [last];
        assert (live + [last])[..|live + [last]| - 1] == live;
      }
    }
  }

  lemma {:induction false} SvgIgnoresDeleted(items: seq<ExplorationModel>,
                                             validateSvgFilenames: (string, string) -> seq<string>)
    ensures SvgJobEmissions(items, validateSvgFilenames) == SvgJobEmissions(Live(items), validateSvgFilenames)
    decreases |items|
  {
    if items != [] {
      var init := items[..|items| - 1];
      var last := items[|items| - 1];
      SvgIgnoresDeleted(init, validateSvgFilenames);
      var live := Live(init);
      if last.deleted {
        assert Live(items) == live;
        assert SvgJobEmissions(items, validateSvgFilenames)
               == SvgJobEmissions(init, validateSvgFilenames) + [];
      } else {
        assert Live(items) == live + [last];
        assert (live + [last])[..|live + [last]| - 1] == live;
        assert SvgJobEmissions(live + [last], validateSvgFilenames)
               == SvgJobEmissions(live, validateSvgFilenames) + SvgFilenameEmissions(last, validateSvgFilenames);
      }
    }
  }

  lemma {:induction false} MathIgnoresDeleted(items: seq<ExplorationModel>, validate: string -> Outcome<string>,
                                              latexWithoutSvg: string -> seq<string>)
    ensures MathJobEmissions(items, validate, latexWithoutSvg) == MathJobEmissions(Live(items), validate, latexWithoutSvg)
    decreases |items|
  {
    if items != [] {
      var init := items[..|items| - 1];
      var last := items[|items| - 1];
      MathIgnoresDeleted(init, validate, latexWithoutSvg);
      var live := Live(init);
      if last.deleted {
        assert Live(items) == live;
        assert MathJobEmissions(items, validate, latexWithoutSvg)
               == MathJobEmissions(init, validate, latexWithoutSvg) + [];
      } else {
        assert Live(items) == live + [last];
        assert (live + [last])[..|live + [last]| - 1] == live;
        assert MathJobEmissions(live + [last], validate, latexWithoutSvg)
               == MathJobEmissions(live, validate, latexWithoutSvg) + MathInfoEmissions(last, validate, latexWithoutSvg);
      }
    }
  }

  lemma {:induction false} CKEditorIgnoresDeleted(items: seq<ExplorationModel>, loadError: string -> Option<string>,
                                                  validateRteFormat: string -> seq<(string, seq<string>)>)
    ensures CKEditorJobEmissions(items, loadError, validateRteFormat)
            == CKEditorJobEmissions(Live(items), loadError, validateRteFormat)
    decreases |items|
  {
    if items != [] {
      var init := items[..|items| - 1];
      var last := items[|items| - 1];
      CKEditorIgnoresDeleted(init, loadError, validateRteFormat);
      var live := Live(init);
      if last.deleted {
        assert Live(items) == live;
        assert CKEditorJobEmissions(items, loadError, validateRteFormat)
               == CKEditorJobEmissions(init, loadError, validateRteFormat) + [];
      } else {
        assert Live(items) == live + [last];
        assert (live + [last])[..|live + [last]| - 1] == live;
        assert CKEditorJobEmissions(live + [last], loadError, validateRteFormat)
               == CKEditorJobEmissions(live, loadError, validateRteFormat) + CKEditorEmissions(last, loadError, validateRteFormat);
      }
    }
  }

  lemma {:induction false} RteIgnoresDeleted(items: seq<ExplorationModel>, loadError: string -> Option<string>,
                                             validateCustomizationArgs: string -> seq<(string, seq<string>)>)
    ensures RteJobEmissions(items, loadError, validateCustomizationArgs)
            == RteJobEmissions(Live(items), loadError, validateCustomizationArgs)
    decreases |items|
  {
    if items != [] {
      var init := items[..|items| - 1];
      var last := items[|items| - 1];
      RteIgnoresDeleted(init, loadError, validateCustomizationArgs);
      var live := Live(init);
      if last.deleted {
        assert Live(items) == live;
        assert RteJobEmissions(items, loadError, validateCustomizationArgs)
               == RteJobEmissions(init, loadError, validateCustomizationArgs) + [];
      } else {
        assert Live(items) == live + [last];
        assert (live + [last])[..|live + [last]| - 1] == live;
        assert RteJobEmissions(live + [last], loadError, validateCustomizationArgs)
               == RteJobEmissions(live, loadError, validateCustomizationArgs) + RteEmissions(last, loadError, validateCustomizationArgs);
      }
    }
  }
}
