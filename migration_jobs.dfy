/**
 * `ExplorationMigrationAuditJob` and `ExplorationMigrationJobManager`.
 *
 * The audit job steps each live exploration's states from its schema
 * version towards the current one without saving anything; the migration
 * job writes back, through a migration commit, every live exploration that
 * passes non-strict validation and is not at the current version.
 *
 * The states migration of one version step is the parameter `migrateStep`:
 * for an exploration id and a version v it either passes or raises with an
 * error text. Non-strict validation of the stored exploration is the
 * parameter `validates`.
 */
module MigrationJobs {
  import opened Common
  import opened MapReduce

  const SuccessKey := "SUCCESS"
  const MigrationErrorKey := "MIGRATION_ERROR"

  // ---------------------------------------------------------------------
  // ExplorationMigrationAuditJob
  // ---------------------------------------------------------------------

  /** An audit map value: the count 1 of a full migration, or an error message. */
  datatype AuditValue = Count(n: int) | Message(text: string)

  /** An audit reduce value: the number of successes, or the values of any other key unchanged. */
  datatype AuditResult = SuccessCount(n: nat) | Values(values: seq<AuditValue>)

  /** `'Exploration %s failed migration to states v%s: %s'`. */
  function MigrationErrorMessage(id: string, targetVersion: int, error: string): string
  {
    "Exploration " + id + " failed migration to states v" + IntToDecimal(targetVersion) + ": " + error
  }

  /** What the stepping loop yields from version `v` on, towards `current`. */
  function AuditFrom(id: string, v: int, current: int, migrateStep: (string, int) -> Outcome<string>)
    : (es: seq<Emission<AuditValue>>)
    ensures v >= current ==> es == []
    ensures v < current ==> |es| == 1
    ensures forall j :: 0 <= j < |es| ==> es[j].key == SuccessKey || es[j].key == MigrationErrorKey
    decreases current - v
  {
    if v >= current then []
    else match migrateStep(id, v)
      case Fail(e) => [Emission(MigrationErrorKey, Message(MigrationErrorMessage(id, v + 1, e)))]
      case Pass => if v + 1 == current then [Emission(SuccessKey, Count(1))] else AuditFrom(id, v + 1, current, migrateStep)
  }

  /** The audit map's emissions for one record. */
  function AuditEmissions(item: ExplorationModel, current: int, migrateStep: (string, int) -> Outcome<string>)
    : (es: seq<Emission<AuditValue>>)
    ensures |es| == if NeedsMigration(item, current) then 1 else 0
    ensures forall j :: 0 <= j < |es| ==> es[j].key == SuccessKey || es[j].key == MigrationErrorKey
  {
    if item.deleted then [] else AuditFrom(item.id, item.statesSchemaVersion, current, migrateStep)
  }

  /** Every step from the record's version up to the current one succeeds. */
  ghost predicate FullyMigrates(item: ExplorationModel, current: int, migrateStep: (string, int) -> Outcome<string>)
  {
    forall w :: item.statesSchemaVersion <= w < current ==> migrateStep(item.id, w).Pass?
  }

  /** A live record the audit has to step at all. */
  predicate NeedsMigration(item: ExplorationModel, current: int)
  {
    !item.deleted && item.statesSchemaVersion < current
  }

  /** The audit map: the `while states_schema_version < current` loop. */
  method AuditMap(item: ExplorationModel, current: int, migrateStep: (string, int) -> Outcome<string>)
    returns (out: seq<Emission<AuditValue>>)
    ensures out == AuditEmissions(item, current, migrateStep)
  {
    out := [];
    if item.deleted {
      return;
    }
    var version := item.statesSchemaVersion;
    while version < current
      invariant out + AuditFrom(item.id, version, current, migrateStep)
                == AuditFrom(item.id, item.statesSchemaVersion, current, migrateStep)
      decreases current - version
    {
      var step := migrateStep(item.id, version);
      if step.Fail? {
        out := out + [Emission(MigrationErrorKey, Message(MigrationErrorMessage(item.id, version + 1, step.error)))];
        break;
      }
      version := version + 1;
      if version == current {
        out := out + [Emission(SuccessKey, Count(1))];
      }
    }
  }

  lemma {:induction false} AuditFromOutcome(id: string, v: int, current: int, migrateStep: (string, int) -> Outcome<string>)
    requires v < current
    ensures var es := AuditFrom(id, v, current, migrateStep);
      && |es| == 1
      && ((forall w :: v <= w < current ==> migrateStep(id, w).Pass?) <==> es[0] == Emission(SuccessKey, Count(1)))
      && (|| es[0] == Emission(SuccessKey, Count(1))
          || (exists w :: v <= w < current && migrateStep(id, w).Fail?
                && (forall u :: v <= u < w ==> migrateStep(id, u).Pass?)
                && es[0] == Emission(MigrationErrorKey, Message(MigrationErrorMessage(id, w + 1, migrateStep(id, w).error)))))
    decreases current - v
  {
    if migrateStep(id, v).Pass? && v + 1 < current {
      AuditFromOutcome(id, v + 1, current, migrateStep);
      var es := AuditFrom(id, v + 1, current, migrateStep);
      if es[0] != Emission(SuccessKey, Count(1)) {
        var w :| v + 1 <= w < current && migrateStep(id, w).Fail?
            && (forall u :: v + 1 <= u < w ==> migrateStep(id, u).Pass?)
            && es[0] == Emission(MigrationErrorKey, Message(MigrationErrorMessage(id, w + 1, migrateStep(id, w).error)));
        assert forall u :: v <= u < w ==> migrateStep(id, u).Pass?;
      }
    }
  }

  /**
   * One record: a deleted record, or one already at or past the current
   * version, emits nothing; any other emits exactly one pair, `('SUCCESS', 1)`
   * exactly when every step succeeds, and otherwise the error of the first
   * step that fails, naming the version it was migrating to.
   */
  lemma AuditMapOutcome(item: ExplorationModel, current: int, migrateStep: (string, int) -> Outcome<string>)
    ensures !NeedsMigration(item, current) ==> AuditEmissions(item, current, migrateStep) == []
    ensures NeedsMigration(item, current) ==>
      var es := AuditEmissions(item, current, migrateStep);
      && |es| == 1
      && (FullyMigrates(item, current, migrateStep) <==> es[0] == Emission(SuccessKey, Count(1)))
      && (!FullyMigrates(item, current, migrateStep) ==>
            exists w :: item.statesSchemaVersion <= w < current && migrateStep(item.id, w).Fail?
              && (forall u :: item.statesSchemaVersion <= u < w ==> migrateStep(item.id, u).Pass?)
              && es[0] == Emission(MigrationErrorKey,
                                   Message(MigrationErrorMessage(item.id, w + 1, migrateStep(item.id, w).error))))
  {
    if NeedsMigration(item, current) {
      AuditFromOutcome(item.id, item.statesSchemaVersion, current, migrateStep);
    }
  }

  /** The audit map over all records, in order. */
  function AuditJobEmissions(items: seq<ExplorationModel>, current: int, migrateStep: (string, int) -> Outcome<string>)
    : seq<Emission<AuditValue>>
  {
    if items == [] then []
    else AuditJobEmissions(items[..|items| - 1], current, migrateStep)
         + AuditEmissions(items[|items| - 1], current, migrateStep)
  }

  /** The audit reduce: `SUCCESS` becomes the number of its values; other keys pass through. */
  function AuditReduce(key: string, values: seq<AuditValue>): (r: Emission<AuditResult>)
    ensures r.key == key
    ensures key == SuccessKey ==> r.value == SuccessCount(|values|)
    ensures key != SuccessKey ==> r.value == Values(values)
  {
    if key == SuccessKey then Emission(key, SuccessCount(|values|)) else Emission(key, Values(values))
  }

  ghost function CountFullyMigrating(items: seq<ExplorationModel>, current: int,
                                     migrateStep: (string, int) -> Outcome<string>): nat
  {
    if items == [] then 0
    else CountFullyMigrating(items[..|items| - 1], current, migrateStep)
         + (if NeedsMigration(items[|items| - 1], current) && FullyMigrates(items[|items| - 1], current, migrateStep)
            then 1 else 0)
  }

  function CountNeedingMigration(items: seq<ExplorationModel>, current: int): nat
  {
    if items == [] then 0
    else CountNeedingMigration(items[..|items| - 1], current)
         + (if NeedsMigration(items[|items| - 1], current) then 1 else 0)
  }

  /**
   * The whole audit: the reduce reports as `SUCCESS` the number of live
   * records that migrate fully, and every other record that needed stepping
   * contributes one `MIGRATION_ERROR` message.
   */
  lemma {:induction false} AuditJobCounts(items: seq<ExplorationModel>, current: int,
                                          migrateStep: (string, int) -> Outcome<string>)
    ensures var es := AuditJobEmissions(items, current, migrateStep);
      && AuditReduce(SuccessKey, ValuesFor(es, SuccessKey))
           == Emission(SuccessKey, SuccessCount(CountFullyMigrating(items, current, migrateStep)))
      && |ValuesFor(es, SuccessKey)| + |ValuesFor(es, MigrationErrorKey)| == CountNeedingMigration(items, current)
      && |ValuesFor(es, SuccessKey)| + |ValuesFor(es, MigrationErrorKey)| == |es|
    decreases |items|
  {
    if items != [] {
      var init := items[..|items| - 1];
      var last := items[|items| - 1];
      var a := AuditJobEmissions(init, current, migrateStep);
      var b := AuditEmissions(last, current, migrateStep);
      AuditJobCounts(init, current, migrateStep);
      ValuesForAppend(a, b, SuccessKey);
      ValuesForAppend(a, b, MigrationErrorKey);
      AuditRecordCounts(last, current, migrateStep);
    }
  }

  /** One record contributes one `SUCCESS` if it migrates fully, and one pair in all if it needs stepping. */
  lemma AuditRecordCounts(item: ExplorationModel, current: int, migrateStep: (string, int) -> Outcome<string>)
    ensures var b := AuditEmissions(item, current, migrateStep);
      && |ValuesFor(b, SuccessKey)|
           == (if NeedsMigration(item, current) && FullyMigrates(item, current, migrateStep) then 1 else 0)
      && |ValuesFor(b, SuccessKey)| + |ValuesFor(b, MigrationErrorKey)| == |b|
      && |b| == (if NeedsMigration(item, current) then 1 else 0)
  {
    var b := AuditEmissions(item, current, migrateStep);
    AuditMapOutcome(item, current, migrateStep);
    if NeedsMigration(item, current) {
      assert b == [b[0]];
      assert ValuesFor(b, SuccessKey) == ValuesFor([], SuccessKey) + (if b[0].key == SuccessKey then [b[0].value] else []);
      assert ValuesFor(b, MigrationErrorKey)
             == ValuesFor([], MigrationErrorKey) + (if b[0].key == MigrationErrorKey then [b[0].value] else []);
    }
  }

  // ---------------------------------------------------------------------
  // ExplorationMigrationJobManager
  // ---------------------------------------------------------------------

  /** The migration commit `update_exploration` stores for a record. */
  datatype MigrationCommit = MigrationCommit(
    explorationId: string, fromVersion: string, toVersion: string, commitMessage: string)

  /** What the migration map does for one record: the commit it writes, if any, and what it yields. */
  datatype MigrationStep = MigrationStep(commit: Option<MigrationCommit>, emitted: seq<Emission<string>>)

  /** `'Update exploration states from schema version %d to %d.'`. */
  function MigrationCommitMessage(from: int, to: int): string
  {
    "Update exploration states from schema version " + IntToDecimal(from) + " to " + IntToDecimal(to) + "."
  }

  /** The migration map: skip deleted and invalid records; write and yield `('SUCCESS', id)` when not current. */
  function MigrationMap(item: ExplorationModel, current: int, validates: string -> bool): (r: MigrationStep)
    ensures r.commit.Some? <==> !item.deleted && validates(item.id) && item.statesSchemaVersion != current
    ensures r.commit.None? ==> r.emitted == []
    ensures r.commit.Some? ==>
      && r.emitted == [Emission(SuccessKey, item.id)]
      && r.commit.value.explorationId == item.id
      && ParseInt(r.commit.value.fromVersion) == Some(item.statesSchemaVersion)
      && ParseInt(r.commit.value.toVersion) == Some(current)
  {
    if item.deleted then MigrationStep(None, [])
    else if !validates(item.id) then MigrationStep(None, [])
    else if item.statesSchemaVersion != current then
      ParseIntOfDecimal(item.statesSchemaVersion);
      ParseIntOfDecimal(current);
      MigrationStep(
        Some(MigrationCommit(item.id, IntToDecimal(item.statesSchemaVersion), IntToDecimal(current),
                             MigrationCommitMessage(item.statesSchemaVersion, current))),
        [Emission(SuccessKey, item.id)])
    else MigrationStep(None, [])
  }

  /** The migration map over all records: the commits written and the pairs yielded, in order. */
  function MigrationJob(items: seq<ExplorationModel>, current: int, validates: string -> bool)
    : (seq<MigrationCommit>, seq<Emission<string>>)
  {
    if items == [] then ([], [])
    else
      var (commits, es) := MigrationJob(items[..|items| - 1], current, validates);
      var step := MigrationMap(items[|items| - 1], current, validates);
      (commits + (if step.commit.Some? then [step.commit.value] else []), es + step.emitted)
  }

  /** The migration reduce: `(key, len(values))`. */
  function MigrationReduce(key: string, values: seq<string>): (r: Emission<nat>)
    ensures r == Emission(key, |values|)
  {
    Emission(key, |values|)
  }

  function CommitIds(commits: seq<MigrationCommit>): (ids: seq<string>)
    ensures |ids| == |commits| && forall i :: 0 <= i < |commits| ==> ids[i] == commits[i].explorationId
  {
    if commits == [] then [] else CommitIds(commits[..|commits| - 1]) + [commits[|commits| - 1].explorationId]
  }

  /**
   * The whole migration job: the `SUCCESS` values are the ids of the written
   * explorations, in order, so the reduce reports the number of commits;
   * nothing else is yielded.
   */
  lemma {:induction false} MigrationJobReportsCommits(items: seq<ExplorationModel>, current: int,
                                                      validates: string -> bool)
    ensures var (commits, es) := MigrationJob(items, current, validates);
      && ValuesFor(es, SuccessKey) == CommitIds(commits)
      && |es| == |commits|
      && MigrationReduce(SuccessKey, ValuesFor(es, SuccessKey)) == Emission(SuccessKey, |commits|)
    decreases |items|
  {
    if items != [] {
      var init := items[..|items| - 1];
      var (commits, es) := MigrationJob(init, current, validates);
      var step := MigrationMap(items[|items| - 1], current, validates);
      MigrationJobReportsCommits(init, current, validates);
      ValuesForAppend(es, step.emitted, SuccessKey);
      if step.commit.Some? {
        assert ValuesFor(step.emitted, SuccessKey) == ValuesFor([], SuccessKey) + [items[|items| - 1].id];
        var all := commits + [step.commit.value];
        assert all[..|all| - 1] == commits;
      } else {
        assert commits + [] == commits;
      }
    }
  }
}
