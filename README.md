# Port server pool and exploration one-off jobs, in Dafny

This project models two parts of the repository and proves properties of
them.

**The port server** (`scripts/run_portserver.py`) hands out TCP/UDP ports to
local processes, which ask by sending their pid:

- `_parse_port_ranges` turns a `"N-P,X-Y"` pool description into a set of
  ports.
- `_PortPool` is a rotating queue of `_PortInfo` records (port, owning pid,
  the owner's start time). A request examines at most one full turn of the
  queue, moving each candidate from the back to the front. It hands out the
  first port whose owner is gone (or that never had one) and that is free.
- `_should_allocate_port` refuses invalid pids, init and absent processes;
  any other error of `os.kill` propagates out of the request.
- `_PortServerRequestHandler` parses the request, asks the pool and counts
  how each request ended: allocations, denials and client errors.

The pool is a class whose `queue` field is reassigned step by step in the
same loop as the source. The handler is a class holding the pool and its
three counters. Each method is proved against a function of the old state:
`ScanQueue` for a pool request, `HandleRequest` for a handler request. The
lemmas then state what those functions promise.

**The exploration one-off jobs** (`core/domain/exp_jobs_one_off.py`) are
map/reduce jobs over stored explorations and their rights snapshots. For
each of the eight core jobs the model has:

- the map for one record, as a function from the record to its sequence of
  `(key, value)` emissions;
- where the source loops, a method proved equal to that function;
- the reduce for one key and its grouped values;
- the whole job as the concatenated emissions of a sequence of records;
- lemmas tying what the reduce reports to the records the job started from.

The lemmas cover these claims:

- the audit's `SUCCESS` count is the number of explorations that migrate
  fully;
- the migration job reports exactly the commits it wrote;
- the SVG total is the number of errors the validator finds in the live
  explorations;
- the batch estimate accounts for the bytes;
- the first published time is the earliest public snapshot;
- the CKEditor reduce undoes the map's key tagging;
- the RTE reduce yields the sorted `(id, err)` pairs, and sorted output is
  unique;
- deleting records changes no job's output except by dropping theirs.

Operating-system queries and foreign library calls are parameters:

- whether a port can be bound (`isFree`);
- a process's start time from /proc (`startTimeOf`, 0 when unreadable);
- what `os.kill(pid, 0)` does (`probe`): return, raise `ProcessLookupError`, or
  raise anything else;
- each job's validation, migration, loading and html-analysis calls.

## Model

| member | source | states |
|---|---|---|
| PortRanges.ClassifyRange | scripts/run_portserver.py:313-320 | an item is unparsable exactly when it has no '-' or a side of its first '-' is not an integer; otherwise it carries those two integers as start and end, and it is a kept range exactly when start >= 1 and end <= 65535 |
| PortRanges.InclusiveRange | scripts/run_portserver.py:321 | `set(range(start, end + 1))` holds exactly the p with start <= p <= end |
| PortRanges.ParsePortRanges | scripts/run_portserver.py:308-322 | the loop's set is the union of the items' ranges in comma order, and every port returned lies in [1, 65535] |
| PortRanges.UnionPortsMembership | scripts/run_portserver.py:308-322 | a port is returned if and only if some well-formed, in-bounds item's inclusive range covers it |
| PortRanges.ParsedPortsInBounds | scripts/run_portserver.py:317-322 | every returned port lies in [1, 65535] |
| Common.SplitOnce | scripts/run_portserver.py:313 | `split('-', 1)` of a string with a '-' gives the text before the first '-' and the rest, which rejoin to the input; None exactly when there is no '-' |
| Common.Find | core/domain/exp_jobs_one_off.py:527 | `str.find` gives -1 exactly when the pattern occurs nowhere, and otherwise an index where it occurs with no earlier occurrence |
| Common.JoinSplit | scripts/run_portserver.py:311 | `split(',')` keeps every piece, empty ones included: joining the pieces with ',' gives back the input |
| Common.Split | scripts/run_portserver.py:311 | `split(',')` gives at least one piece and no piece contains the separator |
| Common.ParseInt | scripts/run_portserver.py:246 | `int()` of a request with no decimal digit in it raises, here None |
| Common.IntToDecimal | core/domain/exp_jobs_one_off.py:136-139 | `'%d'`/`'%s'` of an int is non-empty, starts with '-' exactly for a negative number, and is otherwise digits |
| Common.ParseIntOfDecimal | core/domain/exp_jobs_one_off.py:197-202 | a version written in decimal reads back as the same integer |
| Common.ParseIntOfDecimalLine | scripts/run_portserver.py:263 | `'{:d}\n'.format(port)` reads back with `int()` as the port |
| PortPool.RotateRight | scripts/run_portserver.py:185-187 | after k moves of the last record to the front, the first k places hold the last k records in order and the rest follow |
| PortPool.RotateStep | scripts/run_portserver.py:185-187 | one more `pop` / `appendleft` of the rotated queue is the rotation by one more |
| PortPool.RotatePreservesPorts | scripts/run_portserver.py:185-187 | rotation keeps the multiset of ports |
| PortPool.FullTurnRestoresOrder | scripts/run_portserver.py:184-189 | a full turn of n moves leaves the queue in its original order |
| PortPool.FirstHit | scripts/run_portserver.py:184-195 | the number of the first examined candidate that can be handed out (owner gone and port free); every candidate examined before it cannot |
| PortPool.FirstHitIs | scripts/run_portserver.py:184-195 | any c for which candidates before it fail and the c-th qualifies is the first hit |
| PortPool.ScanHit | scripts/run_portserver.py:191-198 | when the c-th candidate is the first that qualifies, the request leaves the queue rotated by c with that record now owned by the requester at the front, returns its port and records c checks |
| PortPool.ScanMiss | scripts/run_portserver.py:184-207 | when no candidate qualifies, the request returns 0, checks all n records and leaves the queue as it was |
| PortPool.ScanKeepsPorts | scripts/run_portserver.py:178-207 | a request keeps the queue's length and its multiset of ports (so ports stay in range) and examines between 1 and n candidates |
| PortPool.ScanFailure | scripts/run_portserver.py:184-207 | 0 is returned if and only if no record can be handed out, and then the queue is unchanged (no owner changed) and n were checked |
| PortPool.ScanSuccess | scripts/run_portserver.py:191-198 | a nonzero port comes from a record whose start time is 0 or differs from its owner's current one and whose port is free; no earlier candidate qualified; that record is now owned by the requester with its start time; every other record is untouched |
| PortPool.PortPool.constructor | scripts/run_portserver.py:171-173 | a new pool has an empty queue and 0 ports checked |
| PortPool.PortPool.NumPorts | scripts/run_portserver.py:175-176 | `num_ports` is the number of managed ports, duplicates included |
| PortPool.PortPool.AddPortToFreePool | scripts/run_portserver.py:209-215 | a port outside [1, 65535] is refused with the range error and the queue is unchanged; otherwise one unowned record (pid 0, start time 0) is appended at the back and `num_ports` grows by one |
| PortPool.PortPool.GetPortForProcess | scripts/run_portserver.py:178-207 | raises on an empty queue; otherwise the in-place loop leaves exactly the queue, port and check count of `ScanQueue` |
| PortServer.ShouldAllocatePort | scripts/run_portserver.py:122-137 | refuses pid <= 0 and pid 1 without calling `os.kill`; for other pids it allocates exactly when `os.kill` returns, refuses exactly when it raises `ProcessLookupError`, and gives None (the exception escapes) exactly when it raises anything else |
| PortServer.HandleRequest | scripts/run_portserver.py:238-267 | every request that does not raise moves exactly one counter up by one: errors exactly when the pid does not parse, allocations exactly when a port is replied; a request raises exactly when `os.kill` fails otherwise than for a missing process, or when an acceptable pid meets an empty pool, and then no counter moves and the pool is unchanged; an unparsable or refused request leaves the pool alone |
| PortServer.ReplyIsAllocatedPort | scripts/run_portserver.py:259-263 | a reply parses back as a port in [1, 65535] that the pool handed out: its record qualified and is now owned by the requester at the front of the queue |
| PortServer.EmptyReplyWhenNoneAllocatable | scripts/run_portserver.py:264-267 | the empty reply is given exactly when an acceptable pid finds no record to hand out in a non-empty pool; the queue is then unchanged and n were checked |
| PortServer.RequestKeepsPorts | scripts/run_portserver.py:238-267 | no request adds, drops or changes a managed port, and ports stay in [1, 65535] |
| PortServer.Unowned | scripts/run_portserver.py:150-153 | the records for freshly added ports carry each port, in order, with pid 0 and start time 0 |
| PortServer.PortServerRequestHandler.constructor | scripts/run_portserver.py:230-233 | a fresh empty pool and all three counters at zero |
| PortServer.PortServerRequestHandler.Create | scripts/run_portserver.py:225-236 | succeeds exactly when every port is in [1, 65535], with one unowned record per port in order and zero counters; otherwise fails with the first bad port |
| PortServer.PortServerRequestHandler.HandlePortRequest | scripts/run_portserver.py:238-267 | the response, the pool's queue and check count and the counters are those `HandleRequest` gives for the old state |
| MapReduce.Concat | core/domain/exp_jobs_one_off.py:235 | `''.join` has the summed length of its pieces |
| MapReduce.ConcatAppend | core/domain/exp_jobs_one_off.py:235 | the join of two runs of pieces is the join of the first followed by the join of the second, so the join is the pieces in order |
| MapReduce.ConcatSingle | core/domain/exp_jobs_one_off.py:235 | the join of one piece is that piece |
| MapReduce.ValuesForAppend | core/domain/exp_jobs_one_off.py:58 | the values grouped under a key from two runs of emissions are those of the first followed by those of the second |
| FirstPublishedJob.Min | core/domain/exp_jobs_one_off.py:64-67 | `min` of a non-empty list is one of its elements and no greater than any |
| FirstPublishedJob.FirstPublishedMap | core/domain/exp_jobs_one_off.py:51-55 | a snapshot yields something exactly when its status is public, and then only (exploration id, creation time) |
| FirstPublishedJob.RecordTime | core/domain/exp_jobs_one_off.py:51-55 | one snapshot puts a time under an exploration's key exactly when it is a public snapshot of it created at that time |
| FirstPublishedJob.FirstPublishedReduce | core/domain/exp_jobs_one_off.py:58-70 | no update without rights; `min([])` raises; otherwise the update names the exploration with the earliest of its times |
| FirstPublishedJob.GroupedTimes | core/domain/exp_jobs_one_off.py:51-55 | a time reaches the exploration's reduce exactly when some public snapshot of it has that creation time |
| FirstPublishedJob.FirstPublishedIsEarliest | core/domain/exp_jobs_one_off.py:51-70 | for an exploration with rights and a public snapshot, the first published time set is the creation time of one of its public snapshots and no later than any |
| MigrationJobs.AuditMap | core/domain/exp_jobs_one_off.py:119-145 | the stepping loop with its `break` yields exactly `AuditEmissions` |
| MigrationJobs.AuditFrom | core/domain/exp_jobs_one_off.py:130-145 | stepping from v yields nothing when v is at or past the current version and one pair otherwise, under `SUCCESS` or `MIGRATION_ERROR` |
| MigrationJobs.AuditEmissions | core/domain/exp_jobs_one_off.py:119-145 | a record yields one pair exactly when it is live and below the current version, under `SUCCESS` or `MIGRATION_ERROR` |
| MigrationJobs.AuditReduce | core/domain/exp_jobs_one_off.py:148-152 | `SUCCESS` becomes the number of its values; any other key yields its values unchanged. What this count means over a job, the number of live records that migrate fully, is stated by MigrationJobs.AuditJobCounts |
| MigrationJobs.AuditFromOutcome | core/domain/exp_jobs_one_off.py:130-145 | stepping from v < current yields one pair: `('SUCCESS', 1)` exactly when every step succeeds, otherwise the error of the first failing step w naming target v = w + 1 |
| MigrationJobs.AuditMapOutcome | core/domain/exp_jobs_one_off.py:119-145 | a deleted record, or one at or past the current version, yields nothing; any other yields exactly one pair as above |
| MigrationJobs.AuditJobCounts | core/domain/exp_jobs_one_off.py:119-152 | the reduce's `SUCCESS` count is the number of live records that migrate fully; successes plus errors equal the records needing migration and all the pairs yielded |
| MigrationJobs.AuditRecordCounts | core/domain/exp_jobs_one_off.py:119-145 | one record yields one pair if it needs stepping and none otherwise, and that pair is `SUCCESS` exactly when it migrates fully |
| MigrationJobs.MigrationMap | core/domain/exp_jobs_one_off.py:174-210 | a commit is written and `('SUCCESS', id)` yielded exactly for a live record that validates and whose version differs from the current one; the commit's from/to versions read back as those versions; otherwise nothing |
| MigrationJobs.CommitIds | core/domain/exp_jobs_one_off.py:210 | the ids of the commits, in order |
| MigrationJobs.MigrationReduce | core/domain/exp_jobs_one_off.py:213-214 | each key yields the number of its values. That this number equals the commits written over a job is stated by MigrationJobs.MigrationJobReportsCommits |
| MigrationJobs.MigrationJobReportsCommits | core/domain/exp_jobs_one_off.py:174-214 | the `SUCCESS` values are the ids of the written explorations in order, nothing else is yielded, and the reduce reports the number of commits |
| SvgFilenameJob.InvalidTagsInStates | core/domain/exp_jobs_one_off.py:234-246 | each entry is a state with errors, carrying that state's validator errors and their number as count; every state whose validator list is non-empty has its entry |
| SvgFilenameJob.InvalidTagsAppend | core/domain/exp_jobs_one_off.py:234-246 | the entries of two runs of states are those of the first followed by those of the second, so entries follow state order |
| SvgFilenameJob.InvalidTagsCountAll | core/domain/exp_jobs_one_off.py:234-246 | the entries list exactly as many errors as the validator finds over all the states |
| SvgFilenameJob.InvalidTagsNonEmpty | core/domain/exp_jobs_one_off.py:234-247 | there is an entry exactly when the validator finds errors in some state |
| SvgFilenameJob.SvgFilenameEmissions | core/domain/exp_jobs_one_off.py:228-248 | a record yields one value exactly when it is live and some state has validator errors; the value holds its id and its states' entries, each counted by its error list |
| SvgFilenameJob.SvgFilenameMap | core/domain/exp_jobs_one_off.py:228-248 | the loop over the states yields exactly `SvgFilenameEmissions` |
| SvgFilenameJob.StripCounts | core/domain/exp_jobs_one_off.py:257-260 | after `del value['no_of_invalid_tags']` each entry keeps its state name and error list, in order |
| SvgFilenameJob.SvgFilenameReduce | core/domain/exp_jobs_one_off.py:251-267 | the nested loops report the number of values and the sum of the per-state counts, and the detail dict of stripped entries |
| SvgFilenameJob.DetailsKeys | core/domain/exp_jobs_one_off.py:255-256 | the detail dict has an entry for exactly the exploration ids among the values |
| SvgFilenameJob.DetailsLastWins | core/domain/exp_jobs_one_off.py:255-260 | an exploration's detail entry is the stripped list of the last value with its id |
| SvgFilenameJob.TagCountIsErrorCount | core/domain/exp_jobs_one_off.py:244-258 | when each count is its error list's length, the counts add up to the number of errors |
| SvgFilenameJob.TotalIsErrorsListed | core/domain/exp_jobs_one_off.py:253-264 | for values as the map builds them, `no_of_invalid_tags` is the number of errors listed |
| SvgFilenameJob.CountsMatchAppend | core/domain/exp_jobs_one_off.py:240-246 | well-counted values stay well counted when runs of them are joined |
| SvgFilenameJob.SvgJobValues | core/domain/exp_jobs_one_off.py:228-264 | over a whole job, every value reaching the reduce is well counted, and the reported `no_of_invalid_tags` equals the number of errors the validator finds over the states of the live explorations |
| SvgFilenameJob.SvgJobFindsAllErrors | core/domain/exp_jobs_one_off.py:228-248 | the errors listed in the values reaching the reduce are all the validator's errors over the live explorations' states |
| MathInfoJobs.MathInfoMap | core/domain/exp_jobs_one_off.py:336-364 | validation, then the loop gathering all states' html, yields exactly `MathInfoEmissions` |
| MathInfoJobs.MathInfoEmissions | core/domain/exp_jobs_one_off.py:336-364 | a deleted record yields nothing; a failed validation yields its one message under `validation_error`; otherwise something is yielded exactly when the html has latex without svg, and then exactly `('SUCCESS', (id, latex strings without svg))`; never more than one pair |
| MathInfoJobs.MathRecordValuesAreLatex | core/domain/exp_jobs_one_off.py:358-364 | a record's values under the math key are all id/latex pairs |
| MathInfoJobs.MathKeyValuesAreLatex | core/domain/exp_jobs_one_off.py:347-364 | whatever a record yields under the math key is its own id with a non-empty latex list; a deleted record yields nothing |
| MathInfoJobs.BatchFold | core/domain/exp_jobs_one_off.py:372-396 | the batch estimate starts at 1, grows by one each time the running size exceeds the limit, and stays within 1..1 + number of explorations |
| MathInfoJobs.LongerOf | core/domain/exp_jobs_one_off.py:388-390 | `max(a, b, key=len)` is one of the two and at least as long as either |
| MathInfoJobs.Infos | core/domain/exp_jobs_one_off.py:378-382 | one info record per value, in order, with the generation flag set |
| MathInfoJobs.SvgSizes | core/domain/exp_jobs_one_off.py:384-385 | one svg size per value, in order |
| MathInfoJobs.LatexCounts | core/domain/exp_jobs_one_off.py:386-387 | one latex count per value, in order |
| MathInfoJobs.Longest | core/domain/exp_jobs_one_off.py:375-390 | the longest raw latex string is at least as long as every exploration's longest expression, and is `''` or one of them |
| MathInfoJobs.MathInfoReduce | core/domain/exp_jobs_one_off.py:367-410 | other keys pass through unchanged; for the math key the loop produces the saved info records and the summary of batches, longest string, number of explorations and the sum of latex counts |
| MathInfoJobs.ReduceStep | core/domain/exp_jobs_one_off.py:377-396 | each running value of the reduce moves as one loop iteration moves it |
| MathInfoJobs.BatchesAccountForBytes | core/domain/exp_jobs_one_off.py:391-396 | every closed batch held more than the limit, so the sizes add up to at least (batches - 1) * (limit + 1) plus the open batch, which is within the limit or just reset |
| MathInfoJobs.OpenBatchNonNegative | core/domain/exp_jobs_one_off.py:391-396 | with non-negative sizes the open batch is never negative |
| MathInfoJobs.SingleBatchWhenSmall | core/domain/exp_jobs_one_off.py:372-396 | sizes that fit the limit together give an estimate of one batch |
| MathInfoJobs.MathJobValuesAreLatex | core/domain/exp_jobs_one_off.py:361-377 | every value grouped under the math key is an id/latex pair, so the reduce's unpacking cannot fail |
| MathInfoJobs.DeletionMap | core/domain/exp_jobs_one_off.py:424-426 | the map deletes the model it is given and yields exactly one 1 under `model_deleted` |
| MathInfoJobs.DeletionReduce | core/domain/exp_jobs_one_off.py:429-433 | one message under the key; when every value is 1 it reports the number of values |
| MathInfoJobs.DeletionJobDeletesAll | core/domain/exp_jobs_one_off.py:424-426 | every info model is deleted once, in order, and each yields one 1 under `model_deleted` |
| MathInfoJobs.DeletionJobReport | core/domain/exp_jobs_one_off.py:424-433 | every info model is deleted, in order, and the reduce's message reports the number of models |
| ValidationJobs.CKEditorErrorEmissions | core/domain/exp_jobs_one_off.py:517-519 | each yielded pair is a non-empty error list under its error key tagged `' Exp Id: <id>'`, and every error key with a non-empty list is yielded |
| ValidationJobs.CKEditorErrorEmissionsAppend | core/domain/exp_jobs_one_off.py:517-519 | the pairs for two runs of dict entries are those of the first followed by those of the second, so they follow dict order |
| ValidationJobs.CKEditorEmissions | core/domain/exp_jobs_one_off.py:500-519 | a deleted record yields nothing; a loading error yields the exploration id under the loading-error key; otherwise exactly the validator's non-empty error lists under their tagged keys, in the dict's order; no yielded list is empty |
| ValidationJobs.UnionAll | core/domain/exp_jobs_one_off.py:526 | `set().union(*lists)` holds exactly the strings found in some list |
| ValidationJobs.SliceTo | core/domain/exp_jobs_one_off.py:532 | Python `s[:stop]`, where a negative stop counts from the end |
| ValidationJobs.CKEditorReduce | core/domain/exp_jobs_one_off.py:522-532 | the output errors are the union of the values' lists; without `'Exp Id:'` the key is kept; otherwise the text from its first `'Exp Id:'` is appended and the key is cut one character before it (all but the last character when the marker starts the key) |
| ValidationJobs.NoMarkerAcrossTag | core/domain/exp_jobs_one_off.py:519-527 | no `'Exp Id:'` can start inside the error key and run into the map's tag |
| ValidationJobs.FindMarkerInTaggedKey | core/domain/exp_jobs_one_off.py:519-527 | in a key the map tagged, from an error key without the marker, the first `'Exp Id:'` is the tag's |
| ValidationJobs.CKEditorKeyRoundTrip | core/domain/exp_jobs_one_off.py:519-532 | the reduce undoes the map's tagging: the error key comes back with `'Exp Id: <id>'` moved into the output |
| ValidationJobs.RteErrorEmissions | core/domain/exp_jobs_one_off.py:562-565 | every error-dict entry is yielded under its key with `'Exp ID: <id>'` appended to its list |
| ValidationJobs.RteEmissions | core/domain/exp_jobs_one_off.py:546-565 | a deleted record yields nothing; a loading error yields the exploration id under the loading-error key; otherwise one pair per error-dict entry, its list with `'Exp ID: <id>'` appended |
| ValidationJobs.Flatten | core/domain/exp_jobs_one_off.py:570-571 | a string is in the flattened list exactly when some sublist holds it |
| ValidationJobs.FlattenAppend | core/domain/exp_jobs_one_off.py:570-571 | flattening two runs of lists gives the first's items followed by the second's, so items keep their order |
| ValidationJobs.PairsOf | core/domain/exp_jobs_one_off.py:581-589 | an even-length `[err, id, ...]` becomes half as many `(id, err)` pairs, the k-th from places 2k+1 and 2k |
| ValidationJobs.RteReduce | core/domain/exp_jobs_one_off.py:568-591 | a loading-error key passes its flattened list through; otherwise an odd-length list raises IndexError and an even one gives the sorted permutation of its `(id, err)` pairs, half the length |
| ValidationJobs.PairsOfOneErrorEach | core/domain/exp_jobs_one_off.py:560-589 | when each value holds one error and its id tag, the pairs are each value's (tag, error), in order |
| ValidationJobs.TwoErrorsMisalign | core/domain/exp_jobs_one_off.py:560-589 | one exploration with two errors under a key yields a value of odd length, three |
| PairOrder.StrLeReflexive | core/domain/exp_jobs_one_off.py:590 | string order is reflexive |
| PairOrder.StrLeTotal | core/domain/exp_jobs_one_off.py:590 | string order is total |
| PairOrder.StrLeAntisymmetric | core/domain/exp_jobs_one_off.py:590 | string order is antisymmetric |
| PairOrder.StrLeTransitive | core/domain/exp_jobs_one_off.py:590 | string order is transitive |
| PairOrder.PairLeTotal | core/domain/exp_jobs_one_off.py:590 | tuple order is total |
| PairOrder.PairLeAntisymmetric | core/domain/exp_jobs_one_off.py:590 | tuple order is antisymmetric |
| PairOrder.PairLeTransitive | core/domain/exp_jobs_one_off.py:590 | tuple order is transitive |
| PairOrder.Insert | core/domain/exp_jobs_one_off.py:590 | inserting into a sorted list keeps it sorted and adds exactly the new pair |
| PairOrder.SortPairs | core/domain/exp_jobs_one_off.py:590 | `list.sort()` gives a sorted permutation of the pairs |
| PairOrder.SortedAll | core/domain/exp_jobs_one_off.py:590 | in a sorted list every earlier pair is no greater than every later one |
| PairOrder.HeadIsLeast | core/domain/exp_jobs_one_off.py:590 | a sorted list starts with its least pair |
| PairOrder.SortedPermutationUnique | core/domain/exp_jobs_one_off.py:590 | two sorted permutations of the same pairs are equal, so the sorted output is determined by its pairs |
| DeletedRecords.Live | core/domain/exp_jobs_one_off.py:120-121 | a record is kept exactly when it is in the input and not soft-deleted; no kept record is deleted |
| DeletedRecords.LiveAppend | core/domain/exp_jobs_one_off.py:120-121 | the live records of two runs are those of the first followed by those of the second, so the kept records stay in order |
| DeletedRecords.DeletedRecordEmitsNothing | core/domain/exp_jobs_one_off.py:119-121 | a soft-deleted record yields nothing in every exploration map, and the migration map writes nothing for it |
| DeletedRecords.AuditIgnoresDeleted | core/domain/exp_jobs_one_off.py:120-121 | the audit job's emissions are those of its live records alone |
| DeletedRecords.AuditAppend | core/domain/exp_jobs_one_off.py:119-145 | the audit emissions of a list followed by at most one record are those of the list followed by that record's |
| DeletedRecords.MigrationIgnoresDeleted | core/domain/exp_jobs_one_off.py:175-176 | the migration job's commits and emissions are those of its live records alone |
| DeletedRecords.SvgIgnoresDeleted | core/domain/exp_jobs_one_off.py:229-230 | the SVG job's emissions are those of its live records alone |
| DeletedRecords.MathIgnoresDeleted | core/domain/exp_jobs_one_off.py:337-338 | the math-info job's emissions are those of its live records alone |
| DeletedRecords.CKEditorIgnoresDeleted | core/domain/exp_jobs_one_off.py:501-502 | the CKEditor job's emissions are those of its live records alone |
| DeletedRecords.RteIgnoresDeleted | core/domain/exp_jobs_one_off.py:547-548 | the RTE job's emissions are those of its live records alone |

## Left out

- Sockets, the `Server` class, `_bind`, `_get_socket` and the accept loop are not modelled. They are I/O and concurrency.
- The operating-system queries are not modelled; they are parameters of the requests:
  - `_is_port_free` becomes `isFree`;
  - `_get_process_start_time` becomes `startTimeOf`, with 0 for an unreadable /proc entry. As a function it gives the same answer for a pid throughout one request, although the source reads /proc once per candidate (scripts/run_portserver.py:192) and once more for the requester (:195);
  - `os.kill(pid, 0)` becomes `probe`, with its three outcomes: it returns, it raises `ProcessLookupError`, or it raises anything else (`OverflowError` for a pid beyond the C `int` range, `PermissionError` for another user's process).
- MigrationJobs.MigrationMap, SvgFilenameJob.SvgFilenameEmissions, MathInfoJobs.MathInfoEmissions and PortServer.HandleRequest assume that calls the source makes outside any `try` return normally:
  - `exp_fetchers.get_exploration_by_id` and `exp_services.update_exploration` in the migration map (core/domain/exp_jobs_one_off.py:179 and 205);
  - `exp_fetchers.get_exploration_from_model` in the SVG map and the math map (lines 232 and 340);
  - `_get_process_command_line(pid)` in the request handler (scripts/run_portserver.py:253), which catches only IOError, so a command line that is not valid UTF-8 raises before any counter moves.

  When one of them raises in the source, the record yields nothing or the request raises. The "exactly when" statements of these members hold only for runs where these calls return.
- SvgFilenameEmissions: the states examined are the stored `states` of the record. The source examines the states of the exploration that `exp_fetchers.get_exploration_from_model` builds from it (core/domain/exp_jobs_one_off.py:232-234), and that loader's states-schema conversion is not modelled.
- SvgFilenameMap: its loop walks the stored `states`, where the source walks the loaded exploration's states (core/domain/exp_jobs_one_off.py:232-234). The loader's conversion is not modelled.
- MathInfoEmissions: the html is gathered from the stored `states`. The source gathers it from the states of the exploration that `get_exploration_from_model` loads (core/domain/exp_jobs_one_off.py:340, 353), and that conversion is not modelled.
- MathInfoMap: its loop walks the stored `states`, where the source walks the loaded exploration's states (core/domain/exp_jobs_one_off.py:340, 353). The loader's conversion is not modelled.
- `_get_process_command_line`, logging, argparse, `_configure_logging`, `main` and `dump_stats` are not modelled. The counters `dump_stats` reports are kept.
- PortPool.PortPool.GetPortForProcess: `_PortInfo` records are values in the queue, not objects. The owner update replaces the record, and its two field writes are one step. The pool alone holds the records, so no aliasing is lost.
- PortServer.PortServerRequestHandler.Create: `ports_to_serve` is a sequence taken in its given order. The source iterates a set in hash order, so queue order is given rather than derived. The constructor's ValueError becomes an `Err` result.
- Common.ParseInt: Python `int()` is narrowed to this form:
  - optional ASCII whitespace around the number;
  - an optional sign, then one or more ASCII digits.
  
  Underscores, Unicode digits and Unicode whitespace are not accepted. The request is a string of characters, although the source parses the received bytes.
- PortServer.HandleRequest: the source mixes result types. A reply is bytes (`.encode('utf-8')`), an exhausted pool gives the str `''`, and a refusal gives `None`. These are the distinct responses `Reply`, `EmptyReply` and `NoResponse`. What the connection handler then sends is not modelled.
- The map/reduce engine is not modelled; grouping is `MapReduce.ValuesFor`, which keeps emission order. The engine's grouping order and sharding are left out, as are the datastore and the `enqueue`/`entity_classes_to_map_over` plumbing.
- `ast.literal_eval` is left out: reduce values arrive decoded.
- The pass-through reduces are the identity. This covers `ExplorationValidityJobManager` and `ExplorationMockMathMigrationOneOffJob` (lines 99-100 and 316-317) and `ViewableExplorationsAuditJob` and `HintsAuditOneOffJob` (lines 458-459 and 485-486). Those four jobs are not part of this model.
- Foreign libraries are parameters and are not modelled:
  - `exp_domain` migration steps: `migrateStep`, which passes or raises with a text;
  - exploration validation: `validates` / `validate`;
  - `exp_fetchers` loading: `loadError`;
  - `html_validation_service`: `validateSvgFilenames`, `latexWithoutSvg`, `validateRteFormat` and `validateCustomizationArgs`;
  - `rights_manager.get_exploration_rights`: `rightsExist`;
  - `get_svg_size_in_bytes`, already truncated by `int()`: `svgSizeInBytes`;
  - `get_longest_latex_expression`: `longestLatex`.
- `MAX_SIZE_OF_MATH_SVGS_BATCH_BYTES` is the parameter `maxBatchBytes`, and `CURRENT_STATE_SCHEMA_VERSION` is `current`. Their configured values are not part of this model.
- `ACTIVITY_STATUS_PUBLIC` is taken as `"public"`. Snapshot times are integer milliseconds, and `get_unversioned_instance_id` is the snapshot's exploration id field.
- MigrationJobs.MigrationMap: the commit keeps the exploration id, the from/to versions as decimal strings, and the commit message. The change `cmd` name and the migration bot's username are not modelled.
- MigrationJobs.MigrationMap: the test is `!=` against the current version, as the code writes it. A record with a version above the current one is written too, though the class comment speaks of records not being up to date.
- ValidationJobs.CKEditorReduce: `list(set().union(...))` has no defined order, so the output is the set of errors plus the appended `'Exp Id: ...'` text, not a list.
- SvgFilenameJob.Details: the `invalid_tags_info` dict keeps the order in which each id first appears (core/domain/exp_jobs_one_off.py:254-260). The model's `map` keeps the ids and their entries but not that order.
- ValidationJobs.RteReduce: the pairing assumes each value holds one error before its id tag, as the source's comment does. `TwoErrorsMisalign` shows that a value with two errors breaks that assumption. It is not claimed to be a defect, because what `validate_customization_args` returns is not part of this model.
- SvgFilenameJob.SvgFilenameReduce: the key `'no_of_explorations_with_no_svgs'` is `len(values)`, as written, whatever its name suggests.
- Error texts of raised exceptions are not modelled beyond their kind: `PortOutOfRange`, `NoPortsManaged`, `IndexError` and `MinOfEmpty`.
