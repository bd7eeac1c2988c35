# Verified models of curio-core

Dafny models of the parts of curio-core that carry safety, arithmetic or round-trip
obligations, with proofs of what those parts promise. `dafny verify dfyconfig.toml` checks
everything.

| module | what it models |
|---|---|
| Text, Ordering | Go's string and big-integer helpers: digits, trimming, `SetString`, `strings.Compare`, `sort.Strings` |
| StashPaths | `path/filepath` and `net/url` as far as custore URLs need them, and the resolver |
| PieceStore | parked_pieces, parked_piece_refs, the stash directory, and the queries on them; ReadPiece |
| DiskStash | the stash file operations |
| StashLifecycle | upload, finalizer, ParkComplete and sweep as one timed step machine |
| StashReads | ReadPiece interleaved with the steps of that machine; pieces whose refs share one URL |
| StashSweep, ParkComplete | the two tasks run by themselves, as methods over the tables |
| Settlement | discovery, mirror, candidate pick, settlement; one rail over many cycles |
| Decimal18 | two parsers and three printers of 18-decimal amounts |
| HeadChanges | the revert coalescer and the bridge around it, on Go slices with shared arrays |
| Migrations | the migration runner under errors and crashes |
| Keepalive | machine rows, keepalive, reaper and task claims as a timed step machine |
| Alerts, AlertPoller | the deduplicating store and the history poller |
| DataPath | labelled-directory discovery |
| RollupCache | the single-owner TTL cache under any number of callers |
| LayerStore | the Merkle-layer index and its transactions |
| Versions | the order on release tags |

Conventions. A class holds the state that the Go code updates in place; its methods are proved
against functions or predicates on values, and lemmas say what the source promises about those.
Answers of SELECT statements are parameters constrained by what the query means. Statements that
can fail, ownership checks, clocks and random names are parameters too, usually functions of the
index of the call. Strings are sequences of bytes, one `char` a byte; `strings.TrimSpace` trims
the ASCII white space. Integers that Go holds in `big.Int` are unbounded, and `strconv.Atoi` has
its 64-bit range.

## What the proofs found

- The stash directory must be absolute, but need not be clean. With a relative one a file's URL
  never resolves to the path that garbage collection compares with (`StashPaths.RoundTripsIffAbsolute`).
- Garbage collection is safe exactly when the greatest age of a first ref plus the lag between
  snapshot and cutoff is below the retention (`StashLifecycle.SafeIffTimely`). Age counts from
  creation, because the file time can be that old.
- A piece may have refs to several uploads: none of their files is collected. Three functions choose a
  piece's ref differently: any custore ref, the least URL, the lowest ref id. They lead to one file when
  all refs of a piece share one URL; that is a hypothesis on runs (`StashReads.Shared`), used only for
  what is said of one file per piece and of the missing flag.
- A ready piece is ever completed exactly when fewer than 32 blocked candidates have lower ids
  (`ParkComplete.CompletedIff`): 32 with the lowest ids starve every other piece.
- Discovery's cap lets 1000 rails through, not the 800 its warning names (`Settlement.HonestDiscovery`).
- `parseDecimalTo18Decimals` accepts "-", "--5" and "0-5", which `parseUSDFC` rejects. They differ
  exactly on a lone sign and on a stray sign behind zeros, other than in ".-5" and its like, which
  both read (`Decimal18.ParsersAgree`). `formatBigWei` drops the sign (`Decimal18.PrintersOnDebts`).
- `ApplyMigrations` does not check `rows.Err()`: a read cut short executes a recorded file again
  (`Migrations.TruncatedReadRepeats`, `Migrations.RunsOrderlyIff`). A script whose record was lost is
  recorded later exactly when it runs a second time (`Migrations.LostRecordBlocks`), and one that never
  does blocks all later runs (`Migrations.TrappedForGood`). A column added or dropped and not taken back
  is enough for that (`Migrations.AlterBlocksForGood`): 0011, 0014, 0016, 0018, 0020 and 0023 have ALTER
  TABLE ... ADD COLUMN, and 0017 has DROP COLUMN.
- `tick` loses what it passes over (`AlertPoller.PassedOverIsLost`), and `Emit` never promotes a
  stored severity, although the comment in `tick` says it does: a task is stored above "warning"
  exactly when it had failed twice before its first alerted failure (`AlertPoller.NeverPromoted`).
- `Fingerprint` takes a number and its text for the same value (`Alerts.NumbersCollideWithTexts`), and
  is not injective when a key contains '=' (`Alerts.EqualsSignsCollide`).
- `compareVersions` does not compare unparseable tags as strings, although its comment says so
  (`Versions.NightlyEqualsBeta`).

## Model

| member | source | states |
|---|---|---|
| StashLifecycle.SafeIffTimely | internal/stashsweep/stashsweep.go:112-155 | over all interleavings of upload, ref insertion and deletion, ParkComplete and sweep steps, any number of uploads to a piece, no referenced file is ever removed if and only if GC is off or the greatest age at which an unnamed upload gets a ref plus the lag from ref snapshot to cutoff is below the retention |
| StashLifecycle.SafeInAbsoluteDir | internal/stashsweep/stashsweep.go:233-277 | the same equivalence for the paths and URLs of any absolute stash directory |
| StashLifecycle.RefsStayBacked | internal/stashsweep/stashsweep.go:123-155 | in every legal run under the timing hypothesis, each custore ref resolves to a file that exists |
| StashLifecycle.ReclaimedIsNeverNamed | internal/stashsweep/stashsweep.go:255-277 | a path that GC reclaimed is named by no ref at that time and by no ref in any continuation of the run |
| StashLifecycle.UntimelyLosesAFile | internal/stashsweep/stashsweep.go:239-263 | when the hypothesis fails, a concrete legal run leaves a ref whose file was reclaimed |
| StashLifecycle.StepKeeps | internal/stashsweep/stashsweep.go:112-283 | one step of any process keeps the whole invariant; a step is one statement or system call; refs may be inserted to any stored upload that is young enough or named, and deleted at any time |
| StashReads.CompleteIsServed | internal/localpiecepark/localpiecepark.go:71-131 | in runs where the refs of a piece share one URL and stay with it: the same unless the piece is deleted, and the file opened is the one every ref of the piece leads ParkComplete and the sweep to, then and now |
| StashReads.ReadIsServed | internal/localpiecepark/localpiecepark.go:71-131 | in every run, any number of URLs to a piece: a piece whose lowest ref has a custore URL is opened if and only if it is complete and size and CID match, any steps between SELECT and open as long as some ref keeps the URL; the file opened is the one there was at the lookup, unchanged |
| StashLifecycle.FlipIsJustified | internal/parkcomplete/parkcomplete.go:130-163 | in every run, when ParkComplete sets complete, the file it checked is there if any ref still has the row's URL, the row's own or another |
| StashReads.CheckedIsServed | internal/localpiecepark/localpiecepark.go:84-130 | in such runs, when ParkComplete completes an existing piece its file is there, and every matching read, its lookup and its open any number of steps later, opens that very file, unchanged, unless the piece was deleted |
| StashReads.FileStays | internal/stashsweep/stashsweep.go:112-283 | over any legal timely run in which some ref always has a custore URL, the file behind the URL stays as it is |
| StashReads.FlagWritesNothing | internal/stashsweep/stashsweep.go:179-222 | in runs where the refs of a piece share one URL and stay with it, no piece is ever flagged missing, and the UPDATE between stat and write changes no row |
| StashReads.ReadFails | internal/localpiecepark/localpiecepark.go:92-129 | which of the eight errors a read reports: the first check that fails, in the order of the source |
| StashReads.FirstUrlIs | internal/localpiecepark/localpiecepark.go:84-90 | a read goes by the URL of the ref with the lowest id, and by none when there is no ref |
| StashLifecycle.CompleteStaysComplete | internal/parkcomplete/parkcomplete.go:154-156 | over any run a complete piece stays complete for as long as it exists |
| StashLifecycle.DoomedIff | internal/stashsweep/stashsweep.go:248-269 | in the machine, a listed name is taken for removal if and only if GC is on and its file is plain, .tmp, unreferenced and old |
| StashLifecycle.FlagFollowsStat | internal/stashsweep/stashsweep.go:193-222 | in the machine, the row of an existing piece is flagged if and only if the stat found its file absent, first stamps kept |
| StashLifecycle.StatDecides | internal/parkcomplete/parkcomplete.go:130-153 | in the machine, a candidate is kept for the flip if and only if its URL resolves to a file that is there |
| StashLifecycle.CheckLooks | internal/stashsweep/stashsweep.go:183-193 | in the machine, a row whose URL does not resolve is skipped, any other is looked for |
| StashSweep.Task.Sweep | internal/stashsweep/stashsweep.go:122-155 | one sweep keeps refs and all piece columns but the missing flag; what is gone is among the listed plain .tmp files in no ref of the snapshot and last written at the cutoff or before, nothing in dry run; without faults exactly these are gone when GC is on, every row checked is flagged exactly when its file is absent, and the counters are the sizes of those sets |
| StashSweep.Task.Snapshot | internal/stashsweep/stashsweep.go:128-140 | the referenced set is exactly the paths that custore refs resolve to |
| StashSweep.Task.IntegrityPass | internal/stashsweep/stashsweep.go:159-228 | for the rows processed, a piece is flagged if and only if its file is absent, a stamp that was there is kept and a new one is the time of the check; pieces not complete and all other columns are unchanged; the counters are the numbers of absent and of returned files |
| StashSweep.Task.GcPass | internal/stashsweep/stashsweep.go:233-283 | a listed file is gone if and only if it is no directory, ends in .tmp, is not in the snapshot, was last written at the cutoff or before, was looked at while owned, GC is on and the removal succeeded; candidates, reclaimed and bytes are the sizes of those sets and the bytes the directory lost |
| StashSweep.RowsAre | internal/stashsweep/stashsweep.go:163-177 | the rows checked are those of exactly the complete pieces with a ref of the custore scheme |
| StashSweep.CheckedTells | internal/stashsweep/stashsweep.go:193-222 | flag if and only if the file is absent, first stamps kept, new ones the time of the check |
| StashSweep.SecondPassIsQuiet | internal/stashsweep/stashsweep.go:179-226 | a second integrity pass right after a complete one changes nothing, heals nothing and counts the same broken pieces |
| StashSweep.SnapshotIsReferenced | internal/stashsweep/stashsweep.go:131-140 | the loop over the selected URLs yields the set of all referenced paths, duplicates and bad URLs included |
| StashSweep.ReferencedIff | internal/stashsweep/stashsweep.go:128-140 | a path is in the snapshot if and only if some ref has a URL of the custore scheme that resolves to it |
| StashSweep.OnlyOrphansGo | internal/stashsweep/stashsweep.go:244-277 | the same for a pass over the first names only: gone are exactly the plain, unreferenced, old .tmp files among them that could be removed, when GC is on, and nothing else |
| StashSweep.CollectOne | internal/stashsweep/stashsweep.go:244-277 | one more directory entry extends directory and counters as one turn of the loop does |
| DiskStash.Store.StashCreate | internal/diskstash/diskstash.go:47-62 | success leaves exactly the new file, a failed write leaves the directory as it was when the removal succeeds, a panic leaves the partial file |
| DiskStash.Store.StashRemove | internal/diskstash/diskstash.go:79-87 | removal is idempotent: a file already gone is success, and only that file goes |
| DiskStash.Store.StashUrl | internal/diskstash/diskstash.go:92-96 | the URL under the custore scheme resolves to the stash file if and only if the stash directory is absolute |
| StashPaths.RoundTripsIffAbsolute | internal/parkcomplete/parkcomplete.go:232-255 | the resolver returns the very path gcPass builds for the listed name if and only if the stash directory is absolute; it need not be clean |
| StashPaths.AbsoluteDirRoundTrips | internal/localpiecepark/localpiecepark.go:142-163 | for an absolute directory, resolving the custore form of StashURL gives Join(dir, id.tmp), percent-encoding included |
| StashPaths.RelativeDirNeverRoundTrips | internal/stashsweep/stashsweep.go:253-257 | for a relative directory the resolved path never equals the path gcPass compares with |
| StashPaths.ResolveAccepts | internal/parkcomplete/parkcomplete.go:232-255 | exactly which URLs are accepted, in path elements, and which path is answered |
| StashPaths.ResolvedIsInside | internal/parkcomplete/parkcomplete.go:243-254 | every accepted URL resolves to a clean rooted path lexically inside the stash directory |
| StashPaths.RelTest | internal/parkcomplete/parkcomplete.go:249-253 | the textual ".." test on filepath.Rel accepts exactly the targets at or below the base whose next element does not itself start with ".."; a name like "..x" right below the base is rejected although it lies inside |
| StashPaths.UnescapeEscape | internal/diskstash/diskstash.go:92-96 | percent-decoding undoes percent-encoding on every byte string (section 2.1 of RFC 3986) |
| StashPaths.CleanTwice | internal/parkcomplete/parkcomplete.go:249-249 | cleaning a rooted path is idempotent and keeps its elements |
| StashPaths.OneMoreElement | internal/parkcomplete/parkcomplete.go:249-249 | what cleaning makes of one more element of a rooted path: nothing of an empty one or ".", ".." takes the last away, any other is appended |
| StashPaths.PathsAreDistinct | internal/stashsweep/stashsweep.go:253-253 | different names in one directory, absolute or relative, have different joined paths |
| PieceStore.NamesInAreValid | internal/stashsweep/stashsweep.go:253-257 | an absolute directory meets every naming fact the state machine relies on |
| ParkComplete.Task.Do | internal/parkcomplete/parkcomplete.go:96-176 | complete is set for exactly the processed candidates whose URL resolves to an existing file, nothing else changes; only waiting long-term pieces with a custore ref to an existing file are completed, and all of them when a short answer was worked off; the exit matches the first lost ownership or failed update, and the wake-up fires exactly when a finished run completed something |
| ParkComplete.CompletedWere | internal/parkcomplete/parkcomplete.go:105-163 | in columns: who may be completed, and who is when the answer was shorter than a batch |
| ParkComplete.RunCompletesRows | internal/parkcomplete/parkcomplete.go:96-163 | with one ref per piece an owned run completes exactly the ready pieces in its batch and leaves the blocked ones blocked |
| ParkComplete.RunProgress | internal/parkcomplete/parkcomplete.go:97-163 | one run takes at least 32 less the blocked candidates off the ready pieces, or all of them |
| ParkComplete.RunsProgress | internal/parkcomplete/parkcomplete.go:96-176 | the same over any number of consecutive owned runs |
| ParkComplete.AllReadyComplete | internal/parkcomplete/parkcomplete.go:96-176 | with b < 32 blocked candidates, n ready pieces are complete after ceil(n/(32-b)) owned runs |
| ParkComplete.RunAdvancesIff | internal/parkcomplete/parkcomplete.go:96-163 | one run takes something off the ready pieces if and only if some ready piece has fewer than 32 blocked candidates with lower ids |
| ParkComplete.CompletedIff | internal/parkcomplete/parkcomplete.go:96-176 | after as many owned runs as there are ready pieces up to its id, or more, a ready piece is complete if and only if fewer than 32 blocked candidates have lower ids |
| ParkComplete.NeverCompleted | internal/parkcomplete/parkcomplete.go:113-121 | with 32 or more blocked candidates below it, no number of runs completes a ready piece |
| ParkComplete.BlockedHeadStarves | internal/parkcomplete/parkcomplete.go:113-121 | a case of it: 32 blocked candidates with the lowest ids keep every ready piece from completing |
| Settlement.Task.Do | internal/payments/settle.go:130-275 | a cycle mirrors what discovery returned, asks for the current epoch on eligible candidates only, and, without repeated ids, each row shows what became of its candidate, column by column; the transactions recorded are those that landed, under the first rail each was sent for, wherever the cycle stops |
| Settlement.OutcomeTells | internal/payments/settle.go:130-275 | when a cycle reports failure and when it reports done; it reports lost ownership otherwise |
| Settlement.Discover | internal/payments/settle.go:287-320 | terminates within 801 fetches against any replies; the result is the concatenation of the pages fetched, or the error of the last |
| Settlement.HonestDiscovery | internal/payments/settle.go:300-318 | against an honest paged list the result is its first min(total, 1000) rails in order, the whole list exactly when there are at most 1000 |
| Settlement.Task.UpsertRails | internal/payments/settle.go:325-396 | the table mirrors the rails processed, up to the first failing statement: last terminal state listed, known rows keep the rest, new ones have the detail of their first listing and are not settled |
| Settlement.MirrorOne | internal/payments/settle.go:326-394 | one more rail: a first sight inserts its detail, a re-sight changes only terminated and end_epoch, repeats keep the first detail and the last terminal state |
| Settlement.MirrorsTell | internal/payments/settle.go:326-394 | the same column by column, failed detail lookups included |
| Settlement.Pick | internal/payments/settle.go:156-165 | the candidates are the first sixteen non-terminated rails |
| Settlement.PickedIff | internal/payments/settle.go:156-165 | a position is among the picked ones if and only if its rail is not terminated and fewer than sixteen such rails stand before it; the candidates are the rails at these positions |
| Settlement.EligibleIff | internal/payments/settle.go:209-234 | a rail is due if and only if its lockup is at most a day or more than the override or a week, or more than lockup less a day, has accrued |
| Settlement.Task.SettleCandidates | internal/payments/settle.go:187-268 | until ownership is lost, in order: last_settled_epoch and the hash change only for a due rail whose hash came back and whose UPDATE landed, and the error is cleared; a failed view or send changes the error alone; others keep their row; transactions and asks likewise |
| Settlement.MarkedEach | internal/payments/settle.go:193-262 | without repeated ids the columns of every row settled so far, case by case, and no other row changes |
| Settlement.MarkedKeeps | internal/payments/settle.go:250-262 | settling keeps identity and terminal state, and last_settled_epoch is kept or becomes the current epoch |
| Settlement.RecordedTells | internal/payments/settle.go:258-262 | recorded are exactly the hashes that came back and whose insert succeeded, each under the first rail it was sent for; older entries stay |
| Settlement.AsksAreEligible | internal/payments/settle.go:209-241 | what is asked for: the current epoch, exactly for the eligible candidates whose view could be read, at most sixteen per cycle |
| Settlement.AskedIff | internal/payments/settle.go:199-241 | a run of the cycle asks for a rail it reaches if and only if the rail is eligible for what its view shows |
| Settlement.RunsArePolls | internal/payments/settle.go:130-275 | over any sequence of such runs, settledUpTo and the spans asked for are those of the recurrence the bounds are proved about |
| Settlement.PollsAreRuns | internal/payments/settle.go:130-275 | every sequence of polls of the recurrence is one of runs of the cycle |
| Settlement.SettledWithinLockup | internal/payments/settle.go:156-262 | for any sequence of runs of the cycle that reach the rail and are at most 2880 epochs apart, with an initial gap within bound: at every run, so whenever it asks, no more than max(lockupPeriod, gap) has accrued, whatever the interval override |
| Settlement.AskedSpansTile | internal/payments/settle.go:156-262 | what these runs ask for is ordered, disjoint and sums to the progress of settledUpTo |
| Settlement.AskedSpansAreLong | internal/payments/settle.go:199-241 | without override, runs of the cycle ask for a rail with more than a day of lockup only after more than min(seven days, lockup less a day) has accrued |
| Settlement.CapIffRunsKeepUp | internal/payments/settle.go:180-241 | no run of the cycle asks for an epoch past settledUpTo + lockupPeriod, over all sequences of runs and overrides, if and only if runs are no further apart than min(lockup, one day) |
| Settlement.AccruedWithinBound | internal/payments/settle.go:209-234 | the same bound for any poll gap: lockup less a day plus the gap, or the gap |
| Settlement.SpansTile | internal/payments/settle.go:240-262 | settled spans are disjoint, ordered and sum to last minus first settledUpTo |
| Decimal18.PrintThenParse | cmd/curio-core/cmd_wallet.go:443-487 | parseDecimalTo18Decimals(decimal18(n)) == n for every integer n |
| Decimal18.PrintThenParseAt | internal/dashboard/dashboard.go:458-477 | the same round trip at any number of decimal places, and the text needs no trimming |
| Decimal18.PrintIsInjective | internal/dashboard/dashboard.go:458-477 | decimal18 prints different amounts differently |
| Decimal18.ParseThenPrint | internal/dashboard/dashboard.go:458-477 | decimal18 of the parsed value gives back every plain decimal in lowest form |
| Decimal18.ParseDecimal18ReadsPlain | cmd/curio-core/cmd_wallet.go:443-487 | a plain decimal of any length is read as its exact amount, or rejected when it has more than 18 fraction digits |
| Decimal18.ParseUsdfcReadsPlain | cmd/curio-core/cmd_demo_payments.go:291-318 | parseUSDFC reads every plain decimal as the same amount |
| Decimal18.ParsersAgree | cmd/curio-core/cmd_wallet.go:443-487 | on every text without unit suffix the two parsers answer differently if and only if the trimmed text is a lone sign or has, with at most 18 fraction digits, a stray sign behind zeros in what stands around the point; an unsigned text that starts with the point and a sign is the one exception |
| Decimal18.OnlyUsdfcTakesSuffix | cmd/curio-core/cmd_demo_payments.go:291-318 | every text with the unit suffix is rejected by parseDecimalTo18Decimals |
| Decimal18.UsdfcAcceptsLess | cmd/curio-core/cmd_wallet.go:443-487 | whatever parseUSDFC accepts without suffix, parseDecimalTo18Decimals accepts with the same value |
| Decimal18.StraySignsDivideTheParsers | cmd/curio-core/cmd_wallet.go:443-487 | three texts of that kind, with what each parser answers |
| Decimal18.PrintersAgree | cmd/curio-core/cmd_wallet_getusdfc.go:181-198 | formatToken of the digits of v at 18 decimals equals formatBigWei(v) for every v >= 0 |
| Decimal18.PrintersAgreeAt | cmd/curio-core/cmd_doctor.go:397-423 | the same agreement at any number of places from four up |
| Decimal18.PrintersTruncate | cmd/curio-core/cmd_doctor.go:397-423 | parsing the printed text back gives v rounded down to a multiple of 10^14 |
| Decimal18.WeiTruncates | cmd/curio-core/cmd_doctor.go:397-423 | the same truncation at any number of places from four up |
| Decimal18.PrintersOnDebts | cmd/curio-core/cmd_doctor.go:397-423 | on negative amounts the two printers agree only at -5000 * 10^14: formatBigWei drops the sign |
| HeadChanges.OutputsAndHeld | internal/nodeapi/chainsched_adapter.go:174-205 | emitted batches followed by the held reverts are the pushed batches, in order; only reverts are held |
| HeadChanges.AllDelivered | internal/nodeapi/chainsched_adapter.go:207-216 | with the final flush nothing is lost, repeated or reordered |
| HeadChanges.NoBareReverts | internal/nodeapi/chainsched_adapter.go:193-205 | every emitted batch has a non-revert event if and only if no pushed batch was empty |
| HeadChanges.EmptyBatchReleasesReverts | internal/nodeapi/chainsched_adapter.go:193-205 | an empty batch behind a held revert emits reverts alone |
| HeadChanges.SameHead | internal/nodeapi/chainsched_adapter.go:174-216 | any consumer that folds events ends in the same state on the output as on the input, at every push and at the close |
| HeadChanges.Append | internal/nodeapi/chainsched_adapter.go:193-202 | Go's append on slices: new content at the end, what either slice held before never overwritten, whichever array is used |
| HeadChanges.RevertCoalescer.Push | internal/nodeapi/chainsched_adapter.go:193-205 | one step of the transducer; what is emitted shares no array with what is still pending |
| HeadChanges.RevertCoalescer.Flush | internal/nodeapi/chainsched_adapter.go:209-216 | the held reverts, once |
| HeadChanges.BatchIsRevertOnly | internal/nodeapi/chainsched_adapter.go:178-188 | true exactly for non-empty batches of reverts |
| HeadChanges.Convert | internal/nodeapi/chainsched_adapter.go:118-150 | the slice holds the images of exactly the events that pass, in order, each with its kind and its tipset, or the head for a current without one; no current is without a tipset |
| HeadChanges.ConvertIs | internal/nodeapi/chainsched_adapter.go:118-150 | which events pass, where each change comes from, and what its value is |
| HeadChanges.ImageIsSeeded | internal/nodeapi/chainsched_adapter.go:130-146 | no current without a tipset is passed on |
| HeadChanges.ChainNotify | internal/nodeapi/chainsched_adapter.go:85-169 | the emitted slices at the end still hold what they held when sent; together they are the images of all events that pass, reverts coalesced, or a prefix up to the emit at which the consumer was gone; none holds a current without a tipset |
| HeadChanges.BridgeDelivers | internal/nodeapi/chainsched_adapter.go:151-166 | with the loop's guard, the images of all events that pass arrive in order, no current without a tipset, and no batch before the close is all reverts |
| Migrations.ListMigrationFiles | internal/harmonysqlite/migrations.go:18-36 | exactly the names of plain entries that end in .sql, in strictly ascending order |
| Ordering.AscendingIsUnique | internal/harmonysqlite/migrations.go:34-34 | the order of application depends on the set of names only |
| Ordering.LessIff | internal/harmonysqlite/migrations.go:34-34 | the order on strings: less means a smaller byte at the first difference, or a proper prefix |
| Migrations.Db.ApplyMigrations | internal/harmonysqlite/migrations.go:48-95 | one run, with an error or crash at any statement, has the effect of the specification Run |
| Migrations.Db.Exec | internal/harmonysqlite/migrations.go:84-86 | a script cut short leaves the statements executed before |
| Migrations.ExecuteSteps | internal/harmonysqlite/migrations.go:84-86 | a script takes one step per statement, in order, up to the first that fails; it is done when none did |
| Migrations.RunsKeep | internal/harmonysqlite/migrations.go:48-95 | for any scripts and after any sequence of failed or crashed runs that read all recorded names, the recorded files are a prefix of the list and the executions are orderly; a run that reports success has recorded all |
| Migrations.RunsStayOnTrack | internal/harmonysqlite/migrations.go:76-95 | for scripts that can be started over from wherever they were cut, the schema after such runs still leads to the clean one |
| Migrations.OrderlySteps | internal/harmonysqlite/migrations.go:76-93 | orderly: executions start at the first file, move on exactly behind a record that landed, repeat only the file whose record did not, and at once |
| Migrations.OrderlyIffReadsEnough | internal/harmonysqlite/migrations.go:63-93 | one run, any scripts: its executions stay orderly if and only if no recorded file is missing from what it read, or it failed before its loop |
| Migrations.RunsOrderlyIff | internal/harmonysqlite/migrations.go:48-95 | the same over any sequence of runs: orderly if and only if every run that reached its loop read all recorded names |
| Migrations.SuccessIsClean | internal/harmonysqlite/migrations.go:76-95 | for scripts that can be started over: once a run succeeds, table and schema equal those of one clean run, and any further run changes nothing |
| Migrations.TruncatedReadRepeats | internal/harmonysqlite/migrations.go:63-74 | rows.Err() is not checked: a truncated read executes the first unread recorded file again and fails, and the log is no longer orderly |
| Migrations.FaultlessRecordsIff | internal/harmonysqlite/migrations.go:76-93 | a faultless run records the next file if and only if its script runs to the end on the schema found; otherwise the run fails and nothing is recorded |
| Migrations.LostRecordBlocks | internal/harmonysqlite/migrations.go:84-91 | after a script ran and its record was lost, a faultless run records the file if and only if the script runs to the end a second time on what it left |
| Migrations.FaultlessRunsBlockedIff | internal/harmonysqlite/migrations.go:76-95 | any number of faultless runs leave the file unrecorded if and only if none of the executions on the schemas left by the ones before gets to the end |
| Migrations.TrappedForGood | internal/harmonysqlite/migrations.go:76-95 | when a script fails from every schema of a kind and never leaves that kind, no sequence of runs, whatever its faults, records the file or reports success |
| Migrations.AlteringScriptTraps | internal/harmonysqlite/migrations.go:84-86 | a script that adds or drops a column and does not take it back meets the trap hypothesis, the trap being the schemas on which that statement fails |
| Migrations.AlterBlocksForGood | internal/harmonysqlite/migrations.go:76-95 | once such a statement was executed and its file not recorded, whether a later statement, the record or the process failed, no sequence of runs records the file or reports success |
| Migrations.RunsTwiceIff | internal/harmonysqlite/migrations.go:84-91 | a script that takes back none of its column changes runs a second time on what it left if and only if it has none |
| Keepalive.OwnersStayLive | internal/engine/engine.go:245-261 | every interleaving keeps it so that each owner_id names a live row, no host has two rows, and no two nodes share an id |
| Keepalive.OwnersLiveFromEmpty | internal/engine/engine.go:245-261 | so it is after any run from an empty database |
| Keepalive.TimelyNodeIsNeverReaped | internal/engine/engine.go:397-432 | while a node's successful statements are less than ten minutes apart its row is never reaped, in any run |
| Keepalive.StepKeepsRow | internal/engine/engine.go:397-432 | the same for one step of any kind |
| Keepalive.ClaimStays | internal/engine/engine.go:245-261 | over any run a timely node keeps every task it claimed until it is released or the node stops |
| Keepalive.ClaimTakes | internal/engine/engine.go:245-261 | a claim makes the live row of the node the owner of the task and changes nothing else |
| Keepalive.SilentNodeMayBeReaped | internal/engine/engine.go:245-259 | after ten silent minutes the reaper may take the row, tasks lose their owner and new claims fail |
| Keepalive.NextTickHeals | internal/engine/engine.go:409-427 | the next tick that gets through restores the row under the same id, the only one of its host |
| Keepalive.HealsDespiteOthers | internal/engine/engine.go:411-425 | the same when any number of steps of other nodes, of the reaper and of tasks fall between the two statements of that tick |
| Keepalive.Engine.RecordMachineRow | internal/engine/engine.go:352-386 | success yields the id of the host's one row, just touched; failure leaves the node not up; other rows keep id and host |
| Keepalive.Engine.Tick | internal/engine/engine.go:407-429 | one tick equals the two steps of the machine |
| Keepalive.TickOutcome | internal/engine/engine.go:407-429 | what a tick leaves, by which statements succeed |
| Alerts.FingerprintIsStable | internal/alerts/alerts.go:93-112 | the hashed text does not depend on the order in which the map yields its keys |
| Alerts.PreimageIsInjective | internal/alerts/alerts.go:93-112 | two hashed texts are equal if and only if the sources are and the parameters print alike, key by key, given no NUL in names and printed values and no '=' in keys |
| Alerts.NumbersCollideWithTexts | internal/alerts/alerts.go:107-109 | a number and the text it prints as are different parameters with one hashed text |
| Alerts.EqualsSignsCollide | internal/alerts/alerts.go:107-109 | an '=' in a key makes two different parameter sets collide |
| Alerts.Store.Emit | internal/alerts/alerts.go:141-204 | bad arguments and failed statements change nothing; otherwise the upsert is applied and the id returned is the row of the fingerprint |
| Alerts.Store.Ack | internal/alerts/alerts.go:236-246 | exactly the named row leaves the unacknowledged set, stamped with the time, all other rows unchanged; the count says whether it was in it |
| Alerts.Store.AckAll | internal/alerts/alerts.go:250-260 | nothing stays unacknowledged, rows acknowledged before keep their stamp; the count is how many were |
| Alerts.Store.CountsOf | internal/alerts/alerts.go:271-297 | totals are exact, each severity count is its number of unacknowledged rows, and the severity counts sum to Unacked |
| Alerts.StoredCount | internal/alerts/alerts.go:165-188 | from any table and after any interleaving of emits and acknowledgements a fingerprint has a row exactly when it had one or was emitted, and its count grew by the number of emissions |
| Alerts.StoredTexts | internal/alerts/alerts.go:171-188 | severity, source, message and first_seen stay those of the row there was, or of the first emission |
| Alerts.StoredLatest | internal/alerts/alerts.go:165-188 | last_seen and context are those of the last emission |
| Alerts.StoredAck | internal/alerts/alerts.go:165-260 | a row is acknowledged exactly when no emission followed the last acknowledgement, counting the row there was |
| Alerts.OpsKeepInv | internal/alerts/alerts.go:165-260 | acked is 1 exactly when acked_at is set, and ids stay unique, after any interleaving |
| AlertPoller.NoRowTwice | internal/alerts/poller.go:209-299 | the cursor never moves back and emitted ids strictly ascend between the starting and the current cursor |
| AlertPoller.AllEmittedIff | internal/alerts/poller.go:209-299 | the emitted rows are all failures past the starting cursor if and only if every tick found at most 100 and none was inserted between its two queries |
| AlertPoller.PassedOverIsLost | internal/alerts/poller.go:229-299 | a failure that a tick passes over is emitted by no later tick |
| AlertPoller.OpSays | internal/alerts/poller.go:236-289 | what a row is emitted with: critical from five failures of the task on, error from three, else warning, as when they could not be counted; source, message and fingerprint |
| AlertPoller.TicksEmit | internal/alerts/poller.go:229-294 | the operations of successive successful ticks, as Poller.Tick applies them, emit exactly the batch rows in order, each with the severity of its place in the history |
| AlertPoller.StoredCountIsFailures | internal/alerts/poller.go:266-289 | whatever the table held and whoever else writes to it under other fingerprints, a task's stored count grows by the rows emitted for it, and by all its failures past the starting cursor when nothing is lost |
| AlertPoller.NeverPromoted | internal/alerts/poller.go:236-257 | the stored severity is what the row had, or else goes by the number of failures before the first emitted one, whatever comes later; it is not "warning" if and only if the task had failed twice before that, although the comment promises promotion |
| AlertPoller.TaskTextIsInjective | internal/alerts/poller.go:272-276 | tasks that differ in name or id have different fingerprint texts |
| AlertPoller.Poller.InitCursor | internal/alerts/poller.go:186-198 | the cursor starts behind every row already there |
| AlertPoller.Poller.Tick | internal/alerts/poller.go:209-299 | a tick whose queries succeed applies the emissions of its batch in order and moves the cursor to MAX(id); a failed query changes nothing |
| DataPath.FoundIsLabel | internal/datapath/datapath.go:121-147 | whatever the walk returns is a label directory 1 to maxDepth levels down, reached without links and with no label directory above it |
| DataPath.LabelIsFound | internal/datapath/datapath.go:121-147 | every such directory is returned |
| DataPath.FoundIff | internal/datapath/datapath.go:92-106 | for rooted mounts the absolute paths found are exactly those of such directories |
| DataPath.FindLabelDirs | internal/datapath/datapath.go:121-147 | the recursive loop returns the list of the specification |
| DataPath.DiscoverLabelled | internal/datapath/datapath.go:82-116 | the result is the one found path: none found has more free space, none with as much is shorter, none as long comes before it in byte order; empty when none was found |
| DataPath.BestIsRoomiest | internal/datapath/datapath.go:107-115 | what being better than all others means in free space, length and bytes |
| DataPath.BetterIsStrict | internal/datapath/datapath.go:107-115 | the comparison is a strict total order on paths |
| DataPath.ChoiceIsUnique | internal/datapath/datapath.go:82-116 | the choice does not depend on the order of mounts, on repeats or on overlaps |
| RollupCache.RunKeeps | internal/dashboard/pdp_rollup.go:60-87 | for any number of callers at most one computation is in flight and every event of the log is allowed by what went before |
| RollupCache.StartsApart | internal/dashboard/pdp_rollup.go:60-87 | computations do not overlap and each starts at least the TTL after the one before it finished |
| RollupCache.RepliesAreHonest | internal/dashboard/pdp_rollup.go:61-75 | a reply without computing shows the last finished value, marked fresh exactly when that is less than the TTL old; a stale one is given during a recompute only |
| RollupCache.RollupCache.Begin | internal/dashboard/pdp_rollup.go:61-77 | a caller is sent to compute exactly when nothing fresh is there and nobody computes, and then blocks others; any other gets the stored value, marked fresh exactly when it is, and changes nothing |
| RollupCache.RollupCache.Finish | internal/dashboard/pdp_rollup.go:81-87 | the caller's own value is stored and returned, fresh for exactly the TTL from now, and computing is free again |
| LayerStore.Store.AddPDPLayer | internal/sqliteindex/sqliteindex.go:79-100 | all of the layer is upserted or the table is unchanged, success exactly when every statement and the commit succeed, other pieces untouched |
| LayerStore.Store.End | internal/harmonysqlite/api.go:172-199 | commit and rollback: the table becomes the transaction's exactly when the callback committed and COMMIT succeeded |
| LayerStore.LastWriteWins | internal/sqliteindex/sqliteindex.go:86-97 | on repeated keys the last digest of the layer is stored |
| LayerStore.OtherKeysKept | internal/sqliteindex/sqliteindex.go:86-97 | keys the layer does not name keep their digests |
| LayerStore.Store.GetPDPLayer | internal/sqliteindex/sqliteindex.go:127-163 | strictly ascending indices, complete, and equal to node-by-node reads; an error exactly when a row cannot be read or is not 32 bytes |
| LayerStore.Store.GetPDPLayerIndex | internal/sqliteindex/sqliteindex.go:107-120 | has is true exactly when the piece has a row, and the index is one of its layers |
| LayerStore.Store.RemoveIndexes | internal/sqliteindex/sqliteindex.go:194-202 | no row of the piece is left and every other piece is unchanged |
| LayerStore.AddedLayerReadsBack | internal/sqliteindex/sqliteindex.go:79-163 | a layer written in order to a piece without that layer reads back as it was |
| LayerStore.PutsDigests | internal/sqliteindex/sqliteindex.go:86-97 | AddPDPLayer only ever stores 32-byte blobs, so the length check of the readers never fires on them |
| Versions.IsTotalPreorder | cmd/curio-core/cmd_upgrade.go:253-315 | on all strings the comparison is reflexive, antisymmetric in sign and transitive, strictly so when a step is strict |
| Versions.EqualIsCongruent | cmd/curio-core/cmd_upgrade.go:253-315 | versions that compare equal compare alike with every other |
| Versions.EqualIff | cmd/curio-core/cmd_upgrade.go:253-272 | equal means the same numbers up to trailing zeros and the same suffix |
| Versions.LeadingV | cmd/curio-core/cmd_upgrade.go:274-276 | a leading v makes no difference unless another v or a space follows |
| Versions.TrailingZeros | cmd/curio-core/cmd_upgrade.go:294-315 | trailing zero fields make no difference, whatever the suffix |
| Versions.SuffixedIsLower | cmd/curio-core/cmd_upgrade.go:259-271 | a tag with a non-empty suffix is below its core; a bare sign makes no difference |
| Versions.SmallerSuffixIsLower | cmd/curio-core/cmd_upgrade.go:259-271 | of two suffixes behind one core the one with the smaller text is lower |
| Versions.ReadsDotted | cmd/curio-core/cmd_upgrade.go:274-292 | numbers printed with points between them are read back one by one, whatever the suffix |
| Versions.ReleasesInOrder | cmd/curio-core/cmd_upgrade.go:294-315 | so releases are ordered by the first number in which they differ |
| Text.TrimSpaceCuts | cmd/curio-core/cmd_upgrade.go:274-275 | what trimming cuts off are blanks, and neither end of the rest is one |
| Versions.LowerFieldDecides | cmd/curio-core/cmd_upgrade.go:294-315 | the first differing field decides before any suffix |
| Versions.NamesCompareEqual | cmd/curio-core/cmd_upgrade.go:281-291 | tags with no field that is a number compare by their suffixes alone, and are equal without one, although the comment promises a comparison as strings |
| Versions.NightlyEqualsBeta | cmd/curio-core/cmd_upgrade.go:247-252 | a concrete pair of different names that compare equal |
| Versions.SplitVersion | cmd/curio-core/cmd_upgrade.go:274-292 | the loop yields the numbers and the suffix of the specification |
| Versions.CompareNumericFields | cmd/curio-core/cmd_upgrade.go:294-315 | the loop compares field by field, missing fields as zero |
| Versions.CompareTags | cmd/curio-core/cmd_upgrade.go:253-272 | the program computes the comparison the lemmas are about |

## Left out

- HTTP handlers, pages, TLS, the terminal runner, scripts and packaging: input, output and user interface.
- Lantern, upstream tasks, ABI and EIP-712 encoding, signing and CBOR: code not in the repository; where a property needs one, it is a parameter.
- `%018s` in decimal18 is read as the zero padding it is meant to be.
- Host validation inside `url.Parse` is an arbitrary predicate, and a URL without a scheme is a parse error; the resolver rejects both anyway.
- The reader's copy of stashPathFromCustoreURL is the same text as ParkComplete's, so one function stands for both.
- File system errors other than a missing file, on stat and on listing, and links inside the stash directory.
- ReadPiece on a piece without refs: the SELECT yields NULL and Scan fails, which is the NoRow error here; a NULL data_url in a ref is not modelled.
- StashLifecycle.StepKeeps: the missing flag is written by the sweep only, new uploads draw unused names, an upload is discarded only while no ref names it, and nothing outside the modelled processes deletes files.
- StashReads.CompleteIsServed: a piece deleted between lookup and open may lose its file; refs with different URLs are covered by ReadIsServed.
- DiskStash.Store.StashRemove: also stands for the removal at the end of ServeAndRemove; reading the served file is not modelled.
- Settlement.Task.Do: rail ids and epochs are unbounded, where the table holds 64 bits; timestamps are not modelled. That every ask lands before the next run is a hypothesis of the lemmas about many cycles; what settleRail pays out is not modelled.
- HeadChanges.ChainNotify: the channel's buffer is not modelled; the consumer is there or gone at each emit. What re-encoding a tipset yields is a parameter.
- Migrations.Db.ApplyMigrations: statements are atomic and a script is cut between them; reading an embedded file does not fail. What a statement does to the schema is a parameter; that the scripts named above add or drop columns was read off their text.
- Keepalive.OwnersStayLive: one running engine per host. The reaper is upstream code: as the comment in Start has it, it may delete rows whose last contact is ten minutes old or older. The cpu, ram and gpu columns and the other tables that reference machines are not modelled.
- Alerts.Store.Emit: context is kept as a map, its JSON form is not modelled; parameter values are numbers or texts, the kinds that occur.
- Alerts.Store.CountsOf: its three queries see one table; writes between them are not modelled.
- AlertPoller.StoredCountIsFailures: history rows are only appended, queries and statements of the ticks considered succeed, and the hash does not collide on the texts concerned; all other operations on the table may interleave.
- tickEthReverts: rows confirmed after its cursor has passed are not seen, so there is no every-revert property to state.
- DataPath.DiscoverLabelled: free space is read as one fixed value per path; the sort and the choice of its head are one search for the best.
- computeFinRollup's sums, currency display and price fetching: easy or cosmetic.
- LayerStore.Store.AddPDPLayer: concurrent transactions are serialised by SQLite and not modelled; FindPieceInAggregate queries an empty table.
- Settlement fairness beyond the first sixteen rails is not guaranteed by the code.
