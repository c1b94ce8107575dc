# Verified models of the benchmark and worker cores

This project models, in Dafny 4.11, six cores of the repository and proves what their
documentation, tests and comments promise of them:

1. the inverted index and the bounded ranker of the docstring simulation
   (`TermIndex`, `Ranker`);
2. the sweep arithmetic of the daemon-cost benchmark: count parsing, the least-squares line,
   truncated marginals and the crossover (`Sweep`);
3. the three database loaders and their transactions (`Transactions`, `Tables`, `Batching`,
   `BatchLoader`, `BulkLoader`);
4. two concurrent protocols: the kill-and-recover harness with its worker (`KillProtocol`) and
   the workload driver whose goroutines merge under a mutex (`Workload`, `Drive`);
5. the Python worker's language-server layer: positions, framing, request correlation, symbol
   publication, the walk over a syntax tree and exact-edge emission (`LspPosition`, `LspFraming`,
   `LspClient`, `Symbols`, `SyntaxTrees`, `ExactEdges`);
6. normalisers and order statistics: declaration names, repository addresses, scoring and
   medians (`Declarations`, `Addresses`, `Scoring`, `Medians`, `BuildSummary`).

`Arithmetic`, `Ordering`, `Text` and `Wrappers` hold what several of them share: a few facts about
products and quotients, one stable sort standing for the libraries' sorts, string trimming and
search, and two result shapes.

Code that changes state keeps its form: `Connection`, `TransactionController`, `BatchExecutor`,
`Candidate`, `Writer`, `Index` and `Client` are classes, slices are headers over arrays that are
appended to and reused in place, and loops are loops. Each method is tied to a function of its
input or old state, and the promises are lemmas about that function. The two protocols are state
machines: a run is any sequence of enabled events, every step may fail where the code's can, and
the theorems are about every run.

What the language, the engine and the analyser supply is a parameter: the tokeniser and the
score formula, which statement fails, when a context is cancelled, what a call returns and how
long it took, the server's messages, JSON in both directions, and, in the kill protocol, how a
marker's text is trimmed (any trimming that adds nothing).

Preconditions are what the callers establish: a batch size of at least one
(`benchmarks/ladybug-batch/main.go:188`), a database connection with no transaction open, and an
index that the builder published soundly.

## Where the code falls short of a promise

The model follows the code. These promises hold only under a condition, and the lemma named
proves the exact one.

- A run's end is stored as `uint32(end)`: every lookup answers rightly exactly while the index has
  fewer than 2^32 postings; from there on the key of the first run that ends past 2^32 makes a
  lookup panic or fall short (`TermIndex.Build`).
- The ranker's file key joins repository and path with a NUL: two repositories can share a key
  exactly when one name continues the other past a NUL (`Ranker.SeparableRepositories`).
- "Below the crossover the daemon costs more" holds exactly when the process arm's slope is the
  larger one (`Sweep.DaemonCostsMoreBelow`); `Sweep.DaemonCheaperBelow` is a pair of arms for which
  it fails.
- A nil error from `startAndKill` proves that the worker passed its marker exactly when the
  marker path did not hold the marker before (`KillProtocol.MarkerTrustedExactly`); COPY waits for
  the harness exactly when there was no gate file before (`KillProtocol.GateTrustedExactly`). The
  benchmark creates a fresh directory for every case, so both hold in it.
- The harness makes at most ten moves and two for each poll (`KillProtocol.MovesBounded`) and can
  always make another, unless it has returned or waits for a running process that it failed to
  kill (`KillProtocol.OnlyFailedKillsHang`), which can happen (`KillProtocol.HangRun`).
- A request takes the server's answer exactly when no earlier message on the stream carries its
  id; a request of the server's own under that id would be taken for it
  (`LspClient.AnswerTaken`).
- Qualifying labels with a scope of several segments leaves the declared names alone exactly when
  no label stands directly under a scope that the labels have of their own, with a name that nests
  nothing. With a scope of one segment, as `util` for `src/util.rs`, it does so exactly when that
  segment is all that the labels declare: otherwise every declaration is lost and the file's own
  module is reported in their place (`Declarations.QualificationExactly`, with
  `Declarations.SegmentMisread` for an input). The single label of a one-declaration file is taken
  for the file's scope and lost (`Declarations.LoneLabelIsItsScope`).
- Two spellings of paths inside registered directories share an address exactly when `canonical`'s
  trimming leaves the same path of both, up to a directory's trailing separator, if and only if no
  two directories have base names that are equal or of which one continues the other past a colon
  (`Addresses.AddressesDistinguish`, and for two directories `Addresses.SeparableDirectories`).
  Discovery registers clones of one name, and then it does not hold (`Addresses.ClonesShare`).
- The trimming itself merges different paths: those that differ in white space at the end
  (`Addresses.SpaceCollapses`), and a path with the file of the same path below a directory
  `workspace-copy`, as `core/x` and `core/workspace-copy/core/x` (`Addresses.CopyCollapses`,
  `Addresses.CopiesCollide`). It leaves a path alone exactly when the path is plain, that is,
  without white space at its ends, `./` or the corpus root in front, or `/workspace-copy/`
  (`Addresses.PlainExactly`). Plain paths with clear names are told apart, and where the directories
  are plain only with clear names (`Addresses.PlainDistinguish`).
- Some path outside every directory shares a file's address exactly when some repository's base
  name is no registered directory or starts with a colon (`Addresses.StraysExactly`); one directory
  `services/api` is enough (`Addresses.StrayExists`).
- The worker emits rows for a repository exactly when no file that parses has a plain `import`
  statement: the loop reads `module` of every import, which only `from` imports have, and the
  exception ends the worker before it has printed anything (`ExactEdges.EmitFiles`, for one file
  `ExactEdges.EmitFile`).
- Some answer reaches full recall exactly when the truth of the question holds no empty string,
  which is never counted as claimed (`Scoring.EmptyTruthUnreachable`).

## Model

| member | source | states |
|---|---|---|
| TermIndex.SortedKeys | benchmarks/docstring-simulation/main.go:113-122 | sorting and compacting lists every key once, strictly ascending, and no other |
| TermIndex.ContainsKeyExact | benchmarks/docstring-simulation/main.go:156-160 | the test at the least position not below the key is membership in a sorted, compacted list |
| TermIndex.SymbolTerms | benchmarks/docstring-simulation/main.go:99-121 | the structural terms are those of name, qualified name, kind and path; all terms add the docstring's |
| TermIndex.SymbolPostings | benchmarks/docstring-simulation/main.go:118-127 | one posting for each distinct term, structural exactly when a source other than prose yields it |
| TermIndex.Gather | benchmarks/docstring-simulation/main.go:94-128 | the postings of all present symbols, one for each symbol and term |
| TermIndex.Compress | benchmarks/docstring-simulation/main.go:138-152 | the run cursor cuts sorted postings into maximal runs of one key, covering all, with ends reduced modulo 2^32 |
| TermIndex.Columns | benchmarks/docstring-simulation/main.go:133-142 | values and flags are aligned with the sorted postings |
| TermIndex.Build | benchmarks/docstring-simulation/main.go:81-154 | the posting count is the number of (symbol, term) pairs; every lookup is free of panics and answers ascending, without repetition, exactly the symbols that yield the key, each flag true exactly when a non-prose source does, if and only if that count is below 2^32 |
| TermIndex.WrappedKey | benchmarks/docstring-simulation/main.go:70-77 | from 2^32 postings on, the key of the first run that ends past 2^32 is looked up in vain |
| TermIndex.AnswerUnique | benchmarks/docstring-simulation/main.go:70-77 | a lookup has only one right answer |
| TermIndex.DocumentingConservative | benchmarks/docstring-simulation/main.go:110-127 | filtering the documented index's answer by the structural flag gives the undocumented index's answer, whose flags are all true |
| Ranker.Candidate.Record | benchmarks/docstring-simulation/main.go:379-387 | one posting's effect on a candidate in place, its neighbour count untouched |
| Ranker.EvidenceCovers | benchmarks/docstring-simulation/main.go:361-389 | a candidate's hits, prose, frequencies and lengths cover every used word whose list holds it, in order, and its mask is exactly its first-32-word membership |
| Ranker.CapDropsWholeSymbols | benchmarks/docstring-simulation/main.go:371-378 | at most 4000 candidates; below the cap every reached symbol is one; a symbol outside is outside altogether |
| Ranker.CreditWord | benchmarks/docstring-simulation/main.go:370-388 | a whole posting list credited in place, candidate objects kept and new ones fresh |
| Ranker.WordCredited | benchmarks/docstring-simulation/main.go:363-389 | crediting one more word's list turns the admitted symbols' full evidence over some words into that over one more: the cap never splits a symbol's evidence |
| Ranker.Accumulate | benchmarks/docstring-simulation/main.go:361-389 | the candidates are the admitted symbols, each with all its evidence, however the cap falls |
| Ranker.NeighbourWords | benchmarks/docstring-simulation/main.go:390-401 | the neighbour count is the number of first-32 words that reach a candidate among the first 64 edges and not the symbol itself |
| Ranker.CountNeighbours | benchmarks/docstring-simulation/main.go:390-401 | every candidate's count is set, whatever order the map gives them |
| Ranker.CollectRows | benchmarks/docstring-simulation/main.go:408-444 | exactly one row for each candidate the snapshot can describe |
| Ranker.RankingUnique | benchmarks/docstring-simulation/main.go:445-450 | score descending then id ascending leaves one order, so map order cannot show |
| Ranker.TakeFiles | benchmarks/docstring-simulation/main.go:451-463 | the files at the first positions of their keys, in row order, at most `limit` of them when it is positive and all of them when it is zero |
| Ranker.Rank | benchmarks/docstring-simulation/main.go:341-463 | the answer is the first distinct files of the unique ranking of the admitted candidates |
| Ranker.RankDeterministic | benchmarks/docstring-simulation/main.go:341-463 | two answers to one question are equal |
| Ranker.BuiltIndexIsSound | benchmarks/docstring-simulation/main.go:81-154 | what the builder publishes can be ranked, and without docstrings it is all structural |
| Ranker.WeightIrrelevantWithoutProse | benchmarks/docstring-simulation/main.go:425-434 | over an index without prose the answer is the same for every prose weight |
| Ranker.ShareBetween | benchmarks/docstring-simulation/main.go:425-434 | the multiplier lies between the prose weight and one, and is one exactly without prose or at weight one |
| Ranker.KeyCollision | benchmarks/docstring-simulation/main.go:454 | two files share a key exactly when equal or when the NUL is ambiguous |
| Ranker.SeparableRepositories | benchmarks/docstring-simulation/main.go:454 | two repositories never mix files exactly when neither name continues the other past a NUL |
| Sweep.SplitJoin | benchmarks/daemon-cost/main.go:134 | splitting loses nothing and leaves no separator in a field |
| Sweep.ParseClientCounts | benchmarks/daemon-cost/main.go:132-156 | strictly increasing counts of at least one, exactly those the non-blank fields name; refused on the first bad field or when none is left |
| Sweep.DenominatorSign | benchmarks/daemon-cost/results.go:264-267 | the denominator is never negative and zero exactly when all xs are equal |
| Sweep.LeastSquares | benchmarks/daemon-cost/results.go:255-271 | the loop computes the line the optimality lemmas are about |
| Sweep.FitIsOptimal | benchmarks/daemon-cost/results.go:255-271 | no line has a smaller sum of squared residuals, in the fallback case too |
| Sweep.FitIsUnique | benchmarks/daemon-cost/results.go:255-271 | with two different xs no other line is as good |
| Sweep.SlopeAtLeast | benchmarks/daemon-cost/results.go:255-271 | over increasing xs the slope is at least any lower bound of the step slopes, strictly when the bound is |
| Sweep.SlopeAtMost | benchmarks/daemon-cost/results.go:255-271 | and at most any upper bound |
| Sweep.SweepClimbs | benchmarks/daemon-cost/main.go:213-240 | points taken in the order of parsed counts give each arm strictly increasing client counts |
| Sweep.TruncDivBounds | benchmarks/daemon-cost/results.go:229-230 | truncated division misses the exact quotient by less than one, either way |
| Sweep.StepsAlign | benchmarks/daemon-cost/results.go:223-234 | a climbing sweep reports one marginal for each consecutive pair, none divided by zero |
| Sweep.MarginalsAccount | benchmarks/daemon-cost/results.go:226-231 | the marginals add up to the whole change in bytes within one byte less than a client for each step |
| Sweep.SlopeNearMarginals | benchmarks/daemon-cost/results.go:204-253 | the fitted slope lies strictly within one of the range of the reported marginals |
| Sweep.Collect | benchmarks/daemon-cost/results.go:210-235 | the loop with its `previous` pointer collects the measures of one arm and the steps between them |
| Sweep.SlopesOf | benchmarks/daemon-cost/results.go:208-253 | both arms, processes first, each fitted only from two measures on, with ratio and crossover of the two |
| Sweep.CrossoverMeets | benchmarks/daemon-cost/results.go:273-286 | a reported crossover is the one count in (0, 1024] where the lines cost the same; such a count is never missed |
| Sweep.DaemonCostsMoreBelow | benchmarks/daemon-cost/results.go:273-286 | below a crossover the daemon costs more exactly when the process slope is larger |
| Sweep.DaemonCheaperBelow | benchmarks/daemon-cost/results.go:273-286 | two lines that cross at 10 clients with the daemon the cheaper one at 5 |
| Transactions.Connection.Execute | benchmarks/ladybug-individual/main.go:417-429 | a statement joins the open transaction, or is durable by itself |
| Transactions.TransactionController.BeforeRecord | benchmarks/ladybug-individual/main.go:431-440 | a transaction is open afterwards unless the size is zero or BEGIN fails |
| Transactions.TransactionController.AfterRecord | benchmarks/ladybug-individual/main.go:442-451 | the record is counted, and the `size`-th one commits the transaction |
| Transactions.TransactionController.Commit | benchmarks/ladybug-individual/main.go:460-470 | the staged rows become durable and the counters start over, or nothing changes |
| Transactions.TransactionController.Finish | benchmarks/ladybug-individual/main.go:453-458 | an open transaction is committed, and nothing is done without one |
| Transactions.TransactionController.Rollback | benchmarks/ladybug-individual/main.go:472-479 | durable rows and commits stay and the controller is inactive, whether or not the ROLLBACK succeeds |
| Transactions.TransactionController.ExecuteOne | benchmarks/ladybug-individual/main.go:417-429 | whole transactions are durable and the rest staged after every record; a failure at BEGIN, statement or COMMIT leaves a whole number of transactions |
| Transactions.LoadLines | benchmarks/ladybug-individual/main.go:489-522 | a file's records through the controller, stopping at the first undecodable, refused or failing one or at a cancellation |
| Transactions.LoadStreams | benchmarks/ladybug-individual/main.go:186-232 | three node files share one controller, so a transaction may span two of them |
| Transactions.CeilOfParts | benchmarks/ladybug-individual/main.go:442-458 | full transactions and a short last one are as many as the records need |
| Transactions.NoFewerParts | benchmarks/ladybug-individual/main.go:442-458 | no division of the records into parts of at most the transaction size has fewer parts |
| Transactions.RunPhase | benchmarks/ladybug-individual/main.go:186-251 | success makes all N records durable in exactly ceil(N/s) commits, failure leaves an input prefix of whole transactions, size 0 never opens one, and without faults it succeeds |
| Tables.StoredByType | benchmarks/ladybug-batch/main.go:442-453 | writing records that agree type by type with the input stores the input |
| Tables.EdgeLinesWrite | benchmarks/ladybug-individual/main.go:393-415 | the statement and arguments chosen by type write that type's row; unsupported types are refused |
| Tables.StatementRows | benchmarks/ladybug-individual/main.go:393-415 | the statements executed for a table are its type's records in order, and a table of no supported type gets none |
| Tables.LoadNodesIndividually | benchmarks/ladybug-individual/main.go:186-232 | the three node files become their three tables' rows in order, or one of them does not decode; without faults it succeeds whenever they decode |
| Tables.LoadIndividually | benchmarks/ladybug-individual/main.go:235-250 | success means every line had a supported type and every table got its records in input order; failure leaves a prefix of each; without faults exactly those inputs succeed |
| Tables.LoadCorpusIndividually | benchmarks/ladybug-individual/main.go:186-250 | node phase and edge phase store every table in input order, or a prefix of each; without faults they accept exactly the corpora whose lines decode and whose edge types are supported |
| Batching.TakeAllSplits | benchmarks/ladybug-batch/main.go:492-505 | at every point of the stream each type's batches followed by its buffer are its records so far, the batches all full |
| Batching.FlushAllSettles | benchmarks/ladybug-batch/main.go:509-518 | the final flush settles the types it visits and touches no other |
| Batching.AllHandedOver | benchmarks/ladybug-batch/main.go:492-520 | one-type batches of at most the batch size, each type's concatenation its subsequence of the input |
| Batching.FewestBatches | benchmarks/ladybug-batch/main.go:492-520 | as many batches as the sum over types of ceil(n/B) |
| Batching.NoFewerBatches | benchmarks/ladybug-batch/main.go:492-520 | no other division of the records into one-type batches of at most B has fewer |
| Batching.HandedPrefix | benchmarks/ladybug-batch/main.go:492-520 | stopped anywhere, each type's batches are a prefix of its records |
| Ordering.ListingUnique | benchmarks/ladybug-batch/main.go:509-513 | the flush order does not depend on map iteration |
| BatchLoader.BatchExecutor.Execute | benchmarks/ladybug-batch/main.go:352-381 | one transaction for a batch and none for an empty one; a failed batch leaves nothing durable, its failed ROLLBACK included, and is not counted |
| BatchLoader.Append | benchmarks/ladybug-batch/main.go:495 | appending writes into the same array while it has room |
| BatchLoader.AppendTo | benchmarks/ladybug-batch/main.go:495-498 | appending to one type's slice leaves every other type's contents alone |
| BatchLoader.LoadBatch | benchmarks/ladybug-batch/main.go:308-314 | an unsupported type fails before anything is executed; otherwise the batch is stored whole or not at all |
| BatchLoader.HandOver | benchmarks/ladybug-batch/main.go:500-503 | a full slice is handed over and emptied without giving up its array |
| BatchLoader.Visit | benchmarks/ladybug-batch/main.go:494-505 | the heap's slices hold what the batching function says after every record |
| BatchLoader.FlushBuffers | benchmarks/ladybug-batch/main.go:514-518 | the leftovers in order, every type checked even when its buffer is empty |
| BatchLoader.LoadEdgeBatches | benchmarks/ladybug-batch/main.go:492-520 | success stores every table exactly, in the sum over types of ceil(n/B) transactions; failure leaves prefixes; without faults it succeeds exactly on accepted inputs |
| BatchLoader.LoadNodeBatches | benchmarks/ladybug-batch/main.go:470-490 | all n records in ceil(n/B) transactions through one array that never grows, or the records of whole batches |
| BatchLoader.LoadNodeTables | benchmarks/ladybug-batch/main.go:287-300 | the three node files in their order and their ceil(n/B) transactions, or a prefix of each table |
| BatchLoader.LoadCorpus | benchmarks/ladybug-batch/main.go:287-317 | success stores every table, and executed transactions total the sum of ceil(n/B) over node tables and edge types; after a failure every table holds a prefix of its records |
| BulkLoader.ExportEdge | benchmarks/ladybug-bulk/main.go:316-325 | one record goes to its own type's writer in that type's columns, or is refused |
| BulkLoader.ExportEdges | benchmarks/ladybug-bulk/main.go:302-333 | each file holds exactly its type's records in input order; accepted exactly when all types are supported |
| BulkLoader.RegroupedAgrees | benchmarks/ladybug-bulk/main.go:200-206 | copying table by table changes the contents of no table |
| BulkLoader.ExportFile | benchmarks/ladybug-bulk/main.go:287-300 | a node file's rows, unless a line does not decode |
| BulkLoader.CopyEdges | benchmarks/ladybug-bulk/main.go:200-206 | a number of whole edge tables in order, and all of them store the input |
| BulkLoader.LoadCorpusInBulk | benchmarks/ladybug-bulk/main.go:161-206 | no statement reaches the database unless all four files were exported, for a refused corpus and a cancelled run alike; success stores every table and failure a prefix of each |
| BulkLoader.LoadersAgree | benchmarks/ladybug-bulk/main.go:161-206 | from equal databases and without faults the three loaders accept the same corpora and leave every table, of nodes and of edges, the same |
| KillProtocol.BaseSurvives | benchmarks/ladybug-recovery/worker.go:47-131 | in every run the committed rows are the base, and once the process is gone the database is what it was |
| KillProtocol.ReceivedOnce | benchmarks/ladybug-recovery/process.go:43-160 | the started child's exit has been received exactly once whenever either function returns, and never before |
| KillProtocol.NilMeansKilled | benchmarks/ladybug-recovery/process.go:33-107 | a nil error implies death by SIGKILL after the marker was seen and, with a gate, after it was opened |
| KillProtocol.ChildEndsByItself | benchmarks/ladybug-recovery/process.go:109-135 | `runChild` returns nil only for a child it did not kill |
| KillProtocol.MarkerTrustedExactly | benchmarks/ladybug-recovery/process.go:45-63 | nil implies the worker wrote its marker, exactly when the path did not hold the marker before |
| KillProtocol.MarkedIsEarned | benchmarks/ladybug-recovery/worker.go:62-96 | behind a marker stand 32 inserts, one or none, by mode, and while the worker runs the transaction is open with exactly its work staged |
| KillProtocol.GateTrustedExactly | benchmarks/ladybug-recovery/worker.go:115-124 | a COPY has, from its start on, waited for the harness to open the gate, exactly when there was no gate before; a gate is opened only after the marker was seen |
| KillProtocol.OnlyFailedKillsHang | benchmarks/ladybug-recovery/process.go:43-160 | the harness can always go on by itself except while it waits for a running process it failed to kill |
| KillProtocol.HangRun | benchmarks/ladybug-recovery/process.go:97-100 | a run after which it waits so |
| KillProtocol.MovesBounded | benchmarks/ladybug-recovery/process.go:137-160 | in every run the harness makes at most ten moves and two for each poll |
| KillProtocol.SuccessIsPossible | benchmarks/ladybug-recovery/process.go:97-106 | every mode has a run that ends in success with its work uncommitted behind the marker, with a gate and without, and with its COPY made behind a gate |
| KillProtocol.MeasuresKills | benchmarks/ladybug-recovery/main.go:205-260 | such runs exist with the three markers the worker writes, trimmed as Go's `strings.TrimSpace` does |
| Workload.Split | benchmarks/daemon-cost/measure.go:97-105 | request i is at place i div k of batch i mod k, batches hold nothing else, and no session is an error |
| Workload.ShareGrows | benchmarks/daemon-cost/measure.go:102-105 | one more request makes exactly its own batch longer, and lands at its end |
| Workload.EvenBatches | benchmarks/daemon-cost/measure.go:101-105 | batch sizes differ by at most one |
| Drive.AlwaysHolds | benchmarks/daemon-cost/measure.go:107-139 | in every interleaving critical sections exclude each other and the shared variables are what the merged goroutines contributed |
| Drive.DriveAll | benchmarks/daemon-cost/measure.go:97-148 | every finished run asked each request once in its session, kept each latency, counted each failure, holds a first error exactly when a call failed and one that a call returned, and reports an error exactly when more than half failed |
| Drive.EveryRunEnds | benchmarks/daemon-cost/measure.go:114-139 | no run deadlocks or goes on for ever: waiting returns |
| LspPosition.Starts | python-worker/pyright_index.py:26-31 | the loop records the start of every line |
| LspPosition.OffsetAt | python-worker/pyright_index.py:39-48 | the walking loop computes the offset the lemmas are about |
| LspPosition.OffsetIsLeast | python-worker/pyright_index.py:39-48 | the least offset of the line whose UTF-16 column is at least the request, or the line's end; 0 off the text |
| LspPosition.RoundTrip | python-worker/pyright_index.py:34-48 | every offset from 0 to the length survives the trip through its position |
| LspPosition.Monotone | python-worker/pyright_index.py:39-48 | positions and offsets have the same order, strictly between lines |
| LspPosition.ColumnExact | python-worker/pyright_index.py:39-48 | a requested position comes back exactly when some offset of the line has it |
| LspPosition.RoundsUp | python-worker/pyright_index.py:46 | a column inside a surrogate pair is rounded up to behind the pair |
| LspFraming.DecimalParses | python-worker/pyright_index.py:165-179 | the written length is read back as the same number |
| LspFraming.ReadsFrame | python-worker/pyright_index.py:163-180 | whatever follows on the stream, a framed body is read back and nothing more consumed |
| LspFraming.ReadsAll | python-worker/pyright_index.py:163-180 | concatenated frames are read back in order and the stream is left just behind them |
| LspFraming.FramesInjective | python-worker/pyright_index.py:163-166 | a stream of frames can be cut in one way only |
| LspClient.Client.Write | python-worker/pyright_index.py:163-166 | the frame is appended to what was written |
| LspClient.Client.Read | python-worker/pyright_index.py:168-180 | the header loop consumes exactly one message, or fails for the stated reason |
| LspClient.Client.Request | python-worker/pyright_index.py:151-161 | a fresh id, one larger than the last; messages are discarded until one carries it |
| LspClient.FirstWithId | python-worker/pyright_index.py:155-161 | a request returns the first message with its id and leaves what follows |
| LspClient.NoneWithId | python-worker/pyright_index.py:171-173 | without such a message it runs into the closed output |
| LspClient.AnswerTaken | python-worker/pyright_index.py:155-161 | the server's answer is taken exactly when no earlier message carries the id |
| LspClient.Converse | python-worker/pyright_index.py:151-161 | against an honest server every request of a session returns the answer to its own id, the ids consecutive |
| Symbols.Index.Visit | python-worker/pyright_index.py:338-364 | the recursive walk appends what the publication function says, in order |
| Symbols.Index.AddFile | python-worker/pyright_index.py:319-365 | a file's module symbol first, then its declarations |
| Symbols.PublishedExactly | python-worker/pyright_index.py:338-364 | published are exactly the declarations on visible chains of entries, each named by its module and ancestors |
| Symbols.NoLocals | python-worker/pyright_index.py:331-345 | a published variable, constant or type parameter is declared, and every visible chain that declares it is free of callables above it |
| SyntaxTrees.Walk | python-worker/pyright_index.py:426-449 | the queue yields every node once, level by level and from left to right |
| SyntaxTrees.RoleExactly | python-worker/pyright_index.py:244-256 | the chain of questions comes down to the parent's kind and the name's field: a base is never a type position, and asking a function for its parameters' annotations never finds a node whose parent it is |
| ExactEdges.TargetIsInnermost | python-worker/pyright_index.py:371-382 | the id at an offset is that of the narrowest covering declaration, ties by qualified name, and empty exactly when none covers it |
| ExactEdges.DefinitionResolves | python-worker/pyright_index.py:393-411 | a target is the innermost declaration at the first location and no module reached inside its file; none only when nothing is there or such a module is |
| ExactEdges.EmitFile | python-worker/pyright_index.py:384-491 | fails exactly when the tree has a plain import; otherwise the walk of the tree in the order of `ast.walk`, filtered to names and attributes that are read, appends each occurrence's reference or failure in order; the two outputs and the dropped self-references add up to the occurrences of the tree; a file that does not parse gets one row |
| ExactEdges.EmitFiles | python-worker/pyright_index.py:384-501 | there is an output exactly when no file that parses has a plain import; it is the files' rows in order, and over all files no occurrence is lost or counted twice |
| ExactEdges.NoneLost | python-worker/pyright_index.py:442-491 | along any walk of the tree references, failures and dropped self-references add up to the names and attributes that are read in it |
| ExactEdges.KindsExactly | python-worker/pyright_index.py:462-475 | the kind of a reference is settled by the kind of the parent node, the field the name stands in and whether the target is a function |
| ExactEdges.ReferenceSound | python-worker/pyright_index.py:450-491 | a reference joins two different published declarations, its source the innermost one around the occurrence |
| ExactEdges.FailureSound | python-worker/pyright_index.py:451-461 | a failure names its owner, and its reason says whether the server named a place |
| ExactEdges.BuildIndex | python-worker/pyright_index.py:312-365 | the symbols of all files, file by file |
| ExactEdges.BuiltIsIndexed | python-worker/pyright_index.py:312-369 | every file of the built index has its module, and a symbol's kind can be read off its id |
| Declarations.EnclosingScope | benchmarks/graph-tools-comparison/arm_kivgraph.go:340-358 | the nested loops find a label every other label stands under, or there is none |
| Declarations.ScopeUnique | benchmarks/graph-tools-comparison/arm_kivgraph.go:330-339 | there is at most one such label |
| Declarations.ScopeOrderFree | benchmarks/graph-tools-comparison/arm_kivgraph.go:340-358 | order and repetition of labels do not matter to it |
| Declarations.DeclarationNames | benchmarks/graph-tools-comparison/arm_kivgraph.go:309-328 | the loop with its `seen` map computes the names the lemmas are about |
| Declarations.NamesExactly | benchmarks/graph-tools-comparison/arm_kivgraph.go:303-308 | exactly the names some label declares at top level, without repetition |
| Declarations.NamesInOrder | benchmarks/graph-tools-comparison/arm_kivgraph.go:313-326 | in the order of first occurrences |
| Declarations.DeclaredExactly | benchmarks/graph-tools-comparison/arm_kivgraph.go:303-308 | the answer holds a name exactly when it nests nothing and a label is that name, bare or directly under the file's scope |
| Declarations.QualificationInvariant | benchmarks/graph-tools-comparison/arm_kivgraph.go:296-358 | spelling out a scope of several segments changes nothing when the labels had none, and else empties the answer; one of a single segment becomes the whole answer |
| Declarations.QualificationExactly | benchmarks/graph-tools-comparison/arm_kivgraph.go:296-358 | for every scope, label list and position: the answer is kept exactly when no label stands directly under a scope of the labels' own, or, for a single segment, when that is all they declare |
| Declarations.SegmentMisread | benchmarks/graph-tools-comparison/arm_kivgraph.go:303-308 | `util` and `util::now_ms` are reported as `util` |
| Declarations.LoneLabelIsItsScope | benchmarks/graph-tools-comparison/arm_kivgraph.go:340-358 | a single qualified label is taken for the scope |
| Addresses.Discovered | benchmarks/graph-tools-comparison/arms.go:183-217 | the directories met, longest first, each known by its last path element; an error exactly when there is none |
| Addresses.Canonical | benchmarks/graph-tools-comparison/arms.go:221-248 | the stripped path is addressed in the longest registered directory that holds it, else under a repository's name, else under none |
| Addresses.AddressUnique | benchmarks/graph-tools-comparison/arms.go:210-212 | a path has one address, whatever order equally long directories are in |
| Addresses.SpellingsAgree | benchmarks/graph-tools-comparison/arms.go:219-226 | the bare, `./` and rooted spellings mean one path |
| Addresses.CopyAgrees | benchmarks/graph-tools-comparison/arms.go:227-230 | so does the spelling under a private copy's root |
| Addresses.NameAgrees | benchmarks/graph-tools-comparison/arms.go:239-246 | so does the repository-name spelling when no directory captures it |
| Addresses.SharedWithin | benchmarks/graph-tools-comparison/arms.go:221-238 | two spellings that come to lie in one directory share an address exactly when the trimming leaves the same path of both, or the directory with and without its separator |
| Addresses.SeparableDirectories | benchmarks/graph-tools-comparison/arms.go:201-238 | no spelling of a path of one directory shares its address with one of another's, exactly when neither base name equals or continues the other past a colon |
| Addresses.AddressesDistinguish | benchmarks/graph-tools-comparison/arms.go:165-238 | over all spellings that come to lie in registered directories, sharing an address means that the same path is left, up to a trailing separator, exactly when no two base names can be confused |
| Addresses.SpaceCollapses | benchmarks/graph-tools-comparison/arms.go:222 | a space behind any spelling changes nothing |
| Addresses.CopyCollapses | benchmarks/graph-tools-comparison/arms.go:227-230 | every plain path of a directory at the corpus root shares its address with a different path of that directory, below `workspace-copy` |
| Addresses.CopiesCollide | benchmarks/graph-tools-comparison/arms.go:227-230 | a registry with a clear name in which two different files share an address |
| Addresses.PlainExactly | benchmarks/graph-tools-comparison/arms.go:221-230 | the trimming leaves a path alone exactly when nothing of it is to be trimmed |
| Addresses.PlainDistinguish | benchmarks/graph-tools-comparison/arms.go:165-238 | with clear names plain paths in registered directories share an address only when equal, up to a trailing separator; over plain directories exactly then |
| Addresses.ClonesShare | benchmarks/graph-tools-comparison/arms.go:195-202 | two clones of one name, as discovery registers them, share addresses |
| Addresses.StraysExactly | benchmarks/graph-tools-comparison/arms.go:239-247 | a spelling outside every directory shares an address with one inside, exactly when some base name is not itself registered or starts with a colon |
| Addresses.StrayExists | benchmarks/graph-tools-comparison/arms.go:239-246 | a registry with a clear name in which a file of a repository and a path outside all share an address |
| Scoring.ScoreAgainst | benchmarks/graph-tools-comparison/arms.go:107-153 | sorted claimed, missing and spurious sets, and the shares of hits among truth and claims |
| Scoring.SharesExactly | benchmarks/graph-tools-comparison/arms.go:133-151 | both figures are shares; recall is one exactly when nothing is missing, precision exactly when nothing is spurious and something was claimed or nothing was true |
| Scoring.PerfectExactly | benchmarks/graph-tools-comparison/arms.go:133-151 | a perfect score is exactly the right set, the empty one included |
| Scoring.EmptyTruthUnreachable | benchmarks/graph-tools-comparison/arms.go:109-116 | some answer has full recall exactly when the truth holds no empty name, and then the truth itself is a perfect one |
| Medians.Median | benchmarks/build-system-cost/main.go:500-511 | the middle of the sorted copy; an error exactly for no values; the input is unchanged |
| Medians.Minimum | benchmarks/edit-frequency/main.go:1006-1013 | the least value, 0 for none |
| Medians.Maximum | benchmarks/edit-frequency/main.go:1015-1022 | the greatest value, 0 for none |
| Medians.PermutationInvariant | benchmarks/build-system-cost/main.go:500-511 | the order of the values does not matter |
| Medians.MedianMinimises | benchmarks/build-system-cost/main.go:500-511 | the median minimises the sum of distances over all reals; the other minimisers lie exactly between the two middle values |
| Medians.HalfOnEachSide | benchmarks/build-system-cost/main.go:500-511 | at least half of the values are on either side |
| Medians.MedianBetween | benchmarks/edit-frequency/main.go:678-680 | the median lies between any bounds of the values |
| Medians.Summarise | benchmarks/edit-frequency/main.go:660-708 | every figure is of the right passes: the boundary split only of those that reported it, shares and rebuilds only over positive medians; fastest <= median <= slowest |
| BuildSummary.SortArms | benchmarks/build-system-cost/main.go:442-457 | a trial is accepted exactly when it has both arms once and nothing else |
| BuildSummary.SummarizeArm | benchmarks/build-system-cost/main.go:480-498 | the median of every column; an error exactly for an empty arm |
| BuildSummary.Summarize | benchmarks/build-system-cost/main.go:439-478 | a summary exists exactly for at least one trial, all well formed, with non-zero Go medians; it covers every trial |
| BuildSummary.ColumnBetween | benchmarks/build-system-cost/main.go:484-496 | each summarised column lies between its least and greatest measurement |
| BuildSummary.ArmOrderIrrelevant | benchmarks/build-system-cost/main.go:432-437 | which arm of a trial ran first leaves no trace |

## Left out

- Everything under `internal/`: tokenising, scoring, the snapshot and its generations are
  parameters or absent; the generation publication the recovery benchmark probes is not modelled.
- The engine, Cypher, CSV and JSON: a connection appends rows to tables, an uncommitted or failed
  transaction leaves nothing durable, and a COPY is one statement.
- Floating point: lines, medians, scores and shares are over real numbers. 64-bit wrap-around of
  byte counts and totals is not modelled; the 32-bit offsets of the index are.
- The `uint32` term mask is the set of its one bits, so `|=`, `&^` and the population count are
  union, difference and size.
- The growth policy of Go's `append`: a full array is replaced by one of twice its length and one
  more.
- Clocks, durations, RSS sampling, process spawning, file walking, reports and flags.
- The `explain` output of the ranker, docstring extraction and the question runner.
- The disk-full worker mode, and the completion marker's partial writes: it appears in one step.
- Goroutine scheduling fairness: `Drive.EveryRunEnds` bounds every run instead of assuming it.
- Parsing: a syntax tree is given, with the kinds of node and the fields the worker asks about.
- The rows of `from` imports, `point` and `attribute_point`: an occurrence's start is given, as the
  Python AST counts columns in UTF-8 bytes while offsets count characters. A plain import only ends
  the run.
- Windows paths and the fallback worker `python-worker/index.py`.
- `parseSourceBodies`, `compare`, `totalsOf`, latency percentiles and the copy of the driver in
  `relay-cost`: member-by-member sums and selections that would add only easy members.
- A trailing line without a newline: the loaders' last cancellation check is made as if every
  line ended in one.
- Workload.Split: the batches are values; that Go appends to them in place has no effect a caller
  could see.
- BuildSummary.SortArms: which of several faults of one trial is reported is not stated, only
  that one is.
- LspClient.Client.Request: the server's bytes arrive in one piece between the write and the first
  read; reading blocks until they are there, so their timing has no effect.
