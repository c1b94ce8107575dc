/** The recovery benchmark: a harness that starts a worker process, waits for its marker
    file, may open its gate, and kills it in the middle of a transaction. Harness, worker,
    the goroutine that waits for the process and the outside world take turns in any
    order; every step of the worker and of the harness may fail. */
module KillProtocol {
  import opened Text
  import opened Wrappers

  datatype Mode = InsertLoop | BeforeCommit | BulkCopy | Health

  datatype File = Absent | Present(contents: string)

  datatype Row = Existing(id: nat) | Inserted(index: nat) | Copied

  /** What the engine promises: whatever has not been committed is gone once the process is. */
  datatype Database = Database(open: bool, staged: seq<Row>, committed: seq<Row>)

  datatype Exit = Code(code: int) | Sigkill | OtherSignal

  /** Where the worker is; `index` is the number of the insert the marker follows. */
  datatype WorkerPc =
    | Opening | Beginning | Preparing | Inserting(index: nat)
    | Creating(index: nat) | Writing(index: nat, written: nat) | Syncing(index: nat)
    | AwaitingGate | Copying | Completing | Sleeping | Checking

  datatype Process = NotStarted | Running(pc: WorkerPc) | Dead(exit: Exit)

  /** After the last receive: success if the signal was SIGKILL, or an error in any case. */
  datatype Verdict = IfKilled | Never

  datatype HarnessPc =
    | Starting | CheckingMarker | WaitingMarker | ReadingBaseline | CreatingGate | WritingGate
    | CheckingReads | WaitingReads | Killing | Discarding | Receiving(verdict: Verdict)
    | Selecting | Returned(success: bool)

  /** `strings.TrimSpace`, of which the protocol only needs that it adds nothing. */
  type Trimming = f: string -> string | forall s :: |f(s)| <= |s| witness TrimSpace

  /** `child` selects `runChild`, otherwise `startAndKill`; `marker0` and `gate0` are what
      the two paths hold beforehand, and `trim` is what the harness does to a file's text. */
  datatype Config = Config(mode: Mode, value: string, child: bool, gated: bool, readDelta: bool,
                           base: seq<Row>, marker0: File, gate0: File, trim: Trimming)

  /** The worker process with its connection; `inserts`, `copies` and `marked` only record
      what it has executed and whether its marker's text is out. */
  datatype Worker = Worker(process: Process, db: Database, inserts: nat, copies: nat, marked: bool)

  /** The paths the two processes share. */
  datatype Files = Files(marker: File, gate: File, complete: bool)

  /** The `finished` channel, with room for one exit. */
  datatype Channel = Channel(pending: Option<Exit>, sent: nat, received: nat, observed: Option<Exit>)

  /** The fields after `pc` only record what has happened. */
  datatype Harness = Harness(pc: HarnessPc, sawMarker: bool, openedGate: bool, killed: bool, killFailed: bool)

  datatype State = State(worker: Worker, files: Files, channel: Channel, harness: Harness)

  datatype Event =
    // The worker: its next statement, some characters of the marker, or an error return.
    | WorkerSteps | WorkerWrites(count: nat) | WorkerFails
    // The outside world.
    | Signalled(exit: Exit)
    // The goroutine behind the `finished` channel.
    | Reaped
    // The harness.
    | StartSucceeds | StartFails | Evaluates | ConditionFails | ReadsEnough | Ticks | Expires
    | HarnessSteps | HarnessFails | KillSucceeds | KillFails | Receives

  const INSERTS := 100_000
  const MARKED_INSERT := 31

  function Init(cfg: Config): State {
    State(Worker(NotStarted, Database(false, [], cfg.base), 0, 0, false), Files(cfg.marker0, cfg.gate0, false),
          Channel(None, 0, 0, None), Harness(Starting, false, false, false, false))
  }

  function Line(cfg: Config): string {
    cfg.value + "\n"
  }

  /** The harness's marker condition. */
  predicate Seen(cfg: Config, marker: File) {
    marker.Present? && cfg.trim(marker.contents) == cfg.value
  }

  // ---- The worker ----

  function Die(w: Worker, exit: Exit): Worker {
    w.(process := Dead(exit), db := Database(false, [], w.db.committed))
  }

  /** A statement outside a transaction would commit by itself. */
  function Store(db: Database, row: Row): Database {
    if db.open then db.(staged := db.staged + [row]) else db.(committed := db.committed + [row])
  }

  function AfterInsert(mode: Mode, index: nat): WorkerPc {
    if mode == BeforeCommit || index == MARKED_INSERT then Creating(index) else Inserting(index + 1)
  }

  function AfterMarker(mode: Mode, index: nat): WorkerPc {
    match mode
    case InsertLoop => Inserting(index + 1)
    case BeforeCommit => Sleeping
    case _ => AwaitingGate
  }

  predicate CanStep(pc: WorkerPc) {
    match pc
    case Inserting(index) => index < INSERTS
    case Writing(_, _) => false
    case Sleeping => false
    case _ => true
  }

  function WorkerWrite(cfg: Config, w: Worker, index: nat, written: nat): Worker {
    w.(process := Running(if written == |Line(cfg)| then Syncing(index) else Writing(index, written)),
       marked := w.marked || written >= |cfg.value|)
  }

  function WorkerNext(cfg: Config, w: Worker, gateOpen: bool): Worker
    requires w.process.Running?
  {
    var mode := cfg.mode;
    match w.process.pc
    case Opening => w.(process := Running(if mode == Health then Checking else Beginning))
    case Beginning => w.(process := Running(if mode == BulkCopy then Creating(0) else Preparing),
                         db := w.db.(open := true))
    case Preparing => w.(process := Running(Inserting(0)))
    case Inserting(index) =>
      w.(process := Running(AfterInsert(mode, index)), db := Store(w.db, Inserted(index)), inserts := w.inserts + 1)
    case Creating(index) => WorkerWrite(cfg, w, index, 0)
    case Syncing(index) => w.(process := Running(AfterMarker(mode, index)))
    case AwaitingGate => if gateOpen then w.(process := Running(Copying)) else w
    case Copying => w.(process := Running(Completing), db := Store(w.db, Copied), copies := w.copies + 1)
    case Completing => w.(process := Running(Sleeping))
    case Checking => Die(w, Code(0))
    case _ => w
  }

  /** What a worker step does to the files: the marker is truncated before it is written. */
  function FilesNext(files: Files, pc: WorkerPc): Files {
    match pc
    case Creating(_) => files.(marker := Present(""))
    case Completing => files.(complete := true)
    case _ => files
  }

  // ---- The harness ----

  function Receive(channel: Channel): Channel {
    Channel(None, channel.sent, channel.received + 1, channel.pending)
  }

  predicate Succeeds(pc: HarnessPc, exit: Exit) {
    match pc
    case Selecting => true
    case Receiving(verdict) => verdict == IfKilled && exit == Sigkill
    case _ => false
  }

  function Evaluate(cfg: Config, h: Harness, marker: File): Harness {
    if h.pc == CheckingReads then h.(pc := WaitingReads)
    else if Seen(cfg, marker) then h.(pc := if cfg.gated then ReadingBaseline else Killing, sawMarker := true)
    else h.(pc := WaitingMarker)
  }

  function HarnessNext(cfg: Config, h: Harness): Harness {
    match h.pc
    case ReadingBaseline => h.(pc := CreatingGate)
    case CreatingGate => h.(pc := WritingGate, openedGate := true)
    case _ => h.(pc := if cfg.readDelta then CheckingReads else Killing)
  }

  predicate Waiting(pc: HarnessPc) {
    pc == WaitingMarker || pc == WaitingReads
  }

  predicate OpeningGate(pc: HarnessPc) {
    pc == ReadingBaseline || pc == CreatingGate || pc == WritingGate
  }

  predicate Enabled(cfg: Config, s: State, e: Event) {
    var process, pc := s.worker.process, s.harness.pc;
    match e
    case WorkerSteps => process.Running? && CanStep(process.pc)
    case WorkerWrites(count) =>
      process.Running? && process.pc.Writing? && 0 < count && process.pc.written + count <= |Line(cfg)|
    case WorkerFails => process.Running? && process.pc != Sleeping
    case Signalled(exit) => process.Running? && !exit.Code?
    case Reaped => process.Dead? && s.channel.sent == 0
    case StartSucceeds => pc == Starting
    case StartFails => pc == Starting
    case Evaluates => pc == CheckingMarker || pc == CheckingReads
    case ConditionFails => pc == CheckingMarker || pc == CheckingReads
    case ReadsEnough => pc == CheckingReads
    case Ticks => Waiting(pc)
    case Expires => Waiting(pc) || pc == Selecting
    case HarnessSteps => OpeningGate(pc)
    case HarnessFails => OpeningGate(pc)
    case KillSucceeds => pc == Killing || pc == Discarding
    case KillFails => pc == Killing || pc == Discarding
    case Receives => s.channel.pending.Some? && (Waiting(pc) || pc == Selecting || pc.Receiving?)
  }

  function Apply(cfg: Config, s: State, e: Event): State
    requires Enabled(cfg, s, e)
  {
    var w, h := s.worker, s.harness;
    match e
    case WorkerSteps => s.(worker := WorkerNext(cfg, w, s.files.gate.Present?),
                           files := FilesNext(s.files, w.process.pc))
    case WorkerWrites(count) =>
      var written := w.process.pc.written + count;
      s.(worker := WorkerWrite(cfg, w, w.process.pc.index, written),
         files := s.files.(marker := Present(Line(cfg)[..written])))
    case WorkerFails => s.(worker := Die(w, Code(1)))
    case Signalled(exit) => s.(worker := Die(w, exit))
    case Reaped => s.(channel := s.channel.(pending := Some(w.process.exit), sent := 1))
    case StartSucceeds =>
      s.(worker := w.(process := Running(Opening)),
         harness := h.(pc := if cfg.child then Selecting else CheckingMarker))
    case StartFails => s.(harness := h.(pc := Returned(false)))
    case Evaluates => s.(harness := Evaluate(cfg, h, s.files.marker))
    case ConditionFails => s.(harness := h.(pc := Discarding))
    case ReadsEnough => s.(harness := h.(pc := Killing))
    case Ticks => s.(harness := h.(pc := if h.pc == WaitingMarker then CheckingMarker else CheckingReads))
    case Expires => s.(harness := h.(pc := Discarding))
    case HarnessSteps =>
      s.(harness := HarnessNext(cfg, h),
         files := match h.pc
                  case CreatingGate => s.files.(gate := Present(""))
                  case WritingGate => s.files.(gate := Present("go\n"))
                  case _ => s.files)
    case HarnessFails => s.(harness := h.(pc := Discarding))
    // Killing a process that is already dead changes nothing.
    case KillSucceeds =>
      s.(worker := if w.process.Running? then Die(w, Sigkill) else w,
         harness := h.(pc := Receiving(if h.pc == Killing then IfKilled else Never), killed := true))
    case KillFails => s.(harness := h.(pc := Receiving(Never), killFailed := true))
    case Receives => s.(harness := h.(pc := Returned(Succeeds(h.pc, s.channel.pending.value))),
                        channel := Receive(s.channel))
  }

  // ---- Runs ----

  /** The state after a run, if every event of it was enabled when it happened. */
  function Run(cfg: Config, events: seq<Event>): Option<State> {
    if events == [] then Some(Init(cfg))
    else
      var before, e := Run(cfg, events[..|events| - 1]), events[|events| - 1];
      if before.Some? && Enabled(cfg, before.value, e) then Some(Apply(cfg, before.value, e)) else None
  }

  // ---- What every step keeps ----

  predicate InTransaction(pc: WorkerPc) {
    pc != Opening && pc != Beginning && pc != Checking
  }

  function Rows(inserts: nat, copies: nat): seq<Row> {
    seq(inserts, (i: nat) => Inserted(i)) + seq(copies, _ => Copied)
  }

  /** The worker's own bookkeeping: it writes only inside its transaction, and reaches its
      marker only after the work the marker stands for. */
  ghost predicate WorkerInv(cfg: Config, w: Worker) {
    && DatabaseInv(cfg, w)
    && (w.marked ==> WorkDone(cfg.mode, w.inserts))
    && (w.process.NotStarted? ==> w.inserts == 0 && w.copies == 0 && !w.marked)
    && (w.process.Running? ==> PcInv(cfg, w, w.process.pc))
  }

  ghost predicate DatabaseInv(cfg: Config, w: Worker) {
    && w.db.committed == cfg.base
    && if w.process.Running? then w.db.open == InTransaction(w.process.pc) && w.db.staged == Rows(w.inserts, w.copies)
       else !w.db.open && w.db.staged == []
  }

  /** The inserts a marker stands for. */
  predicate WorkDone(mode: Mode, inserts: nat) {
    match mode
    case InsertLoop => inserts > MARKED_INSERT
    case BeforeCommit => inserts == 1
    case BulkCopy => inserts == 0
    case Health => false
  }

  ghost predicate PcInv(cfg: Config, w: Worker, pc: WorkerPc) {
    match pc
    case Opening => w.inserts == 0 && w.copies == 0 && !w.marked
    case Beginning => cfg.mode != Health && w.inserts == 0 && w.copies == 0 && !w.marked
    case Checking => cfg.mode == Health && w.inserts == 0 && w.copies == 0 && !w.marked
    case Preparing =>
      (cfg.mode == InsertLoop || cfg.mode == BeforeCommit) && w.inserts == 0 && w.copies == 0 && !w.marked
    case Inserting(index) =>
      && (cfg.mode == InsertLoop || (cfg.mode == BeforeCommit && index == 0))
      && index == w.inserts && w.copies == 0 && (index > MARKED_INSERT ==> w.marked)
    case Creating(index) => MarkerInv(cfg.mode, w, index)
    case Writing(index, written) =>
      MarkerInv(cfg.mode, w, index) && written < |Line(cfg)| && (written >= |cfg.value| ==> w.marked)
    case Syncing(index) => MarkerInv(cfg.mode, w, index) && w.marked
    case AwaitingGate => cfg.mode == BulkCopy && w.marked && w.copies == 0
    case Copying => cfg.mode == BulkCopy && w.marked && w.copies == 0
    case Completing => cfg.mode == BulkCopy && w.marked && w.copies == 1
    case Sleeping => (cfg.mode == BeforeCommit || cfg.mode == BulkCopy) && w.marked
  }

  ghost predicate MarkerInv(mode: Mode, w: Worker, index: nat) {
    && w.copies == 0 && WorkDone(mode, w.inserts)
    && match mode
       case InsertLoop => index == MARKED_INSERT && w.inserts == index + 1
       case _ => index == 0
  }

  ghost predicate FileInv(cfg: Config, w: Worker, files: Files, h: Harness) {
    MarkerFileInv(cfg, w, files.marker) && GateFileInv(cfg, w, files, h)
  }

  /** The marker path holds what it held before, or as much as the worker has written. */
  ghost predicate MarkerFileInv(cfg: Config, w: Worker, marker: File) {
    && (marker == cfg.marker0 || OwnMarker(cfg, w, marker))
    && (w.process.Running? && w.process.pc.Writing? ==> OwnMarker(cfg, w, marker))
  }

  ghost predicate GateFileInv(cfg: Config, w: Worker, files: Files, h: Harness) {
    && (!h.openedGate ==> files.gate == cfg.gate0)
    && (w.copies > 0 || w.process == Running(Copying) ==> files.gate.Present?)
    && (files.complete ==> w.copies == 1)
  }

  ghost predicate OwnMarker(cfg: Config, w: Worker, marker: File) {
    marker.Present? && marker.contents <= Line(cfg) && (|marker.contents| >= |cfg.value| ==> w.marked)
  }

  /** One exit is sent and at most one is received, the latter just before returning. */
  ghost predicate ChannelInv(process: Process, channel: Channel, pc: HarnessPc) {
    Buffered(process, channel) && Matched(process, channel, pc)
  }

  ghost predicate Buffered(process: Process, channel: Channel) {
    && channel.sent <= 1
    && channel.sent == channel.received + (if channel.pending.Some? then 1 else 0)
    && (channel.sent == 1 ==> process.Dead?)
    && (channel.pending.Some? ==> channel.pending == Some(process.exit))
  }

  ghost predicate Matched(process: Process, channel: Channel, pc: HarnessPc) {
    && (channel.received == 1 ==> pc.Returned? && process.Dead? && channel.observed == Some(process.exit))
    && (pc.Returned? ==> if process.NotStarted? then !pc.success else channel.received == 1)
    && (pc == Starting ==> process.NotStarted?)
    && (process.NotStarted? ==> pc == Starting || pc.Returned?)
  }

  /** `startAndKill` goes for the kill only after the marker, and succeeds only on SIGKILL;
      `runChild` succeeds only without having killed. */
  ghost predicate HarnessInv(cfg: Config, h: Harness, observed: Option<Exit>) {
    if cfg.child then ChildInv(h) else KillerInv(cfg, h) && (h.pc == Returned(true) ==> observed == Some(Sigkill))
  }

  ghost predicate ChildInv(h: Harness) {
    !h.sawMarker && !h.openedGate && ChildPc(h.pc) && (Undisturbed(h.pc) ==> !h.killed && !h.killFailed)
  }

  ghost predicate KillerInv(cfg: Config, h: Harness) {
    && h.pc != Selecting
    && (Committed(h.pc) || h.pc == Returned(true) ==> h.sawMarker)
    && (cfg.gated && (GateOpened(h.pc) || h.pc == Returned(true)) ==> h.openedGate)
    && (OpeningGate(h.pc) || h.pc == CheckingReads || h.pc == WaitingReads ==> cfg.gated)
    && (h.openedGate ==> h.sawMarker && cfg.gated)
  }

  predicate ChildPc(pc: HarnessPc) {
    pc == Starting || pc == Selecting || pc == Discarding || pc == Receiving(Never) || pc.Returned?
  }

  predicate Undisturbed(pc: HarnessPc) {
    pc == Starting || pc == Selecting || pc == Returned(true)
  }

  /** The harness has seen the marker and is on its way to a verdict. */
  predicate Committed(pc: HarnessPc) {
    OpeningGate(pc) || pc == CheckingReads || pc == WaitingReads || pc == Killing || pc == Receiving(IfKilled)
  }

  predicate GateOpened(pc: HarnessPc) {
    pc == WritingGate || pc == CheckingReads || pc == WaitingReads || pc == Killing || pc == Receiving(IfKilled)
  }

  /** Only a failed kill leaves the harness waiting for a process that still runs. */
  ghost predicate KillInv(process: Process, h: Harness) {
    h.pc.Receiving? ==> (h.killed || h.killFailed) && (process.Running? ==> h.killFailed)
  }

  ghost predicate Inv(cfg: Config, s: State) {
    && WorkerInv(cfg, s.worker)
    && FileInv(cfg, s.worker, s.files, s.harness)
    && ChannelInv(s.worker.process, s.channel, s.harness.pc)
    && HarnessInv(cfg, s.harness, s.channel.observed)
    && KillInv(s.worker.process, s.harness)
  }

  lemma StepKeepsDatabase(cfg: Config, w: Worker, gateOpen: bool)
    requires DatabaseInv(cfg, w) && w.process.Running? && CanStep(w.process.pc) && PcInv(cfg, w, w.process.pc)
    ensures DatabaseInv(cfg, WorkerNext(cfg, w, gateOpen))
  {
    RowsGrow(w.inserts);
  }

  lemma RowsGrow(inserts: nat)
    ensures Rows(inserts + 1, 0) == Rows(inserts, 0) + [Inserted(inserts)]
    ensures Rows(inserts, 1) == Rows(inserts, 0) + [Copied]
  {}

  lemma StepKeepsPc(cfg: Config, w: Worker, gateOpen: bool)
    requires w.process.Running? && CanStep(w.process.pc) && PcInv(cfg, w, w.process.pc)
    requires w.marked ==> WorkDone(cfg.mode, w.inserts)
    ensures var t := WorkerNext(cfg, w, gateOpen);
      && !t.process.NotStarted? && (t.process.Running? ==> PcInv(cfg, t, t.process.pc))
      && (t.marked ==> WorkDone(cfg.mode, t.inserts))
  {}

  lemma WorkerKeeps(cfg: Config, s: State, e: Event)
    requires WorkerInv(cfg, s.worker) && Enabled(cfg, s, e)
    requires s.harness.pc == Starting ==> s.worker.process.NotStarted?
    ensures WorkerInv(cfg, Apply(cfg, s, e).worker)
  {
    if e == WorkerSteps {
      StepKeepsDatabase(cfg, s.worker, s.files.gate.Present?);
      StepKeepsPc(cfg, s.worker, s.files.gate.Present?);
    }
  }

  lemma MarkerFileKeeps(cfg: Config, s: State, e: Event)
    requires MarkerFileInv(cfg, s.worker, s.files.marker) && Enabled(cfg, s, e)
    ensures var t := Apply(cfg, s, e); MarkerFileInv(cfg, t.worker, t.files.marker)
  {
    MarkedStays(cfg, s, e);
    if OfHarness(e) {
      assert Apply(cfg, s, e).files.marker == s.files.marker;
    }
  }

  lemma GateFileKeeps(cfg: Config, s: State, e: Event)
    requires GateFileInv(cfg, s.worker, s.files, s.harness) && Enabled(cfg, s, e)
    requires s.worker.process.Running? ==> PcInv(cfg, s.worker, s.worker.process.pc)
    requires HarnessInv(cfg, s.harness, s.channel.observed)
    ensures var t := Apply(cfg, s, e); GateFileInv(cfg, t.worker, t.files, t.harness)
  {}

  lemma BufferKeeps(cfg: Config, s: State, e: Event)
    requires ChannelInv(s.worker.process, s.channel, s.harness.pc) && Enabled(cfg, s, e)
    ensures var t := Apply(cfg, s, e); Buffered(t.worker.process, t.channel)
  {}

  lemma MatchKeeps(cfg: Config, s: State, e: Event)
    requires ChannelInv(s.worker.process, s.channel, s.harness.pc) && Enabled(cfg, s, e)
    ensures var t := Apply(cfg, s, e); Matched(t.worker.process, t.channel, t.harness.pc)
  {
    var t := Apply(cfg, s, e);
    if s.harness.pc.Returned? {
      assert t.harness.pc == s.harness.pc;
    }
  }

  lemma KillerKeeps(cfg: Config, s: State, e: Event)
    requires !cfg.child && KillerInv(cfg, s.harness) && Enabled(cfg, s, e)
    ensures KillerInv(cfg, Apply(cfg, s, e).harness)
  {}

  lemma HarnessKeeps(cfg: Config, s: State, e: Event)
    requires ChannelInv(s.worker.process, s.channel, s.harness.pc) && Enabled(cfg, s, e)
    requires HarnessInv(cfg, s.harness, s.channel.observed)
    ensures var t := Apply(cfg, s, e); HarnessInv(cfg, t.harness, t.channel.observed)
  {
    if !cfg.child {
      KillerKeeps(cfg, s, e);
    }
  }

  lemma KillKeeps(cfg: Config, s: State, e: Event)
    requires KillInv(s.worker.process, s.harness) && Enabled(cfg, s, e)
    requires s.harness.pc == Starting ==> s.worker.process.NotStarted?
    ensures var t := Apply(cfg, s, e); KillInv(t.worker.process, t.harness)
  {}

  lemma {:induction false} AlwaysHolds(cfg: Config, events: seq<Event>)
    requires Run(cfg, events).Some?
    ensures Inv(cfg, Run(cfg, events).value)
  {
    if events != [] {
      var front, last := events[..|events| - 1], events[|events| - 1];
      var s := Run(cfg, front).value;
      AlwaysHolds(cfg, front);
      WorkerKeeps(cfg, s, last);
      MarkerFileKeeps(cfg, s, last);
      GateFileKeeps(cfg, s, last);
      BufferKeeps(cfg, s, last);
      MatchKeeps(cfg, s, last);
      HarnessKeeps(cfg, s, last);
      KillKeeps(cfg, s, last);
    }
  }

  /** Some run ends in this state. */
  ghost predicate Reaches(cfg: Config, s: State) {
    exists events :: Run(cfg, events) == Some(s)
  }

  lemma ReachedHolds(cfg: Config, s: State)
    requires Reaches(cfg, s)
    ensures Inv(cfg, s)
  {
    var events :| Run(cfg, events) == Some(s);
    AlwaysHolds(cfg, events);
  }

  // ---- The theorems ----

  /** However the run goes, nothing the worker wrote is ever committed, and once the process
      is gone the database is the one it started from. */
  lemma BaseSurvives(cfg: Config, s: State)
    requires Reaches(cfg, s)
    ensures var w := s.worker;
      && w.db.committed == cfg.base
      && (w.process.Dead? ==> w.db == Database(false, [], cfg.base))
      && (w.process.Running? ==> w.db.staged == Rows(w.inserts, w.copies))
  {
    ReachedHolds(cfg, s);
  }

  /** Once the child has started, its exit has been received exactly once whenever either
      function returns, and never before. */
  lemma ReceivedOnce(cfg: Config, s: State)
    requires Reaches(cfg, s)
    ensures s.channel.received == (if s.harness.pc.Returned? && !s.worker.process.NotStarted? then 1 else 0)
    ensures s.channel.received == 1 ==> s.channel.sent == 1 && s.channel.pending.None?
    ensures s.channel.received == 1 ==> s.worker.process.Dead? && s.channel.observed == Some(s.worker.process.exit)
  {
    ReachedHolds(cfg, s);
  }

  /** `startAndKill` returns nil only for a worker that SIGKILL ended, after its marker was
      seen and, when there is one, its gate opened. */
  lemma NilMeansKilled(cfg: Config, s: State)
    requires Reaches(cfg, s) && !cfg.child && s.harness.pc == Returned(true)
    ensures s.worker.process == Dead(Sigkill) && s.channel.observed == Some(Sigkill)
    ensures s.harness.sawMarker && (cfg.gated ==> s.harness.openedGate)
    ensures s.worker.db == Database(false, [], cfg.base)
  {
    ReachedHolds(cfg, s);
  }

  /** `runChild` returns nil only for a child it did not kill. */
  lemma ChildEndsByItself(cfg: Config, s: State)
    requires Reaches(cfg, s) && cfg.child && s.harness.pc == Returned(true)
    ensures s.worker.process.Dead? && s.channel.observed == Some(s.worker.process.exit)
    ensures !s.harness.killed && !s.harness.killFailed
  {
    ReachedHolds(cfg, s);
  }

  lemma MarkedStays(cfg: Config, s: State, e: Event)
    ensures Enabled(cfg, s, e) && s.worker.marked ==> Apply(cfg, s, e).worker.marked
  {}

  lemma OnlySeenIsSaw(cfg: Config, s: State, e: Event)
    ensures Enabled(cfg, s, e) && !s.harness.sawMarker && Apply(cfg, s, e).harness.sawMarker ==>
      e == Evaluates && Seen(cfg, s.files.marker)
  {}

  lemma SeenIsWritten(cfg: Config, w: Worker, marker: File)
    requires !Seen(cfg, cfg.marker0) && (marker == cfg.marker0 || OwnMarker(cfg, w, marker))
    ensures Seen(cfg, marker) ==> w.marked
  {}

  lemma {:induction false} SeenMeansMarked(cfg: Config, events: seq<Event>)
    requires Run(cfg, events).Some? && !Seen(cfg, cfg.marker0)
    ensures var s := Run(cfg, events).value; s.harness.sawMarker ==> s.worker.marked
  {
    if events != [] {
      var front, last := events[..|events| - 1], events[|events| - 1];
      SeenMeansMarked(cfg, front);
      AlwaysHolds(cfg, front);
      var s := Run(cfg, front).value;
      if s.worker.marked {
        MarkedStays(cfg, s, last);
      } else if Run(cfg, events).value.harness.sawMarker {
        OnlySeenIsSaw(cfg, s, last);
        SeenIsWritten(cfg, s.worker, s.files.marker);
      }
    }
  }

  /** A nil error stands for a marker the worker wrote itself. */
  ghost predicate MarkerTrusted(cfg: Config) {
    forall s :: Reaches(cfg, s) && s.harness.pc == Returned(true) ==> s.worker.marked
  }

  /** A COPY, from its start on, has waited for the harness to open the gate. */
  ghost predicate GateTrusted(cfg: Config) {
    forall s :: Reaches(cfg, s) && Copies(s.worker) ==> s.harness.openedGate
  }

  /** The worker has come to its COPY. */
  predicate Copies(w: Worker) {
    w.copies > 0 || w.process == Running(Copying)
  }

  // ---- Particular runs ----

  /** A reachable state has its successors. */
  lemma Next(cfg: Config, s: State, e: Event) returns (t: State)
    requires Reaches(cfg, s) && Enabled(cfg, s, e)
    ensures t == Apply(cfg, s, e) && Reaches(cfg, t)
  {
    var events :| Run(cfg, events) == Some(s);
    t := Apply(cfg, s, e);
    assert (events + [e])[..|events|] == events;
    assert Run(cfg, events + [e]) == Some(t);
  }

  lemma Starts(cfg: Config) returns (s: State)
    ensures s == Apply(cfg, Init(cfg), StartSucceeds) && Reaches(cfg, s)
  {
    assert Run(cfg, []) == Some(Init(cfg));
    s := Next(cfg, Init(cfg), StartSucceeds);
  }

  const NOTHING_SENT := Channel(None, 0, 0, None)

  /** A harness about to kill a running worker can bring its run to success. */
  lemma KillRun(cfg: Config, before: State) returns (s: State)
    requires Reaches(cfg, before)
    requires before.harness.pc == Killing && before.worker.process.Running? && before.channel == NOTHING_SENT
    ensures Reaches(cfg, s) && s.harness.pc == Returned(true)
    ensures s.worker == Die(before.worker, Sigkill) && s.harness.openedGate == before.harness.openedGate
  {
    s := Next(cfg, before, KillSucceeds);
    s := Next(cfg, s, Reaped);
    s := Next(cfg, s, Receives);
  }

  /** A harness that has seen the marker can open the gate. */
  lemma GateRun(cfg: Config, before: State) returns (s: State)
    requires Reaches(cfg, before) && before.harness.pc == ReadingBaseline
    ensures Reaches(cfg, s) && s.harness.pc == (if cfg.readDelta then CheckingReads else Killing)
    ensures s.harness.openedGate && s.files.gate.Present?
    ensures s.worker == before.worker && s.channel == before.channel
  {
    s := Next(cfg, before, HarnessSteps);
    s := Next(cfg, s, HarnessSteps);
    s := Next(cfg, s, HarnessSteps);
  }

  /** It need not wait for the worker to read, either. */
  lemma ReadRun(cfg: Config, before: State) returns (s: State)
    requires Reaches(cfg, before) && before.harness.pc == (if cfg.readDelta then CheckingReads else Killing)
    ensures Reaches(cfg, s) && s.harness.pc == Killing && s.harness.openedGate == before.harness.openedGate
    ensures s.worker == before.worker && s.channel == before.channel
  {
    s := before;
    if cfg.readDelta {
      s := Next(cfg, s, ReadsEnough);
    }
  }

  /** With a stale marker the harness kills a worker that has done nothing, and is content. */
  lemma StaleMarkerRun(cfg: Config) returns (s: State)
    requires !cfg.child && Seen(cfg, cfg.marker0)
    ensures Reaches(cfg, s) && s.harness.pc == Returned(true) && !s.worker.marked
  {
    s := Starts(cfg);
    s := Next(cfg, s, Evaluates);
    if cfg.gated {
      s := GateRun(cfg, s);
      s := ReadRun(cfg, s);
    }
    s := KillRun(cfg, s);
  }

  /** The worker writes its whole marker. */
  lemma WriteRun(cfg: Config, before: State, index: nat) returns (s: State)
    requires Reaches(cfg, before) && before.worker.process == Running(Creating(index))
    ensures Reaches(cfg, s) && s.worker == before.worker.(process := Running(Syncing(index)), marked := true)
    ensures s.files == before.files.(marker := Present(Line(cfg)))
    ensures s.channel == before.channel && s.harness == before.harness
  {
    s := Next(cfg, before, WorkerSteps);
    assert Line(cfg)[..|Line(cfg)|] == Line(cfg);
    s := Next(cfg, s, WorkerWrites(|Line(cfg)|));
  }

  /** A worker up to its first insert, or to its marker where there is none. */
  lemma BeginRun(cfg: Config) returns (s: State)
    requires cfg.mode != Health
    ensures Reaches(cfg, s) && s.worker.process == Running(if cfg.mode == BulkCopy then Creating(0) else Inserting(0))
    ensures s.worker.inserts == 0 && s.worker.copies == 0 && s.files.gate == cfg.gate0
    ensures s.harness == Apply(cfg, Init(cfg), StartSucceeds).harness && s.channel == NOTHING_SENT
  {
    s := Starts(cfg);
    s := Next(cfg, s, WorkerSteps);
    s := Next(cfg, s, WorkerSteps);
    if cfg.mode != BulkCopy {
      s := Next(cfg, s, WorkerSteps);
    }
  }

  lemma {:induction false} InsertRun(cfg: Config, n: nat) returns (s: State)
    requires !cfg.child && cfg.mode == InsertLoop && n <= MARKED_INSERT
    ensures Reaches(cfg, s) && s.worker.process == Running(Inserting(n))
    ensures s.worker.inserts == n && s.worker.copies == 0
    ensures s.harness == Init(cfg).harness.(pc := CheckingMarker) && s.channel == NOTHING_SENT
  {
    if n == 0 {
      s := BeginRun(cfg);
    } else {
      s := InsertRun(cfg, n - 1);
      s := Next(cfg, s, WorkerSteps);
    }
  }

  /** The inserts that a marker of the mode stands for. */
  function MarkedInserts(mode: Mode): nat {
    match mode
    case InsertLoop => MARKED_INSERT + 1
    case BeforeCommit => 1
    case _ => 0
  }

  /** Every benchmarked mode gets as far as its marker. */
  lemma MarkRun(cfg: Config) returns (s: State)
    requires !cfg.child && cfg.mode != Health
    ensures Reaches(cfg, s) && s.worker.process.Running? && s.worker.process.pc.Syncing? && s.worker.marked
    ensures s.worker.inserts == MarkedInserts(cfg.mode) && s.worker.copies == 0
    ensures s.files.marker == Present(Line(cfg))
    ensures s.harness == Init(cfg).harness.(pc := CheckingMarker) && s.channel == NOTHING_SENT
  {
    var index := 0;
    if cfg.mode == InsertLoop {
      index := MARKED_INSERT;
      s := InsertRun(cfg, index);
    } else {
      s := BeginRun(cfg);
    }
    if cfg.mode != BulkCopy {
      s := Next(cfg, s, WorkerSteps);
    }
    s := WriteRun(cfg, s, index);
  }

  /** A bulk worker behind its marker copies once there is a gate. */
  lemma CopyRun(cfg: Config, before: State) returns (s: State)
    requires Reaches(cfg, before) && cfg.mode == BulkCopy && before.files.gate.Present?
    requires before.worker.process.Running? && before.worker.process.pc.Syncing?
    ensures Reaches(cfg, s) && s.worker.process.Running? && s.worker.marked == before.worker.marked
    ensures s.worker.inserts == before.worker.inserts && s.worker.copies == before.worker.copies + 1
    ensures s.channel == before.channel && s.harness == before.harness
  {
    s := Next(cfg, before, WorkerSteps);
    s := Next(cfg, s, WorkerSteps);
    s := Next(cfg, s, WorkerSteps);
  }

  /** With a stale gate the worker copies before anybody has looked at its marker. */
  lemma StaleGateRun(cfg: Config) returns (s: State)
    requires cfg.mode == BulkCopy && cfg.gate0.Present?
    ensures Reaches(cfg, s) && s.worker.copies > 0 && !s.harness.openedGate
  {
    s := BeginRun(cfg);
    s := WriteRun(cfg, s, 0);
    s := CopyRun(cfg, s);
  }

  /** The benchmark does measure something: in every mode a worker that writes its marker can
      be killed with its work uncommitted, its COPY included, and the harness then reports
      success. */
  lemma SuccessIsPossible(cfg: Config) returns (s: State)
    requires !cfg.child && cfg.mode != Health && cfg.trim(Line(cfg)) == cfg.value
    ensures Reaches(cfg, s) && s.harness.pc == Returned(true) && s.harness.openedGate == cfg.gated
    ensures s.worker.marked && s.worker.inserts == MarkedInserts(cfg.mode)
    ensures s.worker.copies == if cfg.mode == BulkCopy && cfg.gated then 1 else 0
  {
    s := MarkRun(cfg);
    assert Seen(cfg, s.files.marker);
    s := Next(cfg, s, Evaluates);
    if cfg.gated {
      s := GateRun(cfg, s);
      if cfg.mode == BulkCopy {
        s := CopyRun(cfg, s);
      }
      s := ReadRun(cfg, s);
    }
    s := KillRun(cfg, s);
  }

  /** What the worker writes to its marker file, and the harness looks for. */
  function MarkerValue(mode: Mode): string {
    match mode
    case InsertLoop => "inserting"
    case BeforeCommit => "before_commit"
    case BulkCopy => "bulk_ready"
    case Health => ""
  }

  lemma MarkerTrims(mode: Mode)
    ensures TrimSpace(MarkerValue(mode) + "\n") == MarkerValue(mode)
  {
    TrimmedStays(MarkerValue(mode));
  }

  /** It does so with the three markers the worker writes, under Go's own trimming. */
  lemma MeasuresKills(cfg: Config) returns (s: State)
    requires !cfg.child && cfg.mode != Health && cfg.value == MarkerValue(cfg.mode) && cfg.trim == TrimSpace
    ensures Reaches(cfg, s) && s.harness.pc == Returned(true) && s.harness.openedGate == cfg.gated
    ensures s.worker.marked && s.worker.inserts == MarkedInserts(cfg.mode)
    ensures s.worker.copies == if cfg.mode == BulkCopy && cfg.gated then 1 else 0
  {
    MarkerTrims(cfg.mode);
    s := SuccessIsPossible(cfg);
  }

  // ---- What a marker and a gate are worth ----

  /** A nil error means the worker had passed its marker exactly when the marker path did not
      already hold the marker. */
  lemma MarkerTrustedExactly(cfg: Config)
    requires !cfg.child
    ensures MarkerTrusted(cfg) <==> !Seen(cfg, cfg.marker0)
  {
    if Seen(cfg, cfg.marker0) {
      var s := StaleMarkerRun(cfg);
    } else {
      forall s | Reaches(cfg, s) && s.harness.pc == Returned(true) ensures s.worker.marked {
        var events :| Run(cfg, events) == Some(s);
        SeenMeansMarked(cfg, events);
        NilMeansKilled(cfg, s);
      }
    }
  }

  /** Behind a marker stands the work of its mode, in a transaction that stays open for as
      long as the worker runs. */
  lemma MarkedIsEarned(cfg: Config, s: State)
    requires Reaches(cfg, s) && s.worker.marked
    ensures WorkDone(cfg.mode, s.worker.inserts)
    ensures s.worker.process.Running? ==>
      s.worker.db.open && s.worker.db.staged == Rows(s.worker.inserts, s.worker.copies)
  {
    ReachedHolds(cfg, s);
  }

  /** A COPY starts only behind a gate the harness opened exactly when there was no gate
      before; and a gate is opened only after the marker was seen. */
  lemma GateTrustedExactly(cfg: Config)
    requires cfg.mode == BulkCopy
    ensures GateTrusted(cfg) <==> cfg.gate0 == Absent
    ensures forall s :: Reaches(cfg, s) && s.harness.openedGate ==> s.harness.sawMarker
  {
    forall s | Reaches(cfg, s)
      ensures s.harness.openedGate ==> s.harness.sawMarker
      ensures cfg.gate0 == Absent && Copies(s.worker) ==> s.harness.openedGate
    {
      ReachedHolds(cfg, s);
    }
    if cfg.gate0 != Absent {
      var s := StaleGateRun(cfg);
    }
  }

  // ---- Whether the harness gets anywhere ----

  predicate OfHarness(e: Event) {
    match e
    case WorkerSteps => false
    case WorkerWrites(_) => false
    case WorkerFails => false
    case Signalled(_) => false
    case _ => true
  }

  ghost predicate Stuck(cfg: Config, s: State) {
    forall e :: OfHarness(e) ==> !Enabled(cfg, s, e)
  }

  /** The harness can always go on by itself, except while it waits for a process it failed
      to kill. */
  lemma OnlyFailedKillsHang(cfg: Config, s: State)
    requires Reaches(cfg, s) && !s.harness.pc.Returned?
    ensures Stuck(cfg, s) <==> s.harness.pc.Receiving? && s.worker.process.Running?
    ensures Stuck(cfg, s) ==> s.harness.killFailed
  {
    ReachedHolds(cfg, s);
    if !(s.harness.pc.Receiving? && s.worker.process.Running?) {
      var e := match s.harness.pc
        case Starting => StartFails
        case CheckingMarker => ConditionFails
        case CheckingReads => ConditionFails
        case WaitingMarker => Expires
        case WaitingReads => Expires
        case Selecting => Expires
        case Killing => KillFails
        case Discarding => KillFails
        case Receiving(_) => if s.channel.sent == 0 then Reaped else Receives
        case _ => HarnessFails;
      assert OfHarness(e) && Enabled(cfg, s, e);
    }
  }

  /** And there it can come to: a kill that fails leaves it waiting for a running worker. */
  lemma HangRun(cfg: Config) returns (s: State)
    ensures Reaches(cfg, s) && !s.harness.pc.Returned? && Stuck(cfg, s)
  {
    s := Starts(cfg);
    s := Next(cfg, s, if cfg.child then Expires else ConditionFails);
    s := Next(cfg, s, KillFails);
    OnlyFailedKillsHang(cfg, s);
  }

  function Moves(events: seq<Event>): nat {
    if events == [] then 0
    else Moves(events[..|events| - 1]) + if OfHarness(events[|events| - 1]) then 1 else 0
  }

  /** How often the ticker has let the harness look at its condition again. */
  function Polls(events: seq<Event>): nat {
    if events == [] then 0
    else Polls(events[..|events| - 1]) + if events[|events| - 1] == Ticks then 1 else 0
  }

  /** The most moves the harness can still make without another poll. */
  function MovesLeft(s: State): nat {
    PcMovesLeft(s.harness.pc) + if s.channel.sent == 0 then 1 else 0
  }

  function PcMovesLeft(pc: HarnessPc): nat {
    match pc
    case Starting => 9
    case CheckingMarker => 8
    case WaitingMarker => 7
    case ReadingBaseline => 7
    case CreatingGate => 6
    case WritingGate => 5
    case CheckingReads => 4
    case WaitingReads => 3
    case Selecting => 3
    case Killing => 2
    case Discarding => 2
    case Receiving(_) => 1
    case Returned(_) => 0
  }

  lemma EventSpends(cfg: Config, s: State, e: Event)
    requires Enabled(cfg, s, e)
    ensures MovesLeft(Apply(cfg, s, e)) + (if OfHarness(e) then 1 else 0) <= MovesLeft(s) + if e == Ticks then 2 else 0
  {
    var t := Apply(cfg, s, e);
    if !OfHarness(e) {
      assert t.harness == s.harness && t.channel == s.channel;
    }
  }

  /** Only polling can keep the harness busy: apart from two moves for each poll it makes at
      most ten. Where no move is left it has returned or is stuck. */
  lemma {:induction false} MovesBounded(cfg: Config, events: seq<Event>)
    requires Run(cfg, events).Some?
    ensures Moves(events) + MovesLeft(Run(cfg, events).value) <= 10 + 2 * Polls(events)
  {
    if events != [] {
      var front := events[..|events| - 1];
      MovesBounded(cfg, front);
      EventSpends(cfg, Run(cfg, front).value, events[|events| - 1]);
    }
  }
}
