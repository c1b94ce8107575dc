/** The driver's goroutines as interleaved steps. A shared variable is read in one step and
    written in another, so that only the mutex keeps an update from being lost. */
module Drive {
  import opened Workload
  import opened Wrappers

  datatype Answer<Q> = Answer(request: Q, latency: nat, error: Option<string>)

  /** Where a goroutine is; `seen` is what it has read of the variable it is about to write. */
  datatype Pc =
    | Calling
    | WantsError(error: string) | ChecksError(error: string) | SetsError(error: string) | LeavesError
    | WantsMerge | ReadsLatencies | WritesLatencies(seen: seq<nat>)
    | ReadsFailures | WritesFailures(count: nat) | LeavesMerge
    | Done

  /** `answers` only records the calls made. */
  datatype Goroutine<Q> = Goroutine(pc: Pc, batch: seq<Q>, local: seq<nat>, localFailures: nat, answers: seq<Answer<Q>>)

  datatype Shared = Shared(mutex: Option<nat>, latencies: seq<nat>, failures: nat, firstError: Option<string>)

  datatype State<Q> = State(all: seq<Goroutine<Q>>, shared: Shared)

  /** What a call returns is nobody's choice: `latency` and `error` come with the event. */
  datatype Event = Call(g: nat, latency: nat, error: Option<string>) | Step(g: nat)

  predicate Inside(pc: Pc) {
    match pc
    case Calling => false
    case WantsError(_) => false
    case WantsMerge => false
    case Done => false
    case _ => true
  }

  function Init<Q>(batches: seq<seq<Q>>): State<Q> {
    State(seq(|batches|, i requires 0 <= i < |batches| => Goroutine(Calling, batches[i], [], 0, [])),
          Shared(None, [], 0, None))
  }

  predicate Enabled<Q>(s: State<Q>, e: Event) {
    e.g < |s.all| &&
    var g := s.all[e.g];
    match e
    case Call(_, _, _) => g.pc == Calling && |g.answers| < |g.batch|
    case Step(_) =>
      match g.pc
      case Calling => |g.answers| == |g.batch|
      case WantsError(_) => s.shared.mutex.None?
      case WantsMerge => s.shared.mutex.None?
      case Done => false
      case _ => true
  }

  function AfterCall<Q>(g: Goroutine<Q>, latency: nat, error: Option<string>): Goroutine<Q>
    requires |g.answers| < |g.batch|
  {
    Goroutine(if error.Some? then WantsError(error.value) else Calling, g.batch, g.local + [latency],
              g.localFailures + (if error.Some? then 1 else 0),
              g.answers + [Answer(g.batch[|g.answers|], latency, error)])
  }

  function NextPc<Q>(g: Goroutine<Q>, shared: Shared): Pc {
    match g.pc
    case Calling => WantsMerge
    case WantsError(error) => ChecksError(error)
    case ChecksError(error) => if shared.firstError.None? then SetsError(error) else LeavesError
    case SetsError(_) => LeavesError
    case LeavesError => Calling
    case WantsMerge => ReadsLatencies
    case ReadsLatencies => WritesLatencies(shared.latencies)
    case WritesLatencies(_) => ReadsFailures
    case ReadsFailures => WritesFailures(shared.failures)
    case WritesFailures(_) => LeavesMerge
    case LeavesMerge => Done
    case Done => Done
  }

  function NextShared<Q>(g: Goroutine<Q>, self: nat, shared: Shared): Shared {
    match g.pc
    case WantsError(_) => shared.(mutex := Some(self))
    case SetsError(error) => shared.(firstError := Some(error))
    case LeavesError => shared.(mutex := None)
    case WantsMerge => shared.(mutex := Some(self))
    case WritesLatencies(seen) => shared.(latencies := seen + g.local)
    case WritesFailures(count) => shared.(failures := count + g.localFailures)
    case LeavesMerge => shared.(mutex := None)
    case _ => shared
  }

  function Apply<Q>(s: State<Q>, e: Event): State<Q>
    requires Enabled(s, e)
  {
    var g := s.all[e.g];
    match e
    case Call(_, latency, error) => s.(all := s.all[e.g := AfterCall(g, latency, error)])
    case Step(_) => State(s.all[e.g := g.(pc := NextPc(g, s.shared))], NextShared(g, e.g, s.shared))
  }

  /** The state after a run, if every event of it was enabled when it happened. */
  function Run<Q>(batches: seq<seq<Q>>, events: seq<Event>): Option<State<Q>> {
    if events == [] then Some(Init(batches))
    else
      var before, e := Run(batches, events[..|events| - 1]), events[|events| - 1];
      if before.Some? && Enabled(before.value, e) then Some(Apply(before.value, e)) else None
  }

  // ---- What the answers add up to ----

  function Latencies<Q>(answers: seq<Answer<Q>>): seq<nat> {
    if answers == [] then [] else Latencies(answers[..|answers| - 1]) + [answers[|answers| - 1].latency]
  }

  function Failures<Q>(answers: seq<Answer<Q>>): nat {
    if answers == [] then 0
    else Failures(answers[..|answers| - 1]) + if answers[|answers| - 1].error.Some? then 1 else 0
  }

  predicate LatenciesMerged(pc: Pc) {
    match pc
    case ReadsFailures => true
    case WritesFailures(_) => true
    case LeavesMerge => true
    case Done => true
    case _ => false
  }

  predicate FailuresMerged(pc: Pc) {
    pc == LeavesMerge || pc == Done
  }

  ghost function MergedLatencies<Q>(all: seq<Goroutine<Q>>): multiset<nat> {
    if all == [] then multiset{}
    else
      var g := all[|all| - 1];
      MergedLatencies(all[..|all| - 1]) + if LatenciesMerged(g.pc) then multiset(g.local) else multiset{}
  }

  ghost function MergedFailures<Q>(all: seq<Goroutine<Q>>): nat {
    if all == [] then 0
    else
      var g := all[|all| - 1];
      MergedFailures(all[..|all| - 1]) + if FailuresMerged(g.pc) then g.localFailures else 0
  }

  lemma {:induction false} MergedLatenciesUpdate<Q>(all: seq<Goroutine<Q>>, i: nat, g: Goroutine<Q>)
    requires i < |all| && !LatenciesMerged(all[i].pc)
    ensures MergedLatencies(all[i := g])
            == MergedLatencies(all) + if LatenciesMerged(g.pc) then multiset(g.local) else multiset{}
  {
    var n := |all| - 1;
    if i < n {
      assert all[i := g][..n] == all[..n][i := g];
      MergedLatenciesUpdate(all[..n], i, g);
    } else {
      assert all[i := g][..n] == all[..n];
    }
  }

  lemma {:induction false} MergedLatenciesKept<Q>(all: seq<Goroutine<Q>>, i: nat, g: Goroutine<Q>)
    requires i < |all| && LatenciesMerged(all[i].pc) && LatenciesMerged(g.pc) && g.local == all[i].local
    ensures MergedLatencies(all[i := g]) == MergedLatencies(all)
  {
    var n := |all| - 1;
    if i < n {
      assert all[i := g][..n] == all[..n][i := g];
      MergedLatenciesKept(all[..n], i, g);
    } else {
      assert all[i := g][..n] == all[..n];
    }
  }

  lemma {:induction false} MergedFailuresUpdate<Q>(all: seq<Goroutine<Q>>, i: nat, g: Goroutine<Q>)
    requires i < |all|
    requires FailuresMerged(all[i].pc) ==> FailuresMerged(g.pc) && g.localFailures == all[i].localFailures
    ensures MergedFailures(all[i := g]) ==
            MergedFailures(all) + if FailuresMerged(g.pc) && !FailuresMerged(all[i].pc) then g.localFailures else 0
  {
    var n := |all| - 1;
    if i < n {
      assert all[i := g][..n] == all[..n][i := g];
      MergedFailuresUpdate(all[..n], i, g);
    } else {
      assert all[i := g][..n] == all[..n];
    }
  }

  // ---- What every step keeps ----

  /** A goroutine's own variables say what its calls returned, and calls go in batch order. */
  ghost predicate LocalInv<Q>(g: Goroutine<Q>) {
    && |g.answers| <= |g.batch|
    && (forall i :: 0 <= i < |g.answers| ==> g.answers[i].request == g.batch[i])
    && g.local == Latencies(g.answers)
    && g.localFailures == Failures(g.answers)
    && (!InLoop(g.pc) ==> |g.answers| == |g.batch|)
  }

  predicate InLoop(pc: Pc) {
    match pc
    case Calling => true
    case WantsError(_) => true
    case ChecksError(_) => true
    case SetsError(_) => true
    case LeavesError => true
    case _ => false
  }

  /** The critical section belongs to the holder of the mutex, and what its holder has read
      is still what the variable holds. */
  ghost predicate LockInv<Q>(s: State<Q>) {
    && (s.shared.mutex.Some? ==> s.shared.mutex.value < |s.all|)
    && forall i :: 0 <= i < |s.all| ==> Holds(s.all[i].pc, i, s.shared)
  }

  ghost predicate Holds(pc: Pc, i: nat, shared: Shared) {
    && (Inside(pc) <==> shared.mutex == Some(i))
    && (pc.WritesLatencies? ==> pc.seen == shared.latencies)
    && (pc.WritesFailures? ==> pc.count == shared.failures)
    && (pc.SetsError? ==> shared.firstError.None?)
  }

  /** All but perhaps the error just met has been reported. */
  ghost predicate ErrorInv<Q>(g: Goroutine<Q>, firstError: Option<string>) {
    && (PendingError(g.pc).None? && g.localFailures > 0 ==> firstError.Some?)
    && (PendingError(g.pc).Some? ==> Met(g.answers, PendingError(g.pc).value))
  }

  function PendingError(pc: Pc): Option<string> {
    match pc
    case WantsError(error) => Some(error)
    case ChecksError(error) => Some(error)
    case SetsError(error) => Some(error)
    case _ => None
  }

  ghost predicate Met<Q>(answers: seq<Answer<Q>>, error: string) {
    exists i :: 0 <= i < |answers| && answers[i].error == Some(error)
  }

  ghost predicate Reported<Q>(all: seq<Goroutine<Q>>, firstError: Option<string>) {
    firstError.Some? ==> exists i :: 0 <= i < |all| && Met(all[i].answers, firstError.value)
  }

  ghost predicate Inv<Q>(batches: seq<seq<Q>>, s: State<Q>) {
    && |s.all| == |batches|
    && (forall i :: 0 <= i < |s.all| ==> s.all[i].batch == batches[i])
    && (forall i :: 0 <= i < |s.all| ==> LocalInv(s.all[i]))
    && (forall i :: 0 <= i < |s.all| ==> ErrorInv(s.all[i], s.shared.firstError))
    && LockInv(s)
    && Reported(s.all, s.shared.firstError)
    && multiset(s.shared.latencies) == MergedLatencies(s.all)
    && s.shared.failures == MergedFailures(s.all)
  }

  lemma {:induction false} NothingMerged<Q>(all: seq<Goroutine<Q>>)
    requires forall i :: 0 <= i < |all| ==> all[i].pc == Calling
    ensures MergedLatencies(all) == multiset{} && MergedFailures(all) == 0
  {
    if all != [] {
      assert all[|all| - 1].pc == Calling;
      NothingMerged(all[..|all| - 1]);
    }
  }

  lemma InitHolds<Q>(batches: seq<seq<Q>>)
    ensures Inv(batches, Init(batches))
  {
    NothingMerged(Init(batches).all);
  }

  lemma AfterCallLocal<Q>(g: Goroutine<Q>, latency: nat, error: Option<string>, firstError: Option<string>)
    requires LocalInv(g) && ErrorInv(g, firstError) && g.pc == Calling && |g.answers| < |g.batch|
    ensures LocalInv(AfterCall(g, latency, error)) && ErrorInv(AfterCall(g, latency, error), firstError)
    ensures forall e :: Met(g.answers, e) ==> Met(AfterCall(g, latency, error).answers, e)
  {
    var after := AfterCall(g, latency, error);
    assert after.answers[..|g.answers|] == g.answers;
    assert after.answers[|g.answers|].error == error;
    forall e | Met(g.answers, e) ensures Met(after.answers, e) {
      var i :| 0 <= i < |g.answers| && g.answers[i].error == Some(e);
      assert after.answers[i].error == Some(e);
    }
  }

  lemma CallLocks<Q>(s: State<Q>, e: Event)
    requires LockInv(s) && e.Call? && Enabled(s, e)
    ensures LockInv(Apply(s, e))
  {
    var t := Apply(s, e);
    forall i | 0 <= i < |t.all| ensures Holds(t.all[i].pc, i, t.shared) {
      assert Holds(s.all[i].pc, i, s.shared);
    }
  }

  lemma CallReports<Q>(s: State<Q>, e: Event)
    requires Reported(s.all, s.shared.firstError) && e.Call? && Enabled(s, e)
    requires forall x :: Met(s.all[e.g].answers, x) ==> Met(AfterCall(s.all[e.g], e.latency, e.error).answers, x)
    ensures Reported(Apply(s, e).all, s.shared.firstError)
  {
    if s.shared.firstError.Some? {
      var i :| 0 <= i < |s.all| && Met(s.all[i].answers, s.shared.firstError.value);
      assert Met(Apply(s, e).all[i].answers, s.shared.firstError.value);
    }
  }

  lemma CallMerges<Q>(s: State<Q>, e: Event)
    requires e.Call? && Enabled(s, e) && LocalInv(s.all[e.g])
    ensures MergedLatencies(Apply(s, e).all) == MergedLatencies(s.all)
    ensures MergedFailures(Apply(s, e).all) == MergedFailures(s.all)
  {
    var after := Apply(s, e).all[e.g];
    MergedLatenciesUpdate(s.all, e.g, after);
    MergedFailuresUpdate(s.all, e.g, after);
  }

  lemma CallKeeps<Q>(batches: seq<seq<Q>>, s: State<Q>, e: Event)
    requires Inv(batches, s) && e.Call? && Enabled(s, e)
    ensures Inv(batches, Apply(s, e))
  {
    var g, t := s.all[e.g], Apply(s, e);
    var after := AfterCall(g, e.latency, e.error);
    assert LocalInv(g) && ErrorInv(g, s.shared.firstError);
    AfterCallLocal(g, e.latency, e.error, s.shared.firstError);
    CallMerges(s, e);
    CallLocks(s, e);
    CallReports(s, e);
    forall i | 0 <= i < |t.all|
      ensures t.all[i].batch == batches[i] && LocalInv(t.all[i]) && ErrorInv(t.all[i], t.shared.firstError)
    {
      assert LocalInv(s.all[i]) && ErrorInv(s.all[i], s.shared.firstError);
    }
  }

  lemma StepLocks<Q>(s: State<Q>, e: Event)
    requires LockInv(s) && e.Step? && Enabled(s, e)
    ensures LockInv(Apply(s, e))
  {
    var t := Apply(s, e);
    forall i | 0 <= i < |t.all| ensures Holds(t.all[i].pc, i, t.shared) {
      assert Holds(s.all[i].pc, i, s.shared) && Holds(s.all[e.g].pc, e.g, s.shared);
    }
  }

  lemma StepMergesLatencies<Q>(s: State<Q>, e: Event)
    requires LockInv(s) && e.Step? && Enabled(s, e) && multiset(s.shared.latencies) == MergedLatencies(s.all)
    ensures var t := Apply(s, e); multiset(t.shared.latencies) == MergedLatencies(t.all)
  {
    var g, after := s.all[e.g], Apply(s, e).all[e.g];
    assert Holds(g.pc, e.g, s.shared);
    if LatenciesMerged(g.pc) {
      MergedLatenciesKept(s.all, e.g, after);
    } else {
      MergedLatenciesUpdate(s.all, e.g, after);
      assert multiset(s.shared.latencies + g.local) == multiset(s.shared.latencies) + multiset(g.local);
    }
  }

  lemma StepMergesFailures<Q>(s: State<Q>, e: Event)
    requires LockInv(s) && e.Step? && Enabled(s, e) && s.shared.failures == MergedFailures(s.all)
    ensures var t := Apply(s, e); t.shared.failures == MergedFailures(t.all)
  {
    assert Holds(s.all[e.g].pc, e.g, s.shared);
    MergedFailuresUpdate(s.all, e.g, Apply(s, e).all[e.g]);
  }

  lemma StepReports<Q>(batches: seq<seq<Q>>, s: State<Q>, e: Event)
    requires Inv(batches, s) && e.Step? && Enabled(s, e)
    ensures var t := Apply(s, e);
      && Reported(t.all, t.shared.firstError)
      && (forall i :: 0 <= i < |t.all| ==> ErrorInv(t.all[i], t.shared.firstError))
  {
    var g, t := s.all[e.g], Apply(s, e);
    assert forall i :: 0 <= i < |s.all| ==> t.all[i].answers == s.all[i].answers;
    forall i | 0 <= i < |t.all| ensures ErrorInv(t.all[i], t.shared.firstError) {
      assert ErrorInv(s.all[i], s.shared.firstError);
    }
    if g.pc.SetsError? {
      assert Met(t.all[e.g].answers, g.pc.error);
    } else if s.shared.firstError.Some? {
      var i :| 0 <= i < |s.all| && Met(s.all[i].answers, s.shared.firstError.value);
      assert Met(t.all[i].answers, s.shared.firstError.value);
    }
  }

  lemma StepKeeps<Q>(batches: seq<seq<Q>>, s: State<Q>, e: Event)
    requires Inv(batches, s) && e.Step? && Enabled(s, e)
    ensures Inv(batches, Apply(s, e))
  {
    StepLocks(s, e);
    StepMergesLatencies(s, e);
    StepMergesFailures(s, e);
    StepReports(batches, s, e);
    var t := Apply(s, e);
    forall i | 0 <= i < |t.all| ensures t.all[i].batch == batches[i] && LocalInv(t.all[i]) {
      assert LocalInv(s.all[i]);
    }
  }

  lemma {:induction false} AlwaysHolds<Q>(batches: seq<seq<Q>>, events: seq<Event>)
    requires Run(batches, events).Some?
    ensures Inv(batches, Run(batches, events).value)
  {
    if events == [] {
      InitHolds(batches);
    } else {
      var front, last := events[..|events| - 1], events[|events| - 1];
      AlwaysHolds(batches, front);
      if last.Call? {
        CallKeeps(batches, Run(batches, front).value, last);
      } else {
        StepKeeps(batches, Run(batches, front).value, last);
      }
    }
  }

  // ---- When every goroutine is done ----

  predicate Finished<Q>(s: State<Q>) {
    forall i :: 0 <= i < |s.all| ==> s.all[i].pc == Done
  }

  /** Every answer of the run. */
  function Answers<Q>(all: seq<Goroutine<Q>>): seq<Answer<Q>> {
    if all == [] then [] else Answers(all[..|all| - 1]) + all[|all| - 1].answers
  }

  lemma {:induction false} LatenciesConcat<Q>(a: seq<Answer<Q>>, b: seq<Answer<Q>>)
    ensures Latencies(a + b) == Latencies(a) + Latencies(b)
    ensures Failures(a + b) == Failures(a) + Failures(b)
  {
    if b == [] {
      assert a + b == a;
    } else {
      var n := |b| - 1;
      assert (a + b)[..|a| + n] == a + b[..n];
      LatenciesConcat(a, b[..n]);
    }
  }

  lemma {:induction false} EveryLatencyMerged<Q>(all: seq<Goroutine<Q>>)
    requires forall i :: 0 <= i < |all| ==> all[i].pc == Done && all[i].local == Latencies(all[i].answers)
    ensures MergedLatencies(all) == multiset(Latencies(Answers(all)))
  {
    if all != [] {
      var front, last := all[..|all| - 1], all[|all| - 1];
      EveryLatencyMerged(front);
      LatenciesConcat(Answers(front), last.answers);
      assert multiset(Latencies(Answers(front)) + last.local)
          == multiset(Latencies(Answers(front))) + multiset(last.local);
    }
  }

  lemma {:induction false} EveryFailureMerged<Q>(all: seq<Goroutine<Q>>)
    requires forall i :: 0 <= i < |all| ==> all[i].pc == Done && all[i].localFailures == Failures(all[i].answers)
    ensures MergedFailures(all) == Failures(Answers(all))
  {
    if all != [] {
      var front, last := all[..|all| - 1], all[|all| - 1];
      EveryFailureMerged(front);
      LatenciesConcat(Answers(front), last.answers);
    }
  }

  lemma {:induction false} EverythingAnswered<Q>(batches: seq<seq<Q>>, all: seq<Goroutine<Q>>)
    requires |all| == |batches|
    requires forall i :: 0 <= i < |all| ==> |all[i].answers| == |batches[i]|
    ensures |Answers(all)| == Total(batches)
  {
    if all != [] {
      EverythingAnswered(batches[..|all| - 1], all[..|all| - 1]);
    }
  }

  lemma {:induction false} LatenciesLength<Q>(answers: seq<Answer<Q>>)
    ensures |Latencies(answers)| == |answers| && Failures(answers) <= |answers|
  {
    if answers != [] {
      LatenciesLength(answers[..|answers| - 1]);
    }
  }

  lemma {:induction false} FailuresMet<Q>(answers: seq<Answer<Q>>)
    ensures Failures(answers) > 0 <==> exists i :: 0 <= i < |answers| && answers[i].error.Some?
  {
    if answers != [] {
      var n := |answers| - 1;
      FailuresMet(answers[..n]);
      if Failures(answers[..n]) > 0 {
        var i :| 0 <= i < n && answers[..n][i].error.Some?;
        assert answers[i].error.Some?;
      }
      if i :| 0 <= i < |answers| && answers[i].error.Some? {
        assert i < n ==> answers[..n][i].error.Some?;
      }
    }
  }

  lemma {:induction false} AnswersAreThose<Q>(all: seq<Goroutine<Q>>, i: nat, error: string)
    requires i < |all| && Met(all[i].answers, error)
    ensures Met(Answers(all), error)
  {
    var n := |all| - 1;
    var front := Answers(all[..n]);
    if i < n {
      AnswersAreThose(all[..n], i, error);
      var j :| 0 <= j < |front| && front[j].error == Some(error);
      assert Answers(all)[j] == front[j];
    } else {
      var j :| 0 <= j < |all[n].answers| && all[n].answers[j].error == Some(error);
      assert Answers(all)[|front| + j] == all[n].answers[j];
    }
  }

  lemma {:induction false} SomeFailed<Q>(all: seq<Goroutine<Q>>) returns (i: nat)
    requires MergedFailures(all) > 0
    ensures i < |all| && all[i].localFailures > 0
  {
    var n := |all| - 1;
    if all[n].localFailures > 0 {
      i := n;
    } else {
      i := SomeFailed(all[..n]);
    }
  }

  /** What `driveAll` makes of the shared variables: latencies, or the first error. */
  function Conclude(shared: Shared, requests: nat): Result<seq<nat>, Option<string>> {
    if shared.failures * 2 > requests then Err(shared.firstError) else Ok(shared.latencies)
  }

  ghost predicate AskedAt<Q>(all: seq<Goroutine<Q>>, t: nat, j: nat, request: Q) {
    t < |all| && j < |all[t].answers| && all[t].answers[j].request == request
  }

  /** Request `i` was the `i / k`-th call of session `i % k`. */
  ghost predicate Asked<Q>(all: seq<Goroutine<Q>>, i: nat, request: Q)
    requires |all| > 0
  {
    AskedAt(all, i % |all|, i / |all|, request)
  }

  ghost predicate AllDone<Q>(batches: seq<seq<Q>>, s: State<Q>) {
    Inv(batches, s) && Finished(s)
  }

  lemma Collected<Q>(batches: seq<seq<Q>>, s: State<Q>)
    requires AllDone(batches, s)
    ensures |Answers(s.all)| == Total(batches) == |s.shared.latencies|
    ensures multiset(s.shared.latencies) == multiset(Latencies(Answers(s.all)))
    ensures s.shared.failures == Failures(Answers(s.all))
  {
    forall i | 0 <= i < |s.all|
      ensures |s.all[i].answers| == |batches[i]|
      ensures s.all[i].local == Latencies(s.all[i].answers) && s.all[i].localFailures == Failures(s.all[i].answers)
    {
      assert LocalInv(s.all[i]);
    }
    EveryLatencyMerged(s.all);
    EveryFailureMerged(s.all);
    EverythingAnswered(batches, s.all);
    LatenciesLength(Answers(s.all));
    assert |multiset(s.shared.latencies)| == |multiset(Latencies(Answers(s.all)))|;
  }

  lemma FirstErrorKnown<Q>(batches: seq<seq<Q>>, s: State<Q>)
    requires AllDone(batches, s)
    ensures s.shared.firstError.Some? ==> Met(Answers(s.all), s.shared.firstError.value)
    ensures s.shared.firstError.Some? <==> s.shared.failures > 0
  {
    if s.shared.failures > 0 {
      var i := SomeFailed(s.all);
      assert ErrorInv(s.all[i], s.shared.firstError);
    }
    if s.shared.firstError.Some? {
      var i :| 0 <= i < |s.all| && Met(s.all[i].answers, s.shared.firstError.value);
      AnswersAreThose(s.all, i, s.shared.firstError.value);
      FailuresMet(Answers(s.all));
      Collected(batches, s);
    }
  }

  lemma AskedFrom<Q>(all: seq<Goroutine<Q>>, batches: seq<seq<Q>>, i: nat, x: Q)
    requires |all| == |batches| > 0 && At(batches, i, x)
    requires forall t: nat, j: nat :: t < |batches| && j < |batches[t]| ==> AskedAt(all, t, j, batches[t][j])
    ensures Asked(all, i, x)
  {}

  lemma EveryRequestAsked<Q>(requests: seq<Q>, batches: seq<seq<Q>>, s: State<Q>)
    requires |batches| > 0 && RoundRobin(batches, requests) && AllDone(batches, s)
    ensures forall i :: 0 <= i < |requests| ==> Asked(s.all, i, requests[i])
  {
    forall t: nat, j: nat | t < |batches| && j < |batches[t]| ensures AskedAt(s.all, t, j, batches[t][j]) {}
    forall i | 0 <= i < |requests| ensures Asked(s.all, i, requests[i]) {
      AskedFrom(s.all, batches, i, requests[i]);
    }
  }

  /** Whatever the interleaving, a finished run has asked every request once, kept every
      latency, counted every failure, and reports an error exactly when more than half of
      the calls failed; the error it then names is one that a call returned. */
  lemma DriveAll<Q>(requests: seq<Q>, batches: seq<seq<Q>>, events: seq<Event>)
    requires |batches| > 0 && RoundRobin(batches, requests) && Total(batches) == |requests|
    requires Run(batches, events).Some? && Finished(Run(batches, events).value)
    ensures var s := Run(batches, events).value;
      var answers := Answers(s.all);
      && |answers| == |requests| == |s.shared.latencies|
      && |s.all| == |batches|
      && (forall i :: 0 <= i < |requests| ==> Asked(s.all, i, requests[i]))
      && multiset(s.shared.latencies) == multiset(Latencies(answers))
      && s.shared.failures == Failures(answers)
      && (s.shared.firstError.Some? <==> Failures(answers) > 0)
      && (s.shared.firstError.Some? ==> Met(answers, s.shared.firstError.value))
      && (Conclude(s.shared, |requests|).Err? <==> 2 * Failures(answers) > |requests|)
      && (Conclude(s.shared, |requests|).Err? ==> Conclude(s.shared, |requests|).error.Some?)
  {
    AlwaysHolds(batches, events);
    var s := Run(batches, events).value;
    Collected(batches, s);
    FirstErrorKnown(batches, s);
    EveryRequestAsked(requests, batches, s);
  }

  // ---- Every run ends ----

  /** The steps a goroutine still has before it. */
  function Rank<Q>(g: Goroutine<Q>): int {
    5 * (|g.batch| - |g.answers|) +
    match g.pc
    case Calling => 7
    case WantsError(_) => 11
    case ChecksError(_) => 10
    case SetsError(_) => 9
    case LeavesError => 8
    case WantsMerge => 6
    case ReadsLatencies => 5
    case WritesLatencies(_) => 4
    case ReadsFailures => 3
    case WritesFailures(_) => 2
    case LeavesMerge => 1
    case Done => 0
  }

  function Ranks<Q>(all: seq<Goroutine<Q>>): int {
    if all == [] then 0 else Ranks(all[..|all| - 1]) + Rank(all[|all| - 1])
  }

  lemma {:induction false} RanksUpdate<Q>(all: seq<Goroutine<Q>>, i: nat, g: Goroutine<Q>)
    requires i < |all|
    ensures Ranks(all[i := g]) == Ranks(all) - Rank(all[i]) + Rank(g)
  {
    var n := |all| - 1;
    if i < n {
      assert all[i := g][..n] == all[..n][i := g];
      RanksUpdate(all[..n], i, g);
    } else {
      assert all[i := g][..n] == all[..n];
    }
  }

  lemma {:induction false} RanksInit<Q>(batches: seq<seq<Q>>)
    ensures Ranks(Init(batches).all) == 5 * Total(batches) + 7 * |batches|
  {
    if batches != [] {
      var n := |batches| - 1;
      assert Init(batches).all[..n] == Init(batches[..n]).all;
      RanksInit(batches[..n]);
    }
  }

  lemma {:induction false} RanksNonNegative<Q>(all: seq<Goroutine<Q>>)
    requires forall i :: 0 <= i < |all| ==> LocalInv(all[i])
    ensures Ranks(all) >= 0
  {
    if all != [] {
      assert LocalInv(all[|all| - 1]);
      RanksNonNegative(all[..|all| - 1]);
    }
  }

  lemma RankFalls<Q>(s: State<Q>, e: Event)
    requires Enabled(s, e)
    ensures Ranks(Apply(s, e).all) < Ranks(s.all)
  {
    var g, after := s.all[e.g], Apply(s, e).all[e.g];
    RanksUpdate(s.all, e.g, after);
    assert Rank(after) < Rank(g);
  }

  lemma {:induction false} RanksFall<Q>(batches: seq<seq<Q>>, events: seq<Event>)
    requires Run(batches, events).Some?
    ensures |events| + Ranks(Run(batches, events).value.all) <= 5 * Total(batches) + 7 * |batches|
  {
    if events == [] {
      RanksInit(batches);
    } else {
      var front, e := events[..|events| - 1], events[|events| - 1];
      RanksFall(batches, front);
      RankFalls(Run(batches, front).value, e);
    }
  }

  /** No run is longer than five steps a request and seven a session, and none stops before
      every goroutine is done: `Wait` always returns. */
  lemma EveryRunEnds<Q>(batches: seq<seq<Q>>, events: seq<Event>)
    requires Run(batches, events).Some?
    ensures |events| <= 5 * Total(batches) + 7 * |batches|
    ensures Finished(Run(batches, events).value) <==> forall e :: !Enabled(Run(batches, events).value, e)
  {
    AlwaysHolds(batches, events);
    RanksFall(batches, events);
    var s := Run(batches, events).value;
    RanksNonNegative(s.all);
    if !Finished(s) {
      var i :| 0 <= i < |s.all| && s.all[i].pc != Done;
      var g := if s.shared.mutex.Some? then s.shared.mutex.value else i;
      assert Holds(s.all[g].pc, g, s.shared);
      var e := if s.all[g].pc == Calling && |s.all[g].answers| < |s.all[g].batch| then Call(g, 0, None) else Step(g);
      assert LocalInv(s.all[g]);
      assert Enabled(s, e);
    }
  }
}
