/**
 Admission and shutdown of the embedded engine (crates/daemon/src/embedded.rs).

 The engine is modelled as a step relation over any number of concurrent calls.
 One step is one shared-memory action of one call: loading or storing a flag,
 taking or giving back the admission lock, one stage of the shutdown task.
 Dispatching a request, draining the lanes and closing the store are opaque:
 they end in a step whose outcome the environment picks.
 */
module Engine {
  import opened Common

  datatype Report = Report(storeClosed: bool, abandonedJobs: nat, lifecycleDrained: bool)

  /** Where a call stands. The first line belongs to `execute`, the others to the shutdown task. */
  datatype Phase =
    | Queued | Checking | Passed | Running | Replied | Rejected | Cancelled
    | Announced | WaitWrite | Examining | Draining
    | Closing(r: Report) | StoreClosed(r: Report) | Marked(r: Report) | Unlocked(r: Report) | Recorded(r: Report)
    | Returned(r: Report) | Failed

  datatype Kind = Request | Shutdown(viaExecute: bool)

  /**
   `ticket` orders the calls that wait for a permit; `attached` is false once the caller has
   dropped the future it was waiting on.
   */
  datatype Call = Call(kind: Kind, phase: Phase, ticket: nat, attached: bool)

  datatype State = State(
    stopping: bool,
    closed: bool,
    dirLockHeld: bool,
    report: Option<Report>,
    closes: nat,            // successful store closes so far
    readers: set<nat>,      // calls owning a read permit
    writer: Option<nat>,    // the call owning the write permit
    tickets: nat,           // tickets given out; the lock serves them in order
    calls: seq<Call>,
    handles: nat,           // live clones of the engine
    dropped: bool           // `Drop for Inner` has run
  )

  /** What the host does: it calls, drops futures, clones and drops handles. */
  datatype ClientStep =
    | CallRequest(bounded: bool)
    | CallShutdown(viaExecute: bool)
    | DropFuture(c: nat)
    | CloneHandle
    | DropHandle
    | DropEngine(ok: bool)

  /**
   What a request does between getting its read permit and giving it back: `Check` and `Spawn`
   in one poll of its caller's future, `Finish` in its detached task.
   */
  datatype RequestMove = Check | Spawn | Finish

  /** What a shutdown does: a poll of its caller detaches it, and it does the rest by itself. */
  datatype ShutdownMove =
    | SpawnTask | Examine | Drain(abandonedJobs: nat, drained: bool) | Close(ok: bool)
    | Mark | Unlock | Record | Release

  /** `Grant` gives the longest waiting call its permit. */
  datatype Step =
    | Client(client: ClientStep)
    | Grant(c: nat)
    | OfRequest(c: nat, request: RequestMove)
    | OfShutdown(c: nat, shutdown: ShutdownMove)

  predicate HoldsRead(p: Phase) { p.Checking? || p.Passed? || p.Running? }

  predicate HoldsWrite(p: Phase) {
    p.Examining? || p.Draining? || p.Closing? || p.StoreClosed? || p.Marked? || p.Unlocked? || p.Recorded?
  }

  predicate Waits(p: Phase) { p.Queued? || p.WaitWrite? }

  predicate Done(p: Phase) { p.Replied? || p.Rejected? || p.Cancelled? || p.Returned? || p.Failed? }

  /** A request whose permit its caller's future holds. */
  predicate Granted(p: Phase) { p.Checking? || p.Passed? }

  /** A call that goes on only when its caller polls it. */
  predicate AtCaller(p: Phase) { Granted(p) || p.Announced? }

  /** A request that passed the `stopping` check. */
  predicate Admitted(p: Phase) { p.Passed? || p.Running? || p.Replied? }

  function Init(): State {
    State(false, false, true, None, 0, {}, None, 0, [], 1, false)
  }

  function To(s: State, c: nat, p: Phase): State
    requires c < |s.calls|
  {
    s.(calls := s.calls[c := s.calls[c].(phase := p)])
  }

  predicate ClientEnabled(s: State, st: ClientStep) {
    match st
    case DropFuture(c) =>
      // A future is dropped only where it is suspended: `execute` waits for its permit, also
      // when the lock has already handed it over, or for its task; `shutdown` waits for its task.
      && c < |s.calls| && s.calls[c].attached
      && var p := s.calls[c].phase; p.Queued? || p.Checking? || p.Running? || p.WaitWrite? || HoldsWrite(p)
    case DropEngine(_) =>
      // Every live call owns a clone of the shared state.
      s.handles == 0 && forall i | 0 <= i < |s.calls| :: Done(s.calls[i].phase)
    case _ => s.handles > 0
  }

  function ClientApply(s: State, st: ClientStep): State
    requires ClientEnabled(s, st)
  {
    match st
    case CallRequest(bounded) =>
      if bounded
      then s.(calls := s.calls + [Call(Request, Queued, s.tickets, true)], tickets := s.tickets + 1)
      else s.(calls := s.calls + [Call(Request, Rejected, 0, true)])
    case CallShutdown(via) =>
      s.(stopping := true, calls := s.calls + [Call(Shutdown(via), Announced, 0, true)])
    case DropFuture(c) =>
      // A waiting request leaves the queue, a granted one gives its permit back; a detached
      // task goes on.
      var p := s.calls[c].phase;
      var phase := if p.Queued? || p.Checking? then Cancelled else p;
      s.(calls := s.calls[c := s.calls[c].(phase := phase, attached := false)],
         readers := if p.Checking? then s.readers - {c} else s.readers)
    case CloneHandle => s.(handles := s.handles + 1)
    case DropHandle => s.(handles := s.handles - 1)
    case DropEngine(ok) =>
      if s.closed then s.(dropped := true, dirLockHeld := false)
      else s.(dropped := true, dirLockHeld := false, stopping := true,
              closes := if ok then s.closes + 1 else s.closes)
  }

  predicate GrantEnabled(s: State, c: nat) {
    && c < |s.calls| && Waits(s.calls[c].phase) && s.writer.None?
    && (forall d | 0 <= d < |s.calls| && Waits(s.calls[d].phase) :: s.calls[c].ticket <= s.calls[d].ticket)
    && (s.calls[c].phase.WaitWrite? ==> s.readers == {})
  }

  function GrantApply(s: State, c: nat): State
    requires GrantEnabled(s, c)
  {
    if s.calls[c].phase.WaitWrite?
    then To(s, c, Examining).(writer := Some(c))
    else To(s, c, Checking).(readers := s.readers + {c})
  }

  predicate RequestEnabled(s: State, c: nat, m: RequestMove) {
    && c < |s.calls|
    && match m
       case Check => s.calls[c].phase.Checking?
       case Spawn => s.calls[c].phase.Passed?
       case Finish => s.calls[c].phase.Running?
  }

  function RequestApply(s: State, c: nat, m: RequestMove): State
    requires RequestEnabled(s, c, m)
  {
    match m
    case Check =>
      if s.stopping
      then To(s, c, Rejected).(readers := s.readers - {c})
      else To(s, c, Passed)
    case Spawn => To(s, c, Running)
    case Finish => To(s, c, Replied).(readers := s.readers - {c})
  }

  predicate ShutdownEnabled(s: State, c: nat, m: ShutdownMove) {
    && c < |s.calls|
    && match m
       case SpawnTask => s.calls[c].phase.Announced?
       case Examine => s.calls[c].phase.Examining?
       case Drain(_, _) => s.calls[c].phase.Draining?
       case Close(_) => s.calls[c].phase.Closing?
       case Mark => s.calls[c].phase.StoreClosed?
       case Unlock => s.calls[c].phase.Marked?
       case Record => s.calls[c].phase.Unlocked?
       case Release => s.calls[c].phase.Recorded?
  }

  function ShutdownApply(s: State, c: nat, m: ShutdownMove): State
    requires ShutdownEnabled(s, c, m)
  {
    match m
    case SpawnTask => s.(calls := s.calls[c := s.calls[c].(phase := WaitWrite, ticket := s.tickets)], tickets := s.tickets + 1)
    case Examine =>
      if s.report.Some?
      then To(s, c, Returned(s.report.value)).(writer := None)
      else To(s, c, Draining)
    case Drain(abandoned, drained) => To(s, c, Closing(Report(true, abandoned, drained)))
    case Close(ok) =>
      if ok
      then To(s, c, StoreClosed(s.calls[c].phase.r)).(closes := s.closes + 1)
      else To(s, c, Failed).(writer := None)
    case Mark => To(s, c, Marked(s.calls[c].phase.r)).(closed := true)
    case Unlock => To(s, c, Unlocked(s.calls[c].phase.r)).(dirLockHeld := false)
    case Record => To(s, c, Recorded(s.calls[c].phase.r)).(report := Some(s.calls[c].phase.r))
    case Release => To(s, c, Returned(s.calls[c].phase.r)).(writer := None)
  }

  predicate Enabled(s: State, st: Step) {
    !s.dropped &&
    match st
    case Client(client) => ClientEnabled(s, client)
    case Grant(c) => GrantEnabled(s, c)
    case OfRequest(c, m) => RequestEnabled(s, c, m)
    case OfShutdown(c, m) => ShutdownEnabled(s, c, m)
  }

  function Apply(s: State, st: Step): State
    requires Enabled(s, st)
  {
    match st
    case Client(client) => ClientApply(s, client)
    case Grant(c) => GrantApply(s, c)
    case OfRequest(c, m) => RequestApply(s, c, m)
    case OfShutdown(c, m) => ShutdownApply(s, c, m)
  }

  ghost predicate IsRun(ss: seq<State>, steps: seq<Step>) {
    && |ss| == |steps| + 1
    && ss[0] == Init()
    && forall k | 0 <= k < |steps| :: Enabled(ss[k], steps[k]) && ss[k + 1] == Apply(ss[k], steps[k])
  }

  // ---------------------------------------------------------------- invariant

  /** Permits are owned by exactly the calls whose phase says so. */
  ghost predicate LockInv(s: State) {
    && (forall i | 0 <= i < |s.calls| :: i in s.readers <==> HoldsRead(s.calls[i].phase))
    && (forall i | i in s.readers :: i < |s.calls|)
    && (forall i | 0 <= i < |s.calls| :: s.writer == Some(i) <==> HoldsWrite(s.calls[i].phase))
    && (s.writer.Some? ==> s.writer.value < |s.calls| && s.readers == {})
  }

  ghost predicate KindInv(s: State) {
    forall i | 0 <= i < |s.calls| ::
      var p := s.calls[i].phase;
      s.calls[i].kind.Request? <==> (p.Queued? || HoldsRead(p) || p.Replied? || p.Rejected? || p.Cancelled?)
  }

  /** The three marks of a finished shutdown agree. */
  predicate Settled(s: State) {
    s.closed == !s.dirLockHeld && s.closed == s.report.Some?
  }

  ghost predicate WriterInv(s: State)
    requires s.writer.Some? ==> s.writer.value < |s.calls|
  {
    match s.writer
    case None => Settled(s) && s.closes == (if s.closed then 1 else 0)
    case Some(w) =>
      match s.calls[w].phase
      case Examining => Settled(s) && s.closes == (if s.closed then 1 else 0)
      case Draining => Settled(s) && !s.closed && s.closes == 0
      case Closing(_) => Settled(s) && !s.closed && s.closes == 0
      case StoreClosed(_) => Settled(s) && !s.closed && s.closes == 1
      case Marked(_) => s.closed && s.dirLockHeld && s.report.None? && s.closes == 1
      case Unlocked(_) => s.closed && !s.dirLockHeld && s.report.None? && s.closes == 1
      case Recorded(r) => s.closed && !s.dirLockHeld && s.report == Some(r) && s.closes == 1
      case _ => false
  }

  ghost predicate CallInv(s: State) {
    forall i | 0 <= i < |s.calls| ::
      && (s.calls[i].kind.Shutdown? ==> s.stopping)
      && (s.calls[i].phase.Returned? ==> s.report == Some(s.calls[i].phase.r))
      && (s.closes > 0 ==> !s.calls[i].phase.Passed? && !s.calls[i].phase.Running?)
      && (s.calls[i].phase.Queued? || AtCaller(s.calls[i].phase) ==> s.calls[i].attached)
      && (s.calls[i].phase.Cancelled? ==> !s.calls[i].attached)
  }

  ghost predicate Inv(s: State) {
    && LockInv(s) && KindInv(s) && CallInv(s)
    && (!s.dropped ==> WriterInv(s))
    && s.closes <= 1
    && (s.closes > 0 ==> s.stopping)
  }

  lemma NewCallKeepsInv(s: State, call: Call, s': State)
    requires Inv(s) && !s.dropped
    requires s' == s.(calls := s.calls + [call], tickets := s'.tickets, stopping := s'.stopping)
    requires s.stopping ==> s'.stopping
    requires if call.kind.Request? then call.phase.Queued? || call.phase.Rejected? else call.phase.Announced? && s'.stopping
    requires call.attached
    ensures Inv(s')
  {
    assert forall i | 0 <= i < |s.calls| :: s'.calls[i] == s.calls[i];
    assert s'.calls[|s.calls|] == call;
    assert LockInv(s');
    assert WriterInv(s');
  }

  lemma ClientKeepsInv(s: State, st: ClientStep)
    requires Inv(s) && !s.dropped && ClientEnabled(s, st)
    ensures Inv(ClientApply(s, st))
  {
    if st.CallRequest? || st.CallShutdown? {
      var s' := ClientApply(s, st);
      NewCallKeepsInv(s, s'.calls[|s.calls|], s');
    }
  }

  lemma GrantKeepsInv(s: State, c: nat)
    requires Inv(s) && !s.dropped && GrantEnabled(s, c)
    ensures Inv(GrantApply(s, c))
  {
  }

  lemma RequestKeepsInv(s: State, c: nat, m: RequestMove)
    requires Inv(s) && !s.dropped && RequestEnabled(s, c, m)
    ensures Inv(RequestApply(s, c, m))
  {
  }

  lemma ShutdownKeepsLock(s: State, c: nat, m: ShutdownMove)
    requires Inv(s) && !s.dropped && ShutdownEnabled(s, c, m)
    ensures LockInv(ShutdownApply(s, c, m))
  {
  }

  lemma ShutdownKeepsInv(s: State, c: nat, m: ShutdownMove)
    requires Inv(s) && !s.dropped && ShutdownEnabled(s, c, m)
    ensures Inv(ShutdownApply(s, c, m))
  {
    ShutdownKeepsLock(s, c, m);
  }

  lemma StepKeepsInv(s: State, st: Step)
    requires Inv(s) && Enabled(s, st)
    ensures Inv(Apply(s, st))
  {
    match st
    case Client(client) => ClientKeepsInv(s, client);
    case Grant(c) => GrantKeepsInv(s, c);
    case OfRequest(c, m) => RequestKeepsInv(s, c, m);
    case OfShutdown(c, m) => ShutdownKeepsInv(s, c, m);
  }

  lemma {:induction false} RunInv(ss: seq<State>, steps: seq<Step>, k: nat)
    requires IsRun(ss, steps) && k < |ss|
    ensures Inv(ss[k])
  {
    if k > 0 {
      RunInv(ss, steps, k - 1);
      StepKeepsInv(ss[k - 1], steps[k - 1]);
    }
  }

  // ------------------------------------------------------------ safety of runs

  /** One step admits nobody new once `stopping` is set, and never clears the flag. */
  ghost predicate AdmitsNobody(s: State, s': State) {
    && (s.stopping ==> s'.stopping)
    && (s.stopping ==> forall c | 0 <= c < |s'.calls| && Admitted(s'.calls[c].phase) ::
         c < |s.calls| && Admitted(s.calls[c].phase))
  }

  lemma ClientAdmitsNobody(s: State, st: ClientStep)
    requires ClientEnabled(s, st)
    ensures AdmitsNobody(s, ClientApply(s, st))
  {
  }

  lemma ShutdownAdmitsNobody(s: State, c: nat, m: ShutdownMove)
    requires ShutdownEnabled(s, c, m)
    ensures AdmitsNobody(s, ShutdownApply(s, c, m))
  {
  }

  lemma StoppingStep(s: State, st: Step)
    requires Enabled(s, st)
    ensures AdmitsNobody(s, Apply(s, st))
  {
    match st
    case Client(client) => ClientAdmitsNobody(s, client);
    case Grant(c) => assert AdmitsNobody(s, GrantApply(s, c));
    case OfRequest(c, m) => assert AdmitsNobody(s, RequestApply(s, c, m));
    case OfShutdown(c, m) => ShutdownAdmitsNobody(s, c, m);
  }

  /** Once `stopping` is set it stays set and the set of admitted requests never grows again. */
  lemma {:induction false} NoAdmissionAfterStopping(ss: seq<State>, steps: seq<Step>, i: nat, j: nat, c: nat)
    requires IsRun(ss, steps) && i <= j < |ss| && ss[i].stopping
    ensures ss[j].stopping
    ensures c < |ss[j].calls| && Admitted(ss[j].calls[c].phase) ==> c < |ss[i].calls| && Admitted(ss[i].calls[c].phase)
    decreases j
  {
    if i < j {
      NoAdmissionAfterStopping(ss, steps, i, j - 1, c);
      StoppingStep(ss[j - 1], steps[j - 1]);
    }
  }

  /** The number of successful closes never falls. */
  lemma {:induction false} ClosesGrow(ss: seq<State>, steps: seq<Step>, i: nat, j: nat)
    requires IsRun(ss, steps) && i <= j < |ss|
    ensures ss[i].closes <= ss[j].closes
    decreases j
  {
    if i < j {
      ClosesGrow(ss, steps, i, j - 1);
    }
  }

  /**
   The step that closes the store finds no request holding a read permit, and from then on
   no request is ever between its admission and its reply. The store is closed at most once,
   the drop of the last handle included.
   */
  lemma StoreClosedAlone(ss: seq<State>, steps: seq<Step>, k: nat, j: nat, c: nat)
    requires IsRun(ss, steps) && k < |steps| && k < j < |ss|
    requires ss[k].closes < ss[k + 1].closes
    ensures c < |ss[k].calls| ==> !HoldsRead(ss[k].calls[c].phase)
    ensures c < |ss[j].calls| ==> !ss[j].calls[c].phase.Passed? && !ss[j].calls[c].phase.Running?
    ensures ss[k].closes == 0 && ss[j].closes == 1
  {
    RunInv(ss, steps, k);
    RunInv(ss, steps, j);
    ClosesGrow(ss, steps, k + 1, j);
  }

  /** A shutdown, also one sent through `execute`, never holds a read permit. */
  lemma ShutdownHoldsNoReadPermit(ss: seq<State>, steps: seq<Step>, k: nat, c: nat)
    requires IsRun(ss, steps) && k < |ss| && c < |ss[k].calls| && ss[k].calls[c].kind.Shutdown?
    ensures c !in ss[k].readers
  {
    RunInv(ss, steps, k);
  }

  /** Whenever the write permit is free, closed, lock released and report stored agree. */
  lemma SettledWhenUnlocked(ss: seq<State>, steps: seq<Step>, k: nat)
    requires IsRun(ss, steps) && k < |ss| && ss[k].writer.None? && !ss[k].dropped
    ensures ss[k].closed <==> !ss[k].dirLockHeld
    ensures ss[k].closed <==> ss[k].report.Some?
    ensures ss[k].closed <==> ss[k].closes == 1
  {
    RunInv(ss, steps, k);
  }

  lemma StepKeepsReport(s: State, st: Step)
    requires Inv(s) && Enabled(s, st) && s.report.Some?
    ensures Apply(s, st).report == s.report
  {
    hide LockInv, KindInv, CallInv;
    if st.OfShutdown? && st.shutdown.Record? {
      HoldsItself(s, st.c);
    }
  }

  lemma HoldsItself(s: State, c: nat)
    requires LockInv(s) && c < |s.calls| && HoldsWrite(s.calls[c].phase)
    ensures s.writer == Some(c)
  {
  }

  /** A stored report is never replaced. */
  lemma {:induction false} ReportKept(ss: seq<State>, steps: seq<Step>, i: nat, j: nat)
    requires IsRun(ss, steps) && i <= j < |ss| && ss[i].report.Some?
    ensures ss[j].report == ss[i].report
    decreases j
  {
    hide Inv, Enabled, Apply, Init;
    if i < j {
      ReportKept(ss, steps, i, j - 1);
      RunInv(ss, steps, j - 1);
      StepKeepsReport(ss[j - 1], steps[j - 1]);
    }
  }

  /** All shutdown calls that ever succeed return one and the same report. */
  lemma OneReport(ss: seq<State>, steps: seq<Step>, i: nat, j: nat, a: nat, b: nat)
    requires IsRun(ss, steps) && i <= j < |ss|
    requires a < |ss[i].calls| && ss[i].calls[a].phase.Returned?
    requires b < |ss[j].calls| && ss[j].calls[b].phase.Returned?
    ensures ss[i].calls[a].phase.r == ss[j].calls[b].phase.r
  {
    RunInv(ss, steps, i);
    RunInv(ss, steps, j);
    ReportKept(ss, steps, i, j);
  }

  /**
   A failed close gives the write permit back with nothing marked, and any shutdown that gets
   the permit while the store is still open starts over instead of replaying an outcome.
   */
  lemma FailedCloseIsRetryable(ss: seq<State>, steps: seq<Step>, k: nat, j: nat, c: nat)
    requires IsRun(ss, steps) && k < j <= |steps|
    requires steps[k].OfShutdown? && steps[k].shutdown == Close(false)
    ensures ss[k + 1].writer.None? && !ss[k + 1].closed && ss[k + 1].dirLockHeld && ss[k + 1].report.None?
    ensures ss[k + 1].closes == 0
    ensures j < |steps| && steps[j] == OfShutdown(c, Examine) && ss[j].closes == 0 ==> ss[j + 1].calls[c].phase.Draining?
  {
    RunInv(ss, steps, k);
    RunInv(ss, steps, j);
  }

  // ------------------------------------------------------------------ progress

  /** Steps inside a caller's poll: a granted request looks at `stopping` and detaches, a shutdown detaches. */
  predicate OfCaller(st: Step) {
    (st.OfRequest? && !st.request.Finish?) || (st.OfShutdown? && st.shutdown.SpawnTask?)
  }

  /** Steps the engine takes by itself: no new call, no poll, no dropped future, no handle traffic. */
  predicate Internal(st: Step) { !st.Client? && !OfCaller(st) }

  function Rank(p: Phase): nat {
    match p
    case Announced => 10 case WaitWrite => 9 case Examining => 8 case Draining => 7 case Closing(_) => 6
    case StoreClosed(_) => 5 case Marked(_) => 4 case Unlocked(_) => 3 case Recorded(_) => 2
    case Queued => 4 case Checking => 3 case Passed => 2 case Running => 1
    case _ => 0
  }

  function Work(calls: seq<Call>): nat {
    if calls == [] then 0 else Rank(calls[0].phase) + Work(calls[1..])
  }

  lemma {:induction false} WorkAfterUpdate(calls: seq<Call>, c: nat, call: Call)
    requires c < |calls|
    ensures Work(calls[c := call]) == Work(calls) - Rank(calls[c].phase) + Rank(call.phase)
  {
    if c == 0 {
      assert calls[c := call][1..] == calls[1..];
    } else {
      WorkAfterUpdate(calls[1..], c - 1, call);
      assert calls[c := call][1..] == calls[1..][c - 1 := call];
    }
  }

  ghost predicate Moves(before: seq<Call>, c: nat, after: seq<Call>) {
    && c < |before| && |after| == |before| && after == before[c := after[c]]
    && Rank(after[c].phase) < Rank(before[c].phase)
  }

  lemma ToMoves(s: State, c: nat, p: Phase)
    requires c < |s.calls| && Rank(p) < Rank(s.calls[c].phase)
    ensures Moves(s.calls, c, To(s, c, p).calls)
  {
  }

  lemma ShutdownMoves(s: State, c: nat, m: ShutdownMove)
    requires ShutdownEnabled(s, c, m)
    ensures Moves(s.calls, c, ShutdownApply(s, c, m).calls)
  {
    hide Moves, To;
    var p := s.calls[c].phase;
    match m
    case SpawnTask => TaskMoves(s, c);
    case Examine => if s.report.Some? { ToMoves(s, c, Returned(s.report.value)); } else { ToMoves(s, c, Draining); }
    case Drain(abandoned, drained) => ToMoves(s, c, Closing(Report(true, abandoned, drained)));
    case Close(ok) => if ok { ToMoves(s, c, StoreClosed(p.r)); } else { ToMoves(s, c, Failed); }
    case Mark => ToMoves(s, c, Marked(p.r));
    case Unlock => ToMoves(s, c, Unlocked(p.r));
    case Record => ToMoves(s, c, Recorded(p.r));
    case Release => ToMoves(s, c, Returned(p.r));
  }

  lemma TaskMoves(s: State, c: nat)
    requires ShutdownEnabled(s, c, SpawnTask)
    ensures Moves(s.calls, c, ShutdownApply(s, c, SpawnTask).calls)
  {
  }

  /** Every step of the engine and every poll lowers the work left. */
  lemma StepLowersWork(s: State, st: Step)
    requires Enabled(s, st) && !st.Client?
    ensures Work(Apply(s, st).calls) < Work(s.calls)
  {
    match st {
      case Grant(c) => assert Moves(s.calls, c, GrantApply(s, c).calls);
      case OfRequest(c, m) => assert Moves(s.calls, c, RequestApply(s, c, m).calls);
      case OfShutdown(c, m) => ShutdownMoves(s, c, m);
    }
    WorkAfterUpdate(s.calls, st.c, Apply(s, st).calls[st.c]);
  }

  /** Some waiting call has the lowest ticket. */
  lemma {:induction false} LongestWaiting(calls: seq<Call>, n: nat) returns (c: nat)
    requires 0 < n <= |calls| && exists i | 0 <= i < n :: Waits(calls[i].phase)
    ensures c < n && Waits(calls[c].phase)
    ensures forall d | 0 <= d < n && Waits(calls[d].phase) :: calls[c].ticket <= calls[d].ticket
    decreases n
  {
    c := n - 1;
    if i :| 0 <= i < n - 1 && Waits(calls[i].phase) {
      var b := LongestWaiting(calls, n - 1);
      if !Waits(calls[c].phase) || calls[b].ticket < calls[c].ticket {
        c := b;
      }
    }
  }

  /** The lock would serve this call next. */
  ghost predicate IsNext(s: State, c: nat) {
    && c < |s.calls| && Waits(s.calls[c].phase)
    && forall d | 0 <= d < |s.calls| && Waits(s.calls[d].phase) :: s.calls[c].ticket <= s.calls[d].ticket
  }

  /**
   All that is left is for callers to move: every unfinished call is at its caller or waits for
   the lock, and where one waits, a shutdown is next and stands behind a request that was granted
   its permit and has been neither polled nor dropped.
   */
  ghost predicate LeftToCallers(s: State) {
    && (forall c | 0 <= c < |s.calls| :: Done(s.calls[c].phase) || AtCaller(s.calls[c].phase) || Waits(s.calls[c].phase))
    && (forall c: nat | IsNext(s, c) :: s.calls[c].phase.WaitWrite? && exists r :: 0 <= r < |s.calls| && Granted(s.calls[r].phase))
  }

  lemma OwnMove(s: State) returns (st: Step)
    requires Inv(s) && !s.dropped && !LeftToCallers(s)
    ensures Internal(st) && Enabled(s, st)
  {
    if c :| 0 <= c < |s.calls| && !(Done(s.calls[c].phase) || AtCaller(s.calls[c].phase) || Waits(s.calls[c].phase)) {
      match s.calls[c].phase
      case Running => st := OfRequest(c, Finish);
      case Examining => st := OfShutdown(c, Examine);
      case Draining => st := OfShutdown(c, Drain(0, true));
      case Closing(_) => st := OfShutdown(c, Close(true));
      case StoreClosed(_) => st := OfShutdown(c, Mark);
      case Marked(_) => st := OfShutdown(c, Unlock);
      case Unlocked(_) => st := OfShutdown(c, Record);
      case Recorded(_) => st := OfShutdown(c, Release);
    } else {
      var c: nat :| IsNext(s, c) && !(s.calls[c].phase.WaitWrite? && exists r :: 0 <= r < |s.calls| && Granted(s.calls[r].phase));
      assert s.writer.None?;
      assert s.calls[c].phase.WaitWrite? ==> s.readers == {};
      st := Grant(c);
    }
  }

  /** For every reachable state: the engine stops by itself exactly when all is left to the callers. */
  lemma StopsExactlyWhen(s: State)
    requires Inv(s) && !s.dropped
    ensures (forall st | Internal(st) :: !Enabled(s, st)) <==> LeftToCallers(s)
  {
    if !LeftToCallers(s) {
      var st := OwnMove(s);
      assert Internal(st) && Enabled(s, st);
    } else {
      forall st | Internal(st)
        ensures !Enabled(s, st)
      {
        NoOwnMove(s, st);
      }
    }
  }

  lemma NoOwnMove(s: State, st: Step)
    requires Inv(s) && LeftToCallers(s) && Internal(st)
    ensures !Enabled(s, st)
  {
    hide KindInv, CallInv, WriterInv;
    if st.Grant? && st.c < |s.calls| && IsNext(s, st.c) {
      var r :| 0 <= r < |s.calls| && Granted(s.calls[r].phase);
      assert r in s.readers;
    }
  }

  /** A caller can always clear what is left to it: polling is possible, and so is dropping a granted request. */
  lemma CallerCanMove(s: State, c: nat) returns (poll: Step)
    requires Inv(s) && !s.dropped && c < |s.calls| && AtCaller(s.calls[c].phase)
    ensures OfCaller(poll) && poll.c == c && Enabled(s, poll)
    ensures s.calls[c].phase.Checking? ==>
              var drop := Client(DropFuture(c));
              Enabled(s, drop) && c !in Apply(s, drop).readers && Done(Apply(s, drop).calls[c].phase)
  {
    match s.calls[c].phase
    case Checking => poll := OfRequest(c, Check);
    case Passed => poll := OfRequest(c, Spawn);
    case Announced => poll := OfShutdown(c, SpawnTask);
  }

  /** Where all is left to callers, whoever waits stands behind a granted request. */
  lemma StandsBehind(s: State, c: nat) returns (r: nat)
    requires LeftToCallers(s) && c < |s.calls| && Waits(s.calls[c].phase)
    ensures r < |s.calls| && Granted(s.calls[r].phase)
  {
    var next := LongestWaiting(s.calls, |s.calls|);
    assert IsNext(s, next);
    r :| 0 <= r < |s.calls| && Granted(s.calls[r].phase);
  }

  /** While a call is unfinished the engine can move by itself, or all is left to callers and one of them can. */
  lemma NeverStuck(s: State, c: nat) returns (st: Step)
    requires Inv(s) && !s.dropped && c < |s.calls| && !Done(s.calls[c].phase)
    ensures Enabled(s, st)
    ensures Internal(st) || (LeftToCallers(s) && OfCaller(st))
  {
    if !LeftToCallers(s) {
      st := OwnMove(s);
    } else if AtCaller(s.calls[c].phase) {
      st := CallerCanMove(s, c);
    } else {
      var r := StandsBehind(s, c);
      st := CallerCanMove(s, r);
    }
  }

  /**
   Left alone, the engine comes to rest: a stretch of its own steps and of polls is no longer
   than the work left at its start. It rests exactly when all is left to the callers; where no
   call is at its caller then, every request has been answered and every shutdown has returned
   or failed.
   */
  lemma {:induction false} EveryCallFinishes(ss: seq<State>, steps: seq<Step>, i: nat, j: nat)
    requires IsRun(ss, steps) && i <= j < |ss|
    requires forall k | i <= k < j :: !steps[k].Client?
    ensures j - i <= Work(ss[i].calls) - Work(ss[j].calls)
    ensures !ss[j].dropped ==> ((forall st | Internal(st) :: !Enabled(ss[j], st)) <==> LeftToCallers(ss[j]))
    ensures !ss[j].dropped && LeftToCallers(ss[j]) && (forall c | 0 <= c < |ss[j].calls| :: !AtCaller(ss[j].calls[c].phase)) ==>
              forall c | 0 <= c < |ss[j].calls| :: Done(ss[j].calls[c].phase)
    decreases j
  {
    RunInv(ss, steps, j);
    if i < j {
      EveryCallFinishes(ss, steps, i, j - 1);
      StepLowersWork(ss[j - 1], steps[j - 1]);
    }
    if !ss[j].dropped {
      StopsExactlyWhen(ss[j]);
      if LeftToCallers(ss[j]) && forall c | 0 <= c < |ss[j].calls| :: !AtCaller(ss[j].calls[c].phase) {
        AllDone(ss[j]);
      }
    }
  }

  lemma AllDone(s: State)
    requires LeftToCallers(s)
    requires forall c | 0 <= c < |s.calls| :: !AtCaller(s.calls[c].phase)
    ensures forall c | 0 <= c < |s.calls| :: Done(s.calls[c].phase)
  {
    forall c | 0 <= c < |s.calls|
      ensures Done(s.calls[c].phase)
    {
      if Waits(s.calls[c].phase) {
        var r := StandsBehind(s, c);
      }
    }
  }

  // ------------------------------------------------------- what callers are answered

  /** The report a shutdown carries once it has drained. */
  predicate Carries(p: Phase) {
    p.Closing? || p.StoreClosed? || p.Marked? || p.Unlocked? || p.Recorded? || p.Returned?
  }

  /** How one call may change in one step, whoever takes it. */
  ghost predicate CallStep(s: State, before: Call, after: Call) {
    && after.kind == before.kind
    && (Done(before.phase) ==> after.phase == before.phase)
    && (Admitted(before.phase) ==> Admitted(after.phase))
    && (after.phase.Rejected? && !before.phase.Rejected? ==> s.stopping)
    && (Carries(before.phase) ==> after.phase.Failed? || (Carries(after.phase) && after.phase.r == before.phase.r))
  }

  lemma ClientCallStep(s: State, st: ClientStep, c: nat)
    requires ClientEnabled(s, st) && c < |s.calls|
    ensures c < |ClientApply(s, st).calls| && CallStep(s, s.calls[c], ClientApply(s, st).calls[c])
  {
  }

  lemma ShutdownCallStep(s: State, d: nat, m: ShutdownMove, c: nat)
    requires ShutdownEnabled(s, d, m) && c < |s.calls|
    ensures c < |ShutdownApply(s, d, m).calls| && CallStep(s, s.calls[c], ShutdownApply(s, d, m).calls[c])
  {
    ShutdownMoves(s, d, m);
    if c == d {
      ShutdownOwnStep(s, d, m);
    }
    hide ShutdownApply;
  }

  lemma ToIs(s: State, c: nat, p: Phase)
    requires c < |s.calls|
    ensures |To(s, c, p).calls| == |s.calls| && To(s, c, p).calls[c] == s.calls[c].(phase := p)
  {
  }

  /** The phase a shutdown comes to, and the report it carries then. */
  lemma ShutdownOwnPhase(s: State, c: nat, m: ShutdownMove)
    requires ShutdownEnabled(s, c, m)
    ensures c < |ShutdownApply(s, c, m).calls|
    ensures var p, t := s.calls[c].phase, ShutdownApply(s, c, m).calls[c];
      && t.kind == s.calls[c].kind
      && match m
         case SpawnTask => t.phase.WaitWrite?
         case Examine => if s.report.Some? then t.phase == Returned(s.report.value) else t.phase.Draining?
         case Drain(a, d) => t.phase == Closing(Report(true, a, d))
         case Close(ok) => t.phase == if ok then StoreClosed(p.r) else Failed
         case Mark => t.phase == Marked(p.r)
         case Unlock => t.phase == Unlocked(p.r)
         case Record => t.phase == Recorded(p.r)
         case Release => t.phase == Returned(p.r)
  {
    var p := s.calls[c].phase;
    if m.SpawnTask? {
    } else {
      hide To;
      match m
      case Examine => if s.report.Some? { ToIs(s, c, Returned(s.report.value)); } else { ToIs(s, c, Draining); }
      case Drain(a, d) => ToIs(s, c, Closing(Report(true, a, d)));
      case Close(ok) => if ok { ToIs(s, c, StoreClosed(p.r)); } else { ToIs(s, c, Failed); }
      case Mark => ToIs(s, c, Marked(p.r));
      case Unlock => ToIs(s, c, Unlocked(p.r));
      case Record => ToIs(s, c, Recorded(p.r));
      case Release => ToIs(s, c, Returned(p.r));
    }
  }

  lemma ShutdownOwnStep(s: State, d: nat, m: ShutdownMove)
    requires ShutdownEnabled(s, d, m)
    ensures d < |ShutdownApply(s, d, m).calls| && CallStep(s, s.calls[d], ShutdownApply(s, d, m).calls[d])
  {
    ShutdownOwnPhase(s, d, m);
    hide ShutdownApply;
  }

  lemma StepIsCallStep(s: State, st: Step, c: nat)
    requires Enabled(s, st) && c < |s.calls|
    ensures c < |Apply(s, st).calls| && CallStep(s, s.calls[c], Apply(s, st).calls[c])
  {
    match st
    case Client(client) => ClientCallStep(s, client, c);
    case Grant(d) => assert CallStep(s, s.calls[c], GrantApply(s, d).calls[c]);
    case OfRequest(d, m) => assert CallStep(s, s.calls[c], RequestApply(s, d, m).calls[c]);
    case OfShutdown(d, m) => ShutdownCallStep(s, d, m, c);
  }

  /** A finished call keeps its answer, an admitted request stays admitted, and calls are not forgotten. */
  lemma {:induction false} AnswersStay(ss: seq<State>, steps: seq<Step>, i: nat, k: nat, c: nat)
    requires IsRun(ss, steps) && i <= k < |ss| && c < |ss[i].calls|
    ensures c < |ss[k].calls| && ss[k].calls[c].kind == ss[i].calls[c].kind
    ensures Done(ss[i].calls[c].phase) ==> ss[k].calls[c].phase == ss[i].calls[c].phase
    ensures Admitted(ss[i].calls[c].phase) ==> Admitted(ss[k].calls[c].phase)
    decreases k
  {
    hide Enabled, Apply, Init;
    if i < k {
      AnswersStay(ss, steps, i, k - 1, c);
      StepIsCallStep(ss[k - 1], steps[k - 1], c);
    }
  }

  /** A request that was queued is refused only when a shutdown has been asked for. */
  lemma {:induction false} RefusedOnlyWhenStopping(ss: seq<State>, steps: seq<Step>, i: nat, k: nat, c: nat)
    requires IsRun(ss, steps) && i <= k < |ss| && c < |ss[i].calls| && !ss[i].calls[c].phase.Rejected?
    ensures c < |ss[k].calls| && (ss[k].calls[c].phase.Rejected? ==> ss[k].stopping)
    decreases k
  {
    hide Enabled, Apply, Init;
    if i < k {
      RefusedOnlyWhenStopping(ss, steps, i, k - 1, c);
      StepIsCallStep(ss[k - 1], steps[k - 1], c);
      StoppingStep(ss[k - 1], steps[k - 1]);
    }
  }

  /** A request within the size bound is queued, one beyond it is refused for good. */
  lemma CallIsQueuedOrRefused(ss: seq<State>, steps: seq<Step>, i: nat, k: nat)
    requires IsRun(ss, steps) && i < k < |ss| && steps[i].Client? && steps[i].client.CallRequest?
    ensures var c := |ss[i].calls|;
      && c < |ss[i + 1].calls| && ss[i + 1].calls[c].kind.Request? && c < |ss[k].calls|
      && (steps[i].client.bounded ==> ss[i + 1].calls[c].phase.Queued?)
      && (!steps[i].client.bounded ==> ss[k].calls[c].phase.Rejected?)
  {
    AnswersStay(ss, steps, i + 1, k, |ss[i].calls|);
  }

  predicate AsksToStop(st: Step) { st.Client? && st.client.CallShutdown? }

  lemma StopsOnlyWhenAsked(s: State, st: Step)
    requires Enabled(s, st) && !s.stopping && !AsksToStop(st) && !Apply(s, st).dropped
    ensures !Apply(s, st).stopping
  {
  }

  lemma DropIsLast(s: State, st: Step)
    requires Enabled(s, st)
    ensures !s.dropped
  {
  }

  lemma {:induction false} NotAskedNotStopping(ss: seq<State>, steps: seq<Step>, k: nat)
    requires IsRun(ss, steps) && k < |ss| && !ss[k].dropped && forall j | 0 <= j < k :: !AsksToStop(steps[j])
    ensures !ss[k].stopping
  {
    if k > 0 {
      hide Enabled, Apply, Init, AsksToStop;
      DropIsLast(ss[k - 1], steps[k - 1]);
      NotAskedNotStopping(ss, steps, k - 1);
      StopsOnlyWhenAsked(ss[k - 1], steps[k - 1]);
    }
  }

  /** Where the engine rests and nothing is at a caller. */
  ghost predicate AllQuiet(s: State) {
    !s.dropped && LeftToCallers(s) && forall c | 0 <= c < |s.calls| :: !AtCaller(s.calls[c].phase)
  }

  /** Every admitted request is answered, also while the engine shuts down. */
  lemma AdmittedIsReplied(ss: seq<State>, steps: seq<Step>, i: nat, k: nat, c: nat)
    requires IsRun(ss, steps) && i <= k < |ss| && c < |ss[i].calls| && Admitted(ss[i].calls[c].phase) && AllQuiet(ss[k])
    ensures c < |ss[k].calls| && ss[k].calls[c].phase.Replied?
  {
    hide Enabled, Apply, Init;
    AnswersStay(ss, steps, i, k, c);
    AllDone(ss[k]);
  }

  /**
   In a run in which nobody asks to stop, every request that was queued is answered by the time
   all is quiet, unless its own caller dropped it.
   */
  lemma QueuedIsReplied(ss: seq<State>, steps: seq<Step>, i: nat, k: nat, c: nat)
    requires IsRun(ss, steps) && i <= k < |ss| && c < |ss[i].calls| && ss[i].calls[c].phase.Queued? && AllQuiet(ss[k])
    requires forall j | 0 <= j < k :: !AsksToStop(steps[j])
    ensures c < |ss[k].calls| && (ss[k].calls[c].phase.Replied? || (ss[k].calls[c].phase.Cancelled? && !ss[k].calls[c].attached))
  {
    hide Enabled, Apply, Init, AsksToStop, LockInv, WriterInv;
    AnswersStay(ss, steps, i, k, c);
    RefusedOnlyWhenStopping(ss, steps, i, k, c);
    NotAskedNotStopping(ss, steps, k);
    AllDone(ss[k]);
    RunInv(ss, steps, i);
    RunInv(ss, steps, k);
  }

  // ------------------------------------------------------------------ what is reported

  /** The shutdown `c` drained with these numbers before state `k`. */
  ghost predicate Drained(steps: seq<Step>, k: nat, c: nat, r: Report)
    requires k <= |steps|
  {
    r.storeClosed && exists i :: 0 <= i < k && steps[i] == OfShutdown(c, Drain(r.abandonedJobs, r.lifecycleDrained))
  }

  /** A shutdown that drained carries the numbers of its own drain until it ends. */
  lemma {:induction false} DrainIsCarried(ss: seq<State>, steps: seq<Step>, i: nat, k: nat, c: nat)
    requires IsRun(ss, steps) && i < k < |ss| && steps[i].OfShutdown? && steps[i].c == c && steps[i].shutdown.Drain?
    ensures c < |ss[k].calls|
    ensures ss[k].calls[c].phase.Failed? || (Carries(ss[k].calls[c].phase)
              && ss[k].calls[c].phase.r == Report(true, steps[i].shutdown.abandonedJobs, steps[i].shutdown.drained))
    decreases k
  {
    if k == i + 1 {
      assert Enabled(ss[i], steps[i]);
    } else {
      hide Enabled, Apply, Init;
      DrainIsCarried(ss, steps, i, k - 1, c);
      StepIsCallStep(ss[k - 1], steps[k - 1], c);
    }
  }

  lemma StoredFrom(s: State, st: Step)
    requires Enabled(s, st) && Apply(s, st).report != s.report
    ensures st.OfShutdown? && st.c < |s.calls| && Carries(s.calls[st.c].phase)
    ensures Apply(s, st).report == Some(s.calls[st.c].phase.r)
  {
  }

  lemma OwnReportFrom(s: State, c: nat, m: ShutdownMove)
    requires ShutdownEnabled(s, c, m) && c < |ShutdownApply(s, c, m).calls| && Carries(ShutdownApply(s, c, m).calls[c].phase)
    ensures var r := ShutdownApply(s, c, m).calls[c].phase.r;
      || (Carries(s.calls[c].phase) && s.calls[c].phase.r == r) || s.report == Some(r)
      || (m == Drain(r.abandonedJobs, r.lifecycleDrained) && r.storeClosed)
  {
    ShutdownOwnPhase(s, c, m);
    hide ShutdownApply;
  }

  lemma GrantCarries(s: State, d: nat, c: nat)
    requires GrantEnabled(s, d) && c < |GrantApply(s, d).calls| && Carries(GrantApply(s, d).calls[c].phase)
    ensures c < |s.calls| && Carries(s.calls[c].phase) && s.calls[c].phase.r == GrantApply(s, d).calls[c].phase.r
  {
  }

  lemma RequestCarries(s: State, d: nat, m: RequestMove, c: nat)
    requires RequestEnabled(s, d, m) && c < |RequestApply(s, d, m).calls| && Carries(RequestApply(s, d, m).calls[c].phase)
    ensures c < |s.calls| && Carries(s.calls[c].phase) && s.calls[c].phase.r == RequestApply(s, d, m).calls[c].phase.r
  {
  }

  /** A report that a call carries after a step was there before, or is that of its own drain. */
  lemma CarriedFrom(s: State, st: Step, c: nat)
    requires Enabled(s, st) && c < |Apply(s, st).calls| && Carries(Apply(s, st).calls[c].phase)
    ensures var r := Apply(s, st).calls[c].phase.r;
      || (c < |s.calls| && Carries(s.calls[c].phase) && s.calls[c].phase.r == r) || s.report == Some(r)
      || (st == OfShutdown(c, Drain(r.abandonedJobs, r.lifecycleDrained)) && r.storeClosed)
  {
    hide ClientApply, ClientEnabled, GrantApply, GrantEnabled, RequestApply, RequestEnabled, ShutdownApply, ShutdownEnabled;
    match st
    case Client(client) => ClientCarries(s, client, c);
    case Grant(d) => GrantCarries(s, d, c);
    case OfRequest(d, m) => RequestCarries(s, d, m, c);
    case OfShutdown(d, m) => ShutdownCarries(s, d, m, c);
  }

  lemma ShutdownCarries(s: State, d: nat, m: ShutdownMove, c: nat)
    requires ShutdownEnabled(s, d, m) && c < |ShutdownApply(s, d, m).calls| && Carries(ShutdownApply(s, d, m).calls[c].phase)
    ensures var r := ShutdownApply(s, d, m).calls[c].phase.r;
      || (c < |s.calls| && Carries(s.calls[c].phase) && s.calls[c].phase.r == r) || s.report == Some(r)
      || (c == d && m == Drain(r.abandonedJobs, r.lifecycleDrained) && r.storeClosed)
  {
    hide ShutdownApply;
    ShutdownMoves(s, d, m);
    if c == d {
      OwnReportFrom(s, c, m);
    }
  }

  lemma ClientCarries(s: State, st: ClientStep, c: nat)
    requires ClientEnabled(s, st) && c < |ClientApply(s, st).calls| && Carries(ClientApply(s, st).calls[c].phase)
    ensures c < |s.calls| && Carries(s.calls[c].phase) && s.calls[c].phase.r == ClientApply(s, st).calls[c].phase.r
  {
  }

  ghost predicate SomeDrain(steps: seq<Step>, k: nat, r: Report)
    requires k <= |steps|
  {
    exists c: nat :: Drained(steps, k, c, r)
  }

  lemma DrainsGrow(steps: seq<Step>, k: nat, r: Report)
    requires 0 < k <= |steps|
    ensures SomeDrain(steps, k - 1, r) ==> SomeDrain(steps, k, r)
    ensures r.storeClosed && steps[k - 1].OfShutdown? && steps[k - 1].shutdown == Drain(r.abandonedJobs, r.lifecycleDrained) ==>
              SomeDrain(steps, k, r)
  {
    if SomeDrain(steps, k - 1, r) {
      var c: nat :| Drained(steps, k - 1, c, r);
      assert Drained(steps, k, c, r);
    }
    if r.storeClosed && steps[k - 1].OfShutdown? && steps[k - 1].shutdown == Drain(r.abandonedJobs, r.lifecycleDrained) {
      assert Drained(steps, k, steps[k - 1].c, r);
    }
  }

  /** Every report, stored or carried, has the numbers of a drain of the run. */
  lemma {:induction false} ReportsAreDrained(ss: seq<State>, steps: seq<Step>, k: nat)
    requires IsRun(ss, steps) && k < |ss|
    ensures ss[k].report.Some? ==> SomeDrain(steps, k, ss[k].report.value)
    ensures forall c | 0 <= c < |ss[k].calls| && Carries(ss[k].calls[c].phase) :: SomeDrain(steps, k, ss[k].calls[c].phase.r)
  {
    if k > 0 {
      hide Apply, Enabled, SomeDrain, Init;
      ReportsAreDrained(ss, steps, k - 1);
      var s, st, t := ss[k - 1], steps[k - 1], ss[k];
      forall c | 0 <= c < |t.calls| && Carries(t.calls[c].phase)
        ensures SomeDrain(steps, k, t.calls[c].phase.r)
      {
        CarriedFrom(s, st, c);
        DrainsGrow(steps, k, t.calls[c].phase.r);
      }
      if t.report.Some? {
        DrainsGrow(steps, k, t.report.value);
        if t.report != s.report {
          StoredFrom(s, st);
        }
      }
    }
  }

  /** What a shutdown returns: that the store is closed, with the numbers of a drain of this run. */
  lemma ReturnsADrain(ss: seq<State>, steps: seq<Step>, k: nat, c: nat)
    requires IsRun(ss, steps) && k < |ss| && c < |ss[k].calls| && ss[k].calls[c].phase.Returned?
    ensures SomeDrain(steps, k, ss[k].calls[c].phase.r)
  {
    ReportsAreDrained(ss, steps, k);
  }

  /** The drop of the last handle releases the directory lock, and closes the store if no shutdown had. */
  lemma DropCloses(ss: seq<State>, steps: seq<Step>, k: nat)
    requires IsRun(ss, steps) && k < |steps| && steps[k].Client? && steps[k].client.DropEngine?
    ensures ss[k + 1].dropped && !ss[k + 1].dirLockHeld
    ensures ss[k + 1].closes == 1 <==> ss[k].closed || steps[k].client.ok
  {
    RunInv(ss, steps, k);
    assert ss[k].writer.None?;
  }
}
