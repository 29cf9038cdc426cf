/**
 The owner credential broker (crates/daemon/src/credential.rs).

 The broker's map, its outcome cells, the loopback page tasks and the native prompt tasks are
 one state; every locked section, every delivery into the PTY and every settlement of a cell is
 one step, so any interleaving of any number of jobs and calls is a run. The PTY is abstract: a
 prompt generation that grows each time a secret prompt is armed, and a flag that says whether
 it is still awaited. A delivery succeeds only at the awaited generation and disarms it.
 */
module Credential {
  import opened Common

  datatype Status = Provided | Declined | Timeout | NotAwaiting | OwnerActionRequired

  datatype Pty = Pty(live: bool, gen: nat, awaiting: bool)

  /** A page task: `Unopened` has dropped its listener, `FallingBack` is about to ask natively. */
  datatype Page = NoPage | Serving | Answered(ok: bool) | Expired | Unopened | FallingBack | PageDone

  datatype Native = Idle | Asking | Resolved(status: Status) | NativeDone

  /** One shared outcome with the page and the prompt that may settle it. */
  datatype Cell = Cell(job: nat, gen: nat, status: Option<Status>, page: Page, accepted: bool, visited: bool, native: Native)

  datatype Ask = Ask(gen: nat, cell: nat, page: bool)

  /** What a broker call read from the PTY before it locked the map. */
  datatype Snap = Snap(gen: nat, awaiting: bool)

  datatype State = State(
    nativePrompts: bool,
    jobs: map<nat, Pty>,
    asked: map<nat, Ask>,
    cells: seq<Cell>,
    records: set<(nat, nat)>,    // CLI deliveries not yet recorded
    started: seq<(nat, nat)>,    // native prompts opened, as (job, generation)
    delivered: seq<(nat, nat)>   // passwords typed into a PTY, as (job, generation)
  )

  datatype PtyMove = Start | Arm | Disarm | Exit
  datatype BrokerMove = Request | Open(bound: bool) | Decline | Accepted | Abandon
  datatype CliMove = Deliver(pin: Option<nat>) | Record(gen: nat)
  datatype PageMove = Get | Post(ok: bool) | SettlePost | Expire | Forget | Stop | CloseUnopened | FallBack | SpawnNative
  datatype NativeMove = Secret(ok: bool) | Refuse | Unavailable | SettleNative

  datatype Step =
    | OfPty(j: nat, pty: PtyMove)
    | OfBroker(j: nat, snap: Snap, broker: BrokerMove)
    | OfCli(j: nat, cli: CliMove)
    | OfPage(c: nat, page: PageMove)
    | OfNative(c: nat, native: NativeMove)

  predicate Live(s: State, j: nat) { j in s.jobs && s.jobs[j].live }

  /** `deliver_credential`: the PTY takes a password only at the generation it awaits. */
  predicate CanDeliver(s: State, j: nat, g: nat) {
    Live(s, j) && s.jobs[j].awaiting && s.jobs[j].gen == g
  }

  function Delivered(s: State, j: nat, g: nat): State
    requires CanDeliver(s, j, g)
  {
    s.(jobs := s.jobs[j := s.jobs[j].(awaiting := false)], delivered := s.delivered + [(j, g)])
  }

  function Put(s: State, c: nat, cell: Cell): State
    requires c < |s.cells|
  {
    s.(cells := s.cells[c := cell])
  }

  /** First outcome wins. */
  function Settled(cell: Cell, status: Status): Cell {
    if cell.status.None? then cell.(status := Some(status)) else cell
  }

  function Prune(s: State): State {
    s.(asked := map j | j in s.asked && Live(s, j) :: s.asked[j])
  }

  predicate Current(s: State, j: nat, g: nat) { j in s.asked && s.asked[j].gen == g }

  function Insert(s: State, j: nat, cell: Cell, page: bool): State {
    s.(asked := s.asked[j := Ask(cell.gen, |s.cells|, page)], cells := s.cells + [cell])
  }

  predicate PtyEnabled(s: State, j: nat, m: PtyMove) {
    match m
    case Start => j !in s.jobs
    case Arm => Live(s, j) && !s.jobs[j].awaiting
    case Disarm => Live(s, j) && s.jobs[j].awaiting
    case Exit => Live(s, j)
  }

  function PtyApply(s: State, j: nat, m: PtyMove): State
    requires PtyEnabled(s, j, m)
  {
    match m
    case Start => s.(jobs := s.jobs[j := Pty(true, 0, false)])
    case Arm => s.(jobs := s.jobs[j := Pty(true, s.jobs[j].gen + 1, true)])
    case Disarm => s.(jobs := s.jobs[j := s.jobs[j].(awaiting := false)])
    case Exit => s.(jobs := s.jobs[j := s.jobs[j].(live := false)])
  }

  /** `request` from its lock on, with the snapshot it took before. */
  function RequestApply(s0: State, j: nat, snap: Snap): State {
    var s := Prune(s0);
    if Current(s, j, snap.gen) || !snap.awaiting then s
    else if s.nativePrompts then
      Insert(s, j, Cell(j, snap.gen, None, NoPage, false, false, Asking), false).(started := s.started + [(j, snap.gen)])
    else
      Insert(s, j, Cell(j, snap.gen, Some(OwnerActionRequired), NoPage, false, false, Idle), false)
  }

  function OpenApply(s0: State, j: nat, snap: Snap, bound: bool): State {
    var s := Prune(s0);
    if Current(s, j, snap.gen) || !snap.awaiting || !bound then s
    else Insert(s, j, Cell(j, snap.gen, None, Serving, false, false, Idle), true)
  }

  /** `Declined`, `Accepted` and `Abandon` act only on the page of the current prompt. */
  function PageOpApply(s0: State, j: nat, snap: Snap, m: BrokerMove): State
    requires forall k | k in s0.asked :: s0.asked[k].cell < |s0.cells|
  {
    var s := Prune(s0);
    if !Current(s, j, snap.gen) || !s.asked[j].page then s else
    var c := s.asked[j].cell;
    match m
    case Decline => Put(s, c, Settled(s.cells[c], Declined))
    case Accepted => Put(s, c, s.cells[c].(accepted := true))
    case Abandon =>
      if s.cells[c].status.Some? then s
      else Put(s, c, Settled(s.cells[c], NotAwaiting)).(asked := s.asked - {j})
    case _ => s
  }

  predicate BrokerEnabled(s: State, j: nat) {
    j in s.jobs && forall k | k in s.asked :: s.asked[k].cell < |s.cells|
  }

  function BrokerApply(s: State, j: nat, snap: Snap, m: BrokerMove): State
    requires BrokerEnabled(s, j)
  {
    match m
    case Request => RequestApply(s, j, snap)
    case Open(bound) => OpenApply(s, j, snap, bound)
    case _ => PageOpApply(s, j, snap, m)
  }

  predicate CliEnabled(s: State, j: nat, m: CliMove) {
    match m
    case Deliver(pin) => j in s.jobs && CanDeliver(s, j, s.jobs[j].gen) && (pin.Some? ==> pin.value == s.jobs[j].gen)
    case Record(g) => (j, g) in s.records && (j in s.asked ==> s.asked[j].cell < |s.cells|)
  }

  function CliApply(s: State, j: nat, m: CliMove): State
    requires CliEnabled(s, j, m)
  {
    match m
    case Deliver(_) => Delivered(s, j, s.jobs[j].gen).(records := s.records + {(j, s.jobs[j].gen)})
    case Record(g) =>
      var s' := s.(records := s.records - {(j, g)});
      if Current(s, j, g)
      then Put(s', s.asked[j].cell, s.cells[s.asked[j].cell].(status := Some(Provided)))
      else Insert(s', j, Cell(j, g, Some(Provided), NoPage, false, false, Idle), false)
  }

  predicate PageEnabled(s: State, c: nat, m: PageMove) {
    && c < |s.cells|
    && var cell := s.cells[c];
       match m
       case Get => cell.page.Serving?
       case Post(ok) => cell.page.Serving? && (ok ==> CanDeliver(s, cell.job, cell.gen))
       case SettlePost => cell.page.Answered?
       case Expire => cell.page.Serving?
       case Forget => cell.page.Expired?
       case Stop => cell.page.Serving? && cell.status.Some?
       case CloseUnopened => cell.page.Serving? && cell.accepted && !cell.visited
       case FallBack => cell.page.Unopened?
       case SpawnNative => cell.page.FallingBack?
  }

  function PageApply(s: State, c: nat, m: PageMove): State
    requires PageEnabled(s, c, m)
  {
    var cell := s.cells[c];
    match m
    case Get => Put(s, c, cell.(visited := true))
    case Post(ok) =>
      Put(if ok then Delivered(s, cell.job, cell.gen) else s, c, cell.(page := Answered(ok), visited := true))
    case SettlePost => Put(s, c, Settled(cell, if cell.page.ok then Provided else NotAwaiting).(page := PageDone))
    case Expire => Put(s, c, Settled(cell, Timeout).(page := Expired))
    case Forget =>
      Put(if cell.job in s.asked && s.asked[cell.job].cell == c then s.(asked := s.asked - {cell.job}) else s,
          c, cell.(page := PageDone))
    case Stop => Put(s, c, cell.(page := PageDone))
    case CloseUnopened => Put(s, c, cell.(page := Unopened))
    case FallBack =>
      if cell.job in s.asked && s.asked[cell.job].cell == c && cell.status.None?
      then Put(s.(asked := s.asked[cell.job := s.asked[cell.job].(page := false)]), c, cell.(page := FallingBack))
      else Put(s, c, cell.(page := PageDone))
    case SpawnNative =>
      if s.nativePrompts
      then Put(s.(started := s.started + [(cell.job, cell.gen)]), c, cell.(page := PageDone, native := Asking))
      else Put(s, c, Settled(cell, OwnerActionRequired).(page := PageDone))
  }

  predicate NativeEnabled(s: State, c: nat, m: NativeMove) {
    && c < |s.cells|
    && var cell := s.cells[c];
       match m
       case Secret(ok) => cell.native.Asking? && (ok ==> CanDeliver(s, cell.job, cell.gen))
       case Refuse => cell.native.Asking?
       case Unavailable => cell.native.Asking?
       case SettleNative => cell.native.Resolved?
  }

  function NativeApply(s: State, c: nat, m: NativeMove): State
    requires NativeEnabled(s, c, m)
  {
    var cell := s.cells[c];
    match m
    case Secret(ok) =>
      Put(if ok then Delivered(s, cell.job, cell.gen) else s, c,
          cell.(native := Resolved(if ok then Provided else NotAwaiting)))
    case Refuse => Put(s, c, cell.(native := Resolved(Declined)))
    case Unavailable => Put(s, c, cell.(native := Resolved(OwnerActionRequired)))
    case SettleNative => Put(s, c, Settled(cell, cell.native.status).(native := NativeDone))
  }

  predicate Enabled(s: State, st: Step) {
    match st
    case OfPty(j, m) => PtyEnabled(s, j, m)
    case OfBroker(j, _, _) => BrokerEnabled(s, j)
    case OfCli(j, m) => CliEnabled(s, j, m)
    case OfPage(c, m) => PageEnabled(s, c, m)
    case OfNative(c, m) => NativeEnabled(s, c, m)
  }

  function Apply(s: State, st: Step): State
    requires Enabled(s, st)
  {
    match st
    case OfPty(j, m) => PtyApply(s, j, m)
    case OfBroker(j, snap, m) => BrokerApply(s, j, snap, m)
    case OfCli(j, m) => CliApply(s, j, m)
    case OfPage(c, m) => PageApply(s, c, m)
    case OfNative(c, m) => NativeApply(s, c, m)
  }

  function Init(nativePrompts: bool): State { State(nativePrompts, map[], map[], [], {}, [], []) }

  /** The snapshot a call commits was true of a live job at some earlier moment. */
  ghost predicate TakenIn(s: State, j: nat, snap: Snap) {
    Live(s, j) && snap == Snap(s.jobs[j].gen, s.jobs[j].awaiting)
  }

  ghost predicate IsRun(ss: seq<State>, steps: seq<Step>) {
    && |ss| == |steps| + 1
    && ss[0] == Init(ss[0].nativePrompts)
    && (forall k | 0 <= k < |steps| :: Enabled(ss[k], steps[k]) && ss[k + 1] == Apply(ss[k], steps[k]))
    && (forall k | 0 <= k < |steps| && steps[k].OfBroker? ::
         exists i | 0 <= i <= k :: TakenIn(ss[i], steps[k].j, steps[k].snap))
  }

  lemma RunStart(ss: seq<State>, steps: seq<Step>)
    requires IsRun(ss, steps)
    ensures |ss| == |steps| + 1 && ss[0] == Init(ss[0].nativePrompts)
  {
  }

  lemma RunStep(ss: seq<State>, steps: seq<Step>, k: nat)
    requires IsRun(ss, steps) && k < |steps|
    ensures |ss| == |steps| + 1 && Enabled(ss[k], steps[k]) && ss[k + 1] == Apply(ss[k], steps[k])
  {
  }

  // ------------------------------------------------- what every run keeps

  predicate PageOpen(p: Page) { p.Serving? || p.Answered? || p.Expired? }

  ghost predicate CellInv(s: State, cell: Cell) {
    && (PageOpen(cell.page) || cell.page.Unopened? || cell.page.FallingBack? ==> cell.native.Idle?)
    && (cell.page == Answered(true) ==> (cell.job, cell.gen) in s.delivered)
    && (cell.native == Resolved(Provided) ==> (cell.job, cell.gen) in s.delivered)
    && (cell.status == Some(Provided) ==> (cell.job, cell.gen) in s.delivered)
  }

  /** An entry's cell is about the entry's job and generation. */
  ghost predicate EntryInv(s: State, j: nat)
    requires j in s.asked
  {
    && s.asked[j].cell < |s.cells|
    && s.cells[s.asked[j].cell].job == j && s.cells[s.asked[j].cell].gen == s.asked[j].gen
  }

  ghost predicate Inv(s: State) {
    && (forall c | 0 <= c < |s.cells| :: CellInv(s, s.cells[c]))
    && (forall j | j in s.asked :: EntryInv(s, j))
    && (forall r | r in s.records :: r in s.delivered)
    && (forall d | d in s.delivered ::
         d.0 in s.jobs && (d.1 < s.jobs[d.0].gen || (d.1 == s.jobs[d.0].gen && !s.jobs[d.0].awaiting)))
    && (forall a, b | 0 <= a < b < |s.delivered| :: s.delivered[a] != s.delivered[b])
  }

  lemma PutKeepsInv(s: State, c: nat, cell: Cell)
    requires Inv(s) && c < |s.cells| && CellInv(s, cell)
    requires cell.job == s.cells[c].job && cell.gen == s.cells[c].gen
    ensures Inv(Put(s, c, cell))
  {
  }

  lemma InsertKeepsInv(s: State, j: nat, cell: Cell, page: bool)
    requires Inv(s) && cell.job == j && CellInv(s, cell)
    ensures Inv(Insert(s, j, cell, page))
  {
  }

  lemma DeliveredKeepsInv(s: State, j: nat, g: nat)
    requires Inv(s) && CanDeliver(s, j, g)
    ensures Inv(Delivered(s, j, g))
    ensures forall d | d in s.delivered :: d in Delivered(s, j, g).delivered
    ensures (j, g) in Delivered(s, j, g).delivered
  {
    assert Delivered(s, j, g).delivered[|s.delivered|] == (j, g);
  }

  /** Dropping entries, or a page mark, from the map is harmless. */
  lemma AskedKeepsInv(s: State, asked: map<nat, Ask>)
    requires Inv(s)
    requires forall j | j in asked :: j in s.asked && asked[j].cell == s.asked[j].cell && asked[j].gen == s.asked[j].gen
    ensures Inv(s.(asked := asked))
  {
  }

  lemma PtyKeepsInv(s: State, j: nat, m: PtyMove)
    requires Inv(s) && PtyEnabled(s, j, m)
    ensures Inv(PtyApply(s, j, m))
  {
  }

  lemma RequestKeepsInv(s: State, j: nat, snap: Snap)
    requires Inv(s)
    ensures Inv(RequestApply(s, j, snap))
  {
    var p, s' := Prune(s), RequestApply(s, j, snap);
    AskedKeepsInv(s, p.asked);
    if s' != p {
      InsertKeepsInv(p, j, s'.cells[|p.cells|], false);
    }
  }

  lemma OpenKeepsInv(s: State, j: nat, snap: Snap, bound: bool)
    requires Inv(s)
    ensures Inv(OpenApply(s, j, snap, bound))
  {
    var p, s' := Prune(s), OpenApply(s, j, snap, bound);
    AskedKeepsInv(s, p.asked);
    if s' != p {
      InsertKeepsInv(p, j, s'.cells[|p.cells|], true);
    }
  }

  lemma PageOpKeepsInv(s: State, j: nat, snap: Snap, m: BrokerMove)
    requires Inv(s)
    ensures Inv(PageOpApply(s, j, snap, m))
  {
    var p, s' := Prune(s), PageOpApply(s, j, snap, m);
    AskedKeepsInv(s, p.asked);
    if s' != p {
      var c := p.asked[j].cell;
      PutKeepsInv(p, c, s'.cells[c]);
      AskedKeepsInv(Put(p, c, s'.cells[c]), s'.asked);
    }
  }

  lemma BrokerKeepsInv(s: State, j: nat, snap: Snap, m: BrokerMove)
    requires Inv(s) && BrokerEnabled(s, j)
    ensures Inv(BrokerApply(s, j, snap, m))
  {
    match m
    case Request => RequestKeepsInv(s, j, snap);
    case Open(bound) => OpenKeepsInv(s, j, snap, bound);
    case _ => PageOpKeepsInv(s, j, snap, m);
  }

  lemma CliKeepsInv(s: State, j: nat, m: CliMove)
    requires Inv(s) && CliEnabled(s, j, m)
    ensures Inv(CliApply(s, j, m))
  {
    match m
    case Deliver(_) => DeliveredKeepsInv(s, j, s.jobs[j].gen);
    case Record(g) =>
      var s' := s.(records := s.records - {(j, g)});
      if Current(s, j, g) {
        PutKeepsInv(s', s.asked[j].cell, s.cells[s.asked[j].cell].(status := Some(Provided)));
      } else {
        InsertKeepsInv(s', j, Cell(j, g, Some(Provided), NoPage, false, false, Idle), false);
      }
  }

  lemma StartedKeepsInv(s: State, started: seq<(nat, nat)>)
    requires Inv(s)
    ensures Inv(s.(started := started))
  {
  }

  lemma CellOf(s: State, c: nat)
    requires Inv(s) && c < |s.cells|
    ensures CellInv(s, s.cells[c])
  {
  }

  lemma PageKeepsInv(s: State, c: nat, m: PageMove)
    requires Inv(s) && PageEnabled(s, c, m)
    ensures Inv(PageApply(s, c, m))
  {
    hide Inv;
    CellOf(s, c);
    var cell := s.cells[c];
    var s' := PageApply(s, c, m);
    match m {
      case Post(ok) =>
        if ok {
          DeliveredKeepsInv(s, cell.job, cell.gen);
          PutKeepsInv(Delivered(s, cell.job, cell.gen), c, s'.cells[c]);
        } else {
          PutKeepsInv(s, c, s'.cells[c]);
        }
      case Forget =>
        AskedKeepsInv(s, s'.asked);
        PutKeepsInv(s.(asked := s'.asked), c, s'.cells[c]);
      case FallBack =>
        AskedKeepsInv(s, s'.asked);
        PutKeepsInv(s.(asked := s'.asked), c, s'.cells[c]);
      case SpawnNative =>
        StartedKeepsInv(s, s'.started);
        PutKeepsInv(s.(started := s'.started), c, s'.cells[c]);
      case _ => PutKeepsInv(s, c, s'.cells[c]);
    }
  }

  lemma NativeKeepsInv(s: State, c: nat, m: NativeMove)
    requires Inv(s) && NativeEnabled(s, c, m)
    ensures Inv(NativeApply(s, c, m))
  {
    var cell := s.cells[c];
    var s' := NativeApply(s, c, m);
    if m == Secret(true) {
      DeliveredKeepsInv(s, cell.job, cell.gen);
      PutKeepsInv(Delivered(s, cell.job, cell.gen), c, s'.cells[c]);
    } else {
      PutKeepsInv(s, c, s'.cells[c]);
    }
  }

  lemma StepKeepsInv(s: State, st: Step)
    requires Inv(s) && Enabled(s, st)
    ensures Inv(Apply(s, st))
  {
    match st
    case OfPty(j, m) => PtyKeepsInv(s, j, m);
    case OfBroker(j, snap, m) => BrokerKeepsInv(s, j, snap, m);
    case OfCli(j, m) => CliKeepsInv(s, j, m);
    case OfPage(c, m) => PageKeepsInv(s, c, m);
    case OfNative(c, m) => NativeKeepsInv(s, c, m);
  }

  lemma {:induction false} RunInv(ss: seq<State>, steps: seq<Step>, k: nat)
    requires IsRun(ss, steps) && k < |ss|
    ensures Inv(ss[k])
  {
    RunStart(ss, steps);
    if k > 0 {
      RunStep(ss, steps, k - 1);
      RunInv(ss, steps, k - 1);
      StepKeepsInv(ss[k - 1], steps[k - 1]);
    }
  }

  /** An outcome may be set once; after that only a recorded CLI answer may change it, to Provided. */
  predicate StatusStep(before: Option<Status>, after: Option<Status>) {
    before.None? || after == before || after == Some(Provided)
  }

  lemma BrokerKeepsOutcomes(s: State, j: nat, snap: Snap, m: BrokerMove, c: nat)
    requires BrokerEnabled(s, j) && c < |s.cells|
    ensures c < |BrokerApply(s, j, snap, m).cells|
    ensures StatusStep(s.cells[c].status, BrokerApply(s, j, snap, m).cells[c].status)
  {
  }

  lemma PageKeepsOutcomes(s: State, d: nat, m: PageMove, c: nat)
    requires PageEnabled(s, d, m) && c < |s.cells|
    ensures c < |PageApply(s, d, m).cells|
    ensures StatusStep(s.cells[c].status, PageApply(s, d, m).cells[c].status)
  {
  }

  lemma StepKeepsOutcomes(s: State, st: Step, c: nat)
    requires Inv(s) && Enabled(s, st) && c < |s.cells|
    ensures c < |Apply(s, st).cells|
    ensures StatusStep(s.cells[c].status, Apply(s, st).cells[c].status)
  {
    match st
    case OfBroker(j, snap, m) => BrokerKeepsOutcomes(s, j, snap, m, c);
    case OfPage(d, m) => PageKeepsOutcomes(s, d, m, c);
    case _ =>
  }

  /**
   Over every run a cell goes from unset to one status and from there only to Provided, which
   is final.
   */
  lemma {:induction false} OutcomeIsFinal(ss: seq<State>, steps: seq<Step>, i: nat, k: nat, c: nat)
    requires IsRun(ss, steps) && i <= k < |ss| && c < |ss[i].cells|
    ensures c < |ss[k].cells| && StatusStep(ss[i].cells[c].status, ss[k].cells[c].status)
    ensures ss[i].cells[c].status == Some(Provided) ==> ss[k].cells[c].status == Some(Provided)
    decreases k
  {
    hide Apply, Enabled, Inv, Init, IsRun;
    RunStart(ss, steps);
    if i < k {
      RunStep(ss, steps, k - 1);
      OutcomeIsFinal(ss, steps, i, k - 1, c);
      RunInv(ss, steps, k - 1);
      StepKeepsOutcomes(ss[k - 1], steps[k - 1], c);
    }
  }

  /**
   In every state of every run: an outcome says Provided only if a password was typed at exactly
   the cell's job and generation; no cell has an open page and a native prompt at once; and no
   prompt generation is ever answered twice.
   */
  lemma AnswersAreSound(ss: seq<State>, steps: seq<Step>, k: nat, c: nat)
    requires IsRun(ss, steps) && k < |ss| && c < |ss[k].cells|
    ensures ss[k].cells[c].status == Some(Provided) ==> (ss[k].cells[c].job, ss[k].cells[c].gen) in ss[k].delivered
    ensures PageOpen(ss[k].cells[c].page) ==> ss[k].cells[c].native.Idle?
    ensures forall a, b | 0 <= a < b < |ss[k].delivered| :: ss[k].delivered[a] != ss[k].delivered[b]
  {
    RunInv(ss, steps, k);
  }

  // ------------------------------------------- one native prompt per generation

  /**
   The two races the code leaves open are closed: a broker call commits the prompt that is
   current when it locks the map, and a CLI answer is recorded while its prompt is current.
   */
  ghost predicate Fresh(s: State, st: Step) {
    match st
    case OfBroker(j, snap, _) => TakenIn(s, j, snap)
    case OfCli(j, Record(g)) => j in s.jobs && s.jobs[j].gen == g
    case _ => true
  }

  ghost predicate IsFreshRun(ss: seq<State>, steps: seq<Step>) {
    IsRun(ss, steps) && forall k | 0 <= k < |steps| :: Fresh(ss[k], steps[k])
  }

  /** No later fresh call can ask natively about (j, g) again. */
  ghost predicate Spent(s: State, j: nat, g: nat) {
    && j in s.jobs
    && (|| g < s.jobs[j].gen
        || (g == s.jobs[j].gen && !s.jobs[j].live)
        || (g == s.jobs[j].gen && Current(s, j, g) && !s.asked[j].page))
  }

  predicate Falls(cell: Cell, j: nat, g: nat) { cell.page.FallingBack? && cell.job == j && cell.gen == g }

  ghost predicate StartedInv(s: State) {
    && (forall p | p in s.started :: Spent(s, p.0, p.1))
    && (forall a, b | 0 <= a < b < |s.started| :: s.started[a] != s.started[b])
  }

  ghost predicate FallingInv(s: State) {
    && (forall c | 0 <= c < |s.cells| && s.cells[c].page.FallingBack? ::
         && Spent(s, s.cells[c].job, s.cells[c].gen)
         && (s.cells[c].job, s.cells[c].gen) !in s.started)
    && (forall c, d | 0 <= c < d < |s.cells| && s.cells[c].page.FallingBack? ::
         !Falls(s.cells[d], s.cells[c].job, s.cells[c].gen))
  }

  ghost predicate AskedInv(s: State)
    requires forall j | j in s.asked :: s.asked[j].cell < |s.cells|
  {
    forall j | j in s.asked ::
      && j in s.jobs && s.asked[j].gen <= s.jobs[j].gen
      && (PageOpen(s.cells[s.asked[j].cell].page) || s.cells[s.asked[j].cell].page.Unopened? ==> s.asked[j].page)
      && (s.asked[j].page ==>
            && (j, s.asked[j].gen) !in s.started
            && forall c | 0 <= c < |s.cells| :: !Falls(s.cells[c], j, s.asked[j].gen))
  }

  ghost predicate PromptInv(s: State) {
    && (forall j | j in s.asked :: s.asked[j].cell < |s.cells|)
    && StartedInv(s) && FallingInv(s) && AskedInv(s)
  }

  predicate PageBusy(p: Page) { PageOpen(p) || p.Unopened? }

  /** (j, g) was asked natively, or is about to be by a page that is falling back. */
  ghost predicate Claimed(s: State, j: nat, g: nat) {
    (j, g) in s.started || exists c :: 0 <= c < |s.cells| && Falls(s.cells[c], j, g)
  }

  /** Committing generation `g` takes the entry from the claimed prompt a live job shows now. */
  ghost predicate Overwrites(s: State, j: nat, g: nat) {
    Live(s, j) && g != s.jobs[j].gen && Claimed(s, j, s.jobs[j].gen)
  }

  /** A call at generation `g` finds its entry: it is there and survives pruning. */
  predicate Finds(s: State, j: nat, g: nat) { Live(s, j) && Current(s, j, g) }

  /**
   The steps that displace a prompt: they commit a generation over the claimed prompt of a live
   job, or commit a claimed pair whose entry is gone. Only calls with an old snapshot and late
   records are like that.
   */
  ghost predicate Displaces(s: State, st: Step) {
    match st
    case OfBroker(j, snap, Request) =>
      && snap.awaiting && !Finds(s, j, snap.gen)
      && (Overwrites(s, j, snap.gen) || (s.nativePrompts && Claimed(s, j, snap.gen)))
    case OfBroker(j, snap, Open(bound)) =>
      && bound && snap.awaiting && !Finds(s, j, snap.gen)
      && (Overwrites(s, j, snap.gen) || Claimed(s, j, snap.gen))
    case OfCli(j, Record(g)) => !Current(s, j, g) && Overwrites(s, j, g)
    case _ => false
  }

  /** A snapshot is never ahead of its job. */
  predicate NotAhead(s: State, st: Step) {
    st.OfBroker? ==> st.j in s.jobs && st.snap.gen <= s.jobs[st.j].gen
  }

  lemma PutKeepsPrompts(s: State, c: nat, cell: Cell)
    requires PromptInv(s) && c < |s.cells| && cell.job == s.cells[c].job && cell.gen == s.cells[c].gen
    requires cell.page.FallingBack? ==> s.cells[c].page.FallingBack?
    requires PageBusy(cell.page) ==> PageBusy(s.cells[c].page)
    ensures PromptInv(Put(s, c, cell))
  {
  }

  /** Dropping an entry is safe when its job is gone or it still stands for an unanswered page. */
  lemma DropKeepsPrompts(s: State, asked: map<nat, Ask>)
    requires PromptInv(s)
    requires forall j | j in asked :: j in s.asked && asked[j] == s.asked[j]
    requires forall j | j in s.asked && j !in asked :: !Live(s, j) || s.asked[j].page
    ensures PromptInv(s.(asked := asked))
  {
  }

  /** A prompt nobody has an entry for has not been asked natively while its job lives. */
  lemma UnknownPromptIsUnclaimed(s: State, j: nat)
    requires PromptInv(s) && Live(s, j) && !Current(s, j, s.jobs[j].gen)
    ensures !Claimed(s, j, s.jobs[j].gen)
  {
  }

  lemma InsertKeepsPrompts(s: State, j: nat, cell: Cell, page: bool)
    requires PromptInv(s) && j in s.jobs && cell.job == j && cell.gen <= s.jobs[j].gen
    requires !(Live(s, j) && Current(s, j, cell.gen)) && !Overwrites(s, j, cell.gen)
    requires !cell.page.FallingBack? && (PageBusy(cell.page) ==> page) && (page ==> !Claimed(s, j, cell.gen))
    ensures PromptInv(Insert(s, j, cell, page))
  {
    hide StartedInv, FallingInv, AskedInv;
    InsertKeepsStarted(s, j, cell, page);
    InsertKeepsAsked(s, j, cell, page);
  }

  lemma InsertKeepsSpent(s: State, j: nat, cell: Cell, page: bool, i: nat, g: nat)
    requires j in s.jobs && !(Live(s, j) && Current(s, j, cell.gen)) && !Overwrites(s, j, cell.gen)
    requires Claimed(s, i, g) && Spent(s, i, g)
    ensures Spent(Insert(s, j, cell, page), i, g)
  {
    hide Claimed;
  }

  lemma InsertKeepsStarted(s: State, j: nat, cell: Cell, page: bool)
    requires StartedInv(s) && FallingInv(s) && j in s.jobs && !cell.page.FallingBack?
    requires !(Live(s, j) && Current(s, j, cell.gen)) && !Overwrites(s, j, cell.gen)
    ensures StartedInv(Insert(s, j, cell, page)) && FallingInv(Insert(s, j, cell, page))
  {
    hide Overwrites, Spent;
    var s' := Insert(s, j, cell, page);
    forall p | p in s.started
      ensures Spent(s', p.0, p.1)
    {
      assert Claimed(s, p.0, p.1);
      InsertKeepsSpent(s, j, cell, page, p.0, p.1);
    }
    forall c | 0 <= c < |s.cells| && s.cells[c].page.FallingBack?
      ensures Spent(s', s.cells[c].job, s.cells[c].gen)
    {
      assert Falls(s.cells[c], s.cells[c].job, s.cells[c].gen);
      InsertKeepsSpent(s, j, cell, page, s.cells[c].job, s.cells[c].gen);
    }
    hide Claimed;
    assert forall c | 0 <= c < |s.cells| :: s'.cells[c] == s.cells[c];
  }

  lemma InsertKeepsAsked(s: State, j: nat, cell: Cell, page: bool)
    requires PromptInv(s) && j in s.jobs && cell.gen <= s.jobs[j].gen
    requires !cell.page.FallingBack? && (PageBusy(cell.page) ==> page) && (page ==> !Claimed(s, j, cell.gen))
    ensures forall i | i in Insert(s, j, cell, page).asked :: Insert(s, j, cell, page).asked[i].cell <= |s.cells|
    ensures AskedInv(Insert(s, j, cell, page))
  {
    hide StartedInv, FallingInv;
    var s' := Insert(s, j, cell, page);
    assert forall c | 0 <= c < |s.cells| :: s'.cells[c] == s.cells[c];
  }

  lemma StartKeepsPrompts(s: State, j: nat, g: nat)
    requires PromptInv(s) && Spent(s, j, g) && !Claimed(s, j, g)
    requires Current(s, j, g) ==> !s.asked[j].page
    ensures PromptInv(s.(started := s.started + [(j, g)]))
  {
  }

  lemma DeliveredKeepsPrompts(s: State, j: nat, g: nat)
    requires PromptInv(s) && CanDeliver(s, j, g)
    ensures PromptInv(Delivered(s, j, g))
  {
  }

  lemma PtyKeepsPrompts(s: State, j: nat, m: PtyMove)
    requires PromptInv(s) && PtyEnabled(s, j, m)
    ensures PromptInv(PtyApply(s, j, m))
  {
  }

  /** Pruning moves no claim, and what it leaves is what calls find. */
  lemma PruneKeepsClaims(s: State, j: nat, g: nat)
    ensures Claimed(Prune(s), j, g) == Claimed(s, j, g) && Overwrites(Prune(s), j, g) == Overwrites(s, j, g)
    ensures Current(Prune(s), j, g) == Finds(s, j, g) && Live(Prune(s), j) == Live(s, j)
  {
  }

  lemma RequestKeepsPrompts(s: State, j: nat, snap: Snap)
    requires PromptInv(s) && NotAhead(s, OfBroker(j, snap, Request)) && !Displaces(s, OfBroker(j, snap, Request))
    ensures PromptInv(RequestApply(s, j, snap))
  {
    var p, s' := Prune(s), RequestApply(s, j, snap);
    DropKeepsPrompts(s, p.asked);
    PruneKeepsClaims(s, j, snap.gen);
    hide PromptInv, Claimed, Overwrites, Prune;
    if s' != p {
      var cell := s'.cells[|p.cells|];
      InsertKeepsPrompts(p, j, cell, false);
      if s.nativePrompts {
        InsertKeepsUnclaimed(p, j, cell, false);
        StartKeepsPrompts(Insert(p, j, cell, false), j, snap.gen);
      }
    }
  }

  lemma InsertKeepsUnclaimed(s: State, j: nat, cell: Cell, page: bool)
    requires !Claimed(s, j, cell.gen) && !cell.page.FallingBack?
    ensures !Claimed(Insert(s, j, cell, page), j, cell.gen)
  {
    var s' := Insert(s, j, cell, page);
    assert forall c | 0 <= c < |s.cells| :: s'.cells[c] == s.cells[c];
  }

  lemma OpenKeepsPrompts(s: State, j: nat, snap: Snap, bound: bool)
    requires PromptInv(s) && NotAhead(s, OfBroker(j, snap, Open(bound))) && !Displaces(s, OfBroker(j, snap, Open(bound)))
    ensures PromptInv(OpenApply(s, j, snap, bound))
  {
    var p, s' := Prune(s), OpenApply(s, j, snap, bound);
    DropKeepsPrompts(s, p.asked);
    PruneKeepsClaims(s, j, snap.gen);
    hide PromptInv, Claimed, Overwrites, Prune;
    if s' != p {
      InsertKeepsPrompts(p, j, s'.cells[|p.cells|], true);
    }
  }

  lemma PageOpKeepsPrompts(s: State, j: nat, snap: Snap, m: BrokerMove)
    requires PromptInv(s)
    ensures PromptInv(PageOpApply(s, j, snap, m))
  {
    var p, s' := Prune(s), PageOpApply(s, j, snap, m);
    DropKeepsPrompts(s, p.asked);
    if s' != p {
      var c := p.asked[j].cell;
      PutKeepsPrompts(p, c, s'.cells[c]);
      DropKeepsPrompts(Put(p, c, s'.cells[c]), s'.asked);
    }
  }

  lemma CliKeepsPrompts(s: State, j: nat, m: CliMove)
    requires Inv(s) && PromptInv(s) && CliEnabled(s, j, m) && !Displaces(s, OfCli(j, m))
    ensures PromptInv(CliApply(s, j, m))
  {
    match m
    case Deliver(_) => DeliveredKeepsPrompts(s, j, s.jobs[j].gen);
    case Record(g) =>
      var s' := s.(records := s.records - {(j, g)});
      assert (j, g) in s.delivered;
      if Current(s, j, g) {
        PutKeepsPrompts(s', s.asked[j].cell, s.cells[s.asked[j].cell].(status := Some(Provided)));
      } else {
        InsertKeepsPrompts(s', j, Cell(j, g, Some(Provided), NoPage, false, false, Idle), false);
      }
  }

  lemma UnpageKeepsPrompts(s: State, j: nat)
    requires PromptInv(s) && j in s.asked && !PageBusy(s.cells[s.asked[j].cell].page)
    ensures PromptInv(s.(asked := s.asked[j := s.asked[j].(page := false)]))
  {
  }

  lemma FallKeepsPrompts(s: State, c: nat)
    requires PromptInv(s) && c < |s.cells|
    requires var cell := s.cells[c];
      && Spent(s, cell.job, cell.gen) && !Claimed(s, cell.job, cell.gen)
      && (Current(s, cell.job, cell.gen) ==> !s.asked[cell.job].page)
    ensures PromptInv(Put(s, c, s.cells[c].(page := FallingBack)))
  {
  }

  /** A prompt whose page is still up has not been asked natively. */
  lemma PagedPromptIsUnclaimed(s: State, j: nat)
    requires PromptInv(s) && j in s.asked && PageBusy(s.cells[s.asked[j].cell].page)
    ensures j in s.jobs && s.asked[j].gen <= s.jobs[j].gen && s.asked[j].page
    ensures !Claimed(s, j, s.asked[j].gen)
  {
  }

  lemma BusyPages()
    ensures PageBusy(Unopened) && !PageBusy(PageDone)
  {
  }

  lemma PutKeepsUnclaimed(s: State, c: nat, page: Page, j: nat, g: nat)
    requires c < |s.cells| && !page.FallingBack? && !Claimed(s, j, g)
    ensures forall asked :: !Claimed(Put(s, c, s.cells[c].(page := page)).(asked := asked), j, g)
  {
  }

  /** The page is closed, its mark dropped from the entry, and only then the native prompt claimed. */
  lemma FallBackClaims(s: State, c: nat, j: nat, s1: State, s2: State)
    requires PromptInv(s) && c < |s.cells| && j in s.asked && EntryInv(s, j) && s.asked[j].cell == c
    requires s.cells[c].page.Unopened?
    requires s1 == Put(s, c, s.cells[c].(page := PageDone))
    requires s2 == s1.(asked := s1.asked[j := s1.asked[j].(page := false)])
    ensures PromptInv(Put(s2, c, s2.cells[c].(page := FallingBack)))
  {
    BusyPages();
    PutKeepsPrompts(s, c, s.cells[c].(page := PageDone));
    PagedPromptIsUnclaimed(s, j);
    PutKeepsUnclaimed(s, c, PageDone, j, s.asked[j].gen);
    hide PromptInv, Claimed, PageBusy;
    UnpageKeepsPrompts(s1, j);
    FallKeepsPrompts(s2, c);
  }

  lemma FallBackKeepsPrompts(s: State, c: nat)
    requires PromptInv(s) && PageEnabled(s, c, FallBack)
    requires s.cells[c].job in s.asked ==> EntryInv(s, s.cells[c].job)
    ensures PromptInv(PageApply(s, c, FallBack))
  {
    var cell := s.cells[c];
    var j := cell.job;
    BusyPages();
    PutKeepsPrompts(s, c, cell.(page := PageDone));
    hide PromptInv;
    if j in s.asked && s.asked[j].cell == c && cell.status.None? {
      var s1 := Put(s, c, cell.(page := PageDone));
      var s2 := s1.(asked := s1.asked[j := s1.asked[j].(page := false)]);
      FallBackClaims(s, c, j, s1, s2);
      assert s2.cells[c := cell.(page := FallingBack)] == s.cells[c := cell.(page := FallingBack)];
    }
  }

  lemma PageKeepsPrompts(s: State, c: nat, m: PageMove)
    requires Inv(s) && PromptInv(s) && PageEnabled(s, c, m)
    ensures PromptInv(PageApply(s, c, m))
  {
    var cell := s.cells[c];
    var s' := PageApply(s, c, m);
    match m {
      case Post(ok) =>
        if ok {
          DeliveredKeepsPrompts(s, cell.job, cell.gen);
          PutKeepsPrompts(Delivered(s, cell.job, cell.gen), c, s'.cells[c]);
        } else {
          PutKeepsPrompts(s, c, s'.cells[c]);
        }
      case FallBack => FallBackKeepsPrompts(s, c);
      case SpawnNative =>
        PutKeepsPrompts(s, c, s'.cells[c]);
        if s.nativePrompts {
          StartKeepsPrompts(Put(s, c, s'.cells[c]), cell.job, cell.gen);
        }
      case Forget =>
        DropKeepsPrompts(s, s'.asked);
        PutKeepsPrompts(s.(asked := s'.asked), c, s'.cells[c]);
      case _ => PutKeepsPrompts(s, c, s'.cells[c]);
    }
  }

  lemma NativeKeepsPrompts(s: State, c: nat, m: NativeMove)
    requires PromptInv(s) && NativeEnabled(s, c, m)
    ensures PromptInv(NativeApply(s, c, m))
  {
    var cell := s.cells[c];
    var s' := NativeApply(s, c, m);
    if m == Secret(true) {
      DeliveredKeepsPrompts(s, cell.job, cell.gen);
      PutKeepsPrompts(Delivered(s, cell.job, cell.gen), c, s'.cells[c]);
    } else {
      PutKeepsPrompts(s, c, s'.cells[c]);
    }
  }

  lemma StepKeepsPrompts(s: State, st: Step)
    requires Inv(s) && PromptInv(s) && Enabled(s, st) && NotAhead(s, st) && !Displaces(s, st)
    ensures PromptInv(Apply(s, st))
  {
    hide Inv, PromptInv, Displaces;
    match st
    case OfPty(j, m) => PtyKeepsPrompts(s, j, m);
    case OfBroker(j, snap, Request) => RequestKeepsPrompts(s, j, snap);
    case OfBroker(j, snap, Open(bound)) => OpenKeepsPrompts(s, j, snap, bound);
    case OfBroker(j, snap, m) => PageOpKeepsPrompts(s, j, snap, m);
    case OfCli(j, m) => CliKeepsPrompts(s, j, m);
    case OfPage(c, m) => PageKeepsPrompts(s, c, m);
    case OfNative(c, m) => NativeKeepsPrompts(s, c, m);
  }

  /** A claim that loses its entry while its job lives, or gains a second holder, breaks the bookkeeping. */
  lemma InsertBreaksPrompts(s: State, j: nat, cell: Cell, page: bool, started: seq<(nat, nat)>)
    requires j in s.jobs && s.started <= started && !cell.page.FallingBack?
    requires Overwrites(s, j, cell.gen) || (page && Claimed(s, j, cell.gen))
             || (|started| > |s.started| && started[|s.started|] == (j, cell.gen) && Claimed(s, j, cell.gen))
    ensures !PromptInv(Insert(s, j, cell, page).(started := started))
  {
    var s' := Insert(s, j, cell, page).(started := started);
    var g := if Overwrites(s, j, cell.gen) then s.jobs[j].gen else cell.gen;
    if (j, g) in s.started {
      var a :| 0 <= a < |s.started| && s.started[a] == (j, g);
      assert started[a] == (j, g);
    } else {
      var c :| 0 <= c < |s.cells| && Falls(s.cells[c], j, g);
      assert s'.cells[c] == s.cells[c];
    }
  }

  lemma DisplacingBreaksPrompts(s: State, st: Step)
    requires Inv(s) && Enabled(s, st) && NotAhead(s, st) && Displaces(s, st)
    ensures !PromptInv(Apply(s, st))
  {
    if st.OfCli? {
      var g := st.cli.gen;
      assert (st.j, g) in s.delivered;
      var s' := s.(records := s.records - {(st.j, g)});
      InsertBreaksPrompts(s', st.j, Cell(st.j, g, Some(Provided), NoPage, false, false, Idle), false, s.started);
    } else {
      var p, s' := Prune(s), Apply(s, st);
      PruneKeepsClaims(s, st.j, st.snap.gen);
      hide Inv, Claimed, Overwrites, Prune;
      InsertBreaksPrompts(p, st.j, s'.cells[|p.cells|], st.broker.Open?, s'.started);
    }
  }

  /**
   For every step from every state in which the claims are in order: they stay in order exactly
   when the step displaces no prompt.
   */
  lemma KeptIffNotDisplaced(s: State, st: Step)
    requires Inv(s) && PromptInv(s) && Enabled(s, st) && NotAhead(s, st)
    ensures PromptInv(Apply(s, st)) <==> !Displaces(s, st)
  {
    if Displaces(s, st) {
      DisplacingBreaksPrompts(s, st);
    } else {
      StepKeepsPrompts(s, st);
    }
  }

  // ------------------------------------------------------------ over whole runs

  lemma StepKeepsJobs(s: State, st: Step, j: nat)
    requires Enabled(s, st) && j in s.jobs
    ensures j in Apply(s, st).jobs && s.jobs[j].gen <= Apply(s, st).jobs[j].gen
  {
  }

  lemma {:induction false} JobsGrow(ss: seq<State>, steps: seq<Step>, i: nat, k: nat, j: nat)
    requires IsRun(ss, steps) && i <= k < |ss| && j in ss[i].jobs
    ensures j in ss[k].jobs && ss[i].jobs[j].gen <= ss[k].jobs[j].gen
    decreases k
  {
    hide Enabled, Apply;
    if i < k {
      JobsGrow(ss, steps, i, k - 1, j);
      StepKeepsJobs(ss[k - 1], steps[k - 1], j);
    }
  }

  lemma RunIsNotAhead(ss: seq<State>, steps: seq<Step>, k: nat)
    requires IsRun(ss, steps) && k < |steps|
    ensures NotAhead(ss[k], steps[k])
  {
    hide Enabled, Apply;
    if steps[k].OfBroker? {
      var i :| 0 <= i <= k && TakenIn(ss[i], steps[k].j, steps[k].snap);
      JobsGrow(ss, steps, i, k, steps[k].j);
    }
  }

  /** Over every run without a displacing step the claims stay in order. */
  lemma {:induction false} UndisplacedRunInv(ss: seq<State>, steps: seq<Step>, k: nat)
    requires IsRun(ss, steps) && k < |ss|
    requires forall i | 0 <= i < k :: !Displaces(ss[i], steps[i])
    ensures PromptInv(ss[k])
  {
    if k > 0 {
      hide PromptInv, Displaces, Enabled, Apply, Inv, NotAhead;
      UndisplacedRunInv(ss, steps, k - 1);
      RunInv(ss, steps, k - 1);
      RunIsNotAhead(ss, steps, k - 1);
      StepKeepsPrompts(ss[k - 1], steps[k - 1]);
    }
  }

  ghost predicate AskedOnce(s: State) {
    forall a, b | 0 <= a < b < |s.started| :: s.started[a] != s.started[b]
  }

  /** A current snapshot and a timely record displace nothing. */
  lemma FreshNeverDisplaces(s: State, st: Step)
    requires PromptInv(s) && Enabled(s, st) && Fresh(s, st)
    ensures !Displaces(s, st)
  {
    if st.OfBroker? && !Current(s, st.j, s.jobs[st.j].gen) {
      UnknownPromptIsUnclaimed(s, st.j);
    }
  }

  lemma {:induction false} FreshRunInv(ss: seq<State>, steps: seq<Step>, k: nat)
    requires IsFreshRun(ss, steps) && k < |ss|
    ensures PromptInv(ss[k]) && forall i | 0 <= i < k :: !Displaces(ss[i], steps[i])
  {
    hide PromptInv, Displaces, Enabled, Apply, Fresh;
    if k > 0 {
      FreshRunInv(ss, steps, k - 1);
      FreshNeverDisplaces(ss[k - 1], steps[k - 1]);
    }
    UndisplacedRunInv(ss, steps, k);
  }

  /** Over every fresh run at most one native prompt is opened per job and generation. */
  lemma OnePromptPerGeneration(ss: seq<State>, steps: seq<Step>, k: nat)
    requires IsFreshRun(ss, steps) && k < |ss|
    ensures AskedOnce(ss[k])
  {
    hide Displaces, Enabled, Apply, Fresh;
    FreshRunInv(ss, steps, k);
  }

  /** The steps that open a prompt which was opened before. */
  predicate Repeats(s: State, st: Step) {
    s.nativePrompts &&
    match st
    case OfBroker(j, snap, Request) => snap.awaiting && !Finds(s, j, snap.gen) && (j, snap.gen) in s.started
    case OfPage(c, SpawnNative) => c < |s.cells| && (s.cells[c].job, s.cells[c].gen) in s.started
    case _ => false
  }

  lemma AskedAgain(s: State, p: (nat, nat))
    ensures p in s.started ==> !AskedOnce(s.(started := s.started + [p]))
    ensures AskedOnce(s) && p !in s.started ==> AskedOnce(s.(started := s.started + [p]))
  {
    var t := s.started + [p];
    if p in s.started {
      var a :| 0 <= a < |s.started| && s.started[a] == p;
      assert t[a] == t[|s.started|];
    }
  }

  /** For every step from every state without a repeat: the repeat happens here exactly when the step is one. */
  lemma RepeatedPromptIff(s: State, st: Step)
    requires AskedOnce(s) && Enabled(s, st)
    ensures !AskedOnce(Apply(s, st)) <==> Repeats(s, st)
  {
    match st {
      case OfBroker(j, snap, Request) =>
        PruneKeepsClaims(s, j, snap.gen);
        AskedAgain(s, (j, snap.gen));
      case OfPage(c, SpawnNative) => AskedAgain(s, (s.cells[c].job, s.cells[c].gen));
      case _ =>
    }
  }

  // ------------------------------------------------- what a displacing step leads to

  lemma NoSteps(nativePrompts: bool)
    ensures IsRun([Init(nativePrompts)], [])
  {
  }

  lemma Extend(ss: seq<State>, steps: seq<Step>, st: Step, i: nat) returns (ss': seq<State>, steps': seq<Step>)
    requires IsRun(ss, steps) && |ss| == |steps| + 1 && Enabled(ss[|steps|], st)
    requires st.OfBroker? ==> i <= |steps| && TakenIn(ss[i], st.j, st.snap)
    ensures IsRun(ss', steps')
    ensures ss' == ss + [Apply(ss[|steps|], st)] && steps' == steps + [st]
  {
    ss', steps' := ss + [Apply(ss[|steps|], st)], steps + [st];
    assert forall k | 0 <= k < |steps| :: steps'[k] == steps[k];
    forall k | 0 <= k < |steps'| && steps'[k].OfBroker?
      ensures exists i | 0 <= i <= k :: TakenIn(ss'[i], steps'[k].j, steps'[k].snap)
    {
      var h :| 0 <= h <= k && (if k < |steps| then TakenIn(ss[h], steps[k].j, steps[k].snap) else h == i);
      assert TakenIn(ss'[h], steps'[k].j, steps'[k].snap);
    }
  }

  lemma StepKeepsMode(s: State, st: Step)
    requires Enabled(s, st)
    ensures Apply(s, st).nativePrompts == s.nativePrompts
  {
  }

  lemma {:induction false} RunKeepsMode(ss: seq<State>, steps: seq<Step>, k: nat)
    requires IsRun(ss, steps) && k < |ss|
    ensures ss[k].nativePrompts == ss[0].nativePrompts
  {
    hide Enabled, Apply;
    if k > 0 {
      RunKeepsMode(ss, steps, k - 1);
      StepKeepsMode(ss[k - 1], steps[k - 1]);
    }
  }

  /** Some call of the run may still hold a snapshot that shows prompt (j, g) awaited. */
  ghost predicate Witnessed(ss: seq<State>, k: nat, j: nat, g: nat)
    requires k < |ss|
  {
    exists i | 0 <= i <= k :: TakenIn(ss[i], j, Snap(g, true))
  }

  /** The step is a broker call that saw (j, g) awaited. */
  predicate SawAwaited(st: Step, j: nat, g: nat) { st.OfBroker? && st.j == j && st.snap == Snap(g, true) }

  predicate HasPage(cells: seq<Cell>, c: nat, j: nat, g: nat) {
    c < |cells| && cells[c].page != NoPage && cells[c].job == j && cells[c].gen == g
  }

  lemma BrokerPages(s: State, j: nat, snap: Snap, m: BrokerMove, c: nat, i: nat, g: nat)
    requires BrokerEnabled(s, j) && HasPage(BrokerApply(s, j, snap, m).cells, c, i, g)
    ensures HasPage(s.cells, c, i, g) || SawAwaited(OfBroker(j, snap, m), i, g)
  {
  }

  lemma PagePages(s: State, d: nat, m: PageMove, c: nat, i: nat, g: nat)
    requires PageEnabled(s, d, m) && HasPage(PageApply(s, d, m).cells, c, i, g)
    ensures HasPage(s.cells, c, i, g)
  {
  }

  lemma CliPages(s: State, j: nat, m: CliMove, c: nat, i: nat, g: nat)
    requires CliEnabled(s, j, m) && HasPage(CliApply(s, j, m).cells, c, i, g)
    ensures HasPage(s.cells, c, i, g)
  {
  }

  lemma NativePages(s: State, d: nat, m: NativeMove, c: nat, i: nat, g: nat)
    requires NativeEnabled(s, d, m) && HasPage(NativeApply(s, d, m).cells, c, i, g)
    ensures HasPage(s.cells, c, i, g)
  {
  }

  /** A page that a step leaves was there before, or is that of the step's own snapshot. */
  lemma PagesFrom(s: State, st: Step, c: nat, j: nat, g: nat)
    requires Enabled(s, st) && HasPage(Apply(s, st).cells, c, j, g)
    ensures HasPage(s.cells, c, j, g) || SawAwaited(st, j, g)
  {
    hide BrokerApply, PageApply, NativeApply, HasPage;
    match st
    case OfPty(_, _) =>
    case OfBroker(i, snap, m) => BrokerPages(s, i, snap, m, c, j, g);
    case OfCli(i, m) => CliPages(s, i, m, c, j, g);
    case OfPage(d, m) => PagePages(s, d, m, c, j, g);
    case OfNative(d, m) => NativePages(s, d, m, c, j, g);
  }

  /** A prompt that a step opens is that of its own snapshot, or of a page. */
  lemma StartedFrom(s: State, st: Step, p: (nat, nat))
    requires Enabled(s, st) && p in Apply(s, st).started && p !in s.started
    ensures SawAwaited(st, p.0, p.1) || (st.OfPage? && HasPage(s.cells, st.c, p.0, p.1))
  {
  }

  lemma {:induction false} ClaimsAreWitnessed(ss: seq<State>, steps: seq<Step>, k: nat)
    requires IsRun(ss, steps) && k < |ss|
    ensures forall p | p in ss[k].started :: Witnessed(ss, k, p.0, p.1)
    ensures forall c: nat, j: nat, g: nat | HasPage(ss[k].cells, c, j, g) :: Witnessed(ss, k, j, g)
  {
    if k > 0 {
      hide Apply, Enabled, TakenIn, HasPage;
      ClaimsAreWitnessed(ss, steps, k - 1);
      var s, st := ss[k - 1], steps[k - 1];
      forall p | p in ss[k].started
        ensures Witnessed(ss, k, p.0, p.1)
      {
        if p in s.started {
          assert Witnessed(ss, k - 1, p.0, p.1);
        } else {
          StartedFrom(s, st, p);
          assert SawAwaited(st, p.0, p.1) || Witnessed(ss, k - 1, p.0, p.1);
        }
      }
      forall c: nat, j: nat, g: nat | HasPage(ss[k].cells, c, j, g)
        ensures Witnessed(ss, k, j, g)
      {
        PagesFrom(s, st, c, j, g);
        assert SawAwaited(st, j, g) || Witnessed(ss, k - 1, j, g);
      }
    }
  }

  /** The run goes on from `ss` and `steps`. */
  predicate Continues(ss: seq<State>, steps: seq<Step>, ss': seq<State>, steps': seq<Step>) {
    ss <= ss' && steps <= steps'
  }

  /** A page that falls back to a prompt which was opened meanwhile opens it again. */
  lemma SpawnsAgain(ss: seq<State>, steps: seq<Step>, c: nat, j: nat, g: nat)
    returns (ss': seq<State>, steps': seq<Step>)
    requires IsRun(ss, steps) && |ss| == |steps| + 1
    requires var s := ss[|steps|]; s.nativePrompts && (j, g) in s.started && c < |s.cells| && Falls(s.cells[c], j, g)
    ensures IsRun(ss', steps') && Continues(ss, steps, ss', steps') && !AskedOnce(ss'[|ss'| - 1])
  {
    hide IsRun;
    var s := ss[|steps|];
    AskedAgain(s, (j, g));
    ss', steps' := Extend(ss, steps, OfPage(c, SpawnNative), 0);
  }

  /** A claimed prompt that no call finds is opened again by a call that saw it awaited. */
  lemma AsksAgain(ss: seq<State>, steps: seq<Step>, j: nat, g: nat)
    returns (ss': seq<State>, steps': seq<Step>)
    requires IsRun(ss, steps) && |ss| == |steps| + 1
    requires var s := ss[|steps|];
      s.nativePrompts && j in s.jobs && Claimed(s, j, g) && !Finds(s, j, g)
    ensures IsRun(ss', steps') && Continues(ss, steps, ss', steps') && !AskedOnce(ss'[|ss'| - 1])
  {
    hide IsRun, Inv, TakenIn, Apply, Enabled;
    var s := ss[|steps|];
    var i := ClaimWitness(ss, steps, j, g);
    RunInv(ss, steps, |steps|);
    CommitsRequest(s, j, g);
    ss', steps' := Extend(ss, steps, OfBroker(j, Snap(g, true), Request), i);
    var t := ss'[|steps'|];
    assert t.started == s.started + [(j, g)];
    if (j, g) in s.started {
      AskedAgain(s, (j, g));
    } else {
      var c :| 0 <= c < |s.cells| && Falls(s.cells[c], j, g);
      assert t.cells[c] == s.cells[c];
      ss', steps' := SpawnsAgain(ss', steps', c, j, g);
    }
  }

  lemma ClaimWitness(ss: seq<State>, steps: seq<Step>, j: nat, g: nat) returns (i: nat)
    requires IsRun(ss, steps) && |ss| == |steps| + 1 && Claimed(ss[|steps|], j, g)
    ensures i <= |steps| && TakenIn(ss[i], j, Snap(g, true))
  {
    ClaimsAreWitnessed(ss, steps, |steps|);
    hide IsRun;
    var s := ss[|steps|];
    if (j, g) !in s.started {
      var c :| 0 <= c < |s.cells| && Falls(s.cells[c], j, g);
      assert HasPage(s.cells, c, j, g);
    }
    assert Witnessed(ss, |steps|, j, g);
    i :| 0 <= i <= |steps| && TakenIn(ss[i], j, Snap(g, true));
  }

  lemma CommitsRequest(s: State, j: nat, g: nat)
    requires Inv(s) && s.nativePrompts && j in s.jobs && !Finds(s, j, g)
    ensures var ask := OfBroker(j, Snap(g, true), Request);
      && Enabled(s, ask)
      && var s' := Apply(s, ask); s'.nativePrompts && s'.started == s.started + [(j, g)] && s.cells <= s'.cells
  {
    PruneKeepsClaims(s, j, g);
  }

  /** What a displacing step leaves: the claim stands, and no call finds it unless its own commit is in the way. */
  lemma AfterInsert(s: State, j: nat, cell: Cell, page: bool, started: seq<(nat, nat)>, h: nat)
    requires s.started <= started && Claimed(s, j, h)
    ensures var t := Insert(s, j, cell, page).(started := started);
      Claimed(t, j, h) && (h != cell.gen ==> !Finds(t, j, h))
  {
    var t := Insert(s, j, cell, page).(started := started);
    if (j, h) in s.started {
      var a :| 0 <= a < |s.started| && s.started[a] == (j, h);
      assert started[a] == (j, h);
    } else {
      var c :| 0 <= c < |s.cells| && Falls(s.cells[c], j, h);
      assert t.cells[c] == s.cells[c];
    }
  }

  lemma AfterOverwrite(s: State, st: Step)
    requires Enabled(s, st) && Displaces(s, st)
    requires Overwrites(s, st.j, if st.OfCli? then st.cli.gen else st.snap.gen)
    ensures st.j in s.jobs
    ensures var t, h := Apply(s, st), s.jobs[st.j].gen; st.j in t.jobs && Claimed(t, st.j, h) && !Finds(t, st.j, h)
  {
    var j, h := st.j, s.jobs[st.j].gen;
    if st.OfCli? {
      var g := st.cli.gen;
      var s' := s.(records := s.records - {(j, g)});
      AfterInsert(s', j, Cell(j, g, Some(Provided), NoPage, false, false, Idle), false, s.started, h);
    } else {
      var p, t := Prune(s), Apply(s, st);
      PruneKeepsClaims(s, j, st.snap.gen);
      PruneKeepsClaims(s, j, h);
      hide Claimed, Prune, Finds;
      AfterInsert(p, j, t.cells[|p.cells|], st.broker.Open?, t.started, h);
    }
  }

  /** A stale request for a claimed pair opens it at once; a page falling back to it will. */
  lemma AfterStaleRequest(s: State, st: Step)
    requires Enabled(s, st) && Displaces(s, st) && s.nativePrompts && st.OfBroker? && st.broker.Request?
    requires Claimed(s, st.j, st.snap.gen)
    ensures var t := Apply(s, st);
      && (st.j, st.snap.gen) in t.started && s.cells <= t.cells
      && ((st.j, st.snap.gen) in s.started ==> !AskedOnce(t))
  {
    PruneKeepsClaims(s, st.j, st.snap.gen);
    AskedAgain(s, (st.j, st.snap.gen));
    hide Claimed, Overwrites;
    assert Apply(s, st).started[|s.started|] == (st.j, st.snap.gen);
  }

  /** A stale page for a claimed pair can be abandoned, and then no call finds the pair. */
  lemma AfterStaleOpen(s: State, st: Step)
    requires Inv(s) && Enabled(s, st) && Displaces(s, st) && st.OfBroker? && st.broker.Open?
    requires Claimed(s, st.j, st.snap.gen)
    ensures var t, drop := Apply(s, st), OfBroker(st.j, st.snap, Abandon);
      && Enabled(t, drop)
      && var u := Apply(t, drop);
         st.j in u.jobs && Claimed(u, st.j, st.snap.gen) && !Finds(u, st.j, st.snap.gen)
  {
    var j, g, t := st.j, st.snap.gen, Apply(s, st);
    StepKeepsInv(s, st);
    PruneKeepsClaims(s, j, g);
    hide Inv, Overwrites, Prune;
    var p := Prune(s);
    AfterInsert(p, j, t.cells[|p.cells|], true, t.started, g);
    AbandonKeepsClaims(t, j, st.snap);
  }

  lemma AbandonKeepsClaims(t: State, j: nat, snap: Snap)
    requires j in t.jobs && (forall k | k in t.asked :: t.asked[k].cell < |t.cells|) && Claimed(t, j, snap.gen)
    requires Current(t, j, snap.gen) && t.asked[j].page
    requires t.cells[t.asked[j].cell].page.Serving? && t.cells[t.asked[j].cell].status.None?
    ensures var u := PageOpApply(t, j, snap, Abandon); Claimed(u, j, snap.gen) && !Finds(u, j, snap.gen)
  {
    var u := PageOpApply(t, j, snap, Abandon);
    if (j, snap.gen) !in t.started {
      var c :| 0 <= c < |t.cells| && Falls(t.cells[c], j, snap.gen);
      assert u.cells[c] == t.cells[c];
    }
  }

  lemma PrefixIsRun(ss: seq<State>, steps: seq<Step>, k: nat)
    requires IsRun(ss, steps) && k <= |steps|
    ensures IsRun(ss[..k + 1], steps[..k])
  {
    hide Apply, Enabled, TakenIn;
    var ts, us := ss[..k + 1], steps[..k];
    forall h | 0 <= h < k && us[h].OfBroker?
      ensures exists i | 0 <= i <= h :: TakenIn(ts[i], us[h].j, us[h].snap)
    {
      var i :| 0 <= i <= h && TakenIn(ss[i], steps[h].j, steps[h].snap);
      assert TakenIn(ts[i], us[h].j, us[h].snap);
    }
  }

  /** With native prompts on, every displacing step of every run can be followed by a repeated prompt. */
  lemma DisplacedCanRepeat(ss: seq<State>, steps: seq<Step>, k: nat) returns (ss': seq<State>, steps': seq<Step>)
    requires IsRun(ss, steps) && k < |steps| && ss[0].nativePrompts && Displaces(ss[k], steps[k])
    ensures IsRun(ss', steps') && Continues(ss[..k + 2], steps[..k + 1], ss', steps')
    ensures !AskedOnce(ss'[|ss'| - 1])
  {
    var s, st := ss[k], steps[k];
    var j := st.j;
    RunInv(ss, steps, k);
    RunKeepsMode(ss, steps, k);
    RunKeepsMode(ss, steps, k + 1);
    PrefixIsRun(ss, steps, k + 1);
    hide Apply, Enabled, Inv, Claimed, Finds, TakenIn, Overwrites;
    ss', steps' := ss[..k + 2], steps[..k + 1];
    if Overwrites(s, j, if st.OfCli? then st.cli.gen else st.snap.gen) {
      AfterOverwrite(s, st);
      ss', steps' := AsksAgain(ss', steps', j, s.jobs[j].gen);
    } else if st.broker.Request? {
      ss', steps' := RequestCanRepeat(ss', steps', s);
    } else {
      ss', steps' := OpenCanRepeat(ss', steps', s);
    }
  }

  lemma RequestCanRepeat(ss: seq<State>, steps: seq<Step>, s: State) returns (ss': seq<State>, steps': seq<Step>)
    requires IsRun(ss, steps) && |ss| == |steps| + 1 >= 2 && s == ss[|steps| - 1] && s.nativePrompts
    requires ss[|steps|].nativePrompts
    requires var st := steps[|steps| - 1];
      Displaces(s, st) && st.OfBroker? && st.broker.Request? && Claimed(s, st.j, st.snap.gen)
    ensures IsRun(ss', steps') && Continues(ss, steps, ss', steps') && !AskedOnce(ss'[|ss'| - 1])
  {
    var st := steps[|steps| - 1];
    AfterStaleRequest(s, st);
    hide Displaces, Apply, Enabled;
    ss', steps' := ss, steps;
    if (st.j, st.snap.gen) !in s.started {
      var c :| 0 <= c < |s.cells| && Falls(s.cells[c], st.j, st.snap.gen);
      hide IsRun;
      assert ss[|steps|].cells[c] == s.cells[c];
      ss', steps' := SpawnsAgain(ss, steps, c, st.j, st.snap.gen);
    }
  }

  lemma LastStep(ss: seq<State>, steps: seq<Step>) returns (i: nat)
    requires IsRun(ss, steps) && |ss| == |steps| + 1 >= 2
    ensures var n := |steps| - 1;
      && Enabled(ss[n], steps[n]) && ss[n + 1] == Apply(ss[n], steps[n])
      && i <= n && (steps[n].OfBroker? ==> TakenIn(ss[i], steps[n].j, steps[n].snap))
  {
    hide Apply, Enabled, TakenIn;
    i := 0;
    if steps[|steps| - 1].OfBroker? {
      i :| 0 <= i <= |steps| - 1 && TakenIn(ss[i], steps[|steps| - 1].j, steps[|steps| - 1].snap);
    }
  }

  lemma OpenCanRepeat(ss: seq<State>, steps: seq<Step>, s: State) returns (ss': seq<State>, steps': seq<Step>)
    requires IsRun(ss, steps) && |ss| == |steps| + 1 >= 2 && s == ss[|steps| - 1] && ss[0].nativePrompts && Inv(s)
    requires var st := steps[|steps| - 1];
      Displaces(s, st) && st.OfBroker? && st.broker.Open? && Claimed(s, st.j, st.snap.gen)
    ensures IsRun(ss', steps') && Continues(ss, steps, ss', steps') && !AskedOnce(ss'[|ss'| - 1])
  {
    hide IsRun, Displaces, Apply, Enabled, Inv, Claimed, Finds, TakenIn;
    var st := steps[|steps| - 1];
    var i := LastStep(ss, steps);
    AfterStaleOpen(s, st);
    ss', steps' := Extend(ss, steps, OfBroker(st.j, st.snap, Abandon), i);
    RunKeepsMode(ss', steps', |steps'|);
    ss', steps' := AsksAgain(ss', steps', st.j, st.snap.gen);
  }

  /**
   Exactly which runs are safe. Without a displacing step every prompt is opened at most once in
   every state; with native prompts on, each displacing step is followed by a repeat in some run
   that goes on from it.
   */
  lemma OncePerGenerationIff(ss: seq<State>, steps: seq<Step>)
    requires IsRun(ss, steps) && ss[0].nativePrompts
    ensures (forall k | 0 <= k < |steps| :: !Displaces(ss[k], steps[k])) ==> forall k | 0 <= k < |ss| :: AskedOnce(ss[k])
    ensures forall k | 0 <= k < |steps| && Displaces(ss[k], steps[k]) ::
              exists ss', steps' :: IsRun(ss', steps') && Continues(ss[..k + 2], steps[..k + 1], ss', steps')
                                    && |ss'| > 0 && !AskedOnce(ss'[|ss'| - 1])
  {
    hide Displaces, Apply, Enabled, Fresh;
    if forall k | 0 <= k < |steps| :: !Displaces(ss[k], steps[k]) {
      forall k | 0 <= k < |ss|
        ensures AskedOnce(ss[k])
      {
        UndisplacedRunInv(ss, steps, k);
      }
    }
    forall k | 0 <= k < |steps| && Displaces(ss[k], steps[k])
      ensures exists ss', steps' :: IsRun(ss', steps') && Continues(ss[..k + 2], steps[..k + 1], ss', steps')
                                    && |ss'| > 0 && !AskedOnce(ss'[|ss'| - 1])
    {
      var ss', steps' := DisplacedCanRepeat(ss, steps, k);
    }
  }

  /** With native prompts off none is ever opened. */
  lemma {:induction false} OffOpensNone(ss: seq<State>, steps: seq<Step>, k: nat)
    requires IsRun(ss, steps) && k < |ss| && !ss[0].nativePrompts
    ensures ss[k].started == []
  {
    if k > 0 {
      OffOpensNone(ss, steps, k - 1);
      RunKeepsMode(ss, steps, k - 1);
      OffStartsNone(ss[k - 1], steps[k - 1]);
      hide Apply, Enabled;
    }
  }

  lemma OffStartsNone(s: State, st: Step)
    requires Enabled(s, st) && !s.nativePrompts
    ensures Apply(s, st).started == s.started
  {
  }

  /** From the prompt on: ask, lose the job, ask again with the old snapshot. */
  lemma ExitForgets(s2: State, ask: Step, exit: Step)
    requires s2 == State(true, map[0 := Pty(true, 1, true)], map[], [], {}, [], [])
    requires ask == OfBroker(0, Snap(1, true), Request) && exit == OfPty(0, Exit)
    ensures Enabled(s2, ask) && Enabled(Apply(s2, ask), exit) && Enabled(Apply(Apply(s2, ask), exit), ask)
    ensures Apply(Apply(Apply(s2, ask), exit), ask).started == [(0, 1), (0, 1)]
  {
    assert Apply(s2, ask).asked == map[0 := Ask(1, 0, false)];
  }

  lemma Prompted() returns (ss: seq<State>, steps: seq<Step>)
    ensures IsRun(ss, steps) && |ss| == 3 && |steps| == 2 && forall k | 0 <= k < 2 :: !steps[k].OfBroker?
    ensures ss[2] == State(true, map[0 := Pty(true, 1, true)], map[], [], {}, [], [])
  {
    hide IsRun;
    NoSteps(true);
    ss, steps := [Init(true)], [];
    ss, steps := Extend(ss, steps, OfPty(0, Start), 0);
    ss, steps := Extend(ss, steps, OfPty(0, Arm), 0);
  }

  /** A job that exits between a call's snapshot and its lock is asked about twice. */
  lemma StaleSnapshotAsksTwice() returns (ss: seq<State>, steps: seq<Step>)
    ensures IsRun(ss, steps) && |ss| == |steps| + 1 && ss[|steps|].started == [(0, 1), (0, 1)]
  {
    hide IsRun, Apply, Enabled;
    var ask, exit := OfBroker(0, Snap(1, true), Request), OfPty(0, Exit);
    ss, steps := Prompted();
    ExitForgets(ss[2], ask, exit);
    ss, steps := Extend(ss, steps, ask, 2);
    ss, steps := Extend(ss, steps, exit, 0);
    ss, steps := Extend(ss, steps, ask, 2);
  }

  lemma AnsweredThenAskedAgain() returns (ss: seq<State>, steps: seq<Step>)
    ensures IsRun(ss, steps) && |ss| == 5 && |steps| == 4 && forall k | 0 <= k < 4 :: !steps[k].OfBroker?
    ensures ss[4] == State(true, map[0 := Pty(true, 2, true)], map[], [], {(0, 1)}, [], [(0, 1)])
  {
    hide IsRun;
    ss, steps := Prompted();
    ss, steps := Extend(ss, steps, OfCli(0, Deliver(None)), 0);
    ss, steps := Extend(ss, steps, OfPty(0, Arm), 0);
  }

  /** From the second prompt on: ask, record the first answer, ask again. */
  lemma LateRecordForgets(s4: State, ask: Step, late: Step)
    requires s4 == State(true, map[0 := Pty(true, 2, true)], map[], [], {(0, 1)}, [], [(0, 1)])
    requires ask == OfBroker(0, Snap(2, true), Request) && late == OfCli(0, Record(1))
    ensures Enabled(s4, ask) && Enabled(Apply(s4, ask), late) && Enabled(Apply(Apply(s4, ask), late), ask)
    ensures Apply(s4, ask).jobs == Apply(Apply(s4, ask), late).jobs == s4.jobs
    ensures Apply(Apply(Apply(s4, ask), late), ask).started == [(0, 2), (0, 2)]
  {
    assert Apply(s4, ask).asked == map[0 := Ask(2, 0, false)];
    assert Apply(Apply(s4, ask), late).asked == map[0 := Ask(1, 1, false)];
  }

  /** A CLI answer recorded after the next prompt came up makes that prompt be asked twice. */
  lemma LateRecordAsksTwice() returns (ss: seq<State>, steps: seq<Step>)
    ensures IsRun(ss, steps) && |ss| == |steps| + 1 && ss[|steps|].started == [(0, 2), (0, 2)]
    ensures forall k | 0 <= k < |steps| && steps[k].OfBroker? :: Fresh(ss[k], steps[k])
  {
    hide IsRun, Apply, Enabled;
    var ask, late := OfBroker(0, Snap(2, true), Request), OfCli(0, Record(1));
    ss, steps := AnsweredThenAskedAgain();
    LateRecordForgets(ss[4], ask, late);
    ss, steps := Extend(ss, steps, ask, 4);
    ss, steps := Extend(ss, steps, late, 0);
    ss, steps := Extend(ss, steps, ask, 6);
  }
}
