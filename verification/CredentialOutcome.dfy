/**
 Which outcome the owner's answer becomes (crates/daemon/src/credential.rs, 364-473 and 512-587):
 what each step does to each outcome cell, that an answer given to a page or a native prompt
 arrives as the status it stands for, and that no cell is left without an outcome but in one case.
 */
module CredentialOutcome {
  import opened Common
  import opened Credential

  /** The first outcome wins. */
  function First(before: Option<Status>, status: Status): Option<Status> {
    if before.None? then Some(status) else before
  }

  /** The call finds the page of the current prompt, and `c` is its cell. */
  predicate OnPage(s: State, j: nat, g: nat, c: nat) { Finds(s, j, g) && s.asked[j].page && s.asked[j].cell == c }

  /** The status a step settles cell `c` with, if it settles it. */
  function Verdict(s: State, st: Step, c: nat): Option<Status>
    requires c < |s.cells|
  {
    match st
    case OfNative(d, SettleNative) => if d == c && s.cells[c].native.Resolved? then Some(s.cells[c].native.status) else None
    case OfPage(d, SettlePost) =>
      if d == c && s.cells[c].page.Answered? then Some(if s.cells[c].page.ok then Provided else NotAwaiting) else None
    case OfPage(d, Expire) => if d == c then Some(Timeout) else None
    case OfPage(d, SpawnNative) => if d == c && !s.nativePrompts then Some(OwnerActionRequired) else None
    case OfBroker(j, snap, Decline) => if OnPage(s, j, snap.gen, c) then Some(Declined) else None
    case OfBroker(j, snap, Abandon) => if OnPage(s, j, snap.gen, c) then Some(NotAwaiting) else None
    case _ => None
  }

  /** A CLI answer is recorded for the entry whose cell this is. */
  predicate Recorded(s: State, st: Step, c: nat) {
    st.OfCli? && st.cli.Record? && Current(s, st.j, st.cli.gen) && s.asked[st.j].cell == c
  }

  lemma BrokerOutcome(s: State, j: nat, snap: Snap, m: BrokerMove, c: nat)
    requires BrokerEnabled(s, j) && c < |s.cells|
    ensures c < |BrokerApply(s, j, snap, m).cells|
    ensures BrokerApply(s, j, snap, m).cells[c].status
            == match Verdict(s, OfBroker(j, snap, m), c)
               case None => s.cells[c].status
               case Some(x) => First(s.cells[c].status, x)
  {
    PruneKeepsClaims(s, j, snap.gen);
  }

  lemma CliOutcome(s: State, j: nat, m: CliMove, c: nat)
    requires CliEnabled(s, j, m) && c < |s.cells|
    ensures c < |CliApply(s, j, m).cells|
    ensures CliApply(s, j, m).cells[c].status == if Recorded(s, OfCli(j, m), c) then Some(Provided) else s.cells[c].status
  {
  }

  lemma PageOutcome(s: State, d: nat, m: PageMove, c: nat)
    requires PageEnabled(s, d, m) && c < |s.cells|
    ensures c < |PageApply(s, d, m).cells|
    ensures PageApply(s, d, m).cells[c].status
            == match Verdict(s, OfPage(d, m), c)
               case None => s.cells[c].status
               case Some(x) => First(s.cells[c].status, x)
  {
  }

  lemma NativeOutcome(s: State, d: nat, m: NativeMove, c: nat)
    requires NativeEnabled(s, d, m) && c < |s.cells|
    ensures c < |NativeApply(s, d, m).cells|
    ensures NativeApply(s, d, m).cells[c].status
            == match Verdict(s, OfNative(d, m), c)
               case None => s.cells[c].status
               case Some(x) => First(s.cells[c].status, x)
  {
  }

  /**
   For every step and every cell: a recorded CLI answer makes it Provided; otherwise it gets the
   verdict of the step if it had none, and keeps what it had.
   */
  lemma OutcomeStep(s: State, st: Step, c: nat)
    requires Inv(s) && Enabled(s, st) && c < |s.cells|
    ensures c < |Apply(s, st).cells|
    ensures Apply(s, st).cells[c].status
            == if Recorded(s, st, c) then Some(Provided)
               else match Verdict(s, st, c)
                    case None => s.cells[c].status
                    case Some(x) => First(s.cells[c].status, x)
  {
    hide BrokerApply, PageApply, NativeApply, CliApply, Inv;
    match st
    case OfPty(_, _) =>
    case OfBroker(j, snap, m) => BrokerOutcome(s, j, snap, m, c);
    case OfCli(j, m) => CliOutcome(s, j, m, c);
    case OfPage(d, m) => PageOutcome(s, d, m, c);
    case OfNative(d, m) => NativeOutcome(s, d, m, c);
  }

  /** A new cell has no outcome yet, except where the owner has to act or has answered already. */
  predicate NewCell(s: State, st: Step, t: State, c: nat) {
    && |t.cells| == c + 1
    && match st
       case OfBroker(j, snap, Open(_)) =>
         && j in t.asked && t.asked[j] == Ask(snap.gen, c, true)
         && t.cells[c].status.None? && t.cells[c].page.Serving? && t.cells[c].native.Idle?
       case OfBroker(j, snap, Request) =>
         && j in t.asked && t.asked[j] == Ask(snap.gen, c, false) && t.cells[c].page.NoPage?
         && if s.nativePrompts then t.cells[c].status.None? && t.cells[c].native.Asking?
            else t.cells[c].status == Some(OwnerActionRequired) && t.cells[c].native.Idle?
       case OfCli(j, Record(g)) => j in t.asked && t.asked[j] == Ask(g, c, false) && t.cells[c].status == Some(Provided)
       case _ => false
  }

  lemma BrokerNewCell(s: State, j: nat, snap: Snap, m: BrokerMove)
    requires BrokerEnabled(s, j) && |BrokerApply(s, j, snap, m).cells| > |s.cells|
    ensures NewCell(s, OfBroker(j, snap, m), BrokerApply(s, j, snap, m), |s.cells|)
  {
  }

  lemma PageAddsNone(s: State, d: nat, m: PageMove)
    requires PageEnabled(s, d, m)
    ensures |PageApply(s, d, m).cells| == |s.cells|
  {
  }

  lemma CliNewCell(s: State, j: nat, m: CliMove)
    requires CliEnabled(s, j, m) && |CliApply(s, j, m).cells| > |s.cells|
    ensures NewCell(s, OfCli(j, m), CliApply(s, j, m), |s.cells|)
  {
  }

  /** Cells come from requests, opened pages and records only, and each becomes its job's entry. */
  lemma NewCellOutcome(s: State, st: Step)
    requires Enabled(s, st) && |Apply(s, st).cells| > |s.cells|
    ensures NewCell(s, st, Apply(s, st), |s.cells|)
  {
    hide BrokerApply, PageApply, CliApply, NewCell;
    match st
    case OfBroker(j, snap, m) => BrokerNewCell(s, j, snap, m);
    case OfCli(j, m) => CliNewCell(s, j, m);
    case OfPage(d, m) => PageAddsNone(s, d, m);
    case _ =>
  }

  /** After recording a CLI answer the job's entry says Provided. */
  lemma RecordedIsProvided(s: State, j: nat, g: nat)
    requires Inv(s) && Enabled(s, OfCli(j, Record(g)))
    ensures var t := Apply(s, OfCli(j, Record(g)));
      && Current(t, j, g) && t.asked[j].cell < |t.cells| && t.cells[t.asked[j].cell].status == Some(Provided)
  {
  }

  // ---------------------------------------------------------------- answers arrive

  /** The status an owner's answer to a native prompt stands for. */
  function NativeAnswer(m: NativeMove): Status
    requires !m.SettleNative?
  {
    match m
    case Secret(ok) => if ok then Provided else NotAwaiting
    case Refuse => Declined
    case Unavailable => OwnerActionRequired
  }

  /** The status a password typed into a page stands for. */
  function PageAnswer(delivered: bool): Status { if delivered then Provided else NotAwaiting }

  /** An answered prompt or page waits to settle; a settled one does nothing more. */
  ghost predicate TaskStep(s: State, st: Step, c: nat, before: Cell, after: Cell) {
    && (before.native.Resolved? ==> after.native == if st == OfNative(c, SettleNative) then NativeDone else before.native)
    && (before.native.NativeDone? ==> after.native.NativeDone?)
    && (before.page.Answered? ==> after.page == if st == OfPage(c, SettlePost) then PageDone else before.page)
    && (before.page.PageDone? ==> after.page.PageDone?)
  }

  lemma PageTaskStep(s: State, d: nat, m: PageMove, c: nat)
    requires Inv(s) && PageEnabled(s, d, m) && c < |s.cells|
    ensures c < |PageApply(s, d, m).cells| && TaskStep(s, OfPage(d, m), c, s.cells[c], PageApply(s, d, m).cells[c])
  {
    CellOf(s, c);
    hide Inv;
  }

  lemma StepIsTaskStep(s: State, st: Step, c: nat)
    requires Inv(s) && Enabled(s, st) && c < |s.cells|
    ensures c < |Apply(s, st).cells| && TaskStep(s, st, c, s.cells[c], Apply(s, st).cells[c])
  {
    hide BrokerApply, PageApply, CliApply;
    match st
    case OfPty(_, _) =>
    case OfBroker(j, snap, m) => BrokerKeepsTasks(s, j, snap, m, c);
    case OfCli(j, m) => CliKeepsTasks(s, j, m, c);
    case OfPage(d, m) => PageTaskStep(s, d, m, c);
    case OfNative(d, m) => NativeTaskStep(s, d, m, c);
  }

  lemma NativeTaskStep(s: State, d: nat, m: NativeMove, c: nat)
    requires NativeEnabled(s, d, m) && c < |s.cells|
    ensures c < |NativeApply(s, d, m).cells| && TaskStep(s, OfNative(d, m), c, s.cells[c], NativeApply(s, d, m).cells[c])
  {
  }

  /** The prompt settled at step `j`, with the answer `x` unless there was an outcome already. */
  ghost predicate SettledAt(ss: seq<State>, steps: seq<Step>, j: nat, c: nat, settle: Step, x: Status)
    requires j < |steps| && |ss| == |steps| + 1
  {
    && steps[j] == settle && c < |ss[j].cells| && c < |ss[j + 1].cells|
    && ss[j + 1].cells[c].status == First(ss[j].cells[c].status, x)
  }

  /** The answer to a native prompt is held as the status it stands for. */
  lemma NativeAnswered(s: State, c: nat, m: NativeMove)
    requires Enabled(s, OfNative(c, m)) && !m.SettleNative?
    ensures var t := Apply(s, OfNative(c, m)); c < |t.cells| && t.cells[c].native == Resolved(NativeAnswer(m))
  {
  }

  lemma PageAnswered(s: State, c: nat, m: PageMove)
    requires Enabled(s, OfPage(c, m)) && m.Post?
    ensures var t := Apply(s, OfPage(c, m)); c < |t.cells| && t.cells[c].page == Answered(m.ok)
  {
  }

  /** Until it settles, an answered prompt holds what the answer stands for. */
  lemma {:induction false} NativeAnswerArrives(ss: seq<State>, steps: seq<Step>, i: nat, k: nat, c: nat)
    requires IsRun(ss, steps) && |ss| == |steps| + 1 && i < k < |ss|
    requires steps[i].OfNative? && steps[i].c == c && !steps[i].native.SettleNative?
    ensures c < |ss[k].cells|
    ensures var x := NativeAnswer(steps[i].native);
      || ss[k].cells[c].native == Resolved(x)
      || (ss[k].cells[c].native.NativeDone? && ss[k].cells[c].status.Some?
          && exists j :: i < j < k && SettledAt(ss, steps, j, c, OfNative(c, SettleNative), x))
    decreases k
  {
    hide Enabled, Apply, Inv, Init, IsRun, Verdict;
    RunStart(ss, steps);
    var x := NativeAnswer(steps[i].native);
    RunStep(ss, steps, k - 1);
    if k == i + 1 {
      NativeAnswered(ss[i], c, steps[i].native);
    } else {
      NativeAnswerArrives(ss, steps, i, k - 1, c);
      var s, st := ss[k - 1], steps[k - 1];
      RunInv(ss, steps, k - 1);
      StepIsTaskStep(s, st, c);
      OutcomeStep(s, st, c);
      StepKeepsOutcomes(s, st, c);
      if s.cells[c].native == Resolved(x) && st == OfNative(c, SettleNative) {
        NativeVerdict(s, c, x);
        assert SettledAt(ss, steps, k - 1, c, OfNative(c, SettleNative), x);
      }
    }
  }

  lemma NativeVerdict(s: State, c: nat, x: Status)
    requires c < |s.cells| && s.cells[c].native == Resolved(x)
    ensures Verdict(s, OfNative(c, SettleNative), c) == Some(x) && !Recorded(s, OfNative(c, SettleNative), c)
  {
  }

  /** Until it settles, an answered page holds whether the delivery succeeded. */
  lemma {:induction false} PageAnswerArrives(ss: seq<State>, steps: seq<Step>, i: nat, k: nat, c: nat)
    requires IsRun(ss, steps) && |ss| == |steps| + 1 && i < k < |ss|
    requires steps[i].OfPage? && steps[i].c == c && steps[i].page.Post?
    ensures c < |ss[k].cells|
    ensures var ok := steps[i].page.ok;
      || ss[k].cells[c].page == Answered(ok)
      || (ss[k].cells[c].page.PageDone? && ss[k].cells[c].status.Some?
          && exists j :: i < j < k && SettledAt(ss, steps, j, c, OfPage(c, SettlePost), PageAnswer(ok)))
    decreases k
  {
    hide Enabled, Apply, Inv, Init, IsRun, Verdict;
    RunStart(ss, steps);
    var ok := steps[i].page.ok;
    RunStep(ss, steps, k - 1);
    if k == i + 1 {
      PageAnswered(ss[i], c, steps[i].page);
    } else {
      PageAnswerArrives(ss, steps, i, k - 1, c);
      var s, st := ss[k - 1], steps[k - 1];
      RunInv(ss, steps, k - 1);
      StepIsTaskStep(s, st, c);
      OutcomeStep(s, st, c);
      StepKeepsOutcomes(s, st, c);
      if s.cells[c].page == Answered(ok) && st == OfPage(c, SettlePost) {
        PageVerdict(s, c, ok);
        assert SettledAt(ss, steps, k - 1, c, OfPage(c, SettlePost), PageAnswer(ok));
      }
    }
  }

  lemma PageVerdict(s: State, c: nat, ok: bool)
    requires c < |s.cells| && s.cells[c].page == Answered(ok)
    ensures Verdict(s, OfPage(c, SettlePost), c) == Some(PageAnswer(ok))
    ensures !Recorded(s, OfPage(c, SettlePost), c)
  {
  }

  // ------------------------------------------------------- no outcome is forgotten

  /** Neither a page nor a prompt is at work on the cell. */
  predicate Idle(cell: Cell) { (cell.page.NoPage? || cell.page.PageDone?) && !cell.native.Asking? && !cell.native.Resolved? }

  /** An unopened page finds its entry gone and gives up. */
  predicate GivesUp(s: State, st: Step, c: nat) {
    && st == OfPage(c, FallBack) && c < |s.cells|
    && !(s.cells[c].job in s.asked && s.asked[s.cells[c].job].cell == c)
  }

  lemma PageLeavesIdle(s: State, d: nat, m: PageMove, c: nat)
    requires Inv(s) && PageEnabled(s, d, m) && c < |s.cells| && !Idle(s.cells[c]) && !GivesUp(s, OfPage(d, m), c)
    requires Idle(PageApply(s, d, m).cells[c])
    requires s.cells[c].page.Expired? ==> s.cells[c].status.Some?
    ensures PageApply(s, d, m).cells[c].status.Some?
  {
    CellOf(s, c);
    hide Inv;
  }

  lemma PageExpires(s: State, d: nat, m: PageMove, c: nat)
    requires PageEnabled(s, d, m) && c < |s.cells| && (s.cells[c].page.Expired? ==> s.cells[c].status.Some?)
    ensures c < |PageApply(s, d, m).cells|
    ensures PageApply(s, d, m).cells[c].page.Expired? ==> PageApply(s, d, m).cells[c].status.Some?
  {
  }

  lemma ExpiredIsSettled(s: State, st: Step, c: nat)
    requires Inv(s) && Enabled(s, st) && c < |s.cells| && (s.cells[c].page.Expired? ==> s.cells[c].status.Some?)
    ensures c < |Apply(s, st).cells| && (Apply(s, st).cells[c].page.Expired? ==> Apply(s, st).cells[c].status.Some?)
  {
    StepKeepsOutcomes(s, st, c);
    hide BrokerApply, PageApply, CliApply, NativeApply, Inv;
    match st
    case OfPty(_, _) =>
    case OfBroker(j, snap, m) => BrokerKeepsTasks(s, j, snap, m, c);
    case OfCli(j, m) => CliKeepsTasks(s, j, m, c);
    case OfPage(d, m) => PageExpires(s, d, m, c);
    case OfNative(d, m) => NativeKeepsPage(s, d, m, c);
  }

  lemma CliKeepsTasks(s: State, j: nat, m: CliMove, c: nat)
    requires CliEnabled(s, j, m) && c < |s.cells|
    ensures c < |CliApply(s, j, m).cells|
    ensures CliApply(s, j, m).cells[c].page == s.cells[c].page && CliApply(s, j, m).cells[c].native == s.cells[c].native
  {
  }

  lemma NativeKeepsPage(s: State, d: nat, m: NativeMove, c: nat)
    requires NativeEnabled(s, d, m) && c < |s.cells|
    ensures c < |NativeApply(s, d, m).cells| && NativeApply(s, d, m).cells[c].page == s.cells[c].page
    ensures !Idle(s.cells[c]) && Idle(NativeApply(s, d, m).cells[c]) ==> NativeApply(s, d, m).cells[c].status.Some?
  {
  }

  /** What one step keeps: a cell at rest has an outcome, unless its page gave up. */
  ghost predicate Accounted(s: State, c: nat) {
    c < |s.cells| ==> (Idle(s.cells[c]) || s.cells[c].page.Expired? ==> s.cells[c].status.Some?)
  }

  lemma StepAccounts(s: State, st: Step, c: nat)
    requires Inv(s) && Enabled(s, st) && Accounted(s, c) && !GivesUp(s, st, c)
    ensures Accounted(Apply(s, st), c)
  {
    if c < |s.cells| {
      StepKeepsOutcomes(s, st, c);
      ExpiredIsSettled(s, st, c);
      if Idle(Apply(s, st).cells[c]) && !Idle(s.cells[c]) {
        LeavesIdle(s, st, c);
      }
    } else if |Apply(s, st).cells| > |s.cells| {
      NewCellOutcome(s, st);
    }
    hide Apply, Enabled, Inv;
  }

  lemma LeavesIdle(s: State, st: Step, c: nat)
    requires Inv(s) && Enabled(s, st) && c < |s.cells| && Accounted(s, c) && !GivesUp(s, st, c)
    requires c < |Apply(s, st).cells| && !Idle(s.cells[c]) && Idle(Apply(s, st).cells[c])
    ensures Apply(s, st).cells[c].status.Some?
  {
    hide Inv, BrokerApply, PageApply, CliApply, NativeApply;
    match st
    case OfPty(_, _) =>
    case OfBroker(j, snap, m) => BrokerKeepsTasks(s, j, snap, m, c);
    case OfCli(j, m) => CliKeepsTasks(s, j, m, c);
    case OfPage(d, m) => PageLeavesIdle(s, d, m, c);
    case OfNative(d, m) => NativeKeepsPage(s, d, m, c);
  }

  lemma BrokerKeepsTasks(s: State, j: nat, snap: Snap, m: BrokerMove, c: nat)
    requires BrokerEnabled(s, j) && c < |s.cells|
    ensures c < |BrokerApply(s, j, snap, m).cells|
    ensures BrokerApply(s, j, snap, m).cells[c].page == s.cells[c].page
    ensures BrokerApply(s, j, snap, m).cells[c].native == s.cells[c].native
  {
  }

  /**
   Over every run: a cell on which neither a page nor a prompt is at work has an outcome, unless
   its page was accepted, never opened and found its entry gone when it fell back.
   */
  lemma {:induction false} RestingCellHasOutcome(ss: seq<State>, steps: seq<Step>, k: nat, c: nat)
    requires IsRun(ss, steps) && k < |ss| && k <= |steps|
    ensures Accounted(ss[k], c) || exists i :: 0 <= i < k && GivesUp(ss[i], steps[i], c)
  {
    hide Enabled, Apply, Inv, IsRun, Accounted, GivesUp;
    RunStart(ss, steps);
    if k == 0 {
      StartAccounts(ss[0], c);
    } else {
      RunStep(ss, steps, k - 1);
      RestingCellHasOutcome(ss, steps, k - 1, c);
      RunInv(ss, steps, k - 1);
      if Accounted(ss[k - 1], c) && !GivesUp(ss[k - 1], steps[k - 1], c) {
        StepAccounts(ss[k - 1], steps[k - 1], c);
      }
    }
  }

  lemma StartAccounts(s: State, c: nat)
    requires s.cells == []
    ensures Accounted(s, c)
  {
  }

  // ------------------------------------------------------------- pages and entries

  /** The owner's client said it would open the page of this cell. */
  predicate Accepts(s: State, st: Step, c: nat) { st.OfBroker? && st.broker.Accepted? && OnPage(s, st.j, st.snap.gen, c) }

  /** The page of this cell was fetched or posted to. */
  predicate Visits(st: Step, c: nat) { st.OfPage? && st.c == c && (st.page.Get? || st.page.Post?) }

  lemma BrokerMarks(s: State, j: nat, snap: Snap, m: BrokerMove, c: nat)
    requires BrokerEnabled(s, j)
    ensures var t := BrokerApply(s, j, snap, m);
      c < |t.cells| ==>
        && t.cells[c].accepted == ((c < |s.cells| && s.cells[c].accepted) || (c < |s.cells| && Accepts(s, OfBroker(j, snap, m), c)))
        && t.cells[c].visited == (c < |s.cells| && s.cells[c].visited)
  {
    PruneKeepsClaims(s, j, snap.gen);
  }

  lemma PageMarks(s: State, d: nat, m: PageMove, c: nat)
    requires PageEnabled(s, d, m)
    ensures var t := PageApply(s, d, m);
      && |t.cells| == |s.cells|
      && (c < |s.cells| ==>
            t.cells[c].accepted == s.cells[c].accepted && t.cells[c].visited == (s.cells[c].visited || Visits(OfPage(d, m), c)))
  {
  }

  lemma OtherMarks(s: State, st: Step, c: nat)
    requires Enabled(s, st) && (st.OfPty? || st.OfCli? || st.OfNative?)
    ensures var t := Apply(s, st);
      c < |t.cells| ==>
        && t.cells[c].accepted == (c < |s.cells| && s.cells[c].accepted)
        && t.cells[c].visited == (c < |s.cells| && s.cells[c].visited)
  {
    hide CliApply, NativeApply;
    match st
    case OfPty(_, _) =>
    case OfCli(j, m) => CliMarks(s, j, m, c);
    case OfNative(d, m) => NativeMarks(s, d, m, c);
  }

  lemma CliMarks(s: State, j: nat, m: CliMove, c: nat)
    requires CliEnabled(s, j, m)
    ensures var t := CliApply(s, j, m);
      c < |t.cells| ==>
        && t.cells[c].accepted == (c < |s.cells| && s.cells[c].accepted)
        && t.cells[c].visited == (c < |s.cells| && s.cells[c].visited)
  {
  }

  lemma NativeMarks(s: State, d: nat, m: NativeMove, c: nat)
    requires NativeEnabled(s, d, m)
    ensures var t := NativeApply(s, d, m);
      && |t.cells| == |s.cells|
      && (c < |s.cells| ==> t.cells[c].accepted == s.cells[c].accepted && t.cells[c].visited == s.cells[c].visited)
  {
  }

  /** The two marks a page is judged by change exactly when they should. */
  lemma MarkStep(s: State, st: Step, c: nat)
    requires Enabled(s, st)
    ensures var t := Apply(s, st);
      c < |t.cells| ==>
        && t.cells[c].accepted == (c < |s.cells| && (s.cells[c].accepted || Accepts(s, st, c)))
        && t.cells[c].visited == (c < |s.cells| && (s.cells[c].visited || Visits(st, c)))
  {
    hide BrokerApply, PageApply, CliApply, NativeApply, OnPage;
    match st
    case OfBroker(j, snap, m) => BrokerMarks(s, j, snap, m, c);
    case OfPage(d, m) => PageMarks(s, d, m, c);
    case _ => OtherMarks(s, st, c);
  }

  lemma CellsStay(s: State, st: Step)
    requires Inv(s) && Enabled(s, st)
    ensures |s.cells| <= |Apply(s, st).cells|
  {
    if |s.cells| > 0 {
      StepKeepsOutcomes(s, st, |s.cells| - 1);
    }
    hide Apply, Enabled, Inv;
  }

  /** Over every run a page is accepted exactly when a client said so, and visited exactly when somebody came. */
  lemma {:induction false} MarksTell(ss: seq<State>, steps: seq<Step>, k: nat, c: nat)
    requires IsRun(ss, steps) && k < |ss| && k <= |steps| && c < |ss[k].cells|
    ensures ss[k].cells[c].accepted <==> exists i :: 0 <= i < k && c < |ss[i].cells| && Accepts(ss[i], steps[i], c)
    ensures ss[k].cells[c].visited <==> exists i :: 0 <= i < k && c < |ss[i].cells| && Visits(steps[i], c)
  {
    hide Apply, Enabled, Inv, IsRun, Accepts, Visits;
    RunStart(ss, steps);
    if k > 0 {
      RunStep(ss, steps, k - 1);
      MarkStep(ss[k - 1], steps[k - 1], c);
      if c < |ss[k - 1].cells| {
        MarksTell(ss, steps, k - 1, c);
      } else {
        forall i | 0 <= i < k
          ensures c >= |ss[i].cells|
        {
          CellsGrow(ss, steps, i, k - 1);
        }
      }
    }
  }

  lemma {:induction false} CellsGrow(ss: seq<State>, steps: seq<Step>, i: nat, k: nat)
    requires IsRun(ss, steps) && i <= k < |ss|
    ensures |ss[i].cells| <= |ss[k].cells|
    decreases k
  {
    hide Apply, Enabled, Inv, Init, IsRun;
    RunStart(ss, steps);
    if i < k {
      RunStep(ss, steps, k - 1);
      CellsGrow(ss, steps, i, k - 1);
      RunInv(ss, steps, k - 1);
      CellsStay(ss[k - 1], steps[k - 1]);
    }
  }

  /** Over every run a page is closed unopened only when a client accepted it and nobody came. */
  lemma ClosedUnopened(ss: seq<State>, steps: seq<Step>, k: nat, c: nat)
    requires IsRun(ss, steps) && k < |steps| && k < |ss| && steps[k] == OfPage(c, CloseUnopened)
    ensures exists i :: 0 <= i < k && c < |ss[i].cells| && Accepts(ss[i], steps[i], c)
    ensures forall i | 0 <= i < k && c < |ss[i].cells| :: !Visits(steps[i], c)
  {
    hide Apply, Init, IsRun, Accepts, Visits;
    RunStep(ss, steps, k);
    MarksTell(ss, steps, k, c);
  }

  /** An expired page is forgotten, and the next open of an awaited prompt starts a new one. */
  lemma ExpiredCanReopen(s: State, c: nat, snap: Snap)
    requires Inv(s) && PageEnabled(s, c, Forget)
    ensures var t, j := PageApply(s, c, Forget), s.cells[c].job;
      && !(j in t.asked && t.asked[j].cell == c)
      && (j in s.jobs && s.jobs[j].live && j in s.asked && s.asked[j].cell == c && snap.awaiting ==>
            var u := OpenApply(t, j, snap, true);
            |u.cells| == |t.cells| + 1 && u.cells[|t.cells|].page.Serving? && u.asked[j] == Ask(snap.gen, |t.cells|, true))
  {
  }

  /** An abandoned page is gone, and the next request of an awaited prompt asks natively. */
  lemma AbandonedIsAskedNatively(s: State, j: nat, snap: Snap, c: nat)
    requires Inv(s) && j in s.jobs && OnPage(s, j, snap.gen, c) && c < |s.cells| && s.cells[c].status.None?
    requires snap.awaiting && s.nativePrompts
    ensures var t := PageOpApply(s, j, snap, Abandon);
      && j !in t.asked && t.cells[c].status == Some(NotAwaiting)
      && RequestApply(t, j, snap).started == s.started + [(j, snap.gen)]
  {
  }

  /** A declined page stays the entry of its prompt: later requests of the prompt see the refusal. */
  lemma DeclinedStays(s: State, j: nat, snap: Snap, c: nat)
    requires Inv(s) && j in s.jobs && OnPage(s, j, snap.gen, c) && c < |s.cells| && s.cells[c].status.None?
    ensures var t := PageOpApply(s, j, snap, Decline);
      && OnPage(t, j, snap.gen, c) && t.cells[c].status == Some(Declined)
      && RequestApply(t, j, snap).cells == t.cells && RequestApply(t, j, snap).started == t.started
  {
  }
}
