/**
 Waiting on a bucket (crates/core/src/bucket.rs, 518-588): one read, then a wake-up raced against
 a timeout, then either a second read or a snapshot of the tail. Appends, patches and evictions
 may happen between any two of these.
 */
module BucketWait {
  import opened Common
  import opened Bucket
  import opened BucketReader

  /** What the caller asked for. */
  datatype Request = Request(cursor: nat, f: Filter, limit: nat)

  /**
   `seen` is how much history there was at the first read, `armedAt` when the wake-up was armed,
   `elapsedAt` when the timeout was found to have elapsed.
   */
  datatype Phase =
    | Starting
    | Unarmed(seen: nat)
    | Armed(seen: nat, armedAt: nat, notified: bool)
    | Woken
    | Elapsed(seen: nat, armedAt: nat, elapsedAt: nat)
    | Done(r: Response)

  datatype Response = Response(nextCursor: nat, heartbeat: bool, events: seq<Event>)

  datatype Wait = Wait(history: seq<Event>, dropped: nat, phase: Phase)

  datatype Act =
    | Add(e: Event)
    | Expire(count: nat)
    | Amend(at: nat, e: Event)
    | FirstRead(p: Page)
    | Arm
    | Wake
    | Elapse
    | SecondRead(p: Page)
    | Snapshot

  function Stored(w: Wait): seq<Event>
    requires w.dropped <= |w.history|
  {
    w.history[w.dropped..]
  }

  predicate Reads(w: Wait, q: Request, p: Page)
    requires w.dropped <= |w.history|
  {
    p.cursorIn == q.cursor && IsPage(Stored(w), q.f, q.limit, p)
  }

  /** The timeout is looked at only when no wake-up has come. */
  predicate Can(w: Wait, a: Act, q: Request)
    requires w.dropped <= |w.history|
  {
    match a
    case Add(e) => e.seqNo > Tail(w.history)
    case Expire(n) => w.dropped + n <= |w.history|
    case Amend(i, e) => w.dropped <= i < |w.history| && Same(w.history[i], e)
    case FirstRead(p) => w.phase.Starting? && Reads(w, q, p)
    case Arm => w.phase.Unarmed?
    case Wake => w.phase.Armed? && w.phase.notified
    case Elapse => w.phase.Armed? && !w.phase.notified
    case SecondRead(p) => w.phase.Woken? && Reads(w, q, p)
    case Snapshot => w.phase.Elapsed?
  }

  function Notified(ph: Phase): Phase { if ph.Armed? then ph.(notified := true) else ph }

  function Do(w: Wait, a: Act, q: Request): Wait
    requires w.dropped <= |w.history| && Can(w, a, q)
  {
    match a
    case Add(e) => w.(history := w.history + [e], phase := Notified(w.phase))
    case Expire(n) => w.(dropped := w.dropped + n)
    case Amend(i, e) => w.(history := w.history[i := e], phase := Notified(w.phase))
    case FirstRead(p) =>
      w.(phase := if p.events != [] then Done(Response(p.nextCursor, false, p.events)) else Unarmed(|w.history|))
    case Arm => w.(phase := Armed(w.phase.seen, |w.history|, false))
    case Wake => w.(phase := Woken)
    case Elapse => w.(phase := Elapsed(w.phase.seen, w.phase.armedAt, |w.history|))
    case SecondRead(p) => w.(phase := Done(Response(p.nextCursor, p.events == [], p.events)))
    case Snapshot => w.(phase := Done(Response(Max(Tail(w.history), q.cursor), true, [])))
  }

  ghost predicate IsWait(ws: seq<Wait>, acts: seq<Act>, q: Request) {
    && |ws| == |acts| + 1
    && Rising(ws[0].history) && ws[0].dropped <= |ws[0].history| && ws[0].phase.Starting?
    && q.limit >= 1
    && forall k | 0 <= k < |acts| ::
         ws[k].dropped <= |ws[k].history| && Can(ws[k], acts[k], q) && ws[k + 1] == Do(ws[k], acts[k], q)
  }

  /** Nothing stored below `seen` is wanted. */
  predicate NothingWanted(w: Wait, seen: nat, q: Request) {
    seen <= |w.history| && forall i | w.dropped <= i < seen :: !Wanted(w.history[i], q.cursor, q.f)
  }

  ghost predicate WaitInv(w: Wait, q: Request) {
    && Rising(w.history) && w.dropped <= |w.history|
    && (w.phase.Unarmed? ==> NothingWanted(w, w.phase.seen, q))
    && (w.phase.Armed? ==>
          && NothingWanted(w, w.phase.seen, q)
          && w.phase.seen <= w.phase.armedAt <= |w.history|
          && (!w.phase.notified ==> w.phase.armedAt == |w.history|))
    && (w.phase.Elapsed? ==>
          && NothingWanted(w, w.phase.seen, q)
          && w.phase.seen <= w.phase.armedAt == w.phase.elapsedAt <= |w.history|)
  }

  lemma ChangeKeepsInv(w: Wait, a: Act, q: Request)
    requires WaitInv(w, q) && Can(w, a, q) && (a.Add? || a.Expire? || a.Amend?)
    ensures WaitInv(Do(w, a, q), q)
  {
    hide IsPage, Filter.Accepts;
    var v := Do(w, a, q);
    assert Rising(v.history) by {
      assert a.Add? && w.history != [] ==> Tail(w.history) == w.history[|w.history| - 1].seqNo;
    }
    forall seen: nat | NothingWanted(w, seen, q)
      ensures NothingWanted(v, seen, q)
    {
      forall i | v.dropped <= i < seen
        ensures !Wanted(v.history[i], q.cursor, q.f)
      {
        assert !Wanted(w.history[i], q.cursor, q.f);
        SameIsWanted(w.history[i], v.history[i], q);
      }
    }
  }

  lemma SameIsWanted(a: Event, b: Event, q: Request)
    requires Same(a, b)
    ensures Wanted(a, q.cursor, q.f) == Wanted(b, q.cursor, q.f)
  {
  }

  lemma WaiterKeepsInv(w: Wait, a: Act, q: Request)
    requires WaitInv(w, q) && Can(w, a, q) && q.limit >= 1 && !(a.Add? || a.Expire? || a.Amend?)
    ensures WaitInv(Do(w, a, q), q)
  {
    hide IsPage, Wanted;
    if a.FirstRead? && a.p.events == [] {
      var s := State(w.history, w.dropped, q.cursor, []);
      StoredRises(s);
      PageIsComplete(Stored(w), q.f, q.limit, a.p);
      assert forall i | w.dropped <= i < |w.history| :: w.history[i] in Stored(w);
    }
  }

  lemma {:induction false} WaitRunInv(ws: seq<Wait>, acts: seq<Act>, q: Request)
    requires IsWait(ws, acts, q)
    ensures WaitInv(ws[|acts|], q)
    decreases |acts|
  {
    hide WaitInv;
    var n := |acts|;
    if n == 0 {
      assert WaitInv(ws[0], q) by { FreshWait(ws[0], q); }
    } else {
      WaitRunInv(ws[..n], acts[..n - 1], q);
      var a := acts[n - 1];
      if a.Add? || a.Expire? || a.Amend? {
        ChangeKeepsInv(ws[n - 1], a, q);
      } else {
        WaiterKeepsInv(ws[n - 1], a, q);
      }
    }
  }

  lemma FreshWait(w: Wait, q: Request)
    requires Rising(w.history) && w.dropped <= |w.history| && w.phase.Starting?
    ensures WaitInv(w, q)
  {
  }

  /** The events an answer moves the caller past without handing them over. */
  predicate Skips(w: Wait, q: Request, r: Response, i: nat) {
    w.dropped <= i < |w.history| && Wanted(w.history[i], q.cursor, q.f)
    && w.history[i].seqNo <= r.nextCursor && w.history[i] !in r.events
  }

  /** An answer from a read, before or after a wake-up, skips no stored matching event. */
  lemma ReadsSkipNothing(ws: seq<Wait>, acts: seq<Act>, q: Request)
    requires IsWait(ws, acts, q) && |acts| >= 1 && (acts[|acts| - 1].FirstRead? || acts[|acts| - 1].SecondRead?)
    requires ws[|acts|].phase.Done?
    ensures forall i: nat :: !Skips(ws[|acts|], q, ws[|acts|].phase.r, i)
    ensures ws[|acts|].phase.r.heartbeat <==> ws[|acts|].phase.r.events == []
    ensures ws[|acts|].phase.r.heartbeat ==> ws[|acts|].phase.r.nextCursor == q.cursor
  {
    hide IsPage, Wanted;
    var n := |acts|;
    var w, a := ws[n - 1], acts[n - 1];
    WaitRunInv(ws[..n], acts[..n - 1], q);
    StoredRises(State(w.history, w.dropped, q.cursor, []));
    PageIsComplete(Stored(w), q.f, q.limit, a.p);
  }

  /** No stored event is wanted. */
  predicate NoneWanted(w: Wait, q: Request) {
    forall i | w.dropped <= i < |w.history| :: !Wanted(w.history[i], q.cursor, q.f)
  }

  /**
   What an answer from a read holds: the first `limit` wanted events that are stored, in order,
   with the cursor at the last of them. It is a heartbeat exactly when no stored event is wanted.
   */
  ghost predicate AnswersWhatIsThere(w: Wait, q: Request, r: Response) {
    && w.dropped <= |w.history|
    && var pending := Pending(Stored(w), q.cursor, q.f);
    && r.events == pending[..Min(q.limit, |pending|)]
    && r.nextCursor == (if r.events == [] then q.cursor else r.events[|r.events| - 1].seqNo)
    && (r.heartbeat <==> NoneWanted(w, q))
  }

  lemma NothingPending(w: Wait, q: Request)
    requires w.dropped <= |w.history|
    ensures Pending(Stored(w), q.cursor, q.f) == [] <==> NoneWanted(w, q)
  {
    hide Wanted;
    var es := Stored(w);
    var pending := Pending(es, q.cursor, q.f);
    PendingIs(es, q.cursor, q.f);
    hide Pending;
    if pending != [] {
      assert pending[0] in pending && pending[0] in es;
      var k :| 0 <= k < |es| && es[k] == pending[0];
      assert w.history[w.dropped + k] == pending[0];
    }
    forall i | w.dropped <= i < |w.history| && Wanted(w.history[i], q.cursor, q.f)
      ensures pending != []
    {
      assert es[i - w.dropped] == w.history[i];
      assert w.history[i] in pending;
    }
  }

  /** An answer from a read, before or after a wake-up, is what is there. */
  lemma ReadsAnswerWhatIsThere(ws: seq<Wait>, acts: seq<Act>, q: Request)
    requires IsWait(ws, acts, q) && |acts| >= 1 && (acts[|acts| - 1].FirstRead? || acts[|acts| - 1].SecondRead?)
    requires ws[|acts|].phase.Done?
    ensures AnswersWhatIsThere(ws[|acts| - 1], q, ws[|acts|].phase.r)
  {
    var w := ws[|acts| - 1];
    NothingPending(w, q);
    hide Pending, NoneWanted;
  }

  /** The first read goes on to wait exactly when no stored event is wanted. */
  lemma WaitsOnlyForNothing(ws: seq<Wait>, acts: seq<Act>, q: Request)
    requires IsWait(ws, acts, q) && |acts| >= 1 && acts[|acts| - 1].FirstRead?
    ensures ws[|acts| - 1].dropped <= |ws[|acts| - 1].history|
    ensures ws[|acts|].phase.Unarmed? <==> Pending(Stored(ws[|acts| - 1]), q.cursor, q.f) == []
    ensures ws[|acts|].phase.Done? <==> Pending(Stored(ws[|acts| - 1]), q.cursor, q.f) != []
  {
    hide Pending;
  }

  /**
   A waiter that is woken gets the event that woke it: if a wanted event was appended after the
   wake-up was armed and is still stored at the second read, the answer is not a heartbeat.
   */
  lemma WokenWithTheEvent(ws: seq<Wait>, acts: seq<Act>, q: Request, i: nat)
    requires IsWait(ws, acts, q) && |acts| >= 1 && acts[|acts| - 1].SecondRead?
    requires var w := ws[|acts| - 1]; w.dropped <= i < |w.history| && Wanted(w.history[i], q.cursor, q.f)
    ensures ws[|acts|].phase.Done? && !ws[|acts|].phase.r.heartbeat && ws[|acts|].phase.r.events != []
  {
    hide IsPage, Wanted, Pending;
    ReadsAnswerWhatIsThere(ws, acts, q);
    NothingPending(ws[|acts| - 1], q);
  }

  /** A wait that has not answered can always go on by itself: no step of a bucket is needed but its time. */
  lemma WaitGoesOn(w: Wait, q: Request) returns (a: Act)
    requires WaitInv(w, q) && !w.phase.Done?
    ensures Can(w, a, q) && !(a.Add? || a.Expire? || a.Amend?)
  {
    hide Pending;
    var pending := if w.dropped <= |w.history| then Pending(Stored(w), q.cursor, q.f) else [];
    var events := pending[..Min(q.limit, |pending|)];
    var p := Page(q.cursor, if events == [] then q.cursor else events[|events| - 1].seqNo, q.limit < |pending|, w.dropped, events);
    match w.phase
    case Starting => a := FirstRead(p);
    case Unarmed(_) => a := Arm;
    case Armed(_, _, notified) => a := if notified then Wake else Elapse;
    case Woken => a := SecondRead(p);
    case Elapsed(_, _, _) => a := Snapshot;
  }

  /**
   A timeout answer skips exactly the matching events that were appended between the first read
   and arming the wake-up, or between the timeout elapsing and the tail snapshot, and are still
   stored. It skips none exactly when nothing matching fell into these two gaps.
   */
  lemma TimeoutSkipsTheGaps(ws: seq<Wait>, acts: seq<Act>, q: Request)
    requires IsWait(ws, acts, q) && |acts| >= 1 && acts[|acts| - 1].Snapshot?
    ensures
      var w, v := ws[|acts| - 1], ws[|acts|];
      && v.phase.Done? && w.phase.Elapsed?
      && w.phase.seen <= w.phase.armedAt <= w.phase.elapsedAt <= |v.history|
      && v.phase.r.heartbeat && v.phase.r.events == [] && v.phase.r.nextCursor >= q.cursor
      && (v.phase.r.nextCursor == q.cursor
          || (v.history != [] && v.phase.r.nextCursor == v.history[|v.history| - 1].seqNo))
      && forall i: nat ::
           Skips(v, q, v.phase.r, i) <==>
           && v.dropped <= i < |v.history| && Wanted(v.history[i], q.cursor, q.f)
           && (w.phase.seen <= i < w.phase.armedAt || w.phase.elapsedAt <= i)
  {
    hide IsPage, Wanted;
    var n := |acts|;
    var w := ws[n - 1];
    WaitRunInv(ws[..n], acts[..n - 1], q);
    TailIsLargest(w);
  }

  lemma TailIsLargest(w: Wait)
    requires Rising(w.history)
    ensures forall i | 0 <= i < |w.history| :: w.history[i].seqNo <= Tail(w.history)
  {
  }

  /** An event appended while the wake-up is armed always wakes the waiter: the timeout cannot win. */
  lemma ArmedAppendWakes(ws: seq<Wait>, acts: seq<Act>, q: Request)
    requires IsWait(ws, acts, q) && |acts| >= 1 && acts[|acts| - 1].Elapse?
    ensures
      var ph := ws[|acts|].phase;
      ph.Elapsed? && ph.elapsedAt == ph.armedAt
  {
    WaitRunInv(ws, acts, q);
  }

  /** Once skipped, an event is in no page that is read from the returned cursor or from beyond it. */
  lemma SkippedIsLost(w: Wait, q: Request, r: Response, i: nat, es: seq<Event>, f: Filter, limit: nat, p: Page)
    requires Skips(w, q, r, i)
    requires Rising(es) && limit >= 1 && IsPage(es, f, limit, p) && p.cursorIn >= r.nextCursor
    ensures w.history[i] !in p.events
  {
    PageIsComplete(es, f, limit, p);
  }

  /** The first gap is real: here the only event of the bucket arrives before the wake-up is armed. */
  lemma EarlyGapLosesEvent(e: Event, q: Request) returns (ws: seq<Wait>, none: Page)
    requires q.cursor == 0 && q.limit >= 1 && e.seqNo == 1 && q.f.Accepts(e)
    ensures IsWait(ws, [FirstRead(none), Add(e), Arm, Elapse, Snapshot], q)
    ensures ws[5].phase.Done? && Skips(ws[5], q, ws[5].phase.r, 0)
  {
    none := Page(0, 0, false, 0, []);
    ws := [Wait([], 0, Starting), Wait([], 0, Unarmed(0)), Wait([e], 0, Unarmed(0)), Wait([e], 0, Armed(0, 1, false)),
           Wait([e], 0, Elapsed(0, 1, 1)), Wait([e], 0, Done(Response(1, true, [])))];
    assert IsPage([], q.f, q.limit, none);
    assert [] + [e] == [e];
  }

  /** The second gap is real: here it arrives after the timeout and before the snapshot. */
  lemma LateGapLosesEvent(e: Event, q: Request) returns (ws: seq<Wait>, none: Page)
    requires q.cursor == 0 && q.limit >= 1 && e.seqNo == 1 && q.f.Accepts(e)
    ensures IsWait(ws, [FirstRead(none), Arm, Elapse, Add(e), Snapshot], q)
    ensures ws[5].phase.Done? && Skips(ws[5], q, ws[5].phase.r, 0)
  {
    none := Page(0, 0, false, 0, []);
    ws := [Wait([], 0, Starting), Wait([], 0, Unarmed(0)), Wait([], 0, Armed(0, 0, false)), Wait([], 0, Elapsed(0, 0, 0)),
           Wait([e], 0, Elapsed(0, 0, 0)), Wait([e], 0, Done(Response(1, true, [])))];
    assert IsPage([], q.f, q.limit, none);
    assert [] + [e] == [e];
  }
}
