/**
 A reader that pages through one bucket with a fixed filter (crates/core/src/bucket.rs, 600-657),
 while appends, evictions and patches happen between its reads.

 The bucket is seen as the history of all its events, of which the first `dropped` are gone.
 */
module BucketReader {
  import opened Common
  import opened Bucket

  predicate Rising(es: seq<Event>) { forall i, j | 0 <= i < j < |es| :: es[i].seqNo < es[j].seqNo }

  // --------------------------------------------------------------------- one page

  lemma {:induction false} PendingIs(es: seq<Event>, cursor: nat, f: Filter)
    ensures forall e :: e in Pending(es, cursor, f) <==> e in es && Wanted(e, cursor, f)
  {
    hide Wanted;
    if es != [] {
      PendingIs(es[1..], cursor, f);
      assert forall e :: e in es <==> e == es[0] || e in es[1..];
    }
  }

  lemma {:induction false} PendingRises(es: seq<Event>, cursor: nat, f: Filter)
    requires Rising(es)
    ensures Rising(Pending(es, cursor, f))
  {
    if es != [] {
      PendingRises(es[1..], cursor, f);
      PendingIs(es[1..], cursor, f);
      var rest := Pending(es[1..], cursor, f);
      forall k | 0 <= k < |rest|
        ensures es[0].seqNo < rest[k].seqNo
      {
        assert rest[k] in es[1..];
      }
    }
  }

  /** The page ends exactly where the pending events pass the new cursor. */
  lemma PageCut(es: seq<Event>, f: Filter, limit: nat, p: Page, k: nat)
    requires Rising(es) && limit >= 1 && IsPage(es, f, limit, p) && k < |Pending(es, p.cursorIn, f)|
    ensures Pending(es, p.cursorIn, f)[k].seqNo <= p.nextCursor <==> k < |p.events|
    ensures Pending(es, p.cursorIn, f)[k] in es && Wanted(Pending(es, p.cursorIn, f)[k], p.cursorIn, f)
    ensures p.cursorIn < Pending(es, p.cursorIn, f)[k].seqNo
  {
    PendingIs(es, p.cursorIn, f);
    PendingRises(es, p.cursorIn, f);
    hide Pending, Filter.Accepts;
    assert Pending(es, p.cursorIn, f)[k] in Pending(es, p.cursorIn, f);
  }

  /**
   A page holds, in order, exactly the wanted events up to the new cursor, and `hasMore` says
   whether a wanted event is stored beyond it.
   */
  lemma PageIsComplete(es: seq<Event>, f: Filter, limit: nat, p: Page)
    requires Rising(es) && limit >= 1 && IsPage(es, f, limit, p)
    ensures Rising(p.events) && p.cursorIn <= p.nextCursor
    ensures forall e :: e in p.events <==> e in es && Wanted(e, p.cursorIn, f) && e.seqNo <= p.nextCursor
    ensures p.hasMore <==> exists e :: e in es && Wanted(e, p.nextCursor, f)
    ensures p.events == [] <==> p.nextCursor == p.cursorIn
    ensures p.hasMore ==> p.events != []
  {
    var all, n := Pending(es, p.cursorIn, f), |p.events|;
    PendingIs(es, p.cursorIn, f);
    PendingRises(es, p.cursorIn, f);
    forall k | 0 <= k < |all|
      ensures all[k].seqNo <= p.nextCursor <==> k < n
      ensures p.cursorIn < all[k].seqNo
    {
      PageCut(es, f, limit, p, k);
    }
    hide Pending, Filter.Accepts;
    assert forall k | 0 <= k < n :: all[k] == p.events[k];
    if p.hasMore {
      assert all[n] in all;
    }
  }

  // --------------------------------------------------------- pages of a bucket at rest

  /** The bucket at rest, read from `p.nextCursor` on, has what `p` left. */
  lemma {:induction false} PendingAfter(es: seq<Event>, cursor: nat, next: nat, f: Filter, n: nat)
    requires Rising(es) && cursor <= next && n <= |Pending(es, cursor, f)|
    requires forall k | 0 <= k < |Pending(es, cursor, f)| :: Pending(es, cursor, f)[k].seqNo <= next <==> k < n
    ensures Pending(es, next, f) == Pending(es, cursor, f)[n..]
  {
    if es != [] {
      var all, rest := Pending(es, cursor, f), Pending(es[1..], cursor, f);
      if Wanted(es[0], cursor, f) {
        assert all[0] == es[0] && forall k | 0 <= k < |rest| :: rest[k] == all[k + 1];
        if n == 0 {
          assert forall k | 0 <= k < |rest| :: rest[k].seqNo > next;
          PendingAfter(es[1..], cursor, next, f, 0);
        } else {
          PendingAfter(es[1..], cursor, next, f, n - 1);
        }
      } else {
        PendingAfter(es[1..], cursor, next, f, n);
      }
    }
  }

  /** Each page is a full step through what is pending, so paging ends. */
  lemma PageMoves(es: seq<Event>, f: Filter, limit: nat, p: Page)
    requires Rising(es) && limit >= 1 && IsPage(es, f, limit, p)
    ensures Pending(es, p.cursorIn, f) == p.events + Pending(es, p.nextCursor, f)
    ensures p.hasMore ==> |p.events| == limit
    ensures !p.hasMore <==> Pending(es, p.nextCursor, f) == []
  {
    var all, n := Pending(es, p.cursorIn, f), |p.events|;
    assert p.cursorIn <= p.nextCursor by { PageIsComplete(es, f, limit, p); }
    forall k | 0 <= k < |all|
      ensures all[k].seqNo <= p.nextCursor <==> k < n
    {
      PageCut(es, f, limit, p, k);
    }
    PendingAfter(es, p.cursorIn, p.nextCursor, f, n);
  }

  function Joined(pages: seq<Page>): seq<Event> {
    if pages == [] then [] else pages[0].events + Joined(pages[1..])
  }

  /** Pages read one after another, each from the cursor the one before returned, while `hasMore`. */
  predicate Chain(es: seq<Event>, f: Filter, limit: nat, pages: seq<Page>) {
    pages != [] ==>
      && IsPage(es, f, limit, pages[0])
      && (|pages| > 1 ==> pages[0].hasMore && pages[1].cursorIn == pages[0].nextCursor)
      && Chain(es, f, limit, pages[1..])
  }

  /** On a bucket that does not change, a finished page loop has read exactly the filtered list. */
  lemma {:induction false} PagesAreTheWholeList(es: seq<Event>, f: Filter, limit: nat, pages: seq<Page>)
    requires Rising(es) && limit >= 1
    requires pages != [] && Chain(es, f, limit, pages) && !pages[|pages| - 1].hasMore
    ensures Joined(pages) == Pending(es, pages[0].cursorIn, f)
    decreases |pages|
  {
    hide IsPage, Rising, Pending;
    PageMoves(es, f, limit, pages[0]);
    if |pages| == 1 {
      assert pages[1..] == [];
    } else {
      PagesAreTheWholeList(es, f, limit, pages[1..]);
    }
  }

  lemma OneMore(n: nat, limit: nat)
    ensures (n + 1) * limit == n * limit + limit
  {
  }

  /** A page loop that is still going has read `limit` events a page, so it cannot go on for ever. */
  lemma {:induction false} PageLoopEnds(es: seq<Event>, f: Filter, limit: nat, pages: seq<Page>)
    requires Rising(es) && limit >= 1
    requires pages != [] && Chain(es, f, limit, pages) && pages[|pages| - 1].hasMore
    ensures |pages| * limit < |Pending(es, pages[0].cursorIn, f)|
    decreases |pages|
  {
    hide IsPage, Rising, Pending;
    PageMoves(es, f, limit, pages[0]);
    if |pages| > 1 {
      PageLoopEnds(es, f, limit, pages[1..]);
      OneMore(|pages| - 1, limit);
    } else {
      OneMore(0, limit);
    }
  }

  // ------------------------------------------------------------ reads of a moving bucket

  /** `cursor` and `delivered` are the reader's: where it stands and all it has received. */
  datatype State = State(history: seq<Event>, dropped: nat, cursor: nat, delivered: seq<Event>)

  datatype Step =
    | Append(e: Event)
    | Evict(count: nat)
    | Patch(at: nat, e: Event)
    | Read(limit: nat, p: Page)

  /** The same event, up to the fields a patch may change. */
  predicate Same(a: Event, b: Event) {
    b == a.(count := b.count, firstSeen := b.firstSeen, lastSeen := b.lastSeen)
  }

  function Tail(history: seq<Event>): nat { if history == [] then 0 else history[|history| - 1].seqNo }

  predicate Enabled(s: State, st: Step, f: Filter)
    requires s.dropped <= |s.history|
  {
    match st
    case Append(e) => e.seqNo > Tail(s.history)
    case Evict(n) => s.dropped + n <= |s.history|
    case Patch(i, e) => s.dropped <= i < |s.history| && Same(s.history[i], e)
    case Read(limit, p) => limit >= 1 && p.cursorIn == s.cursor && IsPage(s.history[s.dropped..], f, limit, p)
  }

  function Apply(s: State, st: Step, f: Filter): State
    requires s.dropped <= |s.history| && Enabled(s, st, f)
  {
    match st
    case Append(e) => s.(history := s.history + [e])
    case Evict(n) => s.(dropped := s.dropped + n)
    case Patch(i, e) => s.(history := s.history[i := e])
    case Read(limit, p) => s.(cursor := p.nextCursor, delivered := s.delivered + p.events)
  }

  /** An accepted append is one append step and then the evictions that capacity asks for. */
  lemma AppendIsSteps(s: State, e: Event, max: nat, f: Filter) returns (n: nat)
    requires s.dropped <= |s.history| && e.seqNo > Tail(s.history)
    ensures
      var t := Apply(s, Append(e), f);
      && t.dropped <= |t.history| && Enabled(t, Evict(n), f)
      && var u := Apply(t, Evict(n), f); u.history[u.dropped..] == Newest(s.history[s.dropped..] + [e], max)
  {
    var es := s.history[s.dropped..] + [e];
    n := if |es| <= max then 0 else |es| - max;
    assert (s.history + [e])[s.dropped..] == es;
  }

  /** A read is the evictions that time asks for and then one read step. */
  lemma ExpiryIsSteps(s: State, cutoff: int, f: Filter) returns (n: nat)
    requires s.dropped <= |s.history|
    ensures Enabled(s, Evict(n), f)
    ensures var t := Apply(s, Evict(n), f); t.history[t.dropped..] == DropStale(s.history[s.dropped..], cutoff)
  {
    var es := s.history[s.dropped..];
    DropStaleIs(es, cutoff);
    n := |es| - |DropStale(es, cutoff)|;
  }

  /** A patch is one patch step on the event with its number, or nothing when none has it. */
  lemma PatchIsStep(s: State, op: Op, es': seq<Event>, tail: nat, f: Filter) returns (st: Step)
    requires Rising(s.history) && s.dropped <= |s.history|
    requires op.Patching? && Does(s.history[s.dropped..], tail, op, es', tail)
    ensures Enabled(s, st, f)
    ensures var t := Apply(s, st, f); t.dropped <= |t.history| && t.history[t.dropped..] == es'
    ensures var t := Apply(s, st, f); t.cursor == s.cursor && t.delivered == s.delivered && Tail(t.history) == Tail(s.history)
  {
    var es := s.history[s.dropped..];
    if i :| 0 <= i < |es| && es[i].seqNo == op.n {
      st := Patch(s.dropped + i, es'[i]);
      var t := Apply(s, st, f);
      assert forall k | 0 <= k < |es| && k != i :: es[k].seqNo != op.n;
      assert t.history[t.dropped..] == es';
    } else {
      st := Evict(0);
      assert es == es';
    }
  }

  predicate Received(s: State, e: Event) { exists d :: d in s.delivered && d.seqNo == e.seqNo }

  predicate Begins(s: State, start: nat) {
    Rising(s.history) && s.dropped <= |s.history| && s.cursor == start && s.delivered == []
  }

  /** Every event at most once and in order, and nothing that was there to be read is passed over. */
  predicate Sound(s: State, start: nat, f: Filter) {
    && Rising(s.delivered)
    && (forall d | d in s.delivered :: Wanted(d, start, f) && d.seqNo <= s.cursor)
    && (forall d | d in s.delivered :: exists e :: e in s.history && Same(e, d))
  }

  predicate Complete(s: State, start: nat, f: Filter) {
    forall i | 0 <= i < |s.history| && Wanted(s.history[i], start, f) && s.history[i].seqNo <= s.cursor ::
      i < s.dropped || Received(s, s.history[i])
  }

  ghost predicate Inv(s: State, start: nat, f: Filter) {
    && Rising(s.history) && s.dropped <= |s.history|
    && start <= s.cursor
    && (s.cursor == start || s.cursor <= Tail(s.history))
    && Sound(s, start, f) && Complete(s, start, f)
  }

  lemma StoredRises(s: State)
    requires Rising(s.history) && s.dropped <= |s.history|
    ensures Rising(s.history[s.dropped..])
    ensures forall i | s.dropped <= i < |s.history| :: s.history[i] in s.history[s.dropped..]
    ensures forall i | 0 <= i < |s.history| :: s.history[i].seqNo <= Tail(s.history)
  {
    forall i | s.dropped <= i < |s.history|
      ensures s.history[i] in s.history[s.dropped..]
    {
      assert s.history[i] == s.history[s.dropped..][i - s.dropped];
    }
  }

  lemma NextCursorIsStored(es: seq<Event>, f: Filter, limit: nat, p: Page)
    requires limit >= 1 && IsPage(es, f, limit, p)
    ensures p.nextCursor == p.cursorIn || exists e :: e in es && e.seqNo == p.nextCursor
  {
    PendingIs(es, p.cursorIn, f);
    if p.events != [] {
      assert p.events[|p.events| - 1] in Pending(es, p.cursorIn, f);
    }
  }

  lemma ReadKeepsSound(s: State, p: Page, t: State, start: nat, f: Filter)
    requires Sound(s, start, f) && start <= s.cursor <= p.nextCursor
    requires Rising(p.events)
    requires forall e | e in p.events :: e in s.history && Wanted(e, s.cursor, f) && e.seqNo <= p.nextCursor
    requires t == s.(cursor := p.nextCursor, delivered := s.delivered + p.events)
    ensures Sound(t, start, f)
  {
    hide Filter.Accepts;
    assert forall k | 0 <= k < |s.delivered| :: s.delivered[k] in s.delivered;
    assert forall k | 0 <= k < |p.events| :: p.events[k] in p.events;
    forall d | d in p.events
      ensures exists e :: e in t.history && Same(e, d)
    {
      assert d in s.history && Same(d, d);
    }
  }

  lemma ReadKeepsComplete(s: State, p: Page, t: State, start: nat, f: Filter)
    requires s.dropped <= |s.history| && Complete(s, start, f)
    requires forall i | s.dropped <= i < |s.history| && Wanted(s.history[i], s.cursor, f) && s.history[i].seqNo <= p.nextCursor ::
               s.history[i] in p.events
    requires t == s.(cursor := p.nextCursor, delivered := s.delivered + p.events)
    ensures Complete(t, start, f)
  {
    hide Filter.Accepts;
    forall i | 0 <= i < |t.history| && Wanted(t.history[i], start, f) && t.history[i].seqNo <= t.cursor
      ensures i < t.dropped || Received(t, t.history[i])
    {
      if i >= s.dropped {
        if s.history[i].seqNo <= s.cursor {
          var d :| d in s.delivered && d.seqNo == s.history[i].seqNo;
          assert d in t.delivered;
        } else {
          assert s.history[i] in t.delivered;
        }
      }
    }
  }

  lemma ReadKeepsInv(s: State, limit: nat, p: Page, start: nat, f: Filter)
    requires Inv(s, start, f) && Enabled(s, Read(limit, p), f)
    ensures Inv(Apply(s, Read(limit, p), f), start, f)
  {
    hide IsPage, Sound, Complete, Rising;
    var es, t := s.history[s.dropped..], Apply(s, Read(limit, p), f);
    StoredRises(s);
    PageIsComplete(es, f, limit, p);
    NextCursorIsStored(es, f, limit, p);
    assert forall e | e in es :: e in s.history;
    assert forall e | e in s.history :: e.seqNo <= Tail(s.history);
    ReadKeepsSound(s, p, t, start, f);
    ReadKeepsComplete(s, p, t, start, f);
  }

  /** Receipt goes by number, so it outlives appends and patches. */
  lemma GrowthKeepsComplete(s: State, t: State, start: nat, f: Filter)
    requires Inv(s, start, f)
    requires |s.history| <= |t.history| && s.dropped <= t.dropped <= |t.history|
    requires t.cursor == s.cursor && t.delivered == s.delivered
    requires forall i | 0 <= i < |s.history| :: Same(s.history[i], t.history[i])
    requires forall i | |s.history| <= i < |t.history| :: t.history[i].seqNo > Tail(s.history)
    ensures Sound(t, start, f) && Complete(t, start, f)
  {
    hide Rising;
    forall d | d in s.delivered
      ensures exists h :: h in t.history && Same(h, d)
    {
      var h :| h in s.history && Same(h, d);
      var j :| 0 <= j < |s.history| && s.history[j] == h;
      assert t.history[j] in t.history && Same(t.history[j], d);
    }
    forall i | 0 <= i < |t.history| && Wanted(t.history[i], start, f) && t.history[i].seqNo <= t.cursor
      ensures i < t.dropped || Received(t, t.history[i])
    {
      assert i < |s.history|;
      assert Wanted(s.history[i], start, f);
      if i >= s.dropped {
        var d :| d in s.delivered && d.seqNo == s.history[i].seqNo;
        assert d in t.delivered;
      }
    }
  }

  lemma BucketKeepsInv(s: State, st: Step, start: nat, f: Filter)
    requires Inv(s, start, f) && Enabled(s, st, f) && !st.Read?
    ensures Inv(Apply(s, st, f), start, f)
  {
    hide Sound, Complete, IsPage;
    var t := Apply(s, st, f);
    StoredRises(s);
    GrowthKeepsComplete(s, t, start, f);
  }

  predicate IsRun(ss: seq<State>, steps: seq<Step>, f: Filter) {
    && |ss| == |steps| + 1
    && forall k | 0 <= k < |steps| ::
         ss[k].dropped <= |ss[k].history| && Enabled(ss[k], steps[k], f) && ss[k + 1] == Apply(ss[k], steps[k], f)
  }

  /**
   Over any run of reads, appends, evictions and patches: the reader receives each matching event
   at most once and in order of sequence number, receives only events of the bucket that match,
   and every matching event between its first cursor and its present one was received or had been
   evicted.
   */
  lemma {:induction false} ReaderMissesNothing(ss: seq<State>, steps: seq<Step>, start: nat, f: Filter)
    requires IsRun(ss, steps, f) && Begins(ss[0], start)
    ensures Inv(ss[|steps|], start, f)
    decreases |steps|
  {
    hide IsPage, Sound, Complete, Inv;
    var n := |steps|;
    if n == 0 {
      assert Inv(ss[0], start, f) by { FreshReader(ss[0], start, f); }
    } else {
      ReaderMissesNothing(ss[..n], steps[..n - 1], start, f);
      if steps[n - 1].Read? {
        ReadKeepsInv(ss[n - 1], steps[n - 1].limit, steps[n - 1].p, start, f);
      } else {
        BucketKeepsInv(ss[n - 1], steps[n - 1], start, f);
      }
    }
  }

  lemma FreshReader(s: State, start: nat, f: Filter)
    requires Begins(s, start)
    ensures Inv(s, start, f)
  {
  }

  /** At any read of any run, `hasMore` is exactly whether a matching event is stored beyond the page. */
  lemma HasMoreIsExact(ss: seq<State>, steps: seq<Step>, start: nat, f: Filter)
    requires |steps| >= 1 && IsRun(ss, steps, f) && Begins(ss[0], start) && steps[|steps| - 1].Read?
    ensures
      var t := ss[|steps|];
      steps[|steps| - 1].p.hasMore <==> exists i :: t.dropped <= i < |t.history| && Wanted(t.history[i], t.cursor, f)
  {
    hide IsPage, Sound, Complete;
    var n := |steps|;
    var s, p := ss[n - 1], steps[n - 1].p;
    ReaderMissesNothing(ss[..n], steps[..n - 1], start, f);
    StoredRises(s);
    PageIsComplete(s.history[s.dropped..], f, steps[n - 1].limit, p);
    if p.hasMore {
      var e :| e in s.history[s.dropped..] && Wanted(e, p.nextCursor, f);
      var k :| 0 <= k < |s.history[s.dropped..]| && s.history[s.dropped..][k] == e;
      assert s.history[s.dropped + k] == e;
    }
  }

  // --------------------------------------------------- a bucket's own operations

  /** What an onlooker sees of a bucket and of one of its readers. */
  datatype View = View(events: seq<Event>, tail: nat, cursor: nat, delivered: seq<Event>)

  /** An operation of the bucket, or a read by this reader from its cursor. */
  datatype Move = Change(op: Op) | Fetch(cutoff: int, limit: nat, p: Page)

  ghost predicate Made(v: View, m: Move, v': View, f: Filter) {
    match m
    case Change(op) => Does(v.events, v.tail, op, v'.events, v'.tail) && v'.cursor == v.cursor && v'.delivered == v.delivered
    case Fetch(cutoff, limit, p) =>
      && Does(v.events, v.tail, Expiring(cutoff), v'.events, v'.tail)
      && limit >= 1 && p.cursorIn == v.cursor && IsPage(v'.events, f, limit, p)
      && v'.cursor == p.nextCursor && v'.delivered == v.delivered + p.events
  }

  ghost predicate IsSession(vs: seq<View>, moves: seq<Move>, start: nat, f: Filter) {
    && |vs| == |moves| + 1
    && Rising(vs[0].events) && Tail(vs[0].events) <= vs[0].tail && vs[0].cursor == start && vs[0].delivered == []
    && forall k | 0 <= k < |moves| :: Made(vs[k], moves[k], vs[k + 1], f)
  }

  predicate Shows(s: State, v: View) {
    && s.dropped <= |s.history| && s.history[s.dropped..] == v.events && Tail(s.history) <= v.tail
    && s.cursor == v.cursor && s.delivered == v.delivered
  }

  lemma ExtendRun(ss: seq<State>, steps: seq<Step>, st: Step, f: Filter)
    requires IsRun(ss, steps, f) && ss[|steps|].dropped <= |ss[|steps|].history| && Enabled(ss[|steps|], st, f)
    ensures IsRun(ss + [Apply(ss[|steps|], st, f)], steps + [st], f)
  {
    hide Enabled, Apply;
  }

  lemma TailOfMore(history: seq<Event>, e: Event)
    ensures Tail(history + [e]) == e.seqNo
  {
  }

  /** One operation of the bucket is one or two steps. */
  lemma MoveIsSteps(ss: seq<State>, steps: seq<Step>, v: View, m: Move, v': View, f: Filter)
    returns (ss': seq<State>, steps': seq<Step>)
    requires IsRun(ss, steps, f) && Shows(ss[|steps|], v) && Rising(ss[|steps|].history) && Made(v, m, v', f)
    ensures IsRun(ss', steps', f) && ss'[0] == ss[0] && Shows(ss'[|steps'|], v')
  {
    hide IsRun, IsPage, DropStale, Rising, Newest;
    assert |ss| == |steps| + 1 by { RunLength(ss, steps, f); }
    var s := ss[|steps|];
    match m {
      case Change(Appending(e, max)) =>
        var n := AppendIsSteps(s, e, max, f);
        var t := Apply(s, Append(e), f);
        TailOfMore(s.history, e);
        ExtendRun(ss, steps, Append(e), f);
        ExtendRun(ss + [t], steps + [Append(e)], Evict(n), f);
        ss', steps' := ss + [t] + [Apply(t, Evict(n), f)], steps + [Append(e)] + [Evict(n)];
      case Change(Expiring(cutoff)) =>
        var n := ExpiryIsSteps(s, cutoff, f);
        ExtendRun(ss, steps, Evict(n), f);
        ss', steps' := ss + [Apply(s, Evict(n), f)], steps + [Evict(n)];
      case Change(Patching(_, _, _, _)) =>
        var st := PatchIsStep(s, m.op, v'.events, v.tail, f);
        ExtendRun(ss, steps, st, f);
        ss', steps' := ss + [Apply(s, st, f)], steps + [st];
      case Fetch(cutoff, limit, p) =>
        var n := ExpiryIsSteps(s, cutoff, f);
        var t := Apply(s, Evict(n), f);
        ExtendRun(ss, steps, Evict(n), f);
        ExtendRun(ss + [t], steps + [Evict(n)], Read(limit, p), f);
        ss', steps' := ss + [t] + [Apply(t, Read(limit, p), f)], steps + [Evict(n)] + [Read(limit, p)];
    }
  }

  lemma RunLength(ss: seq<State>, steps: seq<Step>, f: Filter)
    requires IsRun(ss, steps, f)
    ensures |ss| == |steps| + 1
  {
  }

  /** Every session of a bucket's operations and a reader's reads is a run of the step relation. */
  lemma {:induction false} SessionIsRun(vs: seq<View>, moves: seq<Move>, start: nat, f: Filter)
    returns (ss: seq<State>, steps: seq<Step>)
    requires IsSession(vs, moves, start, f)
    ensures IsRun(ss, steps, f) && Begins(ss[0], start) && Shows(ss[|steps|], vs[|moves|])
    decreases |moves|
  {
    var n := |moves|;
    if n == 0 {
      ss, steps := [State(vs[0].events, 0, start, [])], [];
      assert vs[0].events[0..] == vs[0].events;
    } else {
      ss, steps := SessionIsRun(vs[..n], moves[..n - 1], start, f);
      ReaderMissesNothing(ss, steps, start, f);
      hide Made, IsRun, Sound, Complete;
      ss, steps := MoveIsSteps(ss, steps, vs[n - 1], moves[n - 1], vs[n], f);
    }
  }

  /**
   So over every session a reader gets each matching event at most once and in order, and of
   what the bucket still stores up to its cursor it has received every matching event.
   */
  lemma SessionMissesNothing(vs: seq<View>, moves: seq<Move>, start: nat, f: Filter)
    requires IsSession(vs, moves, start, f)
    ensures var v := vs[|moves|];
      && Rising(v.delivered) && (forall d | d in v.delivered :: Wanted(d, start, f) && d.seqNo <= v.cursor)
      && forall e | e in v.events && Wanted(e, start, f) && e.seqNo <= v.cursor ::
           exists d :: d in v.delivered && d.seqNo == e.seqNo
  {
    var ss, steps := SessionIsRun(vs, moves, start, f);
    ReaderMissesNothing(ss, steps, start, f);
    hide IsRun, IsSession, Filter.Accepts;
    var v, s := vs[|moves|], ss[|steps|];
    forall e | e in v.events && Wanted(e, start, f) && e.seqNo <= v.cursor
      ensures exists d :: d in v.delivered && d.seqNo == e.seqNo
    {
      var k :| 0 <= k < |v.events| && v.events[k] == e;
      assert s.history[s.dropped + k] == e;
      assert Received(s, e);
    }
  }
}
