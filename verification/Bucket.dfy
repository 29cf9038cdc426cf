/**
 One signal bucket (crates/core/src/bucket.rs): an ordered stream of events with a capacity, a
 time-to-live, counters by severity and kind, and cursor reads.

 `log` is the history of the sequence numbers the bucket ever gave out. Everything the bucket
 stores is tied to it: the stored numbers are what is left of the log after `droppedCount`.
 */
module Bucket {
  import opened Common

  const DEFAULT_READ_LIMIT: nat := 200
  const MAX_READ_LIMIT: nat := 10_000

  datatype Severity = Trace | Debug | Info | Low | Medium | High | Critical {
    function Rank(): nat {
      match this
      case Trace => 0 case Debug => 1 case Info => 2 case Low => 3 case Medium => 4 case High => 5 case Critical => 6
    }
  }

  /** `explained`: the event carries a source pointer or the reason why it has none. */
  datatype Event = Event(
    bucket: nat, seqNo: nat, timestamp: int, severity: Severity, kind: string, explained: bool,
    count: nat, firstSeen: Option<int>, lastSeen: Option<int>)

  // --------------------------------------------------------------------- counters

  datatype BySeverity = BySeverity(trace: nat, debug: nat, info: nat, low: nat, medium: nat, high: nat, critical: nat) {
    function Get(s: Severity): nat {
      match s
      case Trace => trace case Debug => debug case Info => info case Low => low
      case Medium => medium case High => high case Critical => critical
    }

    function With(s: Severity, n: nat): (r: BySeverity)
      ensures forall t :: r.Get(t) == if t == s then n else Get(t)
    {
      match s
      case Trace => this.(trace := n) case Debug => this.(debug := n) case Info => this.(info := n)
      case Low => this.(low := n) case Medium => this.(medium := n) case High => this.(high := n)
      case Critical => this.(critical := n)
    }

    /** `bump` and `unbump` saturate at both ends of a 64-bit counter. */
    function Bump(s: Severity): BySeverity { With(s, if Get(s) < U64_MAX then Get(s) + 1 else Get(s)) }

    function Unbump(s: Severity): BySeverity { With(s, if Get(s) > 0 then Get(s) - 1 else 0) }

    function Total(): nat { trace + debug + info + low + medium + high + critical }
  }

  function OfSeverity(es: seq<Event>, s: Severity): nat {
    if es == [] then 0 else (if es[0].severity == s then 1 else 0) + OfSeverity(es[1..], s)
  }

  function OfKind(es: seq<Event>, k: string): nat {
    if es == [] then 0 else (if es[0].kind == k then 1 else 0) + OfKind(es[1..], k)
  }

  /** Both tables count exactly the stored events, and no kind is listed with zero. */
  ghost predicate Counts(es: seq<Event>, sev: BySeverity, kinds: map<string, nat>) {
    && (forall s :: sev.Get(s) == OfSeverity(es, s))
    && (forall k :: k in kinds <==> OfKind(es, k) > 0)
    && (forall k | k in kinds :: kinds[k] == OfKind(es, k))
  }

  lemma {:induction false} CountsSnoc(es: seq<Event>, e: Event)
    ensures forall s :: OfSeverity(es + [e], s) == OfSeverity(es, s) + (if e.severity == s then 1 else 0)
    ensures forall k :: OfKind(es + [e], k) == OfKind(es, k) + (if e.kind == k then 1 else 0)
  {
    if es == [] {
      assert es + [e] == [e] && [e][1..] == [];
    } else {
      CountsSnoc(es[1..], e);
      assert (es + [e])[1..] == es[1..] + [e];
    }
  }

  lemma {:induction false} CountsBound(es: seq<Event>, s: Severity, k: string)
    ensures OfSeverity(es, s) <= |es| && OfKind(es, k) <= |es|
  {
    if es != [] {
      CountsBound(es[1..], s, k);
    }
  }

  ghost function Sum(m: map<string, nat>): nat {
    if m == map[] then 0 else
    var k :| k in m;
    m[k] + Sum(m - {k})
  }

  lemma {:induction false} SumWithout(m: map<string, nat>, k: string)
    requires k in m
    ensures Sum(m) == m[k] + Sum(m - {k})
  {
    var j :| j in m && Sum(m) == m[j] + Sum(m - {j});
    if j != k {
      SumWithout(m - {j}, k);
      SumWithout(m - {k}, j);
      assert m - {j} - {k} == m - {k} - {j};
    }
  }

  /** A table that counts kinds adds up to the number of events. */
  lemma {:induction false} KindsAddUp(es: seq<Event>, kinds: map<string, nat>)
    requires forall k :: k in kinds <==> OfKind(es, k) > 0
    requires forall k | k in kinds :: kinds[k] == OfKind(es, k)
    ensures Sum(kinds) == |es|
    decreases |es|
  {
    if es == [] {
      assert kinds == map[] by {
        assert forall k :: OfKind([], k) == 0;
      }
    } else {
      var k, rest := es[0].kind, es[1..];
      var n := kinds[k];
      var before := if n == 1 then kinds - {k} else kinds[k := n - 1];
      assert forall j :: OfKind(es, j) == OfKind(rest, j) + (if j == k then 1 else 0);
      KindsAddUp(rest, before);
      SumWithout(kinds, k);
      if n > 1 {
        SumWithout(before, k);
        assert before - {k} == kinds - {k};
      }
    }
  }

  lemma {:induction false} SeveritiesAddUp(es: seq<Event>)
    ensures OfSeverity(es, Trace) + OfSeverity(es, Debug) + OfSeverity(es, Info) + OfSeverity(es, Low)
          + OfSeverity(es, Medium) + OfSeverity(es, High) + OfSeverity(es, Critical) == |es|
  {
    if es != [] {
      SeveritiesAddUp(es[1..]);
    }
  }

  /** Both tables add up to the number of stored events. */
  lemma TablesAddUp(es: seq<Event>, sev: BySeverity, kinds: map<string, nat>)
    requires Counts(es, sev, kinds)
    ensures sev.Total() == |es| && Sum(kinds) == |es|
  {
    SeveritiesAddUp(es);
    KindsAddUp(es, kinds);
    assert sev.Get(Trace) == OfSeverity(es, Trace) && sev.Get(Debug) == OfSeverity(es, Debug);
    assert sev.Get(Info) == OfSeverity(es, Info) && sev.Get(Low) == OfSeverity(es, Low);
    assert sev.Get(Medium) == OfSeverity(es, Medium) && sev.Get(High) == OfSeverity(es, High);
    assert sev.Get(Critical) == OfSeverity(es, Critical);
  }

  // ------------------------------------------------------------- sequence numbers

  /** Numbers given out are positive, strictly increasing and within 64 bits. */
  predicate Ascending(log: seq<nat>) {
    && (forall i | 0 <= i < |log| :: 1 <= log[i] <= U64_MAX)
    && (forall i, j | 0 <= i < j < |log| :: log[i] < log[j])
  }

  /** Every number was assigned by the bucket itself. */
  predicate Dense(log: seq<nat>) { forall i | 0 <= i < |log| :: log[i] == i + 1 }

  function Last(log: seq<nat>): nat { if log == [] then 0 else log[|log| - 1] }

  /** The stored events are what is left of the log. */
  predicate Stored(es: seq<Event>, log: seq<nat>, dropped: nat) {
    && dropped + |es| == |log|
    && forall i | 0 <= i < |es| :: es[i].seqNo == log[dropped + i]
  }

  /** The log cannot outgrow 64 bits, so no counter of stored or dropped events ever saturates. */
  lemma {:induction false} LogFits(log: seq<nat>)
    requires Ascending(log)
    ensures |log| <= Last(log) <= U64_MAX
  {
    if log != [] {
      var n := |log| - 1;
      LogFits(log[..n]);
    }
  }

  function Above(log: seq<nat>, c: nat): nat {
    if log == [] then 0 else Above(log[..|log| - 1], c) + (if log[|log| - 1] > c then 1 else 0)
  }

  lemma {:induction false} AboveInDense(log: seq<nat>, c: nat)
    requires Dense(log)
    ensures Above(log, c) == if |log| <= c then 0 else |log| - c
  {
    if log != [] {
      AboveInDense(log[..|log| - 1], c);
    }
  }

  /**
   When the bucket assigned every number, it stores exactly `dropped + 1` to the tail, and a
   reader at cursor `c` has lost exactly the dropped events above `c`.
   */
  lemma DenseBucket(es: seq<Event>, log: seq<nat>, dropped: nat, c: nat)
    requires Dense(log) && Stored(es, log, dropped)
    ensures Last(log) == dropped + |es|
    ensures forall i | 0 <= i < |es| :: es[i].seqNo == dropped + 1 + i
    ensures Above(log[..dropped], c) == if dropped <= c then 0 else dropped - c
  {
    AboveInDense(log[..dropped], c);
  }

  // ----------------------------------------------------------------------- reading

  /** What a reader asks for: a severity floor and a kind. */
  datatype Filter = Filter(severityMin: Option<Severity>, kind: Option<string>) {
    predicate Accepts(e: Event) {
      && (severityMin.Some? ==> e.severity.Rank() >= severityMin.value.Rank())
      && (kind.Some? ==> e.kind == kind.value)
    }
  }

  /** The stored events a reader at `cursor` has still to see. */
  function Pending(es: seq<Event>, cursor: nat, f: Filter): seq<Event> {
    if es == [] then []
    else if Wanted(es[0], cursor, f) then [es[0]] + Pending(es[1..], cursor, f)
    else Pending(es[1..], cursor, f)
  }

  predicate Wanted(e: Event, cursor: nat, f: Filter) { e.seqNo > cursor && f.Accepts(e) }

  datatype Page = Page(cursorIn: nat, nextCursor: nat, hasMore: bool, dropped: nat, events: seq<Event>)

  /** The page is the front of what is pending, and the cursor stands at its last event. */
  predicate IsPage(es: seq<Event>, f: Filter, limit: nat, p: Page) {
    var pending := Pending(es, p.cursorIn, f);
    && p.events == pending[..Min(limit, |pending|)]
    && p.hasMore == (limit < |pending|)
    && p.nextCursor == if p.events == [] then p.cursorIn else p.events[|p.events| - 1].seqNo
  }

  function ClampLimit(limit: Option<nat>): (r: nat)
    ensures 1 <= r <= MAX_READ_LIMIT
  {
    var asked := if limit.Some? then limit.value else DEFAULT_READ_LIMIT;
    if asked < 1 then 1 else Min(asked, MAX_READ_LIMIT)
  }

  lemma PendingStep(es: seq<Event>, i: nat, cursor: nat, f: Filter)
    requires i < |es|
    ensures Pending(es[i..], cursor, f) ==
            if Wanted(es[i], cursor, f) then [es[i]] + Pending(es[i + 1..], cursor, f) else Pending(es[i + 1..], cursor, f)
  {
    assert es[i..][1..] == es[i + 1..];
  }

  lemma PendingEnd(es: seq<Event>, cursor: nat, f: Filter)
    ensures Pending(es[|es|..], cursor, f) == []
  {
  }

  /** The three tests of the loop, in its order. */
  predicate PassedOver(e: Event, cursor: nat, f: Filter): (r: bool)
    ensures r <==> !Wanted(e, cursor, f)
  {
    if e.seqNo <= cursor then true
    else if f.severityMin.Some? && e.severity.Rank() < f.severityMin.value.Rank() then true
    else f.kind.Some? && e.kind != f.kind.value
  }

  /** `out` has been taken from the front of `all`, and `left` is left. */
  ghost predicate Taken(all: seq<Event>, out: seq<Event>, left: seq<Event>) { all == out + left }

  lemma TakeOne(all: seq<Event>, out: seq<Event>, e: Event, left: seq<Event>)
    requires Taken(all, out, [e] + left)
    ensures Taken(all, out + [e], left)
  {
    assert out + ([e] + left) == out + [e] + left;
  }

  lemma TakenIsFront(all: seq<Event>, out: seq<Event>, left: seq<Event>)
    requires Taken(all, out, left)
    ensures |all| == |out| + |left| && out == all[..|out|]
  {
  }

  /** The loop of `events_since` over the stored events. */
  method ReadPage(es: seq<Event>, cursor: nat, f: Filter, limit: nat, dropped: nat) returns (p: Page)
    requires limit >= 1
    ensures IsPage(es, f, limit, p) && p.cursorIn == cursor && p.dropped == dropped
  {
    var out: seq<Event> := [];
    var last, more := cursor, false;
    var i := 0;
    ghost var all := Pending(es, cursor, f);
    ghost var left := all;
    assert es[0..] == es && Taken(all, [], all);
    PendingEnd(es, cursor, f);
    hide Pending, Taken, Wanted, PassedOver;
    while i < |es|
      invariant 0 <= i <= |es| && |out| <= limit && !more
      invariant left == Pending(es[i..], cursor, f) && Taken(all, out, left)
      invariant last == if out == [] then cursor else out[|out| - 1].seqNo
    {
      var e := es[i];
      PendingStep(es, i, cursor, f);
      i := i + 1;
      if PassedOver(e, cursor, f) {
        continue;
      }
      if |out| >= limit {
        more := true;
        break;
      }
      left := Pending(es[i..], cursor, f);
      TakeOne(all, out, e, left);
      last := e.seqNo;
      out := out + [e];
    }
    TakenIsFront(all, out, left);
    p := Page(cursor, last, more, dropped, out);
  }

  // ----------------------------------------------------------------------- eviction

  /** What time-based eviction leaves. */
  function DropStale(es: seq<Event>, cutoff: int): seq<Event> {
    if es == [] || es[0].timestamp >= cutoff then es else DropStale(es[1..], cutoff)
  }

  /**
   Eviction takes the stale front off and stops at the first event that is not stale: with
   timestamps in order nothing stale is left behind.
   */
  lemma {:induction false} DropStaleIs(es: seq<Event>, cutoff: int)
    ensures
      var r := DropStale(es, cutoff);
      && |r| <= |es| && r == es[|es| - |r|..]
      && (forall i | 0 <= i < |es| - |r| :: es[i].timestamp < cutoff)
      && (r != [] ==> r[0].timestamp >= cutoff)
      && ((forall i, j | 0 <= i < j < |es| :: es[i].timestamp <= es[j].timestamp) ==>
            forall i | 0 <= i < |r| :: r[i].timestamp >= cutoff)
  {
    if es != [] && es[0].timestamp < cutoff {
      DropStaleIs(es[1..], cutoff);
    }
  }

  /** What the capacity leaves: the newest events. */
  function Newest(es: seq<Event>, max: nat): seq<Event> { if |es| <= max then es else es[|es| - max..] }

  // ------------------------------------------------------------------ counter steps

  function KindBumped(kinds: map<string, nat>, k: string): map<string, nat> {
    kinds[k := if k in kinds then kinds[k] + 1 else 1]
  }

  /** The slot saturates at zero, and an empty slot is removed. */
  function KindUnbumped(kinds: map<string, nat>, k: string): map<string, nat> {
    if k !in kinds then kinds
    else
      var n := if kinds[k] > 0 then kinds[k] - 1 else 0;
      if n == 0 then kinds - {k} else kinds[k := n]
  }

  lemma CountsPush(es: seq<Event>, e: Event, sev: BySeverity, kinds: map<string, nat>)
    requires Counts(es, sev, kinds) && |es| < U64_MAX
    ensures Counts(es + [e], sev.Bump(e.severity), KindBumped(kinds, e.kind))
  {
    CountsSnoc(es, e);
    CountsBound(es, e.severity, e.kind);
    assert sev.Get(e.severity) == OfSeverity(es, e.severity);
  }

  lemma CountsPop(es: seq<Event>, sev: BySeverity, kinds: map<string, nat>)
    requires Counts(es, sev, kinds) && es != []
    ensures Counts(es[1..], sev.Unbump(es[0].severity), KindUnbumped(kinds, es[0].kind))
  {
    var e, rest := es[0], es[1..];
    assert forall s :: OfSeverity(es, s) == OfSeverity(rest, s) + (if e.severity == s then 1 else 0);
    assert forall k :: OfKind(es, k) == OfKind(rest, k) + (if e.kind == k then 1 else 0);
  }

  /** Changing the aggregation fields of an event leaves both tables right. */
  lemma {:induction false} CountsPatch(es: seq<Event>, i: nat, e: Event)
    requires i < |es| && e.severity == es[i].severity && e.kind == es[i].kind
    ensures forall s :: OfSeverity(es[i := e], s) == OfSeverity(es, s)
    ensures forall k :: OfKind(es[i := e], k) == OfKind(es, k)
  {
    if i == 0 {
      assert es[i := e][1..] == es[1..];
    } else {
      CountsPatch(es[1..], i - 1, e);
      assert es[i := e][1..] == es[1..][i - 1 := e];
    }
  }

  /** The numbers are distinct, so patching one event is patching the event with that number. */
  lemma PatchKeeps(es: seq<Event>, i: nat, e: Event, log: seq<nat>, dropped: nat, sev: BySeverity, kinds: map<string, nat>)
    requires i < |es| && e == es[i].(count := e.count, firstSeen := e.firstSeen, lastSeen := e.lastSeen)
    requires Ascending(log) && Stored(es, log, dropped) && Counts(es, sev, kinds)
    ensures Stored(es[i := e], log, dropped) && Counts(es[i := e], sev, kinds)
    ensures forall j | 0 <= j < |es| && j != i :: es[j].seqNo != es[i].seqNo
  {
    CountsPatch(es, i, e);
  }

  method Find(es: seq<Event>, n: nat) returns (i: nat)
    ensures i <= |es| && forall j | 0 <= j < i :: es[j].seqNo != n
    ensures i < |es| ==> es[i].seqNo == n
  {
    i := 0;
    while i < |es| && es[i].seqNo != n
      invariant i <= |es| && forall j | 0 <= j < i :: es[j].seqNo != n
    {
      i := i + 1;
    }
  }

  // ----------------------------------------------------------------------- the bucket

  const I64_MAX: nat := 0x7FFF_FFFF_FFFF_FFFF

  datatype Appended =
    | Assigned(seqNo: nat)
    | EventBucketMismatch | PointerInvariantViolation | SeqExhausted | PresetSeqIntoEmptyBucket | NonMonotonicSeq

  predicate Explained(e: Event) { e.severity.Rank() >= Medium.Rank() ==> e.explained }

  /** The numbers an append may use: its own when it brings one, else the next. */
  predicate Admits(tail: nat, stored: nat, asked: nat) {
    if asked == 0 then tail < U64_MAX else stored > 0 && asked > tail
  }

  datatype Summary = Summary(
    headSeq: nat, tailSeq: nat, eventCount: nat, lastEventAt: Option<int>, bySeverity: BySeverity,
    byKind: map<string, nat>, droppedCount: nat, dedupeCollapsed: nat)

  /** What operations do to the stored events, as an onlooker sees it. */
  datatype Op =
    | Appending(e: Event, max: nat)
    | Expiring(cutoff: int)
    | Patching(n: nat, count: nat, firstSeen: int, lastSeen: int)

  ghost predicate Does(es: seq<Event>, tail: nat, op: Op, es': seq<Event>, tail': nat) {
    match op
    case Appending(e, max) => e.seqNo > tail && es' == Newest(es + [e], max) && tail' == e.seqNo
    case Expiring(cutoff) => es' == DropStale(es, cutoff) && tail' == tail
    case Patching(n, count, firstSeen, lastSeen) =>
      && tail' == tail && |es'| == |es|
      && forall i | 0 <= i < |es| ::
           es'[i] == if es[i].seqNo != n then es[i]
                     else es[i].(count := count, firstSeen := Some(firstSeen), lastSeen := Some(lastSeen))
  }

  datatype Patched = Patched | EventSeqNotFound

  class Bucket {
    const bucketId: nat
    const maxEvents: nat
    const ttlSeconds: nat
    var headSeq: nat
    var tailSeq: nat
    var eventCount: nat
    var droppedCount: nat
    var lastEventAt: Option<int>
    var bySeverity: BySeverity
    var byKind: map<string, nat>
    var events: seq<Event>
    var dedupeCollapsed: nat
    ghost var log: seq<nat>

    /** Holds at every moment of every operation. */
    ghost predicate Kept()
      reads this
    {
      && Ascending(log) && Stored(events, log, droppedCount) && Counts(events, bySeverity, byKind)
      && dedupeCollapsed <= U64_MAX
    }

    /** The state block agrees with the stored events. */
    ghost predicate Refreshed()
      reads this
    {
      && Kept()
      && tailSeq == Last(log)
      && eventCount == |events|
      && headSeq == (if events == [] then tailSeq else events[0].seqNo)
      && lastEventAt == (if events == [] then None else Some(events[|events| - 1].timestamp))
    }

    /** What every operation keeps. */
    ghost predicate Valid()
      reads this
    {
      Refreshed() && |events| <= maxEvents
    }

    constructor (bucketId: nat, maxEvents: nat, ttlSeconds: nat)
      ensures Valid() && events == [] && log == [] && droppedCount == 0 && dedupeCollapsed == 0
      ensures this.bucketId == bucketId && this.maxEvents == maxEvents && this.ttlSeconds == ttlSeconds
    {
      this.bucketId, this.maxEvents, this.ttlSeconds := bucketId, maxEvents, ttlSeconds;
      headSeq, tailSeq, eventCount, droppedCount, lastEventAt := 0, 0, 0, 0, None;
      bySeverity, byKind, events := BySeverity(0, 0, 0, 0, 0, 0, 0), map[], [];
      dedupeCollapsed, log := 0, [];
    }

    method RefreshState()
      requires Kept() && (events == [] ==> tailSeq == Last(log))
      modifies `headSeq, `tailSeq, `eventCount, `lastEventAt
      ensures Refreshed()
    {
      if events != [] {
        headSeq := events[0].seqNo;
        tailSeq := events[|events| - 1].seqNo;
        eventCount := |events|;
        lastEventAt := Some(events[|events| - 1].timestamp);
      } else {
        headSeq := tailSeq;
        eventCount := 0;
        lastEventAt := None;
      }
    }

    /** Takes the oldest event out of the bucket; the drop counter never saturates. */
    method PopFront()
      requires Kept() && events != []
      modifies `events, `bySeverity, `byKind, `droppedCount
      ensures Kept() && events == old(events)[1..] && droppedCount == old(droppedCount) + 1
    {
      var e := events[0];
      CountsPop(events, bySeverity, byKind);
      LogFits(log);
      events := events[1..];
      bySeverity := bySeverity.Unbump(e.severity);
      byKind := KindUnbumped(byKind, e.kind);
      droppedCount := Min(droppedCount + 1, U64_MAX);
    }

    method EvictExpired(now: int)
      requires Valid()
      modifies `events, `bySeverity, `byKind, `droppedCount, `headSeq, `tailSeq, `eventCount, `lastEventAt
      ensures Valid() && Does(old(events), old(tailSeq), Expiring(now - Min(ttlSeconds, I64_MAX)), events, tailSeq)
    {
      hide Kept, Ascending, Stored, Counts;
      var cutoff := now - Min(ttlSeconds, I64_MAX);
      while events != [] && events[0].timestamp < cutoff
        invariant Kept() && tailSeq == Last(log) && |events| <= maxEvents
        invariant DropStale(events, cutoff) == DropStale(old(events), cutoff)
        decreases |events|
      {
        PopFront();
      }
      RefreshState();
    }

    method EvictForCapacity()
      requires Kept() && tailSeq == Last(log)
      modifies `events, `bySeverity, `byKind, `droppedCount, `headSeq, `tailSeq, `eventCount, `lastEventAt
      ensures Valid() && events == Newest(old(events), maxEvents)
    {
      hide Kept, Ascending, Stored, Counts;
      while |events| > maxEvents
        invariant Kept() && tailSeq == Last(log)
        invariant Newest(events, maxEvents) == Newest(old(events), maxEvents)
        decreases |events|
      {
        PopFront();
      }
      RefreshState();
    }

    /** Puts an event with a fresh number at the back. */
    method Push(event: Event)
      requires Refreshed() && tailSeq < event.seqNo <= U64_MAX
      modifies `events, `bySeverity, `byKind, `log, `headSeq, `tailSeq, `eventCount, `lastEventAt
      ensures Refreshed() && events == old(events) + [event] && log == old(log) + [event.seqNo]
    {
      LogFits(log);
      CountsPush(events, event, bySeverity, byKind);
      bySeverity := bySeverity.Bump(event.severity);
      byKind := KindBumped(byKind, event.kind);
      events := events + [event];
      log := log + [event.seqNo];
      RefreshState();
    }

    /**
     Appends an event, or refuses it and changes nothing. Every number given out is larger than
     all numbers given out before, also over those of events that have long been evicted.
     */
    method Append(event: Event) returns (r: Appended)
      requires Valid() && event.seqNo <= U64_MAX
      modifies this
      ensures Valid() && dedupeCollapsed == old(dedupeCollapsed)
      ensures r.Assigned? <==> event.bucket == bucketId && Explained(event)
                               && Admits(old(tailSeq), |old(events)|, event.seqNo)
      ensures r.EventBucketMismatch? <==> event.bucket != bucketId
      ensures r.PointerInvariantViolation? <==> event.bucket == bucketId && !Explained(event)
      ensures r.SeqExhausted? ==> event.seqNo == 0 && old(tailSeq) == U64_MAX
      ensures r.PresetSeqIntoEmptyBucket? ==> event.seqNo != 0 && old(events) == []
      ensures r.NonMonotonicSeq? ==> old(events) != [] && 0 < event.seqNo <= old(tailSeq)
      ensures r.Assigned? ==>
                && r.seqNo == (if event.seqNo == 0 then old(tailSeq) + 1 else event.seqNo)
                && log == old(log) + [r.seqNo]
                && Does(old(events), old(tailSeq), Appending(event.(seqNo := r.seqNo), maxEvents), events, tailSeq)
      ensures !r.Assigned? ==> unchanged(this)
      ensures event.seqNo == 0 && Dense(old(log)) ==> Dense(log)
    {
      if event.bucket != bucketId {
        return EventBucketMismatch;
      }
      if !Explained(event) {
        return PointerInvariantViolation;
      }
      var next: nat;
      if event.seqNo == 0 {
        if tailSeq >= U64_MAX {
          return SeqExhausted;
        }
        next := tailSeq + 1;
      } else if eventCount == 0 {
        return PresetSeqIntoEmptyBucket;
      } else if event.seqNo <= tailSeq {
        return NonMonotonicSeq;
      } else {
        next := event.seqNo;
      }
      Push(event.(seqNo := next));
      EvictForCapacity();
      r := Assigned(next);
    }

    /** Rewrites the aggregation fields of one stored event; no other event and no counter moves. */
    method PatchAggregation(n: nat, count: nat, firstSeen: int, lastSeen: int) returns (r: Patched)
      requires Valid()
      modifies `events, `dedupeCollapsed
      ensures Valid()
      ensures r.Patched? <==> exists i :: 0 <= i < |old(events)| && old(events)[i].seqNo == n
      ensures Does(old(events), old(tailSeq), Patching(n, count, firstSeen, lastSeen), events, tailSeq)
      ensures dedupeCollapsed == if r.Patched? then Min(old(dedupeCollapsed) + 1, U64_MAX) else old(dedupeCollapsed)
    {
      hide Ascending, Stored, Counts;
      var i := Find(events, n);
      if i == |events| {
        return EventSeqNotFound;
      }
      var e := events[i].(count := count, firstSeen := Some(firstSeen), lastSeen := Some(lastSeen));
      PatchKeeps(events, i, e, log, droppedCount, bySeverity, byKind);
      events := events[i := e];
      dedupeCollapsed := Min(dedupeCollapsed + 1, U64_MAX);
      r := Patched.Patched;
    }

    /** The summary after eviction: both tables add up to the event count. */
    method Summarize(now: int) returns (r: Summary)
      requires Valid()
      modifies `events, `bySeverity, `byKind, `droppedCount, `headSeq, `tailSeq, `eventCount, `lastEventAt
      ensures Valid() && Does(old(events), old(tailSeq), Expiring(now - Min(ttlSeconds, I64_MAX)), events, tailSeq)
      ensures r.eventCount == |events| && r.droppedCount == |log| - |events| && r.tailSeq == Last(log)
      ensures r.headSeq == headSeq && r.lastEventAt == lastEventAt && r.dedupeCollapsed == dedupeCollapsed
      ensures Counts(events, r.bySeverity, r.byKind)
      ensures r.bySeverity.Total() == r.eventCount && Sum(r.byKind) == r.eventCount
    {
      EvictExpired(now);
      TablesAddUp(events, bySeverity, byKind);
      r := Summary(headSeq, tailSeq, eventCount, lastEventAt, bySeverity, byKind, droppedCount, dedupeCollapsed);
    }

    /** A read evicts what has expired and then answers from what is left. */
    method EventsSince(now: int, cursor: nat, f: Filter, limit: Option<nat>) returns (p: Page)
      requires Valid()
      modifies `events, `bySeverity, `byKind, `droppedCount, `headSeq, `tailSeq, `eventCount, `lastEventAt
      ensures Valid() && Does(old(events), old(tailSeq), Expiring(now - Min(ttlSeconds, I64_MAX)), events, tailSeq)
      ensures IsPage(events, f, ClampLimit(limit), p) && p.cursorIn == cursor && p.dropped == droppedCount
    {
      EvictExpired(now);
      p := ReadPage(events, cursor, f, ClampLimit(limit), droppedCount);
    }
  }
}
