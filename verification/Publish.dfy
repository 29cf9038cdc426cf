/**
 The bounded publish-and-reconcile loop of the release scripts
 (scripts/release/publish-cargo-crate.js, 212-292), against any registry.

 A run is recorded as the trace of its outside calls and their answers. The registry, the upload
 command and the archive check may answer anything, depending on all that happened before.
 */
module Publish {
  import opened Common

  datatype Lookup = Present | Missing | Transient | OtherError | LookupThrew

  /** `Differs`: the archive was fetched and is not this release, which is thrown. */
  datatype Archive = Verified | NotVerified | Differs

  datatype Exit = Code(n: int) | NoCode | SpawnFailed

  datatype Call =
    | LookedUp(l: Lookup)
    | Checked(a: Archive)
    | Published(e: Exit)
    | PollSleep(ms: nat)
    | RetrySleep(ms: nat)

  type Trace = seq<Call>

  datatype World = World(lookup: Trace -> Lookup, check: Trace -> Archive, publish: Trace -> Exit)

  /** Every answer in the trace is the one the world gives at that point. */
  ghost predicate Honest(w: World, t: Trace) {
    forall i | 0 <= i < |t| ::
      match t[i]
      case LookedUp(l) => l == w.lookup(t[..i])
      case Checked(a) => a == w.check(t[..i])
      case Published(e) => e == w.publish(t[..i])
      case PollSleep(_) => true
      case RetrySleep(_) => true
  }

  lemma HonestStep(w: World, t: Trace, c: Call)
    requires Honest(w, t)
    requires c.LookedUp? ==> c.l == w.lookup(t)
    requires c.Checked? ==> c.a == w.check(t)
    requires c.Published? ==> c.e == w.publish(t)
    ensures Honest(w, t + [c])
  {
    var u := t + [c];
    forall i | 0 <= i < |u|
      ensures u[..i] == if i < |t| then t[..i] else t
    {
    }
  }

  function Lookups(t: Trace): nat {
    if t == [] then 0 else Lookups(t[..|t| - 1]) + (if t[|t| - 1].LookedUp? then 1 else 0)
  }

  function Publishes(t: Trace): nat {
    if t == [] then 0 else Publishes(t[..|t| - 1]) + (if t[|t| - 1].Published? then 1 else 0)
  }

  /** Milliseconds slept between publish attempts. */
  function RetryTime(t: Trace): nat {
    if t == [] then 0 else RetryTime(t[..|t| - 1]) + (if t[|t| - 1].RetrySleep? then t[|t| - 1].ms else 0)
  }

  /** Milliseconds slept between polls. */
  function PollTime(t: Trace): nat {
    if t == [] then 0 else PollTime(t[..|t| - 1]) + (if t[|t| - 1].PollSleep? then t[|t| - 1].ms else 0)
  }

  lemma Step(t: Trace, c: Call)
    ensures Lookups(t + [c]) == Lookups(t) + (if c.LookedUp? then 1 else 0)
    ensures Publishes(t + [c]) == Publishes(t) + (if c.Published? then 1 else 0)
    ensures RetryTime(t + [c]) == RetryTime(t) + (if c.RetrySleep? then c.ms else 0)
    ensures PollTime(t + [c]) == PollTime(t) + (if c.PollSleep? then c.ms else 0)
  {
    assert (t + [c])[..|t|] == t;
  }

  /** The last two calls are a lookup that found the version and a check that verified it. */
  predicate EndsVerified(t: Trace) {
    |t| >= 2 && t[|t| - 2] == LookedUp(Present) && t[|t| - 1] == Checked(Verified)
  }

  predicate NoneVerified(t: Trace, from: nat) { forall i | from <= i < |t| :: t[i] != Checked(Verified) }

  /** The calls that throw. */
  predicate Throws(c: Call) { c in {LookedUp(LookupThrew), Checked(Differs), Published(SpawnFailed)} }

  predicate NoneThrew(t: Trace, from: nat) { forall i | from <= i < |t| :: !Throws(t[i]) }

  predicate NonePublished(t: Trace, from: nat) { forall i | from <= i < |t| :: !t[i].Published? }

  predicate Uploaded(t: Trace) { exists i :: 0 <= i < |t| && t[i] == Published(Code(0)) }

  /** Once an upload exits with 0 nothing is uploaded again. */
  predicate NeverAgain(t: Trace) {
    forall i, j | 0 <= i < j < |t| && t[i] == Published(Code(0)) :: !t[j].Published?
  }

  // ---------------------------------------------------------------------- reconcile

  datatype Reconciled = Found | Absent | Threw

  /** What one reconciliation adds to the trace. */
  ghost predicate Adds(w: World, t0: Trace, t: Trace, polls: nat, delayMs: nat, r: Reconciled) {
    && |t0| < |t| && t[..|t0|] == t0
    && (Honest(w, t0) ==> Honest(w, t))
    && NonePublished(t, |t0|)
    && Publishes(t) == Publishes(t0) && RetryTime(t) == RetryTime(t0)
    && Lookups(t0) < Lookups(t) <= Lookups(t0) + polls
    && PollTime(t) == PollTime(t0) + delayMs * (Lookups(t) - Lookups(t0) - 1)
    && (r.Found? ==> EndsVerified(t) && NoneVerified(t[..|t| - 1], |t0|))
    && (!r.Found? ==> NoneVerified(t, |t0|))
    && (r.Absent? ==> Lookups(t) == Lookups(t0) + polls)
    && NoneThrew(t[..|t| - 1], |t0|)
    && (r.Threw? <==> Throws(t[|t| - 1]))
  }

  /** What the loop of `reconcile` keeps between polls. */
  ghost predicate Polling(w: World, t0: Trace, t: Trace, poll: nat, delayMs: nat) {
    && |t0| <= |t| && t[..|t0|] == t0
    && (Honest(w, t0) ==> Honest(w, t))
    && NonePublished(t, |t0|) && NoneVerified(t, |t0|) && NoneThrew(t, |t0|)
    && Publishes(t) == Publishes(t0) && RetryTime(t) == RetryTime(t0)
    && Lookups(t) == Lookups(t0) + poll
    && PollTime(t) == PollTime(t0) + delayMs * poll
  }

  lemma HonestUnder(w: World, t0: Trace, t: Trace, c: Call)
    requires Honest(w, t0) ==> Honest(w, t)
    requires c.LookedUp? ==> c.l == w.lookup(t)
    requires c.Checked? ==> c.a == w.check(t)
    requires c.Published? ==> c.e == w.publish(t)
    ensures Honest(w, t0) ==> Honest(w, t + [c])
  {
    if Honest(w, t0) {
      HonestStep(w, t, c);
    }
  }

  method Poll(w: World, t: Trace, ghost t0: Trace, ghost poll: nat, ghost polls: nat, ghost delayMs: nat)
    returns (r: Reconciled, u: Trace)
    requires Polling(w, t0, t, poll, delayMs) && poll < polls
    ensures r.Absent? ==> u == t + [LookedUp(w.lookup(t))] || u == t + [LookedUp(w.lookup(t)), Checked(NotVerified)]
    ensures r.Absent? ==> (Honest(w, t0) ==> Honest(w, u)) && NoneThrew(u, |t0|)
    ensures !r.Absent? ==> Adds(w, t0, u, polls, delayMs, r)
  {
    hide Honest;
    var l := LookedUp(w.lookup(t));
    u := t + [l];
    Step(t, l);
    HonestUnder(w, t0, t, l);
    if l.l.LookupThrew? {
      return Threw, u;
    }
    r := Absent;
    if l.l.Present? {
      var c := Checked(w.check(u));
      HonestUnder(w, t0, u, c);
      Step(u, c);
      assert u + [c] == t + [l, c];
      u := u + [c];
      if c.a.Differs? {
        return Threw, u;
      }
      if c.a.Verified? {
        r := Found;
        assert u[..|u| - 1] == t + [l];
      }
    }
  }

  /** Up to `polls` lookups, `delayMs` apart; an answer only from a lookup that was verified. */
  method Reconcile(w: World, t0: Trace, polls: nat, delayMs: nat) returns (r: Reconciled, t: Trace)
    requires polls >= 1
    ensures Adds(w, t0, t, polls, delayMs, r)
  {
    hide Honest;
    t := t0;
    var poll := 1;
    while true
      invariant 1 <= poll <= polls
      invariant Polling(w, t0, t, poll - 1, delayMs)
      decreases polls - poll
    {
      ghost var before := t;
      r, t := Poll(w, t, t0, poll - 1, polls, delayMs);
      if !r.Absent? {
        return;
      }
      AfterPoll(w, t0, before, t, poll - 1, delayMs);
      if poll == polls {
        return;
      }
      AfterSleep(w, t0, t, poll, delayMs);
      t := t + [PollSleep(delayMs)];
      poll := poll + 1;
    }
  }

  /** After a poll that found nothing the last sleep is still to come. */
  lemma AfterPoll(w: World, t0: Trace, t: Trace, u: Trace, poll: nat, delayMs: nat)
    requires Polling(w, t0, t, poll, delayMs) && (Honest(w, t0) ==> Honest(w, u)) && NoneThrew(u, |t0|)
    requires u == t + [LookedUp(w.lookup(t))] || u == t + [LookedUp(w.lookup(t)), Checked(NotVerified)]
    ensures |t0| <= |u| && u[..|t0|] == t0 && NonePublished(u, |t0|) && NoneVerified(u, |t0|)
    ensures Publishes(u) == Publishes(t0) && RetryTime(u) == RetryTime(t0)
    ensures Lookups(u) == Lookups(t0) + poll + 1 && PollTime(u) == PollTime(t0) + delayMs * poll
  {
    hide Honest;
    var l := LookedUp(w.lookup(t));
    Step(t, l);
    Step(t + [l], Checked(NotVerified));
    assert t + [l, Checked(NotVerified)] == t + [l] + [Checked(NotVerified)];
  }

  lemma AfterSleep(w: World, t0: Trace, t: Trace, poll: nat, delayMs: nat)
    requires |t0| <= |t| && t[..|t0|] == t0
    requires NonePublished(t, |t0|) && NoneVerified(t, |t0|) && NoneThrew(t, |t0|)
    requires Publishes(t) == Publishes(t0) && RetryTime(t) == RetryTime(t0) && poll >= 1
    requires Lookups(t) == Lookups(t0) + poll && PollTime(t) == PollTime(t0) + delayMs * (poll - 1)
    requires Honest(w, t0) ==> Honest(w, t)
    ensures Polling(w, t0, t + [PollSleep(delayMs)], poll, delayMs)
  {
    hide Honest;
    Step(t, PollSleep(delayMs));
    HonestUnder(w, t0, t, PollSleep(delayMs));
    assert delayMs * poll == delayMs * (poll - 1) + delayMs;
  }

  // -------------------------------------------------------------------- publishCrate

  datatype Setting = Unset | Number(n: int) | NotANumber

  const MAX_SAFE_INTEGER: int := 0x1F_FFFF_FFFF_FFFF

  /** `identityOk`: the crate name, the version and the local digest have the right form. */
  datatype Config = Config(identityOk: bool, attempts: Setting, failurePolls: Setting, visibilityPolls: Setting,
                           pollDelayMs: Setting, retryBaseMs: Setting)
  {
    predicate Good() {
      && identityOk && Usable(attempts) && Usable(failurePolls) && Usable(visibilityPolls)
      && Usable(pollDelayMs) && Usable(retryBaseMs)
    }
  }

  predicate Usable(s: Setting) { s.Unset? || (s.Number? && 0 < s.n <= MAX_SAFE_INTEGER) }

  function Or(s: Setting, fallback: nat): (r: nat)
    requires Usable(s) && fallback >= 1
    ensures r >= 1
  {
    if s.Unset? then fallback else s.n
  }

  datatype Outcome =
    | AlreadyPresent
    | PublishedNow(attempts: nat)
    | PublishedAfterAmbiguousFailure(attempts: nat)
    | Invalid | CallThrew | NotQueryable | NotPublished
  {
    predicate Success() { AlreadyPresent? || PublishedNow? || PublishedAfterAmbiguousFailure? }
  }

  lemma Doubling(base: nat, n: nat)
    ensures base * (Pow2(n) - 1) + base * Pow2(n) == base * (Pow2(n + 1) - 1)
  {
    assert Pow2(n + 1) - 1 == (Pow2(n) - 1) + Pow2(n);
  }

  /** In `rounds` reconciliations the polls of each were `delayMs` apart. */
  predicate Paced(t: Trace, delayMs: nat, rounds: nat) {
    Lookups(t) >= rounds && PollTime(t) == delayMs * (Lookups(t) - rounds)
  }

  /** Every upload that started is followed by one reconciliation. */
  function Rounds(t: Trace): nat {
    if t != [] && t[|t| - 1] == Published(SpawnFailed) then Publishes(t) else Publishes(t) + 1
  }

  lemma Distribute(x: nat, a: int, b: int)
    ensures x * (a + b) == x * a + x * b
  {
  }

  lemma NextRound(w: World, t0: Trace, c: Call, t: Trace, polls: nat, delayMs: nat, r: Reconciled)
    requires c.Published? && Paced(t0, delayMs, Publishes(t0) + 1) && Adds(w, t0 + [c], t, polls, delayMs, r)
    ensures Paced(t, delayMs, Publishes(t) + 1) && Rounds(t) == Publishes(t) + 1
  {
    hide Honest, NoneThrew, NoneVerified, EndsVerified, Lookups, Publishes, PollTime, RetryTime;
    Step(t0, c);
    Distribute(delayMs, Lookups(t0) - Publishes(t0) - 1, Lookups(t) - Lookups(t0) - 1);
    assert !t[|t| - 1].Published?;
  }

  /** The last upload of the trace and what came of it. */
  ghost predicate LastUpload(t: Trace, at: nat, e: Exit) {
    at < |t| && t[at] == Published(e) && NonePublished(t, at + 1)
  }

  /** Exactly what the loop has done after `k` failed attempts. */
  ghost predicate Tried(w: World, t: Trace, k: nat, failurePolls: nat, retryBaseMs: nat, slept: nat) {
    && Honest(w, t) && NoneVerified(t, 0) && NoneThrew(t, 0) && !Uploaded(t)
    && Publishes(t) == k && Lookups(t) == 1 + k * failurePolls
    && RetryTime(t) == retryBaseMs * (Pow2(slept) - 1)
  }

  /** The bounds that hold of every run with `k` publish calls. */
  ghost predicate Bounded(t: Trace, failurePolls: nat, visibilityPolls: nat, retryBaseMs: nat) {
    var k := Publishes(t);
    && NeverAgain(t)
    && Lookups(t) >= 1
    && (k == 0 ==> Lookups(t) == 1 && RetryTime(t) == 0)
    && (k >= 1 ==> Lookups(t) <= 1 + (k - 1) * failurePolls + Max(failurePolls, visibilityPolls))
    && (k >= 1 ==> RetryTime(t) == retryBaseMs * (Pow2(k - 1) - 1))
  }

  /** How one attempt ends: found, given up on, thrown, or to be tried again. */
  datatype Attempt = Ends(o: Outcome) | TryAgain

  method TryOnce(w: World, t0: Trace, attempt: nat, failurePolls: nat, visibilityPolls: nat, delayMs: nat, ghost retryBaseMs: nat)
    returns (r: Attempt, t: Trace)
    requires failurePolls >= 1 && visibilityPolls >= 1 && attempt >= 1
    requires Tried(w, t0, attempt - 1, failurePolls, retryBaseMs, attempt - 1) && Paced(t0, delayMs, attempt)
    ensures Honest(w, t) && Publishes(t) == attempt && Paced(t, delayMs, Rounds(t))
    ensures r.TryAgain? ==> Rounds(t) == attempt + 1
    ensures r.TryAgain? ==> Tried(w, t, attempt, failurePolls, retryBaseMs, attempt - 1)
    ensures r.Ends? ==> Bounded(t, failurePolls, visibilityPolls, retryBaseMs)
    ensures r.Ends? ==> r.o in {PublishedNow(attempt), PublishedAfterAmbiguousFailure(attempt), NotQueryable, CallThrew}
    ensures r.Ends? && r.o.Success() ==> EndsVerified(t)
    ensures r.Ends? && !r.o.Success() ==> NoneVerified(t, 0)
    ensures r.Ends? && (r.o.PublishedNow? || r.o.NotQueryable?) ==> LastUpload(t, |t0|, Code(0))
    ensures r.Ends? && r.o.PublishedAfterAmbiguousFailure? ==> exists e :: e != Code(0) && LastUpload(t, |t0|, e)
    ensures NoneThrew(t[..|t| - 1], 0) && t != []
    ensures r.Ends? && r.o.CallThrew? <==> Throws(t[|t| - 1])
    ensures r.Ends? && r.o.NotQueryable? ==> Lookups(t) == 1 + (attempt - 1) * failurePolls + visibilityPolls
  {
    hide Honest, EndsVerified, Adds, Tried, Bounded, Paced, Rounds, Throws, NoneThrew, LastUpload;
    var c := Published(w.publish(t0));
    t := t0 + [c];
    Uploading(w, t0, c, attempt - 1, failurePolls, retryBaseMs);
    if c.e.SpawnFailed? {
      ThrownUpload(w, t0, c, attempt - 1, failurePolls, visibilityPolls, retryBaseMs, delayMs);
      return Ends(CallThrew), t;
    }
    var succeeded := c.e == Code(0);
    var polls := if succeeded then visibilityPolls else failurePolls;
    var found;
    found, t := Reconcile(w, t, polls, delayMs);
    AfterAttempt(w, t0, c, t, polls, delayMs, found, attempt - 1, failurePolls, retryBaseMs);
    NextRound(w, t0, c, t, polls, delayMs, found);
    AttemptIsBounded(t, attempt - 1, failurePolls, visibilityPolls, retryBaseMs);
    if found.Found? {
      r := Ends(if succeeded then PublishedNow(attempt) else PublishedAfterAmbiguousFailure(attempt));
    } else if found.Threw? {
      r := Ends(CallThrew);
    } else if succeeded {
      r := Ends(NotQueryable);
    } else {
      r := TryAgain;
    }
  }

  lemma Uploading(w: World, t0: Trace, c: Call, k: nat, failurePolls: nat, retryBaseMs: nat)
    requires c == Published(w.publish(t0)) && Tried(w, t0, k, failurePolls, retryBaseMs, k)
    ensures Honest(w, t0 + [c]) && Publishes(t0) == k
    ensures NoneThrew((t0 + [c])[..|t0|], 0)
  {
    hide Honest;
    HonestUnder(w, t0, t0, c);
    assert (t0 + [c])[..|t0|] == t0;
  }

  /** The upload of this attempt is the last one, and nothing before it was verified or exited with 0. */
  lemma AfterAttempt(w: World, t0: Trace, c: Call, t: Trace, polls: nat, delayMs: nat, r: Reconciled,
                     k: nat, failurePolls: nat, retryBaseMs: nat)
    requires c.Published? && !c.e.SpawnFailed? && Tried(w, t0, k, failurePolls, retryBaseMs, k)
    requires Honest(w, t0 + [c]) && Adds(w, t0 + [c], t, polls, delayMs, r)
    ensures Honest(w, t) && LastUpload(t, |t0|, c.e) && NeverAgain(t)
    ensures if r.Found? then EndsVerified(t) else NoneVerified(t, 0)
    ensures t != [] && NoneThrew(t[..|t| - 1], 0) && (r.Threw? <==> Throws(t[|t| - 1]))
    ensures Publishes(t) == k + 1 && RetryTime(t) == retryBaseMs * (Pow2(k) - 1)
    ensures 1 + k * failurePolls <= Lookups(t) <= 1 + k * failurePolls + polls
    ensures r.Absent? ==> Lookups(t) == 1 + k * failurePolls + polls
    ensures r.Absent? && c.e != Code(0) && polls == failurePolls ==> Tried(w, t, k + 1, failurePolls, retryBaseMs, k)
  {
    hide Honest, EndsVerified, Throws, Lookups, Publishes, RetryTime, PollTime, NonePublished, NeverAgain, Pow2;
    var t1 := t0 + [c];
    Step(t0, c);
    AttemptTrace(t0, c, t);
    assert (k + 1) * failurePolls == k * failurePolls + failurePolls;
    assert t != [];
    assert NoneThrew(t, 0) == (NoneThrew(t[..|t| - 1], 0) && !Throws(t[|t| - 1]));
  }

  /** What was so before the attempt stays so, and the upload of the attempt is the last one. */
  lemma AttemptTrace(t0: Trace, c: Call, t: Trace)
    requires |t0| < |t| && t[..|t0| + 1] == t0 + [c] && NonePublished(t, |t0| + 1)
    requires c.Published? && !c.e.SpawnFailed? && NoneVerified(t0, 0) && NoneThrew(t0, 0) && !Uploaded(t0)
    ensures LastUpload(t, |t0|, c.e) && NeverAgain(t) && (Uploaded(t) <==> c.e == Code(0))
    ensures NoneVerified(t, |t0| + 1) ==> NoneVerified(t, 0)
    ensures NoneThrew(t[..|t| - 1], |t0| + 1) ==> NoneThrew(t[..|t| - 1], 0)
  {
    var t1 := t0 + [c];
    assert forall i | 0 <= i < |t1| :: t[i] == t1[i] by { assert forall i | 0 <= i < |t1| :: t[..|t1|][i] == t[i]; }
    assert t[|t0|] == c;
    assert forall i | 0 <= i < |t0| :: t[i] == t0[i];
  }

  lemma AttemptIsBounded(t: Trace, k: nat, failurePolls: nat, visibilityPolls: nat, retryBaseMs: nat)
    requires failurePolls >= 1 && visibilityPolls >= 1 && NeverAgain(t)
    requires Publishes(t) == k + 1 && RetryTime(t) == retryBaseMs * (Pow2(k) - 1)
    requires 1 + k * failurePolls <= Lookups(t) <= 1 + k * failurePolls + Max(failurePolls, visibilityPolls)
    ensures Bounded(t, failurePolls, visibilityPolls, retryBaseMs)
  {
    assert k * failurePolls >= 0;
  }

  lemma ThrownUpload(w: World, t0: Trace, c: Call, k: nat, failurePolls: nat, visibilityPolls: nat, retryBaseMs: nat, delayMs: nat)
    requires failurePolls >= 1 && visibilityPolls >= 1
    requires c == Published(SpawnFailed) && Tried(w, t0, k, failurePolls, retryBaseMs, k)
    requires Paced(t0, delayMs, k + 1)
    ensures NoneVerified(t0 + [c], 0) && Bounded(t0 + [c], failurePolls, visibilityPolls, retryBaseMs)
    ensures Paced(t0 + [c], delayMs, Rounds(t0 + [c])) && Publishes(t0 + [c]) == k + 1 && Throws(c)
  {
    hide Honest;
    var t := t0 + [c];
    Step(t0, c);
    assert NeverAgain(t) by {
      assert forall i | 0 <= i < |t0| :: t[i] == t0[i];
    }
    AttemptIsBounded(t, k, failurePolls, visibilityPolls, retryBaseMs);
  }

  /**
   Against any world: success is reported exactly when some lookup was present and verified, and
   then that is the last thing that happened; there are at most `attempts` uploads and none after
   one that exited with 0; lookups and retry sleeps are bounded as `Bounded` says; and each
   outcome names what happened.
   */
  method PublishCrate(config: Config, w: World) returns (o: Outcome, t: Trace)
    ensures Honest(w, t)
    ensures o.Invalid? <==> !config.Good()
    ensures o.Invalid? ==> t == []
    ensures o.Success() ==> EndsVerified(t)
    ensures !o.Success() ==> NoneVerified(t, 0)
    ensures config.Good() ==>
              var attempts, failurePolls := Or(config.attempts, 3), Or(config.failurePolls, 6);
              && Bounded(t, failurePolls, Or(config.visibilityPolls, 30), Or(config.retryBaseMs, 15_000))
              && Paced(t, Or(config.pollDelayMs, 10_000), Rounds(t))
              && t != [] && Publishes(t) <= attempts
              && (o.AlreadyPresent? ==> Publishes(t) == 0)
              && (o.PublishedNow? || o.PublishedAfterAmbiguousFailure? ==> o.attempts == Publishes(t) >= 1)
              && (o.PublishedNow? || o.NotQueryable? ==> exists at :: LastUpload(t, at, Code(0)))
              && (o.NotQueryable? ==>
                    Lookups(t) == 1 + (Publishes(t) - 1) * failurePolls + Or(config.visibilityPolls, 30))
              && NoneThrew(t[..|t| - 1], 0) && (o.CallThrew? <==> Throws(t[|t| - 1]))
              && (o.PublishedAfterAmbiguousFailure? ==> exists at, e :: e != Code(0) && LastUpload(t, at, e))
              && (o.NotPublished? ==>
                    Publishes(t) == attempts && !Uploaded(t) && Lookups(t) == 1 + attempts * failurePolls)
  {
    hide Honest, Bounded, EndsVerified, Config.Good, Throws, NoneThrew, Paced;
    t := [];
    assert Honest(w, []) by { EmptyIsHonest(w); }
    if !config.Good() {
      return Invalid, [];
    }
    var attempts, failurePolls, visibilityPolls, pollDelayMs, retryBaseMs := Settings(config);
    var found;
    found, t := Reconcile(w, [], 1, pollDelayMs);
    FirstLook(w, t, pollDelayMs, found, failurePolls, visibilityPolls, retryBaseMs);
    if found.Found? {
      return AlreadyPresent, t;
    }
    if found.Threw? {
      return CallThrew, t;
    }
    var attempt := 1;
    while true
      invariant 1 <= attempt <= attempts
      invariant Tried(w, t, attempt - 1, failurePolls, retryBaseMs, attempt - 1) && Paced(t, pollDelayMs, attempt)
      decreases attempts - attempt
    {
      var r;
      r, t := TryOnce(w, t, attempt, failurePolls, visibilityPolls, pollDelayMs, retryBaseMs);
      if r.Ends? {
        return r.o, t;
      }
      if attempt == attempts {
        GaveUp(w, t, attempts, failurePolls, visibilityPolls, retryBaseMs);
        return NotPublished, t;
      }
      ghost var before := t;
      t := t + [RetrySleep(retryBaseMs * Pow2(attempt - 1))];
      Backoff(w, before, attempt, failurePolls, retryBaseMs, pollDelayMs);
      attempt := attempt + 1;
    }
  }

  method Settings(config: Config) returns (attempts: nat, failurePolls: nat, visibilityPolls: nat, pollDelayMs: nat,
                                           retryBaseMs: nat)
    requires config.Good()
    ensures Usable(config.attempts) && attempts == Or(config.attempts, 3)
    ensures Usable(config.failurePolls) && failurePolls == Or(config.failurePolls, 6)
    ensures Usable(config.visibilityPolls) && visibilityPolls == Or(config.visibilityPolls, 30)
    ensures Usable(config.pollDelayMs) && pollDelayMs == Or(config.pollDelayMs, 10_000)
    ensures Usable(config.retryBaseMs) && retryBaseMs == Or(config.retryBaseMs, 15_000)
  {
    attempts, failurePolls := Or(config.attempts, 3), Or(config.failurePolls, 6);
    visibilityPolls := Or(config.visibilityPolls, 30);
    pollDelayMs, retryBaseMs := Or(config.pollDelayMs, 10_000), Or(config.retryBaseMs, 15_000);
  }

  lemma EmptyIsHonest(w: World)
    ensures Honest(w, [])
  {
  }

  lemma FirstLook(w: World, t: Trace, delayMs: nat, r: Reconciled, failurePolls: nat, visibilityPolls: nat, retryBaseMs: nat)
    requires Adds(w, [], t, 1, delayMs, r) && failurePolls >= 1
    ensures Honest(w, t) && Publishes(t) == 0 && Bounded(t, failurePolls, visibilityPolls, retryBaseMs)
    ensures r.Found? ==> EndsVerified(t)
    ensures !r.Found? ==> NoneVerified(t, 0)
    ensures t != [] && NoneThrew(t[..|t| - 1], 0) && (r.Threw? <==> Throws(t[|t| - 1]))
    ensures r.Absent? ==> Tried(w, t, 0, failurePolls, retryBaseMs, 0)
    ensures Paced(t, delayMs, Rounds(t)) && Rounds(t) == 1
  {
    hide Honest, Throws, EndsVerified;
    EmptyIsHonest(w);
    assert t != [] && NoneThrew(t, 0) == (NoneThrew(t[..|t| - 1], 0) && !Throws(t[|t| - 1]));
    assert 0 * failurePolls == 0 && retryBaseMs * (Pow2(0) - 1) == 0;
  }

  lemma GaveUp(w: World, t: Trace, attempts: nat, failurePolls: nat, visibilityPolls: nat, retryBaseMs: nat)
    requires attempts >= 1 && failurePolls >= 1 && visibilityPolls >= 1
    requires Tried(w, t, attempts, failurePolls, retryBaseMs, attempts - 1)
    ensures Bounded(t, failurePolls, visibilityPolls, retryBaseMs)
  {
    hide Honest;
    assert attempts * failurePolls == (attempts - 1) * failurePolls + failurePolls;
    AttemptIsBounded(t, attempts - 1, failurePolls, visibilityPolls, retryBaseMs);
  }

  /** The sleeps so far and the next one, each twice the last, add up. */
  lemma Backoff(w: World, t: Trace, attempt: nat, failurePolls: nat, retryBaseMs: nat, delayMs: nat)
    requires attempt >= 1 && Tried(w, t, attempt, failurePolls, retryBaseMs, attempt - 1) && Paced(t, delayMs, attempt + 1)
    ensures Paced(t + [RetrySleep(retryBaseMs * Pow2(attempt - 1))], delayMs, attempt + 1)
    ensures Tried(w, t + [RetrySleep(retryBaseMs * Pow2(attempt - 1))], attempt, failurePolls, retryBaseMs, attempt)
  {
    hide Honest;
    var c := RetrySleep(retryBaseMs * Pow2(attempt - 1));
    Step(t, c);
    HonestUnder(w, t, t, c);
    Doubling(retryBaseMs, attempt - 1);
  }
}
