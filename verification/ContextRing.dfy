/**
 The bounded per-probe context ring (crates/core/src/context.rs).

 The ring is specified by the history of pushes: it holds the longest suffix of that history
 that meets both caps. `Tail` and `Window` are specified by what they must show.
 */
module ContextRing {
  import opened Common
  import opened Utf8

  const MAX_WINDOW_BYTES: nat := 64 * 1024
  const MAX_WINDOW_FRAMES: nat := 256

  /** `lost` counts bytes dropped before the frame reached the ring. */
  datatype Frame = Frame(id: nat, text: seq<byte>, lost: nat)

  datatype Config = Config(maxFrames: nat, maxBytes: nat)

  function Bytes(fs: seq<Frame>): nat {
    if fs == [] then 0 else |fs[0].text| + Bytes(fs[1..])
  }

  lemma {:induction false} BytesConcat(a: seq<Frame>, b: seq<Frame>)
    ensures Bytes(a + b) == Bytes(a) + Bytes(b)
  {
    if a == [] {
      assert a + b == b;
    } else {
      BytesConcat(a[1..], b);
      assert (a + b)[1..] == a[1..] + b;
    }
  }

  /** Bytes of a run grow with the run. */
  lemma BytesOfRun(fs: seq<Frame>, lo: nat, mid: nat, hi: nat)
    requires lo <= mid <= hi <= |fs|
    ensures Bytes(fs[lo..hi]) == Bytes(fs[lo..mid]) + Bytes(fs[mid..hi])
  {
    BytesConcat(fs[lo..mid], fs[mid..hi]);
    assert fs[lo..mid] + fs[mid..hi] == fs[lo..hi];
  }

  lemma BytesOfOne(fs: seq<Frame>, i: nat)
    requires i < |fs|
    ensures Bytes(fs[i..i + 1]) == |fs[i].text|
  {
    assert fs[i..i + 1] == [fs[i]];
    assert [fs[i]][1..] == [];
  }

  predicate Fits(c: Config, fs: seq<Frame>) {
    |fs| <= c.maxFrames && Bytes(fs) <= c.maxBytes
  }

  /** What `evict_until_in_bounds` leaves of `fs`. */
  function Evict(c: Config, fs: seq<Frame>): seq<Frame> {
    if fs == [] || Fits(c, fs) then fs else Evict(c, fs[1..])
  }

  /** What the ring holds after a history of pushes. */
  function Retained(c: Config, history: seq<Frame>): seq<Frame> {
    if history == [] then [] else
    var n := |history| - 1;
    Evict(c, Retained(c, history[..n]) + [history[n]])
  }

  /** The longest suffix of `history` within both caps. */
  ghost predicate LongestFit(c: Config, history: seq<Frame>, kept: seq<Frame>) {
    && |kept| <= |history| && kept == history[|history| - |kept|..] && Fits(c, kept)
    && forall i | 0 <= i < |history| - |kept| :: !Fits(c, history[i..])
  }

  lemma {:induction false} EvictIsLongestFit(c: Config, fs: seq<Frame>)
    ensures LongestFit(c, fs, Evict(c, fs))
  {
    if fs != [] && !Fits(c, fs) {
      EvictIsLongestFit(c, fs[1..]);
      var kept := Evict(c, fs[1..]);
      assert fs[1..][|fs[1..]| - |kept|..] == fs[|fs| - |kept|..];
      forall i | 0 <= i < |fs| - |kept|
        ensures !Fits(c, fs[i..])
      {
        if i == 0 {
          assert fs[0..] == fs;
        } else {
          assert fs[1..][i - 1..] == fs[i..];
        }
      }
    } else {
      assert fs[0..] == fs;
    }
  }

  /** A run that does not fit does not fit with one more frame at its end. */
  lemma LongerDoesNotFit(c: Config, fs: seq<Frame>, f: Frame)
    requires !Fits(c, fs)
    ensures !Fits(c, fs + [f])
  {
    BytesConcat(fs, [f]);
  }

  /** What does not fit before a push does not fit after it. */
  lemma StillTooMuch(c: Config, history: seq<Frame>, i: nat)
    requires i < |history| && !Fits(c, history[..|history| - 1][i..])
    ensures !Fits(c, history[i..])
  {
    hide Fits;
    var n := |history| - 1;
    LongerDoesNotFit(c, history[..n][i..], history[n]);
    assert history[..n][i..] + [history[n]] == history[i..];
  }

  /** The longest fit of what was held and the new frame is the longest fit of the whole history. */
  lemma PushKeepsLongestFit(c: Config, history: seq<Frame>, held: seq<Frame>, kept: seq<Frame>)
    requires history != [] && LongestFit(c, history[..|history| - 1], held)
    requires LongestFit(c, held + [history[|history| - 1]], kept)
    ensures LongestFit(c, history, kept)
  {
    hide Fits;
    var n := |history| - 1;
    var before, pushed := history[..n], held + [history[n]];
    var cut := n - |held|;
    assert history[cut..] == pushed;
    assert history[|history| - |kept|..] == pushed[|pushed| - |kept|..];
    forall i | 0 <= i < |history| - |kept|
      ensures !Fits(c, history[i..])
    {
      if i < cut {
        assert !Fits(c, before[i..]);
        StillTooMuch(c, history, i);
      } else {
        assert pushed[i - cut..] == history[i..];
      }
    }
  }

  /** After any history of pushes the ring holds the longest suffix of it that meets both caps. */
  lemma {:induction false} RetainedIsLongestFit(c: Config, history: seq<Frame>)
    ensures LongestFit(c, history, Retained(c, history))
  {
    if history != [] {
      hide LongestFit, Evict;
      var n := |history| - 1;
      RetainedIsLongestFit(c, history[..n]);
      var held := Retained(c, history[..n]);
      EvictIsLongestFit(c, held + [history[n]]);
      PushKeepsLongestFit(c, history, held, Retained(c, history));
    }
  }

  function Texts(fs: seq<Frame>): seq<seq<byte>> {
    if fs == [] then [] else [fs[0].text] + Texts(fs[1..])
  }

  /** Some frame lost bytes before it reached the ring. */
  predicate AnyLost(fs: seq<Frame>) { fs != [] && (fs[0].lost > 0 || AnyLost(fs[1..])) }

  function Newest(fs: seq<Frame>, k: nat): seq<Frame>
    requires k <= |fs|
  {
    fs[|fs| - k..]
  }

  /**
   The newest frames are shown, and one more would be too many or too long. `truncated` says
   that a requested frame is not shown or that a shown one lost bytes earlier.
   */
  ghost predicate ShowsNewest(fs: seq<Frame>, maxLines: nat, maxBytes: nat, lines: seq<seq<byte>>, truncated: bool) {
    var k := |lines|;
    && k <= Min(maxLines, |fs|) && lines == Texts(Newest(fs, k)) && Bytes(Newest(fs, k)) <= maxBytes
    && (k < Min(maxLines, |fs|) ==> Bytes(Newest(fs, k + 1)) > maxBytes)
    && (truncated <==> k < Min(maxLines, |fs|) || AnyLost(Newest(fs, k)))
  }

  /** The newest frame is requested and too long by itself. */
  predicate NewestTooLong(fs: seq<Frame>, maxLines: nat, maxBytes: nat) {
    maxLines > 0 && fs != [] && |fs[|fs| - 1].text| > maxBytes
  }

  lemma OneMore(fs: seq<Frame>, k: nat)
    requires k < |fs|
    ensures Bytes(Newest(fs, k + 1)) == |fs[|fs| - k - 1].text| + Bytes(Newest(fs, k))
    ensures AnyLost(Newest(fs, k + 1)) <==> fs[|fs| - k - 1].lost > 0 || AnyLost(Newest(fs, k))
    ensures Texts(Newest(fs, k + 1)) == [fs[|fs| - k - 1].text] + Texts(Newest(fs, k))
  {
    assert Newest(fs, k + 1)[0] == fs[|fs| - k - 1] && Newest(fs, k + 1)[1..] == Newest(fs, k);
  }

  /** The longest end of a text that fits, cut at a character boundary. */
  method CutFront(text: seq<byte>, maxBytes: nat) returns (kept: seq<byte>)
    requires Utf8.Valid(text) && maxBytes <= |text|
    ensures LongestSuffix(text, maxBytes, kept)
  {
    var start := |text| - maxBytes;
    while !Boundary(text, start)
      invariant |text| - maxBytes <= start <= |text|
      invariant forall j | |text| - maxBytes <= j < start :: !Boundary(text, j)
      decreases |text| - start
    {
      start := start + 1;
    }
    FirstBoundaryIsLongestSuffix(text, maxBytes, start);
    kept := text[start..];
  }

  /** The newest `i` frames have been chosen. */
  ghost predicate Chosen(fs: seq<Frame>, i: nat, chosen: seq<seq<byte>>, bytes: nat, lost: bool) {
    && i <= |fs| && |chosen| == i && chosen == Texts(Newest(fs, i))
    && bytes == Bytes(Newest(fs, i)) && (lost <==> AnyLost(Newest(fs, i)))
  }

  lemma NoneChosen(fs: seq<Frame>)
    ensures Chosen(fs, 0, [], 0, false)
  {
    assert Newest(fs, 0) == [];
  }

  lemma ChooseOne(fs: seq<Frame>, i: nat, chosen: seq<seq<byte>>, bytes: nat, lost: bool)
    requires i < |fs| && Chosen(fs, i, chosen, bytes, lost)
    ensures var f := fs[|fs| - i - 1]; Chosen(fs, i + 1, [f.text] + chosen, bytes + |f.text|, lost || f.lost > 0)
  {
    hide Bytes, AnyLost, Texts, Newest;
    OneMore(fs, i);
  }

  lemma ChosenIsNewest(fs: seq<Frame>, maxLines: nat, maxBytes: nat, i: nat, chosen: seq<seq<byte>>, bytes: nat, lost: bool)
    requires Chosen(fs, i, chosen, bytes, lost) && bytes <= maxBytes && i <= maxLines
    ensures i == Min(maxLines, |fs|) ==> ShowsNewest(fs, maxLines, maxBytes, chosen, lost)
    ensures i < Min(maxLines, |fs|) && |fs[|fs| - i - 1].text| > maxBytes - bytes ==>
              ShowsNewest(fs, maxLines, maxBytes, chosen, true)
  {
    hide Bytes, AnyLost, Texts, Newest;
    if i < |fs| {
      OneMore(fs, i);
    }
  }

  /** The loop of `tail`, newest frame first. */
  method WholeTail(fs: seq<Frame>, maxLines: nat, maxBytes: nat)
    returns (chosen: seq<seq<byte>>, truncated: bool)
    ensures ShowsNewest(fs, maxLines, maxBytes, chosen, truncated)
  {
    hide Chosen, ShowsNewest;
    var n := |fs|;
    var bytes: nat, i: nat := 0, 0;
    chosen, truncated := [], false;
    NoneChosen(fs);
    while i < n && i < maxLines
      invariant i <= n && i <= maxLines && bytes <= maxBytes
      invariant Chosen(fs, i, chosen, bytes, truncated)
    {
      var f := fs[n - i - 1];
      if |f.text| > maxBytes - bytes {
        ChosenIsNewest(fs, maxLines, maxBytes, i, chosen, bytes, truncated);
        truncated := true;
        return;
      }
      ChooseOne(fs, i, chosen, bytes, truncated);
      truncated := truncated || f.lost > 0;
      bytes := bytes + |f.text|;
      chosen := [f.text] + chosen;
      i := i + 1;
    }
    ChosenIsNewest(fs, maxLines, maxBytes, i, chosen, bytes, truncated);
  }

  datatype RingTail = RingTail(lines: seq<seq<byte>>, evicted: nat, truncated: bool)

  datatype WindowRequest = WindowRequest(anchor: nat, before: nat, after: nat, maxBytes: Option<nat>)

  datatype WindowResponse = WindowResponse(
    frames: seq<Frame>, anchorMissing: bool, truncatedBefore: bool, truncatedAfter: bool,
    truncatedBytes: bool, truncatedFrames: bool, evicted: nat)

  function ByteCap(r: WindowRequest): nat {
    Min(if r.maxBytes.Some? then r.maxBytes.value else MAX_WINDOW_BYTES, MAX_WINDOW_BYTES)
  }

  /** First and last index the request asks for, clipped to a ring of `n` frames. */
  function WantStart(a: nat, r: WindowRequest): nat { if a < r.before then 0 else a - r.before }

  function WantEnd(a: nat, r: WindowRequest, n: nat): nat
    requires a < n
  {
    Min(a + r.after, n - 1)
  }

  /** A run of frames and the requested range around it. */
  datatype Span = Span(lo: nat, hi: nat, wantStart: nat, wantEnd: nat)

  predicate InRange(fs: seq<Frame>, a: nat, w: Span) {
    w.wantStart <= w.lo <= a <= w.hi <= w.wantEnd < |fs|
  }

  /** The next frame after, or before, the run would break the byte cap. */
  predicate BlockedAfter(fs: seq<Frame>, w: Span, cap: nat)
    requires w.lo <= w.hi < |fs|
  {
    w.hi < w.wantEnd < |fs| && Bytes(fs[w.lo..w.hi + 2]) > cap
  }

  predicate BlockedBefore(fs: seq<Frame>, w: Span, cap: nat)
    requires w.lo <= w.hi < |fs|
  {
    w.wantStart < w.lo && Bytes(fs[w.lo - 1..w.hi + 1]) > cap
  }

  lemma GrowAfter(fs: seq<Frame>, lo: nat, hi: nat)
    requires lo <= hi && hi + 1 < |fs|
    ensures Bytes(fs[lo..hi + 2]) == Bytes(fs[lo..hi + 1]) + |fs[hi + 1].text|
  {
    BytesOfRun(fs, lo, hi + 1, hi + 2);
    BytesOfOne(fs, hi + 1);
  }

  lemma GrowBefore(fs: seq<Frame>, lo: nat, hi: nat)
    requires 0 < lo <= hi < |fs|
    ensures Bytes(fs[lo - 1..hi + 1]) == |fs[lo - 1].text| + Bytes(fs[lo..hi + 1])
  {
    BytesOfRun(fs, lo - 1, lo, hi + 1);
    BytesOfOne(fs, lo - 1);
  }

  /** A side once blocked stays blocked while the run grows on the other side. */
  lemma StillBlockedAfter(fs: seq<Frame>, w: Span, cap: nat)
    requires 0 < w.lo <= w.hi < |fs| && BlockedAfter(fs, w, cap)
    ensures BlockedAfter(fs, w.(lo := w.lo - 1), cap)
  {
    BytesOfRun(fs, w.lo - 1, w.lo, w.hi + 2);
  }

  lemma StillBlockedBefore(fs: seq<Frame>, w: Span, cap: nat)
    requires w.lo <= w.hi && w.hi + 1 < |fs| && BlockedBefore(fs, w, cap)
    ensures BlockedBefore(fs, w.(hi := w.hi + 1), cap)
  {
    BytesOfRun(fs, w.lo - 1, w.hi + 1, w.hi + 2);
  }

  /** The run is as wide as the range and the caps let it be, and the flags say when a cap stopped it. */
  ghost predicate WidestRun(fs: seq<Frame>, a: nat, w: Span, cap: nat, truncatedBytes: bool, truncatedFrames: bool) {
    && InRange(fs, a, w)
    && var count := w.hi - w.lo + 1;
       var whole := w.lo == w.wantStart && w.hi == w.wantEnd;
    && count <= MAX_WINDOW_FRAMES
    && (w.lo < w.hi ==> Bytes(fs[w.lo..w.hi + 1]) <= cap)
    && (w.hi < w.wantEnd ==> count == MAX_WINDOW_FRAMES || BlockedAfter(fs, w, cap))
    && (w.wantStart < w.lo ==> count == MAX_WINDOW_FRAMES || BlockedBefore(fs, w, cap))
    && (truncatedBytes || truncatedFrames <==> !whole)
    && (truncatedFrames <==> count == MAX_WINDOW_FRAMES && !whole)
    && (truncatedBytes ==> BlockedAfter(fs, w, cap) || BlockedBefore(fs, w, cap))
  }

  /** Where the growing run stands; `bytes` is its text so far. */
  datatype Growth = Growth(w: Span, bytes: nat, truncatedBytes: bool, truncatedFrames: bool) {
    function Count(): int { w.hi - w.lo + 1 }

    predicate Whole() { w.lo == w.wantStart && w.hi == w.wantEnd }
  }

  ghost predicate Growing(fs: seq<Frame>, a: nat, g: Growth, cap: nat) {
    && InRange(fs, a, g.w) && g.Count() <= MAX_WINDOW_FRAMES
    && g.bytes == Bytes(fs[g.w.lo..g.w.hi + 1]) && (g.w.lo < g.w.hi ==> g.bytes <= cap)
    && (g.truncatedBytes ==> BlockedAfter(fs, g.w, cap) || BlockedBefore(fs, g.w, cap))
    && (g.truncatedFrames ==> g.Count() == MAX_WINDOW_FRAMES && !g.Whole())
  }

  /** Takes the next frame after the run, or notes why not. */
  method TakeAfter(fs: seq<Frame>, ghost a: nat, g: Growth, cap: nat) returns (g': Growth, moved: bool)
    requires Growing(fs, a, g, cap)
    ensures Growing(fs, a, g', cap)
    ensures g'.w == if moved then g.w.(hi := g.w.hi + 1) else g.w
    ensures !moved && g.w.hi < g.w.wantEnd ==>
              if g.Count() == MAX_WINDOW_FRAMES then g'.truncatedFrames
              else g'.truncatedBytes && BlockedAfter(fs, g.w, cap)
  {
    hide Bytes;
    g', moved := g, false;
    if g.w.hi < g.w.wantEnd {
      if g.Count() >= MAX_WINDOW_FRAMES {
        g' := g.(truncatedFrames := true);
      } else {
        var b := |fs[g.w.hi + 1].text|;
        GrowAfter(fs, g.w.lo, g.w.hi);
        if g.bytes + b > cap {
          g' := g.(truncatedBytes := true);
        } else {
          if BlockedBefore(fs, g.w, cap) {
            StillBlockedBefore(fs, g.w, cap);
          }
          g', moved := g.(w := g.w.(hi := g.w.hi + 1), bytes := g.bytes + b), true;
        }
      }
    }
  }

  /** Takes the next frame before the run, or notes why not. */
  method TakeBefore(fs: seq<Frame>, ghost a: nat, g: Growth, cap: nat) returns (g': Growth, moved: bool)
    requires Growing(fs, a, g, cap)
    ensures Growing(fs, a, g', cap)
    ensures if moved then 0 < g.w.lo && g'.w == g.w.(lo := g.w.lo - 1) else g'.w == g.w
    ensures !moved ==> (g.truncatedBytes ==> g'.truncatedBytes) && (g.truncatedFrames ==> g'.truncatedFrames)
    ensures !moved && g.w.wantStart < g.w.lo ==>
              if g.Count() == MAX_WINDOW_FRAMES then g'.truncatedFrames
              else g'.truncatedBytes && BlockedBefore(fs, g.w, cap)
  {
    hide Bytes;
    g', moved := g, false;
    if g.w.lo > g.w.wantStart {
      if g.Count() >= MAX_WINDOW_FRAMES {
        g' := g.(truncatedFrames := true);
      } else {
        var b := |fs[g.w.lo - 1].text|;
        GrowBefore(fs, g.w.lo, g.w.hi);
        if g.bytes + b > cap {
          g' := g.(truncatedBytes := true);
        } else {
          if BlockedAfter(fs, g.w, cap) {
            StillBlockedAfter(fs, g.w, cap);
          }
          g', moved := g.(w := g.w.(lo := g.w.lo - 1), bytes := g.bytes + b), true;
        }
      }
    }
  }

  /** The loop of `window`: take neighbours in turn, after and before, while the caps allow. */
  method GrowOutward(fs: seq<Frame>, a: nat, wantStart: nat, end: nat, cap: nat) returns (g: Growth)
    requires wantStart <= a <= end < |fs|
    ensures g.w.lo <= g.w.hi < |fs| && g.w.wantStart == wantStart && g.w.wantEnd == end
    ensures WidestRun(fs, a, g.w, cap, g.truncatedBytes, g.truncatedFrames)
  {
    BytesOfOne(fs, a);
    g := Growth(Span(a, a, wantStart, end), |fs[a].text|, false, false);
    var progressed := true;
    while progressed
      invariant Growing(fs, a, g, cap) && g.w.wantStart == wantStart && g.w.wantEnd == end
      invariant !progressed ==> WidestRun(fs, a, g.w, cap, g.truncatedBytes, g.truncatedFrames)
      decreases end - g.w.hi + g.w.lo, progressed
    {
      var after, before;
      g, after := TakeAfter(fs, a, g, cap);
      g, before := TakeBefore(fs, a, g, cap);
      progressed := after || before;
    }
  }

  predicate AllText(fs: seq<Frame>) { forall i | 0 <= i < |fs| :: Utf8.Valid(fs[i].text) }

  lemma PushedText(c: Config, fs: seq<Frame>, f: Frame)
    requires AllText(fs) && Utf8.Valid(f.text)
    ensures AllText(Evict(c, fs + [f]))
  {
    hide Utf8.Valid, Evict, Fits;
    EvictIsLongestFit(c, fs + [f]);
  }

  lemma PushedBytes(fs: seq<Frame>, f: Frame)
    ensures Bytes(fs + [f]) == Bytes(fs) + |f.text|
  {
    BytesConcat(fs, [f]);
  }

  class Ring {
    const config: Config
    var frames: seq<Frame>
    var totalBytes: nat
    var evictedFrames: nat
    ghost var history: seq<Frame>

    /** Totals are derived from the frames, and the frames from the history of pushes. */
    ghost predicate Valid()
      reads this
    {
      && frames == Retained(config, history)
      && totalBytes == Bytes(frames)
      && |frames| <= |history|
      && evictedFrames == Min(U64_MAX, |history| - |frames|)
      && AllText(frames)
    }

    constructor (config: Config)
      ensures Valid() && history == [] && this.config == config
    {
      this.config := config;
      frames, totalBytes, evictedFrames := [], 0, 0;
      history := [];
    }

    method Push(frame: Frame)
      requires Valid() && Utf8.Valid(frame.text)
      modifies this
      ensures Valid() && history == old(history) + [frame]
      ensures LongestFit(config, history, frames)
    {
      hide Utf8.Valid, AllText, LongestFit, Evict, Bytes;
      PushedText(config, frames, frame);
      PushedBytes(frames, frame);
      totalBytes := totalBytes + |frame.text|;
      frames := frames + [frame];
      EvictUntilInBounds();
      history := history + [frame];
      assert history[..|history| - 1] == old(history);
      RetainedIsLongestFit(config, history);
    }

    method EvictUntilInBounds()
      requires totalBytes == Bytes(frames)
      modifies this`frames, this`totalBytes, this`evictedFrames
      ensures frames == Evict(config, old(frames)) && totalBytes == Bytes(frames) && |frames| <= |old(frames)|
      ensures evictedFrames == Max(old(evictedFrames), Min(U64_MAX, old(evictedFrames) + |old(frames)| - |frames|))
    {
      while |frames| > config.maxFrames || totalBytes > config.maxBytes
        invariant totalBytes == Bytes(frames) && |frames| <= |old(frames)|
        invariant Evict(config, frames) == Evict(config, old(frames))
        invariant evictedFrames == Max(old(evictedFrames), Min(U64_MAX, old(evictedFrames) + |old(frames)| - |frames|))
        decreases |frames|
      {
        if frames == [] {
          break;
        }
        totalBytes := totalBytes - |frames[0].text|;
        frames := frames[1..];
        evictedFrames := if evictedFrames < U64_MAX then evictedFrames + 1 else evictedFrames;
      }
    }

    method IndexOf(anchor: nat) returns (r: Option<nat>)
      ensures r.Some? ==> r.value < |frames| && frames[r.value].id == anchor
      ensures forall i | 0 <= i < (if r.Some? then r.value else |frames|) :: frames[i].id != anchor
    {
      for i := 0 to |frames|
        invariant forall k | 0 <= k < i :: frames[k].id != anchor
      {
        if frames[i].id == anchor {
          return Some(i);
        }
      }
      r := None;
    }

    /**
     The newest frames: at most `maxLines` of them within `maxBytes` bytes of text, as many as
     fit; or the end of the newest frame when that frame alone is too long. `truncated` says
     that a requested frame is missing or cut, or that a shown frame lost bytes earlier.
     */
    method Tail(maxLines: nat, maxBytes: nat) returns (r: RingTail)
      requires Valid()
      ensures r.evicted == evictedFrames
      ensures NewestTooLong(frames, maxLines, maxBytes) ==>
                |r.lines| == 1 && r.truncated && LongestSuffix(frames[|frames| - 1].text, maxBytes, r.lines[0])
      ensures !NewestTooLong(frames, maxLines, maxBytes) ==>
                ShowsNewest(frames, maxLines, maxBytes, r.lines, r.truncated)
    {
      if maxLines > 0 && frames != [] {
        var newest := frames[|frames| - 1].text;
        if |newest| > maxBytes {
          var end := CutFront(newest, maxBytes);
          r := RingTail([end], evictedFrames, true);
          return;
        }
      }
      var lines, truncated;
      lines, truncated := WholeTail(frames, maxLines, maxBytes);
      r := RingTail(lines, evictedFrames, truncated);
    }

    /**
     The frames around `anchor`, grown outward from it. The run cannot be extended on either
     side without leaving the requested range or breaking a cap, and a truncation flag is up
     exactly when the run is not the whole requested range.
     */
    method Window(req: WindowRequest) returns (r: WindowResponse, ghost a: nat, ghost w: Span)
      requires Valid()
      ensures r.evicted == evictedFrames
      ensures r.anchorMissing <==> forall i | 0 <= i < |frames| :: frames[i].id != req.anchor
      ensures r.anchorMissing ==>
                r.frames == [] && !r.truncatedBefore && !r.truncatedAfter && !r.truncatedBytes && !r.truncatedFrames
      ensures !r.anchorMissing ==>
                && a < |frames| && frames[a].id == req.anchor && (forall i | 0 <= i < a :: frames[i].id != req.anchor)
                && w.lo <= w.hi < |frames| && w.wantStart == WantStart(a, req) && w.wantEnd == WantEnd(a, req, |frames|)
                && WidestRun(frames, a, w, ByteCap(req), r.truncatedBytes, r.truncatedFrames)
                && r.frames == frames[w.lo..w.hi + 1]
                && (r.truncatedBefore <==> a < req.before)
                && (r.truncatedAfter <==> a + req.after >= |frames|)
    {
      hide WidestRun, Retained, Bytes, AllText;
      a, w := 0, Span(0, 0, 0, 0);
      var found := IndexOf(req.anchor);
      if found.None? {
        r := WindowResponse([], true, false, false, false, false, evictedFrames);
        return;
      }
      var anchor := found.value;
      a := anchor;
      var wantStart := if anchor < req.before then 0 else anchor - req.before;
      var wantEnd := anchor + req.after;
      var end := Min(wantEnd, |frames| - 1);
      var cap := Min(if req.maxBytes.Some? then req.maxBytes.value else MAX_WINDOW_BYTES, MAX_WINDOW_BYTES);
      var g := GrowOutward(frames, anchor, wantStart, end, cap);
      w := g.w;
      r := WindowResponse(frames[g.w.lo..g.w.hi + 1], false, anchor < req.before, wantEnd >= |frames|,
                          g.truncatedBytes, g.truncatedFrames, evictedFrames);
    }
  }
}
