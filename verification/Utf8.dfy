/**
 UTF-8 text as the byte sequences of section 4 of RFC 3629, and the two places that cut such
 text to a byte cap: `cap_text` (crates/core/src/context.rs) and `clamp_full_match`
 (crates/core/src/rule.rs).
 */
module Utf8 {
  import opened Common

  /** A byte that continues a multi-byte character. */
  predicate Continues(b: byte) { 0x80 <= b <= 0xBF }

  /** Length of the character a lead byte opens; 0 for a byte that opens none. */
  function Width(b: byte): nat {
    if b < 0x80 then 1
    else if 0xC2 <= b <= 0xDF then 2
    else if 0xE0 <= b <= 0xEF then 3
    else if 0xF0 <= b <= 0xF4 then 4
    else 0
  }

  /** The second byte is narrower after four lead bytes: no overlong form, surrogate or value past U+10FFFF. */
  predicate SecondByte(lead: byte, b: byte) {
    && Continues(b)
    && (lead == 0xE0 ==> 0xA0 <= b)
    && (lead == 0xED ==> b <= 0x9F)
    && (lead == 0xF0 ==> 0x90 <= b)
    && (lead == 0xF4 ==> b <= 0x8F)
  }

  /** `s` starts with one whole character. */
  predicate StartsWithChar(s: seq<byte>) {
    && s != [] && 0 < Width(s[0]) <= |s|
    && (Width(s[0]) > 1 ==> SecondByte(s[0], s[1]))
    && (forall k | 1 <= k < Width(s[0]) :: Continues(s[k]))
  }

  predicate Valid(s: seq<byte>) {
    s == [] || (StartsWithChar(s) && Valid(s[Width(s[0])..]))
  }

  /** `str::is_char_boundary`. */
  predicate Boundary(s: seq<byte>, i: nat) {
    i == 0 || i == |s| || (i < |s| && !Continues(s[i]))
  }

  /** What a whole character at the front says about its bytes, and that it needs no more than them. */
  lemma CharHead(s: seq<byte>)
    requires StartsWithChar(s)
    ensures s != [] && 0 < Width(s[0]) <= |s| && !Continues(s[0])
    ensures forall k | 1 <= k < Width(s[0]) :: Continues(s[k])
  {
  }

  lemma CharInFront(s: seq<byte>, t: seq<byte>)
    requires StartsWithChar(s) && Width(s[0]) <= |t| && forall k | 0 <= k < Width(s[0]) :: t[k] == s[k]
    ensures StartsWithChar(t)
  {
  }

  lemma {:induction false} ValidConcat(a: seq<byte>, b: seq<byte>)
    requires Valid(a) && Valid(b)
    ensures Valid(a + b)
  {
    hide StartsWithChar, Width;
    if a == [] {
      assert a + b == b;
    } else {
      CharHead(a);
      CharInFront(a, a + b);
      var w := Width(a[0]);
      ValidConcat(a[w..], b);
      assert (a + b)[w..] == a[w..] + b;
    }
  }

  lemma Slices(s: seq<byte>, w: nat, i: nat)
    requires w <= i <= |s|
    ensures s[w..][i - w..] == s[i..] && s[w..][..i - w] == s[..i][w..]
  {
  }

  /** The test on one byte finds exactly the places where valid text splits into valid texts. */
  lemma {:induction false} BoundarySplits(s: seq<byte>, i: nat)
    requires Valid(s) && i <= |s|
    ensures Boundary(s, i) <==> Valid(s[..i]) && Valid(s[i..])
  {
    hide StartsWithChar, Width, Continues;
    if s == [] || i == 0 || i == |s| {
      assert s[..|s|] == s && s[|s|..] == [] && s[..0] == [] && s[0..] == s;
    } else {
      CharHead(s);
      var w := Width(s[0]);
      if i < w {
        if Valid(s[i..]) {
          CharHead(s[i..]);
        }
      } else {
        BoundarySplits(s[w..], i - w);
        Slices(s, w, i);
        CharInFront(s, s[..i]);
        if i == w {
          CharHead(s[w..]);
        }
      }
    }
  }

  /** Among any four neighbouring positions of valid text one is a boundary. */
  lemma {:induction false} NearBoundary(s: seq<byte>, i: nat)
    requires Valid(s) && i <= |s|
    ensures exists j | i - 3 <= j <= i :: 0 <= j && Boundary(s, j)
  {
    if s != [] {
      var w := Width(s[0]);
      if i < w {
        assert Boundary(s, 0);
      } else {
        NearBoundary(s[w..], i - w);
        var j :| i - w - 3 <= j <= i - w && 0 <= j && Boundary(s[w..], j);
        if j == 0 && w < |s| {
          assert StartsWithChar(s[w..]);
        }
        assert Boundary(s, w + j);
      }
    } else {
      assert Boundary(s, 0);
    }
  }

  /** `kept` is the longest prefix of `s` that is itself text and has at most `cap` bytes. */
  ghost predicate LongestPrefix(s: seq<byte>, cap: nat, kept: seq<byte>) {
    && |kept| <= cap && kept <= s && Valid(kept)
    && forall n | |kept| < n <= Min(cap, |s|) :: !Valid(s[..n])
  }

  /** `kept` is the longest suffix of `s` that is itself text and has at most `cap` bytes. */
  ghost predicate LongestSuffix(s: seq<byte>, cap: nat, kept: seq<byte>) {
    && |kept| <= cap && |kept| <= |s| && kept == s[|s| - |kept|..] && Valid(kept)
    && forall i | |s| - Min(cap, |s|) <= i < |s| - |kept| :: !Valid(s[i..])
  }

  /** A suffix of text that is text leaves text in front of it. */
  lemma {:induction false} SuffixSplits(s: seq<byte>, i: nat)
    requires Valid(s) && i <= |s| && Valid(s[i..])
    ensures Boundary(s, i)
  {
    if 0 < i < |s| {
      assert StartsWithChar(s[i..]);
      assert s[i..][0] == s[i];
    }
  }

  /** A prefix of text that is text leaves text behind it. */
  lemma {:induction false} PrefixSplits(s: seq<byte>, i: nat)
    requires Valid(s) && i <= |s| && Valid(s[..i])
    ensures Boundary(s, i)
  {
    if 0 < i < |s| {
      var w := Width(s[0]);
      assert s[..i][0] == s[0];
      PrefixSplits(s[w..], i - w) by {
        assert s[w..][..i - w] == s[..i][w..];
      }
      if i == w {
        assert StartsWithChar(s[w..]);
      } else {
        assert s[w..][i - w] == s[i];
      }
    }
  }

  lemma LastBoundaryIsLongestPrefix(s: seq<byte>, cap: nat, end: nat)
    requires Valid(s) && end <= cap <= |s| && Boundary(s, end)
    requires forall j | end < j <= cap :: !Boundary(s, j)
    ensures LongestPrefix(s, cap, s[..end])
    ensures cap - end <= 3
  {
    BoundarySplits(s, end);
    forall n | end < n <= cap
      ensures !Valid(s[..n])
    {
      if Valid(s[..n]) {
        PrefixSplits(s, n);
      }
    }
    NearBoundary(s, cap);
  }

  lemma FirstBoundaryIsLongestSuffix(s: seq<byte>, cap: nat, start: nat)
    requires Valid(s) && cap <= |s| && |s| - cap <= start <= |s| && Boundary(s, start)
    requires forall j | |s| - cap <= j < start :: !Boundary(s, j)
    ensures LongestSuffix(s, cap, s[start..])
  {
    BoundarySplits(s, start);
    forall i | |s| - cap <= i < start
      ensures !Valid(s[i..])
    {
      if Valid(s[i..]) {
        SuffixSplits(s, i);
      }
    }
  }

  const MAX_FRAME_BYTES: nat := 8192
  const MAX_FULL_MATCH_SUMMARY_BYTES: nat := 256
  const U32_MAX: nat := 0xFFFF_FFFF

  method CapText(text: seq<byte>) returns (kept: seq<byte>, dropped: nat)
    requires Valid(text)
    ensures LongestPrefix(text, MAX_FRAME_BYTES, kept)
    ensures Min(MAX_FRAME_BYTES, |text|) - 3 <= |kept|
    ensures |text| <= MAX_FRAME_BYTES ==> kept == text
    ensures dropped == Min(|text| - |kept|, U32_MAX)
  {
    if |text| <= MAX_FRAME_BYTES {
      return text, 0;
    }
    var end := MAX_FRAME_BYTES;
    while !Boundary(text, end)
      invariant 0 <= end <= MAX_FRAME_BYTES
      invariant forall j | end < j <= MAX_FRAME_BYTES :: !Boundary(text, j)
      decreases end
    {
      end := end - 1;
    }
    LastBoundaryIsLongestPrefix(text, MAX_FRAME_BYTES, end);
    kept := text[..end];
    dropped := Min(|text| - end, U32_MAX);
  }

  method ClampFullMatch(text: seq<byte>) returns (kept: seq<byte>)
    requires Valid(text)
    ensures LongestPrefix(text, MAX_FULL_MATCH_SUMMARY_BYTES, kept)
    ensures Min(MAX_FULL_MATCH_SUMMARY_BYTES, |text|) - 3 <= |kept|
    ensures |text| <= MAX_FULL_MATCH_SUMMARY_BYTES ==> kept == text
  {
    if |text| <= MAX_FULL_MATCH_SUMMARY_BYTES {
      return text;
    }
    var end := MAX_FULL_MATCH_SUMMARY_BYTES;
    while end > 0 && !Boundary(text, end)
      invariant 0 <= end <= MAX_FULL_MATCH_SUMMARY_BYTES
      invariant forall j | end < j <= MAX_FULL_MATCH_SUMMARY_BYTES :: !Boundary(text, j)
    {
      end := end - 1;
    }
    LastBoundaryIsLongestPrefix(text, MAX_FULL_MATCH_SUMMARY_BYTES, end);
    kept := text[..end];
  }
}
