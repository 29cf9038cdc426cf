/**
 The `-EncodedCommand` decoder of crates/core/src/os_guard.rs and the encoder its tests use.

 Both sides are measured against the bit string of section 4 of RFC 4648: a text stands for the
 concatenation of its 6-bit values, a byte sequence for the concatenation of its 8-bit values.
 */
module Base64 {
  import opened Common

  type sextet = v: int | 0 <= v < 64
  type unit = u: int | 0 <= u < 0x10000

  /** The `n` low bits of `x`, most significant first. */
  function Bits(x: nat, n: nat): (r: seq<bool>)
    ensures |r| == n
  {
    if n == 0 then [] else Bits(x / 2, n - 1) + [x % 2 == 1]
  }

  function ByteBits(bs: seq<byte>): (r: seq<bool>)
    ensures |r| == 8 * |bs|
  {
    if bs == [] then [] else ByteBits(bs[..|bs| - 1]) + Bits(bs[|bs| - 1], 8)
  }

  function SextetBits(vs: seq<sextet>): (r: seq<bool>)
    ensures |r| == 6 * |vs|
  {
    if vs == [] then [] else SextetBits(vs[..|vs| - 1]) + Bits(vs[|vs| - 1], 6)
  }

  /** `x >> k`. */
  function Shr(x: nat, k: nat): nat {
    if k == 0 then x else Shr(x / 2, k - 1)
  }

  lemma {:induction false} BitsSplit(x: nat, n: nat, k: nat)
    ensures Bits(x, n + k) == Bits(Shr(x, k), n) + Bits(x, k)
    decreases k
  {
    if k == 0 {
      assert Bits(x, n) + [] == Bits(x, n);
    } else {
      BitsSplit(x / 2, n, k - 1);
      assert Bits(x / 2, n + (k - 1)) + [x % 2 == 1] == Bits(Shr(x, k), n) + (Bits(x / 2, k - 1) + [x % 2 == 1]);
    }
  }

  lemma HalveRemainder(x: nat, p: nat)
    requires p > 0
    ensures (x % (2 * p)) / 2 == (x / 2) % p && (x % (2 * p)) % 2 == x % 2
  {
    var q, r := x / (2 * p), x % (2 * p);
    assert x == 2 * (p * q) + r;
    assert x / 2 == p * q + r / 2 && r / 2 < p;
    RemainderIs(x / 2, p, q, r / 2);
  }

  lemma MultipleInRange(p: int, k: int)
    requires 0 < p && -p < p * k < p
    ensures k == 0
  {
  }

  lemma RemainderIs(x: nat, p: nat, q: nat, r: nat)
    requires 0 < p && r < p && x == p * q + r
    ensures x % p == r
  {
    var d, m := x / p, x % p;
    assert x == p * d + m && 0 <= m < p;
    assert p * (q - d) == p * q - p * d == m - r;
    MultipleInRange(p, q - d);
  }

  /** Masking to `m` bits does not touch the low `n <= m` of them. */
  lemma {:induction false} BitsMask(x: nat, n: nat, m: nat)
    requires n <= m
    ensures Bits(x % Pow2(m), n) == Bits(x, n)
    decreases n
  {
    if n > 0 {
      HalveRemainder(x, Pow2(m - 1));
      BitsMask(x / 2, n - 1, m - 1);
    }
  }

  lemma Powers()
    ensures Pow2(6) == 64 && Pow2(8) == 256 && Pow2(16) == 65536
  {
    assert Pow2(2) == 4 && Pow2(4) == 16 && Pow2(6) == 64 && Pow2(8) == 256;
    assert Pow2(10) == 1024 && Pow2(12) == 4096 && Pow2(14) == 16384;
  }

  lemma ShrTwo(x: nat, k: nat)
    ensures Shr(x, k + 2) == Shr(x / 4, k)
  {
    assert Shr(x, k + 2) == Shr(x / 2, k + 1) == Shr(x / 2 / 2, k);
  }

  lemma SixBitsIn(a: nat, v: sextet)
    ensures Shr(a * 64 + v, 6) == a && (a * 64 + v) % 64 == v
  {
    var x: nat := a * 64 + v;
    ShrTwo(x, 4);
    ShrTwo(x / 4, 2);
    ShrTwo(x / 4 / 4, 0);
    hide Shr;
    assert x / 4 / 4 / 4 == x / 64 == a;
  }

  lemma BitsAppend(a: nat, v: sextet, n: nat)
    ensures Bits(a * 64 + v, n + 6) == Bits(a, n) + Bits(v, 6)
  {
    hide Bits, Shr, Pow2;
    SixBitsIn(a, v);
    BitsSplit(a * 64 + v, n, 6);
    Powers();
    BitsMask(a * 64 + v, 6, 6);
  }

  // -------------------------------------------------------------------- alphabet

  /** The printable byte of a 6-bit value. */
  function Letter(v: sextet): byte {
    if v < 26 then 0x41 + v else if v < 52 then 0x61 + v - 26 else if v < 62 then 0x30 + v - 52
    else if v == 62 then 0x2B else 0x2F
  }

  const PAD: byte := 0x3D

  function Value(c: byte): (r: Option<sextet>)
    ensures forall v: sextet :: Letter(v) == c ==> r == Some(v)
    ensures c == PAD ==> r.None?
  {
    if 0x41 <= c <= 0x5A then Some(c - 0x41)
    else if 0x61 <= c <= 0x7A then Some(c - 0x61 + 26)
    else if 0x30 <= c <= 0x39 then Some(c - 0x30 + 52)
    else if c == 0x2B then Some(62)
    else if c == 0x2F then Some(63)
    else None
  }

  /** The text before its first `=`. */
  function Body(text: seq<byte>): (r: seq<byte>)
    ensures PAD !in r && r <= text
  {
    if text == [] || text[0] == PAD then [] else [text[0]] + Body(text[1..])
  }

  predicate IsBase64(text: seq<byte>) { forall c | c in text :: Value(c).Some? }

  function Values(text: seq<byte>): (vs: seq<sextet>)
    requires IsBase64(text)
    ensures |vs| == |text| && forall i | 0 <= i < |text| :: Value(text[i]) == Some(vs[i])
  {
    seq(|text|, i requires 0 <= i < |text| => Value(text[i]).value)
  }

  // --------------------------------------------------------------------- decoder

  /** `bytes` are all the whole bytes in the bit string of `vs`. */
  ghost predicate Decodes(vs: seq<sextet>, bytes: seq<byte>) {
    && |SextetBits(vs)| - |ByteBits(bytes)| < 8
    && ByteBits(bytes) <= SextetBits(vs)
  }

  function LeBytes(us: seq<unit>): (r: seq<byte>)
    ensures |r| == 2 * |us|
  {
    if us == [] then [] else [us[0] % 256, us[0] / 256] + LeBytes(us[1..])
  }

  /** Whole little-endian pairs; an odd last byte is dropped. */
  function LeUnits(bs: seq<byte>): seq<unit> {
    if |bs| < 2 then [] else
    var u: unit := (bs[0] as int) + 256 * (bs[1] as int);
    [u] + LeUnits(bs[2..])
  }

  lemma {:induction false} UnitsRoundTrip(us: seq<unit>)
    ensures LeUnits(LeBytes(us)) == us
  {
    if us != [] {
      UnitsRoundTrip(us[1..]);
      assert LeBytes(us)[2..] == LeBytes(us[1..]);
    }
  }

  lemma PushByte(bs: seq<byte>, b: byte)
    ensures ByteBits(bs + [b]) == ByteBits(bs) + Bits(b, 8)
  {
    assert (bs + [b])[..|bs|] == bs;
  }

  lemma PushSextet(vs: seq<sextet>, v: sextet)
    ensures SextetBits(vs + [v]) == SextetBits(vs) + Bits(v, 6)
  {
    assert (vs + [v])[..|vs|] == vs;
  }

  /** One character enters the accumulator; the 16-bit mask keeps every live bit. */
  lemma ShiftIn(bits: nat, pending: nat, v: sextet)
    requires pending < 8
    ensures Bits((bits * 64 + v) % 65536, pending + 6) == Bits(bits, pending) + Bits(v, 6)
  {
    Powers();
    BitsMask(bits * 64 + v, pending + 6, 16);
    BitsAppend(bits, v, pending);
  }

  /** A whole byte leaves the accumulator. */
  lemma ShiftOut(bits: nat, rest: nat)
    ensures Bits(bits, 8 + rest) == Bits(Shr(bits, rest) % 256, 8) + Bits(bits, rest)
  {
    Powers();
    BitsSplit(bits, 8, rest);
    BitsMask(Shr(bits, rest), 8, 8);
  }

  /** What the accumulator holds after the sextets `seen`: whole bytes and fewer than 8 live bits. */
  ghost predicate Accumulated(seen: seq<sextet>, bytes: seq<byte>, bits: nat, pending: nat) {
    && bits < 65536 && pending < 8
    && ByteBits(bytes) + Bits(bits, pending) == SextetBits(seen)
  }

  method Accumulate(ghost seen: seq<sextet>, bytes: seq<byte>, bits: nat, pending: nat, v: sextet)
    returns (bytes': seq<byte>, bits': nat, pending': nat)
    requires Accumulated(seen, bytes, bits, pending)
    ensures Accumulated(seen + [v], bytes', bits', pending')
  {
    hide Bits, ByteBits, SextetBits, Shr;
    PushSextet(seen, v);
    ShiftIn(bits, pending, v);
    assert bits * 64 + v < 0x1_0000_0000;  // no bit is shifted out of 32
    bytes', bits', pending' := bytes, (bits * 64 + v) % 65536, pending + 6;
    assert ByteBits(bytes) + Bits(bits', pending') == ByteBits(bytes) + Bits(bits, pending) + Bits(v, 6);
    if pending' >= 8 {
      pending' := pending' - 8;
      ShiftOut(bits', pending');
      var b: byte := Shr(bits', pending') % 256;
      PushByte(bytes, b);
      bytes' := bytes + [b];
      assert ByteBits(bytes) + (Bits(b, 8) + Bits(bits', pending')) == ByteBits(bytes') + Bits(bits', pending');
    }
  }

  /** `seen` are the values of the first characters of `body`. */
  ghost predicate ValuesOf(body: seq<byte>, seen: seq<sextet>) {
    |seen| <= |body| && forall k | 0 <= k < |seen| :: Value(body[k]) == Some(seen[k])
  }

  lemma AllRead(body: seq<byte>, seen: seq<sextet>, bytes: seq<byte>, bits: nat, pending: nat)
    requires ValuesOf(body, seen) && |seen| == |body| && Accumulated(seen, bytes, bits, pending)
    ensures IsBase64(body) && Decodes(Values(body), bytes)
  {
    hide Value;
    assert IsBase64(body);
    assert seen == Values(body);
  }

  /** The loop over the characters; `None` for a character that is not base64. */
  method DecodeBytes(text: seq<byte>) returns (r: Option<seq<byte>>)
    ensures r.Some? <==> IsBase64(Body(text))
    ensures r.Some? ==> Decodes(Values(Body(text)), r.value)
  {
    var bytes: seq<byte> := [];
    var bits, pending := 0, 0;
    var i := 0;
    ghost var seen: seq<sextet> := [];
    BodyAt(text);
    assert Accumulated([], [], 0, 0);
    hide Accumulated, Decodes, Value, Body;
    while i < |text|
      invariant 0 <= i <= |Body(text)| && |seen| == i
      invariant ValuesOf(Body(text), seen)
      invariant Accumulated(seen, bytes, bits, pending)
    {
      if text[i] == PAD {
        break;
      }
      var value := Value(text[i]);
      if value.None? {
        assert text[i] == Body(text)[i] && text[i] in Body(text);
        return None;
      }
      bytes, bits, pending := Accumulate(seen, bytes, bits, pending, value.value);
      seen := seen + [value.value];
      i := i + 1;
    }
    AllRead(Body(text), seen, bytes, bits, pending);
    r := Some(bytes);
  }

  lemma {:induction false} BodyAt(text: seq<byte>)
    ensures |Body(text)| < |text| ==> text[|Body(text)|] == PAD
    ensures forall k | 0 <= k < |Body(text)| :: text[k] == Body(text)[k] && text[k] != PAD
  {
    if text != [] && text[0] != PAD {
      BodyAt(text[1..]);
    }
  }

  lemma {:induction false} BitsInjective(x: nat, y: nat, n: nat)
    requires x < Pow2(n) && y < Pow2(n) && Bits(x, n) == Bits(y, n)
    ensures x == y
  {
    if n > 0 {
      assert Bits(x, n)[..n - 1] == Bits(x / 2, n - 1) && Bits(y, n)[..n - 1] == Bits(y / 2, n - 1);
      assert Bits(x, n)[n - 1] == Bits(y, n)[n - 1];
      BitsInjective(x / 2, y / 2, n - 1);
    }
  }

  lemma {:induction false} ByteBitsInjective(a: seq<byte>, b: seq<byte>)
    requires |a| == |b| && ByteBits(a) == ByteBits(b)
    ensures a == b
  {
    if a != [] {
      var n := |a| - 1;
      assert ByteBits(a)[..8 * n] == ByteBits(a[..n]) && ByteBits(b)[..8 * n] == ByteBits(b[..n]);
      assert ByteBits(a)[8 * n..] == Bits(a[n], 8) && ByteBits(b)[8 * n..] == Bits(b[n], 8);
      Powers();
      BitsInjective(a[n], b[n], 8);
      ByteBitsInjective(a[..n], b[..n]);
      assert a == a[..n] + [a[n]] && b == b[..n] + [b[n]];
    }
  }

  /** A list of sextets stands for one byte sequence only. */
  lemma DecodingIsUnique(vs: seq<sextet>, a: seq<byte>, b: seq<byte>)
    requires Decodes(vs, a) && Decodes(vs, b)
    ensures a == b
  {
    assert |a| == |b|;
    assert ByteBits(a) == SextetBits(vs)[..8 * |a|] == ByteBits(b);
    ByteBitsInjective(a, b);
  }

  // --------------------------------------------------------------------- encoder

  /** One to three bytes as the top bits of a 24-bit number. */
  function Group(c: seq<byte>): nat
    requires 1 <= |c| <= 3
  {
    (c[0] as int) * 65536 + (if |c| > 1 then (c[1] as int) * 256 else 0) + (if |c| > 2 then c[2] as int else 0)
  }

  function GroupSextets(c: seq<byte>): (vs: seq<sextet>)
    requires 1 <= |c| <= 3
    ensures |vs| == |c| + 1 && forall i | 0 <= i <= |c| :: vs[i] == Shr(Group(c), 18 - 6 * i) % 64
  {
    seq(|c| + 1, i requires 0 <= i <= |c| => Shr(Group(c), 18 - 6 * i) % 64)
  }

  function Sextets(bs: seq<byte>): seq<sextet> {
    if bs == [] then [] else
    var n := Min(3, |bs|);
    GroupSextets(bs[..n]) + Sextets(bs[n..])
  }

  function Letters(vs: seq<sextet>): (text: seq<byte>)
    ensures |text| == |vs| && forall i | 0 <= i < |vs| :: text[i] == Letter(vs[i])
  {
    seq(|vs|, i requires 0 <= i < |vs| => Letter(vs[i]))
  }

  function Encode(bs: seq<byte>): seq<byte> {
    if bs == [] then [] else
    var n := Min(3, |bs|);
    Letters(GroupSextets(bs[..n])) + seq(3 - n, _ => PAD) + Encode(bs[n..])
  }

  lemma {:induction false} ByteBitsConcat(a: seq<byte>, b: seq<byte>)
    ensures ByteBits(a + b) == ByteBits(a) + ByteBits(b)
  {
    if b == [] {
      assert a + b == a;
    } else {
      var n := |b| - 1;
      ByteBitsConcat(a, b[..n]);
      assert (a + b)[..|a + b| - 1] == a + b[..n];
    }
  }

  lemma {:induction false} SextetBitsConcat(a: seq<sextet>, b: seq<sextet>)
    ensures SextetBits(a + b) == SextetBits(a) + SextetBits(b)
  {
    if b == [] {
      assert a + b == a;
    } else {
      var n := |b| - 1;
      SextetBitsConcat(a, b[..n]);
      assert (a + b)[..|a + b| - 1] == a + b[..n];
    }
  }

  /** The six bits above the low `k`. */
  lemma NextSextet(n: nat, k: nat, v: sextet)
    requires v == Shr(n, k) % 64
    ensures Bits(n, 6 + k) == Bits(v, 6) + Bits(n, k)
  {
    hide Bits, Shr;
    BitsSplit(n, 6, k);
    Powers();
    BitsMask(Shr(n, k), 6, 6);
  }

  lemma Regroup(all: seq<bool>, a: seq<bool>, rest: seq<bool>, b: seq<bool>, c: seq<bool>)
    requires all == a + rest && rest == b + c
    ensures all == a + b + c
  {
  }

  /** One more sextet of a 24-bit number is read. */
  lemma ReadSextet(n: nat, pre: seq<sextet>, v: sextet, k: nat)
    requires Bits(n, 24) == SextetBits(pre) + Bits(n, 6 + k) && v == Shr(n, k) % 64
    ensures Bits(n, 24) == SextetBits(pre + [v]) + Bits(n, k)
  {
    hide Bits, Shr, SextetBits;
    NextSextet(n, k, v);
    PushSextet(pre, v);
    Regroup(Bits(n, 24), SextetBits(pre), Bits(n, 6 + k), Bits(v, 6), Bits(n, k));
  }

  lemma ReadNothing(n: nat)
    ensures Bits(n, 24) == SextetBits([]) + Bits(n, 24)
  {
    hide Bits;
    assert [] + Bits(n, 24) == Bits(n, 24);
  }

  /** The leading sextets of a 24-bit number are its leading bits. */
  lemma GroupBits(n: nat, vs: seq<sextet>)
    requires 2 <= |vs| <= 4 && vs[0] == Shr(n, 18) % 64 && vs[1] == Shr(n, 12) % 64
    requires |vs| > 2 ==> vs[2] == Shr(n, 6) % 64
    requires |vs| > 3 ==> vs[3] == Shr(n, 0) % 64
    ensures Bits(n, 24) == SextetBits(vs) + Bits(n, 24 - 6 * |vs|)
  {
    hide Bits, Shr, SextetBits;
    ReadNothing(n);
    ReadSextet(n, [], vs[0], 18);
    ReadSextet(n, [] + [vs[0]], vs[1], 12);
    if |vs| == 2 {
      assert [] + [vs[0]] + [vs[1]] == vs;
    } else {
      ReadSextet(n, [] + [vs[0]] + [vs[1]], vs[2], 6);
      if |vs| == 3 {
        assert [] + [vs[0]] + [vs[1]] + [vs[2]] == vs;
      } else {
        ReadSextet(n, [] + [vs[0]] + [vs[1]] + [vs[2]], vs[3], 0);
        assert [] + [vs[0]] + [vs[1]] + [vs[2]] + [vs[3]] == vs;
      }
    }
  }

  lemma {:induction false} ShrIsDiv(x: nat, k: nat)
    ensures Shr(x, k) == x / Pow2(k)
    decreases k
  {
    if k > 0 {
      ShrIsDiv(x / 2, k - 1);
      DivDiv(x, Pow2(k - 1));
    }
  }

  lemma DivDiv(x: nat, p: nat)
    requires p > 0
    ensures x / 2 / p == x / (2 * p)
  {
    HalveRemainder(x, p);
    var q, r := x / (2 * p), x % (2 * p);
    assert x == 2 * (p * q) + r;
    assert x / 2 == p * q + r / 2 && r / 2 < p;
    QuotientIs(x / 2, p, q, r / 2);
  }

  lemma QuotientIs(x: nat, p: nat, q: nat, r: nat)
    requires 0 < p && r < p && x == p * q + r
    ensures x / p == q
  {
    var d, m := x / p, x % p;
    assert x == p * d + m && 0 <= m < p;
    assert p * (q - d) == p * q - p * d == m - r;
    MultipleInRange(p, q - d);
  }

  /** A 24-bit number is its three bytes. */
  lemma ThreeBytes(n: nat, b0: byte, b1: byte, b2: byte)
    requires n == (b0 as int) * 65536 + (b1 as int) * 256 + b2 as int
    ensures Bits(n, 24) == Bits(b0, 8) + Bits(b1, 8) + Bits(b2, 8)
  {
    hide Bits, Shr, Pow2;
    Powers();
    assert n / 65536 == b0 && n % 256 == b2 && (n / 256) % 256 == b1;
    BitsSplit(n, 8, 16);
    BitsSplit(n, 8, 8);
    ShrIsDiv(n, 16);
    ShrIsDiv(n, 8);
    BitsMask(n, 8, 8);
    BitsMask(n / 256, 8, 8);
    assert Bits(b0, 8) + (Bits(b1, 8) + Bits(b2, 8)) == Bits(b0, 8) + Bits(b1, 8) + Bits(b2, 8);
  }

  lemma OneByteBits(b: byte)
    ensures ByteBits([b]) == Bits(b, 8)
  {
    hide Bits;
    assert [b][..0] == [] && [] + Bits(b, 8) == Bits(b, 8);
  }

  lemma ThreeByteBits(b0: byte, b1: byte, b2: byte)
    ensures ByteBits([b0, b1, b2]) == Bits(b0, 8) + Bits(b1, 8) + Bits(b2, 8)
  {
    hide Bits, ByteBits;
    OneByteBits(b0);
    PushByte([b0], b1);
    PushByte([b0] + [b1], b2);
    assert [b0] + [b1] + [b2] == [b0, b1, b2];
  }

  lemma PrefixOfBoth(a: seq<bool>, x: seq<bool>, b: seq<bool>, y: seq<bool>)
    requires a + x == b + y && |a| <= |b|
    ensures a <= b && (|a| == |b| ==> a == b)
  {
    assert a == (a + x)[..|a|] == (b + y)[..|a|] == b[..|a|];
  }

  /** The bits of a group are its bytes and some zeros. */
  lemma GroupByteBits(c: seq<byte>) returns (rest: seq<bool>)
    requires 1 <= |c| <= 3
    ensures Bits(Group(c), 24) == ByteBits(c) + rest
  {
    var b1: byte := if |c| > 1 then c[1] else 0;
    var b2: byte := if |c| > 2 then c[2] else 0;
    ThreeBytes(Group(c), c[0], b1, b2);
    ThreeByteBits(c[0], b1, b2);
    var all: seq<byte> := [c[0], b1, b2];
    ByteBitsConcat(c, all[|c|..]);
    hide Bits, ByteBits;
    assert c + all[|c|..] == all;
    rest := ByteBits(all[|c|..]);
  }

  lemma GroupDecodes(c: seq<byte>)
    requires 1 <= |c| <= 3
    ensures ByteBits(c) <= SextetBits(GroupSextets(c))
    ensures |c| == 3 ==> ByteBits(c) == SextetBits(GroupSextets(c))
  {
    hide Bits, Shr, ByteBits, SextetBits, Group, GroupSextets;
    var n, vs := Group(c), GroupSextets(c);
    var rest := GroupByteBits(c);
    assert vs[0] == Shr(n, 18 - 6 * 0) % 64 && vs[1] == Shr(n, 18 - 6 * 1) % 64;
    assert |vs| > 2 ==> vs[2] == Shr(n, 18 - 6 * 2) % 64;
    assert |vs| > 3 ==> vs[3] == Shr(n, 18 - 6 * 3) % 64;
    GroupBits(n, vs);
    PrefixOfBoth(ByteBits(c), rest, SextetBits(vs), Bits(n, 24 - 6 * |vs|));
  }

  lemma {:induction false} EncodingDecodes(bs: seq<byte>)
    ensures Decodes(Sextets(bs), bs)
  {
    if bs != [] {
      var n := Min(3, |bs|);
      var c, rest := bs[..n], bs[n..];
      GroupDecodes(c);
      EncodingDecodes(rest);
      SextetBitsConcat(GroupSextets(c), Sextets(rest));
      ByteBitsConcat(c, rest);
      assert c + rest == bs;
      if |bs| < 3 {
        assert rest == [];
      }
    }
  }

  function Padding(n: nat): seq<byte> { seq((3 - n % 3) % 3, _ => PAD) }

  /** Padding comes only after all letters. */
  lemma {:induction false} EncodeShape(bs: seq<byte>)
    ensures Encode(bs) == Letters(Sextets(bs)) + Padding(|bs|)
  {
    hide GroupSextets;
    if bs != [] {
      var n := Min(3, |bs|);
      EncodeShape(bs[n..]);
      assert Letters(Sextets(bs)) == Letters(GroupSextets(bs[..n])) + Letters(Sextets(bs[n..]));
      if n < 3 {
        assert bs[n..] == [];
      } else {
        assert |bs[n..]| % 3 == |bs| % 3;
      }
    }
  }

  lemma {:induction false} BodyStops(letters: seq<byte>, pads: seq<byte>)
    requires PAD !in letters && forall i | 0 <= i < |pads| :: pads[i] == PAD
    ensures Body(letters + pads) == letters
  {
    if letters == [] {
      assert letters + pads == pads;
    } else {
      BodyStops(letters[1..], pads);
      assert (letters + pads)[1..] == letters[1..] + pads;
    }
  }

  lemma EncodedBody(bs: seq<byte>)
    ensures IsBase64(Body(Encode(bs))) && Values(Body(Encode(bs))) == Sextets(bs)
  {
    EncodeShape(bs);
    BodyStops(Letters(Sextets(bs)), Padding(|bs|));
  }

  /** `decode_utf16le_base64` up to its code units. What the encoder wrote for any units comes back. */
  method DecodeUnits(text: seq<byte>) returns (r: Option<seq<unit>>)
    ensures r.Some? <==> IsBase64(Body(text))
    ensures r.Some? ==> exists bytes :: Decodes(Values(Body(text)), bytes) && r.value == LeUnits(bytes)
    ensures forall us :: text == Encode(LeBytes(us)) ==> r == Some(us)
  {
    var bytes := DecodeBytes(text);
    if bytes.None? {
      r := None;
    } else {
      r := Some(LeUnits(bytes.value));
    }
    forall us | text == Encode(LeBytes(us))
      ensures r == Some(us)
    {
      EncodedBody(LeBytes(us));
      EncodingDecodes(LeBytes(us));
      DecodingIsUnique(Sextets(LeBytes(us)), bytes.value, LeBytes(us));
      UnitsRoundTrip(us);
    }
  }
}
