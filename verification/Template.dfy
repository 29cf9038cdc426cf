/**
 Summary templates (crates/core/src/rule.rs): the validator that runs when a rule is
 registered and the renderer that runs on every match.

 `Parse` is the reference reading of a template: it steps byte by byte and lists the pieces,
 literal bytes and holes, up to the first `${` that is never closed. The validator steps by
 bytes and the renderer by characters; both are proved to follow it.
 */
module Template {
  import opened Common
  import opened Utf8

  const DOLLAR: byte := 0x24
  const OPEN: byte := 0x7B
  const CLOSE: byte := 0x7D

  type Text = seq<byte>

  /** `line`, `match` and `0`, the keys that stand for the whole matched text. */
  const RESERVED: seq<Text> := [[0x6C, 0x69, 0x6E, 0x65], [0x6D, 0x61, 0x74, 0x63, 0x68], [0x30]]

  datatype Piece = Lit(b: byte) | Hole(name: Text)

  /** `broken` is the offset of a `${` without a `}`. */
  datatype Parsed = Parsed(pieces: seq<Piece>, broken: Option<nat>)

  predicate OpensAt(t: Text, i: nat) { i + 1 < |t| && t[i] == DOLLAR && t[i + 1] == OPEN }

  /** First `}` at or after `i`. */
  function FindClose(t: Text, i: nat): (r: Option<nat>)
    ensures r.Some? ==> i <= r.value < |t| && t[r.value] == CLOSE && CLOSE !in t[i..r.value]
    ensures r.None? && i <= |t| ==> CLOSE !in t[i..]
    decreases |t| - i
  {
    if i >= |t| then None
    else if t[i] == CLOSE then Some(i)
    else
      var r := FindClose(t, i + 1);
      assert t[i..] == [t[i]] + t[i + 1..];
      assert r.Some? ==> t[i..r.value] == [t[i]] + t[i + 1..r.value];
      r
  }

  function Cons(p: Piece, rest: Parsed): Parsed { rest.(pieces := [p] + rest.pieces) }

  function Parse(t: Text, i: nat): Parsed
    decreases |t| - i
  {
    if i >= |t| then Parsed([], None)
    else if OpensAt(t, i) then
      match FindClose(t, i + 2)
      case None => Parsed([], Some(i))
      case Some(e) => Cons(Hole(t[i + 2..e]), Parse(t, e + 1))
    else Cons(Lit(t[i]), Parse(t, i + 1))
  }

  /** The text a list of pieces was read from. */
  function Unparse(ps: seq<Piece>): Text {
    if ps == [] then []
    else (match ps[0] case Lit(b) => [b] case Hole(n) => [DOLLAR, OPEN] + n + [CLOSE]) + Unparse(ps[1..])
  }

  /** No piece read from `i` on is a literal where a hole opens. */
  predicate NoHoleRead(t: Text, i: nat, ps: seq<Piece>)
    decreases |ps|
  {
    ps != [] ==> (ps[0].Lit? ==> !OpensAt(t, i)) && NoHoleRead(t, i + |Unparse([ps[0]])|, ps[1..])
  }

  /**
   Pieces read from `t[i..]`: nothing is lost, no hole runs past its first `}`, none is read as
   literals, and what is left unread is a hole that never closes.
   */
  ghost predicate CutsUp(t: Text, i: nat, p: Parsed)
    requires i <= |t|
  {
    && (p.broken.Some? ==> i <= p.broken.value < |t| && OpensAt(t, p.broken.value) && CLOSE !in t[p.broken.value..])
    && Unparse(p.pieces) == t[i..if p.broken.Some? then p.broken.value else |t|]
    && (forall k | 0 <= k < |p.pieces| && p.pieces[k].Hole? :: CLOSE !in p.pieces[k].name)
    && NoHoleRead(t, i, p.pieces)
  }

  lemma CutsUpStep(t: Text, i: nat, j: nat, piece: Piece, rest: Parsed)
    requires i <= j <= |t| && CutsUp(t, j, rest) && t[i..j] == Unparse([piece])
    requires if piece.Hole? then CLOSE !in piece.name else !OpensAt(t, i)
    ensures CutsUp(t, i, Cons(piece, rest))
  {
    var stop := if rest.broken.Some? then rest.broken.value else |t|;
    assert t[i..stop] == t[i..j] + t[j..stop];
    assert ([piece] + rest.pieces)[1..] == rest.pieces && [piece][1..] == [];
    assert Unparse([piece] + rest.pieces) == Unparse([piece]) + Unparse(rest.pieces);
  }

  lemma UnparseLit(t: Text, i: nat)
    requires i < |t|
    ensures t[i..i + 1] == Unparse([Lit(t[i])])
  {
    assert [Lit(t[i])][1..] == [] && t[i..i + 1] == [t[i]];
  }

  lemma UnparseHole(t: Text, i: nat, e: nat)
    requires OpensAt(t, i) && i + 2 <= e < |t| && t[e] == CLOSE
    ensures t[i..e + 1] == Unparse([Hole(t[i + 2..e])])
  {
    assert [Hole(t[i + 2..e])][1..] == [];
    assert t[i..e + 1] == [DOLLAR, OPEN] + t[i + 2..e] + [CLOSE];
  }

  lemma NothingLeft(t: Text)
    ensures CutsUp(t, |t|, Parsed([], None))
  {
  }

  lemma NeverClosed(t: Text, i: nat)
    requires OpensAt(t, i) && FindClose(t, i + 2).None?
    ensures CutsUp(t, i, Parsed([], Some(i)))
  {
    assert t[i..] == [DOLLAR, OPEN] + t[i + 2..];
  }

  /** The pieces are a reading of the text: put back together they are the text. */
  lemma {:induction false} ParseReconstructs(t: Text, i: nat)
    requires i <= |t|
    ensures CutsUp(t, i, Parse(t, i))
    decreases |t| - i
  {
    hide CutsUp, Unparse, FindClose;
    if i == |t| {
      NothingLeft(t);
    } else if OpensAt(t, i) {
      var close := FindClose(t, i + 2);
      if close.Some? {
        ParseReconstructs(t, close.value + 1);
        UnparseHole(t, i, close.value);
        CutsUpStep(t, i, close.value + 1, Hole(t[i + 2..close.value]), Parse(t, close.value + 1));
      } else {
        NeverClosed(t, i);
      }
    } else {
      ParseReconstructs(t, i + 1);
      UnparseLit(t, i);
      CutsUpStep(t, i, i + 1, Lit(t[i]), Parse(t, i + 1));
    }
  }

  lemma UnparseHead(ps: seq<Piece>)
    requires ps != []
    ensures Unparse(ps) == Unparse([ps[0]]) + Unparse(ps[1..]) && Unparse([ps[0]]) != []
  {
    assert [ps[0]][1..] == [];
  }

  lemma {:induction false} FindCloseIs(t: Text, i: nat, e: nat)
    requires i <= e < |t| && t[e] == CLOSE && CLOSE !in t[i..e]
    ensures FindClose(t, i) == Some(e)
    decreases e - i
  {
    if i < e {
      assert t[i] == t[i..e][0] && t[i + 1..e] == t[i..e][1..];
      FindCloseIs(t, i + 1, e);
    }
  }

  lemma {:induction false} FindNoClose(t: Text, i: nat)
    requires i <= |t| && CLOSE !in t[i..]
    ensures FindClose(t, i).None?
    decreases |t| - i
  {
    if i < |t| {
      assert t[i] == t[i..][0] && t[i + 1..] == t[i..][1..];
      FindNoClose(t, i + 1);
    }
  }

  /** The first piece of any reading is the one `Parse` reads. */
  lemma FirstPiece(t: Text, i: nat, p: Parsed)
    requires i <= |t| && CutsUp(t, i, p) && p.pieces != []
    ensures var j := i + |Unparse([p.pieces[0]])|;
      && i < j <= |t| && CutsUp(t, j, Parsed(p.pieces[1..], p.broken))
      && Parse(t, i) == Cons(p.pieces[0], Parse(t, j))
  {
    var q, stop := p.pieces[0], if p.broken.Some? then p.broken.value else |t|;
    UnparseHead(p.pieces);
    var j := i + |Unparse([q])|;
    hide Unparse, Parse, OpensAt;
    TwoParts(t, i, stop, Unparse([q]), Unparse(p.pieces[1..]));
    PieceAt(t, i, j, q);
    assert forall k | 0 <= k < |p.pieces| - 1 :: p.pieces[1..][k] == p.pieces[k + 1];
  }

  lemma Sub(t: Text, i: nat, j: nat, a: nat, b: nat)
    requires i <= j <= |t| && a <= b <= j - i
    ensures t[i..j][a..b] == t[i + a..i + b]
  {
    var x, y := t[i..j][a..b], t[i + a..i + b];
    assert |x| == |y| && forall k | 0 <= k < |x| :: x[k] == t[i + a + k] == y[k];
  }

  /** A text that ends in two parts ends in each where the other leaves off. */
  lemma TwoParts(t: Text, i: nat, stop: nat, a: Text, b: Text)
    requires i <= stop <= |t| && t[i..stop] == a + b
    ensures i + |a| <= stop && t[i..i + |a|] == a && t[i + |a|..stop] == b
  {
    assert |t[i..stop]| == |a| + |b|;
    Sub(t, i, stop, 0, |a|);
    Sub(t, i, stop, |a|, |a| + |b|);
    assert (a + b)[0..|a|] == a && (a + b)[|a|..|a| + |b|] == b;
  }

  lemma HoleName(t: Text, i: nat, j: nat, name: Text)
    requires i <= j <= |t| && t[i..j] == [DOLLAR, OPEN] + name + [CLOSE]
    ensures i + 3 <= j && t[i + 2..j - 1] == name
  {
    assert |t[i..j]| == |name| + 3;
    Sub(t, i, j, 2, |name| + 2);
    assert ([DOLLAR, OPEN] + name + [CLOSE])[2..|name| + 2] == name;
  }

  lemma PieceAt(t: Text, i: nat, j: nat, q: Piece)
    requires i <= j <= |t| && t[i..j] == Unparse([q])
    requires if q.Hole? then CLOSE !in q.name else !OpensAt(t, i)
    ensures i < j && Parse(t, i) == Cons(q, Parse(t, j))
  {
    assert [q][1..] == [];
    match q
    case Lit(b) => assert t[i..j] == [b] && t[i] == t[i..j][0];
    case Hole(name) =>
      assert t[i..j] == [DOLLAR, OPEN] + name + [CLOSE];
      var e := j - 1;
      assert t[i] == t[i..j][0] && t[i + 1] == t[i..j][1] && t[e] == t[i..j][e - i];
      HoleName(t, i, j, name);
      FindCloseIs(t, i + 2, e);
  }

  lemma NothingReadable(t: Text, i: nat, p: Parsed)
    requires i <= |t| && CutsUp(t, i, p) && p.pieces == []
    ensures Parse(t, i) == p
  {
    if p.broken.Some? {
      assert |t[i..p.broken.value]| == 0;
      assert t[i + 2..] == t[i..][2..];
      FindNoClose(t, i + 2);
    } else {
      assert |t[i..]| == 0;
    }
  }

  /** There is only one reading of a template: whatever cuts it up reads what `Parse` reads. */
  lemma {:induction false} OneReading(t: Text, i: nat, p: Parsed)
    requires i <= |t| && CutsUp(t, i, p)
    ensures p == Parse(t, i)
    decreases |p.pieces|
  {
    hide CutsUp, Parse, Unparse;
    if p.pieces == [] {
      NothingReadable(t, i, p);
    } else {
      FirstPiece(t, i, p);
      OneReading(t, i + |Unparse([p.pieces[0]])|, Parsed(p.pieces[1..], p.broken));
      assert [p.pieces[0]] + p.pieces[1..] == p.pieces;
    }
  }

  // ------------------------------------------------------------------ validator

  datatype Verdict = Accepted | UnknownCapture(name: Text) | UnbalancedTemplate(offset: nat)

  predicate Known(name: Text, captures: seq<Text>) { name in RESERVED || name in captures }

  /** The first thing wrong with a template, in reading order. */
  function Judge(p: Parsed, captures: seq<Text>): Verdict
    decreases |p.pieces|
  {
    if p.pieces == [] then
      if p.broken.Some? then UnbalancedTemplate(p.broken.value) else Accepted
    else if p.pieces[0].Hole? && !Known(p.pieces[0].name, captures) then UnknownCapture(p.pieces[0].name)
    else Judge(Parsed(p.pieces[1..], p.broken), captures)
  }

  /** In valid text an ASCII byte is a character of its own. */
  lemma {:induction false} AsciiIsAlone(t: Text, k: nat)
    requires Valid(t) && k < |t| && t[k] < 0x80
    ensures Boundary(t, k) && Boundary(t, k + 1)
  {
    var w := Width(t[0]);
    if k < w {
      assert k == 0 && (w < |t| ==> StartsWithChar(t[w..]));
    } else {
      AsciiIsAlone(t[w..], k - w);
      assert k + 1 < |t| ==> t[w..][k + 1 - w] == t[k + 1];
    }
  }

  lemma ParseEnd(t: Text)
    ensures Parse(t, |t|) == Parsed([], None)
  {
  }

  /** One step of reading: what is judged at `i` is decided here or left to the rest. */
  lemma JudgeStep(t: Text, i: nat, captures: seq<Text>)
    requires i < |t|
    ensures !OpensAt(t, i) ==> Judge(Parse(t, i), captures) == Judge(Parse(t, i + 1), captures)
    ensures OpensAt(t, i) ==>
              match FindClose(t, i + 2)
              case None => Judge(Parse(t, i), captures) == UnbalancedTemplate(i)
              case Some(e) =>
                Judge(Parse(t, i), captures) ==
                if Known(t[i + 2..e], captures) then Judge(Parse(t, e + 1), captures) else UnknownCapture(t[i + 2..e])
  {
    if !OpensAt(t, i) {
      assert Parse(t, i).pieces[1..] == Parse(t, i + 1).pieces;
    } else if FindClose(t, i + 2).Some? {
      assert Parse(t, i).pieces[1..] == Parse(t, FindClose(t, i + 2).value + 1).pieces;
    }
  }

  method Validate(template: Text, captures: seq<Text>) returns (r: Verdict)
    requires Valid(template)
    ensures r == Judge(Parse(template, 0), captures)
  {
    ParseEnd(template);
    hide Parse, FindClose, Valid;
    var i := 0;
    while i < |template|
      invariant 0 <= i <= |template|
      invariant Judge(Parse(template, i), captures) == Judge(Parse(template, 0), captures)
      decreases |template| - i
    {
      JudgeStep(template, i, captures);
      if i + 1 < |template| && template[i] == DOLLAR && template[i + 1] == OPEN {
        var start := i + 2;
        AsciiIsAlone(template, i + 1);
        assert Boundary(template, start);  // `template[start..]` is a legal slice
        var close := FindClose(template, start);
        if close.None? {
          return UnbalancedTemplate(i);
        }
        AsciiIsAlone(template, close.value);
        assert Boundary(template, close.value);  // and so is the name
        var name := template[start..close.value];
        if !(name in RESERVED) && !(name in captures) {
          return UnknownCapture(name);
        }
        i := close.value + 1;
        continue;
      }
      i := i + 1;
    }
    r := Accepted;
  }

  // ------------------------------------------------------------------- renderer

  datatype Rendering = Rendered(text: Text) | MissingCapture(name: Text) | Unbalanced(offset: nat)

  /** Each literal byte once, each hole replaced once; values are copied, never read again. */
  function Fill(ps: seq<Piece>, values: map<Text, Text>): Text {
    if ps == [] then []
    else (match ps[0] case Lit(b) => [b] case Hole(n) => if n in values then values[n] else []) + Fill(ps[1..], values)
  }

  predicate HolesDefined(ps: seq<Piece>, values: map<Text, Text>) {
    forall k | 0 <= k < |ps| && ps[k].Hole? :: ps[k].name in values
  }

  /** What rendering the pieces gives after `done` has been written. */
  function Expected(p: Parsed, values: map<Text, Text>, done: Text): Rendering
    decreases |p.pieces|
  {
    if p.pieces == [] then
      if p.broken.Some? then Unbalanced(p.broken.value) else Rendered(done)
    else
      var rest := Parsed(p.pieces[1..], p.broken);
      match p.pieces[0]
      case Lit(b) => Expected(rest, values, done + [b])
      case Hole(n) => if n in values then Expected(rest, values, done + values[n]) else MissingCapture(n)
  }

  /** Passing a whole character at once reads the same pieces as passing its bytes. */
  lemma {:induction false} SkipCharacter(t: Text, i: nat, n: nat, values: map<Text, Text>, done: Text)
    requires i + n <= |t| && forall k | i <= k < i + n :: !OpensAt(t, k)
    ensures Expected(Parse(t, i), values, done) == Expected(Parse(t, i + n), values, done + t[i..i + n])
    decreases n
  {
    if n == 0 {
      assert done + t[i..i] == done;
    } else {
      assert Parse(t, i).pieces[1..] == Parse(t, i + 1).pieces;
      SkipCharacter(t, i + 1, n - 1, values, done + [t[i]]);
      assert done + [t[i]] + t[i + 1..i + n] == done + t[i..i + n];
    }
  }

  lemma NextBoundary(t: Text, i: nat)
    requires i < |t| && Valid(t[i..])
    ensures 0 < Width(t[i]) && i + Width(t[i]) <= |t| && Boundary(t, i + Width(t[i]))
  {
    hide StartsWithChar, Width;
    CharHead(t[i..]);
    var w := Width(t[i..][0]);
    if i + w < |t| {
      CharHead(t[i..][w..]);
      assert t[i..][w..][0] == t[i + w];
    }
  }

  lemma SliceIsValid(t: Text, i: nat, j: nat)
    requires Valid(t) && i <= j <= |t| && Boundary(t, i) && Boundary(t, j)
    ensures Valid(t[i..j])
  {
    hide Valid;
    BoundarySplits(t, i);
    BoundarySplits(t[i..], j - i);
    assert t[i..][..j - i] == t[i..j];
  }

  lemma NoHoleInside(t: Text, i: nat, k: nat)
    requires i < |t| && StartsWithChar(t[i..]) && i < k < i + Width(t[i])
    ensures !OpensAt(t, k)
  {
    assert t[k] == t[i..][k - i];
  }

  /** The character at a boundary: where it ends, that it is text, and that no hole opens inside it. */
  lemma CharacterAt(t: Text, i: nat)
    requires Valid(t) && i < |t| && Boundary(t, i)
    ensures 0 < Width(t[i]) && i + Width(t[i]) <= |t| && Boundary(t, i + Width(t[i]))
    ensures Valid(t[i..i + Width(t[i])])
    ensures forall k | i < k < i + Width(t[i]) :: !OpensAt(t, k)
  {
    hide Width, StartsWithChar, Boundary, OpensAt;
    BoundarySplits(t, i);
    NextBoundary(t, i);
    SliceIsValid(t, i, i + Width(t[i]));
    forall k | i < k < i + Width(t[i])
      ensures !OpensAt(t, k)
    {
      NoHoleInside(t, i, k);
    }
  }

  lemma ExpectedAtHole(t: Text, i: nat, values: map<Text, Text>, done: Text)
    requires OpensAt(t, i)
    ensures match FindClose(t, i + 2)
            case None => Expected(Parse(t, i), values, done) == Unbalanced(i)
            case Some(e) =>
              var name := t[i + 2..e];
              Expected(Parse(t, i), values, done) ==
              if name in values then Expected(Parse(t, e + 1), values, done + values[name]) else MissingCapture(name)
  {
    if FindClose(t, i + 2).Some? {
      assert Parse(t, i).pieces[1..] == Parse(t, FindClose(t, i + 2).value + 1).pieces;
    }
  }


  /** Where the renderer stands: `out` is what it has written for the template up to `i`. */
  ghost predicate Standing(t: Text, values: map<Text, Text>, i: nat, out: Text) {
    && i <= |t| && Boundary(t, i) && Utf8.Valid(out)
    && Expected(Parse(t, i), values, out) == Expected(Parse(t, 0), values, [])
  }

  lemma StandingAtEnds(t: Text, values: map<Text, Text>, out: Text)
    ensures Standing(t, values, 0, [])
    ensures Standing(t, values, |t|, out) ==>
              Expected(Parse(t, 0), values, []) == Rendered(out) && Utf8.Valid(out)
  {
    assert Utf8.Valid([]);
    assert Expected(Parse(t, |t|), values, out) == Rendered(out);
  }

  lemma CopyCharacter(t: Text, values: map<Text, Text>, i: nat, out: Text)
    requires Valid(t) && Standing(t, values, i, out) && i < |t| && !OpensAt(t, i)
    ensures 0 < Width(t[i]) && i + Width(t[i]) <= |t|
    ensures Standing(t, values, i + Width(t[i]), out + t[i..i + Width(t[i])])
  {
    hide Parse, Valid, Expected, Width, Boundary, OpensAt;
    CharacterAt(t, i);
    var w := Width(t[i]);
    SkipCharacter(t, i, w, values, out);
    ValidConcat(out, t[i..i + w]);
  }

  lemma StandsFor(t: Text, values: map<Text, Text>, i: nat, out: Text)
    requires Standing(t, values, i, out)
    ensures Expected(Parse(t, i), values, out) == Expected(Parse(t, 0), values, [])
  {
  }

  lemma HoleBounds(t: Text, i: nat, close: Option<nat>)
    requires Valid(t) && OpensAt(t, i) && close == FindClose(t, i + 2)
    ensures Boundary(t, i + 2)
    ensures close.Some? ==> i + 2 <= close.value < |t| && Boundary(t, close.value) && Boundary(t, close.value + 1)
  {
    hide FindClose, Valid, Boundary;
    AsciiIsAlone(t, i + 1);
    if close.Some? {
      AsciiIsAlone(t, close.value);
    }
  }

  lemma FillHole(t: Text, values: map<Text, Text>, i: nat, out: Text, close: Option<nat>)
    requires Valid(t) && Standing(t, values, i, out) && OpensAt(t, i) && close == FindClose(t, i + 2)
    requires forall k | k in values :: Valid(values[k])
    ensures Boundary(t, i + 2)
    ensures close.None? ==> Expected(Parse(t, 0), values, []) == Unbalanced(i)
    ensures close.Some? ==> i + 2 <= close.value < |t| && Boundary(t, close.value)
    ensures close.Some? ==>
              var name := t[i + 2..close.value];
              if name in values then Standing(t, values, close.value + 1, out + values[name])
              else Expected(Parse(t, 0), values, []) == MissingCapture(name)
  {
    hide Parse, Valid, Expected, FindClose, Boundary, Standing, OpensAt;
    HoleBounds(t, i, close);
    StandsFor(t, values, i, out);
    ExpectedAtHole(t, i, values, out);
    if close.Some? && t[i + 2..close.value] in values {
      HoleFilled(t, values, i, out, close.value);
    }
  }

  lemma HoleFilled(t: Text, values: map<Text, Text>, i: nat, out: Text, e: nat)
    requires Standing(t, values, i, out) && i + 2 <= e < |t| && Boundary(t, e + 1)
    requires t[i + 2..e] in values && Valid(values[t[i + 2..e]])
    requires Expected(Parse(t, i), values, out) == Expected(Parse(t, e + 1), values, out + values[t[i + 2..e]])
    ensures Standing(t, values, e + 1, out + values[t[i + 2..e]])
  {
    hide Parse, Valid, Expected, Boundary;
    ValidConcat(out, values[t[i + 2..e]]);
  }

  method Render(template: Text, values: map<Text, Text>) returns (r: Rendering)
    requires Valid(template) && forall k | k in values :: Valid(values[k])
    ensures r == Expected(Parse(template, 0), values, [])
    ensures r.Rendered? ==> Valid(r.text)
  {
    StandingAtEnds(template, values, []);
    hide Parse, FindClose, Valid, Expected, Width, Boundary, Standing;
    var out: Text := [];
    var i := 0;
    while i < |template|
      invariant 0 <= i <= |template| && Standing(template, values, i, out)
      decreases |template| - i
    {
      if i + 1 < |template| && template[i] == DOLLAR && template[i + 1] == OPEN {
        var start := i + 2;
        var close := FindClose(template, start);
        FillHole(template, values, i, out, close);
        if close.None? {
          return Unbalanced(i);
        }
        var name := template[start..close.value];
        if name !in values {
          return MissingCapture(name);
        }
        out := out + values[name];
        i := close.value + 1;
        continue;
      }
      CopyCharacter(template, values, i, out);
      var width := Width(template[i]);
      out := out + template[i..i + width];
      i := i + width;
    }
    StandingAtEnds(template, values, out);
    r := Rendered(out);
  }

  // ----------------------------------------------------------------- main result

  lemma {:induction false} ExpectedFills(p: Parsed, values: map<Text, Text>, done: Text)
    ensures Expected(p, values, done).Rendered? <==> p.broken.None? && HolesDefined(p.pieces, values)
    ensures Expected(p, values, done).Rendered? ==> Expected(p, values, done).text == done + Fill(p.pieces, values)
    decreases |p.pieces|
  {
    if p.pieces != [] {
      var rest := Parsed(p.pieces[1..], p.broken);
      var here := match p.pieces[0] case Lit(b) => [b] case Hole(n) => if n in values then values[n] else [];
      ExpectedFills(rest, values, done + here);
      assert done + here + Fill(rest.pieces, values) == done + Fill(p.pieces, values);
      assert HolesDefined(p.pieces, values) <==>
        HolesDefined(rest.pieces, values) && (p.pieces[0].Hole? ==> p.pieces[0].name in values) by {
        assert forall k | 0 < k < |p.pieces| :: p.pieces[k] == rest.pieces[k - 1];
      }
    } else {
      assert done + [] == done;
    }
  }

  /** The refusals name the first hole that is unknown, or the unclosed `${` when all holes are known. */
  lemma {:induction false} RefusedIff(p: Parsed, captures: seq<Text>)
    ensures Judge(p, captures).UnbalancedTemplate? <==>
            p.broken.Some? && forall k | 0 <= k < |p.pieces| && p.pieces[k].Hole? :: Known(p.pieces[k].name, captures)
    ensures Judge(p, captures).UnbalancedTemplate? ==> p.broken == Some(Judge(p, captures).offset)
    ensures Judge(p, captures).UnknownCapture? ==>
              exists k :: 0 <= k < |p.pieces| && p.pieces[k] == Hole(Judge(p, captures).name)
                          && !Known(p.pieces[k].name, captures)
                          && forall j | 0 <= j < k && p.pieces[j].Hole? :: Known(p.pieces[j].name, captures)
    decreases |p.pieces|
  {
    if p.pieces != [] {
      var rest := Parsed(p.pieces[1..], p.broken);
      RefusedIff(rest, captures);
      assert forall k | 0 < k < |p.pieces| :: p.pieces[k] == rest.pieces[k - 1];
      if Judge(p, captures).UnknownCapture? && !(p.pieces[0].Hole? && !Known(p.pieces[0].name, captures)) {
        var k :| 0 <= k < |rest.pieces| && rest.pieces[k] == Hole(Judge(p, captures).name)
                 && !Known(rest.pieces[k].name, captures)
                 && forall j | 0 <= j < k && rest.pieces[j].Hole? :: Known(rest.pieces[j].name, captures);
        assert p.pieces[k + 1] == rest.pieces[k];
      }
    }
  }

  lemma {:induction false} AcceptedIff(p: Parsed, captures: seq<Text>)
    ensures Judge(p, captures) == Accepted <==>
            p.broken.None? && forall k | 0 <= k < |p.pieces| && p.pieces[k].Hole? :: Known(p.pieces[k].name, captures)
    decreases |p.pieces|
  {
    if p.pieces != [] {
      AcceptedIff(Parsed(p.pieces[1..], p.broken), captures);
      assert forall k | 0 < k < |p.pieces| :: p.pieces[k] == p.pieces[1..][k - 1];
    }
  }

  /**
   An accepted template renders without error for every map that defines the declared captures
   and the reserved keys, and the output is the template with each hole replaced by its value.
   */
  lemma AcceptedTemplateRenders(t: Text, captures: seq<Text>, values: map<Text, Text>)
    requires Judge(Parse(t, 0), captures) == Accepted
    requires forall n | Known(n, captures) :: n in values
    ensures Expected(Parse(t, 0), values, []) == Rendered(Fill(Parse(t, 0).pieces, values))
    ensures Unparse(Parse(t, 0).pieces) == t
  {
    AcceptedIff(Parse(t, 0), captures);
    ExpectedFills(Parse(t, 0), values, []);
    ParseReconstructs(t, 0);
  }
}
