/**
 What lines mean to `split_line` (crates/core/src/os_guard.rs, 793-979), stated apart from its
 loop: a script is a list of words, redirections, separators, parentheses and comments, and it has
 a text for each grammar. Splitting the text gives back exactly the commands of the script, each
 at its level, and the bodies of its substitutions.
 */
module SplitScript {
  import opened Common
  import opened SplitLine

  // ------------------------------------------------------------------------ scripts

  /** A substitution body: parentheses outside quotes match, quotes are closed. */
  datatype Body = BEnd | BChar(c: char, rest: Body) | BText(q: char, text: string, rest: Body) | BGroup(inner: Body, rest: Body)

  /** Parts of a double-quoted text. `Kept`: a backslash that escapes nothing stays. */
  datatype Inner = Raw(text: string) | InParen(body: Body) | InTick(text: string) | Kept(c: char)

  /** Parts of a word. `Joint`: an escaped newline. */
  datatype Part =
    | Plain(text: string) | Single(text: string) | Double(inners: seq<Inner>) | Esc(c: char)
    | Paren(body: Body) | Tick(text: string) | Joint

  datatype Item =
    | Word(parts: seq<Part>)
    | Redir(fd: string, op: string, gap: string, target: seq<Part>)
    | Comment(text: string)
    | End(sep: string)
    | Open
    | Close

  /** An item with the blanks in front of it. */
  datatype Token = Token(gap: string, item: Item)

  // --------------------------------------------------------------------------- text

  function BodyText(b: Body): string {
    match b
    case BEnd => ""
    case BChar(c, rest) => [c] + BodyText(rest)
    case BText(q, text, rest) => [q] + (text + ([q] + BodyText(rest)))
    case BGroup(inner, rest) => "(" + (BodyText(inner) + (")" + BodyText(rest)))
  }

  /** Characters that need an escape between double quotes. */
  predicate NeedsEscape(g: Grammar, c: char) {
    match g
    case Posix => c == '$' || c == '`' || c == '\"' || c == '\\'
    case Pwsh => c == '$' || c == '`' || c == '\"'
    case Cmd => false
  }

  function RawText(g: Grammar, w: string): string {
    if w == "" then "" else (if NeedsEscape(g, w[0]) then [Escape(g), w[0]] else [w[0]]) + RawText(g, w[1..])
  }

  function TickText(w: string): string {
    if w == "" then "" else (if w[0] == '`' || w[0] == '\\' then ['\\', w[0]] else [w[0]]) + TickText(w[1..])
  }

  function InnerText(g: Grammar, n: Inner): string {
    match n
    case Raw(w) => RawText(g, w)
    case InParen(b) => "$(" + (BodyText(b) + ")")
    case InTick(w) => "`" + (TickText(w) + "`")
    case Kept(c) => ['\\', c]
  }

  function InnersText(g: Grammar, ns: seq<Inner>): string {
    if ns == [] then "" else InnerText(g, ns[0]) + InnersText(g, ns[1..])
  }

  function PartText(g: Grammar, p: Part): string {
    match p
    case Plain(w) => w
    case Single(w) => Quoted(g, w)
    case Double(ns) => "\"" + (InnersText(g, ns) + "\"")
    case Esc(c) => [Escape(g), c]
    case Paren(b) => "$(" + (BodyText(b) + ")")
    case Tick(w) => "`" + (TickText(w) + "`")
    case Joint => [Escape(g), '\n']
  }

  function PartsText(g: Grammar, ps: seq<Part>): string {
    if ps == [] then "" else PartText(g, ps[0]) + PartsText(g, ps[1..])
  }

  function ItemText(g: Grammar, i: Item): string {
    match i
    case Word(ps) => PartsText(g, ps)
    case Redir(fd, op, gap, ps) => fd + (op + (gap + PartsText(g, ps)))
    case Comment(w) => "#" + (w + "\n")
    case End(sep) => sep
    case Open => "("
    case Close => ")"
  }

  function ScriptText(g: Grammar, ts: seq<Token>): string {
    if ts == [] then "" else ts[0].gap + (ItemText(g, ts[0].item) + ScriptText(g, ts[1..]))
  }

  // ------------------------------------------------------------------------ meaning

  function InnerWord(n: Inner): string {
    match n case Raw(w) => w case InParen(_) => "$" case InTick(_) => "$" case Kept(c) => ['\\', c]
  }

  function InnerBodies(n: Inner): seq<string> {
    match n case InParen(b) => [BodyText(b)] case InTick(w) => [w] case _ => []
  }

  function InnersWord(ns: seq<Inner>): string {
    if ns == [] then "" else InnerWord(ns[0]) + InnersWord(ns[1..])
  }

  function InnersBodies(ns: seq<Inner>): seq<string> {
    if ns == [] then [] else InnerBodies(ns[0]) + InnersBodies(ns[1..])
  }

  function PartWord(p: Part): string {
    match p
    case Plain(w) => w
    case Single(w) => w
    case Double(ns) => InnersWord(ns)
    case Esc(c) => [c]
    case Paren(_) => "$"
    case Tick(_) => "$"
    case Joint => ""
  }

  function PartBodies(p: Part): seq<string> {
    match p case Double(ns) => InnersBodies(ns) case Paren(b) => [BodyText(b)] case Tick(w) => [w] case _ => []
  }

  function PartsWord(ps: seq<Part>): string {
    if ps == [] then "" else PartWord(ps[0]) + PartsWord(ps[1..])
  }

  function PartsBodies(ps: seq<Part>): seq<string> {
    if ps == [] then [] else PartBodies(ps[0]) + PartsBodies(ps[1..])
  }

  /** Commands so far, the words of the one being assembled, and the level. */
  datatype Meaning = Meaning(out: Split, current: seq<string>, level: nat)

  function Cut(m: Meaning): Meaning {
    if m.current == [] then m
    else m.(out := m.out.(commands := m.out.commands + [(m.level, m.current)]), current := [])
  }

  function WithBodies(m: Meaning, bodies: seq<string>): Meaning {
    m.(out := m.out.(nested := m.out.nested + bodies))
  }

  function Means(m: Meaning, i: Item): Meaning {
    match i
    case Word(ps) => WithBodies(m, PartsBodies(ps)).(current := m.current + [PartsWord(ps)])
    case Redir(_, _, _, ps) => WithBodies(m, PartsBodies(ps))
    case Comment(_) => Cut(m)
    case End(_) => Cut(m)
    case Open => Cut(m).(level := m.level + 1)
    case Close => Cut(m).(level := if m.level == 0 then 0 else m.level - 1)
  }

  function ScriptMeans(m: Meaning, ts: seq<Token>): Split
    decreases |ts|
  {
    if ts == [] then Cut(m).out else ScriptMeans(Means(m, ts[0].item), ts[1..])
  }

  const NOTHING: Meaning := Meaning(Split([], []), [], 0)

  // --------------------------------------------------------------- which scripts

  predicate GoodBody(b: Body) {
    match b
    case BEnd => true
    case BChar(c, rest) => c != '(' && c != ')' && c != '\'' && c != '\"' && GoodBody(rest)
    case BText(q, text, rest) => (q == '\'' || q == '\"') && q !in text && GoodBody(rest)
    case BGroup(inner, rest) => GoodBody(inner) && GoodBody(rest)
  }

  predicate GoodInner(g: Grammar, n: Inner) {
    match n
    case Raw(w) => g.Cmd? ==> '\"' !in w
    case InParen(b) => !g.Cmd? && GoodBody(b)
    case InTick(_) => g.Posix?
    case Kept(c) => g.Posix? && c !in "$`\"\\\n"
  }

  predicate IsBlank(c: char) { c == ' ' || c == '\t' || c == '\r' }

  /** Characters that end a word or open a quote, an escape or a substitution. */
  predicate PlainChar(g: Grammar, c: char) {
    && c != Escape(g) && c != '\"' && !IsBlank(c)
    && c !in "><;\n|&()"
    && (!g.Cmd? ==> c != '\'' && c != '#')
    && (g.Posix? ==> c != '`')
    && (g.Pwsh? ==> c != '{' && c != '}')
  }

  predicate GoodPart(g: Grammar, p: Part) {
    match p
    case Plain(w) => w != "" && forall k | 0 <= k < |w| :: PlainChar(g, w[k])
    case Single(_) => !g.Cmd?
    case Double(ns) => forall k | 0 <= k < |ns| :: GoodInner(g, ns[k])
    case Esc(c) => c != '\n'
    case Paren(b) => !g.Cmd? && GoodBody(b)
    case Tick(_) => g.Posix?
    case Joint => true
  }

  /** In PowerShell two single-quoted parts in a row would be one with a quote in it. */
  predicate GoodParts(g: Grammar, ps: seq<Part>) {
    && (forall k | 0 <= k < |ps| :: GoodPart(g, ps[k]))
    && (g.Pwsh? ==> forall k | 0 < k < |ps| :: !(ps[k - 1].Single? && ps[k].Single?))
  }

  predicate GoodWord(g: Grammar, ps: seq<Part>) { ps != [] && !ps[0].Joint? && GoodParts(g, ps) }

  predicate Blanks(w: string) { forall k | 0 <= k < |w| :: IsBlank(w[k]) }

  predicate GoodOp(g: Grammar, fd: string, op: string) {
    && (forall k | 0 <= k < |fd| :: '0' <= fd[k] <= '9' || fd[k] == '*')
    && op != "" && (forall k | 0 <= k < |op| :: IsRedirection(op[k]))
    && (op[0] == '>' || op[0] == '<' || (fd == "" && !g.Cmd? && |op| > 1 && op[0] == '&' && op[1] == '>'))
  }

  predicate Separator(sep: string) { sep in [";", "\n", "|", "||", "&", "&&"] }

  predicate GoodItem(g: Grammar, i: Item) {
    match i
    case Word(ps) => GoodWord(g, ps)
    case Redir(fd, op, gap, ps) => GoodOp(g, fd, op) && Blanks(gap) && GoodWord(g, ps)
    case Comment(w) => !g.Cmd? && '\n' !in w
    case End(sep) => Separator(sep) || (g.Pwsh? && sep in ["{", "}"])
    case Open => true
    case Close => true
  }

  /** What may follow an item without running into it. */
  predicate Follows(i: Item, t: string) {
    t == "" ||
    match i
    case Word(_) => t[0] != '(' && t[0] != '\''
    case Redir(_, _, _, _) => t[0] != '(' && t[0] != '\''
    case End(_) => t[0] !in "|&>"
    case _ => true
  }

  /** A word, a redirection or a comment needs a blank after a word or a redirection. */
  predicate GoodScript(g: Grammar, ts: seq<Token>, clean: bool) {
    ts != [] ==>
      var i := ts[0].item;
      && Blanks(ts[0].gap) && GoodItem(g, i) && Follows(i, ScriptText(g, ts[1..]))
      && (!clean && (i.Word? || i.Redir? || i.Comment?) ==> ts[0].gap != "")
      && GoodScript(g, ts[1..], !(i.Word? || i.Redir?))
  }

  // ---------------------------------------------------------------- captured bodies

  function Ahead(a: string, r: (string, string)): (string, string) { (a + r.0, r.1) }

  lemma AheadTwice(a: string, b: string, r: (string, string))
    ensures Ahead(a, Ahead(b, r)) == Ahead(a + b, r) && Ahead("", r) == r
  {
    assert a + (b + r.0) == a + b + r.0 && "" + r.0 == r.0;
  }

  lemma Joined(a: string, b: string, c: string)
    ensures a + (b + c) == a + b + c
  {
  }

  /** One character of a body. */
  lemma CaptureStep(c: char, t: string, depth: nat, quote: Option<char>)
    ensures quote.None? && c == '(' ==> CaptureParens([c] + t, depth, quote) == Ahead([c], CaptureParens(t, depth + 1, None))
    ensures quote.None? && c == ')' && depth > 0 ==>
              CaptureParens([c] + t, depth, quote) == Ahead([c], CaptureParens(t, depth - 1, None))
    ensures quote.None? && c == ')' && depth == 0 ==> CaptureParens([c] + t, depth, quote) == ("", t)
    ensures quote.None? && (c == '\'' || c == '\"') ==>
              CaptureParens([c] + t, depth, quote) == Ahead([c], CaptureParens(t, depth, Some(c)))
    ensures quote == Some(c) && c != '(' && c != ')' ==>
              CaptureParens([c] + t, depth, quote) == Ahead([c], CaptureParens(t, depth, None))
    ensures (quote.Some? && quote != Some(c)) || (quote.None? && c !in "()'\"") ==>
              CaptureParens([c] + t, depth, quote) == Ahead([c], CaptureParens(t, depth, quote))
  {
    assert ([c] + t)[1..] == t;
  }

  lemma {:induction false} TextCaptured(q: char, text: string, depth: nat, t: string)
    requires (q == '\'' || q == '\"') && q !in text
    ensures CaptureParens(text + ([q] + t), depth, Some(q)) == Ahead(text + [q], CaptureParens(t, depth, None))
  {
    hide CaptureParens, Ahead;
    if text == "" {
      assert text + ([q] + t) == [q] + t && text + [q] == [q];
      CaptureStep(q, t, depth, Some(q));
    } else {
      assert text + ([q] + t) == [text[0]] + (text[1..] + ([q] + t));
      CaptureStep(text[0], text[1..] + ([q] + t), depth, Some(q));
      TextCaptured(q, text[1..], depth, t);
      AheadTwice([text[0]], text[1..] + [q], CaptureParens(t, depth, None));
      assert [text[0]] + (text[1..] + [q]) == text + [q];
    }
  }

  /** Whatever the depth, a body is passed over whole. */
  lemma {:induction false} BodyCaptured(b: Body, depth: nat, t: string)
    requires GoodBody(b)
    ensures CaptureParens(BodyText(b) + t, depth, None) == Ahead(BodyText(b), CaptureParens(t, depth, None))
    decreases b
  {
    hide CaptureParens, Ahead;
    var r := CaptureParens(t, depth, None);
    match b
    case BEnd =>
      AheadTwice("", "", r);
      assert "" + t == t;
    case BChar(c, rest) =>
      BodyCaptured(rest, depth, t);
      Joined([c], BodyText(rest), t);
      CaptureStep(c, BodyText(rest) + t, depth, None);
      AheadTwice([c], BodyText(rest), r);
    case BText(q, text, rest) =>
      BodyCaptured(rest, depth, t);
      QuotedBodyCaptured(q, text, BodyText(rest), depth, t);
    case BGroup(inner, rest) =>
      BodyCaptured(rest, depth, t);
      BodyCaptured(inner, depth + 1, ")" + (BodyText(rest) + t));
      GroupCaptured(BodyText(inner), BodyText(rest), depth, t);
  }

  lemma QuotedBodyCaptured(q: char, text: string, rest: string, depth: nat, t: string)
    requires (q == '\'' || q == '\"') && q !in text
    requires CaptureParens(rest + t, depth, None) == Ahead(rest, CaptureParens(t, depth, None))
    ensures CaptureParens([q] + (text + ([q] + rest)) + t, depth, None)
            == Ahead([q] + (text + ([q] + rest)), CaptureParens(t, depth, None))
  {
    hide CaptureParens, Ahead;
    var r := CaptureParens(t, depth, None);
    assert [q] + (text + ([q] + rest)) + t == [q] + (text + ([q] + (rest + t)));
    CaptureStep(q, text + ([q] + (rest + t)), depth, None);
    TextCaptured(q, text, depth, rest + t);
    AheadTwice(text + [q], rest, r);
    AheadTwice([q], text + [q] + rest, r);
    Joined(text, [q], rest);
  }

  lemma GroupCaptured(inner: string, rest: string, depth: nat, t: string)
    requires CaptureParens(rest + t, depth, None) == Ahead(rest, CaptureParens(t, depth, None))
    requires var after := ")" + (rest + t);
      CaptureParens(inner + after, depth + 1, None) == Ahead(inner, CaptureParens(after, depth + 1, None))
    ensures CaptureParens("(" + (inner + (")" + rest)) + t, depth, None)
            == Ahead("(" + (inner + (")" + rest)), CaptureParens(t, depth, None))
  {
    hide CaptureParens, Ahead;
    var r := CaptureParens(t, depth, None);
    var after := ")" + (rest + t);
    assert "(" + (inner + (")" + rest)) + t == "(" + (inner + after);
    CaptureStep('(', inner + after, depth, None);
    CaptureStep(')', rest + t, depth + 1, None);
    AheadTwice(")", rest, r);
    AheadTwice(inner, ")" + rest, r);
    AheadTwice("(", inner + (")" + rest), r);
  }

  /** A substitution body with matching parentheses is captured exactly. */
  lemma ParensCaptured(b: Body, t: string)
    requires GoodBody(b)
    ensures CaptureParens(BodyText(b) + (")" + t), 0, None) == (BodyText(b), t)
  {
    hide CaptureParens;
    BodyCaptured(b, 0, ")" + t);
    CaptureStep(')', t, 0, None);
    assert BodyText(b) + "" == BodyText(b);
  }

  lemma TickStep(c: char, t: string)
    ensures c == '`' ==> CaptureBackticks([c] + t) == ("", t)
    ensures c == '\\' && t != "" ==> CaptureBackticks([c] + t) == Ahead([t[0]], CaptureBackticks(t[1..]))
    ensures c != '`' && c != '\\' ==> CaptureBackticks([c] + t) == Ahead([c], CaptureBackticks(t))
  {
    assert ([c] + t)[1..] == t && (t != "" ==> ([c] + t)[2..] == t[1..]);
  }

  lemma TwoChars(a: char, b: char, t: string)
    ensures [a, b] + t == [a] + ([b] + t) && ([b] + t)[1..] == t
  {
  }

  lemma {:induction false} TickCaptured(w: string, t: string)
    ensures CaptureBackticks(TickText(w) + ("`" + t)) == (w, t)
  {
    if w == "" {
      assert TickText(w) + ("`" + t) == "`" + t;
      TickStep('`', t);
    } else {
      var head := if w[0] == '`' || w[0] == '\\' then ['\\', w[0]] else [w[0]];
      var tail := TickText(w[1..]) + ("`" + t);
      assert TickText(w) == head + TickText(w[1..]);
      TickCaptured(w[1..], t);
      hide CaptureBackticks, TickText;
      Joined(head, TickText(w[1..]), "`" + t);
      assert [w[0]] + w[1..] == w;
      TwoChars('\\', w[0], tail);
      TickStep('\\', [w[0]] + tail);
      TickStep(w[0], tail);
    }
  }

  // --------------------------------------------------------------------------- parts

  lemma TwoTurn(g: Grammar, st: State, a: char, b: char, t: string, st': State)
    requires Turn(g, st, [a, b] + t) == (st', t)
    ensures Run(g, st, [a, b] + t) == Run(g, st', t)
  {
  }

  /** The word so far with `w` and substitution bodies added. */
  function Grown(st: State, w: string, bodies: seq<string>): State {
    st.(word := st.word + w, hasWord := true, out := st.out.(nested := st.out.nested + bodies))
  }

  lemma GrownTwice(st: State, a: string, x: seq<string>, b: string, y: seq<string>)
    ensures Grown(Grown(st, a, x), b, y) == Grown(st, a + b, x + y)
    ensures Grown(Grown(st, a, []), b, []) == Grown(st, a + b, [])
    ensures st.hasWord ==> Grown(st, "", []) == st
  {
    assert st.word + a + b == st.word + (a + b) && st.out.nested + x + y == st.out.nested + (x + y);
    assert st.word + "" == st.word && st.out.nested + [] == st.out.nested;
  }

  lemma PushIsGrown(st: State, c: char)
    ensures Pushed(st, c) == Grown(st, [c], [])
    ensures forall b :: Nested(st, b) == Grown(st, "$", [b])
  {
    assert st.out.nested + [] == st.out.nested;
  }

  // Between double quotes.

  lemma DoublePlain(g: Grammar, st: State, c: char, t: string)
    requires st.quote == Some('\"') && c != '\"' && !NeedsEscape(g, c)
    requires g.Pwsh? ==> c != '`'
    ensures Run(g, st, [c] + t) == Run(g, Grown(st, [c], []), t)
  {
    PushIsGrown(st, c);
    assert ([c] + t)[1..] == t;
    OneTurn(g, st, c, t, Pushed(st, c));
  }

  lemma DoubleEscaped(g: Grammar, st: State, c: char, t: string)
    requires st.quote == Some('\"') && NeedsEscape(g, c)
    ensures Run(g, st, [Escape(g), c] + t) == Run(g, Grown(st, [c], []), t)
  {
    PushIsGrown(st, c);
    assert ([Escape(g), c] + t)[2..] == t;
    TwoTurn(g, st, Escape(g), c, t, Pushed(st, c));
  }

  lemma {:induction false} RawRuns(g: Grammar, st: State, w: string, t: string)
    requires st.quote == Some('\"') && st.hasWord && (g.Cmd? ==> '\"' !in w)
    ensures Run(g, st, RawText(g, w) + t) == Run(g, Grown(st, w, []), t)
    decreases |w|
  {
    if w == "" {
      assert RawText(g, w) + t == t;
      GrownTwice(st, "", [], "", []);
    } else {
      var head := if NeedsEscape(g, w[0]) then [Escape(g), w[0]] else [w[0]];
      assert RawText(g, w) == head + RawText(g, w[1..]);
      var tail := RawText(g, w[1..]) + t;
      RawRuns(g, Grown(st, [w[0]], []), w[1..], t);
      hide Run, RawText;
      Joined(head, RawText(g, w[1..]), t);
      if NeedsEscape(g, w[0]) {
        DoubleEscaped(g, st, w[0], tail);
      } else {
        DoublePlain(g, st, w[0], tail);
      }
      GrownTwice(st, [w[0]], [], w[1..], []);
      assert [w[0]] + w[1..] == w;
    }
  }

  lemma DoubleParen(g: Grammar, st: State, b: Body, t: string)
    requires st.quote == Some('\"') && !g.Cmd? && GoodBody(b)
    ensures Run(g, st, "$(" + (BodyText(b) + ")") + t) == Run(g, Grown(st, "$", [BodyText(b)]), t)
  {
    hide CaptureParens, BodyText;
    PushIsGrown(st, '$');
    ParensCaptured(b, t);
    var s := "$(" + (BodyText(b) + ")") + t;
    assert s[2..] == BodyText(b) + (")" + t);
    assert Turn(g, st, s) == (Nested(st, BodyText(b)), t);
  }

  lemma DoubleTick(st: State, w: string, t: string)
    requires st.quote == Some('\"')
    ensures Run(Posix, st, "`" + (TickText(w) + "`") + t) == Run(Posix, Grown(st, "$", [w]), t)
  {
    hide CaptureBackticks, TickText;
    PushIsGrown(st, '$');
    TickCaptured(w, t);
    var s := "`" + (TickText(w) + "`") + t;
    assert s[1..] == TickText(w) + ("`" + t);
    assert Turn(Posix, st, s) == (Nested(st, w), t);
  }

  lemma DoubleKept(st: State, c: char, t: string)
    requires st.quote == Some('\"') && c !in "$`\"\\\n"
    ensures Run(Posix, st, ['\\', c] + t) == Run(Posix, Grown(st, ['\\', c], []), t)
  {
    var s := ['\\', c] + t;
    TwoChars('\\', c, t);
    PushIsGrown(st, '\\');
    assert s[1..] == [c] + t;
    OneTurn(Posix, st, '\\', [c] + t, Pushed(st, '\\'));
    hide Run;
    DoublePlain(Posix, Grown(st, "\\", []), c, t);
    GrownTwice(st, "\\", [], [c], []);
    assert "\\" + [c] == ['\\', c];
  }

  lemma InnerRuns(g: Grammar, st: State, n: Inner, t: string)
    requires st.quote == Some('\"') && st.hasWord && GoodInner(g, n)
    ensures Run(g, st, InnerText(g, n) + t) == Run(g, Grown(st, InnerWord(n), InnerBodies(n)), t)
  {
    hide Run, RawText, TickText, BodyText, GoodBody, Grown;
    match n
    case Raw(w) => RawRuns(g, st, w, t);
    case InParen(b) => DoubleParen(g, st, b, t);
    case InTick(w) => DoubleTick(st, w, t);
    case Kept(c) => DoubleKept(st, c, t);
  }

  lemma {:induction false} InnersRun(g: Grammar, st: State, ns: seq<Inner>, t: string)
    requires st.quote == Some('\"') && st.hasWord && forall k | 0 <= k < |ns| :: GoodInner(g, ns[k])
    ensures Run(g, st, InnersText(g, ns) + t) == Run(g, Grown(st, InnersWord(ns), InnersBodies(ns)), t)
    decreases |ns|
  {
    hide Run, InnerText, InnerWord, InnerBodies, GoodInner;
    if ns == [] {
      assert InnersText(g, ns) + t == t;
      GrownTwice(st, "", [], "", []);
    } else {
      Joined(InnerText(g, ns[0]), InnersText(g, ns[1..]), t);
      InnerRuns(g, st, ns[0], InnersText(g, ns[1..]) + t);
      InnersRun(g, Grown(st, InnerWord(ns[0]), InnerBodies(ns[0])), ns[1..], t);
      GrownTwice(st, InnerWord(ns[0]), InnerBodies(ns[0]), InnersWord(ns[1..]), InnersBodies(ns[1..]));
    }
  }

  // Between single quotes.

  function InSingle(st: State): State { st.(quote := Some('\'')) }

  lemma SinglePlain(g: Grammar, st: State, c: char, t: string)
    requires c != '\''
    ensures Run(g, InSingle(st), [c] + t) == Run(g, InSingle(Grown(st, [c], [])), t)
  {
    PushIsGrown(InSingle(st), c);
    assert ([c] + t)[1..] == t;
    OneTurn(g, InSingle(st), c, t, Pushed(InSingle(st), c));
  }

  lemma SingleClose(g: Grammar, st: State, t: string)
    requires st.quote.None? && (g.Pwsh? ==> t == "" || t[0] != '\'')
    ensures Run(g, InSingle(st), "'" + t) == Run(g, st, t)
  {
    assert ("'" + t)[1..] == t;
    OneTurn(g, InSingle(st), '\'', t, st);
  }

  lemma SingleOpen(g: Grammar, st: State, t: string)
    requires st.quote.None? && !g.Cmd?
    ensures Run(g, st, "'" + t) == Run(g, InSingle(st.(hasWord := true)), t)
  {
    assert ("'" + t)[1..] == t;
    OneTurn(g, st, '\'', t, InSingle(st.(hasWord := true)));
  }

  lemma EscapedChar(g: Grammar, st: State, c: char, t: string)
    requires st.quote.None? && c != '\n'
    ensures Run(g, st, [Escape(g), c] + t) == Run(g, Grown(st, [c], []), t)
  {
    PushIsGrown(st, c);
    assert ([Escape(g), c] + t)[2..] == t;
    TwoTurn(g, st, Escape(g), c, t, Pushed(st, c));
  }

  lemma SinglePosixQuote(st: State, t: string)
    requires st.quote.None?
    ensures Run(Posix, InSingle(st), "'\\''" + t) == Run(Posix, InSingle(Grown(st, "'", [])), t)
  {
    hide Run;
    assert "'\\''" + t == "'" + (['\\', '\''] + ("'" + t));
    SingleClose(Posix, st, ['\\', '\''] + ("'" + t));
    EscapedChar(Posix, st, '\'', "'" + t);
    SingleOpen(Posix, Grown(st, "'", []), t);
  }

  lemma SinglePwshQuote(st: State, t: string)
    requires st.quote.None?
    ensures Run(Pwsh, InSingle(st), "''" + t) == Run(Pwsh, InSingle(Grown(st, "'", [])), t)
  {
    PushIsGrown(InSingle(st), '\'');
    assert ("''" + t)[2..] == t;
    TwoTurn(Pwsh, InSingle(st), '\'', '\'', t, Pushed(InSingle(st), '\''));
  }

  lemma {:induction false} InSingleRuns(g: Grammar, st: State, w: string, t: string)
    requires st.quote.None? && st.hasWord && !g.Cmd?
    ensures Run(g, InSingle(st), Escaped(g, w) + t) == Run(g, InSingle(Grown(st, w, [])), t)
    decreases |w|
  {
    if w == "" {
      assert Escaped(g, w) + t == t;
      GrownTwice(st, "", [], "", []);
    } else {
      var head := if w[0] != '\'' then [w[0]] else if g.Posix? then "'\\''" else "''";
      assert Escaped(g, w) == head + Escaped(g, w[1..]);
      var tail := Escaped(g, w[1..]) + t;
      InSingleRuns(g, Grown(st, [w[0]], []), w[1..], t);
      hide Run, Escaped;
      Joined(head, Escaped(g, w[1..]), t);
      if w[0] != '\'' {
        SinglePlain(g, st, w[0], tail);
      } else if g.Posix? {
        SinglePosixQuote(st, tail);
      } else {
        SinglePwshQuote(st, tail);
      }
      GrownTwice(st, [w[0]], [], w[1..], []);
      assert [w[0]] + w[1..] == w;
    }
  }

  lemma SingleRuns(g: Grammar, st: State, w: string, t: string)
    requires st.quote.None? && !g.Cmd? && (g.Pwsh? ==> t == "" || t[0] != '\'')
    ensures Run(g, st, Quoted(g, w) + t) == Run(g, Grown(st, w, []), t)
  {
    hide Run, Escaped;
    assert Quoted(g, w) + t == "'" + (Escaped(g, w) + ("'" + t));
    SingleOpen(g, st, Escaped(g, w) + ("'" + t));
    var st' := st.(hasWord := true);
    InSingleRuns(g, st', w, "'" + t);
    SingleClose(g, Grown(st', w, []), t);
    assert Grown(st', w, []) == Grown(st, w, []);
  }

  // Outside quotes.

  lemma DoubleRuns(g: Grammar, st: State, ns: seq<Inner>, t: string)
    requires st.quote.None? && forall k | 0 <= k < |ns| :: GoodInner(g, ns[k])
    ensures Run(g, st, "\"" + (InnersText(g, ns) + "\"") + t) == Run(g, Grown(st, InnersWord(ns), InnersBodies(ns)), t)
  {
    hide InnersText, InnersWord, InnersBodies, GoodInner;
    var text := InnersText(g, ns) + ("\"" + t);
    assert "\"" + (InnersText(g, ns) + "\"") + t == "\"" + text;
    var inside := st.(hasWord := true, quote := Some('\"'));
    assert ("\"" + text)[1..] == text;
    OneTurn(g, st, '\"', text, inside);
    InnersRun(g, inside, ns, "\"" + t);
    var grown := Grown(inside, InnersWord(ns), InnersBodies(ns));
    assert ("\"" + t)[1..] == t;
    OneTurn(g, grown, '\"', t, grown.(quote := None));
    assert grown.(quote := None) == Grown(st, InnersWord(ns), InnersBodies(ns));
  }

  lemma PlainOne(g: Grammar, st: State, c: char, t: string)
    requires st.quote.None? && PlainChar(g, c) && (t == "" || t[0] != '(')
    ensures Run(g, st, [c] + t) == Run(g, Grown(st, [c], []), t)
  {
    PushIsGrown(st, c);
    assert ([c] + t)[1..] == t;
    OneTurn(g, st, c, t, Pushed(st, c));
  }

  lemma {:induction false} PlainRuns(g: Grammar, st: State, w: string, t: string)
    requires st.quote.None? && w != "" && (forall k | 0 <= k < |w| :: PlainChar(g, w[k])) && (t == "" || t[0] != '(')
    ensures Run(g, st, w + t) == Run(g, Grown(st, w, []), t)
    decreases |w|
  {
    hide Run;
    assert w + t == [w[0]] + (w[1..] + t) && [w[0]] + w[1..] == w;
    PlainOne(g, st, w[0], w[1..] + t);
    if |w| == 1 {
      assert w[1..] + t == t && w == [w[0]];
    } else {
      PlainRuns(g, Grown(st, [w[0]], []), w[1..], t);
      GrownTwice(st, [w[0]], [], w[1..], []);
    }
  }

  lemma ParenRuns(g: Grammar, st: State, b: Body, t: string)
    requires st.quote.None? && !g.Cmd? && GoodBody(b)
    ensures Run(g, st, "$(" + (BodyText(b) + ")") + t) == Run(g, Grown(st, "$", [BodyText(b)]), t)
  {
    hide CaptureParens, BodyText;
    PushIsGrown(st, '$');
    ParensCaptured(b, t);
    var s := "$(" + (BodyText(b) + ")") + t;
    assert s[2..] == BodyText(b) + (")" + t);
    assert Turn(g, st, s) == (Nested(st, BodyText(b)), t);
  }

  lemma TickRuns(st: State, w: string, t: string)
    requires st.quote.None?
    ensures Run(Posix, st, "`" + (TickText(w) + "`") + t) == Run(Posix, Grown(st, "$", [w]), t)
  {
    hide CaptureBackticks, TickText;
    PushIsGrown(st, '$');
    TickCaptured(w, t);
    var s := "`" + (TickText(w) + "`") + t;
    assert s[1..] == TickText(w) + ("`" + t);
    assert Turn(Posix, st, s) == (Nested(st, w), t);
  }

  lemma JointRuns(g: Grammar, st: State, t: string)
    requires st.quote.None?
    ensures Run(g, st, [Escape(g), '\n'] + t) == Run(g, st, t)
  {
    assert ([Escape(g), '\n'] + t)[2..] == t;
    TwoTurn(g, st, Escape(g), '\n', t, st);
  }

  lemma PartRuns(g: Grammar, st: State, p: Part, t: string)
    requires st.quote.None? && GoodPart(g, p) && (p.Joint? ==> st.hasWord)
    requires t == "" || (t[0] != '(' && (g.Pwsh? && p.Single? ==> t[0] != '\''))
    ensures Run(g, st, PartText(g, p) + t) == Run(g, Grown(st, PartWord(p), PartBodies(p)), t)
  {
    hide Run, Quoted, InnersText, InnersWord, InnersBodies, BodyText, TickText, GoodBody, GoodInner, PlainChar, Grown;
    match p
    case Plain(w) => PlainRuns(g, st, w, t);
    case Single(w) => SingleRuns(g, st, w, t);
    case Double(ns) => DoubleRuns(g, st, ns, t);
    case Esc(c) => EscapedChar(g, st, c, t);
    case Paren(b) => ParenRuns(g, st, b, t);
    case Tick(w) => TickRuns(st, w, t);
    case Joint =>
      JointRuns(g, st, t);
      GrownTwice(st, "", [], "", []);
  }

  /** No part starts with a parenthesis, and only a single-quoted one with a single quote. */
  lemma PartStarts(g: Grammar, p: Part)
    requires GoodPart(g, p)
    ensures PartText(g, p) != "" && PartText(g, p)[0] != '('
    ensures PartText(g, p)[0] == '\'' && !g.Cmd? ==> p.Single?
  {
    hide GoodBody, GoodInner;
  }

  lemma {:induction false} PartsRun(g: Grammar, st: State, ps: seq<Part>, t: string)
    requires st.quote.None? && GoodParts(g, ps) && (ps != [] && ps[0].Joint? ==> st.hasWord) && (ps == [] ==> st.hasWord)
    requires t == "" || (t[0] != '(' && t[0] != '\'')
    ensures Run(g, st, PartsText(g, ps) + t) == Run(g, Grown(st, PartsWord(ps), PartsBodies(ps)), t)
    decreases |ps|
  {
    hide Run, PartText, PartWord, PartBodies, GoodPart;
    if ps == [] {
      assert PartsText(g, ps) + t == t;
      GrownTwice(st, "", [], "", []);
    } else {
      var rest := PartsText(g, ps[1..]) + t;
      Joined(PartText(g, ps[0]), PartsText(g, ps[1..]), t);
      assert rest == "" || (rest[0] != '(' && (g.Pwsh? && ps[0].Single? ==> rest[0] != '\'')) by {
        RestStarts(g, ps, t);
      }
      PartRuns(g, st, ps[0], rest);
      PartsRun(g, Grown(st, PartWord(ps[0]), PartBodies(ps[0])), ps[1..], t);
      GrownTwice(st, PartWord(ps[0]), PartBodies(ps[0]), PartsWord(ps[1..]), PartsBodies(ps[1..]));
    }
  }

  lemma RestStarts(g: Grammar, ps: seq<Part>, t: string)
    requires GoodParts(g, ps) && ps != [] && (t == "" || (t[0] != '(' && t[0] != '\''))
    ensures var rest := PartsText(g, ps[1..]) + t;
      rest == "" || (rest[0] != '(' && (g.Pwsh? && ps[0].Single? ==> rest[0] != '\''))
  {
    hide PartText, GoodPart;
    if |ps| > 1 {
      assert ps[1..][0] == ps[1];
      PartStarts(g, ps[1]);
      assert (PartsText(g, ps[1..]) + t)[0] == PartText(g, ps[1])[0];
    } else {
      assert ps[1..] == [] && PartsText(g, ps[1..]) + t == t;
    }
  }

  // --------------------------------------------------------------------------- items

  /** The loop between items. */
  function Between(m: Meaning): State { State(m.out, m.current, "", false, false, m.level, None) }

  /** The loop has read what `m` says, but for a pending word. */
  predicate At(st: State, m: Meaning) { st.quote.None? && Flushed(st) == Between(m) }

  lemma BetweenIsAt(m: Meaning)
    ensures At(Between(m), m)
  {
  }

  lemma BlankRuns(g: Grammar, st: State, c: char, t: string)
    requires st.quote.None? && IsBlank(c)
    ensures Run(g, st, [c] + t) == Run(g, Flushed(st), t)
  {
    assert ([c] + t)[1..] == t;
    OneTurn(g, st, c, t, Flushed(st));
  }

  lemma {:induction false} GapRuns(g: Grammar, st: State, gap: string, t: string)
    requires st.quote.None? && Blanks(gap)
    ensures Run(g, st, gap + t) == Run(g, if gap == "" then st else Flushed(st), t)
    decreases |gap|
  {
    hide Run;
    if gap == "" {
      assert gap + t == t;
    } else {
      assert gap + t == [gap[0]] + (gap[1..] + t);
      BlankRuns(g, st, gap[0], gap[1..] + t);
      GapRuns(g, Flushed(st), gap[1..], t);
      assert Flushed(Flushed(st)) == Flushed(st);
    }
  }

  lemma WordRuns(g: Grammar, m: Meaning, ps: seq<Part>, t: string) returns (st: State)
    requires GoodWord(g, ps) && Follows(Word(ps), t)
    ensures Run(g, Between(m), PartsText(g, ps) + t) == Run(g, st, t)
    ensures At(st, Means(m, Word(ps)))
  {
    hide Run, PartsText, GoodParts, PartsWord, PartsBodies;
    PartsRun(g, Between(m), ps, t);
    st := Grown(Between(m), PartsWord(ps), PartsBodies(ps));
    assert "" + PartsWord(ps) == PartsWord(ps);
  }

  lemma {:induction false} SkipsOperator(op: string, t: string)
    requires (forall k | 0 <= k < |op| :: IsRedirection(op[k])) && (t == "" || !IsRedirection(t[0]))
    ensures SkipWhile(op + t, false) == t
  {
    if op == "" {
      assert op + t == t;
    } else {
      assert (op + t)[1..] == op[1..] + t;
      SkipsOperator(op[1..], t);
    }
  }

  lemma OperatorRuns(g: Grammar, m: Meaning, fd: string, op: string, t: string)
    requires GoodOp(g, fd, op) && (t == "" || !IsRedirection(t[0]))
    ensures Run(g, Between(m).(word := fd, hasWord := fd != ""), op + t) == Run(g, Between(m).(skipTarget := true), t)
  {
    var st := Between(m).(word := fd, hasWord := fd != "");
    assert (op + t)[1..] == op[1..] + t && (op + t)[0] == op[0] && (|op| > 1 ==> (op + t)[1] == op[1]);
    SkipsOperator(op[1..], t);
    assert IsFd(fd);
    hide SkipWhile;
    assert Redirected(st) == Between(m).(skipTarget := true);
    assert Turn(g, st, op + t) == (Redirected(st), t);
  }

  lemma FdIsPlain(g: Grammar, fd: string)
    requires forall k | 0 <= k < |fd| :: '0' <= fd[k] <= '9' || fd[k] == '*'
    ensures forall k | 0 <= k < |fd| :: PlainChar(g, fd[k])
  {
    forall k | 0 <= k < |fd|
      ensures PlainChar(g, fd[k])
    {
      DigitIsPlain(g, fd[k]);
    }
  }

  lemma DigitIsPlain(g: Grammar, c: char)
    requires '0' <= c <= '9' || c == '*'
    ensures PlainChar(g, c)
  {
  }

  lemma FdRuns(g: Grammar, m: Meaning, fd: string, t: string)
    requires (forall k | 0 <= k < |fd| :: '0' <= fd[k] <= '9' || fd[k] == '*') && (t == "" || t[0] != '(')
    ensures Run(g, Between(m), fd + t) == Run(g, Between(m).(word := fd, hasWord := fd != ""), t)
  {
    hide Run;
    if fd == "" {
      assert fd + t == t;
    } else {
      FdIsPlain(g, fd);
      hide PlainChar;
      PlainRuns(g, Between(m), fd, t);
      assert "" + fd == fd && m.out.nested + [] == m.out.nested;
    }
  }

  lemma PartsStart(g: Grammar, ps: seq<Part>, t: string)
    requires GoodWord(g, ps)
    ensures PartsText(g, ps) + t != "" && !IsRedirection((PartsText(g, ps) + t)[0])
  {
    hide GoodBody, GoodInner;
    assert (PartsText(g, ps) + t)[0] == PartText(g, ps[0])[0];
  }

  lemma RedirRuns(g: Grammar, m: Meaning, fd: string, op: string, gap: string, ps: seq<Part>, t: string) returns (st: State)
    requires GoodItem(g, Redir(fd, op, gap, ps)) && Follows(Redir(fd, op, gap, ps), t)
    ensures Run(g, Between(m), ItemText(g, Redir(fd, op, gap, ps)) + t) == Run(g, st, t)
    ensures At(st, Means(m, Redir(fd, op, gap, ps)))
  {
    hide Run, PartsText, GoodParts, PartsWord, PartsBodies, IsRedirection;
    var target := PartsText(g, ps) + t;
    assert fd + (op + (gap + PartsText(g, ps))) + t == fd + (op + (gap + target));
    var waiting := Between(m).(skipTarget := true);
    FdRuns(g, m, fd, op + (gap + target)) by { OpStarts(g, fd, op, gap + target); }
    OperatorRuns(g, m, fd, op, gap + target) by { PartsStart(g, ps, t); GapStarts(gap, target); }
    GapRuns(g, waiting, gap, target);
    PartsRun(g, waiting, ps, t);
    st := Grown(waiting, PartsWord(ps), PartsBodies(ps));
  }

  lemma OpStarts(g: Grammar, fd: string, op: string, t: string)
    requires GoodOp(g, fd, op)
    ensures op + t != "" && (op + t)[0] != '('
  {
  }

  lemma GapStarts(gap: string, t: string)
    requires Blanks(gap) && t != "" && !IsRedirection(t[0])
    ensures gap + t != "" && !IsRedirection((gap + t)[0])
  {
    if gap != "" {
      assert IsBlank(gap[0]);
    } else {
      assert gap + t == t;
    }
  }

  lemma {:induction false} SkipsComment(w: string, t: string)
    requires '\n' !in w
    ensures SkipWhile(w + ("\n" + t), true) == "\n" + t
  {
    if w == "" {
      assert w + ("\n" + t) == "\n" + t;
    } else {
      assert (w + ("\n" + t))[1..] == w[1..] + ("\n" + t);
      SkipsComment(w[1..], t);
    }
  }

  lemma CommentRuns(g: Grammar, m: Meaning, w: string, t: string)
    requires !g.Cmd? && '\n' !in w
    ensures Run(g, Between(m), "#" + (w + "\n") + t) == Run(g, Between(Cut(m)), t)
  {
    var s := "#" + (w + "\n") + t;
    assert s[1..] == w + ("\n" + t);
    SkipsComment(w, t);
    hide SkipWhile;
    assert Turn(g, Between(m), s) == (Between(m), "\n" + t);
    assert ("\n" + t)[1..] == t;
    EndsClean(Between(m), m);
    OneTurn(g, Between(m), '\n', t, Between(Cut(m)));
  }

  lemma EndsClean(st: State, m: Meaning)
    requires At(st, m)
    ensures Ended(st) == Between(Cut(m)) && st.level == m.level
  {
  }

  lemma OneCharEnd(g: Grammar, st: State, m: Meaning, c: char, t: string)
    requires At(st, m) && (c in ";\n|&" || (g.Pwsh? && c in "{}")) && (t == "" || t[0] !in "|&>")
    ensures Run(g, st, [c] + t) == Run(g, Between(Cut(m)), t)
  {
    EndsClean(st, m);
    hide Ended;
    assert ([c] + t)[1..] == t;
    OneTurn(g, st, c, t, Between(Cut(m)));
  }

  lemma TwoCharEnd(g: Grammar, st: State, m: Meaning, c: char, t: string)
    requires At(st, m) && c in "|&"
    ensures Run(g, st, [c, c] + t) == Run(g, Between(Cut(m)), t)
  {
    EndsClean(st, m);
    hide Ended;
    assert ([c, c] + t)[2..] == t;
    TwoTurn(g, st, c, c, t, Between(Cut(m)));
  }

  lemma ParenthesisRuns(g: Grammar, st: State, m: Meaning, t: string)
    requires At(st, m)
    ensures Run(g, st, "(" + t) == Run(g, Between(Means(m, Open)), t)
    ensures Run(g, st, ")" + t) == Run(g, Between(Means(m, Close)), t)
  {
    EndsClean(st, m);
    hide Ended;
    assert ("(" + t)[1..] == t && (")" + t)[1..] == t;
    OneTurn(g, st, '(', t, Between(Means(m, Open)));
    OneTurn(g, st, ')', t, Between(Means(m, Close)));
  }

  lemma EndRuns(g: Grammar, st: State, m: Meaning, sep: string, t: string)
    requires At(st, m) && GoodItem(g, End(sep)) && Follows(End(sep), t)
    ensures Run(g, st, sep + t) == Run(g, Between(Cut(m)), t)
  {
    hide Run, At;
    if sep == "||" {
      TwoCharEnd(g, st, m, '|', t);
    } else if sep == "&&" {
      TwoCharEnd(g, st, m, '&', t);
    } else {
      assert sep == [sep[0]];
      OneCharEnd(g, st, m, sep[0], t);
    }
  }

  /** What an item adds, whatever stands before and after it. */
  lemma ItemRuns(g: Grammar, st: State, m: Meaning, i: Item, t: string) returns (st': State)
    requires At(st, m) && GoodItem(g, i) && Follows(i, t) && (i.Word? || i.Redir? || i.Comment? ==> st == Between(m))
    ensures Run(g, st, ItemText(g, i) + t) == Run(g, st', t)
    ensures At(st', Means(m, i)) && (!i.Word? && !i.Redir? ==> st' == Between(Means(m, i)))
  {
    BetweenIsAt(Means(m, i));
    hide Run, At, PartsText, Means;
    assert Means(m, i) == Means(m, i);
    match i
    case Word(ps) => st' := WordRuns(g, m, ps, t);
    case Redir(fd, op, gap, ps) => st' := RedirRuns(g, m, fd, op, gap, ps, t);
    case Comment(w) =>
      CommentRuns(g, m, w, t);
      CutMeans(m, i);
      st' := Between(Means(m, i));
    case End(sep) =>
      EndRuns(g, st, m, sep, t);
      CutMeans(m, i);
      st' := Between(Means(m, i));
    case Open =>
      ParenthesisRuns(g, st, m, t);
      st' := Between(Means(m, i));
    case Close =>
      ParenthesisRuns(g, st, m, t);
      st' := Between(Means(m, i));
  }

  lemma CutMeans(m: Meaning, i: Item)
    ensures i.Comment? || i.End? ==> Means(m, i) == Cut(m)
  {
  }

  lemma {:induction false} ScriptRuns(g: Grammar, st: State, m: Meaning, ts: seq<Token>, clean: bool)
    requires At(st, m) && (clean ==> st == Between(m)) && GoodScript(g, ts, clean)
    ensures Run(g, st, ScriptText(g, ts)) == ScriptMeans(m, ts)
    decreases |ts|
  {
    if ts == [] {
      EndsClean(st, m);
    } else {
      var i, rest := ts[0].item, ScriptText(g, ts[1..]);
      GapRuns(g, st, ts[0].gap, ItemText(g, i) + rest);
      var here := if ts[0].gap == "" then st else Between(m);
      BetweenIsAt(m);
      hide Run, ItemText, Means, GoodItem, Follows;
      var st' := ItemRuns(g, here, m, i, rest);
      ScriptRuns(g, st', Means(m, i), ts[1..], !(i.Word? || i.Redir?));
    }
  }

  /**
   Splitting the text of any script, under any of the three grammars, gives exactly what the
   script means: its commands in order, each with its words and its level, and the bodies of its
   substitutions.
   */
  lemma ScriptComesBack(g: Grammar, ts: seq<Token>)
    requires GoodScript(g, ts, true)
    ensures Run(g, START, ScriptText(g, ts)) == ScriptMeans(NOTHING, ts)
  {
    BetweenIsAt(NOTHING);
    ScriptRuns(g, Between(NOTHING), NOTHING, ts, true);
  }

  // --------------------------------------------------------------------- command lists

  /** Words between single quotes, a space before each. */
  function WordTokens(ws: seq<string>): seq<Token> {
    if ws == [] then [] else [Token(" ", Word([Single(ws[0])]))] + WordTokens(ws[1..])
  }

  /** Commands one after another with separators between them. */
  function LineTokens(cmds: seq<seq<string>>, seps: seq<string>): seq<Token>
    requires |cmds| == |seps| + 1
  {
    WordTokens(cmds[0]) + (if seps == [] then [] else [Token(" ", End(seps[0]))] + LineTokens(cmds[1..], seps[1..]))
  }

  function AtLevelZero(cmds: seq<seq<string>>): seq<(nat, seq<string>)> {
    if cmds == [] then [] else [(0, cmds[0])] + AtLevelZero(cmds[1..])
  }

  /** One more token in front. */
  lemma ScriptCons(g: Grammar, m: Meaning, i: Item, rest: seq<Token>, clean: bool)
    requires GoodItem(g, i) && Follows(i, ScriptText(g, rest)) && GoodScript(g, rest, !(i.Word? || i.Redir?))
    ensures var all := [Token(" ", i)] + rest;
      GoodScript(g, all, clean) && ScriptMeans(m, all) == ScriptMeans(Means(m, i), rest) && Spaced(ScriptText(g, all))
  {
    hide ItemText, Means, GoodItem, Follows;
    assert ([Token(" ", i)] + rest)[1..] == rest;
  }

  predicate Spaced(t: string) { t == "" || t[0] == ' ' }

  lemma SpacedFollows(i: Item, t: string)
    requires Spaced(t)
    ensures Follows(i, t)
  {
  }

  lemma {:induction false} WordTokensAre(g: Grammar, m: Meaning, ws: seq<string>, rest: seq<Token>, clean: bool)
    requires !g.Cmd? && GoodScript(g, rest, ws == [] && clean) && Spaced(ScriptText(g, rest))
    ensures GoodScript(g, WordTokens(ws) + rest, clean)
    ensures ScriptMeans(m, WordTokens(ws) + rest) == ScriptMeans(m.(current := m.current + ws), rest)
    ensures Spaced(ScriptText(g, WordTokens(ws) + rest))
    decreases |ws|
  {
    hide ScriptText, ScriptMeans, GoodScript, Spaced, Follows;
    if ws == [] {
      assert WordTokens(ws) + rest == rest && m.current + ws == m.current;
    } else {
      var i, tail := Word([Single(ws[0])]), WordTokens(ws[1..]) + rest;
      assert WordTokens(ws) == [Token(" ", i)] + WordTokens(ws[1..]);
      hide WordTokens;
      WordTokensAre(g, m.(current := m.current + [ws[0]]), ws[1..], rest, false);
      QuotedWord(g, m, ws[0]);
      hide Means, GoodItem;
      SpacedFollows(i, ScriptText(g, tail));
      ScriptCons(g, m, i, tail, clean);
      assert WordTokens(ws) + rest == [Token(" ", i)] + tail;
      assert m.current + [ws[0]] + ws[1..] == m.current + ws;
    }
  }

  lemma QuotedWord(g: Grammar, m: Meaning, w: string)
    requires !g.Cmd?
    ensures GoodItem(g, Word([Single(w)])) && Means(m, Word([Single(w)])) == m.(current := m.current + [w])
  {
    var ps := [Single(w)];
    var none: seq<string> := [];
    assert ps[1..] == [] && PartsWord(ps) == w + "" == w;
    assert PartBodies(ps[0]) == none && PartsBodies(ps[1..]) == none && none + none == none;
    assert m.out.nested + none == m.out.nested;
  }

  lemma {:induction false} LineTokensAre(g: Grammar, out: Split, cmds: seq<seq<string>>, seps: seq<string>)
    requires !g.Cmd? && |cmds| == |seps| + 1 && (forall k | 0 <= k < |cmds| :: cmds[k] != [])
    requires forall k | 0 <= k < |seps| :: Separator(seps[k])
    ensures GoodScript(g, LineTokens(cmds, seps), true) && Spaced(ScriptText(g, LineTokens(cmds, seps)))
    ensures ScriptMeans(Meaning(out, [], 0), LineTokens(cmds, seps)) == out.(commands := out.commands + AtLevelZero(cmds))
    decreases |seps|
  {
    hide ScriptText, ScriptMeans, GoodScript, Spaced, Separator, WordTokens;
    if seps == [] {
      LastCommand(g, out, cmds[0]);
      assert WordTokens(cmds[0]) + [] == WordTokens(cmds[0]) && cmds[1..] == [];
      assert AtLevelZero(cmds) == [(0, cmds[0])];
    } else {
      var tail := LineTokens(cmds[1..], seps[1..]);
      var cut := out.(commands := out.commands + [(0, cmds[0])]);
      LineTokensAre(g, cut, cmds[1..], seps[1..]);
      CommandThen(g, out, cmds[0], seps[0], tail);
      assert AtLevelZero(cmds) == [(0, cmds[0])] + AtLevelZero(cmds[1..]);
      assert cut.commands + AtLevelZero(cmds[1..]) == out.commands + AtLevelZero(cmds);
    }
  }

  lemma LastCommand(g: Grammar, out: Split, cmd: seq<string>)
    requires !g.Cmd? && cmd != []
    ensures GoodScript(g, WordTokens(cmd), true) && Spaced(ScriptText(g, WordTokens(cmd)))
    ensures ScriptMeans(Meaning(out, [], 0), WordTokens(cmd)) == out.(commands := out.commands + [(0, cmd)])
  {
    WordTokensAre(g, Meaning(out, [], 0), cmd, [], true);
    assert WordTokens(cmd) + [] == WordTokens(cmd) && [] + cmd == cmd;
  }

  lemma CommandThen(g: Grammar, out: Split, cmd: seq<string>, sep: string, tail: seq<Token>)
    requires !g.Cmd? && cmd != [] && Separator(sep)
    requires GoodScript(g, tail, true) && Spaced(ScriptText(g, tail))
    ensures var all := WordTokens(cmd) + ([Token(" ", End(sep))] + tail);
      && GoodScript(g, all, true) && Spaced(ScriptText(g, all))
      && ScriptMeans(Meaning(out, [], 0), all) == ScriptMeans(Meaning(out.(commands := out.commands + [(0, cmd)]), [], 0), tail)
  {
    hide ScriptText, ScriptMeans, GoodScript, Spaced, Follows, WordTokens;
    SpacedFollows(End(sep), ScriptText(g, tail));
    ScriptCons(g, Meaning(out, cmd, 0), End(sep), tail, false);
    WordTokensAre(g, Meaning(out, [], 0), cmd, [Token(" ", End(sep))] + tail, true);
    assert [] + cmd == cmd;
  }

  /** Commands of any words, with any separators between them, come back as those commands at level 0. */
  lemma CommandsComeBack(g: Grammar, cmds: seq<seq<string>>, seps: seq<string>)
    requires !g.Cmd? && |cmds| == |seps| + 1 && (forall k | 0 <= k < |cmds| :: cmds[k] != [])
    requires forall k | 0 <= k < |seps| :: Separator(seps[k])
    ensures Run(g, START, ScriptText(g, LineTokens(cmds, seps))) == Split(AtLevelZero(cmds), [])
  {
    LineTokensAre(g, Split([], []), cmds, seps);
    ScriptComesBack(g, LineTokens(cmds, seps));
    assert [] + AtLevelZero(cmds) == AtLevelZero(cmds);
  }
}
