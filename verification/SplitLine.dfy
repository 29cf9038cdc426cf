/**
 `split_line` of crates/core/src/os_guard.rs: a line split into simple commands with the
 grammar of the shell that runs it. `Run` is the grammar, one turn at a time; the loop below
 updates its word buffer in place and is proved to follow it.
 */
module SplitLine {
  import opened Common

  datatype Grammar = Posix | Pwsh | Cmd

  /** Simple commands with their `( )` level, and the bodies of substitutions. */
  datatype Split = Split(commands: seq<(nat, seq<string>)>, nested: seq<string>)

  /** The command being assembled. `skipTarget`: the next word is a redirection target. */
  datatype State = State(
    out: Split, current: seq<string>, word: string, hasWord: bool, skipTarget: bool, level: nat, quote: Option<char>)

  const START: State := State(Split([], []), [], "", false, false, 0, None)

  function Escape(g: Grammar): char {
    match g case Posix => '\\' case Pwsh => '`' case Cmd => '^'
  }

  function Pushed(st: State, c: char): State { st.(word := st.word + [c], hasWord := true) }

  function Flushed(st: State): State {
    if !st.hasWord then st
    else if st.skipTarget then st.(word := "", hasWord := false, skipTarget := false)
    else st.(word := "", hasWord := false, current := st.current + [st.word])
  }

  function Ended(st: State): State {
    var f := Flushed(st).(skipTarget := false);
    if f.current == [] then f
    else f.(out := f.out.(commands := f.out.commands + [(f.level, f.current)]), current := [])
  }

  function Nested(st: State, body: string): State {
    Pushed(st.(out := st.out.(nested := st.out.nested + [body])), '$')
  }

  predicate IsRedirection(c: char) { c == '>' || c == '<' || c == '&' || c == '|' }

  function SkipWhile(s: string, stop: bool): (r: string)
    ensures |r| <= |s|
  {
    // `stop` false: the rest of a redirection operator; true: the rest of a comment.
    if s == [] then s
    else if (if stop then s[0] != '\n' else IsRedirection(s[0])) then SkipWhile(s[1..], stop)
    else s
  }

  predicate IsFd(word: string) {
    forall c | c in word :: '0' <= c <= '9' || c == '*' || c == '&'
  }

  function Redirected(st: State): State {
    (if IsFd(st.word) then st.(word := "", hasWord := false) else Flushed(st)).(skipTarget := true)
  }

  /** The body of a `$(`, up to its matching `)`, and what follows. */
  function CaptureParens(s: string, depth: nat, quote: Option<char>): (r: (string, string))
    ensures |r.0| + |r.1| <= |s|
  {
    if s == [] then ("", "")
    else
      var c := s[0];
      if quote.None? && c == ')' && depth == 0 then ("", s[1..])
      else
        var quote' := if quote == Some(c) then None else if quote.None? && (c == '\'' || c == '\"') then Some(c) else quote;
        var depth' := if quote.None? && c == '(' then depth + 1 else if quote.None? && c == ')' then depth - 1 else depth;
        var (body, rest) := CaptureParens(s[1..], depth', quote');
        ([c] + body, rest)
  }

  function CaptureBackticks(s: string): (r: (string, string))
    ensures |r.0| + |r.1| <= |s|
  {
    if s == [] then ("", "")
    else if s[0] == '`' then ("", s[1..])
    else if s[0] == '\\' then
      if |s| == 1 then ("", "") else
      var (body, rest) := CaptureBackticks(s[2..]);
      ([s[1]] + body, rest)
    else
      var (body, rest) := CaptureBackticks(s[1..]);
      ([s[0]] + body, rest)
  }

  /** One turn of the loop inside `'...'`. */
  function SingleQuoted(g: Grammar, st: State, s: string): (r: (State, string))
    requires s != []
    ensures |r.1| < |s|
  {
    if s[0] != '\'' then (Pushed(st, s[0]), s[1..])
    else if g.Pwsh? && |s| > 1 && s[1] == '\'' then (Pushed(st, '\''), s[2..])
    else (st.(quote := None), s[1..])
  }

  /** One turn of the loop inside `"..."`. */
  function DoubleQuoted(g: Grammar, st: State, s: string): (r: (State, string))
    requires s != []
    ensures |r.1| < |s|
  {
    var c := s[0];
    if c == '\"' then (st.(quote := None), s[1..])
    else if c == '$' && !g.Cmd? && |s| > 1 && s[1] == '(' then
      var (body, rest) := CaptureParens(s[2..], 0, None);
      (Nested(st, body), rest)
    else if c == '`' && g.Posix? then
      var (body, rest) := CaptureBackticks(s[1..]);
      (Nested(st, body), rest)
    else if c == Escape(g) && !g.Cmd? && |s| > 1 && (g.Pwsh? || s[1] in "$`\"\\\n") then (Pushed(st, s[1]), s[2..])
    else (Pushed(st, c), s[1..])
  }

  /** One turn of the loop outside quotes. */
  function Unquoted(g: Grammar, st: State, s: string): (r: (State, string))
    requires s != []
    ensures |r.1| < |s|
  {
    var c := s[0];
    if c == Escape(g) then
      if |s| == 1 then (st, "")
      else if s[1] == '\n' then (st, s[2..])
      else (Pushed(st, s[1]), s[2..])
    else if (c == '\'' && !g.Cmd?) || c == '\"' then (st.(quote := Some(c), hasWord := true), s[1..])
    else if c == '$' && !g.Cmd? && |s| > 1 && s[1] == '(' then
      var (body, rest) := CaptureParens(s[2..], 0, None);
      (Nested(st, body), rest)
    else if c == '`' && g.Posix? then
      var (body, rest) := CaptureBackticks(s[1..]);
      (Nested(st, body), rest)
    else if c == '#' && !g.Cmd? && !st.hasWord then (st, SkipWhile(s[1..], true))
    else if c == ' ' || c == '\t' || c == '\r' then (Flushed(st), s[1..])
    else if c == '>' || c == '<' || (c == '&' && !g.Cmd? && |s| > 1 && s[1] == '>') then
      (Redirected(st), SkipWhile(s[1..], false))
    else if c == ';' || c == '\n' || c == '|' || c == '&' then
      (Ended(st), if (c == '&' || c == '|') && |s| > 1 && s[1] == c then s[2..] else s[1..])
    else if c == '(' then (Ended(st).(level := st.level + 1), s[1..])
    else if c == ')' then (Ended(st).(level := if st.level == 0 then 0 else st.level - 1), s[1..])
    else if (c == '{' || c == '}') && g.Pwsh? then (Ended(st), s[1..])
    else (Pushed(st, c), s[1..])
  }

  function Turn(g: Grammar, st: State, s: string): (r: (State, string))
    requires s != []
    ensures |r.1| < |s|
  {
    if st.quote == Some('\'') then SingleQuoted(g, st, s)
    else if st.quote == Some('\"') then DoubleQuoted(g, st, s)
    else Unquoted(g, st, s)
  }

  function Run(g: Grammar, st: State, s: string): Split
    decreases |s|
  {
    if s == [] then Ended(st).out
    else
      var (st', rest) := Turn(g, st, s);
      Run(g, st', rest)
  }

  // ------------------------------------------------------------- nested bodies

  ghost predicate AllShorter(nested: seq<string>, n: nat) { forall b | b in nested :: |b| < n }

  /** Commands come and go without touching the nested bodies; a substitution adds one. */
  lemma NestAdds(st: State, body: string, n: nat)
    requires AllShorter(st.out.nested, n) && |body| < n
    ensures AllShorter(Nested(st, body).out.nested, n)
  {
  }

  lemma UnquotedNests(g: Grammar, st: State, s: string, n: nat)
    requires s != [] && |s| <= n && AllShorter(st.out.nested, n)
    ensures AllShorter(Unquoted(g, st, s).0.out.nested, n)
  {
    hide CaptureParens, CaptureBackticks, SkipWhile, IsFd, AllShorter, Nested;
    if |s| > 1 {
      NestAdds(st, CaptureParens(s[2..], 0, None).0, n);
    }
    NestAdds(st, CaptureBackticks(s[1..]).0, n);
  }

  lemma TurnNests(g: Grammar, st: State, s: string, n: nat)
    requires s != [] && |s| <= n && AllShorter(st.out.nested, n)
    ensures AllShorter(Turn(g, st, s).0.out.nested, n)
  {
    hide CaptureParens, CaptureBackticks, Unquoted, AllShorter, Nested;
    UnquotedNests(g, st, s, n);
    if |s| > 1 {
      NestAdds(st, CaptureParens(s[2..], 0, None).0, n);
    }
    NestAdds(st, CaptureBackticks(s[1..]).0, n);
  }

  /** Every substitution body is strictly shorter than the line it came from. */
  lemma {:induction false} NestedIsShorter(g: Grammar, st: State, s: string, n: nat)
    requires |s| <= n && AllShorter(st.out.nested, n)
    ensures AllShorter(Run(g, st, s).nested, n)
    decreases |s|
  {
    if s != [] {
      TurnNests(g, st, s, n);
      NestedIsShorter(g, Turn(g, st, s).0, Turn(g, st, s).1, n);
    }
  }

  // ----------------------------------------------------------------- round trip

  /** A word between single quotes: POSIX leaves and re-enters the quotes, PowerShell doubles. */
  function Escaped(g: Grammar, w: string): string {
    if w == "" then ""
    else (if w[0] != '\'' then [w[0]] else if g.Posix? then "'\\''" else "''") + Escaped(g, w[1..])
  }

  function Quoted(g: Grammar, w: string): string { "'" + (Escaped(g, w) + "'") }

  function Join(g: Grammar, ws: seq<string>): string {
    if ws == [] then "" else Quoted(g, ws[0]) + (if |ws| == 1 then "" else " " + Join(g, ws[1..]))
  }

  /** Between words: nothing pending but the words read so far. */
  function Between(done: seq<string>): State { START.(current := done) }

  function Inside(done: seq<string>, word: string): State {
    START.(current := done, word := word, hasWord := true, quote := Some('\''))
  }

  function After(done: seq<string>, word: string): State {
    START.(current := done, word := word, hasWord := true)
  }

  lemma OneTurn(g: Grammar, st: State, c: char, t: string, st': State)
    requires Turn(g, st, [c] + t) == (st', t)
    ensures Run(g, st, [c] + t) == Run(g, st', t)
  {
  }

  lemma ReadsPlain(g: Grammar, done: seq<string>, word: string, c: char, t: string)
    requires c != '\''
    ensures Run(g, Inside(done, word), [c] + t) == Run(g, Inside(done, word + [c]), t)
  {
    assert ([c] + t)[1..] == t;
    OneTurn(g, Inside(done, word), c, t, Inside(done, word + [c]));
  }

  lemma ReadsClose(g: Grammar, done: seq<string>, word: string, t: string)
    requires t == "" || t[0] != '\''
    ensures Run(g, Inside(done, word), "'" + t) == Run(g, After(done, word), t)
  {
    assert ("'" + t)[1..] == t;
    OneTurn(g, Inside(done, word), '\'', t, After(done, word));
  }

  lemma ReadsOpen(g: Grammar, done: seq<string>, t: string)
    requires !g.Cmd?
    ensures Run(g, Between(done), "'" + t) == Run(g, Inside(done, ""), t)
  {
    assert ("'" + t)[1..] == t;
    OneTurn(g, Between(done), '\'', t, Inside(done, ""));
  }

  lemma ReadsPosixQuote(done: seq<string>, word: string, t: string)
    ensures Run(Posix, Inside(done, word), "'\\''" + t) == Run(Posix, Inside(done, word + "'"), t)
  {
    var s := "'\\''" + t;
    assert s[1..] == "\\''" + t && s[1..][2..] == "'" + t && ("'" + t)[1..] == t;
    assert Turn(Posix, Inside(done, word), s) == (After(done, word), s[1..]);
    assert Turn(Posix, After(done, word), s[1..]) == (After(done, word + "'"), "'" + t);
    assert Turn(Posix, After(done, word + "'"), "'" + t) == (Inside(done, word + "'"), t);
    assert Run(Posix, Inside(done, word), s) == Run(Posix, After(done, word), s[1..]);
    assert Run(Posix, After(done, word), s[1..]) == Run(Posix, After(done, word + "'"), "'" + t);
  }

  lemma ReadsPwshQuote(done: seq<string>, word: string, t: string)
    ensures Run(Pwsh, Inside(done, word), "''" + t) == Run(Pwsh, Inside(done, word + "'"), t)
  {
    var s := "''" + t;
    assert s[2..] == t;
    assert Turn(Pwsh, Inside(done, word), s) == (Inside(done, word + "'"), t);
  }

  lemma {:induction false} ReadsEscaped(g: Grammar, done: seq<string>, word: string, w: string, t: string)
    requires !g.Cmd?
    ensures Run(g, Inside(done, word), Escaped(g, w) + t) == Run(g, Inside(done, word + w), t)
    decreases |w|
  {
    hide Run;
    if w == "" {
      assert Escaped(g, w) + t == t && word + w == word;
    } else {
      var tail := Escaped(g, w[1..]) + t;
      assert word + [w[0]] + w[1..] == word + w;
      ReadsEscaped(g, done, word + [w[0]], w[1..], t);
      if w[0] != '\'' {
        assert Escaped(g, w) + t == [w[0]] + tail;
        ReadsPlain(g, done, word, w[0], tail);
      } else if g.Posix? {
        assert Escaped(g, w) + t == "'\\''" + tail;
        ReadsPosixQuote(done, word, tail);
      } else {
        assert Escaped(g, w) + t == "''" + tail;
        ReadsPwshQuote(done, word, tail);
      }
    }
  }

  lemma ReadsSpace(g: Grammar, done: seq<string>, word: string, t: string)
    ensures Run(g, After(done, word), " " + t) == Run(g, Between(done + [word]), t)
  {
    assert (" " + t)[1..] == t;
    OneTurn(g, After(done, word), ' ', t, Between(done + [word]));
  }

  lemma ReadsEnd(g: Grammar, done: seq<string>, word: string)
    ensures Run(g, After(done, word), "") == Split([(0, done + [word])], [])
  {
  }

  lemma ReadsWord(g: Grammar, done: seq<string>, w: string, rest: string)
    requires !g.Cmd? && (rest == "" || rest[0] != '\'')
    ensures Run(g, Between(done), Quoted(g, w) + rest) == Run(g, After(done, w), rest)
  {
    hide Run, Escaped;
    assert Quoted(g, w) + rest == "'" + (Escaped(g, w) + ("'" + rest));
    ReadsOpen(g, done, Escaped(g, w) + ("'" + rest));
    ReadsEscaped(g, done, "", w, "'" + rest);
    assert "" + w == w;
    ReadsClose(g, done, w, rest);
  }

  lemma {:induction false} ReadsJoined(g: Grammar, done: seq<string>, ws: seq<string>)
    requires !g.Cmd? && ws != []
    ensures Run(g, Between(done), Join(g, ws)) == Split([(0, done + ws)], [])
    decreases |ws|
  {
    hide Run, Quoted, Between, After;
    if |ws| == 1 {
      ReadsWord(g, done, ws[0], "");
      ReadsEnd(g, done, ws[0]);
      assert ws == [ws[0]];
    } else {
      ReadsWord(g, done, ws[0], " " + Join(g, ws[1..]));
      ReadsSpace(g, done, ws[0], Join(g, ws[1..]));
      ReadsJoined(g, done + [ws[0]], ws[1..]);
      assert done + [ws[0]] + ws[1..] == done + ws;
    }
  }

  /**
   Single-quoting each word and joining with spaces is undone by the splitter: one command at
   level 0 with the same words and no nested body, under the POSIX and PowerShell grammars.
   */
  lemma SplitUndoesQuoting(g: Grammar, ws: seq<string>)
    requires !g.Cmd?
    ensures Run(g, START, Join(g, ws)) == Split(if ws == [] then [] else [(0, ws)], [])
  {
    if ws != [] {
      ReadsJoined(g, [], ws);
      assert [] + ws == ws;
    }
  }

  // -------------------------------------------------------------------- the loop

  /** The words of the command being assembled, updated in place. */
  class Words {
    var current: seq<string>
    var word: string
    var hasWord: bool
    var skipTarget: bool
    var level: nat

    /** The whole state of the loop: these words, what is split off, and the open quote. */
    ghost function Now(out: Split, quote: Option<char>): State
      reads this
    {
      State(out, current, word, hasWord, skipTarget, level, quote)
    }

    constructor ()
      ensures Now(Split([], []), None) == START
    {
      current, word, hasWord, skipTarget, level := [], "", false, false, 0;
    }

    method Push(c: char)
      modifies `word, `hasWord
      ensures word == old(word) + [c] && hasWord
    {
      word := word + [c];
      hasWord := true;
    }

    method Flush(ghost out: Split, ghost quote: Option<char>)
      modifies `current, `word, `hasWord, `skipTarget
      ensures Now(out, quote) == Flushed(old(Now(out, quote)))
    {
      if !hasWord {
        return;
      }
      var taken := word;
      word, hasWord := "", false;
      if skipTarget {
        skipTarget := false;
      } else {
        current := current + [taken];
      }
    }

    method EndCommand(out: Split, ghost quote: Option<char>) returns (out': Split)
      modifies `current, `word, `hasWord, `skipTarget
      ensures Now(out', quote) == Ended(old(Now(out, quote)))
    {
      Flush(out, quote);
      skipTarget := false;
      out' := out;
      if current != [] {
        out' := out.(commands := out.commands + [(level, current)]);
        current := [];
      }
    }

    /** Drops an fd number before a redirection and the rest of its operator. */
    method Redirect(line: string, i: nat, ghost out: Split, ghost quote: Option<char>) returns (j: nat)
      requires i <= |line|
      modifies `current, `word, `hasWord, `skipTarget
      ensures i <= j <= |line| && line[j..] == SkipWhile(line[i..], false)
      ensures Now(out, quote) == Redirected(old(Now(out, quote)))
    {
      if IsFd(word) {
        word, hasWord := "", false;
      } else {
        Flush(out, quote);
      }
      j := SkipTo(line, i, false);
      skipTarget := true;
    }
  }

  method SkipTo(line: string, i: nat, stop: bool) returns (j: nat)
    requires i <= |line|
    ensures i <= j <= |line| && line[j..] == SkipWhile(line[i..], stop)
  {
    j := i;
    while j < |line| && (if stop then line[j] != '\n' else IsRedirection(line[j]))
      invariant i <= j <= |line| && SkipWhile(line[j..], stop) == SkipWhile(line[i..], stop)
    {
      assert line[j..][1..] == line[j + 1..];
      j := j + 1;
    }
  }

  method ReadParens(line: string, i: nat) returns (body: string, j: nat)
    requires i <= |line|
    ensures i <= j <= |line| && CaptureParens(line[i..], 0, None) == (body, line[j..])
  {
    body, j := "", i;
    var depth: nat, quote: Option<char> := 0, None;
    ghost var all := CaptureParens(line[i..], 0, None);
    while j < |line|
      invariant i <= j <= |line|
      invariant body + CaptureParens(line[j..], depth, quote).0 == all.0
      invariant CaptureParens(line[j..], depth, quote).1 == all.1
    {
      var c := line[j];
      assert line[j..][1..] == line[j + 1..];
      j := j + 1;
      if quote == Some(c) {
        quote := None;
      } else if quote.None? && (c == '\'' || c == '\"') {
        quote := Some(c);
      } else if quote.None? && c == '(' {
        depth := depth + 1;
      } else if quote.None? && c == ')' {
        if depth == 0 {
          assert body + "" == body;
          return;
        }
        depth := depth - 1;
      }
      assert body + ([c] + CaptureParens(line[j..], depth, quote).0) == body + [c] + CaptureParens(line[j..], depth, quote).0;
      body := body + [c];
    }
    assert body + "" == body;
  }

  method ReadBackticks(line: string, i: nat) returns (body: string, j: nat)
    requires i <= |line|
    ensures i <= j <= |line| && CaptureBackticks(line[i..]) == (body, line[j..])
  {
    body, j := "", i;
    ghost var all := CaptureBackticks(line[i..]);
    while j < |line|
      invariant i <= j <= |line|
      invariant body + CaptureBackticks(line[j..]).0 == all.0 && CaptureBackticks(line[j..]).1 == all.1
    {
      var c := line[j];
      assert line[j..][1..] == line[j + 1..];
      j := j + 1;
      if c == '`' {
        assert body + "" == body;
        return;
      }
      if c == '\\' {
        if j == |line| {
          assert body + "" == body;
          return;
        }
        c := line[j];
        assert line[j - 1..][2..] == line[j + 1..];
        j := j + 1;
      }
      assert body + ([c] + CaptureBackticks(line[j..]).0) == body + [c] + CaptureBackticks(line[j..]).0;
      body := body + [c];
    }
    assert body + "" == body;
  }

  predicate IsQuote(quote: Option<char>) { quote.None? || quote == Some('\'') || quote == Some('\"') }

  /** The turn of the loop inside `'...'`. */
  method ReadSingleQuoted(g: Grammar, words: Words, line: string, i: nat, ghost out: Split) returns (quote: Option<char>, j: nat)
    requires i < |line|
    modifies words
    ensures i < j <= |line| && IsQuote(quote)
    ensures SingleQuoted(g, old(words.Now(out, Some('\''))), line[i..]) == (words.Now(out, quote), line[j..])
  {
    assert line[i..][1..] == line[i + 1..];
    quote, j := Some('\''), i + 1;
    if line[i] != '\'' {
      words.Push(line[i]);
    } else if g.Pwsh? && j < |line| && line[j] == '\'' {
      assert line[i..][2..] == line[j + 1..];
      j := j + 1;
      words.Push('\'');
    } else {
      quote := None;
    }
  }

  /** The turn of the loop inside `"..."`. */
  method ReadDoubleQuoted(g: Grammar, words: Words, line: string, i: nat, out: Split)
    returns (out': Split, quote: Option<char>, j: nat)
    requires i < |line|
    modifies words
    ensures i < j <= |line| && IsQuote(quote)
    ensures DoubleQuoted(g, old(words.Now(out, Some('\"'))), line[i..]) == (words.Now(out', quote), line[j..])
  {
    hide CaptureParens, CaptureBackticks;
    var c, body := line[i], "";
    assert line[i..][1..] == line[i + 1..] && (i + 1 < |line| ==> line[i..][2..] == line[i + 2..] && line[i..][1] == line[i + 1]);
    out', quote, j := out, Some('\"'), i + 1;
    if c == '\"' {
      quote := None;
    } else if c == '$' && !g.Cmd? && j < |line| && line[j] == '(' {
      body, j := ReadParens(line, j + 1);
      out' := out.(nested := out.nested + [body]);
      words.Push('$');
    } else if c == '`' && g.Posix? {
      body, j := ReadBackticks(line, j);
      out' := out.(nested := out.nested + [body]);
      words.Push('$');
    } else if c == Escape(g) && !g.Cmd? && j < |line| && (g.Pwsh? || line[j] in "$`\"\\\n") {
      words.Push(line[j]);
      j := j + 1;
    } else {
      words.Push(c);
    }
  }

  /** The turn of the loop outside quotes. */
  method ReadUnquoted(g: Grammar, words: Words, line: string, i: nat, out: Split)
    returns (out': Split, quote: Option<char>, j: nat)
    requires i < |line|
    modifies words
    ensures i < j <= |line| && IsQuote(quote)
    ensures Unquoted(g, old(words.Now(out, None)), line[i..]) == (words.Now(out', quote), line[j..])
  {
    hide CaptureParens, CaptureBackticks, SkipWhile, Flushed, Redirected, Ended;
    var c, body := line[i], "";
    assert line[i..][1..] == line[i + 1..] && (i + 1 < |line| ==> line[i..][2..] == line[i + 2..] && line[i..][1] == line[i + 1]);
    out', quote, j := out, None, i + 1;
    if c == Escape(g) {
      if j < |line| {
        if line[j] != '\n' {
          words.Push(line[j]);
        }
        j := j + 1;
      }
    } else if (c == '\'' && !g.Cmd?) || c == '\"' {
      quote := Some(c);
      words.hasWord := true;
    } else if c == '$' && !g.Cmd? && j < |line| && line[j] == '(' {
      body, j := ReadParens(line, j + 1);
      out' := out.(nested := out.nested + [body]);
      words.Push('$');
    } else if c == '`' && g.Posix? {
      body, j := ReadBackticks(line, j);
      out' := out.(nested := out.nested + [body]);
      words.Push('$');
    } else if c == '#' && !g.Cmd? && !words.hasWord {
      j := SkipTo(line, j, true);
    } else if c == ' ' || c == '\t' || c == '\r' {
      words.Flush(out, None);
    } else if c == '>' || c == '<' || (c == '&' && !g.Cmd? && j < |line| && line[j] == '>') {
      j := words.Redirect(line, j, out, None);
    } else if c == ';' || c == '\n' || c == '|' || c == '&' {
      if (c == '&' || c == '|') && j < |line| && line[j] == c {
        j := j + 1;
      }
      out' := words.EndCommand(out, None);
    } else if c == '(' {
      out' := words.EndCommand(out, None);
      words.level := words.level + 1;
    } else if c == ')' {
      out' := words.EndCommand(out, None);
      words.level := if words.level == 0 then 0 else words.level - 1;
    } else if (c == '{' || c == '}') && g.Pwsh? {
      out' := words.EndCommand(out, None);
    } else {
      words.Push(c);
    }
  }

  /**
   Splits a line. What comes out is what the grammar's turns say; every substitution body is
   shorter than the line, and quoted words joined with spaces come back as they were.
   */
  method SplitLine(line: string, g: Grammar) returns (out: Split)
    ensures out == Run(g, START, line)
    ensures forall b | b in out.nested :: |b| < |line|
    ensures forall ws :: !g.Cmd? && line == Join(g, ws) ==> out == Split(if ws == [] then [] else [(0, ws)], [])
  {
    hide SingleQuoted, DoubleQuoted, Unquoted, Ended;
    var words := new Words();
    out := Split([], []);
    var quote: Option<char>, i: nat := None, 0;
    assert line[0..] == line;
    while i < |line|
      invariant i <= |line|
      invariant Run(g, words.Now(out, quote), line[i..]) == Run(g, START, line)
      invariant IsQuote(quote)
      decreases |line| - i
    {
      if quote == Some('\'') {
        quote, i := ReadSingleQuoted(g, words, line, i, out);
      } else if quote == Some('\"') {
        out, quote, i := ReadDoubleQuoted(g, words, line, i, out);
      } else {
        out, quote, i := ReadUnquoted(g, words, line, i, out);
      }
    }
    out := words.EndCommand(out, quote);
    NestedIsShorter(g, START, line, |line|);
    forall ws | !g.Cmd? && line == Join(g, ws)
      ensures out == Split(if ws == [] then [] else [(0, ws)], [])
    {
      SplitUndoesQuoting(g, ws);
    }
  }
}
