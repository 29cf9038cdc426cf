/**
 `split_env_words` of crates/core/src/shell_deny.rs: the words `env -S` makes of its string.
 */
module EnvSplit {
  import opened Common

  predicate IsSpace(c: char) {
    c == ' ' || c == '\t' || c == '\n' || c == '\U{0b}' || c == '\U{0c}' || c == '\r'
  }

  /** Characters a backslash stands for outside single quotes. */
  predicate Escapable(c: char) { c == '\\' || c == '\'' || c == '\"' || c == '#' || c == '$' }

  function Started(word: Option<string>): string { if word.Some? then word.value else "" }

  function Push(word: Option<string>, c: char): Option<string> { Some(Started(word) + [c]) }

  function Flush(word: Option<string>): seq<string> { if word.Some? then [word.value] else [] }

  function Prepend(ws: seq<string>, rest: Option<seq<string>>): Option<seq<string>> {
    if rest.Some? then Some(ws + rest.value) else None
  }

  lemma PrependTwice(a: seq<string>, b: seq<string>, rest: Option<seq<string>>)
    ensures Prepend(a, Prepend(b, rest)) == Prepend(a + b, rest)
    ensures Prepend([], rest) == rest
  {
    if rest.Some? {
      assert a + (b + rest.value) == a + b + rest.value && [] + rest.value == rest.value;
    }
  }

  /** The words of `s` read from the middle of `word`, inside `quote`. */
  function Words(s: string, word: Option<string>, quote: Option<char>): Option<seq<string>> {
    if s == [] then
      if quote.Some? then None else Some(Flush(word))
    else
      var c := s[0];
      if quote == Some(c) then Words(s[1..], word, None)
      else if quote == Some('\'') then
        if c == '\\' && |s| > 1 && (s[1] == '\\' || s[1] == '\'') then Words(s[2..], Push(word, s[1]), quote)
        else Words(s[1..], Push(word, c), quote)
      else if c == '$' then None
      else if c == '\\' then
        if |s| > 1 && Escapable(s[1]) then Words(s[2..], Push(word, s[1]), quote) else None
      else if quote.None? && (c == '\'' || c == '\"') then Words(s[1..], Some(Started(word)), Some(c))
      else if quote.None? && IsSpace(c) then Prepend(Flush(word), Words(s[1..], None, None))
      else if quote.None? && c == '#' && word.None? then Some([])
      else Words(s[1..], Push(word, c), quote)
  }

  method SplitEnvWords(split: string) returns (r: Option<seq<string>>)
    ensures r == Words(split, None, None)
  {
    var words: seq<string> := [];
    var word: Option<string> := None;
    var quote: Option<char> := None;
    var i := 0;
    assert split[0..] == split;
    PrependTwice([], [], Words(split, None, None));
    while i < |split|
      invariant 0 <= i <= |split|
      invariant Prepend(words, Words(split[i..], word, quote)) == Words(split, None, None)
      decreases |split| - i
    {
      var rest := split[i..];
      var c := split[i];
      i := i + 1;
      assert split[i..] == rest[1..] && (i < |split| ==> split[i + 1..] == rest[2..] && split[i] == rest[1]);
      var literal := c;
      if quote == Some(c) {
        quote := None;
        continue;
      } else if quote == Some('\'') {
        if c == '\\' && i < |split| && (split[i] == '\\' || split[i] == '\'') {
          literal := split[i];
          i := i + 1;
        }
      } else if c == '$' {
        return None;
      } else if c == '\\' {
        if i == |split| || !Escapable(split[i]) {
          return None;
        }
        literal := split[i];
        i := i + 1;
      } else if quote.None? && (c == '\'' || c == '\"') {
        quote := Some(c);
        word := Some(Started(word));
        continue;
      } else if quote.None? && IsSpace(c) {
        PrependTwice(words, Flush(word), Words(split[i..], None, None));
        words := words + Flush(word);
        word := None;
        continue;
      } else if quote.None? && c == '#' && word.None? {
        return Some(words + []);
      }
      word := Push(word, literal);
    }
    if quote.Some? {
      return None;
    }
    r := Some(words + Flush(word));
  }

  // ----------------------------------------------------------------------- weight

  /** Characters of the words, and one more for each word. */
  function Weight(ws: seq<string>): nat {
    if ws == [] then 0 else |ws[0]| + 1 + Weight(ws[1..])
  }

  lemma {:induction false} WeightConcat(a: seq<string>, b: seq<string>)
    ensures Weight(a + b) == Weight(a) + Weight(b)
  {
    if a == [] {
      assert a + b == b;
    } else {
      WeightConcat(a[1..], b);
      assert (a + b)[1..] == a[1..] + b;
    }
  }

  /** Splitting never makes more of a string than was there. */
  lemma {:induction false} WordsWeight(s: string, word: Option<string>, quote: Option<char>)
    requires Words(s, word, quote).Some?
    ensures Weight(Words(s, word, quote).value) <= |s| + |Started(word)| + 1
    decreases |s|
  {
    if s != [] {
      var c := s[0];
      if quote == Some(c) {
        WordsWeight(s[1..], word, None);
      } else if quote == Some('\'') {
        if c == '\\' && |s| > 1 && (s[1] == '\\' || s[1] == '\'') {
          WordsWeight(s[2..], Push(word, s[1]), quote);
        } else {
          WordsWeight(s[1..], Push(word, c), quote);
        }
      } else if c == '\\' {
        WordsWeight(s[2..], Push(word, s[1]), quote);
      } else if quote.None? && (c == '\'' || c == '\"') {
        WordsWeight(s[1..], Some(Started(word)), Some(c));
      } else if quote.None? && IsSpace(c) {
        WordsWeight(s[1..], None, None);
        WeightConcat(Flush(word), Words(s[1..], None, None).value);
      } else if !(quote.None? && c == '#' && word.None?) {
        WordsWeight(s[1..], Push(word, c), quote);
      }
    }
  }

  // ------------------------------------------------------------------- round trip

  /** A word in single quotes, as `env -S` reads them: only `\\` and `\'` are escapes there. */
  function Escaped(w: string): string {
    if w == "" then "" else (if w[0] == '\\' || w[0] == '\'' then ['\\', w[0]] else [w[0]]) + Escaped(w[1..])
  }

  function Quoted(w: string): string { "'" + Escaped(w) + "'" }

  function Join(ws: seq<string>): string {
    if ws == [] then "" else if |ws| == 1 then Quoted(ws[0]) else Quoted(ws[0]) + " " + Join(ws[1..])
  }

  /** Inside the quotes the splitter gives back the word and stops at the closing quote. */
  lemma {:induction false} ReadsQuoted(w: string, rest: string, done: string)
    ensures Words(Escaped(w) + "'" + rest, Some(done), Some('\'')) == Words(rest, Some(done + w), None)
  {
    var s := Escaped(w) + "'" + rest;
    if w == "" {
      assert s[1..] == rest && done + w == done;
    } else {
      var tail := Escaped(w[1..]) + "'" + rest;
      ReadsQuoted(w[1..], rest, done + [w[0]]);
      assert done + [w[0]] + w[1..] == done + w;
      if w[0] == '\\' || w[0] == '\'' {
        assert s == ['\\', w[0]] + tail && s[2..] == tail;
      } else {
        assert s == [w[0]] + tail && s[1..] == tail;
      }
    }
  }

  lemma ReadsOpenQuote(t: string)
    ensures Words("'" + t, None, None) == Words(t, Some(""), Some('\''))
  {
    assert ("'" + t)[1..] == t;
  }

  lemma ReadsSpace(t: string, w: string)
    ensures Words(" " + t, Some(w), None) == Prepend([w], Words(t, None, None))
    ensures Words("", Some(w), None) == Some([w])
  {
    assert (" " + t)[1..] == t;
  }

  /** Single-quoting each word and joining with spaces is undone by the splitter. */
  lemma {:induction false} SplitUndoesQuoting(ws: seq<string>)
    ensures Words(Join(ws), None, None) == Some(ws)
  {
    if ws == [] {
      assert Words("", None, None) == Some([]);
    } else {
      var rest := if |ws| == 1 then "" else " " + Join(ws[1..]);
      assert Join(ws) == "'" + (Escaped(ws[0]) + "'" + rest);
      SplitUndoesQuoting(ws[1..]);
      hide Words, Join;
      ReadsOpenQuote(Escaped(ws[0]) + "'" + rest);
      ReadsQuoted(ws[0], rest, "");
      assert "" + ws[0] == ws[0];
      ReadsSpace(Join(ws[1..]), ws[0]);
      assert [ws[0]] + ws[1..] == ws && (|ws| == 1 ==> ws == [ws[0]]);
    }
  }
}
