/**
 What strings mean to `split_env_words` (crates/core/src/shell_deny.rs, 328-367), stated apart from
 its loop: words made of plain, escaped, single- and double-quoted parts, blanks between them and a
 comment at the end. The words of the text come back, and the texts that are refused are named.
 */
module EnvScript {
  import opened Common
  import opened EnvSplit

  datatype Part = Plain(text: string) | Single(text: string) | Double(text: string) | Esc(c: char)

  /** Characters that need an escape between double quotes. */
  predicate NeedsEscape(c: char) { c == '\"' || c == '\\' || c == '$' }

  function DoubleText(w: string): string {
    if w == "" then "" else (if NeedsEscape(w[0]) then ['\\', w[0]] else [w[0]]) + DoubleText(w[1..])
  }

  function PartText(p: Part): string {
    match p
    case Plain(w) => w
    case Single(w) => Quoted(w)
    case Double(w) => "\"" + (DoubleText(w) + "\"")
    case Esc(c) => ['\\', c]
  }

  function PartWord(p: Part): string {
    match p case Plain(w) => w case Single(w) => w case Double(w) => w case Esc(c) => [c]
  }

  function PartsText(ps: seq<Part>): string { if ps == [] then "" else PartText(ps[0]) + PartsText(ps[1..]) }

  function PartsWord(ps: seq<Part>): string { if ps == [] then "" else PartWord(ps[0]) + PartsWord(ps[1..]) }

  predicate PlainChar(c: char) { !IsSpace(c) && c != '\'' && c != '\"' && c != '\\' && c != '$' && c != '#' }

  predicate GoodPart(p: Part) {
    match p
    case Plain(w) => w != "" && forall k | 0 <= k < |w| :: PlainChar(w[k])
    case Single(_) => true
    case Double(_) => true
    case Esc(c) => Escapable(c)
  }

  predicate GoodWord(ps: seq<Part>) { ps != [] && forall k | 0 <= k < |ps| :: GoodPart(ps[k]) }

  predicate GoodWords(wss: seq<seq<Part>>) { forall k | 0 <= k < |wss| :: GoodWord(wss[k]) }

  /** Each word with one blank before it. */
  function WordsText(blank: char, wss: seq<seq<Part>>): string {
    if wss == [] then "" else [blank] + (PartsText(wss[0]) + WordsText(blank, wss[1..]))
  }

  function WordsMean(wss: seq<seq<Part>>): seq<string> {
    if wss == [] then [] else [PartsWord(wss[0])] + WordsMean(wss[1..])
  }

  // --------------------------------------------------------------------------- parts

  lemma Joined(a: string, b: string, c: string)
    ensures a + (b + c) == a + b + c
  {
  }

  lemma ReadsChar(c: char, t: string, word: Option<string>, quote: Option<char>)
    ensures quote.None? && PlainChar(c) ==> Words([c] + t, word, quote) == Words(t, Push(word, c), quote)
    ensures quote == Some('\"') && !NeedsEscape(c) ==> Words([c] + t, word, quote) == Words(t, Push(word, c), quote)
    ensures quote == Some('\"') && c == '\"' ==> Words([c] + t, word, quote) == Words(t, word, None)
    ensures quote.None? && (c == '\'' || c == '\"') ==> Words([c] + t, word, quote) == Words(t, Some(Started(word)), Some(c))
    ensures quote.None? && IsSpace(c) ==> Words([c] + t, word, quote) == Prepend(Flush(word), Words(t, None, None))
    ensures quote.None? && c == '#' && word.None? ==> Words([c] + t, word, quote) == Some([])
    ensures (quote.None? || quote == Some('\"')) && c == '$' ==> Words([c] + t, word, quote).None?
  {
    assert ([c] + t)[1..] == t;
  }

  lemma ReadsEscape(c: char, t: string, word: Option<string>, quote: Option<char>)
    requires quote.None? || quote == Some('\"')
    ensures Escapable(c) ==> Words(['\\', c] + t, word, quote) == Words(t, Push(word, c), quote)
    ensures !Escapable(c) ==> Words(['\\', c] + t, word, quote).None?
    ensures Words("\\", word, quote).None?
  {
    assert (['\\', c] + t)[2..] == t;
  }

  lemma {:induction false} PlainRuns(w: string, t: string, done: Option<string>)
    requires w != "" && forall k | 0 <= k < |w| :: PlainChar(w[k])
    ensures Words(w + t, done, None) == Words(t, Some(Started(done) + w), None)
    decreases |w|
  {
    hide Words, PlainChar;
    assert w + t == [w[0]] + (w[1..] + t);
    ReadsChar(w[0], w[1..] + t, done, None);
    if |w| == 1 {
      assert w[1..] + t == t && w == [w[0]];
    } else {
      PlainRuns(w[1..], t, Push(done, w[0]));
      assert Started(done) + [w[0]] + w[1..] == Started(done) + w;
    }
  }

  lemma {:induction false} DoubleRuns(w: string, t: string, done: string)
    ensures Words(DoubleText(w) + ("\"" + t), Some(done), Some('\"')) == Words(t, Some(done + w), None)
    decreases |w|
  {
    if w == "" {
      assert DoubleText(w) + ("\"" + t) == "\"" + t && done + w == done;
      ReadsChar('\"', t, Some(done), Some('\"'));
    } else {
      var head := if NeedsEscape(w[0]) then ['\\', w[0]] else [w[0]];
      assert DoubleText(w) == head + DoubleText(w[1..]);
      var tail := DoubleText(w[1..]) + ("\"" + t);
      DoubleRuns(w[1..], t, done + [w[0]]);
      hide Words, DoubleText;
      Joined(head, DoubleText(w[1..]), "\"" + t);
      ReadsEscape(w[0], tail, Some(done), Some('\"'));
      ReadsChar(w[0], tail, Some(done), Some('\"'));
      assert done + [w[0]] + w[1..] == done + w;
    }
  }

  lemma PartRuns(p: Part, t: string, done: Option<string>)
    requires GoodPart(p)
    ensures Words(PartText(p) + t, done, None) == Words(t, Some(Started(done) + PartWord(p)), None)
  {
    hide Words, DoubleText, Escaped, PlainChar;
    match p
    case Plain(w) => PlainRuns(w, t, done);
    case Single(w) =>
      assert Quoted(w) + t == "'" + (Escaped(w) + "'" + t);
      ReadsChar('\'', Escaped(w) + "'" + t, done, None);
      ReadsQuoted(w, t, Started(done));
    case Double(w) =>
      assert "\"" + (DoubleText(w) + "\"") + t == "\"" + (DoubleText(w) + ("\"" + t));
      ReadsChar('\"', DoubleText(w) + ("\"" + t), done, None);
      DoubleRuns(w, t, Started(done));
    case Esc(c) => ReadsEscape(c, t, done, None);
  }

  lemma {:induction false} PartsRun(ps: seq<Part>, t: string, done: Option<string>)
    requires GoodWord(ps)
    ensures Words(PartsText(ps) + t, done, None) == Words(t, Some(Started(done) + PartsWord(ps)), None)
    decreases |ps|
  {
    hide Words, PartText, PartWord, GoodPart;
    Joined(PartText(ps[0]), PartsText(ps[1..]), t);
    PartRuns(ps[0], PartsText(ps[1..]) + t, done);
    if |ps| == 1 {
      assert ps[1..] == [] && PartsText(ps[1..]) + t == t && PartsWord(ps) == PartWord(ps[0]) + "" == PartWord(ps[0]);
    } else {
      PartsRun(ps[1..], t, Some(Started(done) + PartWord(ps[0])));
      Joined(Started(done), PartWord(ps[0]), PartsWord(ps[1..]));
    }
  }

  // --------------------------------------------------------------------------- words

  /** `t` ends a word that is pending, if any, and gives `r` by itself. */
  ghost predicate EndsWord(t: string, r: Option<seq<string>>) {
    forall done :: Words(t, done, None) == Prepend(Flush(done), r)
  }

  lemma EndOfText()
    ensures EndsWord("", Some([]))
  {
    forall done: Option<string>
      ensures Words("", done, None) == Prepend(Flush(done), Some([]))
    {
      assert Flush(done) + [] == Flush(done);
    }
  }

  lemma BlankEnds(blank: char, t: string)
    requires IsSpace(blank)
    ensures EndsWord([blank] + t, Words(t, None, None))
  {
    forall done: Option<string>
      ensures Words([blank] + t, done, None) == Prepend(Flush(done), Words(t, None, None))
    {
      ReadsChar(blank, t, done, None);
    }
  }

  /** Words with a blank before each are read one by one, whatever stands behind them. */
  lemma {:induction false} WordsRun(blank: char, wss: seq<seq<Part>>, t: string, r: Option<seq<string>>, done: Option<string>)
    requires IsSpace(blank) && GoodWords(wss) && EndsWord(t, r)
    ensures Words(WordsText(blank, wss) + t, done, None) == Prepend(Flush(done) + WordsMean(wss), r)
    decreases |wss|
  {
    if wss == [] {
      assert WordsText(blank, wss) + t == t && Flush(done) + [] == Flush(done);
    } else {
      var rest, first := WordsText(blank, wss[1..]) + t, PartsWord(wss[0]);
      assert WordsText(blank, wss) + t == [blank] + (PartsText(wss[0]) + rest);
      assert GoodWord(wss[0]) && "" + first == first;
      WordsRun(blank, wss[1..], t, r, Some(first));
      hide Words, PartsText, PartsWord, GoodWord, EndsWord, WordsText;
      ReadsChar(blank, PartsText(wss[0]) + rest, done, None);
      PartsRun(wss[0], rest, None);
      PrependTwice(Flush(done), [first] + WordsMean(wss[1..]), r);
    }
  }

  /** The words of a text come back as they are, and a comment behind a blank is left out. */
  lemma WordsComeBack(blank: char, wss: seq<seq<Part>>, comment: string)
    requires IsSpace(blank) && GoodWords(wss)
    ensures Words(WordsText(blank, wss), None, None) == Some(WordsMean(wss))
    ensures Words(WordsText(blank, wss) + ([blank] + ("#" + comment)), None, None) == Some(WordsMean(wss))
  {
    hide Words, WordsText, WordsMean, EndsWord;
    EndOfText();
    WordsRun(blank, wss, "", Some([]), None);
    assert WordsText(blank, wss) + "" == WordsText(blank, wss);
    ReadsChar('#', comment, None, None);
    BlankEnds(blank, "#" + comment);
    WordsRun(blank, wss, [blank] + ("#" + comment), Some([]), None);
    assert [] + WordsMean(wss) + [] == WordsMean(wss);
  }

  // -------------------------------------------------------------------------- refusals

  /**
   What is refused wherever it stands outside quotes: a `$`, a backslash before a character it
   cannot escape or at the end, and a quote that is never closed.
   */
  ghost predicate Refusable(t: string) {
    || (t != "" && t[0] == '$')
    || t == "\\" || (|t| > 1 && t[0] == '\\' && !Escapable(t[1]))
    || (exists w :: t == "'" + Escaped(w)) || (exists w :: t == "\"" + DoubleText(w))
  }

  lemma {:induction false} OpenSingle(w: string, done: string)
    ensures Words(Escaped(w), Some(done), Some('\'')).None?
  {
    if w != "" {
      OpenSingle(w[1..], done + [w[0]]);
      if w[0] == '\\' || w[0] == '\'' {
        assert Escaped(w)[2..] == Escaped(w[1..]);
      } else {
        assert Escaped(w)[1..] == Escaped(w[1..]);
      }
    }
  }

  lemma {:induction false} OpenDouble(w: string, done: string)
    ensures Words(DoubleText(w), Some(done), Some('\"')).None?
  {
    if w != "" {
      OpenDouble(w[1..], done + [w[0]]);
      if NeedsEscape(w[0]) {
        assert DoubleText(w) == ['\\', w[0]] + DoubleText(w[1..]);
        ReadsEscape(w[0], DoubleText(w[1..]), Some(done), Some('\"'));
      } else {
        ReadsChar(w[0], DoubleText(w[1..]), Some(done), Some('\"'));
      }
    }
  }

  lemma Refuses(t: string, word: Option<string>)
    requires Refusable(t)
    ensures Words(t, word, None).None?
  {
    if t != "" && t[0] == '$' {
      assert t == [t[0]] + t[1..];
      ReadsChar('$', t[1..], word, None);
    } else if t == "\\" {
      ReadsEscape('a', "", word, None);
    } else if |t| > 1 && t[0] == '\\' && !Escapable(t[1]) {
      assert t == [t[0], t[1]] + t[2..];
      ReadsEscape(t[1], t[2..], word, None);
    } else if w :| t == "'" + Escaped(w) {
      ReadsChar('\'', Escaped(w), word, None);
      OpenSingle(w, Started(word));
    } else {
      var w :| t == "\"" + DoubleText(w);
      ReadsChar('\"', DoubleText(w), word, None);
      OpenDouble(w, Started(word));
    }
  }

  /** A text is refused as a whole when one of these stands behind any words. */
  lemma RefusedAnywhere(blank: char, wss: seq<seq<Part>>, t: string)
    requires IsSpace(blank) && GoodWords(wss) && Refusable(t)
    ensures Words(WordsText(blank, wss) + ([blank] + t), None, None).None?
  {
    Refuses(t, None);
    BlankEnds(blank, t);
    WordsRun(blank, wss, [blank] + t, None, None);
  }
}
