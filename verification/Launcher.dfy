/**
 What program an argv launches (crates/core/src/shell_deny.rs): assignments, wrappers and their
 options are read over, and `env -S` strings are expanded in place until a program is found.
 */
module Launcher {
  import opened Common
  import opened EnvSplit

  type Argv = seq<string>

  /** A launcher with the letters and long names of its options that take a value. */
  datatype Wrapper = Wrapper(name: string, shorts: string, longs: seq<string>)

  const WRAPPERS: seq<Wrapper> := [
    Wrapper("command", "", []),
    Wrapper("exec", "a", []),
    Wrapper("env", "uCSPa", ["unset", "chdir", "split-string", "argv0"]),
    Wrapper("nohup", "", []),
    Wrapper("time", "fo", ["format", "output"]),
    Wrapper("nice", "n", ["adjustment"]),
    Wrapper("timeout", "sk", ["signal", "kill-after"]),
    Wrapper("stdbuf", "ioe", ["input", "output", "error"]),
    Wrapper("ionice", "cn", ["class", "classdata"]),
    Wrapper("chrt", "", []),
    Wrapper("taskset", "", []),
    Wrapper("setsid", "", []),
    Wrapper("unbuffer", "", [])
  ]

  const VALUE_OPERAND_WRAPPERS: seq<string> := ["timeout", "taskset", "chrt"]

  // ------------------------------------------------------------------------ names

  function LowerChar(c: char): char { if 'A' <= c <= 'Z' then (c as int + 32) as char else c }

  function Lower(s: string): string { seq(|s|, i requires 0 <= i < |s| => LowerChar(s[i])) }

  predicate SameName(a: string, b: string) { Lower(a) == Lower(b) }

  predicate EndsWith(s: string, t: string) { |t| <= |s| && s[|s| - |t|..] == t }

  function Basename(t: string): string {
    if t == "" then ""
    else
      var n := |t| - 1;
      if t[n] == '/' || t[n] == '\\' then "" else Basename(t[..n]) + [t[n]]
  }

  function TrimEnd(s: string): string {
    if s != "" && (s[|s| - 1] == ' ' || s[|s| - 1] == '.') then TrimEnd(s[..|s| - 1]) else s
  }

  function StripDataStream(s: string): string {
    if EndsWith(Lower(s), "::$data") then s[..|s| - 7] else s
  }

  function NormalizedBasename(t: string): string {
    TrimEnd(StripDataStream(TrimEnd(StripDataStream(TrimEnd(Basename(t))))))
  }

  predicate HasWinExt(s: string) {
    var l := Lower(s);
    EndsWith(l, ".exe") || EndsWith(l, ".com") || EndsWith(l, ".bat") || EndsWith(l, ".cmd")
  }

  function StripWinExt(s: string): string {
    if |s| > 4 && HasWinExt(s) then s[..|s| - 4] else s
  }

  /** The first wrapper from place `i` of the table on with this name. */
  function FindWrapper(stem: string, i: nat): Option<Wrapper>
    decreases |WRAPPERS| - i
  {
    if i >= |WRAPPERS| then None
    else if SameName(stem, WRAPPERS[i].name) then Some(WRAPPERS[i])
    else FindWrapper(stem, i + 1)
  }

  function ShellWrapper(token: string): Option<Wrapper> {
    FindWrapper(StripWinExt(NormalizedBasename(token)), 0)
  }

  function IndexOf(s: string, c: char): (r: Option<nat>)
    ensures r.Some? ==> r.value < |s| && s[r.value] == c
  {
    if s == "" then None
    else if s[0] == c then Some(0)
    else match IndexOf(s[1..], c) case None => None case Some(i) => Some(i + 1)
  }

  predicate IsLetter(c: char) { 'a' <= c <= 'z' || 'A' <= c <= 'Z' }

  predicate IsDigit(c: char) { '0' <= c <= '9' }

  predicate IsEnvAssignment(word: string) {
    match IndexOf(word, '=')
    case None => false
    case Some(n) =>
      && n > 0 && (word[0] == '_' || IsLetter(word[0]))
      && forall i | 1 <= i < n :: word[i] == '_' || IsLetter(word[i]) || IsDigit(word[i])
  }

  // ---------------------------------------------------------------------- options

  /** A value option: its letter or long name, and its value. */
  datatype Hit = Hit(key: string, value: Option<string>)

  /** The first letter of a short cluster that takes a value, with what is glued to it. */
  function ShortHit(body: string, shorts: string): Option<Hit> {
    if body == "" then None
    else if body[0] in shorts then Some(Hit([body[0]], if |body| > 1 then Some(body[1..]) else None))
    else ShortHit(body[1..], shorts)
  }

  function Prefixed(name: string, longs: seq<string>): seq<string> {
    if longs == [] then []
    else (if name != "" && name <= longs[0] then [longs[0]] else []) + Prefixed(name, longs[1..])
  }

  /** `--name[=value]` by exact or unique-prefix name. */
  function LongHit(long: string, longs: seq<string>): Option<Hit> {
    var eq := IndexOf(long, '=');
    var name := if eq.Some? then long[..eq.value] else long;
    var inline := if eq.Some? then Some(long[eq.value + 1..]) else None;
    if name in longs then Some(Hit(name, inline))
    else if |Prefixed(name, longs)| == 1 then Some(Hit(Prefixed(name, longs)[0], inline))
    else None
  }

  function TokenHit(token: string, shorts: string, longs: seq<string>): Option<Hit> {
    if "--" <= token then LongHit(token[2..], longs)
    else ShortHit(if "-" <= token then token[1..] else token, shorts)
  }

  /** `wrapper_option`: the value option at `index`, if any, and the index after it. */
  function WrapperOption(argv: Argv, index: nat, shorts: string, longs: seq<string>): (Option<Hit>, nat)
    requires index < |argv|
  {
    match TokenHit(argv[index], shorts, longs)
    case None => (None, index + 1)
    case Some(Hit(key, None)) =>
      (Some(Hit(key, if index + 1 < |argv| then Some(argv[index + 1]) else None)), index + 2)
    case Some(hit) => (Some(hit), index + 1)
  }

  // --------------------------------------------------------------- launched program

  datatype Launched = At(index: nat) | SplitString(expanded: Argv) | Nothing | Unparseable

  predicate IsSplitString(hit: Option<Hit>) {
    hit.Some? && hit.value.value.Some? && (hit.value.key == "S" || hit.value.key == "split-string")
  }

  predicate NumericOperand(token: string) {
    token != "" && IsDigit(token[0]) && '/' !in token && '\\' !in token
  }

  /** Reading on at `index`, under the last wrapper seen; `operand` when it still wants a value. */
  function ProgramFrom(argv: Argv, index: nat, wrapper: Option<Wrapper>, operand: bool): Launched
    decreases |argv| - index
  {
    if index >= |argv| then Nothing
    else
      var token := argv[index];
      if IsEnvAssignment(token) then ProgramFrom(argv, index + 1, wrapper, operand)
      else if ShellWrapper(token).Some? then
        var found := ShellWrapper(token).value;
        ProgramFrom(argv, index + 1, Some(found), found.name in VALUE_OPERAND_WRAPPERS)
      else if wrapper.None? then At(index)
      else if "-" <= token then
        var (hit, next) := WrapperOption(argv, index, wrapper.value.shorts, wrapper.value.longs);
        if IsSplitString(hit) then
          match Words(hit.value.value.value, None, None)
          case None => Unparseable
          case Some(words) => SplitString(argv[..index] + words + argv[next..])
        else ProgramFrom(argv, next, wrapper, operand)
      else if operand || (wrapper.value.name in VALUE_OPERAND_WRAPPERS && NumericOperand(token)) then
        ProgramFrom(argv, index + 1, wrapper, false)
      else At(index)
  }

  function Program(argv: Argv): Launched { ProgramFrom(argv, 0, None, false) }

  method LaunchedProgram(argv: Argv) returns (r: Launched)
    ensures r == Program(argv)
  {
    hide ShellWrapper, IsEnvAssignment, TokenHit, Words;
    var wrapper: Option<Wrapper> := None;
    var operand := false;
    var index := 0;
    while index < |argv|
      invariant ProgramFrom(argv, index, wrapper, operand) == Program(argv)
      decreases |argv| - index
    {
      var token := argv[index];
      if IsEnvAssignment(token) {
        index := index + 1;
        continue;
      }
      var found := ShellWrapper(token);
      if found.Some? {
        wrapper := found;
        operand := found.value.name in VALUE_OPERAND_WRAPPERS;
        index := index + 1;
        continue;
      }
      if wrapper.None? {
        return At(index);
      }
      if "-" <= token {
        var (hit, next) := WrapperOption(argv, index, wrapper.value.shorts, wrapper.value.longs);
        if IsSplitString(hit) {
          var words := SplitEnvWords(hit.value.value.value);
          if words.None? {
            return Unparseable;
          }
          return SplitString(argv[..index] + words.value + argv[next..]);
        }
        index := next;
        continue;
      }
      if operand || (wrapper.value.name in VALUE_OPERAND_WRAPPERS && NumericOperand(token)) {
        operand := false;
        index := index + 1;
        continue;
      }
      return At(index);
    }
    r := Nothing;
  }

  // ------------------------------------------------------------------- termination

  lemma {:induction false} ShortValueIsShorter(body: string, shorts: string)
    ensures var hit := ShortHit(body, shorts);
      hit.Some? && hit.value.value.Some? ==> |hit.value.value.value| < |body|
  {
    if body != "" && body[0] !in shorts {
      ShortValueIsShorter(body[1..], shorts);
    }
  }

  /** A glued value is at least two characters shorter than its token. */
  lemma GluedValueIsShorter(token: string, shorts: string, longs: seq<string>)
    requires "-" <= token
    ensures var hit := TokenHit(token, shorts, longs);
      hit.Some? && hit.value.value.Some? ==> |hit.value.value.value| + 2 <= |token|
  {
    ShortValueIsShorter(token[1..], shorts);
  }

  lemma WeightOfPart(argv: Argv, i: nat, j: nat)
    requires i < j <= |argv|
    ensures Weight(argv) == Weight(argv[..i]) + Weight(argv[i..j]) + Weight(argv[j..])
    ensures Weight(argv[i..j]) == |argv[i]| + 1 + Weight(argv[i + 1..j])
  {
    WeightConcat(argv[..i] + argv[i..j], argv[j..]);
    WeightConcat(argv[..i], argv[i..j]);
    assert argv == argv[..i] + argv[i..j] + argv[j..];
    assert argv[i..j][1..] == argv[i + 1..j];
  }

  /** One expansion of an `env -S` string weighs less than the option it replaces. */
  lemma ExpansionIsLighter(argv: Argv, index: nat, shorts: string, longs: seq<string>)
    requires index < |argv| && "-" <= argv[index]
    requires IsSplitString(WrapperOption(argv, index, shorts, longs).0)
    ensures WrapperOption(argv, index, shorts, longs).1 <= |argv|
    ensures var (hit, next) := WrapperOption(argv, index, shorts, longs);
      var words := Words(hit.value.value.value, None, None);
      words.Some? ==> Weight(argv[..index] + words.value + argv[next..]) < Weight(argv)
  {
    hide Words, TokenHit;
    var (hit, next) := WrapperOption(argv, index, shorts, longs);
    var value := hit.value.value.value;
    var words := Words(value, None, None);
    GluedValueIsShorter(argv[index], shorts, longs);
    WeightOfPart(argv, index, next);
    if next == index + 2 {
      assert argv[index + 1..next] == [value];
      assert [value][1..] == [];
    }
    if words.Some? {
      WordsWeight(value, None, None);
      WeightConcat(argv[..index] + words.value, argv[next..]);
      WeightConcat(argv[..index], words.value);
    }
  }

  /** What one pass over the argv can say, whatever it had read before. */
  lemma {:induction false} ProgramFromFacts(argv: Argv, index: nat, wrapper: Option<Wrapper>, operand: bool)
    ensures match ProgramFrom(argv, index, wrapper, operand)
      case At(k) => index <= k < |argv| && !IsEnvAssignment(argv[k]) && ShellWrapper(argv[k]).None?
      case SplitString(e) => Weight(e) < Weight(argv)
      case _ => true
    decreases |argv| - index
  {
    hide ShellWrapper, IsEnvAssignment, WrapperOption, Words, IsSplitString, Weight;
    if index < |argv| {
      var token := argv[index];
      if IsEnvAssignment(token) {
        ProgramFromFacts(argv, index + 1, wrapper, operand);
      } else if ShellWrapper(token).Some? {
        var found := ShellWrapper(token).value;
        ProgramFromFacts(argv, index + 1, Some(found), found.name in VALUE_OPERAND_WRAPPERS);
      } else if wrapper.Some? && "-" <= token {
        var (hit, next) := WrapperOption(argv, index, wrapper.value.shorts, wrapper.value.longs);
        OptionAdvances(argv, index, wrapper.value.shorts, wrapper.value.longs);
        if IsSplitString(hit) {
          ExpansionIsLighter(argv, index, wrapper.value.shorts, wrapper.value.longs);
        } else {
          ProgramFromFacts(argv, next, wrapper, operand);
        }
      } else if wrapper.Some? {
        ProgramFromFacts(argv, index + 1, wrapper, false);
      }
    }
  }

  lemma OptionAdvances(argv: Argv, index: nat, shorts: string, longs: seq<string>)
    requires index < |argv|
    ensures index < WrapperOption(argv, index, shorts, longs).1
  {
  }

  /** The expansion loop ends: every round weighs less, also when the string holds another `-S`. */
  function LaunchedOf(argv: Argv): Option<Argv>
    decreases Weight(argv)
  {
    ProgramFromFacts(argv, 0, None, false);
    match Program(argv)
    case At(k) => Some(argv[k..])
    case SplitString(e) => LaunchedOf(e)
    case Nothing => Some([])
    case Unparseable => None
  }

  method LaunchedLoop(start: Argv) returns (r: Option<Argv>)
    ensures r == LaunchedOf(start)
  {
    var argv := start;
    while true
      invariant LaunchedOf(argv) == LaunchedOf(start)
      decreases Weight(argv)
    {
      hide ProgramFrom;
      ProgramFromFacts(argv, 0, None, false);
      var step := LaunchedProgram(argv);
      match step
      case At(k) => return Some(argv[k..]);
      case SplitString(e) => argv := e;
      case Nothing => return Some([]);
      case Unparseable => return None;
    }
  }

  function LaunchedArgv(argv: Argv): Argv {
    var r := LaunchedOf(argv);
    if r.Some? then r.value else []
  }

  /** The result is empty or starts with a word that is neither an assignment nor a wrapper. */
  lemma {:induction false} LaunchedHead(argv: Argv)
    ensures var r := LaunchedArgv(argv);
      r == [] || (!IsEnvAssignment(r[0]) && ShellWrapper(r[0]).None?)
    decreases Weight(argv)
  {
    hide ProgramFrom, ShellWrapper, IsEnvAssignment;
    ProgramFromFacts(argv, 0, None, false);
    match Program(argv)
    case SplitString(e) => LaunchedHead(e);
    case _ =>
  }

  /** Without a split string the result is the end of the argv. */
  lemma LaunchedIsSuffix(argv: Argv)
    requires !Program(argv).SplitString?
    ensures |LaunchedArgv(argv)| <= |argv| && LaunchedArgv(argv) == argv[|argv| - |LaunchedArgv(argv)|..]
  {
    hide ProgramFrom;
    ProgramFromFacts(argv, 0, None, false);
  }

  lemma LaunchedIsIdempotent(argv: Argv)
    ensures LaunchedArgv(LaunchedArgv(argv)) == LaunchedArgv(argv)
  {
    LaunchedHead(argv);
    var r := LaunchedArgv(argv);
    hide ShellWrapper, IsEnvAssignment, LaunchedArgv;
    if r == [] {
      assert Program(r) == Nothing;
    } else {
      assert Program(r) == At(0);
      assert r[0..] == r;
    }
    PlainArgvStays(r);
  }

  lemma PlainArgvStays(r: Argv)
    requires Program(r) == if r == [] then Nothing else At(0)
    ensures LaunchedArgv(r) == r
  {
    assert r[0..] == r;
  }
}
