/**
 `unwrap_launchers` of crates/core/src/os_guard.rs: escalators, wrappers and a busybox prefix
 are peeled off an argv until its head is stable. The working directory it tracks on the way is
 not modelled; the prefix it slices off to look for a `chdir` option is, because that slice
 fails when a round leaves more words than it took.
 */
module Unwrap {
  import opened Common
  import opened EnvSplit
  import opened Launcher

  const ESCALATORS: seq<Wrapper> := [
    Wrapper("sudo", "aCcDgpRrTtUu",
      ["chdir", "chroot", "close-from", "command-timeout", "group", "host", "other-user", "prompt", "role", "type", "user"]),
    Wrapper("doas", "Cu", []),
    Wrapper("su", "cgGsw", ["command", "group", "session-command", "shell", "supp-group", "whitelist-environment"]),
    Wrapper("pkexec", "", ["user"]),
    Wrapper("run0", "Dgu",
      ["background", "chdir", "description", "group", "machine", "nice", "property", "setenv", "slice", "unit", "user"]),
    Wrapper("chroot", "", ["groups", "userspec"])
  ]

  const DESTRUCTIVE: seq<string> := [
    "rm", "rmdir", "unlink", "shred", "srm", "del", "erase", "rd", "remove-item", "ri", "wipefs", "dd", "format", "cipher"
  ]

  function CommandBasename(token: string): string {
    var lower := Lower(TrimEnd(Basename(token)));
    if HasWinExt(lower) then lower[..|lower| - 4] else lower
  }

  predicate IsDestructive(name: string) { name in DESTRUCTIVE || "mkfs" <= name }

  /** The first escalator from place `i` of the table on with this name. */
  function Escalator(head: string, i: nat): Option<Wrapper>
    decreases |ESCALATORS| - i
  {
    if i >= |ESCALATORS| then None
    else if ESCALATORS[i].name == head then Some(ESCALATORS[i])
    else Escalator(head, i + 1)
  }

  /** `su`'s command line, wherever its option sits before `--`. */
  function SuCommand(argv: Argv, i: nat, su: Wrapper): Option<string>
    decreases |argv| - i
  {
    if i >= |argv| || argv[i] == "--" then None
    else if !("-" <= argv[i]) then SuCommand(argv, i + 1, su)
    else
      var (hit, next) := WrapperOption(argv, i, su.shorts, su.longs);
      if hit.Some? && hit.value.value.Some? && hit.value.key in ["c", "command", "session-command"]
      then Some(hit.value.value.value)
      else SuCommand(argv, next, su)
  }

  /** The index after an escalator's options. */
  function AfterOptions(argv: Argv, i: nat, w: Wrapper): (r: nat)
    ensures i <= r
    decreases |argv| - i
  {
    if i >= |argv| then i
    else if argv[i] == "--" then i + 1
    else if !("-" <= argv[i]) then i
    else AfterOptions(argv, WrapperOption(argv, i, w.shorts, w.longs).1, w)
  }

  datatype Unwrapped = Argv(argv: Argv) | Line(line: string)

  /** One escalator peeled off. */
  function StripEscalator(argv: Argv): (r: Option<Unwrapped>)
    ensures r.Some? && r.value.Argv? ==>
              |r.value.argv| < |argv| && r.value.argv == argv[|argv| - |r.value.argv|..]
  {
    if argv == [] then None else
    match Escalator(CommandBasename(argv[0]), 0)
    case None => None
    case Some(w) =>
      var line := if w.name == "su" then SuCommand(argv, 1, w) else None;
      if line.Some? then Some(Line(line.value)) else
      var i := AfterOptions(argv, 1, w);
      var skip := w.name == "chroot" ||
                  (w.name == "su" && i < |argv| && !IsDestructive(CommandBasename(argv[i])));
      Some(Argv(argv[Min(if skip then i + 1 else i, |argv|)..]))
  }

  predicate IsBusybox(argv: Argv) {
    |argv| > 1 && CommandBasename(argv[0]) == "busybox" && !("-" <= argv[1])
  }

  /** `Overrun`: the prefix `real[..real.len() - launched.len()]` would start before the argv. */
  datatype Outcome = Ready(unwrapped: Unwrapped) | Overrun

  lemma {:induction false} SuffixIsLighter(argv: Argv, k: nat)
    requires 0 < k <= |argv|
    ensures Weight(argv[k..]) < Weight(argv)
  {
    WeightOfPart(argv, 0, k);
    assert argv[..0] == [];
  }

  /** A launched argv that is not the argv itself weighs less. */
  lemma {:induction false} LaunchedIsLighter(argv: Argv)
    ensures LaunchedArgv(argv) == argv || Weight(LaunchedArgv(argv)) < Weight(argv)
    decreases Weight(argv)
  {
    assert ProgramFrom([], 0, None, false) == Nothing;
    hide ProgramFrom;
    ProgramFromFacts(argv, 0, None, false);
    match Program(argv)
    case At(k) =>
      if k > 0 {
        SuffixIsLighter(argv, k);
      } else {
        assert argv[0..] == argv;
      }
    case SplitString(e) => LaunchedIsLighter(e);
    case _ =>
      if argv != [] {
        SuffixIsLighter(argv, |argv|);
        assert argv[|argv|..] == [];
      }
  }

  /** The peeling loop. It ends because every round weighs less, although it may add words. */
  function UnwrapFrom(argv: Argv): Outcome
    decreases Weight(argv)
  {
    match StripEscalator(argv)
    case Some(Line(l)) => Ready(Line(l))
    case Some(Argv(rest)) =>
      SuffixIsLighter(argv, |argv| - |rest|);
      UnwrapFrom(rest)
    case None =>
      if IsBusybox(argv) then
        SuffixIsLighter(argv, 1);
        UnwrapFrom(argv[1..])
      else
        var launched := LaunchedArgv(argv);
        if launched == [] || launched == argv then Ready(Argv(argv))
        else if |launched| > |argv| then Overrun
        else
          LaunchedIsLighter(argv);
          UnwrapFrom(launched)
  }

  // ---------------------------------------------------------- when the slice fails

  /** A round that gets as far as looking for the launched program. */
  predicate LooksForProgram(argv: Argv) { StripEscalator(argv).None? && !IsBusybox(argv) && LaunchedArgv(argv) != [] }

  /** The slice of a round fails: the launched program has more words than the round started with. */
  predicate Grows(argv: Argv) { LooksForProgram(argv) && |LaunchedArgv(argv)| > |argv| }

  /** One round of peeling that goes on to another. */
  predicate Peels(argv: Argv, next: Argv) {
    || StripEscalator(argv) == Some(Argv(next))
    || (StripEscalator(argv).None? && IsBusybox(argv) && argv != [] && next == argv[1..])
    || (LooksForProgram(argv) && next == LaunchedArgv(argv) && next != argv && |next| <= |argv|)
  }

  ghost predicate PeelsTo(rounds: seq<Argv>, last: Argv) {
    && rounds != [] && rounds[|rounds| - 1] == last
    && forall k | 0 <= k < |rounds| - 1 :: Peels(rounds[k], rounds[k + 1])
  }

  lemma PeelIsARound(argv: Argv, next: Argv)
    requires Peels(argv, next)
    ensures UnwrapFrom(argv) == UnwrapFrom(next) && Weight(next) < Weight(argv)
  {
    hide StripEscalator, IsBusybox, LaunchedArgv, Weight;
    if StripEscalator(argv) == Some(Argv(next)) {
      SuffixIsLighter(argv, |argv| - |next|);
    } else if IsBusybox(argv) && next == argv[1..] {
      SuffixIsLighter(argv, 1);
    } else {
      LaunchedIsLighter(argv);
    }
  }

  /** The rounds that go on to no other. */
  lemma StopsHere(argv: Argv)
    ensures StripEscalator(argv).Some? && StripEscalator(argv).value.Line? ==>
              UnwrapFrom(argv) == Ready(StripEscalator(argv).value)
    ensures StripEscalator(argv).None? && !IsBusybox(argv) && (LaunchedArgv(argv) == [] || LaunchedArgv(argv) == argv) ==>
              UnwrapFrom(argv) == Ready(Argv(argv))
    ensures Grows(argv) ==> UnwrapFrom(argv) == Overrun
  {
    hide StripEscalator, IsBusybox, LaunchedArgv;
  }

  method UnwrapLaunchers(argv: Argv) returns (r: Outcome)
    ensures r == UnwrapFrom(argv)
  {
    hide UnwrapFrom, StripEscalator, IsBusybox, LaunchedOf, Weight, ProgramFrom;
    var current := argv;
    while true
      invariant UnwrapFrom(current) == UnwrapFrom(argv)
      decreases Weight(current)
    {
      var step := StripEscalator(current);
      if step.Some? {
        if step.value.Line? {
          StopsHere(current);
          return Ready(step.value);
        }
        PeelIsARound(current, step.value.argv);
        current := step.value.argv;
        continue;
      }
      if IsBusybox(current) {
        BusyboxHasMore(current);
        PeelIsARound(current, current[1..]);
        current := current[1..];
        continue;
      }
      var found := LaunchedLoop(current);
      var launched := if found.Some? then found.value else [];
      if launched == [] || launched == current {
        StopsHere(current);
        return Ready(Argv(current));
      }
      if |launched| > |current| {
        StopsHere(current);
        return Overrun;
      }
      PeelIsARound(current, launched);
      current := launched;
    }
  }

  /** Peeling goes on until its head is stable: what it leaves cannot be peeled again. */
  lemma {:induction false} PeelsUntilStable(argv: Argv)
    ensures UnwrapFrom(argv).Ready? && UnwrapFrom(argv).unwrapped.Argv? ==>
              var r := UnwrapFrom(argv).unwrapped.argv;
              StripEscalator(r).None? && !IsBusybox(r) && (LaunchedArgv(r) == [] || LaunchedArgv(r) == r)
    decreases Weight(argv)
  {
    hide UnwrapFrom, StripEscalator, IsBusybox, LaunchedArgv, Weight;
    StopsHere(argv);
    if StripEscalator(argv).Some? && StripEscalator(argv).value.Argv? {
      PeelIsARound(argv, StripEscalator(argv).value.argv);
      PeelsUntilStable(StripEscalator(argv).value.argv);
    } else if StripEscalator(argv).None? && IsBusybox(argv) {
      BusyboxHasMore(argv);
      PeelIsARound(argv, argv[1..]);
      PeelsUntilStable(argv[1..]);
    } else if LooksForProgram(argv) && LaunchedArgv(argv) != argv && |LaunchedArgv(argv)| <= |argv| {
      PeelIsARound(argv, LaunchedArgv(argv));
      PeelsUntilStable(LaunchedArgv(argv));
    }
  }

  /** For every argv: peeling fails exactly when its rounds come to one whose launched program grows. */
  lemma {:induction false} OverrunIff(argv: Argv)
    ensures UnwrapFrom(argv) == Overrun <==> exists rounds, last :: PeelsTo(rounds, last) && rounds[0] == argv && Grows(last)
  {
    if UnwrapFrom(argv) == Overrun {
      var rounds, last := OverrunRounds(argv);
      assert PeelsTo(rounds, last);
    }
    forall rounds, last | PeelsTo(rounds, last) && rounds[0] == argv && Grows(last)
      ensures UnwrapFrom(argv) == Overrun
    {
      RoundsOverrun(rounds, last);
    }
  }

  lemma {:induction false} RoundsOverrun(rounds: seq<Argv>, last: Argv)
    requires PeelsTo(rounds, last) && Grows(last)
    ensures UnwrapFrom(rounds[0]) == Overrun
    decreases |rounds|
  {
    if |rounds| > 1 {
      hide Peels, Grows, UnwrapFrom;
      assert PeelsTo(rounds[1..], last);
      RoundsOverrun(rounds[1..], last);
      PeelIsARound(rounds[0], rounds[1]);
    }
  }

  lemma {:induction false} OverrunRounds(argv: Argv) returns (rounds: seq<Argv>, last: Argv)
    requires UnwrapFrom(argv) == Overrun
    ensures PeelsTo(rounds, last) && rounds[0] == argv && Grows(last)
    decreases Weight(argv)
  {
    if Grows(argv) {
      rounds, last := [argv], argv;
    } else {
      var next := NextRound(argv);
      PeelIsARound(argv, next);
      hide Peels, Grows, UnwrapFrom;
      rounds, last := OverrunRounds(next);
      rounds := [argv] + rounds;
    }
  }

  lemma NextRound(argv: Argv) returns (next: Argv)
    requires UnwrapFrom(argv) == Overrun && !Grows(argv)
    ensures Peels(argv, next)
  {
    hide StripEscalator, IsBusybox, LaunchedArgv, Weight;
    if StripEscalator(argv).Some? {
      next := StripEscalator(argv).value.argv;
    } else if IsBusybox(argv) {
      BusyboxHasMore(argv);
      next := argv[1..];
    } else {
      next := LaunchedArgv(argv);
    }
  }

  lemma BusyboxHasMore(argv: Argv)
    requires IsBusybox(argv)
    ensures |argv| > 1
  {
  }

  /** Words the split strings bring beyond the option words they replace. */
  function Gained(argv: Argv): int
    decreases Weight(argv)
  {
    ProgramFromFacts(argv, 0, None, false);
    match Program(argv)
    case SplitString(e) => |e| - |argv| + Gained(e)
    case _ => 0
  }

  /** Words in front of the program once every string is expanded. */
  function Skipped(argv: Argv): nat
    decreases Weight(argv)
  {
    ProgramFromFacts(argv, 0, None, false);
    match Program(argv)
    case At(k) => k
    case SplitString(e) => Skipped(e)
    case _ => |argv|
  }

  /**
   No word is lost or made up: what is launched is what was there, and what the split strings
   gained, less the launchers in front. So a round grows exactly when its strings gain more
   words than stand in front of its program.
   */
  lemma {:induction false} LaunchedLength(argv: Argv)
    requires LaunchedOf(argv).Some?
    ensures |LaunchedArgv(argv)| == |argv| + Gained(argv) - Skipped(argv)
    ensures Grows(argv) <==> LooksForProgram(argv) && Gained(argv) > Skipped(argv)
    decreases Weight(argv)
  {
    hide ProgramFrom, StripEscalator, IsBusybox;
    ProgramFromFacts(argv, 0, None, false);
    match Program(argv)
    case SplitString(e) => LaunchedLength(e);
    case _ =>
  }

  /** Nothing is left to peel: the head is a program and not a launcher. */
  predicate Stable(argv: Argv) {
    && argv != [] && StripEscalator(argv).None? && !IsBusybox(argv)
    && !IsEnvAssignment(argv[0]) && ShellWrapper(argv[0]).None?
  }

  /** A word `env` that runs `env`, and a word `flag` that is its `-S` with the string to follow. */
  predicate IsEnvSplit(env: string, flag: string) {
    && !IsEnvAssignment(env) && ShellWrapper(env).Some? && ShellWrapper(env).value.name !in VALUE_OPERAND_WRAPPERS
    && !IsEnvAssignment(flag) && ShellWrapper(flag).None? && "-" <= flag
    && var w := ShellWrapper(env).value; TokenHit(flag, w.shorts, w.longs) == Some(Hit("S", None))
  }

  lemma EnvSplitExpands(env: string, flag: string, s: string, ws: Argv, rest: Argv)
    requires IsEnvSplit(env, flag) && Words(s, None, None) == Some(ws)
    ensures Program([env, flag, s] + rest) == SplitString([env] + ws + rest)
  {
    hide ShellWrapper, IsEnvAssignment, TokenHit, Words;
    var argv, w := [env, flag, s] + rest, ShellWrapper(env);
    assert WrapperOption(argv, 1, w.value.shorts, w.value.longs) == (Some(Hit("S", Some(s))), 3);
    assert argv[..1] == [env] && argv[3..] == rest;
    assert Program(argv) == ProgramFrom(argv, 1, w, false);
  }

  lemma EnvThenProgram(env: string, flag: string, ws: Argv)
    requires IsEnvSplit(env, flag) && ws != []
    requires !IsEnvAssignment(ws[0]) && ShellWrapper(ws[0]).None? && !("-" <= ws[0])
    ensures Program([env] + ws) == At(1)
  {
    hide ShellWrapper, IsEnvAssignment, TokenHit;
    var argv := [env] + ws;
    assert argv[1] == ws[0];
    assert Program(argv) == ProgramFrom(argv, 1, ShellWrapper(env), false);
  }

  lemma LaunchedRound(argv: Argv)
    ensures Program(argv).SplitString? ==> LaunchedOf(argv) == LaunchedOf(Program(argv).expanded)
    ensures Program(argv).At? ==> Program(argv).index < |argv| && LaunchedOf(argv) == Some(argv[Program(argv).index..])
  {
    ProgramFromFacts(argv, 0, None, false);
  }

  /** `env -S STRING REST` launches the words of the string and then the rest. */
  lemma EnvSplitLaunches(env: string, flag: string, s: string, ws: Argv, rest: Argv)
    requires IsEnvSplit(env, flag) && Words(s, None, None) == Some(ws) && ws != []
    requires !IsEnvAssignment(ws[0]) && ShellWrapper(ws[0]).None? && !("-" <= ws[0])
    ensures LaunchedArgv([env, flag, s] + rest) == ws + rest
  {
    hide Program, LaunchedOf, ShellWrapper, IsEnvAssignment, Words, IsEnvSplit;
    EnvSplitExpands(env, flag, s, ws, rest);
    assert (ws + rest)[0] == ws[0];
    EnvThenProgram(env, flag, ws + rest);
    var e := [env] + ws + rest;
    assert e == [env] + (ws + rest) && e[1..] == ws + rest;
    LaunchedRound(e);
    LaunchedRound([env, flag, s] + rest);
  }

  lemma StableStays(argv: Argv)
    requires Stable(argv)
    ensures UnwrapFrom(argv) == Ready(Argv(argv))
  {
    assert Program(argv) == At(0);
    hide ProgramFrom, StripEscalator, IsBusybox, ShellWrapper, IsEnvAssignment;
    PlainArgvStays(argv);
  }

  /**
   Exactly when peeling `env -S STRING REST` fails: the string has more than three words, one
   more than the words it stands in for leave room for, or peeling what it launches fails. Where
   nothing is left to peel, that is more than three words.
   */
  lemma EnvSplitOverrunsIff(env: string, flag: string, s: string, ws: Argv, rest: Argv)
    requires IsEnvSplit(env, flag) && Words(s, None, None) == Some(ws)
    requires StripEscalator([env, flag, s] + rest).None? && !IsBusybox([env, flag, s] + rest)
    requires ws != [] && !IsEnvAssignment(ws[0]) && ShellWrapper(ws[0]).None? && !("-" <= ws[0])
    ensures UnwrapFrom([env, flag, s] + rest) == Overrun <==> |ws| > 3 || UnwrapFrom(ws + rest) == Overrun
    ensures |ws| <= 3 ==> UnwrapFrom([env, flag, s] + rest) == UnwrapFrom(ws + rest)
    ensures Stable(ws + rest) ==> (UnwrapFrom([env, flag, s] + rest) == Overrun <==> |ws| > 3)
  {
    EnvSplitLaunches(env, flag, s, ws, rest);
    var argv := [env, flag, s] + rest;
    assert argv[0] == env && (ws + rest)[0] == ws[0] && ShellWrapper(env) != ShellWrapper(ws[0]);
    hide LaunchedArgv, StripEscalator, IsBusybox, Words, ShellWrapper, UnwrapFrom, IsEnvAssignment;
    StopsHere(argv);
    if |ws| <= 3 {
      PeelIsARound(argv, ws + rest);
    }
    if Stable(ws + rest) {
      StableStays(ws + rest);
    }
  }

  /** Words no option parser can take for a split string. */
  predicate NoSplitOption(argv: Argv) {
    forall w | w in argv :: !("-" <= w && ('S' in w || 's' in w))
  }

  lemma {:induction false} ShortKey(body: string, shorts: string)
    ensures var hit := ShortHit(body, shorts);
      hit.Some? ==> hit.value.key != "split-string" && (hit.value.key == "S" ==> 'S' in body)
  {
    if body != "" && body[0] !in shorts {
      ShortKey(body[1..], shorts);
    }
  }

  lemma {:induction false} PrefixedNames(name: string, longs: seq<string>)
    ensures forall full | full in Prefixed(name, longs) :: name != "" && name <= full
  {
    if longs != [] {
      PrefixedNames(name, longs[1..]);
    }
  }

  lemma LongKey(long: string, longs: seq<string>)
    ensures var hit := LongHit(long, longs);
      hit.Some? && (hit.value.key == "S" || hit.value.key == "split-string") ==> 'S' in long || 's' in long
  {
    var eq := IndexOf(long, '=');
    var name := if eq.Some? then long[..eq.value] else long;
    PrefixedNames(name, longs);
    assert forall c | c in name :: c in long;
    var hit := LongHit(long, longs);
    if hit.Some? {
      var key := hit.value.key;
      assert name !in longs ==> key in Prefixed(name, longs);
      assert name <= key && (name == key || name != "");
      if key == "S" || key == "split-string" {
        assert name != "" && name[0] == key[0] && name[0] in name;
      }
    }
  }

  lemma SplitKeyNeedsS(token: string, shorts: string, longs: seq<string>)
    requires "-" <= token
    ensures var hit := TokenHit(token, shorts, longs);
      hit.Some? && (hit.value.key == "S" || hit.value.key == "split-string") ==> 'S' in token || 's' in token
  {
    ShortKey(token[1..], shorts);
    if "--" <= token {
      LongKey(token[2..], longs);
    }
  }

  lemma {:induction false} NoSplitProgram(argv: Argv, index: nat, wrapper: Option<Wrapper>, operand: bool)
    requires NoSplitOption(argv)
    ensures !ProgramFrom(argv, index, wrapper, operand).SplitString?
    decreases |argv| - index
  {
    hide ShellWrapper, IsEnvAssignment, TokenHit, Words;
    if index < |argv| {
      var token := argv[index];
      if IsEnvAssignment(token) {
        NoSplitProgram(argv, index + 1, wrapper, operand);
      } else if ShellWrapper(token).Some? {
        var found := ShellWrapper(token).value;
        NoSplitProgram(argv, index + 1, Some(found), found.name in VALUE_OPERAND_WRAPPERS);
      } else if wrapper.Some? && "-" <= token {
        SplitKeyNeedsS(token, wrapper.value.shorts, wrapper.value.longs);
        assert token in argv;
        NoSplitProgram(argv, WrapperOption(argv, index, wrapper.value.shorts, wrapper.value.longs).1, wrapper, operand);
      } else if wrapper.Some? {
        NoSplitProgram(argv, index + 1, wrapper, false);
      }
    }
  }

  /** Without a possible split string peeling never fails and only drops words in front. */
  lemma {:induction false} UnwrapWithoutSplit(argv: Argv)
    requires NoSplitOption(argv)
    ensures UnwrapFrom(argv).Ready?
    ensures UnwrapFrom(argv).unwrapped.Argv? ==>
              var r := UnwrapFrom(argv).unwrapped.argv; |r| <= |argv| && r == argv[|argv| - |r|..]
    decreases Weight(argv)
  {
    hide UnwrapFrom, StripEscalator, IsBusybox, LaunchedArgv, Weight, Program;
    var step := StripEscalator(argv);
    StopsHere(argv);
    if step.Some? {
      if step.value.Argv? {
        PeelIsARound(argv, step.value.argv);
        UnwrapSuffix(argv, step.value.argv);
      }
    } else if IsBusybox(argv) {
      BusyboxHasMore(argv);
      PeelIsARound(argv, argv[1..]);
      UnwrapSuffix(argv, argv[1..]);
    } else {
      SuffixOrSame(argv);
      var launched := LaunchedArgv(argv);
      if launched == [] || launched == argv {
        assert argv == argv[0..];
      } else {
        PeelIsARound(argv, launched);
        UnwrapSuffix(argv, launched);
      }
    }
  }

  lemma SuffixOrSame(argv: Argv)
    requires NoSplitOption(argv)
    ensures var r := LaunchedArgv(argv);
      |r| <= |argv| && r == argv[|argv| - |r|..] && (|r| < |argv| || r == argv)
  {
    hide LaunchedArgv, ProgramFrom;
    NoSplitProgram(argv, 0, None, false);
    LaunchedIsSuffix(argv);
    if |LaunchedArgv(argv)| == |argv| {
      assert argv[0..] == argv;
    }
  }

  lemma {:induction false} UnwrapSuffix(argv: Argv, rest: Argv)
    requires NoSplitOption(argv) && |rest| < |argv| && rest == argv[|argv| - |rest|..]
    ensures UnwrapFrom(rest).Ready?
    ensures UnwrapFrom(rest).unwrapped.Argv? ==>
              var r := UnwrapFrom(rest).unwrapped.argv; |r| <= |argv| && r == argv[|argv| - |r|..]
    decreases Weight(argv), 0
  {
    hide UnwrapFrom;
    SuffixIsLighter(argv, |argv| - |rest|);
    assert forall w | w in rest :: w in argv;
    UnwrapWithoutSplit(rest);
  }

  /** A short name without separators, dots or blanks is its own basename. */
  predicate PlainName(t: string) {
    t != "" && |t| < 4 && forall c | c in t :: c != '/' && c != '\\' && c != '.' && c != ' ' && c != '='
  }

  lemma {:induction false} BasenameOfPlain(t: string)
    requires '/' !in t && '\\' !in t
    ensures Basename(t) == t
  {
    if t != "" {
      BasenameOfPlain(t[..|t| - 1]);
      assert t == t[..|t| - 1] + [t[|t| - 1]] && t[|t| - 1] in t;
    }
  }

  lemma {:induction false} NoIndex(t: string, c: char)
    requires c !in t
    ensures IndexOf(t, c).None?
  {
    if t != "" {
      NoIndex(t[1..], c);
    }
  }

  lemma PlainNames(t: string)
    requires PlainName(t)
    ensures ShellWrapper(t) == FindWrapper(t, 0) && CommandBasename(t) == Lower(t) && !IsEnvAssignment(t)
  {
    BasenameOfPlain(t);
    NoIndex(t, '=');
    assert t[|t| - 1] in t;
    assert TrimEnd(t) == t && |Lower(t)| == |t|;
    assert StripDataStream(t) == t && StripWinExt(t) == t;
  }

  /** Every wrapper has a name of three letters or more. */
  lemma {:induction false} TooShortForAWrapper(t: string, i: nat)
    requires |t| < 3
    ensures FindWrapper(t, i).None?
    decreases |WRAPPERS| - i
  {
    if i < |WRAPPERS| {
      assert |WRAPPERS[i].name| >= 3;
      assert |Lower(t)| == |t| && |Lower(WRAPPERS[i].name)| == |WRAPPERS[i].name|;
      TooShortForAWrapper(t, i + 1);
    }
  }

  lemma FindsEnv()
    ensures FindWrapper("env", 0) == Some(WRAPPERS[2])
  {
    assert |Lower("env")| == 3 && |Lower("command")| == 7 && |Lower("exec")| == 4;
    assert FindWrapper("env", 2) == Some(WRAPPERS[2]);
    assert FindWrapper("env", 1) == FindWrapper("env", 2);
  }

  lemma EnvIsAWrapper()
    ensures !IsEnvAssignment("env") && ShellWrapper("env") == Some(WRAPPERS[2])
  {
    hide ShellWrapper, IsEnvAssignment, FindWrapper, CommandBasename, Lower;
    PlainNames("env");
    FindsEnv();
  }

  lemma SplitFlagIsAFlag()
    ensures !IsEnvAssignment("-S") && ShellWrapper("-S").None?
  {
    hide ShellWrapper, IsEnvAssignment, FindWrapper, CommandBasename, Lower;
    PlainNames("-S");
    TooShortForAWrapper("-S", 0);
  }

  lemma SplitFlagHits(longs: seq<string>)
    ensures TokenHit("-S", "uCSPa", longs) == Some(Hit("S", None))
  {
    assert "-S"[1..] == "S" && ShortHit("S", "uCSPa") == Some(Hit("S", None));
  }

  lemma EnvSplitWords()
    ensures IsEnvSplit("env", "-S")
  {
    hide ShellWrapper, IsEnvAssignment, TokenHit;
    EnvIsAWrapper();
    SplitFlagIsAFlag();
    SplitFlagHits(WRAPPERS[2].longs);
  }

  lemma PlainProgram(ws: Argv)
    requires ws != [] && ws[0] == "a"
    ensures Stable(ws) && !IsEnvAssignment(ws[0]) && ShellWrapper(ws[0]).None? && !("-" <= ws[0])
  {
    NotPeeled(ws);
    hide StripEscalator, IsBusybox, FindWrapper, ShellWrapper, IsEnvAssignment, CommandBasename, Lower;
    PlainNames("a");
    TooShortForAWrapper("a", 0);
  }

  lemma NotPeeled(argv: Argv)
    requires argv != [] && (argv[0] == "env" || argv[0] == "a")
    ensures StripEscalator(argv).None? && !IsBusybox(argv)
  {
    PlainNames(argv[0]);
    hide ShellWrapper, IsEnvAssignment, CommandBasename;
    assert Lower("env") == "env" && Lower("a") == "a";
    assert Escalator("env", 0).None? && Escalator("a", 0).None?;
  }

  /** The concrete case: four words in the string of a three-word argv. */
  lemma FourWordsOverrun()
    ensures UnwrapFrom(["env", "-S", Join(["a", "b", "c", "d"])]) == Overrun
  {
    hide Words, Join, StripEscalator, IsBusybox, IsEnvSplit, UnwrapFrom, Stable, IsEnvAssignment, ShellWrapper;
    var ws: Argv := ["a", "b", "c", "d"];
    var s := Join(ws);
    EnvSplitWords();
    SplitUndoesQuoting(ws);
    NotPeeled(["env", "-S", s]);
    PlainProgram(ws);
    assert ws + [] == ws && ["env", "-S", s] + [] == ["env", "-S", s];
    EnvSplitOverrunsIff("env", "-S", s, ws, []);
  }
}
