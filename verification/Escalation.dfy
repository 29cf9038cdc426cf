/**
 What peeling an escalator leaves (crates/core/src/os_guard.rs, 315-366), stated apart from the
 loops that skip its options: the words behind its options with their values, or the command line
 that `su` is given.
 */
module Escalation {
  import opened Common
  import opened Launcher
  import opened Unwrap
  import opened LaunchPrefix

  function HitOf(w: Wrapper, x: string): Option<Hit> { TokenHit(x, w.shorts, w.longs) }

  /** An option of the escalator, with the next word as its value when it takes one and none is glued. */
  predicate IsOptionOf(w: Wrapper, l: Lead) {
    && (l.Flag? || l.Valued?) && IsDash(l.w) && l.w != "--"
    && (l.Valued? <==> HitOf(w, l.w).Some? && HitOf(w, l.w).value.value.None?)
  }

  predicate OptionsOf(w: Wrapper, os: seq<Lead>) { forall k | 0 <= k < |os| :: IsOptionOf(w, os[k]) }

  /** What may stand behind the options: nothing, a word that is no option, or the end mark. */
  predicate EndsOptions(rest: Argv) { rest == [] || !IsDash(rest[0]) || rest[0] == "--" }

  function WithoutMark(rest: Argv): Argv { if rest != [] && rest[0] == "--" then rest[1..] else rest }

  lemma OptionRound(argv: Argv, i: nat, w: Wrapper, l: Lead)
    requires IsOptionOf(w, l) && i + |WordsOf(l)| <= |argv| && argv[i] == l.w && (l.Valued? ==> argv[i + 1] == l.v)
    ensures AfterOptions(argv, i, w) == AfterOptions(argv, i + |WordsOf(l)|, w)
    ensures WrapperOption(argv, i, w.shorts, w.longs).1 == i + |WordsOf(l)|
    ensures l.Valued? ==> WrapperOption(argv, i, w.shorts, w.longs).0 == Some(Hit(HitOf(w, l.w).value.key, Some(l.v)))
    ensures l.Flag? ==> WrapperOption(argv, i, w.shorts, w.longs).0 == HitOf(w, l.w)
  {
    hide TokenHit;
  }

  lemma {:induction false} OptionsAreSkipped(argv: Argv, w: Wrapper, os: seq<Lead>, i: nat)
    requires OptionsOf(w, os) && i <= |argv| && StartsWith(argv[i..], LeadWords(os))
    ensures i + |LeadWords(os)| <= |argv| && AfterOptions(argv, i, w) == AfterOptions(argv, i + |LeadWords(os)|, w)
    decreases |os|
  {
    hide AfterOptions, WrapperOption, IsOptionOf;
    if os != [] {
      var init, l := os[..|os| - 1], os[|os| - 1];
      assert LeadWords(os) == LeadWords(init) + WordsOf(l);
      StartsWithLess(argv[i..], LeadWords(init), WordsOf(l));
      assert IsOptionOf(w, os[|os| - 1]) && forall k | 0 <= k < |init| :: init[k] == os[k];
      OptionsAreSkipped(argv, w, init, i);
      var j := i + |LeadWords(init)|;
      assert argv[j] == argv[i..][|LeadWords(init)|];
      assert |WordsOf(l)| > 1 ==> argv[j + 1] == argv[i..][|LeadWords(init)| + 1];
      OptionRound(argv, j, w, l);
    }
  }

  /** Behind its options an escalator stops, and the end mark is skipped with them. */
  lemma OptionsEnd(head: string, w: Wrapper, os: seq<Lead>, rest: Argv)
    requires OptionsOf(w, os) && EndsOptions(rest)
    ensures var argv := [head] + (LeadWords(os) + rest);
      AfterOptions(argv, 1, w) <= |argv| && argv[AfterOptions(argv, 1, w)..] == WithoutMark(rest)
  {
    var argv := [head] + (LeadWords(os) + rest);
    assert argv[1..] == LeadWords(os) + rest && (LeadWords(os) + rest)[..|LeadWords(os)|] == LeadWords(os);
    OptionsAreSkipped(argv, w, os, 1);
    var j := 1 + |LeadWords(os)|;
    assert argv[j..] == rest;
    if rest != [] {
      assert argv[j] == rest[0] && argv[j + 1..] == rest[1..];
    }
    hide LeadWords, WrapperOption;
  }

  /** `sudo`, `doas`, `pkexec`, `run0` leave what stands behind their options. */
  lemma EscalatorLeaves(head: string, w: Wrapper, os: seq<Lead>, rest: Argv)
    requires Escalator(CommandBasename(head), 0) == Some(w) && w.name != "su" && w.name != "chroot"
    requires OptionsOf(w, os) && EndsOptions(rest)
    ensures StripEscalator([head] + (LeadWords(os) + rest)) == Some(Unwrapped.Argv(WithoutMark(rest)))
  {
    hide AfterOptions, Escalator, CommandBasename, OptionsOf, LeadWords;
    OptionsEnd(head, w, os, rest);
  }

  /** `chroot` leaves what stands behind its new root as well. */
  lemma ChrootLeaves(head: string, w: Wrapper, os: seq<Lead>, root: string, rest: Argv)
    requires Escalator(CommandBasename(head), 0) == Some(w) && w.name == "chroot"
    requires OptionsOf(w, os) && !IsDash(root)
    ensures StripEscalator([head] + (LeadWords(os) + ([root] + rest))) == Some(Unwrapped.Argv(rest))
  {
    hide AfterOptions, Escalator, CommandBasename, OptionsOf, LeadWords;
    OptionsEnd(head, w, os, [root] + rest);
    var argv := [head] + (LeadWords(os) + ([root] + rest));
    var i := AfterOptions(argv, 1, w);
    NotTheMark(root);
    assert WithoutMark([root] + rest) == [root] + rest;
    assert argv[i..][1..] == argv[i + 1..] && ([root] + rest)[1..] == rest;
    assert |argv[i..]| == |argv| - i;
  }

  lemma NotTheMark(x: string)
    requires !IsDash(x)
    ensures x != "--"
  {
  }

  // ------------------------------------------------------------------------------ su

  predicate CommandKey(key: string) { key in ["c", "command", "session-command"] }

  /** A word of `su` that gives no command line: an option with another key, or no option at all. */
  predicate GivesNoLine(w: Wrapper, l: Lead) {
    || (l.Operand? && !IsDash(l.w))
    || (IsOptionOf(w, l) && (HitOf(w, l.w).None? || !CommandKey(HitOf(w, l.w).value.key)))
  }

  predicate GiveNoLine(w: Wrapper, ls: seq<Lead>) { forall k | 0 <= k < |ls| :: GivesNoLine(w, ls[k]) }

  lemma SuRound(argv: Argv, i: nat, w: Wrapper, l: Lead)
    requires GivesNoLine(w, l) && i + |WordsOf(l)| <= |argv| && argv[i] == l.w && (l.Valued? ==> argv[i + 1] == l.v)
    ensures SuCommand(argv, i, w) == SuCommand(argv, i + |WordsOf(l)|, w)
  {
    if l.Operand? {
      NotTheMark(l.w);
    } else {
      OptionRound(argv, i, w, l);
      hide WrapperOption, TokenHit;
    }
  }

  lemma {:induction false} SuReadsOn(argv: Argv, w: Wrapper, ls: seq<Lead>, i: nat)
    requires GiveNoLine(w, ls) && i <= |argv| && StartsWith(argv[i..], LeadWords(ls))
    ensures i + |LeadWords(ls)| <= |argv| && SuCommand(argv, i, w) == SuCommand(argv, i + |LeadWords(ls)|, w)
    decreases |ls|
  {
    hide SuCommand, WrapperOption, GivesNoLine;
    if ls != [] {
      var init, l := ls[..|ls| - 1], ls[|ls| - 1];
      assert LeadWords(ls) == LeadWords(init) + WordsOf(l);
      StartsWithLess(argv[i..], LeadWords(init), WordsOf(l));
      assert GivesNoLine(w, ls[|ls| - 1]) && forall k | 0 <= k < |init| :: init[k] == ls[k];
      SuReadsOn(argv, w, init, i);
      var j := i + |LeadWords(init)|;
      assert argv[j] == argv[i..][|LeadWords(init)|];
      assert |WordsOf(l)| > 1 ==> argv[j + 1] == argv[i..][|LeadWords(init)| + 1];
      SuRound(argv, j, w, l);
    }
  }

  /** The line an option of `su` gives, glued to it or as its value. */
  function LineOf(w: Wrapper, l: Lead): Option<string> {
    if !IsOptionOf(w, l) || HitOf(w, l.w).None? || !CommandKey(HitOf(w, l.w).value.key) then None
    else if l.Valued? then Some(l.v)
    else HitOf(w, l.w).value.value
  }

  /** `su` with a command option runs its line, wherever the option stands among the words before the end mark. */
  lemma SuRunsItsLine(head: string, w: Wrapper, ls: seq<Lead>, l: Lead, rest: Argv)
    requires Escalator(CommandBasename(head), 0) == Some(w) && w.name == "su"
    requires GiveNoLine(w, ls) && LineOf(w, l).Some?
    ensures StripEscalator([head] + (LeadWords(ls) + (WordsOf(l) + rest))) == Some(Line(LineOf(w, l).value))
  {
    hide Escalator, CommandBasename, LeadWords, TokenHit, GiveNoLine, CommandKey, StartsWith;
    var argv := [head] + (LeadWords(ls) + (WordsOf(l) + rest));
    var j := 1 + |LeadWords(ls)|;
    Behind(head, LeadWords(ls), WordsOf(l), rest);
    SuReadsOn(argv, w, ls, 1);
    OptionRound(argv, j, w, l);
    LineIsFound(argv, j, w, l);
    hide SuCommand, LineOf, AfterOptions;
  }

  lemma Behind(head: string, a: Argv, b: Argv, rest: Argv)
    ensures var argv, j := [head] + (a + (b + rest)), 1 + |a|;
      && StartsWith(argv[1..], a) && j + |b| <= |argv| && argv[0] == head
      && (|b| > 0 ==> argv[j] == b[0]) && (|b| > 1 ==> argv[j + 1] == b[1])
  {
    var argv := [head] + (a + (b + rest));
    assert argv[1..] == a + (b + rest) && (a + (b + rest))[..|a|] == a;
  }

  lemma LineIsFound(argv: Argv, j: nat, w: Wrapper, l: Lead)
    requires j + |WordsOf(l)| <= |argv| && argv[j] == l.w && (l.Valued? ==> argv[j + 1] == l.v) && LineOf(w, l).Some?
    ensures SuCommand(argv, j, w) == LineOf(w, l)
  {
    OptionRound(argv, j, w, l);
    hide TokenHit, WrapperOption;
  }

  lemma NoLineAtEnd(argv: Argv, i: nat, w: Wrapper)
    requires i <= |argv| && (i == |argv| || argv[i] == "--")
    ensures SuCommand(argv, i, w).None?
  {
  }

  lemma {:induction false} LeadWordsConcat(a: seq<Lead>, b: seq<Lead>)
    ensures LeadWords(a + b) == LeadWords(a) + LeadWords(b)
    decreases |b|
  {
    if b == [] {
      assert a + b == a && LeadWords(a) + [] == LeadWords(a);
    } else {
      var init, l := b[..|b| - 1], b[|b| - 1];
      assert (a + b)[..|a + b| - 1] == a + init;
      LeadWordsConcat(a, init);
      assert LeadWords(a) + LeadWords(init) + WordsOf(l) == LeadWords(a) + (LeadWords(init) + WordsOf(l));
    }
  }

  /** Without a command option `su` leaves what stands behind its user name, which is left out unless it could delete. */
  lemma SuLeaves(head: string, w: Wrapper, os: seq<Lead>, tail: seq<Lead>)
    requires Escalator(CommandBasename(head), 0) == Some(w) && w.name == "su"
    requires OptionsOf(w, os) && GiveNoLine(w, os + tail) && EndsOptions(LeadWords(tail))
    requires LeadWords(tail) != [] ==> LeadWords(tail)[0] != "--"
    ensures var rest := LeadWords(tail);
      StripEscalator([head] + (LeadWords(os) + rest))
      == Some(Unwrapped.Argv(if rest == [] || IsDestructive(CommandBasename(rest[0])) then rest else rest[1..]))
  {
    var rest := LeadWords(tail);
    var argv := [head] + (LeadWords(os) + rest);
    LeadWordsConcat(os, tail);
    hide Escalator, CommandBasename, IsDestructive, LeadWords, TokenHit, AfterOptions, OptionsOf, GiveNoLine;
    assert argv[1..] == LeadWords(os + tail) && argv[1..][..|LeadWords(os + tail)|] == LeadWords(os + tail);
    SuReadsOn(argv, w, os + tail, 1);
    NoLineAtEnd(argv, |argv|, w);
    OptionsEnd(head, w, os, rest);
    var i := AfterOptions(argv, 1, w);
    hide SuCommand;
    assert |argv[i..]| == |argv| - i;
    if rest != [] {
      assert argv[i] == argv[i..][0] == rest[0] && argv[i + 1..] == argv[i..][1..];
    }
  }
}
