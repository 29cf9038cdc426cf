/**
 Which words of an argv stand before the program it launches
 (crates/core/src/shell_deny.rs, 246-320 and 375-418), stated apart from the loop that reads them:
 assignments, and wrappers each with its options, the values of those options and its operand.
 */
module LaunchPrefix {
  import opened Common
  import opened EnvSplit
  import opened Launcher

  /** What may stand before a program. `Valued`: an option that takes the next word as its value. */
  datatype Lead = Assign(w: string) | Wrap(w: string) | Flag(w: string) | Valued(w: string, v: string) | Operand(w: string)

  function WordsOf(l: Lead): Argv { if l.Valued? then [l.w, l.v] else [l.w] }

  function LeadWords(ls: seq<Lead>): Argv {
    if ls == [] then [] else LeadWords(ls[..|ls| - 1]) + WordsOf(ls[|ls| - 1])
  }

  /** The wrapper read last. */
  function LastWrap(ls: seq<Lead>): Option<Wrapper> {
    if ls == [] then None
    else if ls[|ls| - 1].Wrap? then ShellWrapper(ls[|ls| - 1].w)
    else LastWrap(ls[..|ls| - 1])
  }

  predicate TakesOperand(w: Wrapper) { w.name in VALUE_OPERAND_WRAPPERS }

  predicate IsDash(w: string) { "-" <= w }

  /** An operand was read after the last wrapper. */
  predicate OperandSince(ls: seq<Lead>) {
    exists j :: 0 <= j < |ls| && ls[j].Operand? && forall i | j < i < |ls| :: !ls[i].Wrap?
  }

  /** The last wrapper takes an operand and has none yet. */
  predicate StillWants(ls: seq<Lead>) {
    LastWrap(ls).Some? && TakesOperand(LastWrap(ls).value) && !OperandSince(ls)
  }

  /** The word is the operand of the last wrapper: its first, or one more number. */
  predicate IsOperand(ls: seq<Lead>, w: string) {
    && LastWrap(ls).Some? && TakesOperand(LastWrap(ls).value)
    && (!OperandSince(ls) || NumericOperand(w))
  }

  /** Neither an assignment nor a wrapper. */
  predicate Other(w: string) { !IsEnvAssignment(w) && ShellWrapper(w).None? }

  predicate IsOption(ls: seq<Lead>, w: string) { Other(w) && LastWrap(ls).Some? && IsDash(w) }

  function OptionHit(ls: seq<Lead>, w: string): Option<Hit>
    requires LastWrap(ls).Some?
  {
    TokenHit(w, LastWrap(ls).value.shorts, LastWrap(ls).value.longs)
  }

  predicate SplitKey(key: string) { key == "S" || key == "split-string" }

  /** `l` may follow `ls`. */
  predicate GoodLead(ls: seq<Lead>, l: Lead) {
    match l
    case Assign(w) => IsEnvAssignment(w)
    case Wrap(w) => !IsEnvAssignment(w) && ShellWrapper(w).Some?
    case Flag(w) =>
      IsOption(ls, w) && (OptionHit(ls, w).None? || (OptionHit(ls, w).value.value.Some? && !SplitKey(OptionHit(ls, w).value.key)))
    case Valued(w, _) =>
      IsOption(ls, w) && OptionHit(ls, w).Some? && OptionHit(ls, w).value.value.None? && !SplitKey(OptionHit(ls, w).value.key)
    case Operand(w) => Other(w) && !IsDash(w) && IsOperand(ls, w)
  }

  predicate GoodLeads(ls: seq<Lead>) { forall k | 0 <= k < |ls| :: GoodLead(ls[..k], ls[k]) }

  /** The word launched after `ls`: it starts nothing more and belongs to nothing before it. */
  predicate IsProgram(ls: seq<Lead>, w: string) {
    Other(w) && (LastWrap(ls).Some? ==> !IsDash(w) && !IsOperand(ls, w))
  }

  /** An `env -S` or `--split-string` option with its string stands at `i`. */
  predicate SplitsAt(argv: Argv, ls: seq<Lead>, i: nat) {
    && i < |argv| && IsOption(ls, argv[i])
    && IsSplitString(WrapperOption(argv, i, LastWrap(ls).value.shorts, LastWrap(ls).value.longs).0)
  }

  predicate StartsWith(argv: Argv, a: Argv) { |a| <= |argv| && argv[..|a|] == a }

  /** What comes of an argv that goes on after `ls`. */
  predicate Ends(argv: Argv, ls: seq<Lead>, r: Launched) {
    var i := |LeadWords(ls)|;
    match r
    case At(k) => k == i < |argv| && IsProgram(ls, argv[i])
    case SplitString(e) =>
      && SplitsAt(argv, ls, i)
      && var (hit, next) := WrapperOption(argv, i, LastWrap(ls).value.shorts, LastWrap(ls).value.longs);
         next <= |argv| && Words(hit.value.value.value, None, None).Some?
         && e == argv[..i] + Words(hit.value.value.value, None, None).value + argv[next..]
    case Unparseable =>
      && SplitsAt(argv, ls, i)
      && Words(WrapperOption(argv, i, LastWrap(ls).value.shorts, LastWrap(ls).value.longs).0.value.value.value, None, None).None?
    case Nothing =>
      || i == |argv|
      || (i + 1 == |argv| && IsOption(ls, argv[i]) && OptionHit(ls, argv[i]).Some? && OptionHit(ls, argv[i]).value.value.None?)
  }

  // ------------------------------------------------------------------------- one lead more

  lemma StartsWithLess(argv: Argv, a: Argv, b: Argv)
    requires StartsWith(argv, a + b)
    ensures StartsWith(argv, a) && |a| + |b| <= |argv|
    ensures b != [] ==> argv[|a|] == b[0]
    ensures |b| > 1 ==> argv[|a| + 1] == b[1]
  {
    var ab := a + b;
    assert forall k | 0 <= k < |ab| :: argv[..|ab|][k] == argv[k] == ab[k];
    assert argv[..|a|] == a;
  }

  lemma StartsWithMore(argv: Argv, a: Argv)
    requires StartsWith(argv, a)
    ensures |a| < |argv| ==> StartsWith(argv, a + [argv[|a|]])
    ensures |a| + 1 < |argv| ==> StartsWith(argv, a + [argv[|a|], argv[|a| + 1]])
    ensures |a| == |argv| ==> a == argv
  {
    assert argv[..|argv|] == argv;
  }

  lemma OneMore(ls: seq<Lead>, l: Lead)
    ensures LeadWords(ls + [l]) == LeadWords(ls) + WordsOf(l)
    ensures LastWrap(ls + [l]) == if l.Wrap? then ShellWrapper(l.w) else LastWrap(ls)
  {
    assert (ls + [l])[..|ls|] == ls;
  }

  lemma OneMoreOperand(ls: seq<Lead>, l: Lead)
    ensures OperandSince(ls + [l]) <==> l.Operand? || (OperandSince(ls) && !l.Wrap?)
  {
    var all := ls + [l];
    if l.Operand? {
      assert all[|ls|].Operand?;
    } else if OperandSince(ls) && !l.Wrap? {
      var j :| 0 <= j < |ls| && ls[j].Operand? && forall i | j < i < |ls| :: !ls[i].Wrap?;
      assert all[j].Operand?;
      assert forall i | j < i < |all| :: !all[i].Wrap?;
    }
    if OperandSince(all) && !l.Operand? {
      var j :| 0 <= j < |all| && all[j].Operand? && forall i | j < i < |all| :: !all[i].Wrap?;
      assert !all[|ls|].Wrap?;
      assert ls[j].Operand? && forall i | j < i < |ls| :: ls[i] == all[i];
    }
  }

  lemma OneMoreIsGood(ls: seq<Lead>, l: Lead)
    ensures GoodLeads(ls + [l]) <==> GoodLeads(ls) && GoodLead(ls, l)
  {
    hide GoodLead;
    var all := ls + [l];
    assert all[..|ls|] == ls && all[|ls|] == l;
    assert forall k | 0 <= k < |ls| :: all[..k] == ls[..k] && all[k] == ls[k];
  }

  /** One round of the loop that goes on. */
  lemma Round(argv: Argv, i: nat, wrapper: Option<Wrapper>, operand: bool)
    requires i < |argv|
    ensures IsEnvAssignment(argv[i]) ==>
              ProgramFrom(argv, i, wrapper, operand) == ProgramFrom(argv, i + 1, wrapper, operand)
    ensures !IsEnvAssignment(argv[i]) && ShellWrapper(argv[i]).Some? ==>
              var found := ShellWrapper(argv[i]);
              ProgramFrom(argv, i, wrapper, operand) == ProgramFrom(argv, i + 1, found, TakesOperand(found.value))
    ensures Other(argv[i]) && wrapper.Some? && IsDash(argv[i]) ==>
              var (hit, next) := WrapperOption(argv, i, wrapper.value.shorts, wrapper.value.longs);
              !IsSplitString(hit) ==> ProgramFrom(argv, i, wrapper, operand) == ProgramFrom(argv, next, wrapper, operand)
    ensures Other(argv[i]) && wrapper.Some? && !IsDash(argv[i])
            && (operand || (TakesOperand(wrapper.value) && NumericOperand(argv[i]))) ==>
              ProgramFrom(argv, i, wrapper, operand) == ProgramFrom(argv, i + 1, wrapper, false)
  {
    hide ShellWrapper, IsEnvAssignment, TokenHit, Words;
  }

  lemma StillWantsAfter(ls: seq<Lead>, l: Lead)
    ensures l.Assign? || l.Flag? || l.Valued? ==> StillWants(ls + [l]) == StillWants(ls)
    ensures l.Operand? ==> !StillWants(ls + [l])
    ensures l.Wrap? ==> StillWants(ls + [l]) == (ShellWrapper(l.w).Some? && TakesOperand(ShellWrapper(l.w).value))
  {
    OneMore(ls, l);
    OneMoreOperand(ls, l);
    hide ShellWrapper, OperandSince, LastWrap;
  }

  lemma OptionAt(argv: Argv, i: nat, ls: seq<Lead>, l: Lead)
    requires i + |WordsOf(l)| <= |argv| && argv[i] == l.w && (l.Valued? ==> argv[i + 1] == l.v)
    requires (l.Flag? || l.Valued?) && GoodLead(ls, l)
    ensures var (hit, next) := WrapperOption(argv, i, LastWrap(ls).value.shorts, LastWrap(ls).value.longs);
      !IsSplitString(hit) && next == i + |WordsOf(l)|
  {
    hide ShellWrapper, IsEnvAssignment, TokenHit, LastWrap;
  }

  /** What the loop does with one lead. */
  lemma LeadIsRead(argv: Argv, ls: seq<Lead>, l: Lead)
    requires GoodLead(ls, l) && StartsWith(argv, LeadWords(ls) + WordsOf(l))
    ensures ProgramFrom(argv, |LeadWords(ls)|, LastWrap(ls), StillWants(ls))
            == ProgramFrom(argv, |LeadWords(ls)| + |WordsOf(l)|, LastWrap(ls + [l]), StillWants(ls + [l]))
  {
    hide ProgramFrom, ShellWrapper, IsEnvAssignment, TokenHit, OperandSince, LeadWords, LastWrap, WrapperOption, StartsWith,
         TakesOperand, IsDash, NumericOperand, StillWants, IsSplitString;
    StartsWithLess(argv, LeadWords(ls), WordsOf(l));
    OneMore(ls, l);
    StillWantsAfter(ls, l);
    Round(argv, |LeadWords(ls)|, LastWrap(ls), StillWants(ls));
    if l.Flag? || l.Valued? {
      OptionAt(argv, |LeadWords(ls)|, ls, l);
    } else if l.Operand? {
      FirstOperand(ls, l.w);
    }
  }

  lemma FirstOperand(ls: seq<Lead>, w: string)
    requires IsOperand(ls, w)
    ensures StillWants(ls) || (TakesOperand(LastWrap(ls).value) && NumericOperand(w))
  {
  }

  /** Where the loop stands after `ls`. */
  function After(argv: Argv, ls: seq<Lead>): Launched { ProgramFrom(argv, |LeadWords(ls)|, LastWrap(ls), StillWants(ls)) }

  lemma BeforeAll(argv: Argv)
    ensures Program(argv) == After(argv, []) && GoodLeads([]) && StartsWith(argv, LeadWords([]))
  {
    hide ProgramFrom;
  }

  lemma AfterOne(argv: Argv, ls: seq<Lead>, l: Lead)
    requires GoodLead(ls, l) && StartsWith(argv, LeadWords(ls) + WordsOf(l))
    ensures After(argv, ls + [l]) == After(argv, ls)
  {
    hide ProgramFrom, GoodLead, StillWants, LeadWords, LastWrap, WordsOf, StartsWith;
    OneMore(ls, l);
    LeadIsRead(argv, ls, l);
  }

  /** Over any list of leads the loop goes on after them, knowing the last wrapper and what it still wants. */
  lemma {:induction false} LeadsAreRead(argv: Argv, ls: seq<Lead>)
    requires GoodLeads(ls) && StartsWith(argv, LeadWords(ls))
    ensures Program(argv) == After(argv, ls)
  {
    hide *;
    if ls == [] {
      BeforeAll(argv);
    } else {
      var init, l := ls[..|ls| - 1], ls[|ls| - 1];
      assert ls == init + [l];
      OneMore(init, l);
      OneMoreIsGood(init, l);
      StartsWithLess(argv, LeadWords(init), WordsOf(l));
      LeadsAreRead(argv, init);
      AfterOne(argv, init, l);
    }
  }

  /** What the loop does where the leads end. */
  lemma EndIsRead(argv: Argv, ls: seq<Lead>, r: Launched)
    requires StartsWith(argv, LeadWords(ls)) && Ends(argv, ls, r)
    ensures After(argv, ls) == r
  {
    hide ShellWrapper, IsEnvAssignment, TokenHit, Words, OperandSince, LeadWords, LastWrap;
    if r.At? && LastWrap(ls).Some? {
      assert !IsOperand(ls, argv[r.index]);
    }
    PastEnd(argv, |argv| + 1, LastWrap(ls), StillWants(ls));
    if r.SplitString? || r.Unparseable? {
      SplitTakesAString(argv, |LeadWords(ls)|, LastWrap(ls).value);
    }
  }

  lemma PastEnd(argv: Argv, i: nat, wrapper: Option<Wrapper>, operand: bool)
    requires i >= |argv|
    ensures ProgramFrom(argv, i, wrapper, operand) == Nothing
  {
  }

  lemma SplitTakesAString(argv: Argv, i: nat, w: Wrapper)
    requires i < |argv| && IsDash(argv[i]) && IsSplitString(WrapperOption(argv, i, w.shorts, w.longs).0)
    ensures WrapperOption(argv, i, w.shorts, w.longs).1 <= |argv|
  {
    hide TokenHit;
  }

  /** Reads on from `ls` to where the leads end. */
  lemma {:induction false} LeadsAreFound(argv: Argv, ls: seq<Lead>) returns (all: seq<Lead>)
    requires GoodLeads(ls) && StartsWith(argv, LeadWords(ls))
    ensures GoodLeads(all) && StartsWith(argv, LeadWords(all))
    ensures Ends(argv, all, After(argv, ls))
    decreases |argv| - |LeadWords(ls)|
  {
    hide *;
    all := ls;
    var next := NextLead(argv, ls);
    if next.Some? {
      var l := next.value;
      OneMore(ls, l);
      OneMoreIsGood(ls, l);
      AfterOne(argv, ls, l);
      StartsWithLess(argv, LeadWords(ls), WordsOf(l));
      SomeWords(l);
      all := LeadsAreFound(argv, ls + [l]);
    }
  }

  lemma SomeWords(l: Lead)
    ensures WordsOf(l) != []
  {
  }

  /** The lead at the next word, or the end of the leads. */
  lemma NextLead(argv: Argv, ls: seq<Lead>) returns (l: Option<Lead>)
    requires StartsWith(argv, LeadWords(ls))
    ensures l.Some? ==> GoodLead(ls, l.value) && StartsWith(argv, LeadWords(ls) + WordsOf(l.value))
    ensures l.None? ==> Ends(argv, ls, After(argv, ls))
  {
    hide ShellWrapper, IsEnvAssignment, TokenHit, Words, OperandSince, LeadWords, LastWrap;
    StartsWithMore(argv, LeadWords(ls));
    var i := |LeadWords(ls)|;
    if i == |argv| {
      return None;
    }
    var w := argv[i];
    if IsEnvAssignment(w) {
      l := Some(Assign(w));
    } else if ShellWrapper(w).Some? {
      l := Some(Wrap(w));
    } else if LastWrap(ls).None? {
      l := None;
    } else if IsDash(w) {
      l := NextOption(argv, ls);
    } else if IsOperand(ls, w) {
      l := Some(Operand(w));
    } else {
      l := None;
    }
  }

  lemma NextOption(argv: Argv, ls: seq<Lead>) returns (l: Option<Lead>)
    requires StartsWith(argv, LeadWords(ls)) && |LeadWords(ls)| < |argv| && IsOption(ls, argv[|LeadWords(ls)|])
    ensures l.Some? ==> GoodLead(ls, l.value) && StartsWith(argv, LeadWords(ls) + WordsOf(l.value))
    ensures l.None? ==> Ends(argv, ls, After(argv, ls))
  {
    hide ShellWrapper, IsEnvAssignment, TokenHit, Words, OperandSince, LeadWords, LastWrap;
    assert |LeadWords(ls)| < |argv|;
    var i := |LeadWords(ls)|;
    var w := argv[i];
    var wrapper := LastWrap(ls).value;
    StartsWithMore(argv, LeadWords(ls));
    if IsSplitString(WrapperOption(argv, i, wrapper.shorts, wrapper.longs).0) {
      SplitTakesAString(argv, i, wrapper);
      l := None;
    } else if OptionHit(ls, w).Some? && OptionHit(ls, w).value.value.None? {
      if i + 1 < |argv| {
        l := Some(Valued(w, argv[i + 1]));
      } else {
        PastEnd(argv, i + 2, LastWrap(ls), StillWants(ls));
        l := None;
      }
    } else {
      l := Some(Flag(w));
    }
  }

  /**
   For every argv and every answer: the loop gives it exactly when the argv can be read as leads
   followed by what the answer says.
   */
  lemma ProgramIff(argv: Argv, r: Launched)
    ensures Program(argv) == r <==> exists ls :: GoodLeads(ls) && StartsWith(argv, LeadWords(ls)) && Ends(argv, ls, r)
  {
    hide ProgramFrom, GoodLeads, Ends, LeadWords, StartsWith, After;
    BeforeAll(argv);
    var all := LeadsAreFound(argv, []);
    forall ls | GoodLeads(ls) && StartsWith(argv, LeadWords(ls)) && Ends(argv, ls, r)
      ensures Program(argv) == r
    {
      LeadsAreRead(argv, ls);
      EndIsRead(argv, ls, r);
    }
  }

  /** Leads and then a program: the program with its arguments is what is launched. */
  lemma LeadsThenProgram(ls: seq<Lead>, rest: Argv)
    requires GoodLeads(ls) && rest != [] && IsProgram(ls, rest[0])
    ensures Program(LeadWords(ls) + rest) == At(|LeadWords(ls)|) && LaunchedArgv(LeadWords(ls) + rest) == rest
  {
    hide GoodLeads, IsProgram, LeadWords, LastWrap, ProgramFrom;
    var argv, i := LeadWords(ls) + rest, |LeadWords(ls)|;
    assert argv[..i] == LeadWords(ls) && argv[i] == rest[0] && argv[i..] == rest;
    LeadsAreRead(argv, ls);
    EndIsRead(argv, ls, At(i));
    AtLaunches(argv, i);
  }

  lemma AtLaunches(argv: Argv, i: nat)
    requires Program(argv) == At(i) && i < |argv|
    ensures LaunchedArgv(argv) == argv[i..]
  {
    hide ProgramFrom;
  }

  lemma TwoLeads(a: Lead, b: Lead)
    ensures GoodLeads([a, b]) <==> GoodLead([], a) && GoodLead([a], b)
    ensures LeadWords([a]) == WordsOf(a) && LeadWords([a, b]) == WordsOf(a) + WordsOf(b)
    ensures a.Wrap? ==> LastWrap([a]) == ShellWrapper(a.w)
    ensures a.Wrap? && !b.Wrap? ==> LastWrap([a, b]) == ShellWrapper(a.w)
  {
    hide GoodLead, ShellWrapper;
    var none: seq<Lead> := [];
    assert none + [a] == [a] && [a] + [b] == [a, b];
    OneMore(none, a);
    OneMore([a], b);
    OneMoreIsGood(none, a);
    OneMoreIsGood([a], b);
    assert GoodLeads(none) && LeadWords(none) + WordsOf(a) == WordsOf(a);
  }

  /** `timeout N PROGRAM ...`: the operand of a wrapper that takes one is not the program. */
  lemma OperandIsReadOver(t: string, n: string, rest: Argv)
    requires !IsEnvAssignment(t) && ShellWrapper(t).Some? && TakesOperand(ShellWrapper(t).value)
    requires Other(n) && !IsDash(n) && rest != [] && Other(rest[0]) && !IsDash(rest[0]) && !NumericOperand(rest[0])
    ensures LaunchedArgv([t, n] + rest) == rest
  {
    hide ShellWrapper, IsEnvAssignment, TakesOperand, IsDash, NumericOperand, LaunchedArgv;
    var a, b := Wrap(t), Operand(n);
    var none: seq<Lead> := [];
    TwoLeads(a, b);
    assert none + [a] == [a] && [a] + [b] == [a, b];
    OneMoreOperand(none, a);
    OneMoreOperand([a], b);
    assert WordsOf(a) + WordsOf(b) == [t, n];
    LeadsThenProgram([a, b], rest);
  }

  /** `nice -n 5 PROGRAM ...`: the value of an option is not the program either. */
  lemma ValueIsReadOver(t: string, opt: string, v: string, rest: Argv)
    requires !IsEnvAssignment(t) && ShellWrapper(t).Some? && !TakesOperand(ShellWrapper(t).value)
    requires Other(opt) && IsDash(opt)
    requires var hit := TokenHit(opt, ShellWrapper(t).value.shorts, ShellWrapper(t).value.longs);
      hit.Some? && hit.value.value.None? && !SplitKey(hit.value.key)
    requires rest != [] && Other(rest[0]) && !IsDash(rest[0])
    ensures LaunchedArgv([t, opt, v] + rest) == rest
  {
    hide ShellWrapper, IsEnvAssignment, TakesOperand, IsDash, TokenHit, LaunchedArgv, LeadWords, LastWrap, GoodLeads;
    var a, b := Wrap(t), Valued(opt, v);
    TwoLeads(a, b);
    assert WordsOf(a) + WordsOf(b) == [t, opt, v];
    LeadsThenProgram([a, b], rest);
  }

  /** An assignment between a wrapper's options and the program is read over too: `env -u X A=1 PROGRAM ...`. */
  lemma AssignmentIsReadOver(ls: seq<Lead>, a: string, rest: Argv)
    requires GoodLeads(ls) && IsEnvAssignment(a) && rest != [] && IsProgram(ls, rest[0])
    ensures LaunchedArgv(LeadWords(ls) + [a] + rest) == rest
  {
    hide ShellWrapper, IsEnvAssignment, IsDash, LaunchedArgv, LeadWords, LastWrap, GoodLeads, OperandSince;
    var l := Assign(a);
    OneMore(ls, l);
    OneMoreOperand(ls, l);
    OneMoreIsGood(ls, l);
    LeadsThenProgram(ls + [l], rest);
  }

  // --------------------------------------------------------------- options and names

  /** A cluster of short options: the first letter that takes a value ends it, with what is glued to it. */
  lemma {:induction false} ShortHitIs(body: string, shorts: string) returns (i: nat)
    ensures i <= |body| && forall j | 0 <= j < i :: body[j] !in shorts
    ensures if i == |body| then ShortHit(body, shorts).None?
            else body[i] in shorts
                 && ShortHit(body, shorts) == Some(Hit([body[i]], if i + 1 < |body| then Some(body[i + 1..]) else None))
  {
    if body == "" || body[0] in shorts {
      i := 0;
    } else {
      var rest := body[1..];
      var k := ShortHitIs(rest, shorts);
      i := k + 1;
      assert forall j | 0 < j < i :: body[j] == rest[j - 1];
      if k < |rest| {
        assert body[i] == rest[k] && rest[k + 1..] == body[i + 1..];
      }
    }
  }

  lemma {:induction false} IndexOfIs(s: string, c: char)
    ensures IndexOf(s, c).None? <==> c !in s
    ensures IndexOf(s, c).Some? ==> c !in s[..IndexOf(s, c).value]
  {
    if s != "" && s[0] != c {
      IndexOfIs(s[1..], c);
      assert forall x :: x in s <==> x == s[0] || x in s[1..];
      if IndexOf(s, c).Some? {
        var i := IndexOf(s, c).value;
        assert s[..i] == [s[0]] + s[1..][..i - 1];
      }
    }
  }

  lemma {:induction false} PrefixedIs(name: string, longs: seq<string>)
    ensures forall full :: full in Prefixed(name, longs) <==> full in longs && name != "" && name <= full
  {
    if longs != [] {
      PrefixedIs(name, longs[1..]);
      assert forall full :: full in longs <==> full == longs[0] || full in longs[1..];
    }
  }

  /**
   A long option: the name is what stands before the first `=`, the value what stands behind it.
   It is found by its exact name, or by a prefix that only one of the names has.
   */
  lemma LongHitIs(name: string, value: Option<string>, longs: seq<string>)
    requires '=' !in name
    ensures var hit := LongHit(if value.Some? then name + "=" + value.value else name, longs);
      && (name in longs ==> hit == Some(Hit(name, value)))
      && (name !in longs && hit.Some? ==>
            hit.value.value == value && Prefixed(name, longs) == [hit.value.key] && hit.value.key in longs && name <= hit.value.key)
      && (name !in longs && hit.None? ==> |Prefixed(name, longs)| != 1)
  {
    var long := if value.Some? then name + "=" + value.value else name;
    IndexOfIs(long, '=');
    PrefixedIs(name, longs);
    if value.Some? {
      assert long[|name|] == '=' && long[..|name|] == name && long[|name| + 1..] == value.value;
      FirstEquals(name, value.value);
    }
    if |Prefixed(name, longs)| == 1 {
      assert Prefixed(name, longs)[0] in Prefixed(name, longs);
    }
  }

  lemma {:induction false} FirstEquals(name: string, value: string)
    requires '=' !in name
    ensures IndexOf(name + "=" + value, '=') == Some(|name|)
  {
    if name != "" {
      FirstEquals(name[1..], value);
      assert (name + "=" + value)[1..] == name[1..] + "=" + value;
    }
  }

  /** A wrapper is looked up by name in any case, and the first of its name counts. */
  lemma {:induction false} FindWrapperIs(stem: string, i: nat) returns (k: nat)
    requires i <= |WRAPPERS|
    ensures i <= k <= |WRAPPERS| && forall j | i <= j < k :: !SameName(stem, WRAPPERS[j].name)
    ensures if k == |WRAPPERS| then FindWrapper(stem, i).None?
            else SameName(stem, WRAPPERS[k].name) && FindWrapper(stem, i) == Some(WRAPPERS[k])
    decreases |WRAPPERS| - i
  {
    hide SameName;
    if i == |WRAPPERS| || SameName(stem, WRAPPERS[i].name) {
      k := i;
    } else {
      k := FindWrapperIs(stem, i + 1);
    }
  }

  /** The base name is what stands behind the last separator. */
  lemma {:induction false} BasenameIs(t: string) returns (dir: string)
    ensures t == dir + Basename(t) && '/' !in Basename(t) && '\\' !in Basename(t)
    ensures dir == "" || dir[|dir| - 1] == '/' || dir[|dir| - 1] == '\\'
  {
    if t == "" {
      dir := "";
    } else {
      var n := |t| - 1;
      assert t == t[..n] + [t[n]];
      if t[n] == '/' || t[n] == '\\' {
        dir := t;
      } else {
        dir := BasenameIs(t[..n]);
        assert dir + Basename(t[..n]) + [t[n]] == dir + (Basename(t[..n]) + [t[n]]);
      }
    }
  }

  /** Blanks and dots at the end are cut, and no others. */
  lemma {:induction false} TrimEndIs(s: string)
    ensures TrimEnd(s) <= s && forall k | |TrimEnd(s)| <= k < |s| :: s[k] == ' ' || s[k] == '.'
    ensures TrimEnd(s) != "" ==> TrimEnd(s)[|TrimEnd(s)| - 1] != ' ' && TrimEnd(s)[|TrimEnd(s)| - 1] != '.'
  {
    if s != "" && (s[|s| - 1] == ' ' || s[|s| - 1] == '.') {
      TrimEndIs(s[..|s| - 1]);
    }
  }

  /** A name as it stands in a table: no separator, no blank or dot at its end, no stream suffix. */
  predicate BareName(stem: string) {
    && stem != "" && NoSeparator(stem)
    && stem[|stem| - 1] != ' ' && stem[|stem| - 1] != '.' && !EndsWith(Lower(stem), "::$data")
  }

  predicate Trimmable(d: string) { forall k | 0 <= k < |d| :: d[k] == ' ' || d[k] == '.' }

  predicate IsSeparator(c: char) { c == '/' || c == '\\' }

  lemma BasenameSnoc(t: string, c: char)
    ensures Basename(t + [c]) == if IsSeparator(c) then "" else Basename(t) + [c]
  {
    assert (t + [c])[..|t|] == t;
  }

  predicate NoSeparator(name: string) { forall k | 0 <= k < |name| :: !IsSeparator(name[k]) }

  lemma BasenameOfDir(dir: string)
    requires dir == "" || IsSeparator(dir[|dir| - 1])
    ensures Basename(dir) == ""
  {
  }

  lemma {:induction false} BasenameOfPath(dir: string, name: string)
    requires NoSeparator(name) && (dir == "" || IsSeparator(dir[|dir| - 1]))
    ensures Basename(dir + name) == name
    decreases |name|
  {
    hide Basename, IsSeparator;
    if name == "" {
      BasenameOfDir(dir);
      assert dir + name == dir;
    } else {
      var init, c := name[..|name| - 1], name[|name| - 1];
      BasenameOfPath(dir, init);
      BasenameSnoc(dir + init, c);
      assert init + [c] == name;
      assert dir + name == dir + init + [c];
    }
  }

  lemma {:induction false} TrimsTail(stem: string, d: string)
    requires Trimmable(d) && (stem == "" || (stem[|stem| - 1] != ' ' && stem[|stem| - 1] != '.'))
    ensures TrimEnd(stem + d) == stem
    decreases |d|
  {
    if d == "" {
      assert stem + d == stem;
    } else {
      assert (stem + d)[..|stem + d| - 1] == stem + d[..|d| - 1] && (stem + d)[|stem + d| - 1] == d[|d| - 1];
      TrimsTail(stem, d[..|d| - 1]);
    }
  }

  /** Wherever a program lies and whatever blanks and dots trail it, it goes by its bare name. */
  lemma DecoratedName(dir: string, stem: string, d: string)
    requires BareName(stem) && Trimmable(d) && (dir == "" || IsSeparator(dir[|dir| - 1]))
    ensures NormalizedBasename(dir + (stem + d)) == stem
  {
    assert NoSeparator(stem + d);
    BasenameOfPath(dir, stem + d);
    TrimsTail(stem, d);
    TrimsTail(stem, "");
    assert stem + "" == stem;
    hide Basename, TrimEnd;
    assert StripDataStream(stem) == stem;
  }

  /** The default data stream of a file is the file. */
  lemma StreamName(stem: string, stream: string, d: string)
    requires BareName(stem) && Trimmable(d) && |stream| == 7 && Lower(stream) == "::$data"
    ensures NormalizedBasename(stem + stream + d) == stem
  {
    var name := stem + stream;
    StreamEnds(stem, stream);
    assert NoSeparator(name + d) by { StreamHasNoSeparator(stream); }
    BasenameOfPath("", name + d);
    assert "" + (name + d) == name + d;
    TrimsTail(name, d) by { StreamEnd(stream); }
    TrimsTail(stem, "");
    assert stem + "" == stem;
    hide Basename, TrimEnd;
    assert StripDataStream(stem) == stem;
  }

  lemma StreamEnds(stem: string, stream: string)
    requires |stream| == 7 && Lower(stream) == "::$data"
    ensures StripDataStream(stem + stream) == stem
  {
    var name := stem + stream;
    assert Lower(name)[|name| - 7..] == Lower(stream);
    assert name[..|name| - 7] == stem;
  }

  lemma StreamEnd(stream: string)
    requires |stream| == 7 && Lower(stream) == "::$data"
    ensures stream[6] != ' ' && stream[6] != '.'
  {
    assert Lower(stream)[6] == LowerChar(stream[6]) == 'a';
  }

  lemma StreamHasNoSeparator(stream: string)
    requires |stream| == 7 && Lower(stream) == "::$data"
    ensures NoSeparator(stream)
  {
    var low := "::$data";
    forall k | 0 <= k < 7
      ensures !IsSeparator(stream[k])
    {
      assert LowerChar(stream[k]) == Lower(stream)[k] == low[k];
      assert '/' !in low && '\\' !in low;
    }
  }

  /** A Windows extension in any case is not part of the name. */
  lemma ExtensionIsStripped(stem: string, ext: string)
    requires stem != "" && |ext| == 4 && Lower(ext) in [".exe", ".com", ".bat", ".cmd"]
    ensures StripWinExt(stem + ext) == stem
  {
    var name := stem + ext;
    assert Lower(name)[|name| - 4..] == Lower(ext);
    assert name[..|name| - 4] == stem;
  }
}
