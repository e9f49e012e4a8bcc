/** What a command line sets, and when it is accepted, read off its words. */
module ArgMeaning {
  import opened Dfa
  import opened ArgSpec
  import opened ArgKinds
  import opened Wrappers

  /** The place of the first letter with an argument in a short switch, from `k` on. */
  function FirstArg(w: string, k: nat): (p: nat)
    requires k <= |w|
    ensures k <= p <= |w| && (p < |w| ==> TakesArgument(w[p])) && forall i :: k <= i < p ==> !TakesArgument(w[i])
    decreases |w| - k
  { if k == |w| || TakesArgument(w[k]) then k else FirstArg(w, k + 1) }

  /** A letter, from `k` on, before any letter with an argument. */
  ghost predicate HasLetter(w: string, k: nat, ch: char) {
    exists i :: k <= i < |w| && Code(w[i]) == Code(ch) && forall j :: k <= j < i ==> !TakesArgument(w[j])
  }

  // Below, `k` is what a word is taken for and `before` the word before it.

  /** The word is a switch with this letter or this name, whatever follows the name. */
  ghost predicate Says(k: Kind, w: string, ch: char, name: string) {
    k == Any && if IsLong(w) then name <= w else IsShort(w) && HasLetter(w, 1, ch)
  }

  /** The word is the switch for help that has no letter. */
  predicate SaysUsage(k: Kind, w: string) { k == Any && "--usage" <= w }

  /** The argument the word gives for a switch, "" if none: all of it after a switch that waits for one, what stands
      after '=' in a long switch, or what follows the letter in a short one. */
  function Given(k: Kind, before: string, w: string, ch: char, name: string): string {
    match k
    case Rest => ""
    case Value => if EndsIn(before, ch) then w else ""
    case Any => if IsLong(w) then AfterEquals(w, name) else if IsShort(w) then AfterLetter(w, 1, ch) else ""
  }

  predicate EndsIn(w: string, ch: char) { w != "" && Code(w[|w| - 1]) == Code(ch) }

  function AfterEquals(w: string, name: string): string { if name + "=" <= w then w[|name| + 1..] else "" }

  function AfterLetter(w: string, k: nat, ch: char): string
    requires k <= |w|
  { var p := FirstArg(w, k); if p < |w| && Code(w[p]) == Code(ch) then w[p + 1..] else "" }

  const BARE: seq<string> := ["--verbose", "--version", "--help", "--usage", "--fail-fast", "--capture-none"]
  const WITH_ARGUMENT: seq<string> := ["--capture", "--redirect-captures", "--jobs"]

  /** The long switches there are: names without an argument, which may go on anyhow, names with one, and "--". */
  predicate Known(w: string) {
    || EndsSwitches(w) || (exists j :: 0 <= j < |BARE| && BARE[j] <= w)
    || (exists j :: 0 <= j < |WITH_ARGUMENT| && WITH_ARGUMENT[j] + "=" < w)
  }

  predicate RightStream(a: string) { a in ["", "none", "stdout", "stderr", "all"] }
  predicate RightJobs(number: Strtoul, a: string) { a == "" || (number(a).Some? && number(a).value > 0) }

  /** The word is acceptable: its argument is a right one, and a long switch is known. */
  predicate WordAccepted(number: Strtoul, k: Kind, before: string, w: string) {
    && RightStream(Given(k, before, w, 'c', "--capture"))
    && RightJobs(number, Given(k, before, w, 'j', "--jobs"))
    && (k == Any && IsLong(w) ==> Known(w))
  }

  function Stream(a: string): nat { if a == "none" then 0 else if a == "stdout" then 1 else if a == "stderr" then 2 else 3 }

  function Clamped(n: nat): nat { if n > 32 then 32 else n }

  // ---------------------------------------------------------------- what one word does

  /** The settings after some have been given arguments and others have been asked for. */
  function Changed(number: Strtoul, args: Args, capture: string, redirect: string, jobs: string, none: bool,
                   failFast: bool, help: bool, version: bool, verbose: bool): Args
    requires RightJobs(number, jobs)
  {
    Args(if redirect != "" then Some(redirect) else args.redirect,
         if jobs != "" then Clamped(number(jobs).value) else args.jobs,
         if capture != "" then Stream(capture) else if none then 0 else args.capture,
         args.fail_fast || failFast, args.help || help, args.version || version, args.verbose || verbose)
  }

  lemma Streams(a: string)
    requires a != ""
    ensures var i := IndexOf(VALID_CAPTURES, a, 0);
      (i.Some? <==> RightStream(a)) && (i.Some? ==> i.value == Stream(a))
  {
    assert VALID_CAPTURES[0] == "none" && VALID_CAPTURES[1] == "stdout";
    assert VALID_CAPTURES[2] == "stderr" && VALID_CAPTURES[3] == "all";
  }

  /** The row of the table a letter has. */
  lemma Letters(code: int)
    requires 0 <= code < SHORT_USAGE
    ensures Lookup(code, 0) ==
      if code == 'v' as int then Some(0) else if code == 'V' as int then Some(1) else if code == 'h' as int then Some(2)
      else if code == 'x' as int then Some(4) else if code == 'c' as int then Some(5) else if code == 's' as int then Some(6)
      else if code == 'd' as int then Some(7) else if code == 'j' as int then Some(8) else None
  {
    assert PARAMS[0].short == 'v' as int && PARAMS[1].short == 'V' as int && PARAMS[2].short == 'h' as int;
    assert PARAMS[4].short == 'x' as int && PARAMS[5].short == 'c' as int && PARAMS[6].short == 's' as int;
    assert PARAMS[7].short == 'd' as int && PARAMS[8].short == 'j' as int;
  }

  lemma LetterNext(w: string, k: nat, ch: char)
    requires k < |w|
    ensures HasLetter(w, k, ch) <==> Code(w[k]) == Code(ch) || (!TakesArgument(w[k]) && HasLetter(w, k + 1, ch))
  {
  }

  /** The action of a letter with an argument. */
  function ActionOf(c: char): (a: Action)
    ensures Takes(a)
  {
    if Code(c) == Code('c') then Capture else if Code(c) == Code('d') then Redirect else Jobs
  }

  /** The handlers of switches with an argument. */
  lemma Argued(number: Strtoul, c: Ctx, a: Action, arg: string)
    requires Takes(a)
    ensures var d := Handle(number, a, c, arg);
      && (d.Some? <==> (a == Capture ==> RightStream(arg)) && (a == Jobs ==> RightJobs(number, arg)))
      && (d.Some? ==>
           && d.value.args == Changed(number, c.args, if a == Capture then arg else "", if a == Redirect then arg else "",
                                      if a == Jobs then arg else "", false, false, false, false, false)
           && d.value.pending == (if arg == "" then Some(a) else c.pending))
  {
    if arg != "" { Streams(arg); }
  }

  /** The handlers of switches without one. */
  lemma Plain(number: Strtoul, c: Ctx, a: Action, rest: string)
    requires !Takes(a)
    ensures var d := Handle(number, a, c, rest);
      && d.Some? && d.value.pending == c.pending
      && d.value.args == Changed(number, c.args, "", "", "", a == CaptureNone, a == FailFast, a == Help, a == Version,
                                 a == Verbose)
  {
  }

  lemma ChangedTwice(number: Strtoul, args: Args, capture: string, redirect: string, jobs: string, none: bool,
                     failFast: bool, help: bool, version: bool, verbose: bool, none': bool, failFast': bool, help': bool,
                     version': bool, verbose': bool)
    requires RightJobs(number, jobs)
    ensures Changed(number, Changed(number, args, "", "", "", none, failFast, help, version, verbose),
                    capture, redirect, jobs, none', failFast', help', version', verbose')
         == Changed(number, args, capture, redirect, jobs, none || none', failFast || failFast', help || help',
                    version || version', verbose || verbose')
  {
  }

  /** A letter without an argument. */
  lemma Passed(number: Strtoul, c: Ctx, w: string, k: nat) returns (c': Ctx)
    requires k < |w| && !TakesArgument(w[k]) && c.pending.None?
    ensures var n := Code(w[k]);
      && c'.pending.None? && ShortSwitch(number, c, w, k) == ShortSwitch(number, c', w, k + 1)
      && c'.args == Changed(number, c.args, "", "", "", n == Code('s'), n == Code('x'), n == Code('h'), n == Code('V'),
                            n == Code('v'))
  {
    Letters(Code(w[k]));
    hide Lookup, Handle, TakesArgument;
    var i := Lookup(Code(w[k]), 0);
    if i.Some? {
      NoArgument(w[k]);
      Plain(number, c, PARAMS[i.value].handle, w[k + 1..]);
      c' := Handle(number, PARAMS[i.value].handle, c, w[k + 1..]).value;
    } else {
      c' := c;
    }
  }

  lemma NoArgument(ch: char)
    requires Lookup(Code(ch), 0).Some?
    ensures var p := PARAMS[Lookup(Code(ch), 0).value];
      && p.argument == Takes(p.handle) == TakesArgument(ch)
      && (p.handle == CaptureNone <==> Code(ch) == Code('s')) && (p.handle == FailFast <==> Code(ch) == Code('x'))
      && (p.handle == Help <==> Code(ch) == Code('h')) && (p.handle == Version <==> Code(ch) == Code('V'))
      && (p.handle == Verbose <==> Code(ch) == Code('v')) && (TakesArgument(ch) ==> p.handle == ActionOf(ch))
  {
    Letters(Code(ch));
    hide Lookup;
  }

  lemma AfterNext(w: string, k: nat, ch: char)
    requires k < |w|
    ensures AfterLetter(w, k, ch) ==
      if !TakesArgument(w[k]) then AfterLetter(w, k + 1, ch) else if Code(w[k]) == Code(ch) then w[k + 1..] else ""
  {
  }

  /** What the letters of a short switch from `k` on do. */
  ghost function ByLetters(number: Strtoul, args: Args, w: string, k: nat): Args
    requires k <= |w| && RightJobs(number, AfterLetter(w, k, 'j'))
  {
    Changed(number, args, AfterLetter(w, k, 'c'), AfterLetter(w, k, 'd'), AfterLetter(w, k, 'j'), HasLetter(w, k, 's'),
            HasLetter(w, k, 'x'), HasLetter(w, k, 'h'), HasLetter(w, k, 'V'), HasLetter(w, k, 'v'))
  }

  lemma NoLetters(number: Strtoul, args: Args, w: string)
    ensures RightJobs(number, AfterLetter(w, |w|, 'j')) && AfterLetter(w, |w|, 'c') == ""
    ensures ByLetters(number, args, w, |w|) == args
  {
  }

  /** A letter with an argument ends the switch. */
  lemma Taken(number: Strtoul, c: Ctx, w: string, k: nat)
    requires k < |w| && TakesArgument(w[k])
    ensures ShortSwitch(number, c, w, k) == Handle(number, ActionOf(w[k]), c, w[k + 1..])
  {
    Letters(Code(w[k]));
    hide Lookup, Handle;
    NoArgument(w[k]);
  }

  lemma TakenLetters(number: Strtoul, args: Args, w: string, k: nat)
    requires k < |w| && TakesArgument(w[k])
    ensures var a, rest := ActionOf(w[k]), w[k + 1..];
      && AfterLetter(w, k, 'c') == (if a == Capture then rest else "")
      && AfterLetter(w, k, 'j') == (if a == Jobs then rest else "")
      && (RightJobs(number, AfterLetter(w, k, 'j')) ==>
           ByLetters(number, args, w, k) == Changed(number, args, if a == Capture then rest else "",
             if a == Redirect then rest else "", if a == Jobs then rest else "", false, false, false, false, false))
  {
    hide Changed;
    forall ch | ch in ['s', 'x', 'h', 'V', 'v']
      ensures !HasLetter(w, k, ch)
    {
      LetterNext(w, k, ch);
    }
  }

  lemma PassedLetters(number: Strtoul, args: Args, w: string, k: nat)
    requires k < |w| && !TakesArgument(w[k]) && RightJobs(number, AfterLetter(w, k, 'j'))
    ensures AfterLetter(w, k, 'j') == AfterLetter(w, k + 1, 'j')
    ensures var n := Code(w[k]);
      var args' := Changed(number, args, "", "", "", n == Code('s'), n == Code('x'), n == Code('h'), n == Code('V'),
                           n == Code('v'));
      ByLetters(number, args, w, k) == ByLetters(number, args', w, k + 1)
  {
    hide Changed, TakesArgument, HasLetter, AfterLetter, Code;
    var n := Code(w[k]);
    AfterNext(w, k, 'c');
    AfterNext(w, k, 'd');
    AfterNext(w, k, 'j');
    LetterNext(w, k, 's');
    LetterNext(w, k, 'x');
    LetterNext(w, k, 'h');
    LetterNext(w, k, 'V');
    LetterNext(w, k, 'v');
    ChangedTwice(number, args, AfterLetter(w, k, 'c'), AfterLetter(w, k, 'd'), AfterLetter(w, k, 'j'),
                 n == Code('s'), n == Code('x'), n == Code('h'), n == Code('V'), n == Code('v'),
                 HasLetter(w, k + 1, 's'), HasLetter(w, k + 1, 'x'), HasLetter(w, k + 1, 'h'), HasLetter(w, k + 1, 'V'),
                 HasLetter(w, k + 1, 'v'));
  }

  lemma {:induction false} ShortMeans(number: Strtoul, c: Ctx, w: string, k: nat)
    requires k <= |w| && c.pending.None?
    ensures var d := ShortSwitch(number, c, w, k);
      && (d.Some? <==> RightStream(AfterLetter(w, k, 'c')) && RightJobs(number, AfterLetter(w, k, 'j')))
      && (d.Some? ==>
           && d.value.args == ByLetters(number, c.args, w, k)
           && d.value.pending == if FirstArg(w, k) + 1 == |w| then Some(ActionOf(w[|w| - 1])) else None)
    decreases |w| - k
  {
    hide Handle, Changed, ByLetters, AfterLetter, TakesArgument, ActionOf;
    if k == |w| {
      NoLetters(number, c.args, w);
    } else if TakesArgument(w[k]) {
      Taken(number, c, w, k);
      TakenLetters(number, c.args, w, k);
      Argued(number, c, ActionOf(w[k]), w[k + 1..]);
    } else {
      var c' := Passed(number, c, w, k);
      ShortMeans(number, c', w, k + 1);
      AfterNext(w, k, 'c');
      AfterNext(w, k, 'j');
      if RightJobs(number, AfterLetter(w, k, 'j')) { PassedLetters(number, c.args, w, k); }
    }
  }

  // ---------------------------------------------------------------- long switches

  lemma NoEquals(j: nat)
    requires j < |PARAMS|
    ensures '=' !in PARAMS[j].long
  {
  }

  /** Only "--capture" and "--" go on as other names. */
  lemma Extended(i: nat, j: nat)
    requires i < |PARAMS| && j < |PARAMS| && i != j && PARAMS[i].long <= PARAMS[j].long
    ensures i == 9 || (i == 5 && j == 6)
  {
    assert PARAMS[0].long[5] != PARAMS[1].long[5];
    if |PARAMS[i].long| > 2 { assert PARAMS[i].long[2] == PARAMS[j].long[2]; }
  }

  /** A name at the beginning of a word is recognised, for "--capture" and "--" at least before '='. */
  lemma NameAnswered(w: string, j: nat)
    requires j < |PARAMS| && PARAMS[j].long <= w && (j == 5 || j == 9 ==> PARAMS[j].long + "=" <= w)
    ensures Answer(LongWords(|PARAMS|), w) == (|PARAMS[j].long|, PARAMS[j].short)
  {
    hide LongWords, Answer;
    var words, name := LongWords(|PARAMS|), PARAMS[j].long;
    LongWordsAre(|PARAMS|);
    assert w[..|name|] == name && words[name] != 0;
    forall m, v | |name| < m <= |w| && v in words
      ensures !(w[..m] <= v)
    {
      assert w[..m][|name|] == w[|name|];
      if w[..m] <= v {
        var i :| 0 <= i < |PARAMS| && PARAMS[i].long == v;
        assert w[..m][..|name|] == name;
        assert v[..m] == w[..m];
        assert name <= v;
        NoEquals(i);
        if i != j { Extended(j, i); }
      }
    }
    AnswerIs(words, w);
    assert Recognised(words, w, |name|);
  }

  /** A name before '=' and an argument is recognised with its length and its code, whatever the argument. */
  lemma NameBeforeEquals(j: nat, arg: string)
    requires j < |PARAMS|
    ensures Answer(LongWords(|PARAMS|), PARAMS[j].long + "=" + arg) == (|PARAMS[j].long|, PARAMS[j].short)
  {
    NameAnswered(PARAMS[j].long + "=" + arg, j);
  }

  lemma EndsAnswered(w: string)
    requires EndsSwitches(w)
    ensures Answer(LongWords(|PARAMS|), w) == (2, SHORT_DDASH)
  {
    hide LongWords;
    LongWalk(w);
    LongWordsAre(|PARAMS|);
    assert w[..2] == PARAMS[9].long;
  }

  /** The name of a row, for "--capture" and "--" with '=', starts the word. */
  predicate Starts(w: string, i: nat)
    requires i < |PARAMS|
  { if i == 5 || i == 9 then PARAMS[i].long + "=" <= w else PARAMS[i].long <= w }

  /** The row of the table that a long switch has, if any. It is the only one that starts it. */
  lemma LongRow(number: Strtoul, c: Ctx, w: string) returns (row: Option<nat>)
    requires IsLong(w)
    ensures row.None? ==> LongSwitch(number, c, w).None?
    ensures row.None? ==> !EndsSwitches(w) && forall i :: 0 <= i < |PARAMS| ==> !Starts(w, i)
    ensures row.Some? ==>
      && row.value < |PARAMS| && PARAMS[row.value].long <= w && (row.value == 9 <==> EndsSwitches(w))
      && LongSwitch(number, c, w) == AfterName(number, c, w, |PARAMS[row.value].long|, PARAMS[row.value])
      && forall i :: 0 <= i < |PARAMS| && i != row.value ==> !Starts(w, i)
  {
    hide LongWords, Answer, Lookup, AfterName, EndsSwitches, IsLong;
    LongAnswer(w);
    var (len, code) := Answer(LongWords(|PARAMS|), w);
    row := if len == -1 then None else Lookup(code, 0);
    if EndsSwitches(w) { EndsAnswered(w); }
    forall i | 0 <= i < |PARAMS| && Starts(w, i)
      ensures row == Some(i)
    {
      NameAnswered(w, i);
      RowIsFound(i);
    }
  }

  lemma KnownIs(w: string)
    ensures Known(w) <==>
      || EndsSwitches(w) || "--verbose" <= w || "--version" <= w || "--help" <= w || "--usage" <= w
      || "--fail-fast" <= w || "--capture-none" <= w
      || "--capture" + "=" < w || "--redirect-captures" + "=" < w || "--jobs" + "=" < w
  {
    hide EndsSwitches;
    assert BARE[0] == "--verbose" && BARE[1] == "--version" && BARE[2] == "--help" && BARE[3] == "--usage";
    assert BARE[4] == "--fail-fast" && BARE[5] == "--capture-none";
    assert WITH_ARGUMENT[0] == "--capture" && WITH_ARGUMENT[1] == "--redirect-captures" && WITH_ARGUMENT[2] == "--jobs";
  }

  /** What a word does to the settings. */
  ghost function Effect(number: Strtoul, args: Args, k: Kind, before: string, w: string): Args
    requires RightJobs(number, Given(k, before, w, 'j', "--jobs"))
  {
    Changed(number, args, Given(k, before, w, 'c', "--capture"), Given(k, before, w, 'd', "--redirect-captures"),
            Given(k, before, w, 'j', "--jobs"), Says(k, w, 's', "--capture-none"), Says(k, w, 'x', "--fail-fast"),
            Says(k, w, 'h', "--help") || SaysUsage(k, w), Says(k, w, 'V', "--version"), Says(k, w, 'v', "--verbose"))
  }

  lemma StartsAre(w: string)
    ensures Starts(w, 0) <==> "--verbose" <= w
    ensures Starts(w, 1) <==> "--version" <= w
    ensures Starts(w, 2) <==> "--help" <= w
    ensures Starts(w, 3) <==> "--usage" <= w
    ensures Starts(w, 4) <==> "--fail-fast" <= w
    ensures Starts(w, 5) <==> "--capture" + "=" <= w
    ensures Starts(w, 6) <==> "--capture-none" <= w
    ensures "--redirect-captures" + "=" <= w ==> Starts(w, 7)
    ensures "--jobs" + "=" <= w ==> Starts(w, 8)
  {
  }

  /** The word has no other row than `row`. */
  ghost predicate OnlyRow(w: string, row: nat) {
    (row == 9 <==> EndsSwitches(w)) && forall i :: 0 <= i < |PARAMS| && i != row ==> !Starts(w, i)
  }

  lemma LongNone(number: Strtoul, before: string, w: string)
    requires IsLong(w) && OnlyRow(w, |PARAMS|)
    ensures !WordAccepted(number, Any, before, w)
  {
    hide EndsSwitches, Starts, IsLong, Given;
    KnownIs(w);
    StartsAre(w);
  }

  lemma LongBare(number: Strtoul, c: Ctx, before: string, w: string, row: nat)
    requires IsLong(w) && c.pending.None? && row < |PARAMS| && !PARAMS[row].argument
    requires PARAMS[row].long <= w && OnlyRow(w, row)
    ensures WordAccepted(number, Any, before, w)
    ensures var d := AfterName(number, c, w, |PARAMS[row].long|, PARAMS[row]);
      d.Some? && d.value.args == Effect(number, c.args, Any, before, w) && d.value.pending.None?
  {
    hide EndsSwitches, Known, Starts, IsLong, Changed, Handle;
    KnownIs(w);
    StartsAre(w);
    BareRow(w, row);
    Plain(number, c, PARAMS[row].handle, w[|PARAMS[row].long|..]);
  }

  lemma BareRow(w: string, row: nat)
    requires row < |PARAMS| && !PARAMS[row].argument && PARAMS[row].long <= w
    ensures row !in [5, 7, 8] && !Takes(PARAMS[row].handle) && (row != 9 ==> Starts(w, row))
  {
  }

  /** A word whose row takes an argument is accepted exactly if it gives a right one, and has no other effect. */
  lemma ArgumentRow(number: Strtoul, args: Args, before: string, w: string, row: nat)
    requires IsLong(w) && row < |PARAMS| && PARAMS[row].argument && PARAMS[row].long <= w && OnlyRow(w, row)
    ensures var a, arg := PARAMS[row].handle, AfterEquals(w, PARAMS[row].long);
      && (WordAccepted(number, Any, before, w) <==>
           arg != "" && (a == Capture ==> RightStream(arg)) && (a == Jobs ==> RightJobs(number, arg)))
      && (WordAccepted(number, Any, before, w) ==>
           Effect(number, args, Any, before, w) ==
           Changed(number, args, if a == Capture then arg else "", if a == Redirect then arg else "",
                   if a == Jobs then arg else "", false, false, false, false, false))
  {
    hide EndsSwitches, Known, Starts, IsLong, Changed;
    KnownIs(w);
    StartsAre(w);
  }

  lemma LongArgued(number: Strtoul, c: Ctx, before: string, w: string, row: nat)
    requires IsLong(w) && c.pending.None? && '\0' !in w && row < |PARAMS| && PARAMS[row].argument
    requires PARAMS[row].long <= w && OnlyRow(w, row)
    ensures var d := AfterName(number, c, w, |PARAMS[row].long|, PARAMS[row]);
      && (d.Some? <==> WordAccepted(number, Any, before, w))
      && (d.Some? ==> d.value.args == Effect(number, c.args, Any, before, w) && d.value.pending.None?)
  {
    hide OnlyRow, IsLong, Changed, Handle, WordAccepted, Effect, RightStream, RightJobs;
    ArgumentRow(number, c.args, before, w, row);
    HandlesOf(row);
    if PARAMS[row].long + "=" <= w { Argued(number, c, PARAMS[row].handle, w[|PARAMS[row].long| + 1..]); }
  }

  lemma LongMeans(number: Strtoul, c: Ctx, before: string, w: string)
    requires IsLong(w) && c.pending.None? && '\0' !in w
    ensures var d := LongSwitch(number, c, w);
      && (d.Some? <==> WordAccepted(number, Any, before, w))
      && (d.Some? ==> d.value.args == Effect(number, c.args, Any, before, w) && d.value.pending.None?)
  {
    hide LongSwitch, WordAccepted, Effect, AfterName, Starts, IsLong, EndsSwitches;
    var row := LongRow(number, c, w);
    if row.None? {
      LongNone(number, before, w);
    } else if PARAMS[row.value].argument {
      LongArgued(number, c, before, w, row.value);
    } else {
      LongBare(number, c, before, w, row.value);
    }
  }

  // ---------------------------------------------------------------- a word of any kind

  /** A switch that waits for its argument is the one the last letter of the word before stands for. */
  predicate Waiting(c: Ctx, before: string) {
    c.pending.Some? ==>
      before != "" && TakesArgument(before[|before| - 1]) && c.pending.value == ActionOf(before[|before| - 1])
  }

  lemma ValueMeans(number: Strtoul, c: Ctx, before: string, w: string)
    requires WellFormed(c) && Waiting(c, before) && c.pending.Some?
    ensures var d := Handle(number, c.pending.value, c, w);
      && (d.Some? <==> WordAccepted(number, Value, before, w))
      && (d.Some? ==> d.value.args == Effect(number, c.args, Value, before, w))
  {
    hide Handle, Changed;
    Argued(number, c, c.pending.value, w);
  }

  lemma NothingMeant(number: Strtoul, args: Args, k: Kind, before: string, w: string)
    requires k == Rest || (k == Any && !("-" <= w))
    ensures WordAccepted(number, k, before, w) && Effect(number, args, k, before, w) == args
  {
  }

  lemma LettersMeant(number: Strtoul, args: Args, before: string, w: string)
    requires IsShort(w)
    ensures WordAccepted(number, Any, before, w) <==>
      RightStream(AfterLetter(w, 1, 'c')) && RightJobs(number, AfterLetter(w, 1, 'j'))
    ensures WordAccepted(number, Any, before, w) ==>
      Effect(number, args, Any, before, w) == ByLetters(number, args, w, 1)
  {
    hide Changed, AfterLetter, HasLetter;
  }

  /** One word: when it is accepted, and what it sets. */
  lemma StepMeans(number: Strtoul, c: Ctx, before: string, w: string)
    requires WellFormed(c) && Waiting(c, before) && '\0' !in w
    ensures var s := Step(number, c, w);
      && (s.Some? <==> WordAccepted(number, KindOf(c), before, w))
      && (s.Some? ==> s.value.0.args == Effect(number, c.args, KindOf(c), before, w) && Waiting(s.value.0, w))
  {
    hide Handle, WordAccepted, Effect, LongSwitch, ShortSwitch, ByLetters, RightStream, RightJobs, TakesArgument, ActionOf;
    DashesAre(w);
    hide Dash, Dashes, IsLong;
    if c.pending.Some? {
      ValueMeans(number, c, before, w);
    } else if c.treat_as_posparam || !Dash(w) {
      NothingMeant(number, c.args, KindOf(c), before, w);
    } else if Dashes(w) {
      LongMeans(number, c, before, w);
    } else {
      ShortMeans(number, c, w, 1);
      LettersMeant(number, c.args, before, w);
    }
  }

  // ---------------------------------------------------------------- a line

  function Before(ws: seq<string>, i: nat): string
    requires i <= |ws|
  { if i == 0 then "" else ws[i - 1] }

  ghost predicate SaysAt(ws: seq<string>, i: nat, ch: char, name: string)
    requires i < |ws|
  { Says(KindAt(Any, ws, i), ws[i], ch, name) }

  predicate UsageAt(ws: seq<string>, i: nat)
    requires i < |ws|
  { SaysUsage(KindAt(Any, ws, i), ws[i]) }

  function GivenAt(ws: seq<string>, i: nat, ch: char, name: string): string
    requires i < |ws|
  { Given(KindAt(Any, ws, i), Before(ws, i), ws[i], ch, name) }

  predicate AcceptedAt(number: Strtoul, ws: seq<string>, i: nat)
    requires i < |ws|
  { WordAccepted(number, KindAt(Any, ws, i), Before(ws, i), ws[i]) }

  /** A line is accepted if all its words are, and no switch is left waiting for its argument. */
  predicate Accepted(number: Strtoul, ws: seq<string>) {
    (forall i :: 0 <= i < |ws| ==> AcceptedAt(number, ws, i)) && KindAt(Any, ws, |ws|) != Value
  }

  /** Some word among the first `n` is a switch with this letter or this name. */
  ghost predicate Said(ws: seq<string>, n: nat, ch: char, name: string)
    requires n <= |ws|
  { exists i :: 0 <= i < n && SaysAt(ws, i, ch, name) }

  ghost predicate UsageSaid(ws: seq<string>, n: nat)
    requires n <= |ws|
  { exists i :: 0 <= i < n && UsageAt(ws, i) }

  /** No word among those from `m` up to `n` gives the switch an argument. */
  ghost predicate NoneGiven(ws: seq<string>, m: nat, n: nat, ch: char, name: string)
    requires n <= |ws|
  { forall i :: m <= i < n ==> GivenAt(ws, i, ch, name) == "" }

  /** Word `i` gives the last argument for the switch. */
  ghost predicate LastGiven(ws: seq<string>, i: nat, n: nat, ch: char, name: string)
    requires n <= |ws|
  { i < n && GivenAt(ws, i, ch, name) != "" && NoneGiven(ws, i + 1, n, ch, name) }

  ghost predicate JobsMeant(number: Strtoul, ws: seq<string>, n: nat, jobs: nat)
    requires n <= |ws|
  {
    && (NoneGiven(ws, 0, n, 'j', "--jobs") ==> jobs == 1)
    && forall i :: LastGiven(ws, i, n, 'j', "--jobs") ==>
      var a := number(GivenAt(ws, i, 'j', "--jobs")); a.Some? && jobs == Clamped(a.value)
  }

  ghost predicate RedirectMeant(ws: seq<string>, n: nat, redirect: Option<string>)
    requires n <= |ws|
  {
    && (NoneGiven(ws, 0, n, 'd', "--redirect-captures") ==> redirect == None)
    && forall i :: LastGiven(ws, i, n, 'd', "--redirect-captures") ==>
      redirect == Some(GivenAt(ws, i, 'd', "--redirect-captures"))
  }

  /** Word `i` says what to capture: in a word that does so twice, the argument stands behind the letter 's'. */
  ghost predicate Captures(ws: seq<string>, i: nat)
    requires i < |ws|
  { GivenAt(ws, i, 'c', "--capture") != "" || SaysAt(ws, i, 's', "--capture-none") }

  ghost predicate NoneCaptures(ws: seq<string>, m: nat, n: nat)
    requires n <= |ws|
  { forall i :: m <= i < n ==> !Captures(ws, i) }

  ghost predicate LastCaptures(ws: seq<string>, i: nat, n: nat)
    requires n <= |ws|
  { i < n && Captures(ws, i) && NoneCaptures(ws, i + 1, n) }

  ghost predicate CaptureMeant(ws: seq<string>, n: nat, capture: nat)
    requires n <= |ws|
  {
    && (NoneCaptures(ws, 0, n) ==> capture == 3)
    && forall i :: LastCaptures(ws, i, n) ==>
      var a := GivenAt(ws, i, 'c', "--capture"); capture == if a != "" then Stream(a) else 0
  }

  /** The settings that the first `n` words make. */
  ghost predicate Meant(number: Strtoul, ws: seq<string>, n: nat, args: Args)
    requires n <= |ws|
  {
    && (args.verbose <==> Said(ws, n, 'v', "--verbose"))
    && (args.version <==> Said(ws, n, 'V', "--version"))
    && (args.help <==> Said(ws, n, 'h', "--help") || UsageSaid(ws, n))
    && (args.fail_fast <==> Said(ws, n, 'x', "--fail-fast"))
    && JobsMeant(number, ws, n, args.jobs) && RedirectMeant(ws, n, args.redirect) && CaptureMeant(ws, n, args.capture)
  }

  lemma EffectAt(number: Strtoul, ws: seq<string>, n: nat, args: Args, args': Args)
    requires n < |ws| && AcceptedAt(number, ws, n)
    requires args' == Effect(number, args, KindAt(Any, ws, n), Before(ws, n), ws[n])
    ensures var c, d, j := GivenAt(ws, n, 'c', "--capture"), GivenAt(ws, n, 'd', "--redirect-captures"),
                           GivenAt(ws, n, 'j', "--jobs");
      && RightJobs(number, j) && args'.jobs == (if j != "" then Clamped(number(j).value) else args.jobs)
      && args'.redirect == (if d != "" then Some(d) else args.redirect)
      && args'.capture ==
           (if c != "" then Stream(c) else if SaysAt(ws, n, 's', "--capture-none") then 0 else args.capture)
    ensures args'.verbose <==> args.verbose || SaysAt(ws, n, 'v', "--verbose")
    ensures args'.version <==> args.version || SaysAt(ws, n, 'V', "--version")
    ensures args'.help <==> args.help || SaysAt(ws, n, 'h', "--help") || UsageAt(ws, n)
    ensures args'.fail_fast <==> args.fail_fast || SaysAt(ws, n, 'x', "--fail-fast")
  {
    hide Says, Given, SaysUsage, KindAt, Stream, Clamped;
  }

  lemma MeantNext(number: Strtoul, ws: seq<string>, n: nat, args: Args, args': Args)
    requires n < |ws| && Meant(number, ws, n, args) && AcceptedAt(number, ws, n)
    requires args' == Effect(number, args, KindAt(Any, ws, n), Before(ws, n), ws[n])
    ensures Meant(number, ws, n + 1, args')
  {
    hide Effect, AcceptedAt, SaysAt, GivenAt, UsageAt, RightJobs, KindAt, Stream, Clamped, JobsMeant, RedirectMeant,
      CaptureMeant, Said, UsageSaid;
    EffectAt(number, ws, n, args, args');
    JobsNext(number, ws, n, args.jobs, args'.jobs);
    RedirectNext(ws, n, args.redirect, args'.redirect);
    CaptureNext(ws, n, args.capture, args'.capture);
    SaidNext(ws, n, 'v', "--verbose");
    SaidNext(ws, n, 'V', "--version");
    SaidNext(ws, n, 'h', "--help");
    SaidNext(ws, n, 'x', "--fail-fast");
    UsageNext(ws, n);
  }

  lemma UsageNext(ws: seq<string>, n: nat)
    requires n < |ws|
    ensures UsageSaid(ws, n + 1) <==> UsageSaid(ws, n) || UsageAt(ws, n)
  {
    hide UsageAt;
  }

  lemma SaidNext(ws: seq<string>, n: nat, ch: char, name: string)
    requires n < |ws|
    ensures Said(ws, n + 1, ch, name) <==> Said(ws, n, ch, name) || SaysAt(ws, n, ch, name)
  {
    hide SaysAt;
  }

  lemma LastNext(ws: seq<string>, i: nat, n: nat, ch: char, name: string)
    requires n < |ws|
    ensures LastGiven(ws, i, n + 1, ch, name) <==>
      if GivenAt(ws, n, ch, name) != "" then i == n else LastGiven(ws, i, n, ch, name)
  {
    hide GivenAt;
  }

  lemma JobsNext(number: Strtoul, ws: seq<string>, n: nat, jobs: nat, jobs': nat)
    requires n < |ws| && JobsMeant(number, ws, n, jobs)
    requires var a := GivenAt(ws, n, 'j', "--jobs");
      RightJobs(number, a) && jobs' == if a != "" then Clamped(number(a).value) else jobs
    ensures JobsMeant(number, ws, n + 1, jobs')
  {
    hide GivenAt, LastGiven, Clamped;
    forall i
      ensures LastGiven(ws, i, n + 1, 'j', "--jobs") <==>
        if GivenAt(ws, n, 'j', "--jobs") != "" then i == n else LastGiven(ws, i, n, 'j', "--jobs")
    {
      LastNext(ws, i, n, 'j', "--jobs");
    }
  }

  lemma RedirectNext(ws: seq<string>, n: nat, redirect: Option<string>, redirect': Option<string>)
    requires n < |ws| && RedirectMeant(ws, n, redirect)
    requires var a := GivenAt(ws, n, 'd', "--redirect-captures"); redirect' == if a != "" then Some(a) else redirect
    ensures RedirectMeant(ws, n + 1, redirect')
  {
    hide GivenAt, LastGiven;
    forall i
      ensures LastGiven(ws, i, n + 1, 'd', "--redirect-captures") <==>
        if GivenAt(ws, n, 'd', "--redirect-captures") != "" then i == n
        else LastGiven(ws, i, n, 'd', "--redirect-captures")
    {
      LastNext(ws, i, n, 'd', "--redirect-captures");
    }
  }

  lemma CaptureNext(ws: seq<string>, n: nat, capture: nat, capture': nat)
    requires n < |ws| && CaptureMeant(ws, n, capture)
    requires var a := GivenAt(ws, n, 'c', "--capture");
      capture' == if a != "" then Stream(a) else if SaysAt(ws, n, 's', "--capture-none") then 0 else capture
    ensures CaptureMeant(ws, n + 1, capture')
  {
    hide GivenAt, SaysAt, Stream;
    var a := GivenAt(ws, n, 'c', "--capture");
    assert Captures(ws, n) <==> a != "" || SaysAt(ws, n, 's', "--capture-none");
    hide Captures, LastCaptures;
    assert NoneCaptures(ws, 0, n + 1) ==> NoneCaptures(ws, 0, n) && !Captures(ws, n);
    forall i: nat
      ensures LastCaptures(ws, i, n + 1) <==> if Captures(ws, n) then i == n else LastCaptures(ws, i, n)
    {
      LastCapturesNext(ws, i, n);
    }
  }

  lemma LastCapturesNext(ws: seq<string>, i: nat, n: nat)
    requires n < |ws|
    ensures LastCaptures(ws, i, n + 1) <==> if Captures(ws, n) then i == n else LastCaptures(ws, i, n)
  {
    hide Captures;
  }

  ghost predicate CStrings(ws: seq<string>) { forall i :: 0 <= i < |ws| ==> '\0' !in ws[i] }

  /** The first `n` words of a line are parsed exactly if they are accepted, and then they make the settings they say. */
  lemma {:induction false} ScanMeans(number: Strtoul, ws: seq<string>, n: nat)
    requires n <= |ws| && CStrings(ws)
    ensures var r := Scan(number, START, ws[..n]);
      && (r.Some? <==> forall i :: 0 <= i < n ==> AcceptedAt(number, ws, i))
      && (r.Some? ==> var c := r.value.0;
           WellFormed(c) && KindOf(c) == KindAt(Any, ws, n) && Waiting(c, Before(ws, n)) && Meant(number, ws, n, c.args))
  {
    hide Scan, Step, Meant, AcceptedAt, Waiting, WordAccepted, Effect, NextKind, KindOf, WellFormed;
    if n == 0 {
      assert ws[..0] == [];
      StartMeans(number, ws);
    } else {
      ScanMeans(number, ws, n - 1);
      var r := Scan(number, START, ws[..n - 1]);
      if r.Some? {
        var c := r.value.0;
        StepMeans(number, c, Before(ws, n - 1), ws[n - 1]);
        assert ws[..n][..n - 1] == ws[..n - 1] && ws[..n][..n] == ws[..n];
        ScanSnoc(number, START, ws[..n], n - 1);
        AcceptedIs(number, ws, n - 1);
        if Step(number, c, ws[n - 1]).Some? {
          StepKind(number, c, ws[n - 1]);
          MeantNext(number, ws, n - 1, c.args, Step(number, c, ws[n - 1]).value.0.args);
        }
      } else {
        assert ws[..n] == ws[..n - 1] + [ws[n - 1]];
        ScanAppend(number, START, ws[..n - 1], [ws[n - 1]]);
      }
    }
  }

  lemma AcceptedIs(number: Strtoul, ws: seq<string>, i: nat)
    requires i < |ws|
    ensures AcceptedAt(number, ws, i) <==> WordAccepted(number, KindAt(Any, ws, i), Before(ws, i), ws[i])
  {
  }

  lemma StartMeans(number: Strtoul, ws: seq<string>)
    ensures Scan(number, START, []) == Some((START, [])) && Meant(number, ws, 0, START.args)
    ensures WellFormed(START) && KindOf(START) == Any && Waiting(START, "")
  {
  }

  /** A line parses exactly if it is accepted, and then it makes the settings its words say. */
  lemma LineMeans(number: Strtoul, ws: seq<string>)
    requires CStrings(ws)
    ensures Parses(number, START, ws) <==> Accepted(number, ws)
    ensures Parses(number, START, ws) ==> Meant(number, ws, |ws|, Scan(number, START, ws).value.0.args)
  {
    hide Scan, Meant, AcceptedAt;
    ScanMeans(number, ws, |ws|);
    assert ws[..|ws|] == ws;
  }

  lemma JobsName(number: Strtoul, n: CString)
    ensures var w := "--jobs=" + n;
      && '\0' !in w && IsLong(w) && !EndsSwitches(w) && (Known(w) <==> n != "")
      && AfterEquals(w, "--jobs") == n && AfterEquals(w, "--capture") == "" == AfterEquals(w, "--redirect-captures")
      && !("--verbose" <= w) && !("--version" <= w) && !("--help" <= w) && !("--usage" <= w) && !("--fail-fast" <= w)
      && !("--capture-none" <= w)
  {
    var w := "--jobs=" + n;
    JobsStart(n);
    hide Known, EndsSwitches, Starts, IsLong;
    KnownIs(w);
    StartsAre(w);
    var row := LongRow(number, START, w);
  }

  lemma JobsStart(n: CString)
    ensures var w := "--jobs=" + n;
      '\0' !in w && IsLong(w) && Starts(w, 8) && "--jobs" + "=" <= w && w[7..] == n && |"--jobs"| + 1 == 7
  {
  }

  lemma JobsWord(number: Strtoul, args: Args, n: CString)
    ensures var w := "--jobs=" + n;
      && (WordAccepted(number, Any, "", w) <==> n != "" && number(n).Some? && number(n).value > 0)
      && (WordAccepted(number, Any, "", w) ==>
           Effect(number, args, Any, "", w) == args.(jobs := Clamped(number(n).value)))
  {
    hide Known, EndsSwitches, AfterEquals, IsLong;
    JobsName(number, n);
  }

  /** The number of jobs after '=': the line parses exactly if it is a positive number, and sets the jobs to it. */
  lemma JobsAfterEquals(number: Strtoul, n: CString)
    ensures var ws := ["--jobs=" + n];
      && (Parses(number, START, ws) <==> n != "" && number(n).Some? && number(n).value > 0)
      && (Parses(number, START, ws) ==>
           Scan(number, START, ws).value.0.args == START.args.(jobs := Clamped(number(n).value)))
  {
    hide Step, Changed;
    var w := "--jobs=" + n;
    JobsName(number, n);
    JobsWord(number, START.args, n);
    StepMeans(number, START, "", w);
    DashesAre(w);
    assert [w][..1] == [w] && [w][0] == w && [w][1..] == [];
    ScanSnoc(number, START, [w], 0);
    if Step(number, START, w).Some? { StepKind(number, START, w); }
  }
}
