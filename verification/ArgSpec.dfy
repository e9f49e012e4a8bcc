/** What the command line means: the state each word leads to, the words that are positional, and the stable
    partition of the words (cldm_argp.c). A word is a C string without its terminator. */
module ArgSpec {
  import opened Dfa
  import opened Wrappers

  datatype Action = Verbose | Version | Help | FailFast | Capture | CaptureNone | Redirect | Jobs | Posidx

  datatype Param = Param(short: int, long: string, argument: bool, handle: Action)

  const SHORT_USAGE := 256
  const SHORT_DDASH := 257
  const MAX_THREADS := 32
  const CAPTURE_NONE := 0
  const CAPTURE_ALL := 3

  const PARAMS: seq<Param> := [
    Param('v' as int, "--verbose", false, Verbose),
    Param('V' as int, "--version", false, Version),
    Param('h' as int, "--help", false, Help),
    Param(SHORT_USAGE, "--usage", false, Help),
    Param('x' as int, "--fail-fast", false, FailFast),
    Param('c' as int, "--capture", true, Capture),
    Param('s' as int, "--capture-none", false, CaptureNone),
    Param('d' as int, "--redirect-captures", true, Redirect),
    Param('j' as int, "--jobs", true, Jobs),
    Param(SHORT_DDASH, "--", false, Posidx)]

  const VALID_CAPTURES: seq<string> := ["none", "stdout", "stderr", "all"]

  /** The words of the recogniser after the first `k` switches have been added. */
  function LongWords(k: nat): map<string, int>
    requires k <= |PARAMS|
  { if k == 0 then map[] else LongWords(k - 1)[PARAMS[k - 1].long := PARAMS[k - 1].short] }

  /** cldm_args, without the positional words */
  datatype Args = Args(redirect: Option<string>, jobs: nat, capture: nat, fail_fast: bool, help: bool,
                       version: bool, verbose: bool)

  /** cldm_argp_ctx; `pending` is the handler of a short switch that waits for its argument. */
  datatype Ctx = Ctx(args: Args, treat_as_posparam: bool, pending: Option<Action>)

  const START := Ctx(Args(None, 1, CAPTURE_ALL, false, false, false, false), false, None)

  /** strtoul in base 0: the number, or nothing if a character is left over. */
  type Strtoul = string -> Option<nat>

  /** The character at `i` of a C string, the terminator included. */
  function At(w: string, i: nat): char { if i < |w| then w[i] else '\0' }

  /** A character is one byte wide; none has the code of a switch without a letter. */
  function Code(c: char): (n: int)
    ensures 0 <= n < SHORT_USAGE
  { c as int % 256 }

  function IndexOf(xs: seq<string>, x: string, k: nat): (i: Option<nat>)
    requires k <= |xs|
    ensures i.Some? ==> i.value < |xs| && xs[i.value] == x
    ensures i.None? ==> x !in xs[k..]
    decreases |xs| - k
  { if k == |xs| then None else if xs[k] == x then Some(k) else IndexOf(xs, x, k + 1) }

  /** The parameter with a code, looked for from `k` on. */
  function Lookup(code: int, k: nat): (i: Option<nat>)
    requires k <= |PARAMS|
    ensures i.Some? ==> k <= i.value < |PARAMS| && PARAMS[i.value].short == code
    ensures i.None? ==> forall j :: k <= j < |PARAMS| ==> PARAMS[j].short != code
    decreases |PARAMS| - k
  { if k == |PARAMS| then None else if PARAMS[k].short == code then Some(k) else Lookup(code, k + 1) }

  /** The handlers; an empty argument makes those that need one wait for the next word. */
  function Handle(number: Strtoul, a: Action, c: Ctx, optarg: string): Option<Ctx> {
    match a
    case Verbose => Some(c.(args := c.args.(verbose := true)))
    case Version => Some(c.(args := c.args.(version := true)))
    case Help => Some(c.(args := c.args.(help := true)))
    case FailFast => Some(c.(args := c.args.(fail_fast := true)))
    case Capture =>
      if optarg == "" then Some(c.(pending := Some(Capture))) else
      var i := IndexOf(VALID_CAPTURES, optarg, 0);
      if i.None? then None else Some(c.(args := c.args.(capture := i.value)))
    case CaptureNone => Some(c.(args := c.args.(capture := CAPTURE_NONE)))
    case Redirect =>
      if optarg == "" then Some(c.(pending := Some(Redirect)))
      else Some(c.(args := c.args.(redirect := Some(optarg))))
    case Jobs =>
      if optarg == "" then Some(c.(pending := Some(Jobs))) else
      var n := number(optarg);
      if n.None? || n.value == 0 then None
      else Some(c.(args := c.args.(jobs := if n.value > MAX_THREADS then MAX_THREADS else n.value)))
    case Posidx => Some(c.(treat_as_posparam := true))
  }

  /** The letters of a short switch from `k` on; letters that are in no table are passed over. */
  function ShortSwitch(number: Strtoul, c: Ctx, sw: string, k: nat): Option<Ctx>
    requires k <= |sw|
    decreases |sw| - k
  {
    if k == |sw| then Some(c) else
    var i := Lookup(Code(sw[k]), 0);
    if i.None? then ShortSwitch(number, c, sw, k + 1) else
    var d := Handle(number, PARAMS[i.value].handle, c, sw[k + 1..]);
    if d.None? || PARAMS[i.value].argument then d else ShortSwitch(number, d.value, sw, k + 1)
  }

  /** A long switch, recognised by its longest prefix that starts one. */
  ghost function LongSwitch(number: Strtoul, c: Ctx, sw: string): Option<Ctx> {
    var (len, code) := Answer(LongWords(|PARAMS|), sw);
    if len == -1 then None else
    var i := Lookup(code, 0);
    if i.None? then None else
    AfterName(number, c, sw, len, PARAMS[i.value])
  }

  /** What follows the name of a long switch: an argument after '=' if it takes one. */
  function AfterName(number: Strtoul, c: Ctx, sw: string, len: int, p: Param): Option<Ctx> {
    if len < 0 || len > |sw| then None
    else if p.argument then
      if At(sw, len) != '=' || At(sw, len + 1) == '\0' then None
      else Handle(number, p.handle, c, sw[len + 1..])
    else Handle(number, p.handle, c, sw[len..])
  }

  predicate Dash(w: string) { At(w, 0) == '-' }
  predicate Dashes(w: string) { Dash(w) && At(w, 1) == '-' }

  /** One word: the state after it, and whether it is positional. */
  ghost function Step(number: Strtoul, c: Ctx, w: string): Option<(Ctx, bool)> {
    if c.pending.Some? then
      var d := Handle(number, c.pending.value, c, w);
      if d.None? then None else Some((d.value.(pending := None), false))
    else if c.treat_as_posparam || !Dash(w) then Some((c, true))
    else
      var d := if Dashes(w) then LongSwitch(number, c, w) else ShortSwitch(number, c, w, 1);
      if d.None? then None else Some((d.value, false))
  }

  ghost function Scan(number: Strtoul, c: Ctx, ws: seq<string>): (r: Option<(Ctx, seq<bool>)>)
    ensures r.Some? ==> |r.value.1| == |ws|
    decreases |ws|
  {
    if ws == [] then Some((c, [])) else
    var s := Step(number, c, ws[0]);
    if s.None? then None else
    var r := Scan(number, s.value.0, ws[1..]);
    if r.None? then None else Some((r.value.0, [s.value.1] + r.value.1))
  }

  /** The line parses: every word is accepted and the last switch has its argument. */
  ghost predicate Parses(number: Strtoul, c: Ctx, ws: seq<string>) {
    Scan(number, c, ws).Some? && Scan(number, c, ws).value.0.pending.None?
  }

  // ---------------------------------------------------------------- partition

  /** The words whose flag is `b`, in order. */
  function Pick(ws: seq<string>, flags: seq<bool>, b: bool): (r: seq<string>)
    requires |ws| == |flags|
    ensures |r| <= |ws|
  { if ws == [] then [] else (if flags[0] == b then [ws[0]] else []) + Pick(ws[1..], flags[1..], b) }

  /** Option words and the values they consume, then the positional words. */
  function Partitioned(ws: seq<string>, flags: seq<bool>): (r: seq<string>)
    requires |ws| == |flags|
  { Pick(ws, flags, false) + Pick(ws, flags, true) }

  function Count(flags: seq<bool>, b: bool, k: nat): (n: nat)
    requires k <= |flags|
    ensures n <= k
  { if k == 0 then 0 else Count(flags, b, k - 1) + if flags[k - 1] == b then 1 else 0 }

  lemma {:induction false} CountTail(flags: seq<bool>, b: bool, k: nat)
    requires 1 <= k <= |flags|
    ensures Count(flags, b, k) == Count(flags[1..], b, k - 1) + if flags[0] == b then 1 else 0
  {
    if k > 1 {
      CountTail(flags, b, k - 1);
      assert flags[1..][k - 2] == flags[k - 1];
    }
  }

  /** Word `i` goes after all words of its kind before it: to the place counted by their number. */
  lemma {:induction false} PickAt(ws: seq<string>, flags: seq<bool>, i: nat)
    requires |ws| == |flags| && i < |ws|
    ensures Count(flags, flags[i], i) < |Pick(ws, flags, flags[i])| == Count(flags, flags[i], |flags|)
    ensures Pick(ws, flags, flags[i])[Count(flags, flags[i], i)] == ws[i]
  {
    PickSize(ws, flags, flags[i]);
    if i > 0 {
      CountTail(flags, flags[i], i);
      PickAt(ws[1..], flags[1..], i - 1);
    } else {
      CountTail(flags, flags[i], |flags|);
    }
  }

  lemma {:induction false} PickSize(ws: seq<string>, flags: seq<bool>, b: bool)
    requires |ws| == |flags|
    ensures |Pick(ws, flags, b)| == Count(flags, b, |flags|)
  {
    if ws != [] {
      PickSize(ws[1..], flags[1..], b);
      CountTail(flags, b, |flags|);
    }
  }

  lemma OneMoreWord(w: string, f: seq<string>, t: seq<string>, ws: seq<string>)
    requires multiset(f + t) == multiset(ws)
    ensures multiset(f + ([w] + t)) == multiset([w] + ws) == multiset(([w] + f) + t)
  {
  }

  /** Nothing is lost and nothing is duplicated. */
  lemma {:induction false} PartitionKeepsWords(ws: seq<string>, flags: seq<bool>)
    requires |ws| == |flags|
    ensures multiset(Partitioned(ws, flags)) == multiset(ws)
  {
    if ws != [] {
      PartitionKeepsWords(ws[1..], flags[1..]);
      OneMoreWord(ws[0], Pick(ws[1..], flags[1..], false), Pick(ws[1..], flags[1..], true), ws[1..]);
      PickFirst(ws, flags);
      hide Pick;
      assert ws == [ws[0]] + ws[1..];
    }
  }

  lemma PickFirst(ws: seq<string>, flags: seq<bool>)
    requires |ws| == |flags| && ws != []
    ensures Pick(ws, flags, flags[0]) == [ws[0]] + Pick(ws[1..], flags[1..], flags[0])
    ensures Pick(ws, flags, !flags[0]) == Pick(ws[1..], flags[1..], !flags[0])
  {
    assert [] + Pick(ws[1..], flags[1..], !flags[0]) == Pick(ws[1..], flags[1..], !flags[0]);
  }

  // ---------------------------------------------------------------- parsing a partitioned line

  function Repeat(b: bool, n: nat): (r: seq<bool>)
    ensures |r| == n && forall i :: 0 <= i < n ==> r[i] == b
  { seq(n, _ => b) }

  lemma {:induction false} ScanAppend(number: Strtoul, c: Ctx, a: seq<string>, b: seq<string>)
    ensures Scan(number, c, a + b).Some? <==>
      Scan(number, c, a).Some? && Scan(number, Scan(number, c, a).value.0, b).Some?
    ensures Scan(number, c, a + b).Some? ==>
      var r := Scan(number, c, a).value;
      var s := Scan(number, r.0, b).value;
      Scan(number, c, a + b).value == (s.0, r.1 + s.1)
    decreases |a|
  {
    hide Step;
    if a == [] {
      assert a + b == b;
      if Scan(number, c, b).Some? {
        assert [] + Scan(number, c, b).value.1 == Scan(number, c, b).value.1;
      }
    } else {
      assert (a + b)[0] == a[0] && (a + b)[1..] == a[1..] + b;
      var s := Step(number, c, a[0]);
      if s.Some? {
        ScanAppend(number, s.value.0, a[1..], b);
        var r, t := Scan(number, s.value.0, a[1..]), Scan(number, s.value.0, a[1..] + b);
        if t.Some? {
          var u := Scan(number, r.value.0, b).value;
          assert [s.value.1] + (r.value.1 + u.1) == ([s.value.1] + r.value.1) + u.1;
        }
      }
    }
  }

  /** One more word. */
  lemma ScanSnoc(number: Strtoul, c: Ctx, ws: seq<string>, k: nat)
    requires k < |ws| && Scan(number, c, ws[..k]).Some?
    ensures var r := Scan(number, c, ws[..k]).value;
      var s := Step(number, r.0, ws[k]);
      && (s.None? ==> Scan(number, c, ws).None?)
      && (s.Some? ==> Scan(number, c, ws[..k + 1]) == Some((s.value.0, r.1 + [s.value.1])))
  {
    hide Step;
    var r := Scan(number, c, ws[..k]).value;
    var s := Step(number, r.0, ws[k]);
    assert ws[..k + 1] == ws[..k] + [ws[k]] && ws == ws[..k + 1] + ws[k + 1..];
    ScanAppend(number, c, ws[..k], [ws[k]]);
    ScanAppend(number, c, ws[..k + 1], ws[k + 1..]);
    if s.Some? {
      assert Scan(number, s.value.0, []) == Some((s.value.0, []));
      assert [s.value.1] + [] == [s.value.1];
    }
  }

  /** Positional words leave the state alone. */
  lemma {:induction false} PositionalsKeep(number: Strtoul, c: Ctx, ws: seq<string>)
    requires Scan(number, c, ws).Some? && forall i :: 0 <= i < |ws| ==> Scan(number, c, ws).value.1[i]
    ensures Scan(number, c, ws).value.0 == c
    decreases |ws|
  {
    if ws != [] {
      var s := Step(number, c, ws[0]);
      var r := Scan(number, s.value.0, ws[1..]);
      assert Scan(number, c, ws).value.1[0] == s.value.1;
      forall i | 0 <= i < |ws| - 1
        ensures r.value.1[i]
      {
        assert Scan(number, c, ws).value.1[i + 1] == r.value.1[i];
      }
      PositionalsKeep(number, c, ws[1..]);
    }
  }

  /** After "--" no word is a switch. */
  lemma {:induction false} RestIsPositional(number: Strtoul, c: Ctx, ws: seq<string>)
    requires c.treat_as_posparam && c.pending.None?
    ensures Scan(number, c, ws) == Some((c, Repeat(true, |ws|)))
    decreases |ws|
  {
    if ws != [] {
      RestIsPositional(number, c, ws[1..]);
      assert [true] + Repeat(true, |ws| - 1) == Repeat(true, |ws|);
    } else {
      assert Repeat(true, 0) == [];
    }
  }

  /** Partitioning keeps the meaning of a line: parsed again, with the option words first, it gives the same
      settings, the same option words and the same positional words. */
  lemma {:induction false} PartitionKeepsMeaning(number: Strtoul, c: Ctx, ws: seq<string>)
    requires Parses(number, c, ws)
    ensures var r := Scan(number, c, ws).value;
      var o, p := Pick(ws, r.1, false), Pick(ws, r.1, true);
      Scan(number, c, o + p) == Some((r.0, Repeat(false, |o|) + Repeat(true, |p|)))
    decreases |ws|
  {
    hide Step;
    if ws == [] {
      assert Repeat(false, 0) + Repeat(true, 0) == [];
    } else {
      var s := Step(number, c, ws[0]).value;
      var r := Scan(number, s.0, ws[1..]).value;
      var o, p := Pick(ws[1..], r.1, false), Pick(ws[1..], r.1, true);
      PartitionKeepsMeaning(number, s.0, ws[1..]);
      var flags := Scan(number, c, ws).value.1;
      assert flags == [s.1] + r.1 && flags[1..] == r.1;
      PickFirst(ws, flags);
      if s.1 {
        PositionalKeeps(number, c, ws[0]);
        PositionalMovesBack(number, c, ws[0], o, p, r.0);
      } else {
        OptionStays(number, c, ws[0], o, p, s.0, r.0);
      }
    }
  }

  lemma PositionalKeeps(number: Strtoul, c: Ctx, w: string)
    requires Step(number, c, w).Some? && Step(number, c, w).value.1
    ensures Step(number, c, w).value.0 == c
  {
    hide LongSwitch, ShortSwitch, Handle;
  }

  lemma OptionStays(number: Strtoul, c: Ctx, w: string, o: seq<string>, p: seq<string>, d: Ctx, e: Ctx)
    requires Step(number, c, w) == Some((d, false))
    requires Scan(number, d, o + p) == Some((e, Repeat(false, |o|) + Repeat(true, |p|)))
    ensures Scan(number, c, ([w] + o) + p) == Some((e, Repeat(false, |o| + 1) + Repeat(true, |p|)))
  {
    hide Step;
    var ws := ([w] + o) + p;
    assert ws[0] == w && ws[1..] == o + p;
    assert [false] + (Repeat(false, |o|) + Repeat(true, |p|)) == Repeat(false, |o| + 1) + Repeat(true, |p|);
  }

  lemma NotAllTrue(k: nat, m: nat)
    ensures k > 0 ==> Repeat(false, k) + Repeat(true, m) != Repeat(true, k + m)
  {
    if k > 0 {
      assert !(Repeat(false, k) + Repeat(true, m))[0] && Repeat(true, k + m)[0];
    }
  }

  /** A positional word may wait until the option words after it are done. */
  lemma PositionalMovesBack(number: Strtoul, c: Ctx, w: string, o: seq<string>, p: seq<string>, e: Ctx)
    requires Step(number, c, w) == Some((c, true)) && e.pending.None?
    requires Scan(number, c, o + p) == Some((e, Repeat(false, |o|) + Repeat(true, |p|)))
    ensures Scan(number, c, o + ([w] + p)) == Some((e, Repeat(false, |o|) + Repeat(true, |p| + 1)))
  {
    if c.treat_as_posparam {
      RestIsPositional(number, c, o + p);
      NotAllTrue(|o|, |p|);
      assert o == [];
      RestIsPositional(number, c, [w] + p);
      assert o + ([w] + p) == [w] + p;
      assert Repeat(false, 0) + Repeat(true, |p| + 1) == Repeat(true, |p| + 1);
    } else {
      ScanAppend(number, c, o, p);
      var r := Scan(number, c, o).value;
      var s := Scan(number, r.0, p).value;
      assert r.1 == (r.1 + s.1)[..|o|] == Repeat(false, |o|);
      assert s.1 == (r.1 + s.1)[|o|..] == Repeat(true, |p|);
      PositionalsKeep(number, r.0, p);
      assert ([w] + p)[1..] == p && Scan(number, r.0, [w] + p) == Some((e, [true] + s.1));
      ScanAppend(number, c, o, [w] + p);
      assert [true] + s.1 == Repeat(true, |p| + 1);
    }
  }

  lemma {:induction false} PickOfSorted(o: seq<string>, p: seq<string>, b: bool)
    ensures Pick(o + p, Repeat(false, |o|) + Repeat(true, |p|), b) == if b then p else o
  {
    var ws, flags := o + p, Repeat(false, |o|) + Repeat(true, |p|);
    if o != [] {
      assert ws[1..] == o[1..] + p && flags[1..] == Repeat(false, |o| - 1) + Repeat(true, |p|);
      PickOfSorted(o[1..], p, b);
    } else if p != [] {
      assert ws[1..] == [] + p[1..] && flags[1..] == Repeat(false, 0) + Repeat(true, |p| - 1);
      PickOfSorted([], p[1..], b);
    }
  }

  /** A line that parses still parses once it is partitioned, with the same settings, and is partitioned
      already. */
  lemma ParseAgain(number: Strtoul, ws: seq<string>)
    requires Parses(number, START, ws)
    ensures var r := Scan(number, START, ws).value;
      var again := Partitioned(ws, r.1);
      && Parses(number, START, again)
      && Scan(number, START, again).value.0 == r.0
      && Partitioned(again, Scan(number, START, again).value.1) == again
      && Pick(again, Scan(number, START, again).value.1, true) == Pick(ws, r.1, true)
  {
    hide Scan, Pick;
    var r := Scan(number, START, ws).value;
    var o, p := Pick(ws, r.1, false), Pick(ws, r.1, true);
    PartitionKeepsMeaning(number, START, ws);
    PickOfSorted(o, p, false);
    PickOfSorted(o, p, true);
  }
}
