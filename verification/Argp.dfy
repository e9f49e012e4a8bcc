/** The argument parser: it changes its context word by word, notes positional words in a bit set, and
    partitions argv in place (cldm_argp.c). */
module Argp {
  import opened ArgSpec
  import opened Wrappers
  import opened ArgKinds
  import opened ArgMeaning
  import Dfa

  const MAX_PARAMS := 128
  const CHAR_BIT := 8

  predicate Bit(flags: seq<bv8>, i: nat)
    requires i / CHAR_BIT < |flags|
  { flags[i / CHAR_BIT] & ((1 as bv8) << (i % CHAR_BIT)) != 0 }

  lemma SetBit(x: bv8, k: nat, j: nat)
    requires k < CHAR_BIT && j < CHAR_BIT
    ensures (x | ((1 as bv8) << k)) & ((1 as bv8) << j) != 0 <==> j == k || x & ((1 as bv8) << j) != 0
  {
  }

  method SetFlag(posflags: array<bv8>, i: nat)
    requires i / CHAR_BIT < posflags.Length
    modifies posflags
    ensures forall j: nat :: j / CHAR_BIT < posflags.Length ==>
      (Bit(posflags[..], j) <==> j == i || Bit(old(posflags[..]), j))
  {
    var was := posflags[..];
    posflags[i / CHAR_BIT] := posflags[i / CHAR_BIT] | ((1 as bv8) << (i % CHAR_BIT));
    forall j: nat | j / CHAR_BIT < posflags.Length
      ensures Bit(posflags[..], j) <==> j == i || Bit(was, j)
    {
      if j / CHAR_BIT == i / CHAR_BIT {
        SetBit(was[i / CHAR_BIT], i % CHAR_BIT, j % CHAR_BIT);
      }
    }
  }

  class Context {
    const number: Strtoul
    var redirect: Option<string>
    var jobs: nat
    var capture: nat
    var fail_fast: bool
    var help: bool
    var version: bool
    var verbose: bool
    /** posparams is an index into argv. */
    var posparams: nat
    var nposparams: nat
    var assign_pending: Action
    var treat_as_posparam: bool
    var pending_arg: bool

    function View(): Ctx
      reads this
    {
      Ctx(Args(redirect, jobs, capture, fail_fast, help, version, verbose), treat_as_posparam,
          if pending_arg then Some(assign_pending) else None)
    }

    constructor (number: Strtoul, argc: nat)
      ensures View() == START && this.number == number && posparams == argc && nposparams == 0
    {
      this.number := number;
      redirect, jobs, capture := None, 1, CAPTURE_ALL;
      fail_fast, help, version, verbose := false, false, false, false;
      posparams, nposparams := argc, 0;
      assign_pending, treat_as_posparam, pending_arg := Posidx, false, false;
    }

    /** The handlers cldm_argp_set_verbose to cldm_argp_set_posidx */
    method Run(a: Action, optarg: string) returns (ok: bool)
      modifies this`redirect, this`jobs, this`capture, this`fail_fast, this`help, this`version, this`verbose,
               this`assign_pending, this`treat_as_posparam, this`pending_arg
      ensures ok <==> Handle(number, a, old(View()), optarg).Some?
      ensures ok ==> View() == Handle(number, a, old(View()), optarg).value
      ensures ok <==> (a == Capture ==> RightStream(optarg)) && (a == Jobs ==> RightJobs(number, optarg))
      ensures ok ==>
        View().args ==
        Changed(number, old(View().args), if a == Capture then optarg else "", if a == Redirect then optarg else "",
                if a == Jobs then optarg else "", a == CaptureNone, a == FailFast, a == Help, a == Version, a == Verbose)
      ensures ok ==> View().pending == if Takes(a) && optarg == "" then Some(a) else old(View().pending)
    {
      if Takes(a) { Argued(number, View(), a, optarg); } else { Plain(number, View(), a, optarg); }
      ok := true;
      match a {
        case Verbose => verbose := true;
        case Version => version := true;
        case Help => help := true;
        case FailFast => fail_fast := true;
        case Capture => ok := SetCapture(optarg);
        case CaptureNone => capture := CAPTURE_NONE;
        case Redirect =>
          if optarg == "" {
            pending_arg, assign_pending := true, Redirect;
          } else {
            redirect := Some(optarg);
          }
        case Jobs => ok := SetJobs(optarg);
        case Posidx => treat_as_posparam := true;
      }
    }

    method SetCapture(optarg: string) returns (ok: bool)
      modifies this`capture, this`assign_pending, this`pending_arg
      ensures ok <==> Handle(number, Capture, old(View()), optarg).Some?
      ensures ok ==> View() == Handle(number, Capture, old(View()), optarg).value
    {
      if optarg == "" {
        pending_arg, assign_pending := true, Capture;
        return true;
      }
      var i := 0;
      while i < |VALID_CAPTURES|
        invariant 0 <= i <= |VALID_CAPTURES| && View() == old(View())
        invariant IndexOf(VALID_CAPTURES, optarg, i) == IndexOf(VALID_CAPTURES, optarg, 0)
      {
        if VALID_CAPTURES[i] == optarg {
          capture := i;
          return true;
        }
        i := i + 1;
      }
      return false;
    }

    method SetJobs(optarg: string) returns (ok: bool)
      modifies this`jobs, this`assign_pending, this`pending_arg
      ensures ok <==> Handle(number, Jobs, old(View()), optarg).Some?
      ensures ok ==> View() == Handle(number, Jobs, old(View()), optarg).value
    {
      if optarg == "" {
        pending_arg, assign_pending := true, Jobs;
        return true;
      }
      var n := number(optarg);
      if n.None? { return false; }
      if n.value == 0 { return false; }
      if n.value > MAX_THREADS {
        jobs := MAX_THREADS;
        return true;
      }
      jobs := n.value;
      return true;
    }

    /** cldm_argp_parse_short_switch */
    method ParseShortSwitch(sw: string) returns (ok: bool)
      requires |sw| >= 1
      modifies this`redirect, this`jobs, this`capture, this`fail_fast, this`help, this`version, this`verbose,
               this`assign_pending, this`treat_as_posparam, this`pending_arg
      ensures ok <==> ShortSwitch(number, old(View()), sw, 1).Some?
      ensures ok ==> View() == ShortSwitch(number, old(View()), sw, 1).value
    {
      hide Handle, Lookup;
      var k := 1;
      while k < |sw|
        invariant 1 <= k <= |sw|
        invariant ShortSwitch(number, View(), sw, k) == ShortSwitch(number, old(View()), sw, 1)
      {
        var i := FindParam(Code(sw[k]));
        if i < |PARAMS| {
          ok := Run(PARAMS[i].handle, sw[k + 1..]);
          if !ok {
            return false;
          }
          if PARAMS[i].argument {
            return true;
          }
        }
        k := k + 1;
      }
      return true;
    }

    /** cldm_argp_parse_long_switch */
    method ParseLongSwitch(dfa: Dfa.Dfa, sw: string) returns (ok: bool)
      requires dfa.Valid() && dfa.words == LongWords(|PARAMS|) && Dashes(sw)
      modifies this`redirect, this`jobs, this`capture, this`fail_fast, this`help, this`version, this`verbose,
               this`assign_pending, this`treat_as_posparam, this`pending_arg
      ensures ok <==> LongSwitch(number, old(View()), sw).Some?
      ensures ok ==> View() == LongSwitch(number, old(View()), sw).value
    {
      hide Handle, Lookup, LongWords, Dfa.Answer, LongSwitch, EndsSwitches, Dashes, Dfa.Linked, Dfa.Coded;
      var len, shortop := dfa.Simulate(sw);
      LongIsRow(number, View(), sw, len, shortop);
      if len == -1 {
        return false;
      }
      var i := FindParam(shortop);
      var param := PARAMS[i];
      if param.argument {
        if At(sw, len) != '=' || (At(sw, len) != '\0' && At(sw, len + 1) == '\0') {
          return false;
        }
        len := len + 1;
      }
      ok := Run(param.handle, sw[len..]);
    }
  
    /** The body of the parse loop. */
    method ParseWord(dfa: Dfa.Dfa, w: string) returns (ok: bool, positional: bool)
      requires dfa.Valid() && dfa.words == LongWords(|PARAMS|)
      modifies this`redirect, this`jobs, this`capture, this`fail_fast, this`help, this`version, this`verbose,
               this`assign_pending, this`treat_as_posparam, this`pending_arg
      ensures ok <==> Step(number, old(View()), w).Some?
      ensures ok ==> Step(number, old(View()), w) == Some((View(), positional))
    {
      hide Handle, Lookup, LongWords, LongSwitch, ShortSwitch, Dfa.Linked, Dfa.Coded;
      positional := false;
      if pending_arg {
        ok := Run(assign_pending, w);
        if ok {
          pending_arg := false;
        }
        return;
      }
      if treat_as_posparam || !Dash(w) {
        return true, true;
      }
      if Dashes(w) {
        ok := ParseLongSwitch(dfa, w);
      } else {
        ok := ParseShortSwitch(w);
      }
    }

    /** cldm_argp_partition; `smear` is what a copy of no words leaves at its destination, since the vector
        copy moves one byte even then. */
    method Partition(posflags: array<bv8>, argc: nat, argv: array<CString>, smear: CString, ghost flags: seq<bool>)
      requires 1 <= argc < argv.Length && argc - 1 == |flags| && argc <= CHAR_BIT * posflags.Length
      requires forall i :: 0 <= i < |flags| ==> (Bit(posflags[..], i) <==> flags[i])
      modifies argv, this`posparams, this`nposparams
      ensures argv[1..argc] == Partitioned(old(argv[1..argc]), flags)
      ensures posparams == 1 + |Pick(old(argv[1..argc]), flags, false)|
      ensures nposparams == |Pick(old(argv[1..argc]), flags, true)|
      ensures argv[0] == old(argv[0]) && forall i :: argc < i < argv.Length ==> argv[i] == old(argv[i])
    {
      hide Pick;
      ghost var ws := argv[1..argc];
      var tmp := new CString[2 * argc](_ => "");
      var lidx, hidx := Distribute(posflags, argc, argv, tmp, flags);
      WriteBack(argv, argc, tmp, lidx, hidx, smear);
      posparams := lidx + 1;
      nposparams := argc - lidx - 1;
    }
  }

  /** A recognised long switch has a row in the table, so the assertion after the loop holds. */
  lemma LongIsRow(number: Strtoul, c: Ctx, sw: string, len: int, code: int)
    requires Dashes(sw) && (len, code) == Dfa.Answer(LongWords(|PARAMS|), sw)
    ensures len == -1 ==> LongSwitch(number, c, sw).None?
    ensures len != -1 ==>
      && 2 <= len <= |sw| && Lookup(code, 0).Some?
      && LongSwitch(number, c, sw) == AfterName(number, c, sw, len, PARAMS[Lookup(code, 0).value])
  {
    hide Lookup, LongWords, Dfa.Answer, Dashes, AfterName;
    DashesAre(sw);
    LongAnswer(sw);
  }

  /** The loop over the table that both switch parsers make. */
  method FindParam(code: int) returns (i: nat)
    ensures i <= |PARAMS| && Lookup(code, 0) == if i < |PARAMS| then Some(i) else None
  {
    i := 0;
    while i < |PARAMS|
      invariant i <= |PARAMS| && Lookup(code, i) == Lookup(code, 0)
    {
      if PARAMS[i].short == code {
        return;
      }
      i := i + 1;
    }
  }

  /** The recogniser of all long switches. */
  method LongSwitches() returns (dfa: Dfa.Dfa)
    ensures fresh(dfa) && fresh(dfa.states) && fresh(dfa.edges)
    ensures dfa.Valid() && dfa.words == LongWords(|PARAMS|)
  {
    hide Dfa.Linked, Dfa.Coded, Dfa.Reached;
    dfa := new Dfa.Dfa();
    var i := 0;
    while i < |PARAMS|
      invariant 0 <= i <= |PARAMS| && fresh(dfa) && fresh(dfa.states) && fresh(dfa.edges)
      invariant dfa.Valid() && dfa.words == LongWords(i)
    {
      dfa.AddArgument(PARAMS[i].long, PARAMS[i].short);
      i := i + 1;
    }
  }

  /** The loop of cldm_argp_partition: option words to the lower half of `tmp`, positional words to the upper. */
  method Distribute(posflags: array<bv8>, argc: nat, argv: array<CString>, tmp: array<CString>, ghost flags: seq<bool>)
    returns (lidx: nat, hidx: nat)
    requires 1 <= argc < argv.Length && argc - 1 == |flags| && argc <= CHAR_BIT * posflags.Length
    requires forall i :: 0 <= i < |flags| ==> (Bit(posflags[..], i) <==> flags[i])
    requires tmp != argv && (tmp as object) != (posflags as object) && tmp.Length == 2 * argc
    modifies tmp
    ensures lidx <= argc <= hidx && lidx + (hidx - argc) == argc - 1
    ensures tmp[..lidx] == Pick(argv[1..argc], flags, false) && tmp[argc..hidx] == Pick(argv[1..argc], flags, true)
  {
    hide Bit, Pick;
    ghost var ws := argv[1..argc];
    lidx, hidx := 0, argc;
    NothingPicked();
    var i := 0;
    while i < argc - 1
      invariant 0 <= i <= argc - 1 && 0 <= lidx && argc <= hidx && lidx + (hidx - argc) == i
      invariant tmp[..lidx] == Pick(ws[..i], flags[..i], false)
      invariant tmp[argc..hidx] == Pick(ws[..i], flags[..i], true)
    {
      ghost var low, high := tmp[..lidx], tmp[argc..hidx];
      PickSnoc(ws, flags, i, false);
      PickSnoc(ws, flags, i, true);
      assert argv[i + 1] == ws[i];
      BitInRange(i, argc, posflags.Length);
      if Bit(posflags[..], i) {
        tmp[hidx] := argv[i + 1];
        hidx := hidx + 1;
        assert low + [] == low;
        assert tmp[..lidx] == low && tmp[argc..hidx] == high + [ws[i]];
      } else {
        tmp[lidx] := argv[i + 1];
        lidx := lidx + 1;
        assert high + [] == high;
        assert tmp[..lidx] == low + [ws[i]] && tmp[argc..hidx] == high;
      }
      i := i + 1;
    }
    assert ws[..i] == ws && flags[..i] == flags;
  }

  lemma NothingPicked()
    ensures Pick([], [], false) == [] && Pick([], [], true) == []
  {
  }

  lemma BitInRange(i: nat, argc: nat, n: nat)
    requires i < argc <= CHAR_BIT * n
    ensures i / CHAR_BIT < n
  {
  }

  lemma {:induction false} PickSnoc(ws: seq<string>, flags: seq<bool>, i: nat, b: bool)
    requires |ws| == |flags| && i < |ws|
    ensures Pick(ws[..i + 1], flags[..i + 1], b)
         == Pick(ws[..i], flags[..i], b) + (if flags[i] == b then [ws[i]] else [])
  {
    if i > 0 {
      PickSnoc(ws[1..], flags[1..], i - 1, b);
      assert ws[..i + 1][1..] == ws[1..][..i] && ws[..i][1..] == ws[1..][..i - 1];
      assert flags[..i + 1][1..] == flags[1..][..i] && flags[..i][1..] == flags[1..][..i - 1];
    }
  }

  /** The two copies of cldm_argp_partition: a place the first one smears is written by the second, or is
      argv[argc]. */
  method WriteBack(argv: array<CString>, argc: nat, tmp: array<CString>, lidx: nat, hidx: nat, smear: CString)
    requires 1 <= argc < argv.Length && tmp != argv && tmp.Length == 2 * argc
    requires argc <= hidx && lidx + (hidx - argc) == argc - 1
    modifies argv
    ensures argv[1..argc] == tmp[..lidx] + tmp[argc..hidx]
    ensures argv[0] == old(argv[0]) && forall i :: argc < i < argv.Length ==> argv[i] == old(argv[i])
  {
    CopyWords(argv, 1, tmp, 0, lidx, smear);
    CopyWords(argv, lidx + 1, tmp, argc, hidx - argc, smear);
  }

  /** cldm_memcpy of `n` words; with none, the vector copy still writes to the first place. */
  method CopyWords(dst: array<CString>, at: nat, src: array<CString>, from: nat, n: nat, smear: CString)
    requires dst != src && at < dst.Length && at + n <= dst.Length && from + n <= src.Length
    modifies dst
    ensures forall i :: 0 <= i < dst.Length ==>
      dst[i] == if at <= i < at + n then src[from + i - at] else if n == 0 && i == at then smear else old(dst[i])
  {
    if n == 0 {
      dst[at] := smear;
      return;
    }
    forall i | 0 <= i < n { dst[at + i] := src[from + i]; }
  }

  /** cldm_argp_parse: it succeeds exactly on a line that parses, with the settings and the positional words
      of that line, and partitions argv; otherwise argv stays as it is. */
  method Parse(number: Strtoul, argc: nat, argv: array<CString>, smear: CString) returns (ok: bool, ctx: Context)
    requires 1 <= argc < argv.Length
    modifies argv
    ensures ok <==> argc <= MAX_PARAMS && Parses(number, START, old(argv[1..argc]))
    ensures ok <==> argc <= MAX_PARAMS && Accepted(number, old(argv[1..argc]))
    ensures ok ==> Meant(number, old(argv[1..argc]), argc - 1, ctx.View().args)
    ensures ok ==>
      && ctx.View() == Scan(number, START, old(argv[1..argc])).value.0
      && argv[1..argc] == Partitioned(old(argv[1..argc]), Kinds(Any, old(argv[1..argc])))
      && ctx.posparams + ctx.nposparams == argc
      && argv[ctx.posparams..argc] == Pick(old(argv[1..argc]), Kinds(Any, old(argv[1..argc])), true)
    ensures forall i :: 0 <= i < argv.Length && (!ok || i == 0 || i > argc) ==> argv[i] == old(argv[i])
  {
    hide Scan, Kinds, Pick, LongWords, Dfa.Linked, Dfa.Coded, Accepted, Meant;
    ghost var ws := argv[1..argc];
    LineMeans(number, ws);
    var posflags := new bv8[MAX_PARAMS / CHAR_BIT](_ => 0);
    NoBits(posflags[..]);
    ctx := new Context(number, argc);
    if argc > MAX_PARAMS {
      return false, ctx;
    }
    ok := ScanWords(ctx, argc, argv, posflags);
    if !ok {
      return;
    }
    if ctx.pending_arg {
      return false, ctx;
    }
    FlagsAreKinds(number, START, ws);
    ctx.Partition(posflags, argc, argv, smear, Kinds(Any, ws));
  }

  /** The parse loop, with the recogniser it uses. */
  method ScanWords(ctx: Context, argc: nat, argv: array<CString>, posflags: array<bv8>) returns (ok: bool)
    requires 1 <= argc < argv.Length && argc <= MAX_PARAMS == CHAR_BIT * posflags.Length
    requires (posflags as object) != (argv as object)
    requires forall j: nat :: j < MAX_PARAMS ==> !Bit(posflags[..], j)
    modifies ctx, posflags
    ensures ok <==> Scan(ctx.number, old(ctx.View()), argv[1..argc]).Some?
    ensures ok ==>
      var r := Scan(ctx.number, old(ctx.View()), argv[1..argc]).value;
      && ctx.View() == r.0
      && forall j :: 0 <= j < argc - 1 ==> (Bit(posflags[..], j) <==> r.1[j])
  {
    hide Step, LongWords, Bit, Dfa.Linked, Dfa.Coded;
    var dfa := LongSwitches();
    hide Dfa.Dfa.Valid;
    ghost var ws, start := argv[1..argc], ctx.View();
    ghost var flags: seq<bool> := [];
    var i := 1;
    while i < argc
      invariant 1 <= i <= argc && fresh(dfa) && fresh(dfa.states) && fresh(dfa.edges)
      invariant dfa.Valid() && dfa.words == LongWords(|PARAMS|) && argv[1..argc] == ws
      invariant Scan(ctx.number, start, ws[..i - 1]) == Some((ctx.View(), flags))
      invariant forall j: nat :: j < MAX_PARAMS ==> (Bit(posflags[..], j) <==> j < i - 1 && flags[j])
    {
      ScanSnoc(ctx.number, start, ws, i - 1);
      assert argv[i] == ws[i - 1];
      var accepted, positional := ctx.ParseWord(dfa, argv[i]);
      if !accepted {
        return false;
      }
      if positional {
        SetFlag(posflags, i - 1);
      }
      flags := flags + [positional];
      i := i + 1;
    }
    assert ws[..i - 1] == ws;
    return true;
  }

  lemma NoBits(flags: seq<bv8>)
    requires forall i :: 0 <= i < |flags| ==> flags[i] == 0
    ensures forall j: nat :: j / CHAR_BIT < |flags| ==> !Bit(flags, j)
  {
    forall j: nat | j / CHAR_BIT < |flags|
      ensures !Bit(flags, j)
    {
      ZeroBit(j % CHAR_BIT);
    }
  }

  lemma ZeroBit(k: nat)
    requires k < CHAR_BIT
    ensures (0 as bv8) & ((1 as bv8) << k) == 0
  {
  }
}
