/** Which words are positional can be read off the words alone, without the settings they make. */
module ArgKinds {
  import opened Dfa
  import opened ArgSpec
  import opened Wrappers

  /** What the next word is taken for: anything, the value of the switch before it, or a positional word. */
  datatype Kind = Any | Value | Rest

  /** The characters a long switch may go on with after "--". */
  const LONG_INITIALS := ['v', 'h', 'u', 'f', 'c', 'r', 'j']

  predicate IsLong(w: string) { "--" <= w }
  predicate IsShort(w: string) { "-" <= w && !IsLong(w) }

  lemma DashesAre(w: string)
    ensures (Dash(w) <==> "-" <= w) && (Dashes(w) <==> IsLong(w))
  {
  }

  /** The word stands for "--": it is that, or goes on in a way no long switch does. */
  predicate EndsSwitches(w: string) { IsLong(w) && (|w| == 2 || w[2] !in LONG_INITIALS) }

  /** The letters of short switches with an argument. */
  predicate TakesArgument(c: char) { Code(c) in [Code('c'), Code('d'), Code('j')] }

  /** The first letter, from `k` on, of a switch with an argument ends the word. */
  predicate Waits(w: string, k: nat)
    requires k <= |w|
    decreases |w| - k
  { k < |w| && if TakesArgument(w[k]) then k + 1 == |w| else Waits(w, k + 1) }

  function NextKind(k: Kind, w: string): Kind {
    match k
    case Value => Any
    case Rest => Rest
    case Any => if EndsSwitches(w) then Rest else if IsShort(w) && Waits(w, 1) then Value else Any
  }

  predicate Positional(k: Kind, w: string) { k == Rest || (k == Any && !("-" <= w)) }

  function Kinds(k: Kind, ws: seq<string>): (flags: seq<bool>)
    ensures |flags| == |ws|
    decreases |ws|
  { if ws == [] then [] else [Positional(k, ws[0])] + Kinds(NextKind(k, ws[0]), ws[1..]) }

  function KindOf(c: Ctx): Kind { if c.pending.Some? then Value else if c.treat_as_posparam then Rest else Any }

  predicate Takes(a: Action) { a == Capture || a == Redirect || a == Jobs }

  predicate WellFormed(c: Ctx) { c.pending.Some? ==> Takes(c.pending.value) && !c.treat_as_posparam }

  lemma TableOfLetters(code: int)
    requires 0 <= code < SHORT_USAGE
    ensures var i := Lookup(code, 0);
      && (code in [Code('c'), Code('d'), Code('j')] ==>
            i.Some? && PARAMS[i.value].argument && Takes(PARAMS[i.value].handle))
      && (code !in [Code('c'), Code('d'), Code('j')] && i.Some? ==>
            !PARAMS[i.value].argument && !Takes(PARAMS[i.value].handle) && PARAMS[i.value].handle != Posidx)
  {
    assert PARAMS[5].short == Code('c') && PARAMS[7].short == Code('d') && PARAMS[8].short == Code('j');
  }

  lemma {:induction false} ShortKind(number: Strtoul, c: Ctx, sw: string, k: nat)
    requires k <= |sw| && c.pending.None? && !c.treat_as_posparam && ShortSwitch(number, c, sw, k).Some?
    ensures var d := ShortSwitch(number, c, sw, k).value;
      !d.treat_as_posparam && WellFormed(d) && (d.pending.Some? <==> Waits(sw, k))
    decreases |sw| - k
  {
    if k < |sw| {
      TableOfLetters(Code(sw[k]));
      hide Lookup;
      var i := Lookup(Code(sw[k]), 0);
      if i.None? {
        ShortKind(number, c, sw, k + 1);
      } else if !PARAMS[i.value].argument {
        ShortKind(number, Handle(number, PARAMS[i.value].handle, c, sw[k + 1..]).value, sw, k + 1);
      }
    }
  }

  // ---------------------------------------------------------------- long switches

  lemma {:induction false} LongWordsAre(k: nat)
    requires k <= |PARAMS|
    ensures forall j :: 0 <= j < k ==> PARAMS[j].long in LongWords(k) && LongWords(k)[PARAMS[j].long] == PARAMS[j].short
    ensures forall w :: w in LongWords(k) ==> exists j :: 0 <= j < k && PARAMS[j].long == w
  {
    if k > 0 {
      LongWordsAre(k - 1);
      forall j | 0 <= j < k - 1
        ensures PARAMS[j].long != PARAMS[k - 1].long
      {
        LongDistinct(j, k - 1);
      }
    }
  }

  lemma LongDistinct(i: nat, j: nat)
    requires i < j < |PARAMS|
    ensures PARAMS[i].long != PARAMS[j].long
  {
  }

  ghost predicate LongReached(p: string) { Reached(LongWords(|PARAMS|), p) }

  lemma ReachedByRow(p: string, j: nat)
    requires j < |PARAMS| && p <= PARAMS[j].long
    ensures LongReached(p)
  {
    LongWordsAre(|PARAMS|);
    assert PARAMS[j].long in LongWords(|PARAMS|);
  }

  lemma RowOf(p: string)
    requires LongReached(p) && p != ""
    ensures exists j :: 0 <= j < |PARAMS| && p <= PARAMS[j].long
  {
    LongWordsAre(|PARAMS|);
  }

  /** The third character decides whether a word leads past "--". */
  lemma ThirdCharacter(w: string)
    requires IsLong(w) && |w| >= 3
    ensures LongReached(w[..3]) <==> w[2] in LONG_INITIALS
  {
    hide Reached, LongReached, LongWords;
    if LongReached(w[..3]) {
      RowOf(w[..3]);
      var j :| 0 <= j < |PARAMS| && w[..3] <= PARAMS[j].long;
      ThirdOfRow(j);
      assert w[2] == w[..3][2] == PARAMS[j].long[2];
    }
    if w[2] in LONG_INITIALS {
      var j := RowOfInitial(w[2]);
      assert w[..3] == PARAMS[j].long[..3];
      ReachedByRow(w[..3], j);
    }
  }

  lemma ThirdOfRow(j: nat)
    requires j < |PARAMS| && |PARAMS[j].long| >= 3
    ensures PARAMS[j].long[2] in LONG_INITIALS
  {
    assert LONG_INITIALS[0] == 'v' && LONG_INITIALS[1] == 'h' && LONG_INITIALS[2] == 'u' && LONG_INITIALS[3] == 'f';
    assert LONG_INITIALS[4] == 'c' && LONG_INITIALS[5] == 'r' && LONG_INITIALS[6] == 'j';
  }

  function RowOfInitial(c: char): (j: nat)
    requires c in LONG_INITIALS
    ensures j < |PARAMS| && |PARAMS[j].long| >= 3 && PARAMS[j].long[..3] == ['-', '-', c]
  {
    if c == 'v' then 0 else if c == 'h' then 2 else if c == 'u' then 3 else if c == 'f' then 4
    else if c == 'c' then 5 else if c == 'r' then 7 else 8
  }

  /** What the recogniser says of a long switch: a name that starts the word, with a row in the table; the
      name is "--" exactly if the word stands for it. */
  lemma LongAnswer(w: string)
    requires IsLong(w)
    ensures var (len, code) := Answer(LongWords(|PARAMS|), w);
      len != -1 ==>
        && 2 <= len <= |w| && Lookup(code, 0).Some? && PARAMS[Lookup(code, 0).value].long == w[..len]
        && (code == SHORT_DDASH <==> EndsSwitches(w))
  {
    hide Reached, Walk, LongWords, Lookup;
    var words := LongWords(|PARAMS|);
    var n := Walk(words, w, 0);
    LongWalk(w);
    LongWordsAre(|PARAMS|);
    var p := w[..n];
    if p in words && words[p] != 0 {
      var j :| 0 <= j < |PARAMS| && PARAMS[j].long == p;
      RowIsFound(j);
      assert words[p] == PARAMS[j].short;
      assert |w| == 2 ==> w[..2] == w;
    }
  }

  lemma RowIsFound(j: nat)
    requires j < |PARAMS|
    ensures Lookup(PARAMS[j].short, 0) == Some(j)
    ensures PARAMS[j].short == SHORT_DDASH <==> |PARAMS[j].long| == 2
  {
  }

  /** The recogniser gets past "--" unless the word stands for it. */
  lemma LongWalk(w: string)
    requires IsLong(w)
    ensures var n := Walk(LongWords(|PARAMS|), w, 0);
      n >= 2 && (n == 2 <==> EndsSwitches(w))
  {
    hide LongWords, Reached;
    var words := LongWords(|PARAMS|);
    assert w[..0] == "" && Reached(words, "") by { EmptyReached(words); }
    WalkIsLongest(words, w, 0);
    var n := Walk(words, w, 0);
    assert w[..2] == "--";
    ReachedByRow(w[..2], 9);
    if |w| >= 3 {
      ThirdCharacter(w);
      if n >= 3 {
        assert w[..n][..3] == w[..3];
        ReachedShorter(words, w[..n], 3);
      }
    }
  }

  lemma EmptyReached(words: map<string, int>)
    ensures Reached(words, "")
  {
  }

  lemma LongKind(number: Strtoul, c: Ctx, w: string)
    requires IsLong(w) && c.pending.None? && !c.treat_as_posparam && LongSwitch(number, c, w).Some?
    ensures KindOf(LongSwitch(number, c, w).value) == NextKind(Any, w)
    ensures WellFormed(LongSwitch(number, c, w).value)
  {
    hide Answer, LongWords, Lookup;
    LongAnswer(w);
    var (len, code) := Answer(LongWords(|PARAMS|), w);
    var i := Lookup(code, 0).value;
    HandlesOf(i);
    LongHandled(number, c, w, len, PARAMS[i]);
  }

  lemma HandlesOf(i: nat)
    requires i < |PARAMS|
    ensures PARAMS[i].handle == Posidx <==> PARAMS[i].short == SHORT_DDASH
    ensures PARAMS[i].argument <==> Takes(PARAMS[i].handle)
  {
  }

  lemma LongHandled(number: Strtoul, c: Ctx, w: string, len: int, p: Param)
    requires c.pending.None? && AfterName(number, c, w, len, p).Some?
    requires p.argument <==> Takes(p.handle)
    ensures var d := AfterName(number, c, w, len, p).value;
      d.pending.None? && d.treat_as_posparam == (c.treat_as_posparam || p.handle == Posidx)
  {
  }

  lemma StepKind(number: Strtoul, c: Ctx, w: string)
    requires WellFormed(c) && Step(number, c, w).Some?
    ensures var (d, positional) := Step(number, c, w).value;
      WellFormed(d) && KindOf(d) == NextKind(KindOf(c), w) && positional == Positional(KindOf(c), w)
  {
    hide LongSwitch, ShortSwitch;
    DashesAre(w);
    if c.pending.None? && !c.treat_as_posparam && Dash(w) {
      if Dashes(w) { LongKind(number, c, w); } else { ShortKind(number, c, w, 1); }
    }
  }

  /** The flags of a line that parses are those the words alone give. */
  lemma {:induction false} FlagsAreKinds(number: Strtoul, c: Ctx, ws: seq<string>)
    requires WellFormed(c) && Scan(number, c, ws).Some?
    ensures Scan(number, c, ws).value.1 == Kinds(KindOf(c), ws)
    decreases |ws|
  {
    hide Step;
    if ws != [] {
      StepKind(number, c, ws[0]);
      FlagsAreKinds(number, Step(number, c, ws[0]).value.0, ws[1..]);
    }
  }

  /** What word `i` is taken for. */
  function KindAt(k: Kind, ws: seq<string>, i: nat): Kind
    requires i <= |ws|
  { if i == 0 then k else NextKind(KindAt(k, ws, i - 1), ws[i - 1]) }

  lemma {:induction false} KindAtTail(k: Kind, ws: seq<string>, i: nat)
    requires 1 <= i <= |ws|
    ensures KindAt(k, ws, i) == KindAt(NextKind(k, ws[0]), ws[1..], i - 1)
  {
    if i > 1 { KindAtTail(k, ws, i - 1); }
  }

  lemma {:induction false} KindsAt(k: Kind, ws: seq<string>, i: nat)
    requires i < |ws|
    ensures Kinds(k, ws)[i] == Positional(KindAt(k, ws, i), ws[i])
    decreases i
  {
    if i > 0 {
      KindAtTail(k, ws, i);
      KindsAt(NextKind(k, ws[0]), ws[1..], i - 1);
    }
  }

  /** A word that stands for "--" and is not the value of the switch before it. */
  predicate EndsAt(ws: seq<string>, i: nat)
    requires i < |ws|
  { KindAt(Any, ws, i) == Any && EndsSwitches(ws[i]) }

  lemma {:induction false} RestIff(ws: seq<string>, j: nat)
    requires j <= |ws|
    ensures KindAt(Any, ws, j) == Rest <==> exists i :: 0 <= i < j && EndsAt(ws, i)
  {
    if j > 0 {
      RestIff(ws, j - 1);
      if KindAt(Any, ws, j) == Rest && KindAt(Any, ws, j - 1) != Rest {
        assert EndsAt(ws, j - 1);
      }
    }
  }

  /** A word is positional exactly if a "--" stands before it, or it neither is the value of the switch before
      it nor starts with a dash. */
  lemma PositionalIff(ws: seq<string>, j: nat)
    requires j < |ws|
    ensures Kinds(Any, ws)[j] <==>
      (exists i :: 0 <= i < j && EndsAt(ws, i)) || (KindAt(Any, ws, j) != Value && !("-" <= ws[j]))
  {
    KindsAt(Any, ws, j);
    RestIff(ws, j);
  }
}
