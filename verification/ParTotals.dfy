/** The counters in every interleaving, up to the end of the tree reduction, and the fail-fast flag. */
module ParTotals {
  import opened ParModel
  import opened Wrappers
  import opened ParSplit
  import opened ParSafety

  /** What the tests in `ran` add up to. */
  function SumTests(c: Config, ran: seq<nat>): Counters {
    if ran == [] then ZERO else Plus(SumTests(c, ran[..|ran| - 1]), Adds(c.outcome(ran[|ran| - 1])))
  }

  /** The counters each slot starts the reduction with. */
  function Own(c: Config, s: State): (own: seq<Counters>)
    requires ValidConfig(c) && Shaped(c, s)
    ensures |own| == SLOTS
  { seq(SLOTS, t requires 0 <= t < SLOTS => if t < c.jobs then SumTests(c, s.th[t].ran) else ZERO) }

  /** `k` counters already from `b`, the others still from `a`. */
  function Mixed(a: Counters, b: Counters, k: nat): Counters {
    Counters(if k > 0 then b.failedAsserts else a.failedAsserts, if k > 1 then b.failedTests else a.failedTests, a.asserts)
  }

  /** The value of the slot of thread `t`, given where the thread is. */
  function Slot(c: Config, own: seq<Counters>, me: Thread, t: nat): Counters
    requires ValidConfig(c) && |own| == SLOTS && t < c.jobs
  {
    match me.pc
    case Collect(_, _) => ZERO
    case InitLog => ZERO
    case Arrive(b) => if b == 0 then ZERO else Folded(c, own, b - 1)[t]
    case Wait(b) => if b == 0 then ZERO else Folded(c, own, b - 1)[t]
    case Reduce(r, k) => Mixed(Folded(c, own, r)[t], Folded(c, own, r + 1)[t], k)
    case Done => Folded(c, own, Rounds(c))[t]
    case Running(_) => if me.ran == [] then ZERO else SumTests(c, me.ran[..|me.ran| - 1])
    case _ => SumTests(c, me.ran)
  }

  ghost predicate Totals(c: Config, s: State)
    requires ValidConfig(c) && Shaped(c, s)
  {
    && (forall t :: 0 <= t < c.jobs ==> s.logs[t] == Slot(c, Own(c, s), s.th[t], t))
    && (forall t :: c.jobs <= t < SLOTS ==> s.logs[t] == ZERO)
    && (forall t :: 0 <= t < c.jobs ==> (s.th[t].pc.Reduce? ==> t < Off(c, s.th[t].pc.r)))
  }

  lemma OwnSame(c: Config, s: State, s': State)
    requires ValidConfig(c) && Shaped(c, s) && Shaped(c, s')
    requires forall t :: 0 <= t < c.jobs ==> s'.th[t].ran == s.th[t].ran
    ensures Own(c, s') == Own(c, s)
  {
  }

  /** Before the reduction a slot depends on its own thread only. */
  lemma SlotLocal(c: Config, own: seq<Counters>, own': seq<Counters>, me: Thread, t: nat)
    requires ValidConfig(c) && |own| == |own'| == SLOTS && t < c.jobs && own[t] == own'[t] && Phase(c, me.pc) <= 1
    ensures Slot(c, own, me, t) == Slot(c, own', me, t)
  {
  }

  /** Slots at or above the offset keep their value in a round. */
  lemma FoldedUpper(c: Config, own: seq<Counters>, r: nat, u: nat)
    requires ValidConfig(c) && |own| == SLOTS && u < SLOTS && Off(c, r) <= u
    ensures Folded(c, own, r + 1)[u] == Folded(c, own, r)[u]
  {
    Offsets(c, r);
  }

  lemma {:induction false} FoldedIdle(c: Config, own: seq<Counters>, r: nat, u: nat)
    requires ValidConfig(c) && |own| == SLOTS && c.jobs <= u < SLOTS && own[u] == ZERO
    ensures Folded(c, own, r)[u] == ZERO
  {
    if r > 0 {
      Offsets(c, r - 1);
      FoldedIdle(c, own, r - 1, u);
    }
  }

  lemma FoldedLower(c: Config, own: seq<Counters>, r: nat, t: nat)
    requires ValidConfig(c) && |own| == SLOTS && t < Off(c, r)
    ensures t + Off(c, r) < SLOTS
    ensures Folded(c, own, r + 1)[t] == Plus(Folded(c, own, r)[t], Folded(c, own, r)[t + Off(c, r)])
  {
    Offsets(c, r);
  }

  /** The slot a reducing thread reads holds the value of the start of the round, whatever its owner
      is doing. */
  lemma PartnerStable(c: Config, s: State, t: nat)
    requires ValidConfig(c) && Shaped(c, s) && t < c.jobs && Sync(c, s) && Totals(c, s) && s.th[t].pc.Reduce?
    ensures var r := s.th[t].pc.r; t + Off(c, r) < SLOTS
    ensures var r := s.th[t].pc.r; s.logs[t + Off(c, r)] == Folded(c, Own(c, s), r)[t + Off(c, r)]
  {
    hide Folded, Off, Rounds, SumTests;
    var r, own := s.th[t].pc.r, Own(c, s);
    FoldedLower(c, own, r, t);
    var u := t + Off(c, r);
    assert InStep(c, s.th[t].pc, s.gen) && s.gen == 2 + r;
    if u < c.jobs {
      var pu := s.th[u].pc;
      assert InStep(c, pu, s.gen) && s.logs[u] == Slot(c, own, s.th[u], u);
      if pu == Wait(s.gen - 1) {
        assert s.logs[u] == Folded(c, own, r)[u];
      } else {
        FoldedUpper(c, own, r, u);
        if pu.Done? { Offsets(c, r); }
        assert s.logs[u] == Folded(c, own, r + 1)[u];
      }
    } else {
      assert own[u] == ZERO;
      FoldedIdle(c, own, r, u);
    }
  }

  lemma MixedStep(a: Counters, b: Counters, d: Counters, k: nat)
    requires d == Plus(a, b) && k < 3
    ensures AddAt(Mixed(a, d, k), b, k) == if k < 2 then Mixed(a, d, k + 1) else d
    ensures Mixed(a, d, 0) == a
  {
  }

  // ---------------------------------------------------------------- one step

  /** What a step does to the slots and to the tests started. */
  lemma StepSlots(c: Config, s: State, t: nat)
    requires ValidConfig(c) && Shaped(c, s) && t < c.jobs && Exec(c, s, t).Some?
    ensures Shaped(c, Exec(c, s, t).value)
    ensures var s' := Exec(c, s, t).value; forall u :: 0 <= u < SLOTS && u != t ==> s'.logs[u] == s.logs[u]
    ensures var s' := Exec(c, s, t).value; !s.th[t].pc.Loop? ==> s'.th[t].ran == s.th[t].ran
  {
    ExecShaped(c, s, t);
  }

  lemma RoundSlot(c: Config, own: seq<Counters>, me: Thread, t: nat, b: nat)
    requires ValidConfig(c) && |own| == SLOTS && t < c.jobs && b > 0 && (b >= 2 ==> b - 2 < Rounds(c))
    requires me.pc == AfterBarrier(c, t, b)
    ensures Slot(c, own, me, t) == Folded(c, own, b - 1)[t]
    ensures me.pc.Reduce? ==> t < Off(c, me.pc.r)
  {
    hide Folded, Off, Rounds;
    var r := b - 1;
    Offsets(c, r);
    if r < Rounds(c) && t >= Off(c, r) {
      FoldedUpper(c, own, r, t);
    } else if r < Rounds(c) {
      MixedStep(Folded(c, own, r)[t], Folded(c, own, r)[t], Plus(Folded(c, own, r)[t], Folded(c, own, r)[t]), 0);
    }
  }

  lemma SlotBarrier(c: Config, s: State, t: nat, own: seq<Counters>)
    requires ValidConfig(c) && Shaped(c, s) && t < c.jobs && Exec(c, s, t).Some? && |own| == SLOTS
    requires RanOk(c, t, s.th[t]) && InStep(c, s.th[t].pc, s.gen)
    requires s.logs[t] == Slot(c, own, s.th[t], t)
    requires s.th[t].pc.Arrive? || s.th[t].pc.Wait?
    ensures var s' := Exec(c, s, t).value;
      && |s'.th| == c.jobs && |s'.logs| == SLOTS
      && s'.logs[t] == Slot(c, own, s'.th[t], t) && (s'.th[t].pc.Reduce? ==> t < Off(c, s'.th[t].pc.r))
  {
    hide Folded, Off, Rounds, Round, BlockSize, BlockStart;
    var s', b := Exec(c, s, t).value, s.th[t].pc.b;
    if b > 0 && s'.th[t].pc == AfterBarrier(c, t, b) {
      RoundSlot(c, own, s'.th[t], t, b);
    }
  }

  lemma SlotReduce(c: Config, s: State, t: nat)
    requires ValidConfig(c) && Shaped(c, s) && t < c.jobs && Exec(c, s, t).Some?
    requires Sync(c, s) && Totals(c, s) && s.th[t].pc.Reduce?
    ensures var s' := Exec(c, s, t).value;
      && |s'.th| == c.jobs && |s'.logs| == SLOTS
      && s'.logs[t] == Slot(c, Own(c, s), s'.th[t], t)
      && (s'.th[t].pc.Reduce? ==> t < Off(c, s'.th[t].pc.r))
  {
    hide Folded, Off, Rounds, SumTests, Own, BlockSize;
    var own, r, k := Own(c, s), s.th[t].pc.r, s.th[t].pc.k;
    assert InStep(c, s.th[t].pc, s.gen);
    PartnerStable(c, s, t);
    FoldedLower(c, own, r, t);
    MixedStep(Folded(c, own, r)[t], Folded(c, own, r)[t + Off(c, r)], Folded(c, own, r + 1)[t], k);
  }

  lemma SlotRunning(c: Config, s: State, t: nat, own: seq<Counters>)
    requires ValidConfig(c) && Shaped(c, s) && t < c.jobs && |own| == SLOTS && s.logs[t] == Slot(c, own, s.th[t], t)
    requires (s.th[t].pc.Loop? || s.th[t].pc.Running?) && RanOk(c, t, s.th[t]) && BlockKnown(c, s, t)
    ensures Exec(c, s, t).Some?
    ensures var s' := Exec(c, s, t).value;
      && |s'.th| == c.jobs && |s'.logs| == SLOTS
      && s'.logs[t] == Slot(c, own, s'.th[t], t) && !s'.th[t].pc.Reduce?
  {
    hide Folded, Off, Rounds, BlockSize, BlockStart, AfterBarrier, Verdict;
    var me := s.th[t];
    if me.pc.Loop? {
      assert (me.ran + [s.start[t] + me.pc.i])[..|me.ran|] == me.ran;
    } else {
      assert me.ran[|me.ran| - 1] == s.start[t] + me.pc.i;
    }
  }

  lemma SlotQuiet(c: Config, s: State, t: nat, own: seq<Counters>)
    requires ValidConfig(c) && Shaped(c, s) && t < c.jobs && Exec(c, s, t).Some? && |own| == SLOTS
    requires s.logs[t] == Slot(c, own, s.th[t], t) && own[t] == SumTests(c, s.th[t].ran)
    requires var pc := s.th[t].pc; !pc.Arrive? && !pc.Wait? && !pc.Reduce? && !pc.Loop? && !pc.Running?
    ensures var s' := Exec(c, s, t).value;
      && |s'.th| == c.jobs && |s'.logs| == SLOTS
      && s'.logs[t] == Slot(c, own, s'.th[t], t) && !s'.th[t].pc.Reduce?
  {
    hide Off, Rounds, BlockSize, AfterBarrier, SumTests;
  }

  lemma TotalsStep(c: Config, s: State, t: nat)
    requires ValidConfig(c) && Shaped(c, s) && t < c.jobs && Exec(c, s, t).Some?
    requires Sync(c, s) && Blocks(c, s) && Totals(c, s)
    ensures Shaped(c, Exec(c, s, t).value) && Totals(c, Exec(c, s, t).value)
  {
    hide Exec, BlockSize, BlockStart, Folded, Off, SumTests, Slot, RanOk, Own;
    var s', pc := Exec(c, s, t).value, s.th[t].pc;
    StepOthers(c, s, t);
    StepSlots(c, s, t);
    var own, own' := Own(c, s), Own(c, s');
    assert InStep(c, pc, s.gen) && RanOk(c, t, s.th[t]);
    OwnAt(c, s);
    OwnAt(c, s');
    assert s.logs[t] == Slot(c, own, s.th[t], t);
    if pc.Loop? || pc.Running? {
      SplitComplete(c, s, t);
      SlotRunning(c, s, t, own);
    } else {
      if pc.Arrive? || pc.Wait? { SlotBarrier(c, s, t, own); }
      else if pc.Reduce? { SlotReduce(c, s, t); }
      else { SlotQuiet(c, s, t, own); }
    }
    if pc.Loop? {
      LoopNext(c, s, t);
      SlotFree(c, own, own', s'.th[t], t);
    } else {
      OwnSame(c, s, s');
    }
    forall u | 0 <= u < c.jobs
      ensures s'.logs[u] == Slot(c, own', s'.th[u], u)
    {
      if u != t && pc.Loop? {
        assert InStep(c, s.th[u].pc, s.gen);
        SlotLocal(c, own, own', s.th[u], u);
      }
    }
  }

  lemma LoopNext(c: Config, s: State, t: nat)
    requires ValidConfig(c) && Shaped(c, s) && t < c.jobs && s.th[t].pc.Loop?
    ensures Exec(c, s, t).Some? && |Exec(c, s, t).value.th| == c.jobs
    ensures Exec(c, s, t).value.th[t].pc.Running? || Exec(c, s, t).value.th[t].pc.WantLock?
  {
  }

  lemma SlotFree(c: Config, own: seq<Counters>, own': seq<Counters>, me: Thread, t: nat)
    requires ValidConfig(c) && |own| == |own'| == SLOTS && t < c.jobs && (me.pc.Running? || me.pc.WantLock?)
    ensures Slot(c, own, me, t) == Slot(c, own', me, t)
  {
  }

  lemma OwnAt(c: Config, s: State)
    requires ValidConfig(c) && Shaped(c, s)
    ensures forall t :: 0 <= t < c.jobs ==> Own(c, s)[t] == SumTests(c, s.th[t].ran)
  {
  }
}
