/** What every interleaving of the runner keeps. */
module ParSafety {
  import opened ParModel
  import opened Wrappers
  import opened ParSplit

  // ---------------------------------------------------------------- the barrier

  /** The number of barriers behind a thread. */
  function Phase(c: Config, pc: Pc): nat {
    match pc
    case Collect(_, _) => 0
    case InitLog => 0
    case Arrive(b) => b
    case Wait(b) => b
    case Reduce(r, _) => 2 + r
    case Done => 2 + Rounds(c)
    case _ => 1
  }

  /** A thread is in the current phase, or about to leave the barrier that started it. */
  predicate InStep(c: Config, pc: Pc, gen: nat) {
    && (Phase(c, pc) == gen || (gen > 0 && pc == Wait(gen - 1)))
    && match pc
       case Arrive(b) => b >= 2 ==> b - 2 < Rounds(c)
       case Wait(b) => b >= 2 ==> b - 2 < Rounds(c)
       case Reduce(r, k) => k < 3 && r < Rounds(c)
       case _ => true
  }

  ghost predicate Sync(c: Config, s: State)
    requires Shaped(c, s)
  {
    && (forall t :: 0 <= t < c.jobs ==> InStep(c, s.th[t].pc, s.gen))
    && (forall t :: t in s.arrived <==> 0 <= t < c.jobs && s.th[t].pc == Wait(s.gen))
    && |s.arrived| < c.jobs
  }

  lemma AfterInStep(c: Config, t: nat, b: nat)
    requires ValidConfig(c) && (b >= 2 ==> b - 2 < Rounds(c))
    ensures InStep(c, AfterBarrier(c, t, b), b + 1)
    ensures !AfterBarrier(c, t, b).Wait?
  {
    if b >= 1 { Offsets(c, b - 1); }
  }

  function Ids(n: nat): set<nat> { if n == 0 then {} else Ids(n - 1) + {n - 1} }

  lemma IdsAre(n: nat)
    ensures (forall x :: x in Ids(n) <==> 0 <= x < n) && |Ids(n)| == n
  {
  }

  lemma SubsetBound(a: set<nat>, n: nat, t: nat)
    requires forall x :: x in a ==> x < n && x != t
    requires t < n
    ensures |a| <= n - 1
    ensures |a| == n - 1 ==> forall x :: 0 <= x < n && x != t ==> x in a
  {
    IdsAre(n);
    Included(a, Ids(n) - {t});
  }

  lemma Included(a: set<nat>, b: set<nat>)
    requires a <= b
    ensures |a| <= |b| && (|a| == |b| ==> a == b)
  {
    if a != {} {
      var x :| x in a;
      Included(a - {x}, b - {x});
      assert |a| == |a - {x}| + 1 && |b| == |b - {x}| + 1;
      if |a| == |b| { assert a == (a - {x}) + {x} && b == (b - {x}) + {x}; }
    }
  }

  /** A step changes the thread that takes it and no other. */
  lemma StepOthers(c: Config, s: State, t: nat)
    requires ValidConfig(c) && Shaped(c, s) && t < c.jobs && Exec(c, s, t).Some?
    ensures Shaped(c, Exec(c, s, t).value)
    ensures forall u :: 0 <= u < c.jobs && u != t ==> Exec(c, s, t).value.th[u] == s.th[u]
  {
    ExecShaped(c, s, t);
  }

  /** A step as the barrier sees it. */
  lemma StepSync(c: Config, s: State, t: nat)
    requires ValidConfig(c) && Shaped(c, s) && t < c.jobs && Exec(c, s, t).Some? && InStep(c, s.th[t].pc, s.gen)
    ensures var s', pc := Exec(c, s, t).value, s.th[t].pc;
      && |s'.th| == c.jobs
      && (if pc.Arrive? then
            if |s.arrived| + 1 == c.jobs
            then s'.gen == s.gen + 1 && s'.arrived == {} && s'.th[t].pc == AfterBarrier(c, t, pc.b)
            else s'.gen == s.gen && s'.arrived == s.arrived + {t} && s'.th[t].pc == Wait(pc.b)
          else
            s'.gen == s.gen && s'.arrived == s.arrived && !s'.th[t].pc.Wait? && InStep(c, s'.th[t].pc, s.gen)
            && (pc.Wait? ==> pc.b < s.gen))
  {
    hide Exec, InStep, AfterBarrier;
    if s.th[t].pc.Arrive? {
      StepSyncArrive(c, s, t);
    } else if s.th[t].pc.Wait? {
      StepSyncWait(c, s, t);
    } else {
      StepSyncRest(c, s, t);
    }
  }

  lemma StepSyncArrive(c: Config, s: State, t: nat)
    requires ValidConfig(c) && Shaped(c, s) && t < c.jobs && Exec(c, s, t).Some? && InStep(c, s.th[t].pc, s.gen) && s.th[t].pc.Arrive?
    ensures var s', b := Exec(c, s, t).value, s.th[t].pc.b;
      && |s'.th| == c.jobs
      && if |s.arrived| + 1 == c.jobs
         then s'.gen == s.gen + 1 && s'.arrived == {} && s'.th[t].pc == AfterBarrier(c, t, b)
         else s'.gen == s.gen && s'.arrived == s.arrived + {t} && s'.th[t].pc == Wait(b)
  {
    hide AfterBarrier;
  }

  lemma StepSyncWait(c: Config, s: State, t: nat)
    requires ValidConfig(c) && Shaped(c, s) && t < c.jobs && Exec(c, s, t).Some? && InStep(c, s.th[t].pc, s.gen) && s.th[t].pc.Wait?
    ensures var s' := Exec(c, s, t).value;
      && |s'.th| == c.jobs && s'.gen == s.gen && s'.arrived == s.arrived
      && !s'.th[t].pc.Wait? && InStep(c, s'.th[t].pc, s.gen) && s.th[t].pc.b < s.gen
  {
    hide AfterBarrier;
    AfterInStep(c, t, s.th[t].pc.b);
  }

  lemma StepSyncRest(c: Config, s: State, t: nat)
    requires ValidConfig(c) && Shaped(c, s) && t < c.jobs && Exec(c, s, t).Some? && InStep(c, s.th[t].pc, s.gen)
    requires !s.th[t].pc.Arrive? && !s.th[t].pc.Wait?
    ensures var s' := Exec(c, s, t).value;
      && |s'.th| == c.jobs && s'.gen == s.gen && s'.arrived == s.arrived
      && !s'.th[t].pc.Wait? && InStep(c, s'.th[t].pc, s.gen)
  {
    hide AfterBarrier, BlockSize;
    var pc := s.th[t].pc;
    if pc.Append? { assert InStep(c, Verdict(c, s.start[t] + pc.i, pc.i), s.gen); }
  }

  lemma SyncStep(c: Config, s: State, t: nat)
    requires ValidConfig(c) && Shaped(c, s) && t < c.jobs && Sync(c, s) && Exec(c, s, t).Some?
    ensures Shaped(c, Exec(c, s, t).value) && Sync(c, Exec(c, s, t).value)
  {
    hide Exec, AfterBarrier, InStep;
    StepOthers(c, s, t);
    StepSync(c, s, t);
    if s.th[t].pc.Arrive? {
      SyncArrive(c, s, t);
    } else {
      SyncSilent(c, s, t);
    }
  }

  lemma SyncSilent(c: Config, s: State, t: nat)
    requires ValidConfig(c) && Shaped(c, s) && t < c.jobs && Sync(c, s) && Exec(c, s, t).Some? && !s.th[t].pc.Arrive?
    ensures Shaped(c, Exec(c, s, t).value) && Sync(c, Exec(c, s, t).value)
  {
    hide Exec, AfterBarrier, InStep;
    StepOthers(c, s, t);
    StepSync(c, s, t);
  }

  lemma SyncArrive(c: Config, s: State, t: nat)
    requires ValidConfig(c) && Shaped(c, s) && t < c.jobs && Sync(c, s) && Exec(c, s, t).Some? && s.th[t].pc.Arrive?
    ensures Shaped(c, Exec(c, s, t).value) && Sync(c, Exec(c, s, t).value)
  {
    hide Exec, AfterBarrier, InStep;
    StepOthers(c, s, t);
    StepSyncArrive(c, s, t);
    ArriveInStep(c, s.th[t].pc, s.gen);
    if |s.arrived| + 1 == c.jobs {
      SyncRelease(c, s, Exec(c, s, t).value, t);
    } else {
      SyncMore(c, s, Exec(c, s, t).value, t);
    }
  }

  /** The last thread to arrive releases the others. */
  lemma SyncRelease(c: Config, s: State, s': State, t: nat)
    requires ValidConfig(c) && Shaped(c, s) && Shaped(c, s') && Sync(c, s) && t < c.jobs && s.th[t].pc == Arrive(s.gen)
    requires s.gen >= 2 ==> s.gen - 2 < Rounds(c)
    requires forall u :: 0 <= u < c.jobs && u != t ==> s'.th[u] == s.th[u]
    requires |s.arrived| + 1 == c.jobs && s'.arrived == {} && s'.gen == s.gen + 1
    requires s'.th[t].pc == AfterBarrier(c, t, s.gen)
    ensures Sync(c, s')
  {
    hide AfterBarrier, InStep;
    AfterInStep(c, t, s.gen);
    SubsetBound(s.arrived, c.jobs, t);
    forall u | 0 <= u < c.jobs && u != t
      ensures InStep(c, s.th[u].pc, s.gen + 1) && s.th[u].pc == Wait(s.gen)
    {
      assert u in s.arrived;
      AllWait(c, s.th[u].pc, s.gen);
    }
  }

  /** Any other thread that arrives waits. */
  lemma SyncMore(c: Config, s: State, s': State, t: nat)
    requires ValidConfig(c) && Shaped(c, s) && Shaped(c, s') && Sync(c, s) && t < c.jobs && s.th[t].pc == Arrive(s.gen)
    requires forall u :: 0 <= u < c.jobs && u != t ==> s'.th[u] == s.th[u]
    requires |s.arrived| + 1 != c.jobs && s'.arrived == s.arrived + {t} && s'.gen == s.gen
    requires s'.th[t].pc == Wait(s.gen) && InStep(c, Wait(s.gen), s.gen)
    ensures Sync(c, s')
  {
    hide AfterBarrier, InStep;
    SubsetBound(s.arrived, c.jobs, t);
  }

  lemma ArriveInStep(c: Config, pc: Pc, gen: nat)
    requires ValidConfig(c) && pc.Arrive? && InStep(c, pc, gen)
    ensures pc.b == gen && (pc.b >= 2 ==> pc.b - 2 < Rounds(c)) && InStep(c, Wait(gen), gen)
  {
  }

  /** A thread that waits for a barrier is in step with those that have left it. */
  lemma AllWait(c: Config, pc: Pc, gen: nat)
    requires ValidConfig(c) && pc == Wait(gen) && InStep(c, pc, gen)
    ensures InStep(c, pc, gen + 1)
  {
  }

  // ---------------------------------------------------------------- the work split and the tests run

  function Range(a: nat, n: nat): (r: seq<nat>)
    ensures |r| == n && forall i :: 0 <= i < n ==> r[i] == a + i
  { seq(n, i requires 0 <= i < n => a + i) }

  predicate BlockKnown(c: Config, s: State, i: nat)
    requires ValidConfig(c) && Shaped(c, s) && i < c.jobs
  { s.split[i] == BlockSize(c, i) && s.start[i] == BlockStart(c, i) }

  /** The entries of the split that are filled in: all of them once thread 1 has left the loop. */
  function Known(c: Config, s: State): nat
    requires ValidConfig(c) && Shaped(c, s)
  { if s.th[1].pc.Collect? then s.th[1].pc.k else c.jobs }

  /** The tests a thread started are a prefix of its block, as long as its counter says. */
  predicate RanOk(c: Config, t: nat, me: Thread)
    requires ValidConfig(c)
  {
    && |me.ran| <= BlockSize(c, t) && me.ran == Range(BlockStart(c, t), |me.ran|)
    && match me.pc
       case Collect(k, next) => t == 1 && k <= c.jobs && next == BlockStart(c, k) && me.ran == []
       case InitLog => me.ran == []
       case Arrive(b) => b == 0 ==> me.ran == []
       case Wait(b) => b == 0 ==> me.ran == []
       case Loop(i) => |me.ran| == i
       case Running(i) => |me.ran| == i + 1
       case WantLock(i, last) => last || |me.ran| == i + 1
       case Print(i, _, last) => last || |me.ran| == i + 1
       case Append(i) => |me.ran| == i + 1
       case SetAbort(i) => |me.ran| == i + 1
       case ReadAbort(i) => |me.ran| == i + 1
       case _ => true
  }

  ghost predicate Blocks(c: Config, s: State)
    requires ValidConfig(c) && Shaped(c, s)
  {
    && Known(c, s) <= c.jobs && (forall i :: 0 <= i < Known(c, s) ==> BlockKnown(c, s, i))
    && (forall t :: 0 <= t < c.jobs ==> RanOk(c, t, s.th[t]))
  }

  /** No thread reads the split before it is complete. */
  lemma SplitComplete(c: Config, s: State, t: nat)
    requires ValidConfig(c) && Shaped(c, s) && t < c.jobs && Sync(c, s) && Blocks(c, s)
    requires Phase(c, s.th[t].pc) > 0 || s.gen > 0
    ensures Known(c, s) == c.jobs && BlockKnown(c, s, t)
  {
    assert InStep(c, s.th[t].pc, s.gen) && InStep(c, s.th[1].pc, s.gen);
  }

  /** The thread that steps keeps to its block. */
  lemma StepRan(c: Config, s: State, t: nat)
    requires ValidConfig(c) && Shaped(c, s) && t < c.jobs && Exec(c, s, t).Some? && RanOk(c, t, s.th[t])
    requires Phase(c, s.th[t].pc) > 0 ==> BlockKnown(c, s, t)
    ensures |Exec(c, s, t).value.th| == c.jobs && RanOk(c, t, Exec(c, s, t).value.th[t])
  {
    hide Exec, RanOk, BlockKnown;
    if s.th[t].pc.Loop? {
      StepRanLoop(c, s, t);
    } else if s.th[t].pc.Collect? {
      StepRanCollect(c, s, t);
    } else if s.th[t].pc.Arrive? || s.th[t].pc.Wait? {
      StepRanBarrier(c, s, t);
    } else {
      StepRanRest(c, s, t);
    }
  }

  lemma StepRanLoop(c: Config, s: State, t: nat)
    requires ValidConfig(c) && Shaped(c, s) && t < c.jobs && Exec(c, s, t).Some? && RanOk(c, t, s.th[t])
    requires Phase(c, s.th[t].pc) > 0 ==> BlockKnown(c, s, t)
    requires s.th[t].pc.Loop?
    ensures |Exec(c, s, t).value.th| == c.jobs && RanOk(c, t, Exec(c, s, t).value.th[t])
  {
    hide BlockSize, BlockStart;
    var me, me' := s.th[t], Exec(c, s, t).value.th[t];
    if me.pc.i < s.split[t] {
      assert me'.ran == Range(BlockStart(c, t), |me.ran| + 1);
    }
  }

  lemma StepRanCollect(c: Config, s: State, t: nat)
    requires ValidConfig(c) && Shaped(c, s) && t < c.jobs && Exec(c, s, t).Some? && RanOk(c, t, s.th[t])
    requires Phase(c, s.th[t].pc) > 0 ==> BlockKnown(c, s, t)
    requires s.th[t].pc.Collect?
    ensures |Exec(c, s, t).value.th| == c.jobs && RanOk(c, t, Exec(c, s, t).value.th[t])
  {
    hide BlockSize, BlockStart;
    BlockStartNext(c, s.th[t].pc.k);
  }

  lemma StepRanBarrier(c: Config, s: State, t: nat)
    requires ValidConfig(c) && Shaped(c, s) && t < c.jobs && Exec(c, s, t).Some? && RanOk(c, t, s.th[t])
    requires Phase(c, s.th[t].pc) > 0 ==> BlockKnown(c, s, t)
    requires s.th[t].pc.Arrive? || s.th[t].pc.Wait?
    ensures |Exec(c, s, t).value.th| == c.jobs && RanOk(c, t, Exec(c, s, t).value.th[t])
  {
    hide BlockSize, BlockStart;
    assert Exec(c, s, t).value.th[t].ran == s.th[t].ran;
  }

  lemma StepRanRest(c: Config, s: State, t: nat)
    requires ValidConfig(c) && Shaped(c, s) && t < c.jobs && Exec(c, s, t).Some? && RanOk(c, t, s.th[t])
    requires Phase(c, s.th[t].pc) > 0 ==> BlockKnown(c, s, t)
    requires !s.th[t].pc.Loop? && !s.th[t].pc.Collect? && !s.th[t].pc.Arrive? && !s.th[t].pc.Wait?
    ensures |Exec(c, s, t).value.th| == c.jobs && RanOk(c, t, Exec(c, s, t).value.th[t])
  {
    hide BlockSize, BlockStart;
  }

  lemma BlockStartNext(c: Config, k: nat)
    requires c.jobs > 0
    ensures BlockStart(c, k + 1) == BlockStart(c, k) + BlockSize(c, k)
  {
  }

  /** The split is written by thread 1 only, one entry at a time. */
  lemma StepSplit(c: Config, s: State, t: nat)
    requires ValidConfig(c) && Shaped(c, s) && t < c.jobs && Exec(c, s, t).Some? && RanOk(c, t, s.th[t])
    ensures Shaped(c, Exec(c, s, t).value)
    ensures var s', pc := Exec(c, s, t).value, s.th[t].pc;
      if pc.Collect? && pc.k < c.jobs then
        s'.split == s.split[pc.k := BlockSize(c, pc.k)] && s'.start == s.start[pc.k := pc.next]
        && s'.th[t].pc == Collect(pc.k + 1, pc.next + BlockSize(c, pc.k)) && t == 1 && pc.next == BlockStart(c, pc.k)
      else s'.split == s.split && s'.start == s.start && !s'.th[t].pc.Collect? && (pc.Collect? ==> pc.k == c.jobs)
  {
    hide BlockSize, BlockStart;
    ExecShaped(c, s, t);
    if !s.th[t].pc.Collect? { StepKeepsSplit(c, s, t); }
  }

  lemma StepKeepsSplit(c: Config, s: State, t: nat)
    requires ValidConfig(c) && Shaped(c, s) && t < c.jobs && Exec(c, s, t).Some? && !s.th[t].pc.Collect?
    ensures var s' := Exec(c, s, t).value;
      s'.split == s.split && s'.start == s.start && |s'.th| == c.jobs && !s'.th[t].pc.Collect?
  {
    hide Exec;
    if s.th[t].pc.Arrive? || s.th[t].pc.Wait? { BarrierKeepsSplit(c, s, t); } else { OthersKeepSplit(c, s, t); }
  }

  lemma BarrierKeepsSplit(c: Config, s: State, t: nat)
    requires ValidConfig(c) && Shaped(c, s) && t < c.jobs && Exec(c, s, t).Some? && (s.th[t].pc.Arrive? || s.th[t].pc.Wait?)
    ensures var s' := Exec(c, s, t).value;
      s'.split == s.split && s'.start == s.start && |s'.th| == c.jobs && !s'.th[t].pc.Collect?
  {
    hide BlockSize, BlockStart, Off, Verdict;
  }

  lemma OthersKeepSplit(c: Config, s: State, t: nat)
    requires ValidConfig(c) && Shaped(c, s) && t < c.jobs && Exec(c, s, t).Some?
    requires !s.th[t].pc.Collect? && !s.th[t].pc.Arrive? && !s.th[t].pc.Wait?
    ensures var s' := Exec(c, s, t).value;
      s'.split == s.split && s'.start == s.start && |s'.th| == c.jobs && !s'.th[t].pc.Collect?
  {
    hide BlockSize, BlockStart, Off, AfterBarrier;
  }

  lemma BlocksStep(c: Config, s: State, t: nat)
    requires ValidConfig(c) && Shaped(c, s) && t < c.jobs && Sync(c, s) && Blocks(c, s) && Exec(c, s, t).Some?
    ensures Shaped(c, Exec(c, s, t).value) && Blocks(c, Exec(c, s, t).value)
  {
    hide Exec, BlockSize, BlockStart;
    StepOthers(c, s, t);
    if Phase(c, s.th[t].pc) > 0 { SplitComplete(c, s, t); }
    StepRan(c, s, t);
    StepSplit(c, s, t);
    var s', pc := Exec(c, s, t).value, s.th[t].pc;
    assert pc.Collect? ==> RanOk(c, t, s.th[t]) && t == 1;
    assert Known(c, s') == if pc.Collect? && pc.k < c.jobs then pc.k + 1 else Known(c, s);
    forall i | 0 <= i < Known(c, s')
      ensures BlockKnown(c, s', i)
    {
      assert i < Known(c, s) ==> BlockKnown(c, s, i);
    }
  }

  // ---------------------------------------------------------------- printing

  /** The tests printed for thread `t`, in order. */
  function TestsOf(lines: seq<Line>, t: nat): seq<nat> {
    if lines == [] then []
    else
      var rest, line := lines[..|lines| - 1], lines[|lines| - 1];
      if line.thread == t then TestsOf(rest, t) + [line.test] else TestsOf(rest, t)
  }

  lemma TestsOfAppend(lines: seq<Line>, line: Line, t: nat)
    ensures TestsOf(lines + [line], t) == if line.thread == t then TestsOf(lines, t) + [line.test] else TestsOf(lines, t)
  {
    assert (lines + [line])[..|lines + [line]| - 1] == lines;
  }

  /** Buffered entries that are still to be printed. */
  function Pending(me: Thread): seq<nat> {
    match me.pc
    case Print(_, j, _) => if j <= |me.buffer| then me.buffer[j..] else []
    case Arrive(b) => if b > 0 then [] else me.buffer
    case Wait(b) => if b > 0 then [] else me.buffer
    case Reduce(_, _) => []
    case Done => []
    case _ => me.buffer
  }

  /** Tests started and already handed to the print buffer. */
  function Logged(me: Thread): seq<nat> {
    if me.ran != [] && (me.pc.Running? || me.pc.Append? || (me.pc.WantLock? && !me.pc.last) || (me.pc.Print? && !me.pc.last))
    then me.ran[..|me.ran| - 1] else me.ran
  }

  predicate BufferOk(me: Thread) {
    && |me.buffer| <= BUFFER && (me.pc.Append? ==> |me.buffer| < BUFFER)
    && (me.pc.Print? ==> me.pc.j <= |me.buffer|)
    && ((me.pc.Collect? || me.pc.InitLog? || (me.pc.Arrive? && me.pc.b == 0) || (me.pc.Wait? && me.pc.b == 0)) ==> me.buffer == [])
  }

  ghost predicate Printing(c: Config, s: State)
    requires ValidConfig(c) && Shaped(c, s)
  {
    && s.ioIndex == |s.printed| && (forall j :: 0 <= j < |s.printed| ==> s.printed[j].index == j + 1 && s.printed[j].thread < c.jobs)
    && (forall t :: 0 <= t < c.jobs ==> (s.th[t].pc.Print? <==> s.holder == Some(t)))
    && (s.holder.Some? ==> s.holder.value < c.jobs)
    && (forall t :: 0 <= t < c.jobs ==> BufferOk(s.th[t]))
    && (forall t :: 0 <= t < c.jobs ==> TestsOf(s.printed, t) + Pending(s.th[t]) == Logged(s.th[t]))
  }

  /** A step that does not print. */
  lemma StepSilent(c: Config, s: State, t: nat)
    requires ValidConfig(c) && Shaped(c, s) && t < c.jobs && Exec(c, s, t).Some? && !s.th[t].pc.Print?
    ensures var s', me := Exec(c, s, t).value, s.th[t];
      && |s'.th| == c.jobs && s'.printed == s.printed && s'.ioIndex == s.ioIndex
      && (if me.pc.WantLock? then s.holder == None && s'.holder == Some(t) else s'.holder == s.holder)
      && (s'.th[t].pc.Print? <==> me.pc.WantLock?)
  {
    hide BlockSize, Off;
  }

  /** A step inside the print loop. */
  lemma StepPrint(c: Config, s: State, t: nat)
    requires ValidConfig(c) && Shaped(c, s) && t < c.jobs && s.th[t].pc.Print? && BufferOk(s.th[t])
    ensures Exec(c, s, t).Some?
    ensures var s', me := Exec(c, s, t).value, s.th[t];
      && |s'.th| == c.jobs && BufferOk(s'.th[t]) && Logged(s'.th[t]) == Logged(me)
      && (if me.pc.j < |me.buffer| then
            && s'.printed == s.printed + [Line(s.ioIndex + 1, t, me.buffer[me.pc.j])] && s'.ioIndex == s.ioIndex + 1
            && s'.holder == s.holder && s'.th[t].pc.Print?
            && Pending(me) == [me.buffer[me.pc.j]] + Pending(s'.th[t])
          else
            && s'.printed == s.printed && s'.ioIndex == s.ioIndex && s'.holder == None && !s'.th[t].pc.Print?
            && Pending(s'.th[t]) == Pending(me))
  {
    hide BlockSize, Off, AfterBarrier, Verdict;
    var me := s.th[t];
    if me.pc.j < |me.buffer| {
      assert me.buffer[me.pc.j..] == [me.buffer[me.pc.j]] + me.buffer[me.pc.j + 1..];
    }
  }

  lemma StepBarrierLogged(c: Config, s: State, t: nat)
    requires ValidConfig(c) && Shaped(c, s) && t < c.jobs && Exec(c, s, t).Some? && BufferOk(s.th[t])
    requires RanOk(c, t, s.th[t])
    requires var pc := s.th[t].pc; pc.Collect? || pc.InitLog? || pc.Arrive? || pc.Wait? || pc.Reduce?
    ensures var s', me := Exec(c, s, t).value, s.th[t];
      |s'.th| == c.jobs && BufferOk(s'.th[t]) && Logged(s'.th[t]) == Logged(me) && Pending(s'.th[t]) == Pending(me)
  {
    hide Exec, BufferOk, Logged, Pending, RanOk;
    if s.th[t].pc.Arrive? || s.th[t].pc.Wait? {
      StepWaitLogged(c, s, t);
    } else {
      StepOwnLogged(c, s, t);
    }
  }

  lemma StepWaitLogged(c: Config, s: State, t: nat)
    requires ValidConfig(c) && Shaped(c, s) && t < c.jobs && Exec(c, s, t).Some? && BufferOk(s.th[t])
    requires RanOk(c, t, s.th[t])
    requires s.th[t].pc.Arrive? || s.th[t].pc.Wait?
    ensures var s', me := Exec(c, s, t).value, s.th[t];
      |s'.th| == c.jobs && BufferOk(s'.th[t]) && Logged(s'.th[t]) == Logged(me) && Pending(s'.th[t]) == Pending(me)
  {
    hide BlockSize, Off, BlockStart, Verdict;
    assert Exec(c, s, t).value.th[t].ran == s.th[t].ran;
  }

  lemma StepOwnLogged(c: Config, s: State, t: nat)
    requires ValidConfig(c) && Shaped(c, s) && t < c.jobs && Exec(c, s, t).Some? && BufferOk(s.th[t])
    requires RanOk(c, t, s.th[t])
    requires var pc := s.th[t].pc; pc.Collect? || pc.InitLog? || pc.Reduce?
    ensures var s', me := Exec(c, s, t).value, s.th[t];
      |s'.th| == c.jobs && BufferOk(s'.th[t]) && Logged(s'.th[t]) == Logged(me) && Pending(s'.th[t]) == Pending(me)
  {
    hide BlockSize, Off, BlockStart, Verdict, AfterBarrier;
    assert Exec(c, s, t).value.th[t].ran == s.th[t].ran;
  }

  lemma StepLoopLogged(c: Config, s: State, t: nat)
    requires ValidConfig(c) && Shaped(c, s) && t < c.jobs && BufferOk(s.th[t])
    requires s.th[t].pc.Loop? || s.th[t].pc.Running?
    requires RanOk(c, t, s.th[t])
    ensures Exec(c, s, t).Some?
    ensures var s', me := Exec(c, s, t).value, s.th[t];
      |s'.th| == c.jobs && BufferOk(s'.th[t]) && Logged(s'.th[t]) == Logged(me) && Pending(s'.th[t]) == Pending(me)
  {
    hide BlockSize, Off, BlockStart, AfterBarrier, Verdict;
    var me := s.th[t];
    if me.pc.Loop? {
      assert (me.ran + [s.start[t] + me.pc.i])[..|me.ran|] == me.ran;
    }
  }

  lemma StepAppendLogged(c: Config, s: State, t: nat)
    requires ValidConfig(c) && Shaped(c, s) && t < c.jobs && BufferOk(s.th[t])
    requires s.th[t].pc.Append? && RanOk(c, t, s.th[t]) && BlockKnown(c, s, t)
    ensures Exec(c, s, t).Some?
    ensures var s', me := Exec(c, s, t).value, s.th[t]; var x := s.start[t] + me.pc.i;
      |s'.th| == c.jobs && BufferOk(s'.th[t])
      && Logged(s'.th[t]) == Logged(me) + [x] && Pending(s'.th[t]) == Pending(me) + [x]
  {
    hide BlockSize, Off, BlockStart, AfterBarrier, Good;
    var me := s.th[t];
    assert me.ran == me.ran[..|me.ran| - 1] + [s.start[t] + me.pc.i];
  }

  lemma StepVerdictLogged(c: Config, s: State, t: nat)
    requires ValidConfig(c) && Shaped(c, s) && t < c.jobs && Exec(c, s, t).Some? && BufferOk(s.th[t])
    requires s.th[t].pc.WantLock? || s.th[t].pc.SetAbort? || s.th[t].pc.ReadAbort?
    ensures var s', me := Exec(c, s, t).value, s.th[t];
      |s'.th| == c.jobs && BufferOk(s'.th[t]) && Logged(s'.th[t]) == Logged(me) && Pending(s'.th[t]) == Pending(me)
  {
    hide BlockSize, Off, AfterBarrier, Verdict;
  }

  lemma DoneIsFinal(c: Config, s: State, t: nat)
    requires ValidConfig(c) && Shaped(c, s) && t < c.jobs
    ensures s.th[t].pc == Done ==> Exec(c, s, t) == None
  {
  }

  lemma PrintingStep(c: Config, s: State, t: nat)
    requires ValidConfig(c) && Shaped(c, s) && t < c.jobs && Sync(c, s) && Blocks(c, s) && Printing(c, s)
    requires Exec(c, s, t).Some?
    ensures Shaped(c, Exec(c, s, t).value) && Printing(c, Exec(c, s, t).value)
  {
    hide Exec, BlockSize, BlockStart, TestsOf, Pending, Logged, BufferOk, RanOk;
    StepOthers(c, s, t);
    if Phase(c, s.th[t].pc) > 0 { SplitComplete(c, s, t); }
    assert BufferOk(s.th[t]) && RanOk(c, t, s.th[t]);
    var pc := s.th[t].pc;
    if pc.Print? {
      StepPrint(c, s, t);
    } else {
      StepSilent(c, s, t);
      if pc.Collect? || pc.InitLog? || pc.Arrive? || pc.Wait? || pc.Reduce? {
        StepBarrierLogged(c, s, t);
      } else {
        DoneIsFinal(c, s, t);
        if pc.Loop? || pc.Running? { StepLoopLogged(c, s, t); }
        else if pc.Append? { StepAppendLogged(c, s, t); }
        else { StepVerdictLogged(c, s, t); }
      }
    }
    var s', me := Exec(c, s, t).value, s.th[t];
    forall u | 0 <= u < c.jobs
      ensures BufferOk(s'.th[u]) && TestsOf(s'.printed, u) + Pending(s'.th[u]) == Logged(s'.th[u])
    {
      if me.pc.Print? && me.pc.j < |me.buffer| {
        TestsOfAppend(s.printed, Line(s.ioIndex + 1, t, me.buffer[me.pc.j]), u);
      }
    }
  }
}
