/** The parallel test runner as a transition system: one program counter per thread, a counting
    barrier, a mutex around printing, and the fail-fast flag. A schedule is any sequence of thread ids. */
module ParModel {
  import opened Bits
  import opened Wrappers

  const SLOTS: nat := 32
  const BUFFER: nat := 16

  /** What running one test does: assertions made, assertions failed, and whether the log could not grow. */
  datatype Outcome = Outcome(asserts: nat, failures: nat, fatal: bool)

  /** `records` counts the tests collected; `outcome` gives the result of the test at each index. */
  datatype Config = Config(jobs: nat, records: nat, failFast: bool, outcome: nat -> Outcome)

  predicate ValidConfig(c: Config) { 2 <= c.jobs < SLOTS }

  datatype Counters = Counters(failedAsserts: nat, failedTests: nat, asserts: nat)

  const ZERO: Counters := Counters(0, 0, 0)

  function Adds(o: Outcome): Counters { Counters(o.failures, if o.failures > 0 then 1 else 0, o.asserts) }

  function Plus(a: Counters, b: Counters): Counters {
    Counters(a.failedAsserts + b.failedAsserts, a.failedTests + b.failedTests, a.asserts + b.asserts)
  }

  datatype Pc =
    | Collect(k: nat, next: nat)        // thread 1 fills in the work split
    | InitLog                           // cldm_test_init
    | Arrive(b: nat)                    // about to enter barrier b
    | Wait(b: nat)                      // inside barrier b
    | Loop(i: nat)                      // head of the test loop
    | Running(i: nat)                   // inside test i of the block
    | WantLock(i: nat, last: bool)      // about to take io_lock to print the buffer
    | Print(i: nat, j: nat, last: bool) // holds io_lock, j entries printed
    | Append(i: nat)                    // about to put the test in the buffer
    | SetAbort(i: nat)
    | ReadAbort(i: nat)
    | Reduce(r: nat, k: nat)            // round r of the reduction, k counters added
    | Done

  /** A thread: where it is, its print buffer, the tests it started, and how many of them after the
      abort flag was set. */
  datatype Thread = Thread(pc: Pc, buffer: seq<nat>, ran: seq<nat>, late: nat)

  /** One printed line: its running index, the thread, and the test. */
  datatype Line = Line(index: nat, thread: nat, test: nat)

  datatype State = State(
    th: seq<Thread>,
    split: seq<nat>, start: seq<nat>,
    abort: bool,
    arrived: set<nat>, gen: nat,
    logs: seq<Counters>,
    holder: Option<nat>, ioIndex: nat, printed: seq<Line>)

  function First(c: Config): nat { Flp232((c.jobs % 0x1_0000_0000) as bv32) as nat }

  function Halved(n: nat, r: nat): nat { if r == 0 then n else Halved(n, r - 1) / 2 }

  /** The offset of round `r`; the reduction ends at zero. */
  function Off(c: Config, r: nat): nat { Halved(First(c), r) }

  function BlockSize(c: Config, i: nat): nat
    requires c.jobs > 0
  { c.records / c.jobs + (if i < c.records % c.jobs then 1 else 0) }

  function Start(c: Config): State {
    State(
      seq(c.jobs, t => Thread(if t == 1 then Collect(0, 0) else InitLog, [], [], 0)),
      seq(SLOTS, _ => 0), seq(SLOTS, _ => 0),
      false, {}, 0,
      seq(SLOTS, _ => ZERO),
      None, 0, [])
  }

  predicate Shaped(c: Config, s: State) {
    |s.th| == c.jobs && |s.split| == |s.start| == |s.logs| == SLOTS
  }

  /** Where thread `t` goes in round `r`. */
  function Round(c: Config, t: nat, r: nat): Pc {
    if Off(c, r) == 0 then Done else if t < Off(c, r) then Reduce(r, 0) else Arrive(2 + r)
  }

  function AfterBarrier(c: Config, t: nat, b: nat): Pc {
    if b == 0 then Loop(0) else Round(c, t, b - 1)
  }

  /** cldm_test_run returned true. */
  predicate Good(c: Config, o: Outcome) { !o.fatal && (!c.failFast || o.failures == 0) }

  function Verdict(c: Config, test: nat, i: nat): Pc {
    if !Good(c, c.outcome(test)) then (if c.failFast then SetAbort(i) else WantLock(i, true))
    else if c.failFast then ReadAbort(i) else Loop(i + 1)
  }

  /** One step of thread `t`; None if it is blocked or has returned. */
  function Exec(c: Config, s: State, t: nat): Option<State>
    requires ValidConfig(c) && Shaped(c, s) && t < c.jobs
  {
    var me := s.th[t];
    match me.pc
    case Collect(k, next) =>
      if k < c.jobs then
        Some(s.(th := s.th[t := me.(pc := Collect(k + 1, next + BlockSize(c, k)))],
                split := s.split[k := BlockSize(c, k)], start := s.start[k := next]))
      else Some(s.(th := s.th[t := me.(pc := InitLog)]))
    case InitLog =>
      Some(s.(th := s.th[t := me.(pc := Arrive(0), buffer := [])], logs := s.logs[t := ZERO]))
    case Arrive(b) =>
      if |s.arrived| + 1 == c.jobs then
        Some(s.(th := s.th[t := me.(pc := AfterBarrier(c, t, b))], arrived := {}, gen := s.gen + 1))
      else
        Some(s.(th := s.th[t := me.(pc := Wait(b))], arrived := s.arrived + {t}))
    case Wait(b) =>
      if b < s.gen then Some(s.(th := s.th[t := me.(pc := AfterBarrier(c, t, b))])) else None
    case Loop(i) =>
      if i < s.split[t] then
        Some(s.(th := s.th[t := me.(pc := Running(i), ran := me.ran + [s.start[t] + i],
                                    late := if s.abort then me.late + 1 else me.late)]))
      else Some(s.(th := s.th[t := me.(pc := WantLock(i, true))]))
    case Running(i) =>
      Some(s.(th := s.th[t := me.(pc := if |me.buffer| >= BUFFER then WantLock(i, false) else Append(i))],
              logs := s.logs[t := Plus(s.logs[t], Adds(c.outcome(s.start[t] + i)))]))
    case WantLock(i, last) =>
      if s.holder.None? then Some(s.(th := s.th[t := me.(pc := Print(i, 0, last))], holder := Some(t))) else None
    case Print(i, j, last) =>
      if j < |me.buffer| then
        Some(s.(th := s.th[t := me.(pc := Print(i, j + 1, last))], ioIndex := s.ioIndex + 1,
                printed := s.printed + [Line(s.ioIndex + 1, t, me.buffer[j])]))
      else if last then Some(s.(th := s.th[t := me.(pc := Arrive(1))], holder := None))
      else Some(s.(th := s.th[t := me.(pc := Append(i), buffer := [])], holder := None))
    case Append(i) =>
      Some(s.(th := s.th[t := me.(pc := Verdict(c, s.start[t] + i, i), buffer := me.buffer + [s.start[t] + i])]))
    case SetAbort(i) =>
      Some(s.(th := s.th[t := me.(pc := WantLock(i, true))], abort := true))
    case ReadAbort(i) =>
      Some(s.(th := s.th[t := me.(pc := if s.abort then WantLock(i, true) else Loop(i + 1))]))
    case Reduce(r, k) =>
      if k >= 3 || t + Off(c, r) >= SLOTS then None
      else
        Some(s.(th := s.th[t := me.(pc := if k < 2 then Reduce(r, k + 1) else Arrive(2 + r))],
                logs := s.logs[t := AddAt(s.logs[t], s.logs[t + Off(c, r)], k)]))
    case Done => None
  }

  /** The k-th addition of cldm_test_reduce. */
  function AddAt(a: Counters, b: Counters, k: nat): Counters {
    if k == 0 then a.(failedAsserts := a.failedAsserts + b.failedAsserts)
    else if k == 1 then a.(failedTests := a.failedTests + b.failedTests)
    else a.(asserts := a.asserts + b.asserts)
  }

  lemma ExecShaped(c: Config, s: State, t: nat)
    requires ValidConfig(c) && Shaped(c, s) && t < c.jobs && Exec(c, s, t).Some?
    ensures Shaped(c, Exec(c, s, t).value)
  {
  }

  /** The state after a schedule; a blocked or finished thread just loses its turn. */
  function Run(c: Config, schedule: seq<nat>): (s: State)
    requires ValidConfig(c)
    ensures Shaped(c, s)
  {
    if schedule == [] then Start(c)
    else
      var s := Run(c, schedule[..|schedule| - 1]);
      var t := schedule[|schedule| - 1];
      if t < c.jobs && Exec(c, s, t).Some? then Exec(c, s, t).value else s
  }

  lemma FirstIs(c: Config)
    requires ValidConfig(c)
    ensures First(c) == if c.jobs < 4 then 2 else if c.jobs < 8 then 4 else if c.jobs < 16 then 8 else 16
  {
    assert c.jobs % 0x1_0000_0000 == c.jobs;
    hide Flp232;
    if c.jobs < 8 { FloorSmall(c.jobs); } else if c.jobs < 16 { FloorMiddle(c.jobs); } else { FloorLarge(c.jobs); }
  }

  lemma FloorSmall(j: nat)
    requires 2 <= j < 8
    ensures Flp232(j as bv32) as nat == if j < 4 then 2 else 4
  {
    assert j == 2 || j == 3 || j == 4 || j == 5 || j == 6 || j == 7;
  }

  lemma FloorMiddle(j: nat)
    requires 8 <= j < 16
    ensures Flp232(j as bv32) as nat == 8
  {
    assert j == 8 || j == 9 || j == 10 || j == 11 || j == 12 || j == 13 || j == 14 || j == 15;
  }

  lemma FloorLarge(j: nat)
    requires 16 <= j < 32
    ensures Flp232(j as bv32) as nat == 16
  {
    assert j == 16 || j == 17 || j == 18 || j == 19 || j == 20 || j == 21 || j == 22 || j == 23
      || j == 24 || j == 25 || j == 26 || j == 27 || j == 28 || j == 29 || j == 30 || j == 31;
  }
}
