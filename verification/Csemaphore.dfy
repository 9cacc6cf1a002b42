/** A counting semaphore made of two binary ones, over every interleaving of any number of threads. */
module Csemaphore {

  /** Where a thread is: at the statement it does next in csem_down or csem_up. */
  datatype Pc =
    | Idle
    | DownS2 | DownS1 | Decrement | TestMore | UpS2 | UpS1
    | EnterUp | Increment | TestFirst | OpenS2 | LeaveUp

  /** `s1` and `s2` say whether the binary semaphores are unlocked. */
  datatype State = State(s1: bool, s2: bool, value: int, pcs: seq<Pc>)

  datatype Move = Move(thread: nat, down: bool)

  // ---------- Steps ----------

  function Goto(s: State, i: nat, pc: Pc): State
    requires i < |s.pcs|
  {
    s.(pcs := s.pcs[i := pc])
  }

  /** Thread `i` does its next statement; a thread that has to wait does nothing. */
  function Step(s: State, m: Move): State {
    if m.thread >= |s.pcs| then s
    else
      var i := m.thread;
      match s.pcs[i]
      case Idle => Goto(s, i, if m.down then DownS2 else EnterUp)
      case DownS2 => if s.s2 then Goto(s, i, DownS1).(s2 := false) else s
      case DownS1 => if s.s1 then Goto(s, i, Decrement).(s1 := false) else s
      case Decrement => Goto(s, i, TestMore).(value := s.value - 1)
      case TestMore => Goto(s, i, if s.value > 0 then UpS2 else UpS1)
      case UpS2 => Goto(s, i, UpS1).(s2 := true)
      case UpS1 => Goto(s, i, Idle).(s1 := true)
      case EnterUp => if s.s1 then Goto(s, i, Increment).(s1 := false) else s
      case Increment => Goto(s, i, TestFirst).(value := s.value + 1)
      case TestFirst => Goto(s, i, if s.value == 1 then OpenS2 else LeaveUp)
      case OpenS2 => Goto(s, i, LeaveUp).(s2 := true)
      case LeaveUp => Goto(s, i, Idle).(s1 := true)
  }

  function Run(s: State, ms: seq<Move>): State {
    if ms == [] then s else Step(Run(s, ms[..|ms| - 1]), ms[|ms| - 1])
  }

  /** What csem_alloc leaves when both allocations succeed. */
  function Start(n: nat, initial: nat): State {
    State(true, initial != 0, initial, seq(n, _ => Idle))
  }

  // ---------- Calls, as a run shows them ----------

  /** The last call that thread `i` made in the run is csem_down. */
  function LastIsDown(s: State, ms: seq<Move>, i: nat): bool {
    if ms == [] then true
    else
      var n := |ms| - 1;
      var was := Run(s, ms[..n]);
      if ms[n].thread == i && i < |was.pcs| && was.pcs[i] == Idle then ms[n].down else LastIsDown(s, ms[..n], i)
  }

  /** The move brings its thread back from a call. */
  predicate Returns(s: State, m: Move) {
    && m.thread < |s.pcs| && s.pcs[m.thread] != Idle
    && m.thread < |Step(s, m).pcs| && Step(s, m).pcs[m.thread] == Idle
  }

  /** How many calls, of csem_down or of csem_up, have ended in the run. */
  function Ended(s: State, ms: seq<Move>, down: bool): nat {
    if ms == [] then 0
    else
      var n := |ms| - 1;
      Ended(s, ms[..n], down)
      + Bit(Returns(Run(s, ms[..n]), ms[n]) && LastIsDown(s, ms[..n], ms[n].thread) == down)
  }

  // ---------- Counting threads ----------

  function Bit(b: bool): nat { if b then 1 else 0 }

  /** How many threads are at `pc`. */
  function NumAt(pcs: seq<Pc>, pc: Pc): nat {
    if pcs == [] then 0 else NumAt(pcs[..|pcs| - 1], pc) + Bit(pcs[|pcs| - 1] == pc)
  }

  lemma {:induction false} NumSet(pcs: seq<Pc>, i: nat, to: Pc, pc: Pc)
    requires i < |pcs|
    ensures NumAt(pcs[i := to], pc) + Bit(pcs[i] == pc) == NumAt(pcs, pc) + Bit(to == pc)
    ensures NumAt(pcs, pc) >= Bit(pcs[i] == pc)
  {
    var n := |pcs| - 1;
    var now := pcs[i := to];
    if i == n {
      assert now[..n] == pcs[..n];
    } else {
      assert now[..n] == pcs[..n][i := to];
      NumSet(pcs[..n], i, to, pc);
    }
  }

  lemma {:induction false} NumNone(pcs: seq<Pc>, pc: Pc)
    requires forall i :: 0 <= i < |pcs| ==> pcs[i] != pc
    ensures NumAt(pcs, pc) == 0
  {
    if pcs != [] { NumNone(pcs[..|pcs| - 1], pc); }
  }

  lemma {:induction false} NumSome(pcs: seq<Pc>, pc: Pc) returns (i: nat)
    requires NumAt(pcs, pc) > 0
    ensures i < |pcs| && pcs[i] == pc
  {
    if pcs[|pcs| - 1] == pc { i := |pcs| - 1; } else { i := NumSome(pcs[..|pcs| - 1], pc); }
  }

  /** Threads inside the s1 section. */
  function Inside(s: State): nat {
    NumAt(s.pcs, Decrement) + NumAt(s.pcs, TestMore) + NumAt(s.pcs, UpS2) + NumAt(s.pcs, UpS1) +
    NumAt(s.pcs, Increment) + NumAt(s.pcs, TestFirst) + NumAt(s.pcs, OpenS2) + NumAt(s.pcs, LeaveUp)
  }

  /** Threads past s2 and not yet counted in the value. */
  function Holding(s: State): nat { NumAt(s.pcs, DownS1) + NumAt(s.pcs, Decrement) }

  /** Threads that have yet to open s2, because of what they did to the value. */
  function Owing(s: State): nat {
    NumAt(s.pcs, UpS2) + NumAt(s.pcs, OpenS2) +
    (if s.value > 0 then NumAt(s.pcs, TestMore) else 0) + (if s.value == 1 then NumAt(s.pcs, TestFirst) else 0)
  }

  // ---------- The invariant ----------

  ghost predicate Inv(s: State) {
    && Inside(s) + Bit(s.s1) == 1
    && Bit(s.s2) + Holding(s) + Owing(s) == Bit(s.value > 0)
    && s.value >= 0
  }

  lemma StartInv(n: nat, initial: nat)
    ensures Inv(Start(n, initial))
  {
    AllIdle(Start(n, initial));
  }

  lemma Moves(pcs: seq<Pc>, i: nat, to: Pc, now: seq<Pc>)
    requires i < |pcs| && now == pcs[i := to]
    ensures forall pc :: NumAt(now, pc) == NumAt(pcs, pc) + Bit(to == pc) - Bit(pcs[i] == pc)
    ensures NumAt(pcs, pcs[i]) >= 1
  {
    forall pc ensures NumAt(now, pc) == NumAt(pcs, pc) + Bit(to == pc) - Bit(pcs[i] == pc) {
      NumSet(pcs, i, to, pc);
    }
    NumSet(pcs, i, to, pcs[i]);
  }

  /** The move takes its thread from `from` to `to`, and the counts show it. */
  ghost predicate Shifted(s: State, m: Move, t: State, from: Pc, to: Pc) {
    && m.thread < |s.pcs| && s.pcs[m.thread] == from && t == Step(s, m) && |t.pcs| == |s.pcs| && t.pcs[m.thread] == to
        && NumAt(s.pcs, from) >= 1
    && forall pc :: NumAt(t.pcs, pc) == NumAt(s.pcs, pc) + Bit(to == pc) - Bit(from == pc)
  }

  /** Coming in. */
  lemma WaitKeeps(s: State, m: Move, t: State, from: Pc, to: Pc)
    requires Inv(s) && Shifted(s, m, t, from, to) && (from == Idle || from == DownS2)
    ensures Inv(t)
  {
    hide NumAt;
  }

  /** Entering the s1 section. */
  lemma EnterKeeps(s: State, m: Move, t: State, from: Pc, to: Pc)
    requires Inv(s) && Shifted(s, m, t, from, to) && (from == DownS1 || from == EnterUp)
    ensures Inv(t)
  {
    hide NumAt;
  }

  /** Taking a unit. */
  lemma DecrementKeeps(s: State, m: Move, t: State, from: Pc, to: Pc)
    requires Inv(s) && Shifted(s, m, t, from, to) && (from == Decrement || from == TestMore)
    ensures Inv(t)
  {
    hide NumAt;
  }

  /** Passing s2 on, and leaving. */
  lemma PassOnKeeps(s: State, m: Move, t: State, from: Pc, to: Pc)
    requires Inv(s) && Shifted(s, m, t, from, to) && (from == UpS2 || from == UpS1)
    ensures Inv(t)
  {
    hide NumAt;
  }

  /** Adding a unit. */
  lemma IncrementKeeps(s: State, m: Move, t: State, from: Pc, to: Pc)
    requires Inv(s) && Shifted(s, m, t, from, to) && (from == Increment || from == TestFirst)
    ensures Inv(t)
  {
    hide NumAt;
  }

  /** Opening s2, and leaving. */
  lemma OpenKeeps(s: State, m: Move, t: State, from: Pc, to: Pc)
    requires Inv(s) && Shifted(s, m, t, from, to) && (from == OpenS2 || from == LeaveUp)
    ensures Inv(t)
  {
    hide NumAt;
  }

  lemma StepShifts(s: State, m: Move, t: State)
    requires t == Step(s, m) && t != s
    ensures m.thread < |s.pcs| == |t.pcs| && Shifted(s, m, t, s.pcs[m.thread], t.pcs[m.thread])
  {
    hide NumAt;
    Moves(s.pcs, m.thread, t.pcs[m.thread], t.pcs);
  }

  lemma StepKeeps(s: State, m: Move)
    requires Inv(s)
    ensures Inv(Step(s, m))
  {
    hide NumAt, Inv, Shifted, Step;
    var t := Step(s, m);
    if t != s {
      StepShifts(s, m, t);
      var from, to := s.pcs[m.thread], t.pcs[m.thread];
      match from
      case Idle => WaitKeeps(s, m, t, from, to);
      case DownS2 => WaitKeeps(s, m, t, from, to);
      case DownS1 => EnterKeeps(s, m, t, from, to);
      case EnterUp => EnterKeeps(s, m, t, from, to);
      case Decrement => DecrementKeeps(s, m, t, from, to);
      case TestMore => DecrementKeeps(s, m, t, from, to);
      case UpS2 => PassOnKeeps(s, m, t, from, to);
      case UpS1 => PassOnKeeps(s, m, t, from, to);
      case Increment => IncrementKeeps(s, m, t, from, to);
      case TestFirst => IncrementKeeps(s, m, t, from, to);
      case OpenS2 => OpenKeeps(s, m, t, from, to);
      case LeaveUp => OpenKeeps(s, m, t, from, to);
    }
  }

  lemma {:induction false} RunKeeps(s: State, ms: seq<Move>)
    requires Inv(s)
    ensures Inv(Run(s, ms))
  {
    if ms != [] {
      RunKeeps(s, ms[..|ms| - 1]);
      StepKeeps(Run(s, ms[..|ms| - 1]), ms[|ms| - 1]);
    }
  }

  // ---------- Units and calls ----------

  predicate InDown(pc: Pc) { pc in {DownS2, DownS1, Decrement, TestMore, UpS2, UpS1} }

  /** A step leaves the other threads where they are and its own in the call it is in. */
  lemma StepCall(s: State, m: Move, i: nat)
    requires i < |s.pcs|
    ensures |Step(s, m).pcs| == |s.pcs|
    ensures var pc := Step(s, m).pcs[i];
            if m.thread != i then pc == s.pcs[i]
            else if s.pcs[i] == Idle then pc != Idle && InDown(pc) == m.down
            else pc == Idle || InDown(pc) == InDown(s.pcs[i])
  {
  }

  /** A thread in the middle of a call is where that call takes it. */
  lemma {:induction false} CallIs(s: State, ms: seq<Move>, i: nat)
    requires i < |s.pcs| && forall k :: 0 <= k < |s.pcs| ==> s.pcs[k] == Idle
    ensures i < |Run(s, ms).pcs| && (Run(s, ms).pcs[i] != Idle ==> InDown(Run(s, ms).pcs[i]) == LastIsDown(s, ms, i))
  {
    if ms != [] {
      hide Step, InDown;
      CallIs(s, ms[..|ms| - 1], i);
      StepCall(Run(s, ms[..|ms| - 1]), ms[|ms| - 1], i);
    }
  }

  /** Threads that have taken their unit and not come back. */
  function Leaving(s: State): nat { NumAt(s.pcs, TestMore) + NumAt(s.pcs, UpS2) + NumAt(s.pcs, UpS1) }

  /** Threads that have added their unit and not come back. */
  function Adding(s: State): nat { NumAt(s.pcs, TestFirst) + NumAt(s.pcs, OpenS2) + NumAt(s.pcs, LeaveUp) }

  /** The value, had every thread that has done its part come back. */
  function Settled(s: State): int { s.value + Leaving(s) - Adding(s) }

  /** A down takes one unit when it ends, and an up adds one. */
  lemma DownCounts(s: State, m: Move, t: State, from: Pc, to: Pc)
    requires Shifted(s, m, t, from, to) && InDown(from)
    ensures Settled(t) == Settled(s) - Bit(Returns(s, m))
  {
    hide NumAt;
  }

  lemma UpCounts(s: State, m: Move, t: State, from: Pc, to: Pc)
    requires Shifted(s, m, t, from, to) && !InDown(from)
    ensures Settled(t) == Settled(s) + Bit(Returns(s, m))
  {
    hide NumAt;
  }

  lemma StepCounts(s: State, m: Move)
    ensures Settled(Step(s, m)) == Settled(s)
              + if !Returns(s, m) then 0 else if InDown(s.pcs[m.thread]) then -1 else 1
  {
    hide NumAt, Shifted, Settled;
    var t := Step(s, m);
    if t != s {
      StepShifts(s, m, t);
      if InDown(s.pcs[m.thread]) {
        DownCounts(s, m, t, s.pcs[m.thread], t.pcs[m.thread]);
      } else {
        UpCounts(s, m, t, s.pcs[m.thread], t.pcs[m.thread]);
      }
    }
  }

  /** In every run the value is the start, plus the ups that have ended or done their part, less the downs. */
  lemma {:induction false} Balanced(n: nat, initial: nat, ms: seq<Move>)
    ensures var s0 := Start(n, initial);
            var s := Run(s0, ms);
            Settled(s) == initial + Ended(s0, ms, false) - Ended(s0, ms, true)
  {
    var s0 := Start(n, initial);
    if ms == [] {
      AllIdle(s0);
    } else {
      hide Step, LastIsDown, Settled, InDown;
      Balanced(n, initial, ms[..|ms| - 1]);
      var s, m := Run(s0, ms[..|ms| - 1]), ms[|ms| - 1];
      StepCounts(s, m);
      SameThreads(s0, ms[..|ms| - 1]);
      if m.thread < n { CallIs(s0, ms[..|ms| - 1], m.thread); }
    }
  }

  lemma {:induction false} SameThreads(s: State, ms: seq<Move>)
    ensures |Run(s, ms).pcs| == |s.pcs|
  {
    if ms != [] { SameThreads(s, ms[..|ms| - 1]); }
  }

  lemma AllIdle(s: State)
    requires forall i :: 0 <= i < |s.pcs| ==> s.pcs[i] == Idle
    ensures forall pc: Pc :: pc != Idle ==> NumAt(s.pcs, pc) == 0
  {
    forall pc: Pc | pc != Idle ensures NumAt(s.pcs, pc) == 0 {
      NumNone(s.pcs, pc);
    }
  }

  // ---------- What it promises ----------

  /** In every run: the value is never negative, and with nobody inside the s1 section it is the start plus
      the ups less the downs that have ended, and is kept by s2, open or with one thread past it.  Downs
      never outrun the units there were. */
  lemma Counts(n: nat, initial: nat, ms: seq<Move>)
    ensures var s0 := Start(n, initial);
            var s, downs, ups := Run(s0, ms), Ended(s0, ms, true), Ended(s0, ms, false);
            && s.value >= 0 && downs <= initial + ups + Adding(s)
            && (s.s1 ==> s.value == initial + ups - downs && Bit(s.s2) + Holding(s) == Bit(s.value > 0))
            && Holding(s) <= 1 && Inside(s) <= 1
  {
    StartInv(n, initial);
    RunKeeps(Start(n, initial), ms);
    Balanced(n, initial, ms);
  }

  /** No opening of s2 is lost: it is always closed, with nobody past it, when a thread opens it. */
  lemma NoUpLost(n: nat, initial: nat, ms: seq<Move>, i: nat)
    requires var s := Run(Start(n, initial), ms); i < |s.pcs| && (s.pcs[i] == UpS2 || s.pcs[i] == OpenS2)
    ensures var s := Run(Start(n, initial), ms); !s.s2 && Holding(s) == 0
  {
    var s := Run(Start(n, initial), ms);
    StartInv(n, initial);
    RunKeeps(Start(n, initial), ms);
    NumSet(s.pcs, i, Idle, s.pcs[i]);
  }

  /** While more has been put in than has been taken out and nobody is inside, the waiting threads are not
      stuck: one of them can go on, past s2 or into the s1 section. */
  lemma NobodyStuck(n: nat, initial: nat, ms: seq<Move>, i: nat) returns (j: nat)
    requires var s0 := Start(n, initial);
             var s := Run(s0, ms);
             && s.s1 && initial + Ended(s0, ms, false) > Ended(s0, ms, true)
             && i < |s.pcs| && (s.pcs[i] == DownS2 || s.pcs[i] == DownS1)
    ensures var s := Run(Start(n, initial), ms);
            && j < |s.pcs| && (s.pcs[j] == DownS2 || s.pcs[j] == DownS1)
            && Step(s, Move(j, true)).pcs[j] == if s.pcs[j] == DownS2 then DownS1 else Decrement
  {
    var s := Run(Start(n, initial), ms);
    StartInv(n, initial);
    RunKeeps(Start(n, initial), ms);
    Counts(n, initial, ms);
    j := i;
    if !s.s2 { j := NumSome(s.pcs, DownS1); }
  }

  /** Nothing can happen. */
  ghost predicate Stuck(s: State) { forall m: Move :: Step(s, m) == s }

  /** A thread waits only for s2, or for s1 while another is inside; the others can go on. */
  lemma CanGo(s: State, i: nat)
    requires i < |s.pcs|
    ensures Step(s, Move(i, true)) == s ==>
            (s.pcs[i] == DownS2 && !s.s2) || ((s.pcs[i] == DownS1 || s.pcs[i] == EnterUp) && !s.s1)
  {
  }

  lemma InsideSome(s: State) returns (i: nat)
    requires Inside(s) > 0
    ensures i < |s.pcs| && s.pcs[i] !in {Idle, DownS2, DownS1, EnterUp}
  {
    if pc: Pc :| pc !in {Idle, DownS2, DownS1, EnterUp} && NumAt(s.pcs, pc) > 0 {
      i := NumSome(s.pcs, pc);
    } else {
      assert false;
    }
  }

  lemma AllWait(s: State)
    requires forall i :: 0 <= i < |s.pcs| ==> s.pcs[i] == DownS2
    ensures forall pc: Pc :: pc != DownS2 ==> NumAt(s.pcs, pc) == 0
  {
    forall pc: Pc | pc != DownS2 ensures NumAt(s.pcs, pc) == 0 {
      NumNone(s.pcs, pc);
    }
  }

  /** In every run: nothing can happen if and only if every thread waits in a down and no unit is left (or
      there is no thread). */
  lemma DeadlockIff(n: nat, initial: nat, ms: seq<Move>)
    ensures var s := Run(Start(n, initial), ms);
            Stuck(s) <==> (forall i :: 0 <= i < |s.pcs| ==> s.pcs[i] == DownS2) && (s.pcs == [] || s.value == 0)
  {
    var s := Run(Start(n, initial), ms);
    StartInv(n, initial);
    RunKeeps(Start(n, initial), ms);
    hide NumAt, Run;
    if Stuck(s) {
      if !s.s1 {
        var i := InsideSome(s);
        assert Step(s, Move(i, true)) == s;
        CanGo(s, i);
      }
      forall i | 0 <= i < |s.pcs| ensures s.pcs[i] == DownS2 && !s.s2 {
        assert Step(s, Move(i, true)) == s;
        CanGo(s, i);
      }
      AllWait(s);
    }
    if (forall i :: 0 <= i < |s.pcs| ==> s.pcs[i] == DownS2) && (s.pcs == [] || s.value == 0) {
      AllWait(s);
      assert s.pcs != [] ==> !s.s2;
    }
  }
}
