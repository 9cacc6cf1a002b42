/** What binary semaphores and sleep locks let through, counted over every run from boot by the calls that
    begin and end in it. */
module Semaphores {
  import opened Sleep

  // ---------- Calls, as a run shows them ----------

  /** The state after a run from boot. */
  ghost function After(c: Config, ms: seq<Move>): (s: State)
    requires Sane(c)
    ensures Fits(c, s)
  {
    StartFits(c);
    Run(c, Start(c), ms)
  }

  /** The move lets idle thread `t` begin an operation. */
  predicate Starts(s: State, m: Move, t: nat) {
    m.Go? && m.thread == t && t < |s.pcs| && s.pcs[t] == Idle
  }

  /** The operation that thread `t` began last. */
  ghost function Doing(c: Config, ms: seq<Move>, t: nat): Op
    requires Sane(c)
  {
    if ms == [] then Alloc
    else
      var n := |ms| - 1;
      if Starts(After(c, ms[..n]), ms[n], t) then ms[n].op else Doing(c, ms[..n], t)
  }

  /** The moves made before thread `t` began it. */
  ghost function Since(c: Config, ms: seq<Move>, t: nat): (k: nat)
    requires Sane(c)
    ensures k <= |ms|
  {
    if ms == [] then 0
    else
      var n := |ms| - 1;
      if Starts(After(c, ms[..n]), ms[n], t) then n else Since(c, ms[..n], t)
  }

  /** The move ends an operation of its thread that was under way. */
  ghost predicate Ends(c: Config, s: State, m: Move)
    requires Fits(c, s)
  {
    && m.thread < |s.pcs| && s.pcs[m.thread] != Idle
    && m.thread < |Step(c, s, m).pcs| && Step(c, s, m).pcs[m.thread] == Idle
  }

  /** The move begins `op`, and it is under way. */
  ghost predicate Begins(c: Config, s: State, m: Move, op: Op)
    requires Fits(c, s)
  {
    && Starts(s, m, m.thread) && m.op == op
    && m.thread < |Step(c, s, m).pcs| && Step(c, s, m).pcs[m.thread] != Idle
  }

  function Bit(b: bool): nat { if b then 1 else 0 }

  /** How many times `op` has ended, has begun, and slot `j` has been allocated. */
  ghost function Ended(c: Config, ms: seq<Move>, op: Op): nat
    requires Sane(c)
  {
    if ms == [] then 0
    else
      var n := |ms| - 1;
      Ended(c, ms[..n], op) + Bit(Ends(c, After(c, ms[..n]), ms[n]) && Doing(c, ms[..n], ms[n].thread) == op)
  }

  ghost function Begun(c: Config, ms: seq<Move>, op: Op): nat
    requires Sane(c)
  {
    if ms == [] then 0
    else
      var n := |ms| - 1;
      Begun(c, ms[..n], op) + Bit(Begins(c, After(c, ms[..n]), ms[n], op))
  }

  ghost function Allocated(c: Config, ms: seq<Move>, j: nat): nat
    requires Sane(c)
  {
    if ms == [] then 0
    else
      var n := |ms| - 1;
      Allocated(c, ms[..n], j) + Bit(Takes(c, After(c, ms[..n]), ms[n], j))
  }

  // ---------- A thread is where its operation takes it ----------

  predicate InUp(pc: Pc) { pc.WantUp? || pc.Clear? || pc.Scan? }

  function OpAt(pc: Pc, j: nat): Op { if InUp(pc) then Up(j) else Down(j) }

  lemma StepOp(c: Config, s: State, m: Move, n: State, t: nat)
    requires Fits(c, s) && n == Step(c, s, m) && Fits(c, n) && t < |s.pcs|
    ensures n.pcs[t] != Idle ==>
            if Starts(s, m, t) then m.op == OpAt(n.pcs[t], n.on[t])
            else s.pcs[t] != Idle && n.on[t] == s.on[t] && InUp(n.pcs[t]) == InUp(s.pcs[t])
  {
    hide Unused;
    if m.Go? && m.thread < |s.pcs| && m.thread != t {
      hide Next;
      OtherPlace(c, s, m.thread, m.op, n, t);
    }
  }

  lemma {:induction false} DoingIs(c: Config, ms: seq<Move>, t: nat)
    requires Sane(c) && t < |c.proc|
    ensures var s := After(c, ms); s.pcs[t] != Idle ==> Doing(c, ms, t) == OpAt(s.pcs[t], s.on[t])
    decreases |ms|
  {
    if ms != [] {
      hide Step, OpAt, InUp;
      var n := |ms| - 1;
      DoingIs(c, ms[..n], t);
      StepOp(c, After(c, ms[..n]), ms[n], After(c, ms), t);
      OpSame(After(c, ms[..n]), After(c, ms), t);
    }
  }

  lemma OpSame(s: State, n: State, t: nat)
    requires t < |s.pcs| == |n.pcs| && |s.on| == |n.on| == |s.pcs|
    ensures n.on[t] == s.on[t] && InUp(n.pcs[t]) == InUp(s.pcs[t]) ==>
              OpAt(n.pcs[t], n.on[t]) == OpAt(s.pcs[t], s.on[t])
  {
  }

  // ---------- Downs never outrun ups ----------

  predicate TakingAt(s: State, t: nat, j: nat) { t < |s.pcs| && t < |s.on| && s.pcs[t].Got? && s.on[t] == j }

  predicate ReleasingAt(s: State, t: nat, j: nat) {
    t < |s.pcs| && t < |s.on| && (s.pcs[t].WantUp? || s.pcs[t].Clear?) && s.on[t] == j
  }

  /** Threads that have set the flag of channel `j` and not come back, and those yet to clear it. */
  function Taking(s: State, j: nat): set<nat> { set t: nat | t < |s.pcs| && TakingAt(s, t, j) }

  function Releasing(s: State, j: nat): set<nat> { set t: nat | t < |s.pcs| && ReleasingAt(s, t, j) }

  /** How many more downs may end without another up. */
  function Tokens(s: State, j: nat): nat
    requires j < |s.busy|
  {
    Bit(!s.busy[j]) + |Taking(s, j)| + |Releasing(s, j)|
  }

  lemma OneChanged(x: set<nat>, y: set<nat>, t: nat)
    requires forall u :: u != t ==> (u in x <==> u in y)
    ensures |y| == |x| - Bit(t in x) + Bit(t in y)
  {
    var rest := x - {t};
    assert y - {t} == rest;
    assert x == (if t in x then rest + {t} else rest) && y == (if t in y then rest + {t} else rest);
  }

  /** What a step does to its own thread and to the flag. */
  lemma OwnTokens(c: Config, s: State, t: nat, op: Op, n: State, j: nat)
    requires Fits(c, s) && t < |s.pcs| && n == Next(c, s, t, op) && Fits(c, n) && j < |c.mutex|
    ensures Bit(!n.busy[j]) + Bit(TakingAt(n, t, j)) + Bit(ReleasingAt(n, t, j))
            + Bit(s.pcs[t] != Idle && n.pcs[t] == Idle && OpAt(s.pcs[t], s.on[t]) == Down(j))
         <= Bit(!s.busy[j]) + Bit(TakingAt(s, t, j)) + Bit(ReleasingAt(s, t, j))
            + Bit(s.pcs[t] == Idle && op == Up(j) && n.pcs[t] != Idle) + Bit(Takes(c, s, Go(t, op), j))
  {
    hide Unused, Roused;
  }

  lemma OthersTokens(c: Config, s: State, t: nat, op: Op, n: State, j: nat)
    requires Fits(c, s) && t < |s.pcs| && n == Next(c, s, t, op) && Fits(c, n)
    ensures |Taking(n, j)| == |Taking(s, j)| - Bit(TakingAt(s, t, j)) + Bit(TakingAt(n, t, j))
    ensures |Releasing(n, j)| == |Releasing(s, j)| - Bit(ReleasingAt(s, t, j)) + Bit(ReleasingAt(n, t, j))
  {
    hide Next;
    forall u: nat | u != t ensures u in Taking(s, j) <==> u in Taking(n, j) {
      if u < |s.pcs| { OtherPlace(c, s, t, op, n, u); }
    }
    forall u: nat | u != t ensures u in Releasing(s, j) <==> u in Releasing(n, j) {
      if u < |s.pcs| { OtherPlace(c, s, t, op, n, u); }
    }
    OneChanged(Taking(s, j), Taking(n, j), t);
    OneChanged(Releasing(s, j), Releasing(n, j), t);
  }

  lemma RouseTokens(c: Config, s: State, m: Move, n: State, j: nat)
    requires Fits(c, s) && n == Step(c, s, m) && Fits(c, n) && !(m.Go? && m.thread < |s.pcs|) && j < |c.mutex|
    ensures Tokens(n, j) == Tokens(s, j) && !Ends(c, s, m)
  {
    assert Taking(n, j) == Taking(s, j) && Releasing(n, j) == Releasing(s, j);
  }

  lemma StepTokens(c: Config, s: State, m: Move, n: State, j: nat)
    requires Fits(c, s) && n == Step(c, s, m) && Fits(c, n) && j < |c.mutex|
    ensures Tokens(n, j) + Bit(Ends(c, s, m) && OpAt(s.pcs[m.thread], s.on[m.thread]) == Down(j))
         <= Tokens(s, j) + Bit(Begins(c, s, m, Up(j))) + Bit(Takes(c, s, m, j))
  {
    if m.Go? && m.thread < |s.pcs| {
      hide Next, Fits, Taking, Releasing, OpAt, Takes;
      OwnTokens(c, s, m.thread, m.op, n, j);
      OthersTokens(c, s, m.thread, m.op, n, j);
    } else {
      hide Step, Tokens;
      RouseTokens(c, s, m, n, j);
    }
  }

  /** On every run, the downs of a semaphore that have ended are no more than its allocations and the ups
      that have begun; those of a sleep lock, which starts free, no more than one and its releases. */
  lemma {:induction false} DownsBounded(c: Config, ms: seq<Move>, j: nat)
    requires Sane(c) && j < |c.mutex|
    ensures Ended(c, ms, Down(j)) + Tokens(After(c, ms), j)
            <= Bit(c.mutex[j]) + Begun(c, ms, Up(j)) + Allocated(c, ms, j)
    decreases |ms|
  {
    if ms == [] {
      assert Taking(Start(c), j) == {} && Releasing(Start(c), j) == {};
    } else {
      hide Step, Tokens, Ends, Begins, Takes, OpAt;
      var n := |ms| - 1;
      var s, m := After(c, ms[..n]), ms[n];
      DownsBounded(c, ms[..n], j);
      StepTokens(c, s, m, After(c, ms), j);
      if Ends(c, s, m) { EndsThread(c, s, m); DoingIs(c, ms[..n], m.thread); }
    }
  }

  lemma EndsThread(c: Config, s: State, m: Move)
    requires Fits(c, s) && Ends(c, s, m)
    ensures m.thread < |c.proc| && s.pcs[m.thread] != Idle
  {
  }

  // ---------- One down for one clearing of the flag ----------

  /** Nobody can get through before the flag is cleared. */
  ghost predicate Closed(s: State, j: nat) {
    j < |s.busy| && s.busy[j] && forall t: nat :: !TakingAt(s, t, j)
  }

  lemma ClosedOwn(c: Config, s: State, t: nat, op: Op, n: State, j: nat)
    requires Fits(c, s) && t < |s.pcs| && n == Next(c, s, t, op) && Fits(c, n) && j < |c.mutex|
    requires s.busy[j] && !TakingAt(s, t, j)
    ensures !TakingAt(n, t, j)
  {
    hide Unused, Roused;
  }

  lemma ClosedStays(c: Config, s: State, m: Move, n: State, j: nat)
    requires Fits(c, s) && n == Step(c, s, m) && Fits(c, n) && j < |c.mutex| && Closed(s, j) && n.busy[j]
    ensures Closed(n, j)
  {
    hide Next, Fits;
    Sizes(c, s, n);
    forall t: nat ensures !TakingAt(n, t, j) {
      assert !TakingAt(s, t, j);
      if m.Go? && m.thread < |s.pcs| && t == m.thread {
        ClosedOwn(c, s, t, m.op, n, j);
      } else if m.Go? && m.thread < |s.pcs| && t < |s.pcs| {
        OtherPlace(c, s, m.thread, m.op, n, t);
      }
    }
  }

  /** A down that ends leaves the flag set, with nobody else through. */
  lemma EndsClosed(c: Config, s: State, m: Move, n: State)
    requires Base(c, s) && Ends(c, s, m) && n == Step(c, s, m) && Fits(c, n)
    requires OpAt(s.pcs[m.thread], s.on[m.thread]).Down?
    ensures TakingAt(s, m.thread, s.on[m.thread]) && Closed(n, s.on[m.thread])
  {
    hide Unused, Roused;
    var t, j := m.thread, s.on[m.thread];
    assert LockedAt(c, s, t) && OwnAt(c, s, t);
    forall u: nat ensures !TakingAt(n, u, j) {
      if u < |s.pcs| && u != t {
        assert LockedAt(c, s, u);
        hide Next;
        OtherPlace(c, s, t, m.op, n, u);
      }
    }
  }

  lemma {:induction false} ClosedUntil(c: Config, ms: seq<Move>, a: nat, b: nat, j: nat)
    requires Sane(c) && a <= b <= |ms| && j < |c.mutex| && Closed(After(c, ms[..a]), j)
    requires forall k :: a <= k <= b ==> After(c, ms[..k]).busy[j]
    ensures Closed(After(c, ms[..b]), j)
    decreases b
  {
    if a < b {
      hide Run, Step, Closed;
      ClosedUntil(c, ms, a, b - 1, j);
      StartFits(c);
      OneMore(c, Start(c), ms, b - 1);
      ClosedStays(c, After(c, ms[..b - 1]), ms[b - 1], After(c, ms[..b]), j);
    }
  }

  /** Move `k` of the run ends a down of channel `j`. */
  ghost predicate Passes(c: Config, ms: seq<Move>, k: nat, j: nat)
    requires Sane(c) && k < |ms|
  {
    Ends(c, After(c, ms[..k]), ms[k]) && Doing(c, ms[..k], ms[k].thread) == Down(j)
  }

  lemma PassesFrom(c: Config, ms: seq<Move>, k: nat, j: nat)
    requires Sane(c) && k < |ms| && Passes(c, ms, k, j)
    ensures Fits(c, After(c, ms[..k + 1])) && Closed(After(c, ms[..k + 1]), j)
    ensures TakingAt(After(c, ms[..k]), ms[k].thread, j) && j < |c.mutex|
  {
    hide Run, Step, Closed, Base;
    var s, m := After(c, ms[..k]), ms[k];
    StartFits(c);
    OneMore(c, Start(c), ms, k);
    RunBase(c, ms[..k]);
    EndsThread(c, s, m);
    DoingIs(c, ms[..k], m.thread);
    EndsClosed(c, s, m, After(c, ms[..k + 1]));
  }

  /** Between any two downs that end on a channel, its flag is cleared. */
  lemma ClearedBetween(c: Config, ms: seq<Move>, a: nat, b: nat, j: nat)
    requires Sane(c) && a < b < |ms| && Passes(c, ms, a, j) && Passes(c, ms, b, j)
    ensures j < |c.mutex| && exists k :: a < k <= b && !After(c, ms[..k]).busy[j]
  {
    hide Run, Passes;
    PassesFrom(c, ms, a, j);
    PassesFrom(c, ms, b, j);
    if forall k :: a < k <= b ==> After(c, ms[..k]).busy[j] {
      ClosedUntil(c, ms, a + 1, b, j);
    }
  }

  // ---------- An up counts ----------

  /** Since thread `t` began, the flag of channel `j` was clear at some moment. */
  ghost predicate WasClear(c: Config, ms: seq<Move>, t: nat, j: nat)
    requires Sane(c)
  {
    j < |c.mutex| && exists k :: Since(c, ms, t) < k <= |ms| && !After(c, ms[..k]).busy[j]
  }

  /** Waking others comes after clearing the flag. */
  lemma ScanFrom(c: Config, s: State, m: Move, n: State, t: nat)
    requires Fits(c, s) && n == Step(c, s, m) && Fits(c, n) && t < |s.pcs| && n.pcs[t].Scan?
    ensures s.pcs[t] != Idle && n.on[t] == s.on[t] && (s.pcs[t].Scan? || !n.busy[n.on[t]])
  {
    hide Unused;
    if m.Go? && m.thread < |s.pcs| && m.thread != t {
      hide Next;
      OtherPlace(c, s, m.thread, m.op, n, t);
    }
  }

  lemma WasClearMore(c: Config, ms: seq<Move>, t: nat, j: nat)
    requires Sane(c) && ms != [] && !Starts(After(c, ms[..|ms| - 1]), ms[|ms| - 1], t)
    ensures WasClear(c, ms[..|ms| - 1], t, j) ==> WasClear(c, ms, t, j)
    ensures j < |c.mutex| && !After(c, ms).busy[j] ==> WasClear(c, ms, t, j)
  {
    hide Run;
    var before := ms[..|ms| - 1];
    assert ms[..|ms|] == ms && forall k :: 0 <= k <= |before| ==> before[..k] == ms[..k];
  }

  lemma {:induction false} Waking(c: Config, ms: seq<Move>, t: nat)
    requires Sane(c) && t < |c.proc| && After(c, ms).pcs[t].Scan?
    ensures WasClear(c, ms, t, After(c, ms).on[t])
    decreases |ms|
  {
    StartFits(c);
    if ms != [] {
      hide Step, WasClear;
      var s, m, n := After(c, ms[..|ms| - 1]), ms[|ms| - 1], After(c, ms);
      ScanFrom(c, s, m, n, t);
      WasClearMore(c, ms, t, n.on[t]);
      if s.pcs[t].Scan? { Waking(c, ms[..|ms| - 1], t); }
    }
  }

  /** An up that ends has had the flag clear at some moment since it began. */
  lemma UpClears(c: Config, ms: seq<Move>, m: Move, j: nat)
    requires Sane(c) && Ends(c, After(c, ms), m) && Doing(c, ms, m.thread) == Up(j)
    ensures WasClear(c, ms, m.thread, j)
  {
    hide Run, WasClear;
    EndsThread(c, After(c, ms), m);
    DoingIs(c, ms, m.thread);
    Waking(c, ms, m.thread);
  }

  // ---------- Nothing is stuck but sleepers ----------

  /** Whoever a spin lock names does hold it. */
  ghost predicate Real(c: Config, s: State) {
    && Fits(c, s)
    && (forall l :: 0 <= l < |s.lks| && s.lks[l] >= 0 ==> Holder(c, s, s.lks[l], l))
    && (forall p :: 0 <= p < |s.plock| && s.plock[p] >= 0 ==> PHolder(c, s, s.plock[p], p))
  }

  ghost predicate Holder(c: Config, s: State, t: int, l: nat)
    requires Fits(c, s)
  {
    0 <= t < |s.pcs| && HoldsLk(s.pcs[t]) && c.lockOf[s.on[t]] == l
  }

  ghost predicate PHolder(c: Config, s: State, t: int, p: nat)
    requires Fits(c, s)
  {
    0 <= t < |s.pcs| && HoldsP(s.pcs[t]) && c.proc[t] == p
  }

  lemma HolderStays(c: Config, s: State, t: nat, op: Op, n: State, u: int, l: nat)
    requires Fits(c, s) && t < |s.pcs| && n == Next(c, s, t, op) && Fits(c, n) && u != t
    ensures Holder(c, s, u, l) ==> Holder(c, n, u, l)
    ensures PHolder(c, s, u, l) ==> PHolder(c, n, u, l)
  {
    hide Next;
    if 0 <= u < |s.pcs| { OtherPlace(c, s, t, op, n, u); }
  }

  lemma RealStep(c: Config, s: State, t: nat, op: Op, n: State)
    requires Real(c, s) && Locked(c, s) && PLocked(c, s) && t < |s.pcs| && n == Next(c, s, t, op) && Fits(c, n)
    ensures Real(c, n)
  {
    hide Next;
    assert LockedAt(c, s, t) && PLockedAt(c, s, t);
    LksMove(c, s, t, op, n);
    PlockMove(c, s, t, op, n);
    forall l | 0 <= l < |n.lks| && n.lks[l] >= 0 ensures Holder(c, n, n.lks[l], l) {
      if n.lks[l] != t { HolderStays(c, s, t, op, n, n.lks[l], l); }
    }
    forall p | 0 <= p < |n.plock| && n.plock[p] >= 0 ensures PHolder(c, n, n.plock[p], p) {
      if n.plock[p] != t { HolderStays(c, s, t, op, n, n.plock[p], p); }
    }
  }

  lemma RealRouse(c: Config, s: State, m: Move, n: State)
    requires Real(c, s) && n == Step(c, s, m) && Fits(c, n) && !(m.Go? && m.thread < |s.pcs|)
    ensures Real(c, n)
  {
    assert forall u, l :: Holder(c, s, u, l) ==> Holder(c, n, u, l);
    assert forall u, p :: PHolder(c, s, u, p) ==> PHolder(c, n, u, p);
  }

  lemma {:induction false} AlwaysReal(c: Config, ms: seq<Move>)
    requires Sane(c)
    ensures Real(c, After(c, ms)) && Base(c, After(c, ms))
    decreases |ms|
  {
    StartFits(c);
    RunBase(c, ms);
    if ms != [] {
      hide Next, Real, Locked, PLocked;
      var s, m := After(c, ms[..|ms| - 1]), ms[|ms| - 1];
      AlwaysReal(c, ms[..|ms| - 1]);
      if m.Go? && m.thread < |s.pcs| {
        RealStep(c, s, m.thread, m.op, After(c, ms));
      } else {
        RealRouse(c, s, m, After(c, ms));
      }
    }
  }

  /** No thread can do anything, whatever it would. */
  ghost predicate Stuck(c: Config, s: State)
    requires Fits(c, s)
  {
    forall t: nat, op: Op :: t < |s.pcs| ==> Step(c, s, Go(t, op)) == s
  }

  /** A thread that cannot go on sleeps, or waits for a spin lock that is held. */
  lemma WaitsFor(c: Config, s: State, t: nat)
    requires Fits(c, s) && |c.mutex| > 0 && t < |s.pcs| && Step(c, s, Go(t, Down(0))) == s
    ensures var pc := s.pcs[t];
            || pc.Asleep?
            || ((pc.WantDown? || pc.Retake? || pc.WantUp?) && s.lks[c.lockOf[s.on[t]]] >= 0)
            || ((pc.TakeP? || pc.Woken?) && s.plock[c.proc[t]] >= 0)
            || (pc.Scan? && pc.k < c.nproc && s.plock[pc.k] >= 0)
  {
    hide Roused;
    assert Step(c, s, Go(t, Down(0))).pcs[t] == s.pcs[t];
  }

  /** So a process lock that is held can be let go of, and so can a spin lock. */
  lemma NoneHeld(c: Config, s: State)
    requires Real(c, s) && |c.mutex| > 0 && Stuck(c, s)
    ensures (forall p :: 0 <= p < |s.plock| ==> s.plock[p] < 0) && (forall l :: 0 <= l < |s.lks| ==> s.lks[l] < 0)
  {
    hide Step, Fits;
    forall p | 0 <= p < |s.plock| ensures s.plock[p] < 0 {
      if s.plock[p] >= 0 { WaitsFor(c, s, s.plock[p]); }
    }
    forall l | 0 <= l < |s.lks| ensures s.lks[l] < 0 {
      if s.lks[l] >= 0 {
        Sizes(c, s, s);
        WaitsFor(c, s, s.lks[l]);
      }
    }
  }

  /** On every run, nothing can happen if and only if all threads sleep; unless bsem_alloc took a slot that
      a thread slept on, each of them then sleeps on a flag that is set. */
  lemma StuckIff(c: Config, ms: seq<Move>)
    requires Sane(c) && |c.mutex| > 0
    ensures var s := After(c, ms);
            && (Stuck(c, s) <==> forall t: nat :: t < |s.pcs| ==> s.pcs[t].Asleep?)
            && (Stuck(c, s) && AllCareful(c, ms) ==> forall t: nat :: t < |s.pcs| ==> s.busy[s.on[t]])
  {
    var s := After(c, ms);
    AlwaysReal(c, ms);
    hide Run;
    if Stuck(c, s) {
      NoneHeld(c, s);
      forall t: nat | t < |s.pcs| ensures s.pcs[t].Asleep? {
        hide Step;
        Sizes(c, s, s);
        WaitsFor(c, s, t);
      }
      if AllCareful(c, ms) {
        RunInv(c, ms, |ms|);
        assert ms[..|ms|] == ms;
        InvQuiet(c, s);
      }
    }
  }
}
