/** sleep and wakeup under binary semaphores and sleep locks, over every interleaving.  Both have the
    same code: take a spin lock, sleep while the flag is set, set it, and let go; or take the spin lock,
    clear the flag, wake those who sleep on it, and let go.  All semaphores share one spin lock; every
    sleep lock has its own. */
module Sleep {

  /** Where a thread is: at what it does next. */
  datatype Pc =
    | Idle
    | WantDown                  // acquire(lk)
    | Check                     // test the flag
    | TakeP                     // sleep: acquire(&p->lock)
    | DropLk                    // release(lk)
    | SetSleep                  // t->chan = chan, t->state = SLEEPING
    | Switch                    // sched, which lets go of p->lock
    | Asleep
    | Woken                     // runnable again, release(&p->lock) at the end of sleep
    | Retake                    // acquire(lk)
    | Got                       // the flag is set, release(lk)
    | WantUp                    // acquire(lk)
    | Clear                     // clear the flag
    | Scan(k: nat)              // wakeup has processes from k on to look at

  /** What an idle thread does next: use channel `j`, or allocate or free a semaphore. */
  datatype Op = Down(j: nat) | Up(j: nat) | Alloc | Free(j: nat)

  /** `proc` gives the process of each thread, `lockOf` the spin lock of each channel.  A channel is a
      sleep lock where `mutex` says so, else a semaphore under spin lock 0. */
  datatype Config = Config(mutex: seq<bool>, lockOf: seq<nat>, nlock: nat, proc: seq<nat>, nproc: nat)

  /** `busy` is a channel's flag and `live` whether a semaphore is allocated; `lks` and `plock` give the
      thread that holds a spin lock, -1 for none; `on` the channel a thread uses; `held` who has which
      sleep lock. */
  datatype State = State(
    busy: seq<bool>, live: seq<bool>, lks: seq<int>, plock: seq<int>, pcs: seq<Pc>, on: seq<nat>, held: set<(nat, nat)>)

  datatype Move = Go(thread: nat, op: Op) | Rouse(thread: nat)

  ghost predicate Sane(c: Config) {
    && |c.mutex| == |c.lockOf| && c.nlock > 0
    && (forall t :: 0 <= t < |c.proc| ==> c.proc[t] < c.nproc)
    && (forall j :: 0 <= j < |c.lockOf| ==> c.lockOf[j] < c.nlock && (!c.mutex[j] ==> c.lockOf[j] == 0))
  }

  ghost predicate Fits(c: Config, s: State) {
    && Sane(c) && |s.busy| == |s.live| == |c.mutex| && |s.lks| == c.nlock && |s.plock| == c.nproc
    && |s.pcs| == |s.on| == |c.proc|
    && (forall t :: 0 <= t < |s.pcs| && s.pcs[t] != Idle ==> s.on[t] < |c.mutex|)
  }

  function To(s: State, t: nat, pc: Pc): State
    requires t < |s.pcs|
  {
    s.(pcs := s.pcs[t := pc])
  }

  /** wakeup's look at process `k`: every thread of it that sleeps on channel `j` becomes runnable. */
  function Roused(c: Config, s: State, k: nat, j: nat): (r: seq<Pc>)
    requires |c.proc| == |s.pcs| == |s.on|
    ensures |r| == |s.pcs|
  {
    seq(|s.pcs|, t requires 0 <= t < |s.pcs| =>
      if s.pcs[t] == Asleep && s.on[t] == j && c.proc[t] == k then Woken else s.pcs[t])
  }

  /** The first semaphore from `j` on that is not allocated, or the number of channels. */
  function Unused(c: Config, live: seq<bool>, j: nat): (r: nat)
    requires |live| == |c.mutex| && j <= |live|
    ensures j <= r <= |live| && (r < |live| ==> !live[r] && !c.mutex[r])
    decreases |live| - j
  {
    if j == |live| || (!live[j] && !c.mutex[j]) then j else Unused(c, live, j + 1)
  }

  /** An idle thread starts an operation.  Only the owner of a sleep lock releases it; bsem_alloc and
      bsem_free are over in one step under the semaphores' lock. */
  function Begin(c: Config, s: State, t: nat, op: Op): State
    requires Fits(c, s) && t < |s.pcs|
  {
    match op
    case Down(j) => if j < |c.mutex| then To(s, t, WantDown).(on := s.on[t := j]) else s
    case Up(j) =>
      if j < |c.mutex| && (c.mutex[j] ==> (t, j) in s.held) then To(s, t, WantUp).(on := s.on[t := j]) else s
    case Alloc =>
      var j := Unused(c, s.live, 0);
      if s.lks[0] < 0 && j < |s.live| then s.(live := s.live[j := true], busy := s.busy[j := false]) else s
    case Free(j) =>
      if s.lks[0] < 0 && j < |s.live| && !c.mutex[j] then s.(live := s.live[j := false]) else s
  }

  /** Thread `t` does its next step; one that has to wait does nothing. */
  function Next(c: Config, s: State, t: nat, op: Op): State
    requires Fits(c, s) && t < |s.pcs|
  {
    if s.pcs[t] == Idle then Begin(c, s, t, op)
    else
      var p, j := c.proc[t], s.on[t];
      var l := c.lockOf[j];
      match s.pcs[t]
      case Idle => s
      case WantDown => if s.lks[l] < 0 then To(s, t, Check).(lks := s.lks[l := t]) else s
      case Check => if s.busy[j] then To(s, t, TakeP) else To(s, t, Got).(busy := s.busy[j := true])
      case TakeP => if s.plock[p] < 0 then To(s, t, DropLk).(plock := s.plock[p := t]) else s
      case DropLk => To(s, t, SetSleep).(lks := s.lks[l := -1])
      case SetSleep => To(s, t, Switch)
      case Switch => To(s, t, Asleep).(plock := s.plock[p := -1])
      case Asleep => s
      case Woken => if s.plock[p] < 0 then To(s, t, Retake) else s
      case Retake => if s.lks[l] < 0 then To(s, t, Check).(lks := s.lks[l := t]) else s
      case Got =>
        To(s, t, Idle).(lks := s.lks[l := -1], held := s.held + if c.mutex[j] then {(t, j)} else {})
      case WantUp => if s.lks[l] < 0 then To(s, t, Clear).(lks := s.lks[l := t]) else s
      case Clear => To(s, t, Scan(0)).(busy := s.busy[j := false], held := s.held - {(t, j)})
      case Scan(k) =>
        if k >= c.nproc then To(s, t, Idle).(lks := s.lks[l := -1])
        else if s.plock[k] < 0 then s.(pcs := Roused(c, s, k, j)[t := Scan(k + 1)])
        else s
  }

  /** A step of a thread, or of sigKillHandler, which makes a sleeper runnable whatever it waits for. */
  function Step(c: Config, s: State, m: Move): State
    requires Fits(c, s)
  {
    if m.thread >= |s.pcs| then s
    else if m.Go? then Next(c, s, m.thread, m.op)
    else if s.pcs[m.thread] == Asleep && s.plock[c.proc[m.thread]] < 0 then To(s, m.thread, Woken)
    else s
  }

  lemma BeginFits(c: Config, s: State, t: nat, op: Op)
    requires Fits(c, s) && t < |s.pcs|
    ensures Fits(c, Begin(c, s, t, op))
  {
    hide Unused;
  }

  lemma StepFits(c: Config, s: State, m: Move)
    requires Fits(c, s)
    ensures Fits(c, Step(c, s, m))
  {
    hide Begin;
    if m.Go? && m.thread < |s.pcs| { BeginFits(c, s, m.thread, m.op); }
    if !(m.Go? && m.thread < |s.pcs| && s.pcs[m.thread].Scan?) { hide Roused; }
  }

  ghost function Run(c: Config, s: State, ms: seq<Move>): (r: State)
    requires Fits(c, s)
    ensures Fits(c, r)
    decreases |ms|
  {
    if ms == [] then s
    else
      var t := Run(c, s, ms[..|ms| - 1]);
      StepFits(c, t, ms[|ms| - 1]);
      Step(c, t, ms[|ms| - 1])
  }

  /** At boot no semaphore is allocated or unlocked, and every sleep lock is free. */
  function Start(c: Config): State
    requires |c.mutex| == |c.lockOf|
  {
    var n := |c.mutex|;
    State(seq(n, j requires 0 <= j < n => !c.mutex[j]), seq(n, _ => false), seq(c.nlock, _ => -1),
        seq(c.nproc, _ => -1),
          seq(|c.proc|, _ => Idle), seq(|c.proc|, _ => 0), {})
  }

  // ---------- The invariant ----------

  predicate HoldsLk(pc: Pc) { pc.Check? || pc.TakeP? || pc.DropLk? || pc.Got? || pc.Clear? || pc.Scan? }
  predicate HoldsP(pc: Pc) { pc.DropLk? || pc.SetSleep? || pc.Switch? }

  /** Asleep, or past the point of no return on the way there. */
  predicate Sleepy(pc: Pc) { pc.SetSleep? || pc.Switch? || pc.Asleep? }

  /** Thread `t` holds the spin lock of its channel when its place says so. */
  ghost predicate LockedAt(c: Config, s: State, t: nat)
    requires Fits(c, s) && t < |s.pcs|
  {
    HoldsLk(s.pcs[t]) ==> s.lks[c.lockOf[s.on[t]]] == t
  }

  ghost predicate Locked(c: Config, s: State)
    requires Fits(c, s)
  {
    forall t: nat :: t < |s.pcs| ==> LockedAt(c, s, t)
  }

  ghost predicate PLockedAt(c: Config, s: State, t: nat)
    requires Fits(c, s) && t < |s.pcs|
  {
    HoldsP(s.pcs[t]) ==> s.plock[c.proc[t]] == t
  }

  ghost predicate PLocked(c: Config, s: State)
    requires Fits(c, s)
  {
    forall t: nat :: t < |s.pcs| ==> PLockedAt(c, s, t)
  }

  /** Whoever holds the spin lock of channel `j` is waking its sleepers and has yet to look at `p`. */
  ghost predicate Coming(c: Config, s: State, j: nat, p: nat)
    requires Fits(c, s) && j < |c.mutex|
  {
    var u := s.lks[c.lockOf[j]];
    0 <= u < |s.pcs| && s.pcs[u].Scan? && s.on[u] == j && s.pcs[u].k <= p
  }

  /** Someone will wake thread `t`: the flag of its channel is set, so a release is to come, or one of
      that channel is under way that has yet to look at its process. */
  ghost predicate HeardAt(c: Config, s: State, t: nat)
    requires Fits(c, s) && t < |s.pcs|
  {
    && (s.pcs[t].TakeP? || s.pcs[t].DropLk? ==> s.busy[s.on[t]])
    && (Sleepy(s.pcs[t]) ==> s.busy[s.on[t]] || Coming(c, s, s.on[t], c.proc[t]))
  }

  ghost predicate Heard(c: Config, s: State)
    requires Fits(c, s)
  {
    forall t: nat :: t < |s.pcs| ==> HeardAt(c, s, t)
  }

  /** A sleep lock that someone has is marked busy. */
  ghost predicate Marked(c: Config, s: State)
    requires Fits(c, s)
  {
    forall h :: h in s.held ==> h.0 < |s.pcs| && h.1 < |c.mutex| && c.mutex[h.1] && s.busy[h.1]
  }

  ghost predicate OneOwner(s: State) {
    forall g, h :: g in s.held && h in s.held && g.1 == h.1 ==> g.0 == h.0
  }

  /** Thread `t` is taking a free sleep lock, or letting go of one it has. */
  ghost predicate OwnAt(c: Config, s: State, t: nat)
    requires Fits(c, s) && t < |s.pcs|
  {
    && (s.pcs[t].Got? ==> s.busy[s.on[t]] && forall h :: h in s.held ==> h.1 != s.on[t] || !c.mutex[s.on[t]])
    && (s.pcs[t].WantUp? || s.pcs[t].Clear? ==> c.mutex[s.on[t]] ==> (t, s.on[t]) in s.held)
  }

  ghost predicate Owned(c: Config, s: State)
    requires Fits(c, s)
  {
    Marked(c, s) && OneOwner(s) && forall t: nat :: t < |s.pcs| ==> OwnAt(c, s, t)
  }

  /** What every step keeps. */
  ghost predicate Base(c: Config, s: State) {
    Fits(c, s) && Locked(c, s) && PLocked(c, s) && Owned(c, s)
  }

  ghost predicate Inv(c: Config, s: State) {
    Base(c, s) && Heard(c, s)
  }

  lemma StartInv(c: Config)
    requires Sane(c)
    ensures Inv(c, Start(c))
  {
  }

  // ---------- What one step does ----------

  /** A step leaves other threads on their channels and moves them only by waking them. */
  lemma OtherPlace(c: Config, s: State, t: nat, op: Op, n: State, u: nat)
    requires Fits(c, s) && t < |s.pcs| && u < |s.pcs| && n == Next(c, s, t, op) && Fits(c, n) && u != t
    ensures n.on[u] == s.on[u] && (n.pcs[u] == s.pcs[u] || (s.pcs[u] == Asleep && n.pcs[u] == Woken))
  {
    hide Unused;
  }

  /** A step takes a free spin lock for its channel, lets go of it, or leaves the spin locks. */
  lemma LksMove(c: Config, s: State, t: nat, op: Op, n: State)
    requires Fits(c, s) && t < |s.pcs| && n == Next(c, s, t, op) && Fits(c, n)
    ensures s.pcs[t] != Idle ==> n.on == s.on
    ensures s.pcs[t] == Idle ==> n.lks == s.lks && !HoldsLk(n.pcs[t])
    ensures s.pcs[t] != Idle ==>
              var l := c.lockOf[s.on[t]];
              || (n.lks == s.lks && HoldsLk(n.pcs[t]) == HoldsLk(s.pcs[t]))
              || (s.lks[l] < 0 && n.lks == s.lks[l := t] && HoldsLk(n.pcs[t]))
              || (HoldsLk(s.pcs[t]) && n.lks == s.lks[l := -1] && !HoldsLk(n.pcs[t]))
  {
    hide Unused, Roused;
  }

  lemma LockedOther(c: Config, s: State, t: nat, op: Op, n: State, u: nat)
    requires Fits(c, s) && t < |s.pcs| && u < |s.pcs| && n == Next(c, s, t, op) && Fits(c, n)
    requires LockedAt(c, s, t) && LockedAt(c, s, u)
    ensures LockedAt(c, n, u)
  {
    hide Next, Fits;
    Sizes(c, s, n);
    LksMove(c, s, t, op, n);
    if u != t { OtherPlace(c, s, t, op, n, u); }
  }

  lemma Sizes(c: Config, s: State, n: State)
    requires Fits(c, s) && Fits(c, n)
    ensures |s.pcs| == |n.pcs| == |s.on| == |n.on| == |c.proc| && |s.plock| == |n.plock| == c.nproc
    ensures |s.lks| == |n.lks| == c.nlock && |c.lockOf| == |c.mutex| == |s.busy| == |n.busy|
    ensures forall u :: 0 <= u < |c.proc| ==> c.proc[u] < c.nproc
    ensures forall j :: 0 <= j < |c.lockOf| ==> c.lockOf[j] < c.nlock && (!c.mutex[j] ==> c.lockOf[j] == 0)
    ensures forall u :: 0 <= u < |s.pcs| && s.pcs[u] != Idle ==> s.on[u] < |c.mutex|
    ensures forall u :: 0 <= u < |n.pcs| && n.pcs[u] != Idle ==> n.on[u] < |c.mutex|
  {
  }

  lemma LockedStep(c: Config, s: State, t: nat, op: Op, n: State)
    requires Fits(c, s) && t < |s.pcs| && n == Next(c, s, t, op) && Fits(c, n) && Locked(c, s)
    ensures Locked(c, n)
  {
    hide Next, Fits, LockedAt;
    Sizes(c, s, n);
    forall u: nat | u < |n.pcs| ensures LockedAt(c, n, u) {
      LockedOther(c, s, t, op, n, u);
    }
  }

  /** The same for process locks. */
  lemma PlockMove(c: Config, s: State, t: nat, op: Op, n: State)
    requires Fits(c, s) && t < |s.pcs| && n == Next(c, s, t, op) && Fits(c, n)
    ensures var p := c.proc[t];
            || (n.plock == s.plock && HoldsP(n.pcs[t]) == HoldsP(s.pcs[t]))
            || (s.plock[p] < 0 && n.plock == s.plock[p := t] && HoldsP(n.pcs[t]))
            || (HoldsP(s.pcs[t]) && n.plock == s.plock[p := -1] && !HoldsP(n.pcs[t]))
  {
    hide Unused, Roused;
  }

  lemma PLockedOther(c: Config, s: State, t: nat, op: Op, n: State, u: nat)
    requires Fits(c, s) && t < |s.pcs| && u < |s.pcs| && n == Next(c, s, t, op) && Fits(c, n)
    requires PLockedAt(c, s, t) && PLockedAt(c, s, u)
    ensures PLockedAt(c, n, u)
  {
    hide Next, Fits;
    Sizes(c, s, n);
    PlockMove(c, s, t, op, n);
    if u != t { OtherPlace(c, s, t, op, n, u); }
  }

  lemma PLockedStep(c: Config, s: State, t: nat, op: Op, n: State)
    requires Fits(c, s) && t < |s.pcs| && n == Next(c, s, t, op) && Fits(c, n) && PLocked(c, s)
    ensures PLocked(c, n)
  {
    hide Next, Fits, PLockedAt;
    Sizes(c, s, n);
    forall u: nat | u < |n.pcs| ensures PLockedAt(c, n, u) {
      PLockedOther(c, s, t, op, n, u);
    }
  }

  // ---------- No wakeup is lost ----------

  /** bsem_alloc takes slot `j` in this step. */
  ghost predicate Takes(c: Config, s: State, m: Move, j: nat)
    requires Fits(c, s)
  {
    && m.Go? && m.op == Alloc && m.thread < |s.pcs| && s.pcs[m.thread] == Idle && s.lks[0] < 0
    && j < |s.live| && j == Unused(c, s.live, 0)
  }

  /** A step clears the flag of the channel it releases or allocates, and sets only a clear one. */
  lemma BusyMove(c: Config, s: State, t: nat, op: Op, n: State)
    requires Fits(c, s) && t < |s.pcs| && n == Next(c, s, t, op) && Fits(c, n)
    ensures || n.busy == s.busy
            || (s.pcs[t].Clear? && n.busy == s.busy[s.on[t] := false] && n.pcs[t] == Scan(0))
            || (s.pcs[t].Check? && !s.busy[s.on[t]] && n.busy == s.busy[s.on[t] := true] && n.pcs[t].Got?)
            || exists j: nat :: Takes(c, s, Go(t, op), j) && n.busy == s.busy[j := false]
  {
    hide Roused, Unused;
    if s.pcs[t].Idle? && op == Alloc {
      assert Unused(c, s.live, 0) < |s.live| && s.lks[0] < 0 ==> Takes(c, s, Go(t, op), Unused(c, s.live, 0));
    }
  }

  /** wakeup's step: it waits for a process that is locked, and wakes the sleepers of its channel. */
  lemma ScanMove(c: Config, s: State, t: nat, op: Op, n: State, u: nat)
    requires Fits(c, s) && t < |s.pcs| && u < |s.pcs| && n == Next(c, s, t, op) && Fits(c, n) && s.pcs[t].Scan?
             && u != t
    ensures || (n.pcs == s.pcs && n.lks == s.lks)
            || (s.pcs[t].k >= c.nproc && n.pcs[t] == Idle)
            || (&& s.pcs[t].k < c.nproc && s.plock[s.pcs[t].k] < 0 && n.pcs[t] == Scan(s.pcs[t].k + 1) && n.lks == s.lks
                && (s.pcs[u] == Asleep && s.on[u] == s.on[t] && c.proc[u] == s.pcs[t].k ==> n.pcs[u] == Woken))
  {
    hide Unused;
  }

  /** No thread sleeps on the slot that this step allocates. */
  ghost predicate Spares(c: Config, s: State, m: Move, u: nat)
    requires Fits(c, s) && u < |s.pcs|
  {
    forall j: nat :: Takes(c, s, m, j) ==> !(Sleepy(s.pcs[u]) && s.on[u] == j)
  }

  /** The thread that is about to sleep keeps its promise of a wakeup. */
  lemma HeardOwn(c: Config, s: State, t: nat, op: Op, n: State)
    requires Fits(c, s) && t < |s.pcs| && n == Next(c, s, t, op) && Fits(c, n)
    requires LockedAt(c, s, t) && HeardAt(c, s, t)
    ensures HeardAt(c, n, t)
  {
    hide Unused, Roused;
  }

  lemma HeardBusy(c: Config, s: State, t: nat, op: Op, n: State, u: nat)
    requires Fits(c, s) && t < |s.pcs| && u < |s.pcs| && n == Next(c, s, t, op) && Fits(c, n) && u != t
    requires LockedAt(c, s, t) && LockedAt(c, s, u) && LockedAt(c, n, t) && s.pcs[u] != Idle && s.busy[s.on[u]]
    requires Spares(c, s, Go(t, op), u)
    ensures n.on[u] == s.on[u]
            && (n.busy[s.on[u]] || !(Sleepy(s.pcs[u]) || HoldsLk(s.pcs[u]))
            || (Sleepy(s.pcs[u]) && Coming(c, n, s.on[u], 0)))
  {
    hide Next, Fits, Unused;
    Sizes(c, s, n);
    OtherPlace(c, s, t, op, n, u);
    BusyMove(c, s, t, op, n);
    LksMove(c, s, t, op, n);
  }

  /** A wakeup under way still reaches the thread, unless it just has. */
  lemma HeardComing(c: Config, s: State, t: nat, op: Op, n: State, u: nat)
    requires Fits(c, s) && t < |s.pcs| && u < |s.pcs| && n == Next(c, s, t, op) && Fits(c, n) && u != t
    requires LockedAt(c, s, t) && PLockedAt(c, s, u) && Sleepy(s.pcs[u]) && Coming(c, s, s.on[u], c.proc[u])
    ensures Sleepy(n.pcs[u]) ==> Coming(c, n, s.on[u], c.proc[u])
  {
    hide Next, Fits, Unused;
    Sizes(c, s, n);
    var w := s.lks[c.lockOf[s.on[u]]];
    LksMove(c, s, t, op, n);
    if w == t {
      ScanMove(c, s, t, op, n, u);
    } else {
      OtherPlace(c, s, t, op, n, w);
    }
  }

  lemma HeardOther(c: Config, s: State, t: nat, op: Op, n: State, u: nat)
    requires Fits(c, s) && t < |s.pcs| && u < |s.pcs| && n == Next(c, s, t, op) && Fits(c, n) && u != t
    requires LockedAt(c, s, t) && LockedAt(c, s, u) && LockedAt(c, n, t) && PLockedAt(c, s, u)
    requires HeardAt(c, s, u) && Spares(c, s, Go(t, op), u)
    ensures HeardAt(c, n, u)
  {
    hide Next, Fits, Unused, Spares;
    Sizes(c, s, n);
    OtherPlace(c, s, t, op, n, u);
    if s.pcs[u] != Idle && s.busy[s.on[u]] {
      HeardBusy(c, s, t, op, n, u);
    } else if Sleepy(s.pcs[u]) {
      HeardComing(c, s, t, op, n, u);
    }
  }

  ghost predicate Careful(c: Config, s: State, m: Move)
    requires Fits(c, s)
  {
    forall u: nat :: u < |s.pcs| ==> Spares(c, s, m, u)
  }

  lemma HeardStep(c: Config, s: State, t: nat, op: Op, n: State)
    requires Fits(c, s) && t < |s.pcs| && n == Next(c, s, t, op) && Fits(c, n)
    requires Locked(c, s) && Locked(c, n) && PLocked(c, s) && Heard(c, s) && Careful(c, s, Go(t, op))
    ensures Heard(c, n)
  {
    hide Next, Fits, LockedAt, PLockedAt, HeardAt, Spares;
    Sizes(c, s, n);
    forall u: nat | u < |n.pcs| ensures HeardAt(c, n, u) {
      if u == t { HeardOwn(c, s, t, op, n); } else { HeardOther(c, s, t, op, n, u); }
    }
  }

  // ---------- Sleep locks ----------

  lemma HeldMove(c: Config, s: State, t: nat, op: Op, n: State)
    requires Fits(c, s) && t < |s.pcs| && n == Next(c, s, t, op) && Fits(c, n)
    ensures || (n.held == s.held && !s.pcs[t].Clear? && (s.pcs[t].Got? ==> !c.mutex[s.on[t]]))
            || (s.pcs[t].Got? && c.mutex[s.on[t]] && n.held == s.held + {(t, s.on[t])} && n.busy == s.busy)
            || (s.pcs[t].Clear? && n.held == s.held - {(t, s.on[t])} && n.busy == s.busy[s.on[t] := false])
  {
    hide Unused, Roused;
  }

  lemma MarkedStep(c: Config, s: State, t: nat, op: Op, n: State)
    requires Fits(c, s) && t < |s.pcs| && n == Next(c, s, t, op) && Fits(c, n)
    requires Marked(c, s) && OneOwner(s) && OwnAt(c, s, t)
    ensures Marked(c, n) && OneOwner(n)
  {
    hide Next, Fits, Unused;
    Sizes(c, s, n);
    HeldMove(c, s, t, op, n);
    BusyMove(c, s, t, op, n);
    TakenSemaphore(c, s, t, op);
  }

  lemma TakenSemaphore(c: Config, s: State, t: nat, op: Op)
    requires Fits(c, s) && t < |s.pcs|
    ensures forall j: nat :: Takes(c, s, Go(t, op), j) ==> j < |c.mutex| && !c.mutex[j] && s.lks[0] < 0
  {
  }

  /** The thread itself: it takes only a free lock and releases only its own. */
  lemma OwnSelf(c: Config, s: State, t: nat, op: Op, n: State)
    requires Fits(c, s) && t < |s.pcs| && n == Next(c, s, t, op) && Fits(c, n) && Marked(c, s) && OwnAt(c, s, t)
    ensures OwnAt(c, n, t)
  {
    hide Unused, Roused;
  }

  lemma OwnOther(c: Config, s: State, t: nat, op: Op, n: State, u: nat)
    requires Fits(c, s) && t < |s.pcs| && u < |s.pcs| && n == Next(c, s, t, op) && Fits(c, n) && u != t
    requires LockedAt(c, s, t) && LockedAt(c, s, u) && OwnAt(c, s, t) && OwnAt(c, s, u)
    ensures OwnAt(c, n, u)
  {
    hide Next, Fits, Unused;
    Sizes(c, s, n);
    OtherPlace(c, s, t, op, n, u);
    HeldMove(c, s, t, op, n);
    BusyMove(c, s, t, op, n);
    TakenSemaphore(c, s, t, op);
  }

  lemma OwnedStep(c: Config, s: State, t: nat, op: Op, n: State)
    requires Fits(c, s) && t < |s.pcs| && n == Next(c, s, t, op) && Fits(c, n) && Locked(c, s) && Owned(c, s)
    ensures Owned(c, n)
  {
    hide Next, Fits, LockedAt, OwnAt, Marked, OneOwner;
    Sizes(c, s, n);
    MarkedStep(c, s, t, op, n);
    forall u: nat | u < |n.pcs| ensures OwnAt(c, n, u) {
      if u == t { OwnSelf(c, s, t, op, n); } else { OwnOther(c, s, t, op, n, u); }
    }
  }

  // ---------- Every run ----------

  lemma RouseKeeps(c: Config, s: State, m: Move)
    requires Base(c, s) && m.Rouse?
    ensures Base(c, Step(c, s, m)) && (Heard(c, s) ==> Heard(c, Step(c, s, m)))
  {
    var n := Step(c, s, m);
    StepFits(c, s, m);
    forall t: nat | t < |n.pcs|
      ensures LockedAt(c, n, t) && PLockedAt(c, n, t) && OwnAt(c, n, t) && (HeardAt(c, s, t) ==> HeardAt(c, n, t)) {
      assert LockedAt(c, s, t) && PLockedAt(c, s, t) && OwnAt(c, s, t);
    }
  }

  lemma StepBase(c: Config, s: State, m: Move)
    requires Base(c, s)
    ensures Base(c, Step(c, s, m))
  {
    hide Next, Locked, PLocked, Heard, Owned;
    if m.Go? && m.thread < |s.pcs| {
      StepFits(c, s, m);
      var n := Next(c, s, m.thread, m.op);
      LockedStep(c, s, m.thread, m.op, n);
      PLockedStep(c, s, m.thread, m.op, n);
      OwnedStep(c, s, m.thread, m.op, n);
    } else if m.Rouse? {
      RouseKeeps(c, s, m);
    }
  }

  /** Every step keeps the invariant, unless it allocates a semaphore that someone sleeps on. */
  lemma StepInv(c: Config, s: State, m: Move)
    requires Inv(c, s) && Careful(c, s, m)
    ensures Inv(c, Step(c, s, m))
  {
    hide Next, Locked, PLocked, Heard, Owned, Careful;
    StepBase(c, s, m);
    if m.Go? && m.thread < |s.pcs| {
      HeardStep(c, s, m.thread, m.op, Next(c, s, m.thread, m.op));
    } else if m.Rouse? {
      RouseKeeps(c, s, m);
    }
  }

  lemma {:induction false} RunBase(c: Config, ms: seq<Move>)
    requires Sane(c)
    ensures Fits(c, Start(c)) && Base(c, Run(c, Start(c), ms))
    decreases |ms|
  {
    StartInv(c);
    if ms != [] {
      hide Base, Step;
      RunBase(c, ms[..|ms| - 1]);
      StepBase(c, Run(c, Start(c), ms[..|ms| - 1]), ms[|ms| - 1]);
    }
  }

  ghost predicate AllCareful(c: Config, ms: seq<Move>)
    requires Sane(c)
  {
    Fits(c, Start(c)) && forall k :: 0 <= k < |ms| ==> Careful(c, Run(c, Start(c), ms[..k]), ms[k])
  }

  lemma OneMore(c: Config, s: State, ms: seq<Move>, k: nat)
    requires Fits(c, s) && k < |ms|
    ensures Run(c, s, ms[..k + 1]) == Step(c, Run(c, s, ms[..k]), ms[k])
  {
    var more := ms[..k + 1];
    assert more[..|more| - 1] == ms[..k] && more[|more| - 1] == ms[k];
  }

  lemma {:induction false} RunInv(c: Config, ms: seq<Move>, k: nat)
    requires Sane(c) && AllCareful(c, ms) && k <= |ms|
    ensures Inv(c, Run(c, Start(c), ms[..k]))
    decreases k
  {
    StartInv(c);
    if k == 0 {
      assert ms[..0] == [];
    } else {
      hide Run, Step, Inv, Careful;
      RunInv(c, ms, k - 1);
      OneMore(c, Start(c), ms, k - 1);
      StepInv(c, Run(c, Start(c), ms[..k - 1]), ms[k - 1]);
    }
  }

  // ---------- What it promises ----------

  /** No thread sleeps, or is about to, on a channel whose flag is clear and whose lock nobody holds. */
  ghost predicate Quiet(c: Config, s: State)
    requires Fits(c, s)
  {
    forall t: nat :: t < |s.pcs| && Sleepy(s.pcs[t]) && s.lks[c.lockOf[s.on[t]]] < 0 ==> s.busy[s.on[t]]
  }

  lemma InvQuiet(c: Config, s: State)
    requires Inv(c, s)
    ensures Quiet(c, s)
  {
    forall t: nat | t < |s.pcs| && Sleepy(s.pcs[t]) && s.lks[c.lockOf[s.on[t]]] < 0 ensures s.busy[s.on[t]] {
      assert HeardAt(c, s, t);
    }
  }

  /** Allocating a semaphore that a thread sleeps on loses that thread's wakeup at once. */
  lemma CarelessLoses(c: Config, s: State, m: Move)
    requires Fits(c, s) && !Careful(c, s, m)
    ensures !Quiet(c, Step(c, s, m))
  {
    var u: nat :| u < |s.pcs| && !Spares(c, s, m, u);
    var j: nat :| Takes(c, s, m, j) && Sleepy(s.pcs[u]) && s.on[u] == j;
    var n := Step(c, s, m);
    assert Sleepy(n.pcs[u]) && n.on[u] == j && c.lockOf[j] == 0 && n.lks == s.lks && !n.busy[j];
  }

  ghost predicate AllQuiet(c: Config, ms: seq<Move>)
    requires Sane(c)
  {
    Fits(c, Start(c)) && forall k :: 0 <= k <= |ms| ==> Quiet(c, Run(c, Start(c), ms[..k]))
  }

  /** No wakeup is lost, on any channel, at any moment of a run, if and only if bsem_alloc never takes a
      slot that a thread sleeps on: if no semaphore is freed while it has waiters, that is always so. */
  lemma NoLostWakeup(c: Config, ms: seq<Move>)
    requires Sane(c)
    ensures AllQuiet(c, ms) <==> AllCareful(c, ms)
  {
    hide Run, Step, Inv, Careful, Quiet;
    assert Fits(c, Start(c)) by { StartFits(c); }
    if AllCareful(c, ms) {
      forall k | 0 <= k <= |ms| ensures Quiet(c, Run(c, Start(c), ms[..k])) {
        RunInv(c, ms, k);
        InvQuiet(c, Run(c, Start(c), ms[..k]));
      }
    }
    if AllQuiet(c, ms) {
      forall k | 0 <= k < |ms| ensures Careful(c, Run(c, Start(c), ms[..k]), ms[k]) {
        OneMore(c, Start(c), ms, k);
        assert Quiet(c, Run(c, Start(c), ms[..k + 1]));
        if !Careful(c, Run(c, Start(c), ms[..k]), ms[k]) { CarelessLoses(c, Run(c, Start(c), ms[..k]), ms[k]); }
      }
    }
  }

  lemma StartFits(c: Config)
    requires Sane(c)
    ensures Fits(c, Start(c))
  {
  }

  /** A sleep lock has one owner at a time, on every run, whatever other locks its owner takes. */
  lemma MutualExclusion(c: Config, ms: seq<Move>, t: nat, u: nat, j: nat)
    requires Sane(c)
    ensures Fits(c, Start(c))
    ensures var s := Run(c, Start(c), ms); (t, j) in s.held && (u, j) in s.held ==> t == u
  {
    hide Run;
    RunBase(c, ms);
  }

  // ---------- Semaphores that are used as they should be ----------

  /** A semaphore is used only while it is allocated, and freed only while nobody uses it. */
  ghost predicate Proper(c: Config, s: State, m: Move)
    requires Fits(c, s)
  {
    m.Go? && m.thread < |s.pcs| && s.pcs[m.thread] == Idle ==>
      match m.op
      case Down(j) => j < |c.mutex| && !c.mutex[j] ==> s.live[j]
      case Up(j) => j < |c.mutex| && !c.mutex[j] ==> s.live[j]
      case Alloc => true
      case Free(j) => forall u :: 0 <= u < |s.pcs| && s.pcs[u] != Idle ==> s.on[u] != j
  }

  ghost predicate Using(c: Config, s: State)
    requires Fits(c, s)
  {
    forall t :: 0 <= t < |s.pcs| && s.pcs[t] != Idle && !c.mutex[s.on[t]] ==> s.live[s.on[t]]
  }

  lemma UsingCareful(c: Config, s: State, m: Move)
    requires Fits(c, s) && Using(c, s)
    ensures Careful(c, s, m)
  {
    hide Unused;
    UnusedIs(c, s.live);
  }

  /** An operation begins on a semaphore that is allocated; the rest of it changes no allocation. */
  lemma UsingBegin(c: Config, s: State, t: nat, op: Op)
    requires Fits(c, s) && t < |s.pcs| && s.pcs[t] == Idle && Using(c, s) && Proper(c, s, Go(t, op))
    ensures Fits(c, Begin(c, s, t, op)) && Using(c, Begin(c, s, t, op))
  {
    hide Unused;
    BeginFits(c, s, t, op);
  }

  lemma LiveStays(c: Config, s: State, m: Move)
    requires Fits(c, s) && (m.Go? && m.thread < |s.pcs| ==> s.pcs[m.thread] != Idle)
    ensures Fits(c, Step(c, s, m))
    ensures var n := Step(c, s, m);
            n.live == s.live && n.on == s.on && forall t :: 0 <= t < |s.pcs| && n.pcs[t] != Idle ==> s.pcs[t] != Idle
  {
    hide Begin;
    StepFits(c, s, m);
    if !(m.Go? && m.thread < |s.pcs| && s.pcs[m.thread].Scan?) { hide Roused; }
  }

  lemma UsingStep(c: Config, s: State, m: Move)
    requires Fits(c, s) && Using(c, s) && Proper(c, s, m)
    ensures Fits(c, Step(c, s, m)) && Using(c, Step(c, s, m))
  {
    if m.Go? && m.thread < |s.pcs| && s.pcs[m.thread] == Idle {
      hide Begin;
      UsingBegin(c, s, m.thread, m.op);
    } else {
      hide Step;
      LiveStays(c, s, m);
    }
  }

  lemma UnusedIs(c: Config, live: seq<bool>)
    requires |live| == |c.mutex|
    ensures var j := Unused(c, live, 0); j < |live| ==> !live[j] && !c.mutex[j]
  {
  }

  ghost predicate AllProper(c: Config, ms: seq<Move>)
    requires Sane(c)
  {
    Fits(c, Start(c)) && forall k :: 0 <= k < |ms| ==> Proper(c, Run(c, Start(c), ms[..k]), ms[k])
  }

  lemma {:induction false} UsingUpTo(c: Config, ms: seq<Move>, k: nat)
    requires Sane(c) && AllProper(c, ms) && k <= |ms|
    ensures Using(c, Run(c, Start(c), ms[..k]))
    decreases k
  {
    if k == 0 {
      assert ms[..0] == [];
    } else {
      hide Run, Step, Using, Proper;
      UsingUpTo(c, ms, k - 1);
      OneMore(c, Start(c), ms, k - 1);
      UsingStep(c, Run(c, Start(c), ms[..k - 1]), ms[k - 1]);
    }
  }

  /** Used properly, semaphores and sleep locks never lose a wakeup. */
  lemma ProperNeverLoses(c: Config, ms: seq<Move>)
    requires Sane(c) && AllProper(c, ms)
    ensures AllQuiet(c, ms)
  {
    hide Run, Step, Using, Proper, Careful, Quiet;
    forall k | 0 <= k < |ms| ensures Careful(c, Run(c, Start(c), ms[..k]), ms[k]) {
      UsingUpTo(c, ms, k);
      UsingCareful(c, Run(c, Start(c), ms[..k]), ms[k]);
    }
    NoLostWakeup(c, ms);
  }

  // ---------- ... and when they are not ----------

  const TWO: Config := Config([false], [0], 1, [0, 1], 2)

  /** Two threads of two processes and one semaphore; only the second process is ever locked. */
  function Scene(busy: bool, live: bool, lk: int, p1: int, pc0: Pc, pc1: Pc): State {
    State([busy], [live], [lk], [-1, p1], [pc0, pc1], [0, 0], {})
  }

  lemma SceneFits(busy: bool, live: bool, lk: int, p1: int, pc0: Pc, pc1: Pc)
    ensures Fits(TWO, Scene(busy, live, lk, p1, pc0, pc1))
  {
  }

  ghost predicate Reached(s: State) {
    Fits(TWO, Start(TWO)) && exists ms :: Run(TWO, Start(TWO), ms) == s
  }

  lemma Reach(s: State, m: Move, n: State)
    requires Reached(s) && Fits(TWO, s) && Step(TWO, s, m) == n
    ensures Reached(n)
  {
    hide Step;
    var ms :| Run(TWO, Start(TWO), ms) == s;
    var more := ms + [m];
    assert more[..|more| - 1] == ms && more[|more| - 1] == m;
    assert Run(TWO, Start(TWO), more) == n;
  }

  lemma AtStart()
    ensures Reached(Scene(true, false, -1, -1, Idle, Idle))
  {
    var s := Start(TWO);
    assert s == Scene(true, false, -1, -1, Idle, Idle);
    SceneFits(true, false, -1, -1, Idle, Idle);
    assert Run(TWO, s, []) == s;
  }

  /** bsem_alloc and bsem_free of the one semaphore. */
  lemma AllocScene(busy: bool, pc1: Pc)
    ensures Fits(TWO, Scene(busy, false, -1, -1, Idle, pc1))
    ensures Step(TWO, Scene(busy, false, -1, -1, Idle, pc1), Go(0, Alloc)) == Scene(false, true, -1, -1, Idle, pc1)
  {
    assert Unused(TWO, [false], 0) == 0;
  }

  lemma FreeScene(busy: bool, pc1: Pc)
    ensures Fits(TWO, Scene(busy, true, -1, -1, Idle, pc1))
    ensures Step(TWO, Scene(busy, true, -1, -1, Idle, pc1), Go(0, Free(0))) == Scene(busy, false, -1, -1, Idle, pc1)
  {
  }

  /** The steps of a down that finds the semaphore open. */
  predicate DownMove(pc: Pc, next: Pc, busy: bool, busy': bool, lk: int, lk': int) {
    || (pc == Idle && next == WantDown && busy' == busy && lk == lk' == -1)
    || (pc == WantDown && next == Check && busy' == busy && lk == -1 && lk' == 0)
    || (pc == Check && next == Got && !busy && busy' && lk == lk' == 0)
    || (pc == Got && next == Idle && busy' == busy && lk == 0 && lk' == -1)
  }

  /** Thread 0 downs the semaphore. */
  lemma DownScene(pc: Pc, next: Pc, busy: bool, busy': bool, lk: int, lk': int)
    requires DownMove(pc, next, busy, busy', lk, lk')
    ensures Fits(TWO, Scene(busy, true, lk, -1, pc, Idle))
    ensures Step(TWO, Scene(busy, true, lk, -1, pc, Idle), Go(0, Down(0))) == Scene(busy', true, lk', -1, next, Idle)
  {
  }

  /** The steps of one that finds it taken and goes to sleep. */
  predicate SleepMove(pc: Pc, next: Pc, lk: int, lk': int, p1: int, p1': int) {
    || (pc == Idle && next == WantDown && lk == lk' == -1 && p1 == p1' == -1)
    || (pc == WantDown && next == Check && lk == -1 && lk' == 1 && p1 == p1' == -1)
    || (pc == Check && next == TakeP && lk == lk' == 1 && p1 == p1' == -1)
    || (pc == TakeP && next == DropLk && lk == lk' == 1 && p1 == -1 && p1' == 1)
    || (pc == DropLk && next == SetSleep && lk == 1 && lk' == -1 && p1 == p1' == 1)
    || (pc == SetSleep && next == Switch && lk == lk' == -1 && p1 == p1' == 1)
    || (pc == Switch && next == Asleep && lk == lk' == -1 && p1 == 1 && p1' == -1)
  }

  lemma SleepScene(pc: Pc, next: Pc, lk: int, lk': int, p1: int, p1': int)
    requires SleepMove(pc, next, lk, lk', p1, p1')
    ensures Fits(TWO, Scene(true, true, lk, p1, Idle, pc))
    ensures Step(TWO, Scene(true, true, lk, p1, Idle, pc), Go(1, Down(0))) == Scene(true, true, lk', p1', Idle, next)
  {
  }

  lemma Downed(pc: Pc, next: Pc, busy: bool, busy': bool, lk: int, lk': int)
    requires DownMove(pc, next, busy, busy', lk, lk')
    requires Reached(Scene(busy, true, lk, -1, pc, Idle))
    ensures Reached(Scene(busy', true, lk', -1, next, Idle))
  {
    hide Reached, Fits, Step, Scene;
    DownScene(pc, next, busy, busy', lk, lk');
    Reach(Scene(busy, true, lk, -1, pc, Idle), Go(0, Down(0)), Scene(busy', true, lk', -1, next, Idle));
  }

  lemma Slept(pc: Pc, next: Pc, lk: int, lk': int, p1: int, p1': int)
    requires SleepMove(pc, next, lk, lk', p1, p1')
    requires Reached(Scene(true, true, lk, p1, Idle, pc))
    ensures Reached(Scene(true, true, lk', p1', Idle, next))
  {
    hide Reached, Fits, Step, Scene;
    SleepScene(pc, next, lk, lk', p1, p1');
    Reach(Scene(true, true, lk, p1, Idle, pc), Go(1, Down(0)), Scene(true, true, lk', p1', Idle, next));
  }

  /** A semaphore freed and allocated again while a thread sleeps on it: the thread's wakeup is lost. */
  lemma FreedWithWaiter()
    ensures exists s: State :: Reached(s) && Fits(TWO, s) && !Quiet(TWO, s)
  {
    hide Reached, Fits, Step, Scene;
    AtStart();
    AllocScene(true, Idle);
    Reach(Scene(true, false, -1, -1, Idle, Idle), Go(0, Alloc), Scene(false, true, -1, -1, Idle, Idle));
    Downed(Idle, WantDown, false, false, -1, -1);
    Downed(WantDown, Check, false, false, -1, 0);
    Downed(Check, Got, false, true, 0, 0);
    Downed(Got, Idle, true, true, 0, -1);
    Slept(Idle, WantDown, -1, -1, -1, -1);
    Slept(WantDown, Check, -1, 1, -1, -1);
    Slept(Check, TakeP, 1, 1, -1, -1);
    Slept(TakeP, DropLk, 1, 1, -1, 1);
    Slept(DropLk, SetSleep, 1, -1, 1, 1);
    Slept(SetSleep, Switch, -1, -1, 1, 1);
    Slept(Switch, Asleep, -1, -1, 1, -1);
    FreeScene(true, Asleep);
    Reach(Scene(true, true, -1, -1, Idle, Asleep), Go(0, Free(0)), Scene(true, false, -1, -1, Idle, Asleep));
    AllocScene(true, Asleep);
    Reach(Scene(true, false, -1, -1, Idle, Asleep), Go(0, Alloc), Scene(false, true, -1, -1, Idle, Asleep));
    Unheard();
  }

  lemma Unheard()
    ensures var s := Scene(false, true, -1, -1, Idle, Asleep); Fits(TWO, s) && !Quiet(TWO, s)
  {
    assert Sleepy(Scene(false, true, -1, -1, Idle, Asleep).pcs[1]);
  }
}
