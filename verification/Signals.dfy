/** Signals of a single-threaded process: what is pending, the return to user space that delivers
    one of them, and sigret. Masks of 32 bits are sets of signal numbers. */
module Signals {
  import opened Sets

  const SIG_DFL: int := 0
  const SIG_IGN: int := 1
  const SIGKILL: int := 9
  const SIGSTOP: int := 17
  const SIGCONT: int := 19
  const FRAME: int := 288               // sizeof(struct trapframe)
  const WORD: int := 0x1_0000_0000_0000_0000

  /** The saved user registers; `others` are those the kernel only saves and restores. */
  datatype Frame = Frame(epc: int, sp: int, ra: int, a0: int, others: seq<int>)

  datatype Proc = Proc(
    pending: set<int>, mask: set<int>, handlers: seq<int>, masks: seq<set<int>>,
    maskBackup: set<int>, handling: bool, frozen: bool, killed: bool, frame: Frame, backup: Frame)

  predicate Signal(i: int) { 0 <= i < 32 }

  predicate Sound(p: Proc) { |p.handlers| == 32 && |p.masks| == 32 }

  // ---------- The return to user space ----------

  /** Would the scan act on signal `i`? */
  predicate Ready(p: Proc, i: int) { i in p.pending && (i == SIGKILL || i == SIGSTOP || i !in p.mask) }

  /** The first signal from `i` on to act on, or 32. */
  function First(p: Proc, i: int): (j: int)
    requires 0 <= i <= 32
    ensures i <= j <= 32 && (j < 32 ==> Ready(p, j)) && forall k :: i <= k < j ==> !Ready(p, k)
    decreases 32 - i
  {
    if i == 32 || Ready(p, i) then i else First(p, i + 1)
  }

  datatype Action = Kill | Stop | Continue | Ignore | Handle

  function ActionFor(p: Proc, i: int): Action
    requires Sound(p) && Signal(i)
  {
    var h := p.handlers[i];
    if i == SIGKILL then Kill
    else if i == SIGSTOP then Stop
    else if h == SIG_IGN then Ignore
    else if h == SIGSTOP then Stop
    else if h == SIGCONT then Continue
    else if h == SIGKILL || h == SIG_DFL then Kill
    else Handle
  }

  /** The user handler set up: its frame, its mask, and what is saved for sigret. */
  function Delivered(p: Proc, i: int, stub: nat): Proc
    requires Sound(p) && Signal(i)
  {
    var sp := ((p.frame.sp - FRAME) % WORD - stub) % WORD;
    p.(maskBackup := p.mask, mask := p.masks[i], handling := true, pending := p.pending - {i},
       frame := p.frame.(sp := sp, epc := p.handlers[i], a0 := i, ra := sp))
  }

  function Acted(p: Proc, i: int, stub: nat): Proc
    requires Sound(p) && Signal(i)
  {
    match ActionFor(p, i)
    case Kill => p.(killed := true, pending := p.pending - {i})
    case Stop => p.(frozen := true, pending := p.pending - {i})
    case Continue => p.(frozen := false, pending := p.pending - {i})
    case Ignore => p.(pending := p.pending - {i})
    case Handle => Delivered(p, i, stub)
  }

  /** A frozen process stays in the kernel until SIGCONT is pending. */
  predicate Waits(p: Proc) { !p.handling && p.frozen && SIGCONT !in p.pending }

  function Thawed(p: Proc): Proc {
    var q := p.(backup := p.frame);
    if p.frozen then q.(frozen := false, pending := p.pending - {SIGCONT}) else q
  }

  /** usertrapret, once it does not wait. */
  function Returned(p: Proc, stub: nat): Proc
    requires Sound(p)
  {
    if p.handling then p
    else
      var q := Thawed(p);
      var i := First(q, 0);
      if i == 32 then q else Acted(q, i, stub)
  }

  /** The pending signals a return takes away. */
  function Taken(p: Proc): set<int> {
    if p.handling then {}
    else (if p.frozen then {SIGCONT} else {}) + (var i := First(Thawed(p), 0); if i == 32 then {} else {i})
  }

  /** A return acts on at most one signal and keeps every other pending. */
  lemma ReturnTakes(p: Proc, stub: nat)
    requires Sound(p)
    ensures Sound(Returned(p, stub)) && Returned(p, stub).pending == p.pending - Taken(p)
  {
  }

  /** Without a user handler the program goes on where it was. */
  lemma ActedKeeps(p: Proc, i: int, stub: nat)
    requires Sound(p) && Signal(i) && ActionFor(p, i) != Handle
    ensures var q := Acted(p, i, stub); q.frame == p.frame && q.mask == p.mask && q.handling == p.handling
                                          && q.maskBackup == p.maskBackup && q.backup == p.backup
  {
  }

  /** A return starts a user handler exactly when the least signal to act on has one; then sigret
      has the interrupted frame and mask to go back to. */
  lemma ReturnDelivers(p: Proc, stub: nat)
    requires Sound(p) && !p.handling
    ensures var q, i := Returned(p, stub), First(Thawed(p), 0);
            && (q.handling <==> i < 32 && ActionFor(p, i) == Handle)
            && (q.handling ==> q.backup == p.frame && q.maskBackup == p.mask && q.mask == p.masks[i]
                               && q.frame.a0 == i && q.frame.epc == p.handlers[i] && q.frame.others == p.frame.others)
            && (!q.handling ==> q.frame == p.frame && q.mask == p.mask && q.maskBackup == p.maskBackup)
            && q.backup == p.frame
  {
    hide First;
    var q := Thawed(p);
    var i := First(q, 0);
    assert i < 32 ==> ActionFor(q, i) == ActionFor(p, i);
    hide ActionFor;
    if i < 32 && ActionFor(q, i) != Handle {
      ActedKeeps(q, i, stub);
      hide Acted;
    }
  }

  /** The signal that a return acts on: the least that is pending and not blocked, SIGKILL and SIGSTOP never
      being blocked, once SIGCONT has thawed a frozen process. */
  predicate Least(p: Proc, i: int) {
    && Signal(i) && Ready(Thawed(p), i)
    && forall k :: 0 <= k < i ==> !Ready(Thawed(p), k)
  }

  /** What a return does with it, by the signal and its handler: SIGKILL, and the default, end the process;
      SIGSTOP freezes it; SIG_IGN does nothing; anything else is a user handler. */
  lemma ReturnActs(p: Proc, stub: nat, i: int)
    requires Sound(p) && !p.handling && Least(p, i)
    ensures var q, h := Returned(p, stub), p.handlers[i];
            && (q.killed <==> p.killed || i == 9 || (i != 17 && (h == 0 || h == 9)))
            && (q.frozen <==> i != 9 && (i == 17 || h == 17))
            && (q.handling <==> i != 9 && i != 17 && h !in {0, 1, 9, 17, 19})
            && q.pending == Thawed(p).pending - {i}
  {
    var j := First(Thawed(p), 0);
    assert j == i;
  }

  /** With nothing to act on, a return changes nothing but what it saves. */
  lemma ReturnIdles(p: Proc, stub: nat)
    requires Sound(p) && !p.handling && forall i :: !Least(p, i)
    ensures Returned(p, stub) == Thawed(p)
  {
    var j := First(Thawed(p), 0);
    assert !Least(p, j);
  }

  // ---------- System calls ----------

  /** The new action of a sigaction call: none, one that copyin got, or one it did not get, with what is
      then in the kernel's copy. */
  datatype Act = NoAct | Copied(handler: int, mask: set<int>) | Uncopied(handler: int, mask: set<int>)

  /** `wantOld` says that the caller asked for the old action. */
  datatype Call =
    | Procmask(mask: set<int>)
    | Install(signum: int, act: Act, wantOld: bool)
    | Ret
    | Exit
    | Other(result: int)

  function Power(i: nat): nat { if i == 0 then 1 else 2 * Power(i - 1) }

  /** A mask as the number whose bits it is. */
  function Bits(mask: set<int>, n: nat): nat {
    if n == 0 then 0 else Bits(mask, n - 1) + if n - 1 in mask then Power(n - 1) else 0
  }

  predicate MayInstall(signum: int) { Signal(signum) && signum != SIGKILL && signum != SIGSTOP }

  /** No action is installed; a copy that failed after the old action was copied out finds that one. */
  predicate Keeps(act: Act, wantOld: bool) { act.NoAct? || (act.Uncopied? && wantOld) }

  /** The call's effect before its result is stored. */
  function Called(p: Proc, call: Call): (Proc, int)
    requires Sound(p)
  {
    match call
    case Procmask(m) => (p.(mask := m), Bits(p.mask, 32))
    case Install(i, act, wantOld) =>
      if !MayInstall(i) then (p, WORD - 1)
      else if Keeps(act, wantOld) then (p, 0)
      else (p.(handlers := p.handlers[i := act.handler], masks := p.masks[i := act.mask]), 0)
    case Exit => (p, 0)
    case Ret => (p.(frame := p.backup, mask := p.maskBackup, handling := false), 0)
    case Other(r) => (p, r)
  }

  /** A system call from user space: past the ecall, then the call, then its result in a0. */
  function Served(p: Proc, call: Call): Proc
    requires Sound(p)
  {
    var q := p.(frame := p.frame.(epc := (p.frame.epc + 4) % WORD));
    var (r, a0) := Called(q, call);
    r.(frame := r.frame.(a0 := a0))
  }

  // ---------- Runs ----------

  datatype Place = User | Kernel | Gone

  datatype State = State(p: Proc, at: Place)

  /** User code changes its registers; a signal is posted; user code traps, with a call, an interrupt or
      a fault; the kernel returns. */
  datatype Event = Run(frame: Frame) | Post(i: int) | Sys(call: Call) | Tick | Fault | Back(stub: nat)

  predicate Enabled(s: State, e: Event) {
    match e
    case Run(_) => s.at.User?
    case Post(i) => true
    case Sys(_) => s.at.User?
    case Tick => s.at.User?
    case Fault => s.at.User?
    case Back(_) => s.at.Kernel? && !Waits(s.p)
  }

  function Next(s: State, e: Event): State
    requires Sound(s.p)
  {
    match e
    case Run(f) => s.(p := s.p.(frame := f))
    case Post(i) => if Signal(i) then s.(p := s.p.(pending := s.p.pending + {i})) else s
    case Sys(call) => if s.p.killed || call.Exit? then s.(at := Gone) else State(Served(s.p, call), Kernel)
    case Fault => State(s.p.(killed := true), Gone)
    case Tick => s.(at := if s.p.killed then Gone else Kernel)
    case Back(stub) => State(Returned(s.p, stub), User)
  }

  lemma NextSound(s: State, e: Event)
    requires Sound(s.p)
    ensures Sound(Next(s, e).p)
  {
  }

  /** The state after a run, and whether every event of the run could happen. */
  function After(s: State, es: seq<Event>): (r: State)
    requires Sound(s.p)
    ensures Sound(r.p)
    decreases |es|
  {
    if es == [] then s
    else
      var t := After(s, es[..|es| - 1]);
      NextSound(t, es[|es| - 1]);
      Next(t, es[|es| - 1])
  }

  predicate Legal(s: State, es: seq<Event>)
    requires Sound(s.p)
    decreases |es|
  {
    es == [] || (Legal(s, es[..|es| - 1]) && Enabled(After(s, es[..|es| - 1]), es[|es| - 1]))
  }

  /** The signals posted during a run. */
  function Posted(es: seq<Event>): set<int> {
    set e | e in es && e.Post? && Signal(e.i) :: e.i
  }

  predicate NoRet(es: seq<Event>) { Sys(Ret) !in es }

  /** Inside a handler: what is saved, and what waits. */
  predicate During(s: State, first: Proc, posted: set<int>) {
    && s.p.handling && s.p.backup == first.backup && s.p.maskBackup == first.maskBackup
    && s.p.pending == first.pending + posted && s.p.frozen == first.frozen
    && (s.at.Gone? || s.p.killed == first.killed)
  }

  lemma DuringStep(s: State, e: Event, first: Proc, posted: set<int>)
    requires Sound(s.p) && During(s, first, posted) && Enabled(s, e) && e != Sys(Ret)
    ensures During(Next(s, e), first, posted + if e.Post? && Signal(e.i) then {e.i} else {})
  {
  }

  lemma PostedMore(es: seq<Event>)
    requires es != []
    ensures var e := es[|es| - 1];
            Posted(es) == Posted(es[..|es| - 1]) + if e.Post? && Signal(e.i) then {e.i} else {}
  {
    var e, less := es[|es| - 1], es[..|es| - 1];
    assert es == less + [e];
  }

  /** Until sigret, nothing else is delivered: whatever the handler does and whatever is posted, the
      saved frame and mask stay, and every posted signal stays pending. */
  lemma {:induction false} UntilSigret(s: State, es: seq<Event>)
    requires Sound(s.p) && s.p.handling && Legal(s, es) && NoRet(es)
    ensures During(After(s, es), s.p, Posted(es))
    decreases |es|
  {
    if es != [] {
      hide During, Next, Posted, Enabled;
      UntilSigret(s, es[..|es| - 1]);
      DuringStep(After(s, es[..|es| - 1]), es[|es| - 1], s.p, Posted(es[..|es| - 1]));
      PostedMore(es);
    } else {
      assert Posted(es) == {};
    }
  }

  /** From a delivery to its sigret, over every run between them: the program goes on with the frame
      and mask it was interrupted with, but for a0, and no signal posted meanwhile is lost. */
  lemma SigretResumes(s: State, stub: nat, es: seq<Event>)
    requires Sound(s.p) && Enabled(s, Back(stub)) && !s.p.handling
    requires var t := Next(s, Back(stub)); t.p.handling && Legal(t, es) && NoRet(es)
    requires var u := After(Next(s, Back(stub)), es); u.at.User? && !u.p.killed
    ensures var u := Next(After(Next(s, Back(stub)), es), Sys(Ret));
            && u.at.Kernel? && !u.p.handling && u.p.mask == s.p.mask
            && u.p.frame == s.p.frame.(a0 := 0)
            && u.p.pending == s.p.pending - Taken(s.p) + Posted(es)
  {
    var t := Next(s, Back(stub));
    ReturnDelivers(s.p, stub);
    ReturnTakes(s.p, stub);
    UntilSigret(t, es);
    hide Returned, Taken, Posted;
  }

  /** The process ends by its own doing. */
  predicate Ends(e: Event) { e == Fault || e == Sys(Exit) }

  lemma EndStep(s: State, e: Event)
    requires Sound(s.p) && s.p.handling && Enabled(s, e)
    ensures s.at.Gone? ==> Next(s, e).at.Gone? && !Ends(e)
    ensures !s.at.Gone? && !s.p.killed ==> (Next(s, e).at.Gone? <==> Ends(e))
  {
    hide Returned, Served;
  }

  /** Inside a handler a process ends if and only if it exits or faults: until sigret, SIGKILL and every
      other signal only wait. */
  lemma {:induction false} KillWaits(s: State, es: seq<Event>)
    requires Sound(s.p) && s.p.handling && !s.p.killed && !s.at.Gone? && Legal(s, es) && NoRet(es)
    ensures After(s, es).at.Gone? <==> exists e :: e in es && Ends(e)
    decreases |es|
  {
    if es != [] {
      var less, e := es[..|es| - 1], es[|es| - 1];
      hide Next, Enabled, Ends, Posted;
      KillWaits(s, less);
      UntilSigret(s, less);
      EndStep(After(s, less), e);
      assert es == less + [e];
      assert e in es;
    }
  }

  // ---------- SIGKILL outside handlers ----------

  /** The pending signals that come before SIGKILL. */
  function Lesser(p: Proc): set<int> { set i | i in p.pending && 0 <= i < SIGKILL }

  /** The returns to user space made outside handlers. */
  function Returns(s: State, es: seq<Event>): nat
    requires Sound(s.p)
    decreases |es|
  {
    if es == [] then 0
    else
      var less, e := es[..|es| - 1], es[|es| - 1];
      Returns(s, less) + if e.Back? && !After(s, less).p.handling then 1 else 0
  }

  /** With SIGKILL pending, a return outside a handler kills or uses up a lesser signal. */
  lemma KillNears(p: Proc, stub: nat)
    requires Sound(p) && !p.handling && SIGKILL in p.pending && !p.killed
    ensures var q := Returned(p, stub); q.killed || (SIGKILL in q.pending && |Lesser(q)| + 1 <= |Lesser(p)|)
  {
    var q, n := Thawed(p), Returned(p, stub);
    var i := First(q, 0);
    assert Ready(q, SIGKILL);
    assert i <= SIGKILL;
    if i < SIGKILL {
      ReturnTakes(p, stub);
      assert n.pending == p.pending - Taken(p);
      assert Lesser(n) == Lesser(p) - {i};
    }
  }

  predicate NoLesser(es: seq<Event>) { forall e :: e in es && e.Post? ==> !(0 <= e.i < SIGKILL) }

  lemma KillStep(s: State, e: Event)
    requires Sound(s.p) && SIGKILL in s.p.pending && !s.p.killed && (e.Post? ==> !(0 <= e.i < SIGKILL))
    ensures var n := Next(s, e);
            n.p.killed || (SIGKILL in n.p.pending
                           && |Lesser(n.p)| + (if e.Back? && !s.p.handling then 1 else 0) <= |Lesser(s.p)|)
  {
    if e.Back? && !s.p.handling {
      hide Returned, Lesser;
      KillNears(s.p, e.stub);
    } else {
      hide First;
      assert Lesser(Next(s, e).p) == Lesser(s.p);
    }
  }

  lemma KilledStays(s: State, e: Event)
    requires Sound(s.p) && s.p.killed
    ensures Next(s, e).p.killed
  {
    if e.Back? { hide First; }
  }

  /** How many returns outside handlers there can have been since `first`: each uses up a lesser signal,
      but for the one that kills, and after that the process traps only to end. */
  predicate Nearing(first: Proc, t: State, made: nat) {
    if t.p.killed then made <= |Lesser(first)| + if t.at.Kernel? then 0 else 1
    else SIGKILL in t.p.pending && |Lesser(t.p)| + made <= |Lesser(first)|
  }

  lemma NearingStep(first: Proc, t: State, e: Event, made: nat)
    requires Sound(t.p) && Enabled(t, e) && Nearing(first, t, made) && (e.Post? ==> !(0 <= e.i < SIGKILL))
    ensures Nearing(first, Next(t, e), made + if e.Back? && !t.p.handling then 1 else 0)
  {
    if t.p.killed {
      KilledStays(t, e);
      hide Returned, Served, Lesser;
    } else {
      KillStep(t, e);
      hide Returned, Served, Lesser;
    }
  }

  lemma {:induction false} KillApproaches(s: State, es: seq<Event>)
    requires Sound(s.p) && SIGKILL in s.p.pending && NoLesser(es) && Legal(s, es)
    ensures Nearing(s.p, After(s, es), Returns(s, es))
    decreases |es|
  {
    if es != [] {
      hide Next, Lesser, Nearing, Enabled;
      var less, e := es[..|es| - 1], es[|es| - 1];
      assert e in es;
      KillApproaches(s, less);
      NearingStep(s.p, After(s, less), e, Returns(s, less));
    }
  }

  /** Unless lesser signals keep coming, a process with SIGKILL pending makes at most ten returns outside
      handlers, and is killed when it has made ten: no run of it has more. */
  lemma KillWithin(s: State, es: seq<Event>)
    requires Sound(s.p) && SIGKILL in s.p.pending && NoLesser(es) && Legal(s, es)
    ensures Returns(s, es) <= 10 && (Returns(s, es) == 10 ==> After(s, es).p.killed)
  {
    hide Returns, After, Legal;
    KillApproaches(s, es);
    LesserFew(s.p);
  }

  lemma LesserFew(p: Proc)
    ensures |Lesser(p)| <= 9
  {
    var nine := {0, 1, 2, 3, 4, 5, 6, 7, 8};
    assert Lesser(p) <= nine;
    Fewer(Lesser(p), nine);
  }

  // ---------- What sigret finds ----------

  /** The event starts a user handler. */
  predicate Delivers(t: State, e: Event)
    requires Sound(t.p)
  {
    e.Back? && !t.p.handling && First(Thawed(t.p), 0) < 32 && ActionFor(t.p, First(Thawed(t.p), 0)) == Handle
  }

  /** The frame at the last return to user space outside handlers, at first what was saved before. */
  function LastFrame(s: State, es: seq<Event>): Frame
    requires Sound(s.p)
    decreases |es|
  {
    if es == [] then s.p.backup
    else
      var less, e := es[..|es| - 1], es[|es| - 1];
      if e.Back? && !After(s, less).p.handling then After(s, less).p.frame else LastFrame(s, less)
  }

  /** The mask at the last delivery, at first what was saved before. */
  function LastMask(s: State, es: seq<Event>): set<int>
    requires Sound(s.p)
    decreases |es|
  {
    if es == [] then s.p.maskBackup
    else
      var less, e := es[..|es| - 1], es[|es| - 1];
      if Delivers(After(s, less), e) then After(s, less).p.mask else LastMask(s, less)
  }

  lemma BackupStep(s: State, e: Event)
    requires Sound(s.p)
    ensures Next(s, e).p.backup == if e.Back? && !s.p.handling then s.p.frame else s.p.backup
    ensures Next(s, e).p.maskBackup == if Delivers(s, e) then s.p.mask else s.p.maskBackup
  {
    if e.Back? && !s.p.handling {
      ReturnDelivers(s.p, e.stub);
      hide Returned;
    } else {
      hide First;
    }
  }

  lemma {:induction false} BackupIs(s: State, es: seq<Event>)
    requires Sound(s.p)
    ensures After(s, es).p.backup == LastFrame(s, es) && After(s, es).p.maskBackup == LastMask(s, es)
    decreases |es|
  {
    if es != [] {
      hide Next, Delivers;
      BackupIs(s, es[..|es| - 1]);
      BackupStep(After(s, es[..|es| - 1]), es[|es| - 1]);
    }
  }

  /** Over every run: a sigret outside a handler goes back to the frame of the last return to user space
      and to the mask of the last delivery. */
  lemma StraySigret(s: State, es: seq<Event>)
    requires Sound(s.p)
    requires var t := After(s, es); t.at.User? && !t.p.handling && !t.p.killed
    ensures var u := Next(After(s, es), Sys(Ret)).p; u.frame == LastFrame(s, es).(a0 := 0) && u.mask == LastMask(s, es)
  {
    hide After, LastFrame, LastMask;
    BackupIs(s, es);
  }

  /** sigret undoes userhandler, but for the signal it was for. */
  lemma SigretUndoes(p: Proc, i: int, stub: nat)
    requires Sound(p) && Signal(i) && !p.handling && p.backup == p.frame
    ensures Called(Delivered(p, i, stub), Ret).0 == p.(pending := p.pending - {i}, maskBackup := p.mask)
  {
  }

  // ---------- The mask outside handlers ----------

  /** The mask last chosen outside a handler. */
  function Wanted(s: State, es: seq<Event>): set<int>
    requires Sound(s.p)
    decreases |es|
  {
    if es == [] then s.p.mask
    else
      var e, less := es[|es| - 1], es[..|es| - 1];
      var t := After(s, less);
      if e.Sys? && e.call.Procmask? && !t.p.handling && !t.p.killed then e.call.mask else Wanted(s, less)
  }

  predicate Masked(p: Proc, want: set<int>) { (if p.handling then p.maskBackup else p.mask) == want }

  /** Event `k` is no sigret, or one from a handler, or the mask of the last delivery is the one last
      chosen. */
  predicate Harmless(s: State, es: seq<Event>, k: nat)
    requires Sound(s.p) && k < |es|
  {
    var t := After(s, es[..k]);
    es[k] == Sys(Ret) && !t.p.killed ==> t.p.handling || LastMask(s, es[..k]) == Wanted(s, es[..k])
  }

  predicate AllHarmless(s: State, es: seq<Event>)
    requires Sound(s.p)
  {
    forall k: nat :: k < |es| ==> Harmless(s, es, k)
  }

  lemma MaskStep(s: State, e: Event, want: set<int>)
    requires Sound(s.p) && Masked(s.p, want)
    ensures Masked(Next(s, e).p, if e.Sys? && e.call.Procmask? && !s.p.handling
            && !s.p.killed then e.call.mask else want)
            <==> (e == Sys(Ret) && !s.p.killed ==> s.p.handling || s.p.maskBackup == want)
  {
    if e.Back? && !s.p.handling {
      ReturnDelivers(s.p, e.stub);
      hide Returned;
    }
  }

  /** The mask is as wanted at every moment of the run. */
  predicate AllMasked(s: State, es: seq<Event>)
    requires Sound(s.p)
  {
    forall k: nat :: k <= |es| ==> Masked(After(s, es[..k]).p, Wanted(s, es[..k]))
  }

  lemma MaskMoment(s: State, es: seq<Event>, k: nat)
    requires Sound(s.p) && k < |es| && Masked(After(s, es[..k]).p, Wanted(s, es[..k]))
    ensures Masked(After(s, es[..k + 1]).p, Wanted(s, es[..k + 1])) <==> Harmless(s, es, k)
  {
    var more := es[..k + 1];
    assert more[..|more| - 1] == es[..k] && more[|more| - 1] == es[k];
    hide Next, Masked, LastMask;
    BackupIs(s, es[..k]);
    MaskStep(After(s, es[..k]), es[k], Wanted(s, es[..k]));
  }

  lemma {:induction false} MaskUpTo(s: State, es: seq<Event>, k: nat)
    requires Sound(s.p) && !s.p.handling && AllHarmless(s, es) && k <= |es|
    ensures Masked(After(s, es[..k]).p, Wanted(s, es[..k]))
    decreases k
  {
    if k == 0 {
      assert es[..0] == [];
    } else {
      MaskUpTo(s, es, k - 1);
      hide After, Wanted, Masked, Harmless;
      MaskMoment(s, es, k - 1);
    }
  }

  /** Over every run, the mask outside handlers is always the one last chosen outside them, and what
      handlers do to it is undone, exactly when every sigret is called from a handler, or while the mask
      of the last delivery is the one last chosen. */
  lemma MaskKept(s: State, es: seq<Event>)
    requires Sound(s.p) && !s.p.handling
    ensures AllMasked(s, es) <==> AllHarmless(s, es)
  {
    hide After, Wanted, Masked, Harmless;
    if AllHarmless(s, es) {
      forall k: nat | k <= |es| ensures Masked(After(s, es[..k]).p, Wanted(s, es[..k])) {
        MaskUpTo(s, es, k);
      }
    }
    if AllMasked(s, es) {
      forall k: nat | k < |es| ensures Harmless(s, es, k) {
        assert Masked(After(s, es[..k]).p, Wanted(s, es[..k]))
            && Masked(After(s, es[..k + 1]).p, Wanted(s, es[..k + 1]));
        MaskMoment(s, es, k);
      }
    }
  }

  lemma OneMore(s: State, es: seq<Event>, e: Event, more: seq<Event>)
    requires Sound(s.p) && more == es + [e]
    ensures After(s, more) == Next(After(s, es), e)
    ensures Legal(s, more) <==> Legal(s, es) && Enabled(After(s, es), e)
    ensures !e.Sys? || !e.call.Procmask? ==> Wanted(s, more) == Wanted(s, es)
  {
    assert more[..|more| - 1] == es && more[|more| - 1] == e;
  }

  /** Setting the mask, and the return to user space after it. */
  lemma SetAndReturn(s: State, want: set<int>)
    requires Sound(s.p) && s.at.User? && s.p.pending == {} && !s.p.handling && !s.p.frozen && !s.p.killed
    ensures var es := [Sys(Procmask(want)), Back(0)]; var t := After(s, es);
            && Legal(s, es) && Wanted(s, es) == want && t.at.User? && t.p.mask == want && !t.p.handling && !t.p.killed
            && t.p.maskBackup == s.p.maskBackup
  {
    var e0, e1 := Sys(Procmask(want)), Back(0);
    OneMore(s, [], e0, [e0]);
    OneMore(s, [e0], e1, [e0, e1]);
    assert Wanted(s, [e0]) == want by { assert [e0][..0] == []; }
    var s1 := After(s, [e0]);
    assert s1.p.pending == {} && !Waits(s1.p);
    assert s1.at.Kernel? && s1.p.mask == want && s1.p.maskBackup == s.p.maskBackup && !s1.p.handling && !s1.p.frozen
        && !s1.p.killed;
    hide Served, Legal, Wanted, After;
    assert First(Thawed(s1.p), 0) == 32;
  }

  lemma LastMaskNone(s: State, want: set<int>)
    requires Sound(s.p) && s.at.User? && s.p.pending == {} && !s.p.handling && !s.p.frozen && !s.p.killed
    ensures LastMask(s, [Sys(Procmask(want)), Back(0)]) == s.p.maskBackup
  {
    hide LastMask, LastFrame;
    SetAndReturn(s, want);
    BackupIs(s, [Sys(Procmask(want)), Back(0)]);
  }

  /** A process that sets its mask and then calls sigret with no handler loses the mask. */
  lemma StrayExample()
    ensures exists s: State, es: seq<Event> ::
              Sound(s.p) && !s.p.handling && Legal(s, es) && !Masked(After(s, es).p, Wanted(s, es))
  {
    var f := Frame(0, 4096, 0, 0, []);
    var p := Proc({}, {}, seq(32, _ => SIG_DFL), seq(32, _ => {}), {}, false, false, false, f, f);
    var s := State(p, User);
    var es := [Sys(Procmask({1})), Back(0)];
    hide After, Legal, Wanted, LastFrame, LastMask;
    SetAndReturn(s, {1});
    var all := es + [Sys(Ret)];
    OneMore(s, es, Sys(Ret), all);
    LastMaskNone(s, {1});
    StraySigret(s, es);
    assert Legal(s, all) && !Masked(After(s, all).p, Wanted(s, all));
  }

  // ---------- What is pending, and why ----------

  function Clears(s: State, e: Event): set<int> { if e.Back? then Taken(s.p) else {} }

  /** Signal `i` came at step `k` (step 0: it was there) and no later event took it. */
  predicate Since(s: State, es: seq<Event>, i: int, k: nat)
    requires Sound(s.p)
  {
    && k <= |es| && (if k == 0 then i in s.p.pending else es[k - 1] == Post(i) && Signal(i))
    && forall j :: k <= j < |es| ==> i !in Clears(After(s, es[..j]), es[j])
  }

  lemma PendingStep(s: State, e: Event, i: int)
    requires Sound(s.p)
    ensures i in Next(s, e).p.pending <==> (e == Post(i) && Signal(i)) || (i in s.p.pending && i !in Clears(s, e))
  {
    if e.Back? {
      ReturnTakes(s.p, e.stub);
      hide Returned, Taken;
    }
  }

  lemma SinceMore(s: State, es: seq<Event>, i: int, k: nat)
    requires Sound(s.p) && es != []
    ensures var less := es[..|es| - 1];
            Since(s, es, i, k) <==> (k == |es| && es[|es| - 1] == Post(i) && Signal(i))
                                    || (Since(s, less, i, k) && i !in Clears(After(s, less), es[|es| - 1]))
  {
    hide After, Clears;
    var n, less := |es| - 1, es[..|es| - 1];
    assert forall j :: 0 <= j < n ==> less[..j] == es[..j] && less[j] == es[j];
    if k < |es| {
      assert (forall j :: k <= j < |es| ==> i !in Clears(After(s, es[..j]), es[j]))
        <==> ((forall j :: k <= j < n ==> i !in Clears(After(s, less[..j]), less[j]))
              && i !in Clears(After(s, es[..n]), es[n]));
    }
  }

  /** Over every run, a signal is pending exactly when it was posted and no return has acted on it
      since. */
  lemma {:induction false} PendingSince(s: State, es: seq<Event>, i: int)
    requires Sound(s.p)
    ensures i in After(s, es).p.pending <==> exists k: nat :: Since(s, es, i, k)
    decreases |es|
  {
    if es == [] {
      if i in s.p.pending { assert Since(s, es, i, 0); }
    } else {
      var less, e := es[..|es| - 1], es[|es| - 1];
      var t := After(s, less);
      PendingSince(s, less, i);
      PendingStep(t, e, i);
      hide Since, Next, Clears;
      if k: nat :| Since(s, es, i, k) {
        SinceMore(s, es, i, k);
      }
      if e == Post(i) && Signal(i) {
        SinceMore(s, es, i, |es|);
      } else if k: nat :| Since(s, less, i, k) {
        SinceMore(s, es, i, k);
      }
    }
  }

  // ---------- The next process in the slot ----------

  /** What freeproc, allocproc and fork make of a slot: they clear neither pending signals nor the saved
      mask.  `page` is what the new page for the saved frame holds. */
  function Reborn(p: Proc, mask: set<int>, handlers: seq<int>, masks: seq<set<int>>, start: Frame, page: Frame): Proc {
    p.(mask := mask, handlers := handlers, masks := masks, handling := false, frozen := false, killed := false,
       frame := start, backup := page)
  }

  /** A process starts with no signal pending if and only if every signal posted to the slot before, to
      its predecessor or, with kill(0, sig), while the slot was unused, had been acted on. */
  lemma StartsClean(s: State, es: seq<Event>, mask: set<int>, handlers: seq<int>, masks: seq<set<int>>,
                    start: Frame, page: Frame)
    requires Sound(s.p)
    ensures (forall i: int :: i !in Reborn(After(s, es).p, mask, handlers, masks, start, page).pending)
            <==> (forall i: int, k: nat :: !Since(s, es, i, k))
  {
    hide After, Since;
    var q := Reborn(After(s, es).p, mask, handlers, masks, start, page);
    if forall i: int :: i !in q.pending {
      forall i: int, k: nat ensures !Since(s, es, i, k) {
        PendingSince(s, es, i);
      }
    } else {
      var i: int :| i in q.pending;
      PendingSince(s, es, i);
      var k: nat :| Since(s, es, i, k);
    }
  }

  /** A signal posted to a process that exits is there for the next one. */
  lemma StaleSignal(s: State)
    requires Sound(s.p) && s.at.User? && !s.p.killed
    ensures Legal(s, [Post(5), Sys(Exit)]) && After(s, [Post(5), Sys(Exit)]).at.Gone?
    ensures 5 in Reborn(After(s, [Post(5), Sys(Exit)]).p, {}, s.p.handlers, s.p.masks, s.p.frame, s.p.frame).pending
  {
    OneMore(s, [], Post(5), [Post(5)]);
    OneMore(s, [Post(5)], Sys(Exit), [Post(5), Sys(Exit)]);
  }

  // ---------- The process ----------

  class Process {
    var pending: set<int>
    var mask: set<int>
    var handlers: seq<int>
    var masks: seq<set<int>>
    var maskBackup: set<int>
    var handling: bool
    var frozen: bool
    var killed: bool
    var frame: Frame
    var backup: Frame

    function Now(): Proc
      reads this
    {
      Proc(pending, mask, handlers, masks, maskBackup, handling, frozen, killed, frame, backup)
    }

    /** A slot that no process has had. */
    constructor (start: Frame)
      ensures Sound(Now()) && pending == {} && mask == {} && !handling && !frozen && !killed && frame == start
      ensures forall i :: Signal(i) ==> handlers[i] == SIG_DFL && masks[i] == {}
    {
      pending, mask, maskBackup := {}, {}, {};
      handlers, masks := seq(32, _ => SIG_DFL), seq(32, _ => {});
      handling, frozen, killed := false, false, false;
      frame, backup := start, start;
    }

    /** The slot taken by a new process, with the mask and handlers of its parent. */
    method Reuse(mask': set<int>, handlers': seq<int>, masks': seq<set<int>>, start: Frame, page: Frame)
      requires |handlers'| == |masks'| == 32
      modifies this
      ensures Sound(Now()) && Now() == Reborn(old(Now()), mask', handlers', masks', start, page)
    {
      killed := false;
      handlers, masks := seq(32, _ => SIG_DFL), seq(32, _ => {});
      frame, backup := start, page;
      mask, handlers, masks := mask', handlers', masks';
      frozen, handling := false, false;
    }

    /** kill, on the process it finds. */
    method PostSignal(i: int) returns (r: int)
      modifies this
      ensures r == (if Signal(i) then 0 else -1)
      ensures Now() == old(Now()).(pending := old(pending) + if Signal(i) then {i} else {})
    {
      if i < 0 || i > 31 { return -1; }
      pending := pending + {i};
      return 0;
    }

    method SetMask(newMask: set<int>) returns (prev: set<int>)
      modifies this
      ensures prev == old(mask) && Now() == old(Now()).(mask := newMask)
    {
      prev := mask;
      mask := newMask;
    }

    /** Also gives the old action; `act` is what copyin left in the kernel's copy. */
    method SigAction(i: int, act: Act, wantOld: bool) returns (r: int, handler: int, handlerMask: set<int>)
      requires Sound(Now())
      modifies this
      ensures Now() == Called(old(Now()), Install(i, act, wantOld)).0
      ensures r == (if MayInstall(i) then 0 else -1)
      ensures r == 0 && wantOld ==> handler == old(handlers)[i] && handlerMask == old(masks)[i]
    {
      handler, handlerMask := 0, {};
      if i < 0 || i > 31 || i == SIGKILL || i == SIGSTOP { return -1, handler, handlerMask; }
      if wantOld {
        handler, handlerMask := handlers[i], masks[i];
      }
      match act {
        case NoAct =>
        case Copied(h, m) => handlers, masks := handlers[i := h], masks[i := m];
        case Uncopied(h, m) =>
          if wantOld {
            handlers, masks := handlers[i := handler], masks[i := handlerMask];
          } else {
            handlers, masks := handlers[i := h], masks[i := m];
          }
      }
      assert wantOld ==>
          old(handlers)[i := old(handlers)[i]] == old(handlers) && old(masks)[i := old(masks)[i]] == old(masks);
      return 0, handler, handlerMask;
    }

    method SigRet()
      requires Sound(Now())
      modifies this
      ensures Now() == Called(old(Now()), Ret).0
    {
      frame := backup;
      mask := maskBackup;
      handling := false;
    }

    /** A system call that is not exit, as usertrap and syscall serve it. */
    method Syscall(call: Call)
      requires Sound(Now()) && !call.Exit?
      modifies this
      ensures Sound(Now()) && Now() == Served(old(Now()), call)
    {
      frame := frame.(epc := (frame.epc + 4) % WORD);
      var a0 := 0;
      match call {
        case Procmask(m) =>
          var prev := SetMask(m);
          a0 := Bits(prev, 32);
        case Install(i, act, wantOld) =>
          var r, _, _ := SigAction(i, act, wantOld);
          a0 := r % WORD;
        case Ret => SigRet();
        case Other(r) => a0 := r;
      }
      frame := frame.(a0 := a0);
    }

    /** usertrap on a system call: a killed process, and one that exits, ends here. */
    method Trap(call: Call) returns (gone: bool)
      requires Sound(Now())
      modifies this
      ensures Sound(Now())
      ensures State(Now(), if gone then Gone else Kernel) == Next(State(old(Now()), User), Sys(call))
    {
      if killed || call.Exit? { return true; }
      Syscall(call);
      return false;
    }

    method UserHandler(i: int, stub: nat)
      requires Sound(Now()) && Signal(i)
      modifies this
      ensures Now() == Delivered(old(Now()), i, stub)
    {
      maskBackup := mask;
      mask := masks[i];
      handling := true;
      frame := frame.(sp := (frame.sp - FRAME) % WORD);
      frame := frame.(epc := handlers[i]);
      frame := frame.(sp := (frame.sp - stub) % WORD);
      frame := frame.(a0 := i);
      frame := frame.(ra := frame.sp);
      pending := pending - {i};
    }

    /** What the kernel does by itself for signal `i`; true when a user handler is to run. */
    method Dispatch(i: int) returns (user: bool)
      requires Sound(Now()) && Signal(i)
      modifies this
      ensures user <==> ActionFor(old(Now()), i) == Handle
      ensures Now() == if user then old(Now()) else Acted(old(Now()), i, 0)
    {
      var handler := handlers[i];
      if i == SIGKILL {
        killed, pending := true, pending - {i};
      } else if i == SIGSTOP {
        frozen, pending := true, pending - {i};
      } else if handler == SIG_IGN {
        pending := pending - {i};
      } else if handler == SIGSTOP {
        frozen, pending := true, pending - {i};
      } else if handler == SIGCONT {
        frozen, pending := false, pending - {i};
      } else if handler == SIGKILL || handler == SIG_DFL {
        killed, pending := true, pending - {i};
      } else {
        return true;
      }
      return false;
    }

    /** The scan, once a frozen process has its SIGCONT; the signal for a user handler, or -1. */
    method HandlePending() returns (r: int)
      requires Sound(Now()) && !Waits(Now()) && !handling
      modifies this
      ensures r == -1 || Signal(r)
      ensures var q := Thawed(old(Now())); var i := First(q, 0);
              && (r != -1 ==> r == i && ActionFor(q, i) == Handle && Now() == q)
              && (r == -1 ==>
                  Now() == (if i == 32 then q else Acted(q, i, 0)) && (i < 32 ==> ActionFor(q, i) != Handle))
    {
      backup := frame;
      if frozen {
        frozen := false;
        pending := pending - {SIGCONT};
      }
      ghost var q := Now();
      assert q == Thawed(old(Now()));
      var i := 0;
      while i < 32
        invariant 0 <= i <= 32 && Now() == q && First(q, i) == First(q, 0)
      {
        if i in pending && (i == SIGKILL || i == SIGSTOP || i !in mask) {
          var user := Dispatch(i);
          return if user then i else -1;
        }
        i := i + 1;
      }
      return -1;
    }

    method UserTrapRet(stub: nat)
      requires Sound(Now()) && !Waits(Now())
      modifies this
      ensures Now() == Returned(old(Now()), stub)
    {
      if !handling {
        hide First, Delivered;
        ghost var q := Thawed(Now());
        var i := HandlePending();
        if i != -1 {
          UserHandler(i, stub);
        } else if First(q, 0) < 32 {
          SameAct(q, First(q, 0), stub);
        }
      }
    }
  }

  /** Only a user handler makes use of the stub. */
  lemma SameAct(p: Proc, i: int, stub: nat)
    requires Sound(p) && Signal(i) && ActionFor(p, i) != Handle
    ensures Acted(p, i, stub) == Acted(p, i, 0)
  {
  }
}
