/** Group commit over every interleaving of operations, disk writes and crashes. */
module GroupCommit {
  import opened Disk
  import opened Log
  import opened LogDriver

  // ---------- The system ----------

  /** One log_write by operation `op`. */
  datatype Event = Event(op: nat, bno: nat, data: Block)

  /** A transaction: the operations admitted to it and what they logged, in order. */
  datatype Group = Group(ops: set<nat>, writes: seq<Event>)

  const EMPTY: Group := Group({}, [])

  /** An operation between begin_op and end_op, with the blocks it has logged so far. */
  datatype Active = Active(op: nat, blocks: set<nat>)

  /** `from` is the disk when the phase began, `plan` the phase's writes, `pos` how many are done. */
  datatype Phase =
    | Running
    | Committing(from: Image, plan: seq<Write>, pos: nat)
    | Recovering(from: Image, plan: seq<Write>, pos: nat)

  /** `groups` are the transactions handed to commit (less any that a crash lost), `open` the one
      being built, `completed` how many are known to be on disk. */
  datatype State = State(
    base: Image, disk: Image, mem: Memory, ops: seq<Active>, phase: Phase,
    groups: seq<Group>, open: Group, completed: nat, used: set<nat>)

  /** The writes recovery will do on `d`, none if the header cannot be read. */
  function RecoveryPlan(L: Layout, d: Image): seq<Write> {
    if L.start < |d| && HeaderFits(d[L.start]) && L.start + |Entries(d[L.start])| < |d|
    then RecoverWrites(L, d) else []
  }

  /** The writes commit will do. */
  function CommitPlan(L: Layout, d: Image, m: Memory): seq<Write> {
    if |m.lh| <= LOGSIZE && L.start + |m.lh| < |d| && |d[L.start].words| == BLOCK_WORDS
       && (forall i :: 0 <= i < |m.lh| ==> m.lh[i] in m.cache)
    then CommitWrites(L, d, m.lh, m.cache) else []
  }

  function Rebooted(L: Layout, base: Image, disk: Image, groups: seq<Group>, completed: nat, used: set<nat>): State {
    State(base, disk, Memory([], map[], 0, false), [], Recovering(disk, RecoveryPlan(L, disk), 0),
          groups, EMPTY, completed, used)
  }

  /** Power-on with disk `base`: recovery is about to run. */
  function Boot(L: Layout, base: Image): State {
    Rebooted(L, base, base, [], 0, {})
  }

  datatype Step =
    | Begin(op: nat)
    | LogWrite(i: nat, b: nat, data: Block)
    | End(i: nat)
    | DiskWrite
    | Finish
    | Crash

  /** How many groups a crash now would leave in force. */
  function Survivors(s: State): nat {
    if s.phase.Committing? && s.phase.pos <= |s.mem.lh| && |s.groups| > 0 then |s.groups| - 1 else |s.groups|
  }

  predicate Enabled(L: Layout, s: State, step: Step) {
    match step
    case Begin(op) => !s.phase.Recovering? && s.mem.Admits() && op !in s.used
    case LogWrite(i, b, _) =>
      // the caller keeps within the blocks it may log and logs home blocks only
      && i < |s.ops| && b < |s.disk| && !L.Inside(b)
      && !s.mem.TooBig(L) && |s.ops[i].blocks + {b}| <= MAXOPBLOCKS
    case End(i) => i < |s.ops| && !s.mem.committing && s.mem.outstanding > 0
    case DiskWrite => !s.phase.Running? && s.phase.pos < |s.phase.plan|
    case Finish => !s.phase.Running? && s.phase.pos == |s.phase.plan|
    case Crash => true
  }

  function DoBegin(s: State, op: nat): State {
    s.(mem := s.mem.(outstanding := s.mem.outstanding + 1), ops := s.ops + [Active(op, {})],
       open := s.open.(ops := s.open.ops + {op}), used := s.used + {op})
  }

  function DoLogWrite(s: State, i: nat, b: nat, data: Block): State
    requires i < |s.ops|
  {
    s.(mem := s.mem.Logged(b, data),
       ops := s.ops[i := s.ops[i].(blocks := s.ops[i].blocks + {b})],
       open := s.open.(writes := s.open.writes + [Event(s.ops[i].op, b, data)]))
  }

  /** The last operation out closes the transaction and starts the commit. */
  function DoEnd(L: Layout, s: State, i: nat): State
    requires i < |s.ops| && s.mem.outstanding > 0
  {
    var ops := s.ops[..i] + s.ops[i + 1..];
    var mem := s.mem.(outstanding := s.mem.outstanding - 1);
    if mem.outstanding == 0 then
      s.(ops := ops, mem := mem.(committing := true),
         phase := Committing(s.disk, CommitPlan(L, s.disk, s.mem), 0),
         groups := s.groups + [s.open], open := EMPTY)
    else s.(ops := ops, mem := mem)
  }

  function DoDiskWrite(s: State): State
    requires !s.phase.Running? && s.phase.pos < |s.phase.plan|
  {
    s.(disk := Put(s.disk, s.phase.plan[s.phase.pos]), phase := s.phase.(pos := s.phase.pos + 1))
  }

  function DoFinish(s: State): State {
    s.(mem := Memory([], map[], s.mem.outstanding, false), phase := Running, completed := |s.groups|)
  }

  function DoCrash(L: Layout, s: State): State {
    Rebooted(L, s.base, s.disk, s.groups[..Survivors(s)], s.completed, s.used)
  }

  /** A step that is not enabled changes nothing: that thread waits. */
  function Next(L: Layout, s: State, step: Step): State {
    if !Enabled(L, s, step) then s
    else
      match step
      case Begin(op) => DoBegin(s, op)
      case LogWrite(i, b, data) => DoLogWrite(s, i, b, data)
      case End(i) => DoEnd(L, s, i)
      case DiskWrite => DoDiskWrite(s)
      case Finish => DoFinish(s)
      case Crash => DoCrash(L, s)
  }

  function Exec(L: Layout, s: State, steps: seq<Step>): State {
    if steps == [] then s
    else Next(L, Exec(L, s, steps[..|steps| - 1]), steps[|steps| - 1])
  }

  // ---------- Replay: what the groups mean ----------

  function Latest(ws: seq<Event>, b: nat, before: Block): Block {
    if ws == [] then before
    else if ws[|ws| - 1].bno == b then ws[|ws| - 1].data
    else Latest(ws[..|ws| - 1], b, before)
  }

  /** Contents of block `b` once the groups have been carried out one after another. */
  function Replay(base: Image, groups: seq<Group>, b: nat): Block
    requires b < |base|
  {
    if groups == [] then base[b]
    else Latest(groups[|groups| - 1].writes, b, Replay(base, groups[..|groups| - 1], b))
  }

  // ---------- Invariant ----------

  ghost predicate LogMatches(lh: seq<nat>, cache: map<nat, Block>, ws: seq<Event>) {
    && (forall i :: 0 <= i < |lh| ==> lh[i] in cache)
    && (forall b :: b in cache ==> b in lh)
    && (forall b, before :: (b in lh ==> Latest(ws, b, before) == cache[b])
                         && (b !in lh ==> Latest(ws, b, before) == before))
  }

  /** Blocks the active operations may still add. */
  function Unused(ops: seq<Active>): int {
    if ops == [] then 0 else Unused(ops[..|ops| - 1]) + MAXOPBLOCKS - |ops[|ops| - 1].blocks|
  }

  /** Each operation is within its allowance, has its blocks in the log, and the log has room for
      what all of them may still add. */
  ghost predicate OpsOk(lh: seq<nat>, ops: seq<Active>, members: set<nat>) {
    && (forall i :: 0 <= i < |ops| ==> |ops[i].blocks| <= MAXOPBLOCKS && ops[i].op in members)
    && (forall i, b :: 0 <= i < |ops| && b in ops[i].blocks ==> b in lh)
    && (ops != [] ==> |lh| + Unused(ops) <= LOGSIZE)
  }

  /** Every operation belongs to one transaction, and logs only there. */
  ghost predicate GroupsOk(gs: seq<Group>, used: set<nat>) {
    && (forall p :: 0 <= p < |gs| ==> gs[p].ops <= used)
    && (forall p, q :: 0 <= p < q < |gs| ==> gs[p].ops !! gs[q].ops)
    && (forall p, i :: 0 <= p < |gs| && 0 <= i < |gs[p].writes| ==> gs[p].writes[i].op in gs[p].ops)
  }

  ghost predicate RunningOk(L: Layout, s: State) {
    && |s.disk| == |s.base| && Clean(L, s.disk) && !s.mem.committing && s.completed == |s.groups|
    && (s.ops == [] ==> s.mem.lh == [])
    && Loggable(L, |s.disk|, s.mem.lh) && LogMatches(s.mem.lh, s.mem.cache, s.open.writes)
    && (forall b :: 0 <= b < |s.base| && !L.Inside(b) ==> s.disk[b] == Replay(s.base, s.groups, b))
  }

  ghost predicate CommittingOk(L: Layout, s: State)
    requires s.phase.Committing?
  {
    var from, n := s.phase.from, |s.groups| - 1;
    && n >= 0 && s.completed == n && |from| == |s.base|
    && s.mem.committing && s.ops == [] && s.open == EMPTY
    && CommitReady(L, from, s.mem.lh, s.mem.cache)
    && LogMatches(s.mem.lh, s.mem.cache, s.groups[n].writes)
    && s.phase.plan == CommitWrites(L, from, s.mem.lh, s.mem.cache) && s.phase.pos <= |s.phase.plan|
    && s.disk == After(from, s.phase.plan, s.phase.pos)
    && (forall b :: 0 <= b < |s.base| && !L.Inside(b) ==> from[b] == Replay(s.base, s.groups[..n], b))
  }

  ghost predicate RecoveringOk(L: Layout, s: State)
    requires s.phase.Recovering?
  {
    var from := s.phase.from;
    && WellFormed(L, from) && |from| == |s.base| && s.completed <= |s.groups|
    && s.mem == Memory([], map[], 0, false) && s.ops == [] && s.open == EMPTY
    && s.phase.plan == RecoverWrites(L, from) && s.phase.pos <= |s.phase.plan|
    && s.disk == After(from, s.phase.plan, s.phase.pos)
    && (forall b :: 0 <= b < |s.base| && !L.Inside(b) ==> Committed(L, from, b) == Replay(s.base, s.groups, b))
  }

  ghost predicate Inv(L: Layout, s: State) {
    && |s.disk| == |s.base|
    && s.mem.outstanding == |s.ops|
    && OpsOk(s.mem.lh, s.ops, s.open.ops)
    && GroupsOk(s.groups + [s.open], s.used)
    && (match s.phase
        case Running => RunningOk(L, s)
        case Committing(_, _, _) => CommittingOk(L, s)
        case Recovering(_, _, _) => RecoveringOk(L, s))
  }

  // ---------- Every step keeps it ----------

  lemma {:induction false} UnusedBound(ops: seq<Active>)
    ensures Unused(ops) <= |ops| * MAXOPBLOCKS
  {
    if ops != [] { UnusedBound(ops[..|ops| - 1]); }
  }

  lemma {:induction false} UnusedUpdate(ops: seq<Active>, i: nat, a: Active)
    requires i < |ops|
    ensures Unused(ops[i := a]) == Unused(ops) + |ops[i].blocks| - |a.blocks|
  {
    var n := |ops| - 1;
    if i == n {
      assert ops[i := a][..n] == ops[..n];
    } else {
      UnusedUpdate(ops[..n], i, a);
      assert ops[i := a][..n] == ops[..n][i := a];
    }
  }

  lemma {:induction false} UnusedRemove(ops: seq<Active>, i: nat)
    requires i < |ops|
    ensures Unused(ops[..i] + ops[i + 1..]) == Unused(ops) - MAXOPBLOCKS + |ops[i].blocks|
  {
    var n := |ops| - 1;
    var rest := ops[..i] + ops[i + 1..];
    if i == n {
      assert rest == ops[..n];
    } else {
      UnusedRemove(ops[..n], i);
      assert rest[..|rest| - 1] == ops[..n][..i] + ops[..n][i + 1..];
      assert rest[|rest| - 1] == ops[n];
    }
  }

  lemma OpsBegin(lh: seq<nat>, ops: seq<Active>, members: set<nat>, op: nat)
    requires OpsOk(lh, ops, members) && |lh| + (|ops| + 1) * MAXOPBLOCKS <= LOGSIZE
    ensures OpsOk(lh, ops + [Active(op, {})], members + {op})
  {
    UnusedBound(ops);
    assert (ops + [Active(op, {})])[..|ops|] == ops;
  }

  lemma OpsWrite(lh: seq<nat>, ops: seq<Active>, members: set<nat>, i: nat, b: nat, a: Active, now: seq<nat>)
    requires OpsOk(lh, ops, members) && i < |ops| && |ops[i].blocks + {b}| <= MAXOPBLOCKS
    requires a == ops[i].(blocks := ops[i].blocks + {b})
    requires now == if b in lh then lh else lh + [b]
    ensures OpsOk(now, ops[i := a], members)
  {
    UnusedUpdate(ops, i, a);
    assert forall x :: x in lh ==> x in now;
    assert b in now;
    if b in ops[i].blocks {
      assert a.blocks == ops[i].blocks;
    }
  }

  lemma OpsEnd(lh: seq<nat>, ops: seq<Active>, members: set<nat>, i: nat)
    requires OpsOk(lh, ops, members) && i < |ops|
    ensures OpsOk(lh, ops[..i] + ops[i + 1..], members)
  {
    UnusedRemove(ops, i);
    var rest := ops[..i] + ops[i + 1..];
    assert forall j :: 0 <= j < |rest| ==> rest[j] == ops[if j < i then j else j + 1];
  }

  lemma BeginKeeps(L: Layout, s: State, op: nat)
    requires Inv(L, s) && Enabled(L, s, Begin(op))
    ensures Inv(L, DoBegin(s, op))
  {
    OpsBegin(s.mem.lh, s.ops, s.open.ops, op);
    GroupsBegin(s.groups, s.open, s.used, op);
  }

  lemma GroupsBegin(gs: seq<Group>, open: Group, used: set<nat>, op: nat)
    requires GroupsOk(gs + [open], used) && op !in used
    ensures GroupsOk(gs + [open.(ops := open.ops + {op})], used + {op})
  {
    var a, b := gs + [open], gs + [open.(ops := open.ops + {op})];
    assert forall p :: 0 <= p < |gs| ==> b[p] == a[p];
    assert a[|gs|] == open && b[|gs|] == open.(ops := open.ops + {op});
  }

  lemma GroupsWrite(gs: seq<Group>, open: Group, used: set<nat>, e: Event)
    requires GroupsOk(gs + [open], used) && e.op in open.ops
    ensures GroupsOk(gs + [open.(writes := open.writes + [e])], used)
  {
    var a, b := gs + [open], gs + [open.(writes := open.writes + [e])];
    assert forall p :: 0 <= p < |gs| ==> b[p] == a[p];
    assert a[|gs|] == open && b[|gs|] == open.(writes := open.writes + [e]);
    assert b[|gs|].ops == a[|gs|].ops;
  }

  lemma LogMatchesWrite(m: Memory, ws: seq<Event>, e: Event)
    requires LogMatches(m.lh, m.cache, ws)
    ensures LogMatches(m.Logged(e.bno, e.data).lh, m.Logged(e.bno, e.data).cache, ws + [e])
  {
    assert (ws + [e])[..|ws|] == ws;
    var n := m.Logged(e.bno, e.data);
    assert forall b :: b in n.lh <==> b in m.lh || b == e.bno;
  }

  lemma WriteKeepsRunning(L: Layout, s: State, i: nat, b: nat, data: Block)
    requires Inv(L, s) && Enabled(L, s, LogWrite(i, b, data))
    ensures DoLogWrite(s, i, b, data).phase.Running? && RunningOk(L, DoLogWrite(s, i, b, data))
  {
    LogMatchesWrite(s.mem, s.open.writes, Event(s.ops[i].op, b, data));
  }

  lemma WriteKeeps(L: Layout, s: State, i: nat, b: nat, data: Block)
    requires Inv(L, s) && Enabled(L, s, LogWrite(i, b, data))
    ensures Inv(L, DoLogWrite(s, i, b, data))
  {
    var t := DoLogWrite(s, i, b, data);
    OpsWrite(s.mem.lh, s.ops, s.open.ops, i, b, t.ops[i], t.mem.lh);
    WriteKeepsRunning(L, s, i, b, data);
    GroupsWrite(s.groups, s.open, s.used, Event(s.ops[i].op, b, data));
  }

  /** The last operation out closes the group and starts its commit on a clean disk. */
  lemma LastEndStartsCommit(L: Layout, s: State, i: nat)
    requires Inv(L, s) && Enabled(L, s, End(i)) && |s.ops| == 1
    ensures DoEnd(L, s, i).phase.Committing? && CommittingOk(L, DoEnd(L, s, i))
  {
    assert (s.groups + [s.open])[..|s.groups|] == s.groups;
  }

  lemma EndKeeps(L: Layout, s: State, i: nat)
    requires Inv(L, s) && Enabled(L, s, End(i))
    ensures Inv(L, DoEnd(L, s, i))
  {
    OpsEnd(s.mem.lh, s.ops, s.open.ops, i);
    if |s.ops| == 1 {
      LastEndStartsCommit(L, s, i);
      GroupsClose(s.groups, s.open, s.used);
    }
  }

  lemma GroupsClose(gs: seq<Group>, open: Group, used: set<nat>)
    requires GroupsOk(gs + [open], used)
    ensures GroupsOk(gs + [open] + [EMPTY], used)
  {
    var a, b := gs + [open], gs + [open] + [EMPTY];
    assert forall p :: 0 <= p < |a| ==> b[p] == a[p];
    assert b[|a|] == EMPTY;
  }

  lemma DiskWriteKeeps(L: Layout, s: State)
    requires Inv(L, s) && Enabled(L, s, DiskWrite)
    ensures Inv(L, DoDiskWrite(s))
  {
  }

  /** A committed transaction extends the replay by exactly its group. */
  lemma ReplayLast(L: Layout, s: State, b: nat)
    requires Inv(L, s) && s.phase.Committing? && b < |s.base| && !L.Inside(b)
    ensures Overlaid(s.phase.from, s.mem.lh, s.mem.cache, b) == Replay(s.base, s.groups, b)
  {
  }

  lemma FinishKeeps(L: Layout, s: State)
    requires Inv(L, s) && Enabled(L, s, Finish)
    ensures Inv(L, DoFinish(s))
  {
    if s.phase.Committing? {
      CommitInstalls(L, s.phase.from, s.mem.lh, s.mem.cache, s.phase.pos, s.disk);
      forall b | 0 <= b < |s.base| && !L.Inside(b) ensures s.disk[b] == Replay(s.base, s.groups, b) {
        ReplayLast(L, s, b);
      }
    } else {
      RecoveryInstalls(L, s.phase.from);
    }
  }

  /** In every phase the disk commits to the replay of the groups a crash would leave. */
  lemma DiskHoldsSurvivors(L: Layout, s: State)
    requires Inv(L, s)
    ensures WellFormed(L, s.disk) && s.completed <= Survivors(s) <= |s.groups|
    ensures forall b :: 0 <= b < |s.base| && !L.Inside(b) ==>
              Committed(L, s.disk, b) == Replay(s.base, s.groups[..Survivors(s)], b)
  {
    assert s.groups[..|s.groups|] == s.groups;
    match s.phase
    case Running =>
    case Recovering(from, _, pos) =>
      RecoveryPrefixKeeps(L, from, pos);
    case Committing(from, _, pos) =>
      CommitPrefixAtomic(L, from, s.mem.lh, s.mem.cache, pos, s.disk);
      forall b | 0 <= b < |s.base| && !L.Inside(b)
        ensures Overlaid(from, s.mem.lh, s.mem.cache, b) == Replay(s.base, s.groups, b) {
        ReplayLast(L, s, b);
      }
  }

  lemma CrashKeeps(L: Layout, s: State)
    requires Inv(L, s)
    ensures Inv(L, DoCrash(L, s))
  {
    DiskHoldsSurvivors(L, s);
    var t := DoCrash(L, s);
    assert forall p :: 0 <= p < |t.groups| ==> (t.groups + [EMPTY])[p] == (s.groups + [s.open])[p];
  }

  lemma NextKeeps(L: Layout, s: State, step: Step)
    requires Inv(L, s)
    ensures Inv(L, Next(L, s, step))
  {
    if Enabled(L, s, step) {
      match step
      case Begin(op) => BeginKeeps(L, s, op);
      case LogWrite(i, b, data) => WriteKeeps(L, s, i, b, data);
      case End(i) => EndKeeps(L, s, i);
      case DiskWrite => DiskWriteKeeps(L, s);
      case Finish => FinishKeeps(L, s);
      case Crash => CrashKeeps(L, s);
    }
  }

  lemma {:induction false} ExecKeeps(L: Layout, base: Image, steps: seq<Step>)
    requires Clean(L, base)
    ensures Inv(L, Exec(L, Boot(L, base), steps))
  {
    if steps == [] {
    } else {
      ExecKeeps(L, base, steps[..|steps| - 1]);
      NextKeeps(L, Exec(L, Boot(L, base), steps[..|steps| - 1]), steps[|steps| - 1]);
    }
  }

  // ---------- What holds in every reachable state ----------

  /** Recovering the disk of any reachable state gives the replay of a prefix of the groups, one
      that contains every group whose commit completed. */
  lemma RecoveredIsPrefix(L: Layout, base: Image, steps: seq<Step>)
    requires Clean(L, base)
    ensures var s := Exec(L, Boot(L, base), steps);
      && WellFormed(L, s.disk) && s.base == base && |s.disk| == |base|
      && s.completed <= Survivors(s) <= |s.groups|
      && forall b :: 0 <= b < |base| && !L.Inside(b) ==>
           Recovered(L, s.disk)[b] == Replay(base, s.groups[..Survivors(s)], b)
  {
    ExecKeeps(L, base, steps);
    ExecBase(L, base, steps);
    var s := Exec(L, Boot(L, base), steps);
    DiskHoldsSurvivors(L, s);
    RecoveryInstalls(L, s.disk);
  }

  lemma {:induction false} ExecBase(L: Layout, base: Image, steps: seq<Step>)
    ensures Exec(L, Boot(L, base), steps).base == base
  {
    if steps != [] { ExecBase(L, base, steps[..|steps| - 1]); }
  }

  /** The groups complete in `s` are complete, and unchanged, in `t`. */
  ghost predicate Extends(s: State, t: State) {
    && s.completed <= |s.groups| && s.completed <= t.completed <= |t.groups|
    && s.groups[..s.completed] == t.groups[..s.completed]
  }

  lemma ExtendsTrans(s: State, t: State, u: State)
    requires Extends(s, t) && Extends(t, u)
    ensures Extends(s, u)
  {
    assert s.groups[..s.completed] == t.groups[..t.completed][..s.completed] == u.groups[..t.completed][..s.completed];
  }

  lemma CompletedBound(L: Layout, s: State)
    requires Inv(L, s)
    ensures s.completed <= Survivors(s) <= |s.groups|
  {
  }

  lemma NextExtends(L: Layout, s: State, step: Step)
    requires Inv(L, s)
    ensures Extends(s, Next(L, s, step))
  {
    CompletedBound(L, s);
    NextKeeps(L, s, step);
    CompletedBound(L, Next(L, s, step));
  }

  lemma {:induction false} ExecExtends(L: Layout, s: State, more: seq<Step>)
    requires Inv(L, s)
    ensures Inv(L, Exec(L, s, more)) && Extends(s, Exec(L, s, more))
  {
    if more == [] {
      DiskHoldsSurvivors(L, s);
    } else {
      var t := Exec(L, s, more[..|more| - 1]);
      var step := more[|more| - 1];
      ExecExtends(L, s, more[..|more| - 1]);
      NextExtends(L, t, step);
      NextKeeps(L, t, step);
      ExtendsTrans(s, t, Next(L, t, step));
    }
  }

  /** A completed group is never lost or changed, whatever happens later. */
  lemma CompletedStays(L: Layout, base: Image, steps: seq<Step>, more: seq<Step>)
    requires Clean(L, base)
    ensures Extends(Exec(L, Boot(L, base), steps), Exec(L, Exec(L, Boot(L, base), steps), more))
  {
    ExecKeeps(L, base, steps);
    ExecExtends(L, Exec(L, Boot(L, base), steps), more);
  }

  /** All that one operation logs is in one transaction, so it survives a crash whole or not at all. */
  lemma OperationInOneGroup(L: Layout, base: Image, steps: seq<Step>, p: nat, q: nat, i: nat, j: nat)
    requires Clean(L, base)
    requires var gs := Exec(L, Boot(L, base), steps).groups + [Exec(L, Boot(L, base), steps).open];
      p < |gs| && q < |gs| && i < |gs[p].writes| && j < |gs[q].writes| && gs[p].writes[i].op == gs[q].writes[j].op
    ensures p == q
  {
    ExecKeeps(L, base, steps);
  }

  /** While any operation is inside a transaction no commit is under way: end_op never panics,
      commit runs alone, and no operation is admitted during it. */
  lemma CommitRunsAlone(L: Layout, base: Image, steps: seq<Step>)
    requires Clean(L, base)
    ensures var s := Exec(L, Boot(L, base), steps);
      && (s.mem.committing <==> s.phase.Committing?)
      && (s.mem.committing ==> s.mem.outstanding == 0 && s.ops == [] && !s.mem.Admits())
      && (forall i :: 0 <= i < |s.ops| ==> Enabled(L, s, End(i)))
  {
    ExecKeeps(L, base, steps);
  }

  /** Outside commit, reading through the cache shows every group and the open transaction. */
  lemma ReadsSeeLatest(L: Layout, base: Image, steps: seq<Step>, b: nat)
    requires Clean(L, base) && b < |base| && !L.Inside(b)
    requires Exec(L, Boot(L, base), steps).phase.Running?
    ensures var s := Exec(L, Boot(L, base), steps);
      |s.disk| == |base| &&
      Replay(base, s.groups + [s.open], b) == if b in s.mem.cache then s.mem.cache[b] else s.disk[b]
  {
    ExecKeeps(L, base, steps);
    ExecBase(L, base, steps);
    var s := Exec(L, Boot(L, base), steps);
    assert (s.groups + [s.open])[..|s.groups|] == s.groups;
  }

  // ---------- Log space ----------

  /** Operation `i` calls log_write for a home block, within its allowance: a block that is new to it, or
      one it has logged before. */
  ghost predicate Asks(L: Layout, s: State, i: nat, b: nat) {
    i < |s.ops| && b < |s.disk| && !L.Inside(b) && |s.ops[i].blocks + {b}| <= MAXOPBLOCKS
  }

  /** Operation `i` may still log a block that is new to it. */
  predicate HasRoom(s: State, i: nat) { i < |s.ops| && |s.ops[i].blocks| < MAXOPBLOCKS }

  /** The reservation: entries in the log plus what active operations may still add fit LOGSIZE, so an
      operation with allowance left always finds the in-memory header below LOGSIZE. */
  lemma ReservationHolds(L: Layout, base: Image, steps: seq<Step>, i: nat)
    requires Clean(L, base) && i < |Exec(L, Boot(L, base), steps).ops|
    ensures var s := Exec(L, Boot(L, base), steps);
      |s.mem.lh| + Unused(s.ops) <= LOGSIZE && (HasRoom(s, i) ==> |s.mem.lh| < LOGSIZE)
  {
    ExecKeeps(L, base, steps);
    var s := Exec(L, Boot(L, base), steps);
    UnusedAtLeast(s.ops, i);
  }

  lemma {:induction false} UnusedAtLeast(ops: seq<Active>, i: nat)
    requires i < |ops| && forall j :: 0 <= j < |ops| ==> |ops[j].blocks| <= MAXOPBLOCKS
    ensures Unused(ops) >= MAXOPBLOCKS - |ops[i].blocks|
    ensures Unused(ops) >= 0
  {
    var n := |ops| - 1;
    if i < n {
      UnusedAtLeast(ops[..n], i);
    } else if n > 0 {
      UnusedAtLeast(ops[..n], 0);
    }
  }

  /** An operation with allowance left is never stopped, whether it logs a new block or one again. */
  ghost predicate NeverTooBig(L: Layout, base: Image) {
    forall steps: seq<Step>, i: nat ::
      HasRoom(Exec(L, Boot(L, base), steps), i) ==> !Exec(L, Boot(L, base), steps).mem.TooBig(L)
  }

  /** The `j`-th home block after the log. */
  function Home(L: Layout, j: nat): nat { L.start + L.size + j }

  /** The state once recovery has run and `n` operations have started. */
  function Begun(L: Layout, base: Image, n: nat): State {
    if n == 0 then Next(L, Next(L, Boot(L, base), DiskWrite), Finish)
    else Next(L, Begun(L, base, n - 1), Begin(n - 1))
  }

  /** The `m`-th block goes to the operations in turn, ten blocks each. */
  function Fill(L: Layout, m: nat): Step {
    LogWrite(m / MAXOPBLOCKS, Home(L, m), Block([]))
  }

  /** The state once three operations have together logged `m` different blocks. */
  function Filled(L: Layout, base: Image, m: nat): State {
    if m == 0 then Begun(L, base, 3) else Next(L, Filled(L, base, m - 1), Fill(L, m - 1))
  }

  lemma ExecSnoc(L: Layout, s: State, steps: seq<Step>, step: Step)
    ensures Exec(L, s, steps + [step]) == Next(L, Exec(L, s, steps), step)
  {
    assert (steps + [step])[..|steps|] == steps;
  }

  lemma {:induction false} BegunReached(L: Layout, base: Image, n: nat) returns (steps: seq<Step>)
    ensures Exec(L, Boot(L, base), steps) == Begun(L, base, n)
  {
    if n == 0 {
      ExecSnoc(L, Boot(L, base), [], DiskWrite);
      ExecSnoc(L, Boot(L, base), [] + [DiskWrite], Finish);
      steps := [] + [DiskWrite] + [Finish];
    } else {
      steps := BegunReached(L, base, n - 1);
      ExecSnoc(L, Boot(L, base), steps, Begin(n - 1));
      steps := steps + [Begin(n - 1)];
    }
  }

  lemma {:induction false} FilledReached(L: Layout, base: Image, m: nat) returns (steps: seq<Step>)
    ensures Exec(L, Boot(L, base), steps) == Filled(L, base, m)
  {
    if m == 0 {
      steps := BegunReached(L, base, 3);
    } else {
      steps := FilledReached(L, base, m - 1);
      ExecSnoc(L, Boot(L, base), steps, Fill(L, m - 1));
      steps := steps + [Fill(L, m - 1)];
    }
  }

  ghost predicate BegunOk(s: State, disk: nat, n: nat) {
    && s.phase.Running? && s.mem == Memory([], map[], n, false) && |s.ops| == n && |s.disk| == disk
    && (forall i :: 0 <= i < n ==> s.ops[i].blocks == {})
    && (forall op :: op in s.used ==> op < n)
  }

  lemma BootRuns(L: Layout, base: Image)
    requires Clean(L, base)
    ensures BegunOk(Begun(L, base, 0), |base|, 0)
  {
    var s := Next(L, Boot(L, base), DiskWrite);
    assert Enabled(L, s, Finish);
  }

  lemma {:induction false} BegunHolds(L: Layout, base: Image, n: nat)
    requires Clean(L, base) && n <= 3
    ensures BegunOk(Begun(L, base, n), |base|, n)
  {
    if n == 0 {
      BootRuns(L, base);
    } else {
      BegunHolds(L, base, n - 1);
    }
  }

  /** Share of `m` blocks that falls to operation `i`. */
  function Share(m: nat, i: nat): nat {
    if m <= MAXOPBLOCKS * i then 0 else if m >= MAXOPBLOCKS * (i + 1) then MAXOPBLOCKS else m - MAXOPBLOCKS * i
  }

  ghost predicate FilledOk(L: Layout, s: State, disk: nat, m: nat) {
    && |s.disk| == disk
    && !s.mem.committing && s.phase.Running? && |s.mem.lh| == m && s.mem.outstanding == 3 && |s.ops| == 3
    && (forall b :: b in s.mem.lh ==> b < Home(L, m))
    && (forall i ::
        0 <= i < 3 ==> |s.ops[i].blocks| == Share(m, i) && forall b :: b in s.ops[i].blocks ==> b < Home(L, m))
  }

  lemma FillKeeps(L: Layout, s: State, disk: nat, m: nat)
    requires FilledOk(L, s, disk, m) && m + 1 < L.size && m < LOGSIZE && Home(L, m) < disk
    ensures FilledOk(L, Next(L, s, Fill(L, m)), disk, m + 1)
  {
    var i, b := m / MAXOPBLOCKS, Home(L, m);
    var t := Next(L, s, Fill(L, m));
    assert b !in s.ops[i].blocks && b !in s.mem.lh;
    assert |s.ops[i].blocks + {b}| == |s.ops[i].blocks| + 1;
    assert Enabled(L, s, Fill(L, m));
    assert forall x :: x in t.mem.lh ==> x in s.mem.lh || x == b;
  }

  lemma {:induction false} FilledHolds(L: Layout, base: Image, m: nat, s: State)
    requires Clean(L, base) && m < L.size && m <= LOGSIZE && Home(L, m) <= |base|
    requires s == Filled(L, base, m)
    ensures FilledOk(L, s, |base|, m)
  {
    if m == 0 {
      BegunHolds(L, base, 3);
    } else {
      var before := Filled(L, base, m - 1);
      FilledHolds(L, base, m - 1, before);
      FillKeeps(L, before, |base|, m - 1);
      assert s == Next(L, before, Fill(L, m - 1));
    }
  }

  /** Operations with allowance left are never stopped, exactly when the log region has room for LOGSIZE
      copies and a header.  mkfs makes it LOGSIZE blocks in all, so there it fails. */
  lemma NeverTooBigIff(L: Layout, base: Image)
    requires Clean(L, base) && Home(L, LOGSIZE) <= |base|
    ensures NeverTooBig(L, base) <==> L.size > LOGSIZE
  {
    if L.size > LOGSIZE {
      forall steps: seq<Step>, i: nat | HasRoom(Exec(L, Boot(L, base), steps), i)
        ensures !Exec(L, Boot(L, base), steps).mem.TooBig(L) {
        ReservationHolds(L, base, steps, i);
      }
    } else {
      var m := L.size - 1;
      FilledHolds(L, base, m, Filled(L, base, m));
      var steps := FilledReached(L, base, m);
      var s := Exec(L, Boot(L, base), steps);
      assert HasRoom(s, m / MAXOPBLOCKS);
      assert s.mem.TooBig(L);
    }
  }

  /** With a log that long, the guard stops a log_write exactly when the header is full, and then every
      operation has spent its allowance: only blocks that are logged already can be asked for. */
  lemma StopsWhenSpent(L: Layout, base: Image, steps: seq<Step>, i: nat, b: nat)
    requires Clean(L, base) && L.size > LOGSIZE && Asks(L, Exec(L, Boot(L, base), steps), i, b)
    ensures var s := Exec(L, Boot(L, base), steps);
            && (s.mem.TooBig(L) <==> |s.mem.lh| == LOGSIZE)
            && (s.mem.TooBig(L) ==> b in s.ops[i].blocks && b in s.mem.lh
                                    && forall j :: 0 <= j < |s.ops| ==> !HasRoom(s, j))
  {
    var s := Exec(L, Boot(L, base), steps);
    ExecKeeps(L, base, steps);
    ReservationHolds(L, base, steps, i);
    if s.mem.TooBig(L) {
      forall j | 0 <= j < |s.ops| ensures !HasRoom(s, j) {
        ReservationHolds(L, base, steps, j);
      }
      Again(s.ops[i].blocks, b);
    }
    UnusedAtLeast(s.ops, i);
  }

  lemma Again(blocks: set<nat>, b: nat)
    ensures |blocks| >= MAXOPBLOCKS && |blocks + {b}| <= MAXOPBLOCKS ==> b in blocks
  {
    if b !in blocks { assert |blocks + {b}| == |blocks| + 1; }
  }

  /** However long the log, it does stop one: the guard comes before the search for a block that is
      logged already, so logging such a block again stops the kernel when the header is full. */
  lemma RepeatStops(L: Layout, base: Image)
    requires Clean(L, base) && L.size > LOGSIZE && Home(L, LOGSIZE) <= |base|
    ensures exists steps: seq<Step>, i: nat, b: nat ::
              var s := Exec(L, Boot(L, base), steps);
              Asks(L, s, i, b) && b in s.ops[i].blocks && s.mem.outstanding > 0 && s.mem.TooBig(L)
  {
    FilledHolds(L, base, LOGSIZE, Filled(L, base, LOGSIZE));
    var steps := FilledReached(L, base, LOGSIZE);
    ExecKeeps(L, base, steps);
    var s := Exec(L, Boot(L, base), steps);
    var blocks := s.ops[0].blocks;
    assert |blocks| == MAXOPBLOCKS;
    var b: nat :| b in blocks;
    assert blocks + {b} == blocks && b in s.mem.lh;
    assert Asks(L, s, 0, b);
  }

  // ---------- What has ended is on disk ----------

  /** The rest of a commit, or of a recovery, done without interruption. */
  function Rest(s: State): seq<Step> {
    if s.phase.Running? || s.phase.pos > |s.phase.plan| then []
    else seq(|s.phase.plan| - s.phase.pos, _ => DiskWrite) + [Finish]
  }

  lemma {:induction false} WritesOn(L: Layout, s: State, k: nat)
    requires !s.phase.Running? && s.phase.pos + k <= |s.phase.plan|
    ensures var t := Exec(L, s, seq(k, _ => DiskWrite));
            t.phase == s.phase.(pos := s.phase.pos + k) && t == s.(disk := t.disk, phase := t.phase)
  {
    if k > 0 {
      WritesOn(L, s, k - 1);
      assert seq(k, _ => DiskWrite)[..k - 1] == seq(k - 1, _ => DiskWrite);
    }
  }

  /** A commit or a recovery that is let run ends, with all its groups on disk. */
  lemma RestFinishes(L: Layout, s: State)
    requires Inv(L, s) && !s.phase.Running?
    ensures var t := Exec(L, s, Rest(s));
            && Inv(L, t) && t.phase.Running? && t.groups == s.groups && t.completed == |s.groups| && t.base == s.base
            && |t.disk| == |t.base|
            && forall b :: 0 <= b < |t.base| && !L.Inside(b) ==> t.disk[b] == Replay(t.base, t.groups, b)
  {
    hide Inv, Exec, Replay, Next;
    AtMostPlan(L, s);
    var n := |s.phase.plan| - s.phase.pos;
    var writes := seq(n, _ => DiskWrite);
    WritesOn(L, s, n);
    ExecInv(L, s, writes);
    ExecSnoc(L, s, writes, Finish);
    FinishIs(L, Exec(L, s, writes));
    NextKeeps(L, Exec(L, s, writes), Finish);
    RunningShows(L, Next(L, Exec(L, s, writes), Finish));
  }

  lemma AtMostPlan(L: Layout, s: State)
    requires Inv(L, s) && !s.phase.Running?
    ensures s.phase.pos <= |s.phase.plan|
  {
  }

  lemma FinishIs(L: Layout, s: State)
    requires !s.phase.Running? && s.phase.pos == |s.phase.plan|
    ensures Next(L, s, Finish) == DoFinish(s)
  {
  }

  lemma RunningShows(L: Layout, s: State)
    requires Inv(L, s) && s.phase.Running?
    ensures |s.disk| == |s.base|
    ensures forall b :: 0 <= b < |s.base| && !L.Inside(b) ==> s.disk[b] == Replay(s.base, s.groups, b)
  {
  }

  lemma {:induction false} ExecInv(L: Layout, s: State, steps: seq<Step>)
    requires Inv(L, s)
    ensures Inv(L, Exec(L, s, steps))
  {
    if steps != [] {
      ExecInv(L, s, steps[..|steps| - 1]);
      NextKeeps(L, Exec(L, s, steps[..|steps| - 1]), steps[|steps| - 1]);
    }
  }

  /** When the last outstanding operation ends and its commit is let run, the transaction it closes is on
      disk, every home block reads from the disk as the transactions left it, and no crash undoes it. */
  lemma LastEndDurable(L: Layout, base: Image, steps: seq<Step>, more: seq<Step>)
    requires Clean(L, base) && Exec(L, Boot(L, base), steps).phase.Running?
    requires |Exec(L, Boot(L, base), steps).ops| == 1
    ensures var s := Exec(L, Boot(L, base), steps);
            var e := Next(L, s, End(0));
            var t := Exec(L, e, Rest(e));
            && t.phase.Running? && t.completed == |t.groups| && t.groups == s.groups + [s.open]
            && |t.disk| == |base|
            && (forall b :: 0 <= b < |base| && !L.Inside(b) ==> t.disk[b] == Replay(base, t.groups, b))
            && Extends(t, Exec(L, t, more))
  {
    hide Inv;
    var s := Exec(L, Boot(L, base), steps);
    ExecKeeps(L, base, steps);
    ExecBase(L, base, steps);
    EndEnabled(L, s);
    var e := Next(L, s, End(0));
    NextKeeps(L, s, End(0));
    RestFinishes(L, e);
    ExecExtends(L, Exec(L, e, Rest(e)), more);
  }

  lemma EndEnabled(L: Layout, s: State)
    requires Inv(L, s) && s.phase.Running? && |s.ops| == 1
    ensures var e := Next(L, s, End(0));
            Enabled(L, s, End(0)) && e.phase.Committing? && e.groups == s.groups + [s.open] && e.base == s.base
  {
  }
}
