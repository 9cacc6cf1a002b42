/** Requests over every run of the driver and the device: each is carried out once, and what it was
    asked to move has been moved.  The methods of the driver and the device are these moves. */
module DiskRuns {
  import opened Virtio

  ghost function Next(s: Life, m: Move): Life { if Enabled(s, m) then Step(s, m) else s }

  ghost function After(s: Life, ms: seq<Move>): Life
    decreases |ms|
  {
    if ms == [] then s else Next(After(s, ms[..|ms| - 1]), ms[|ms| - 1])
  }

  /** Every move of the run could be made. */
  ghost predicate Legal(s: Life, ms: seq<Move>)
    decreases |ms|
  {
    ms == [] || (Legal(s, ms[..|ms| - 1]) && Enabled(After(s, ms[..|ms| - 1]), ms[|ms| - 1]))
  }

  /** The moves of the request at head `h`. */
  function Mine(ms: seq<Move>, h: nat): seq<Move>
    decreases |ms|
  {
    if ms == [] then []
    else
      var m := ms[|ms| - 1];
      Mine(ms[..|ms| - 1], h) + if !m.Fill? && m.h == h then [m] else []
  }

  // ---------- Requests and their buffers ----------

  /** No two requests are for the same buffer, and each is for a block and a buffer there are. */
  ghost predicate Sound(s: Life) {
    && (forall g, h :: g in s.reqs && h in s.reqs && s.reqs[g].b == s.reqs[h].b ==> g == h)
    && (forall h :: h in s.reqs ==> s.reqs[h].op.block < |s.blocks| && s.reqs[h].b in s.data)
  }

  lemma StepSound(s: Life, m: Move)
    requires Sound(s) && Enabled(s, m)
    ensures Sound(Step(s, m))
  {
  }

  /** What a move of another request, or of a buffer in none, leaves alone. */
  lemma OtherMove(s: Life, m: Move, h: nat)
    requires Sound(s) && Enabled(s, m) && h in s.reqs && (m.Fill? || m.h != h)
    ensures var t := Step(s, m);
            h in t.reqs && t.reqs[h] == s.reqs[h] && |t.blocks| == |s.blocks|
            && s.reqs[h].b in s.data && s.reqs[h].b in t.data && t.data[s.reqs[h].b] == s.data[s.reqs[h].b]
  {
  }

  // ---------- One request ----------

  /** Move `k` carried the request out, and the data went where it should: with status 0 a write put the
      buffer's content at the start of the run into the block, and a read put the content the block had
      then into the buffer, where it still is. */
  ghost predicate CarriedAt(s: Life, ms: seq<Move>, h: nat, r: Req, k: nat) {
    && k < |ms| && ms[k].Carry? && ms[k].h == h
    && var t, before, after := After(s, ms), After(s, ms[..k]), After(s, ms[..k + 1]);
    && h in t.reqs && t.reqs[h].status == ms[k].status
    && r.op.block < |before.blocks| && r.op.block < |after.blocks| && r.b in s.data && r.b in t.data
    && (ms[k].status == 0 ==>
          if r.op.write then after.blocks[r.op.block] == s.data[r.b] == t.data[r.b]
          else t.data[r.b] == before.blocks[r.op.block])
  }

  /** Where the request stands after a run, and which moves brought it there. */
  ghost predicate Stands(s: Life, ms: seq<Move>, h: nat, r: Req) {
    var t := After(s, ms);
    && Sound(t) && h in t.reqs && t.reqs[h].b == r.b && t.reqs[h].op == r.op && r.b in s.data && r.b in t.data
    && (t.reqs[h].phase == Queued ==> Mine(ms, h) == [] && t.data[r.b] == s.data[r.b])
    && (t.reqs[h].phase == Taken ==> Mine(ms, h) == [Take(h)] && t.data[r.b] == s.data[r.b])
    && (t.reqs[h].phase == Done ==>
        exists k: nat :: k < |ms| && CarriedAt(s, ms, h, r, k) && Mine(ms, h) == [Take(h), ms[k]])
    && (t.reqs[h].phase == Seen ==>
          t.reqs[h].status == 0 && exists k: nat ::
              k < |ms| && CarriedAt(s, ms, h, r, k) && Mine(ms, h) == [Take(h), ms[k], See(h)])
  }

  /** Once carried out, the request's buffer keeps what it has. */
  lemma StaysCarried(s: Life, ms: seq<Move>, less: seq<Move>, h: nat, r: Req, k: nat)
    requires ms != [] && less == ms[..|ms| - 1] && CarriedAt(s, less, h, r, k)
    requires var t, n := After(s, less), After(s, ms);
             h in n.reqs && n.reqs[h].status == t.reqs[h].status && r.b in n.data && n.data[r.b] == t.data[r.b]
    ensures CarriedAt(s, ms, h, r, k) && ms[k] == less[k]
  {
    hide After;
    assert less[..k] == ms[..k] && less[..k + 1] == ms[..k + 1] && ms[k] == less[k];
  }

  /** The last move of a run, and the moves of one request. */
  lemma LastMove(s: Life, ms: seq<Move>, less: seq<Move>, m: Move, h: nat)
    requires ms != [] && less == ms[..|ms| - 1] && m == ms[|ms| - 1] && Legal(s, ms)
    ensures Legal(s, less) && Enabled(After(s, less), m) && After(s, ms) == Step(After(s, less), m)
    ensures Mine(ms, h) == Mine(less, h) + if !m.Fill? && m.h == h then [m] else []
  {
    hide Enabled, Step;
  }

  lemma StandsOther(s: Life, ms: seq<Move>, less: seq<Move>, m: Move, h: nat, r: Req)
    requires ms != [] && less == ms[..|ms| - 1] && m == ms[|ms| - 1] && Legal(s, ms)
    requires Stands(s, less, h, r) && (m.Fill? || m.h != h)
    ensures Stands(s, ms, h, r)
  {
    hide After, Legal, Step, CarriedAt, Mine, Sound, Enabled;
    var t := After(s, less);
    LastMove(s, ms, less, m, h);
    StepSound(t, m);
    OtherMove(t, m, h);
    assert Mine(ms, h) == Mine(less, h);
    if t.reqs[h].phase == Done || t.reqs[h].phase == Seen {
      var k: nat :| k < |less| && CarriedAt(s, less, h, r, k)
                    && Mine(less, h) == [Take(h), less[k]] + if t.reqs[h].phase == Seen then [See(h)] else [];
      StaysCarried(s, ms, less, h, r, k);
    }
  }

  lemma StandsTake(s: Life, ms: seq<Move>, less: seq<Move>, m: Move, h: nat, r: Req)
    requires ms != [] && less == ms[..|ms| - 1] && m == ms[|ms| - 1] && Legal(s, ms)
    requires Stands(s, less, h, r) && m == Take(h)
    ensures Stands(s, ms, h, r)
  {
    hide After, Legal, CarriedAt, Mine, Sound;
    LastMove(s, ms, less, m, h);
    StepSound(After(s, less), m);
  }

  lemma StandsCarry(s: Life, ms: seq<Move>, less: seq<Move>, m: Move, h: nat, r: Req)
    requires ms != [] && less == ms[..|ms| - 1] && m == ms[|ms| - 1] && Legal(s, ms)
    requires Stands(s, less, h, r) && m.Carry? && m.h == h
    ensures Stands(s, ms, h, r)
  {
    hide After, Legal, Mine, Sound;
    LastMove(s, ms, less, m, h);
    StepSound(After(s, less), m);
    assert ms[..|less|] == less && ms[..|less| + 1] == ms && ms[|less|] == m;
    assert CarriedAt(s, ms, h, r, |less|);
  }

  lemma StandsSee(s: Life, ms: seq<Move>, less: seq<Move>, m: Move, h: nat, r: Req)
    requires ms != [] && less == ms[..|ms| - 1] && m == ms[|ms| - 1] && Legal(s, ms)
    requires Stands(s, less, h, r) && m == See(h)
    ensures Stands(s, ms, h, r)
  {
    hide After, Legal, CarriedAt, Mine, Sound;
    LastMove(s, ms, less, m, h);
    StepSound(After(s, less), m);
    var k: nat :| k < |less| && CarriedAt(s, less, h, r, k) && Mine(less, h) == [Take(h), less[k]];
    StaysCarried(s, ms, less, h, r, k);
  }

  lemma {:induction false} StandsAfter(s: Life, ms: seq<Move>, h: nat, r: Req)
    requires Sound(s) && h in s.reqs && s.reqs[h] == r && r.phase == Queued && Legal(s, ms) && Finish(h) !in ms
    ensures Stands(s, ms, h, r)
    decreases |ms|
  {
    if ms != [] {
      var less, m := ms[..|ms| - 1], ms[|ms| - 1];
      assert m in ms;
      StandsAfter(s, less, h, r);
      hide After, Step, Mine, CarriedAt, Sound;
      if m.Fill? || m.h != h {
        StandsOther(s, ms, less, m, h, r);
      } else if m.Take? {
        StandsTake(s, ms, less, m, h, r);
      } else if m.Carry? {
        StandsCarry(s, ms, less, m, h, r);
      } else if m.See? {
        StandsSee(s, ms, less, m, h, r);
      }
    }
  }

  /** From the moment a request is queued to the moment it can be finished, over every run: it was taken
      once, carried out once with status 0, and seen once, in that order; a write left the block with
      the buffer's content, and a read left the buffer with the block's. */
  lemma CarriedOnce(s: Life, h: nat, r: Req, ms: seq<Move>)
    requires Sound(s) && Enabled(s, Begin(h, r))
    requires var t := Step(s, Begin(h, r)); Legal(t, ms) && Finish(h) !in ms && Enabled(After(t, ms), Finish(h))
    ensures var t := Step(s, Begin(h, r));
            exists k: nat ::
                k < |ms| && CarriedAt(t, ms, h, r, k) && ms[k].status == 0 && Mine(ms, h) == [Take(h), ms[k], See(h)]
  {
    var t := Step(s, Begin(h, r));
    StepSound(s, Begin(h, r));
    StandsAfter(t, ms, h, r);
  }
}
