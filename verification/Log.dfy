/** The redo log: on-disk format, the disk writes of commit and of recovery, and what a crash
    anywhere among them leaves behind. */
module Log {
  import opened Disk

  const MAXOPBLOCKS: nat := 10
  const LOGSIZE: nat := MAXOPBLOCKS * 3

  /** Where the log lives: a header block at `start`, then the logged copies. */
  datatype Layout = Layout(start: nat, size: nat) {
    predicate Inside(b: nat) { start <= b < start + size }
  }

  // ---------- The header block ----------

  /** Header block with the block numbers of `lh`; words past them keep what `was` held. */
  function Stamp(was: Block, lh: seq<nat>): (r: Block)
    requires |lh| <= LOGSIZE && |was.words| == BLOCK_WORDS
    ensures |r.words| == BLOCK_WORDS
  {
    Block([|lh|] + lh + was.words[1 + |lh|..])
  }

  predicate HeaderFits(b: Block) { |b.words| == BLOCK_WORDS && b.words[0] <= LOGSIZE }

  function Entries(b: Block): (lh: seq<nat>)
    requires HeaderFits(b)
  {
    b.words[1..1 + b.words[0]]
  }

  /** read_head undoes write_head. */
  lemma HeaderRoundTrip(was: Block, lh: seq<nat>)
    requires |lh| <= LOGSIZE && |was.words| == BLOCK_WORDS
    ensures HeaderFits(Stamp(was, lh)) && Entries(Stamp(was, lh)) == lh
  {
    var b := Stamp(was, lh);
    assert b.words[0] == |lh|;
    assert b.words[1..1 + |lh|] == lh;
  }

  // ---------- What the log may hold ----------

  ghost predicate Distinct(s: seq<nat>) { forall i, j :: 0 <= i < j < |s| ==> s[i] != s[j] }

  /** Block numbers commit may put in the log: different home blocks, few enough to fit. */
  ghost predicate Loggable(L: Layout, disk: nat, lh: seq<nat>) {
    && |lh| <= LOGSIZE
    && |lh| < L.size
    && Distinct(lh)
    && (forall i :: 0 <= i < |lh| ==> lh[i] < disk && !L.Inside(lh[i]))
  }

  ghost predicate Fits(L: Layout, d: Image) {
    0 < L.size && L.start + L.size <= |d| && |d[L.start].words| == BLOCK_WORDS
  }

  /** A disk whose header is readable and names loggable blocks. */
  ghost predicate WellFormed(L: Layout, d: Image) {
    && Fits(L, d)
    && HeaderFits(d[L.start])
    && Loggable(L, |d|, Entries(d[L.start]))
  }

  ghost predicate Clean(L: Layout, d: Image) {
    WellFormed(L, d) && Entries(d[L.start]) == []
  }

  function IndexOf(s: seq<nat>, b: nat): (i: nat)
    requires b in s
    ensures i < |s| && s[i] == b && b !in s[..i]
  {
    if s[0] == b then 0
    else
      assert s[1..][..IndexOf(s[1..], b)] == s[1..1 + IndexOf(s[1..], b)];
      1 + IndexOf(s[1..], b)
  }

  /** Committed contents of home block `b`: its logged copy if the header names it. */
  ghost function Committed(L: Layout, d: Image, b: nat): Block
    requires WellFormed(L, d) && b < |d|
  {
    var lh := Entries(d[L.start]);
    if b in lh then d[L.start + 1 + IndexOf(lh, b)] else d[b]
  }

  /** Two disks commit to the same contents of every home block. */
  ghost predicate SameCommitted(L: Layout, d: Image, e: Image)
    requires WellFormed(L, d) && WellFormed(L, e)
  {
    |d| == |e| && forall b :: 0 <= b < |d| && !L.Inside(b) ==> Committed(L, d, b) == Committed(L, e, b)
  }

  // ---------- The disk writes of commit and recovery ----------

  /** write_log: cached blocks into the log region. */
  function LogCopies(L: Layout, lh: seq<nat>, cache: map<nat, Block>): (ws: seq<Write>)
    requires forall i :: 0 <= i < |lh| ==> lh[i] in cache
    ensures |ws| == |lh|
  {
    seq(|lh|, i requires 0 <= i < |lh| => Write(L.start + i + 1, cache[lh[i]]))
  }

  /** install_trans: log copies to their home blocks. */
  function Installs(L: Layout, d: Image, lh: seq<nat>): (ws: seq<Write>)
    requires L.start + |lh| < |d|
    ensures |ws| == |lh|
  {
    seq(|lh|, i requires 0 <= i < |lh| => Write(lh[i], d[L.start + i + 1]))
  }

  /** The writes up to and including the header: the commit point. */
  function UpToHeader(L: Layout, d: Image, lh: seq<nat>, cache: map<nat, Block>): (ws: seq<Write>)
    requires |lh| <= LOGSIZE && L.start < |d| && |d[L.start].words| == BLOCK_WORDS
    requires forall i :: 0 <= i < |lh| ==> lh[i] in cache
    ensures |ws| == |lh| + 1
  {
    LogCopies(L, lh, cache) + [Write(L.start, Stamp(d[L.start], lh))]
  }

  /** The commit's writes: copies, header, installs, cleared header. */
  function CommitWrites(L: Layout, d: Image, lh: seq<nat>, cache: map<nat, Block>): (ws: seq<Write>)
    requires |lh| <= LOGSIZE && L.start + |lh| < |d| && |d[L.start].words| == BLOCK_WORDS
    requires forall i :: 0 <= i < |lh| ==> lh[i] in cache
    ensures |ws| == if lh == [] then 0 else 2 * |lh| + 2
  {
    if lh == [] then []
    else
      var first := UpToHeader(L, d, lh, cache);
      var clear := Write(L.start, Stamp(Stamp(d[L.start], lh), []));
      first + (Installs(L, Apply(d, first), lh) + [clear])
  }

  /** The writes of recover_from_log on disk `d`. */
  function RecoverWrites(L: Layout, d: Image): (ws: seq<Write>)
    requires L.start < |d| && HeaderFits(d[L.start])
    requires L.start + |Entries(d[L.start])| < |d|
    ensures |ws| == |Entries(d[L.start])| + 1
  {
    Installs(L, d, Entries(d[L.start])) + [Write(L.start, Stamp(d[L.start], []))]
  }

  ghost function Recovered(L: Layout, d: Image): Image
    requires WellFormed(L, d)
  {
    Apply(d, RecoverWrites(L, d))
  }

  // ---------- Crashes inside recovery ----------

  /** After `k` installs: the log region and the blocks not reached are as before, the blocks
      reached hold their log copies. */
  lemma InstallPrefix(L: Layout, d: Image, lh: seq<nat>, k: nat, e: Image)
    requires Fits(L, d) && Loggable(L, |d|, lh) && k <= |lh|
    requires e == After(d, Installs(L, d, lh), k)
    ensures forall b :: 0 <= b < |d| && (L.Inside(b) || b !in lh) ==> e[b] == d[b]
    ensures forall i :: 0 <= i < k ==> e[lh[i]] == d[L.start + i + 1]
  {
    var ws := Installs(L, d, lh);
    forall b | 0 <= b < |d| && (L.Inside(b) || b !in lh) ensures e[b] == d[b] {
      AfterUntouched(d, ws, k, b);
    }
    forall i | 0 <= i < k ensures e[lh[i]] == d[L.start + i + 1] {
      AfterDistinct(d, ws, k, i);
    }
  }

  /** Recovery is the installs followed by one header write. */
  lemma RecoveredLast(L: Layout, d: Image, lh: seq<nat>)
    requires WellFormed(L, d) && lh == Entries(d[L.start])
    ensures Apply(d, Installs(L, d, lh))[L.start] == d[L.start]
    ensures Recovered(L, d) == Apply(d, Installs(L, d, lh))[L.start := Stamp(d[L.start], [])]
  {
    assert L.Inside(L.start);
    InstallPrefix(L, d, lh, |lh|, Apply(d, Installs(L, d, lh)));
    AfterPrefix(d, RecoverWrites(L, d), Installs(L, d, lh), |lh|);
  }

  /** Committed contents depend only on the log region and on the blocks the header does not name. */
  lemma CommittedFrame(L: Layout, d: Image, e: Image)
    requires WellFormed(L, d) && |d| == |e|
    requires forall b :: 0 <= b < |d| && (L.Inside(b) || b !in Entries(d[L.start])) ==> e[b] == d[b]
    ensures WellFormed(L, e) && SameCommitted(L, d, e)
  {
    assert L.Inside(L.start);
    var lh := Entries(d[L.start]);
    forall b | 0 <= b < |d| && !L.Inside(b) ensures Committed(L, d, b) == Committed(L, e, b) {
      if b in lh {
        assert L.Inside(L.start + 1 + IndexOf(lh, b));
      }
    }
  }

  /** Clearing the header of a disk whose named blocks are installed changes no committed contents. */
  lemma ClearHeader(L: Layout, d: Image, e: Image)
    requires WellFormed(L, d) && e == d[L.start := Stamp(d[L.start], [])]
    requires forall i :: 0 <= i < |Entries(d[L.start])| ==> d[Entries(d[L.start])[i]] == d[L.start + i + 1]
    ensures Clean(L, e) && SameCommitted(L, d, e)
    ensures forall b :: 0 <= b < |d| && !L.Inside(b) ==> e[b] == Committed(L, d, b)
  {
    HeaderRoundTrip(d[L.start], []);
    var lh := Entries(d[L.start]);
    assert Clean(L, e);
    forall b | 0 <= b < |d| && !L.Inside(b) ensures e[b] == Committed(L, d, b) == Committed(L, e, b) {
      if b in lh { assert lh[IndexOf(lh, b)] == b; }
    }
  }

  /** A recovery that finishes leaves a clean log and every home block with its committed contents. */
  lemma RecoveryInstalls(L: Layout, d: Image)
    requires WellFormed(L, d)
    ensures Clean(L, Recovered(L, d))
    ensures SameCommitted(L, d, Recovered(L, d))
    ensures forall b :: 0 <= b < |d| && !L.Inside(b) ==> Recovered(L, d)[b] == Committed(L, d, b)
  {
    var lh := Entries(d[L.start]);
    var e := Apply(d, Installs(L, d, lh));
    RecoveredLast(L, d, lh);
    InstallPrefix(L, d, lh, |lh|, e);
    CommittedFrame(L, d, e);
    forall i | 0 <= i < |lh| ensures e[lh[i]] == e[L.start + i + 1] {
      assert L.Inside(L.start + i + 1);
    }
    ClearHeader(L, e, Recovered(L, d));
  }

  /** Recovery cut short anywhere commits to the same contents as before it started. */
  lemma RecoveryPrefixKeeps(L: Layout, d: Image, k: nat)
    requires WellFormed(L, d) && k <= |RecoverWrites(L, d)|
    ensures WellFormed(L, After(d, RecoverWrites(L, d), k))
    ensures SameCommitted(L, d, After(d, RecoverWrites(L, d), k))
  {
    var lh := Entries(d[L.start]);
    if k <= |lh| {
      AfterPrefix(d, RecoverWrites(L, d), Installs(L, d, lh), k);
      InstallPrefix(L, d, lh, k, After(d, Installs(L, d, lh), k));
      CommittedFrame(L, d, After(d, Installs(L, d, lh), k));
    } else {
      RecoveryInstalls(L, d);
    }
  }

  /** The disk after recoveries cut short after `ks[0]`, `ks[1]`, ... writes, one after another. */
  ghost function CutRecoveries(L: Layout, d: Image, ks: seq<nat>): (e: Image)
    requires WellFormed(L, d)
    ensures WellFormed(L, e) && SameCommitted(L, d, e)
    decreases |ks|
  {
    if ks == [] then d
    else
      var before := CutRecoveries(L, d, ks[..|ks| - 1]);
      var ws := RecoverWrites(L, before);
      var k := if ks[|ks| - 1] <= |ws| then ks[|ks| - 1] else |ws|;
      RecoveryPrefixKeeps(L, before, k);
      After(before, ws, k)
  }

  // ---------- Crashes inside commit ----------

  /** Contents of home block `b` once the transaction is in. */
  ghost function Overlaid(d: Image, lh: seq<nat>, cache: map<nat, Block>, b: nat): Block
    requires b < |d| && forall i :: 0 <= i < |lh| ==> lh[i] in cache
  {
    if b in lh then cache[b] else d[b]
  }

  ghost predicate CommitReady(L: Layout, d: Image, lh: seq<nat>, cache: map<nat, Block>) {
    && Clean(L, d) && Loggable(L, |d|, lh)
    && forall i :: 0 <= i < |lh| ==> lh[i] in cache
  }

  /** While only log copies have been written, the header and the home blocks are as before. */
  lemma CopyPrefix(L: Layout, d: Image, lh: seq<nat>, cache: map<nat, Block>, k: nat, e: Image)
    requires CommitReady(L, d, lh, cache) && k <= |lh|
    requires e == After(d, LogCopies(L, lh, cache), k)
    ensures forall b :: 0 <= b < |d| && (b == L.start || !L.Inside(b)) ==> e[b] == d[b]
    ensures forall i :: 0 <= i < k ==> e[L.start + i + 1] == cache[lh[i]]
  {
    var ws := LogCopies(L, lh, cache);
    forall b | 0 <= b < |d| && (b == L.start || !L.Inside(b)) ensures e[b] == d[b] {
      AfterUntouched(d, ws, k, b);
    }
    forall i | 0 <= i < k ensures e[L.start + i + 1] == cache[lh[i]] {
      AfterDistinct(d, ws, k, i);
    }
  }

  /** A disk with header `lh`, the copies behind it and the home blocks of `d` commits to the
      transaction laid over `d`. */
  lemma LoggedCommits(L: Layout, d: Image, lh: seq<nat>, cache: map<nat, Block>, e: Image)
    requires CommitReady(L, d, lh, cache) && |e| == |d|
    requires e[L.start] == Stamp(d[L.start], lh)
    requires forall i :: 0 <= i < |lh| ==> e[L.start + i + 1] == cache[lh[i]]
    requires forall b :: 0 <= b < |d| && !L.Inside(b) ==> e[b] == d[b]
    ensures WellFormed(L, e) && Entries(e[L.start]) == lh
    ensures forall b :: 0 <= b < |d| && !L.Inside(b) ==> Committed(L, e, b) == Overlaid(d, lh, cache, b)
  {
    HeaderRoundTrip(d[L.start], lh);
    forall b | 0 <= b < |d| && !L.Inside(b) ensures Committed(L, e, b) == Overlaid(d, lh, cache, b) {
      if b in lh {
        var i := IndexOf(lh, b);
        assert e[L.start + i + 1] == cache[lh[i]];
      }
    }
  }

  /** The commit point is the log copies followed by one header write. */
  lemma HeaderLast(L: Layout, d: Image, lh: seq<nat>, cache: map<nat, Block>)
    requires CommitReady(L, d, lh, cache)
    ensures Apply(d, LogCopies(L, lh, cache))[L.start] == d[L.start]
    ensures Apply(d, UpToHeader(L, d, lh, cache))
         == Apply(d, LogCopies(L, lh, cache))[L.start := Stamp(d[L.start], lh)]
  {
    CopyPrefix(L, d, lh, cache, |lh|, Apply(d, LogCopies(L, lh, cache)));
    AfterPrefix(d, UpToHeader(L, d, lh, cache), LogCopies(L, lh, cache), |lh|);
  }

  /** From the header write on, the new contents are committed. */
  lemma HeaderCommits(L: Layout, d: Image, lh: seq<nat>, cache: map<nat, Block>, e: Image)
    requires CommitReady(L, d, lh, cache)
    requires e == Apply(d, UpToHeader(L, d, lh, cache))
    ensures WellFormed(L, e) && Entries(e[L.start]) == lh && e[L.start] == Stamp(d[L.start], lh)
    ensures forall b :: 0 <= b < |d| && !L.Inside(b) ==> Committed(L, e, b) == Overlaid(d, lh, cache, b)
  {
    HeaderLast(L, d, lh, cache);
    CopyPrefix(L, d, lh, cache, |lh|, Apply(d, LogCopies(L, lh, cache)));
    LoggedCommits(L, d, lh, cache, e);
  }

  /** After the header write, the rest of commit is exactly what recovery would do. */
  lemma CommitTailIsRecovery(L: Layout, d: Image, lh: seq<nat>, cache: map<nat, Block>, mid: Image)
    requires CommitReady(L, d, lh, cache) && lh != []
    requires mid == Apply(d, UpToHeader(L, d, lh, cache))
    ensures WellFormed(L, mid) && |RecoverWrites(L, mid)| == |lh| + 1
    ensures CommitWrites(L, d, lh, cache) == UpToHeader(L, d, lh, cache) + RecoverWrites(L, mid)
  {
    HeaderCommits(L, d, lh, cache, mid);
  }

  /** Commit cut before the header write commits to the old contents. */
  lemma CutBeforeHeader(L: Layout, d: Image, lh: seq<nat>, cache: map<nat, Block>, k: nat, e: Image)
    requires CommitReady(L, d, lh, cache) && lh != [] && k <= |lh|
    requires e == After(d, LogCopies(L, lh, cache), k)
    ensures WellFormed(L, e)
    ensures forall b :: 0 <= b < |d| && !L.Inside(b) ==> Committed(L, e, b) == d[b]
  {
    CopyPrefix(L, d, lh, cache, k, e);
    assert e[L.start] == d[L.start];
  }

  /** Commit cut after the header write is recovery cut that many writes later. */
  lemma CutIsRecoveryCut(L: Layout, d: Image, lh: seq<nat>, cache: map<nat, Block>, mid: Image, k: nat, e: Image)
    requires CommitReady(L, d, lh, cache) && lh != [] && |lh| < k <= 2 * |lh| + 2
    requires mid == Apply(d, UpToHeader(L, d, lh, cache))
    requires e == After(d, CommitWrites(L, d, lh, cache), k)
    ensures WellFormed(L, mid) && |RecoverWrites(L, mid)| == |lh| + 1
    ensures e == After(mid, RecoverWrites(L, mid), k - |lh| - 1)
  {
    CommitTailIsRecovery(L, d, lh, cache, mid);
    AfterSplit(d, CommitWrites(L, d, lh, cache), UpToHeader(L, d, lh, cache), RecoverWrites(L, mid), k);
  }

  /** Commit cut after the header write commits to the new contents. */
  lemma CutAfterHeader(L: Layout, d: Image, lh: seq<nat>, cache: map<nat, Block>, mid: Image, j: nat, e: Image)
    requires CommitReady(L, d, lh, cache)
    requires mid == Apply(d, UpToHeader(L, d, lh, cache)) && WellFormed(L, mid)
    requires j <= |RecoverWrites(L, mid)| && e == After(mid, RecoverWrites(L, mid), j)
    ensures WellFormed(L, e)
    ensures forall b :: 0 <= b < |d| && !L.Inside(b) ==> Committed(L, e, b) == Overlaid(d, lh, cache, b)
  {
    HeaderCommits(L, d, lh, cache, mid);
    RecoveryPrefixKeeps(L, mid, j);
  }

  /** Commit cut after `k` writes commits to all of the old contents or all of the new ones,
      and to the new ones exactly when the header write is among the `k`. */
  lemma CommitPrefixAtomic(L: Layout, d: Image, lh: seq<nat>, cache: map<nat, Block>, k: nat, e: Image)
    requires CommitReady(L, d, lh, cache) && k <= |CommitWrites(L, d, lh, cache)|
    requires e == After(d, CommitWrites(L, d, lh, cache), k)
    ensures WellFormed(L, e)
    ensures forall b :: 0 <= b < |d| && !L.Inside(b) ==>
              Committed(L, e, b) == if k <= |lh| then d[b] else Overlaid(d, lh, cache, b)
  {
    if lh == [] {
      assert e == d;
    } else if k <= |lh| {
      AfterPrefix(d, CommitWrites(L, d, lh, cache), LogCopies(L, lh, cache), k);
      CutBeforeHeader(L, d, lh, cache, k, e);
    } else {
      var mid := Apply(d, UpToHeader(L, d, lh, cache));
      CutIsRecoveryCut(L, d, lh, cache, mid, k, e);
      CutAfterHeader(L, d, lh, cache, mid, k - |lh| - 1, e);
    }
  }

  /** Crash atomicity.  Commit stops after any `k` of its writes, any number of recoveries stop
      part way, then one finishes: every home block then has its old contents, or every one has
      the transaction's.  The log is empty, ready for the next transaction. */
  lemma CrashAtomic(L: Layout, d: Image, lh: seq<nat>, cache: map<nat, Block>, k: nat, ks: seq<nat>)
    requires CommitReady(L, d, lh, cache) && k <= |CommitWrites(L, d, lh, cache)|
    ensures WellFormed(L, After(d, CommitWrites(L, d, lh, cache), k))
    ensures var e := Recovered(L, CutRecoveries(L, After(d, CommitWrites(L, d, lh, cache), k), ks));
      && Clean(L, e) && |e| == |d|
      && forall b :: 0 <= b < |d| && !L.Inside(b) ==>
           e[b] == if k <= |lh| then d[b] else Overlaid(d, lh, cache, b)
  {
    var c := After(d, CommitWrites(L, d, lh, cache), k);
    CommitPrefixAtomic(L, d, lh, cache, k, c);
    RecoveryInstalls(L, CutRecoveries(L, c, ks));
  }

  /** An uninterrupted commit needs no recovery: the log is clean and the transaction installed. */
  lemma CommitInstalls(L: Layout, d: Image, lh: seq<nat>, cache: map<nat, Block>, k: nat, e: Image)
    requires CommitReady(L, d, lh, cache)
    requires k == |CommitWrites(L, d, lh, cache)| && e == After(d, CommitWrites(L, d, lh, cache), k)
    ensures Clean(L, e)
    ensures forall b :: 0 <= b < |d| && !L.Inside(b) ==> e[b] == Overlaid(d, lh, cache, b)
  {
    if lh == [] {
      assert e == d;
    } else {
      var mid := Apply(d, UpToHeader(L, d, lh, cache));
      CutIsRecoveryCut(L, d, lh, cache, mid, k, e);
      RecoveryInstalls(L, mid);
      CommitPrefixAtomic(L, d, lh, cache, k, e);
    }
  }
}
