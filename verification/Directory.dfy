/** A directory file as its 16-byte entries, against the map from names to inode numbers it stands
    for. Names are C strings, compared and stored in their first DIRSIZ characters. */
module Directory {

  const DIRSIZ: nat := 14
  const HALF: nat := 0x1_0000      // an entry holds its inode number in 16 bits

  datatype Entry = Entry(inum: nat, name: seq<char>)

  datatype Result = Stopped | Done(value: int)

  predicate Sound(e: Entry) { |e.name| == DIRSIZ && e.inum < HALF }

  /** What counts of a name. */
  function Cut(name: string): string { if |name| > DIRSIZ then name[..DIRSIZ] else name }

  predicate Clean(name: string) { '\0' !in name }

  /** The characters before the first NUL, from `k` on. */
  function Until(raw: seq<char>, k: nat): string
    requires k <= |raw|
    decreases |raw| - k
  {
    if k == |raw| || raw[k] == '\0' then "" else [raw[k]] + Until(raw, k + 1)
  }

  function NameOf(e: Entry): string { Until(e.name, 0) }

  lemma {:induction false} UntilIs(raw: seq<char>, k: nat, n: nat)
    requires k <= n <= |raw| && '\0' !in raw[k..n] && (n == |raw| || raw[n] == '\0')
    ensures Until(raw, k) == raw[k..n]
    decreases n - k
  {
    if k < n {
      assert raw[k] == raw[k..n][0] && raw[k + 1..n] == raw[k..n][1..];
      UntilIs(raw, k + 1, n);
    }
  }

  lemma {:induction false} UntilParts(raw: seq<char>, k: nat)
    requires k <= |raw|
    ensures var n := k + |Until(raw, k)|;
            n <= |raw| && Until(raw, k) == raw[k..n] && '\0' !in raw[k..n] && (n == |raw| || raw[n] == '\0')
    decreases |raw| - k
  {
    if k < |raw| && raw[k] != '\0' {
      UntilParts(raw, k + 1);
      var n := k + |Until(raw, k)|;
      assert raw[k..n] == [raw[k]] + raw[k + 1..n];
    }
  }

  // ---------- Comparing and storing names ----------

  function At(name: string, k: nat): char { if k < |name| then name[k] else '\0' }

  /** The names agree as far as strncmp went. */
  lemma SameName(name: string, e: Entry, k: nat)
    requires Clean(name) && Sound(e) && k <= DIRSIZ && k <= |name| && name[..k] == e.name[..k]
    requires k == DIRSIZ || (At(name, k) == '\0' && e.name[k] == '\0')
    ensures NameOf(e) == Cut(name)
  {
    assert e.name[0..k] == name[..k];
    UntilIs(e.name, 0, k);
  }

  lemma CharOf(e: Entry, k: nat)
    requires Sound(e) && k < DIRSIZ && k <= |NameOf(e)|
    ensures At(NameOf(e), k) == e.name[k]
  {
    UntilParts(e.name, 0);
  }

  lemma OtherName(name: string, e: Entry, k: nat)
    requires Clean(name) && Sound(e) && k < DIRSIZ && k <= |name| && At(name, k) != e.name[k]
    ensures NameOf(e) != Cut(name)
  {
    hide NameOf;
    if k <= |NameOf(e)| { CharOf(e, k); }
    assert At(Cut(name), k) == At(name, k);
  }

  /** 0 exactly when the entry has this name. */
  method NameCmp(name: string, e: Entry) returns (diff: int)
    requires Clean(name) && Sound(e)
    ensures diff == 0 <==> NameOf(e) == Cut(name)
  {
    hide NameOf, Cut;
    var k: nat := 0;
    while k < DIRSIZ && k < |name| && name[k] == e.name[k]
      invariant k <= DIRSIZ && k <= |name| && name[..k] == e.name[..k]
    {
      k := k + 1;
    }
    if k == DIRSIZ {
      SameName(name, e, k);
      return 0;
    }
    diff := At(name, k) as int - e.name[k] as int;
    if diff == 0 { SameName(name, e, k); } else { OtherName(name, e, k); }
  }

  /** The stored form of a name reads back as the name, cut. */
  method StrnCpy(name: string, inum: nat) returns (e: Entry)
    requires Clean(name) && inum < HALF
    ensures Sound(e) && e.inum == inum && NameOf(e) == Cut(name)
  {
    var raw: seq<char> := [];
    var k: nat := 0;
    while k < DIRSIZ && k < |name|
      invariant k <= DIRSIZ && k <= |name| && raw == name[..k]
    {
      raw := raw + [name[k]];
      k := k + 1;
    }
    ghost var n := k;
    while k < DIRSIZ
      invariant n <= k <= DIRSIZ && |raw| == k && raw[..n] == name[..n] && (n < k ==> raw[n] == '\0')
    {
      raw := raw + ['\0'];
      k := k + 1;
    }
    e := Entry(inum, raw);
    assert raw[0..n] == name[..n];
    UntilIs(raw, 0, n);
  }

  // ---------- The map a directory stands for ----------

  predicate Live(e: Entry) { e.inum != 0 }

  predicate Named(es: seq<Entry>, i: nat, name: string) { i < |es| && Live(es[i]) && NameOf(es[i]) == name }

  /** No name twice. */
  predicate Unique(es: seq<Entry>) {
    forall i: nat, j: nat ::
        i < |es| && j < |es| && Live(es[i]) && Live(es[j]) && NameOf(es[i]) == NameOf(es[j]) ==> i == j
  }

  predicate AllSound(es: seq<Entry>) { forall i :: 0 <= i < |es| ==> Sound(es[i]) }

  predicate Entered(es: seq<Entry>, m: map<string, nat>) {
    forall i :: 0 <= i < |es| && Live(es[i]) ==> NameOf(es[i]) in m && m[NameOf(es[i])] == es[i].inum
  }

  ghost predicate Found(es: seq<Entry>, m: map<string, nat>) {
    forall name :: name in m ==> exists i: nat :: Named(es, i, name)
  }

  ghost predicate Holds(es: seq<Entry>, m: map<string, nat>) {
    AllSound(es) && Unique(es) && Entered(es, m) && Found(es, m)
  }

  /** A directory stands for one map only. */
  lemma OneMap(es: seq<Entry>, m: map<string, nat>, m': map<string, nat>)
    requires Holds(es, m) && Holds(es, m')
    ensures m == m'
  {
    hide NameOf;
    forall name | name in m ensures name in m' && m'[name] == m[name] {
      var i: nat :| Named(es, i, name);
    }
    forall name | name in m' ensures name in m {
      var i: nat :| Named(es, i, name);
    }
  }

  function Present(m: map<string, nat>, name: string): nat { if name in m then m[name] else 0 }

  lemma Absent(es: seq<Entry>, m: map<string, nat>, name: string)
    requires Holds(es, m) && forall i: nat :: !Named(es, i, name)
    ensures name !in m
  {
  }

  // ---------- Changing one entry ----------

  /** Entry `k` replaced, or added at the end. */
  function Put(es: seq<Entry>, k: nat, e: Entry): seq<Entry>
    requires k <= |es|
  {
    if k == |es| then es + [e] else es[k := e]
  }

  lemma PutFound(es: seq<Entry>, m: map<string, nat>, k: nat, e: Entry, name: string)
    requires Holds(es, m) && k <= |es| && (k < |es| ==> !Live(es[k])) && name in m
    ensures exists i: nat :: Named(Put(es, k, e), i, name)
  {
    hide NameOf;
    var i: nat :| Named(es, i, name);
    assert Named(Put(es, k, e), i, name);
  }

  /** A new name in a free place. */
  lemma LinkHolds(es: seq<Entry>, m: map<string, nat>, k: nat, e: Entry)
    requires Holds(es, m) && k <= |es| && (k < |es| ==> !Live(es[k])) && Sound(e) && Live(e) && NameOf(e) !in m
    ensures Holds(Put(es, k, e), m[NameOf(e) := e.inum])
  {
    hide NameOf;
    var es', m' := Put(es, k, e), m[NameOf(e) := e.inum];
    forall name | name in m' ensures exists i: nat :: Named(es', i, name) {
      if name in m { PutFound(es, m, k, e, name); } else { assert Named(es', k, name); }
    }
    assert forall i :: 0 <= i < |es'| && i != k ==> es'[i] == es[i];
    assert forall i :: 0 <= i < |es| && Live(es[i]) ==> NameOf(es[i]) != NameOf(e);
  }

  /** An entry with inode number 0 in a free place stands for nothing. */
  lemma BlankHolds(es: seq<Entry>, m: map<string, nat>, k: nat, e: Entry)
    requires Holds(es, m) && k <= |es| && (k < |es| ==> !Live(es[k])) && Sound(e) && !Live(e)
    ensures Holds(Put(es, k, e), m)
  {
    hide NameOf;
    forall name | name in m ensures exists i: nat :: Named(Put(es, k, e), i, name) {
      PutFound(es, m, k, e, name);
    }
  }

  /** Clearing an entry removes its name and no other. */
  lemma ClearHolds(es: seq<Entry>, m: map<string, nat>, k: nat, e: Entry)
    requires Holds(es, m) && k < |es| && Live(es[k]) && Sound(e) && !Live(e)
    ensures Holds(es[k := e], m - {NameOf(es[k])})
  {
    hide NameOf;
    var es', m' := es[k := e], m - {NameOf(es[k])};
    forall name | name in m' ensures exists i: nat :: Named(es', i, name) {
      var i: nat :| Named(es, i, name);
      assert Named(es', i, name);
    }
    assert forall i :: 0 <= i < |es'| && i != k ==> es'[i] == es[i];
  }

  /** The first free place from `i` on, or the end. */
  function Spare(es: seq<Entry>, i: nat): (k: nat)
    requires i <= |es|
    ensures i <= k <= |es| && (k < |es| ==> !Live(es[k])) && forall j :: i <= j < k ==> Live(es[j])
    decreases |es| - i
  {
    if i < |es| && Live(es[i]) then Spare(es, i + 1) else i
  }

  // ---------- What directory operations mean ----------

  datatype Op = Link(name: string, inum: nat) | Unlink(name: string, busy: bool)

  predicate Dot(name: string) { Cut(name) == "." || Cut(name) == ".." }

  /** The operation does nothing. */
  predicate Refused(m: map<string, nat>, op: Op) {
    match op
    case Link(name, inum) => Cut(name) in m
    case Unlink(name, busy) => Dot(name) || Cut(name) !in m || busy
  }

  function Applied(m: map<string, nat>, op: Op): map<string, nat> {
    if Refused(m, op) then m
    else match op
      case Link(name, inum) => if inum % HALF == 0 then m else m[Cut(name) := inum % HALF]
      case Unlink(name, _) => m - {Cut(name)}
  }

  function AppliedAll(m: map<string, nat>, ops: seq<Op>): map<string, nat> {
    if ops == [] then m else Applied(AppliedAll(m, ops[..|ops| - 1]), ops[|ops| - 1])
  }

  /** The first two entries are . and .. */
  predicate Dotted(es: seq<Entry>) { Named(es, 0, ".") && Named(es, 1, "..") }

  lemma DottedKeeps(es: seq<Entry>, m: map<string, nat>, k: nat, e: Entry)
    requires Holds(es, m) && Dotted(es) && k <= |es| && (k < |es| && Live(es[k]) ==> NameOf(es[k]) !in {".", ".."})
    ensures Dotted(Put(es, k, e))
  {
    hide NameOf;
  }

  /** No entry in use after the first two. */
  predicate Bare(es: seq<Entry>) { forall i :: 2 <= i < |es| ==> !Live(es[i]) }

  /** Nothing after the first two entries: nothing but . and .. in the map. */
  lemma OnlyDots(es: seq<Entry>, m: map<string, nat>)
    requires Holds(es, m) && Dotted(es)
    ensures Bare(es) <==> m.Keys == {".", ".."}
  {
    hide NameOf;
    assert "." in m && ".." in m;
    if Bare(es) {
      forall name | name in m ensures name in {".", ".."} {
        var i: nat :| Named(es, i, name);
        assert i == 0 || i == 1;
      }
    }
    forall i | 2 <= i < |es| && Live(es[i]) ensures NameOf(es[i]) in m.Keys - {".", ".."} {
      LaterName(es, m, i);
    }
  }

  lemma LaterName(es: seq<Entry>, m: map<string, nat>, i: nat)
    requires Holds(es, m) && Dotted(es) && 2 <= i < |es| && Live(es[i])
    ensures NameOf(es[i]) in m && NameOf(es[i]) !in {".", ".."}
  {
    hide NameOf;
    assert Live(es[0]) && Live(es[1]);
  }

  lemma TwoDots(dot: Entry, dots: Entry)
    requires Sound(dot) && Sound(dots) && Live(dot) && Live(dots) && NameOf(dot) == "." && NameOf(dots) == ".."
    ensures Holds([dot, dots], map["." := dot.inum, ".." := dots.inum]) && Dotted([dot, dots])
  {
    hide NameOf;
    LinkHolds([], map[], 0, dot);
    var m := map["." := dot.inum];
    assert Put([], 0, dot) == [dot] && map[][NameOf(dot) := dot.inum] == m;
    LinkHolds([dot], m, 1, dots);
    assert Put([dot], 1, dots) == [dot, dots]
        && m[NameOf(dots) := dots.inum] == map["." := dot.inum, ".." := dots.inum];
  }

  /** However names come and go, . and .. keep their inodes. */
  lemma {:induction false} DotsForever(m: map<string, nat>, ops: seq<Op>, name: string)
    requires name in {".", ".."} && name in m
    ensures name in AppliedAll(m, ops) && AppliedAll(m, ops)[name] == m[name]
  {
    if ops != [] {
      hide Cut;
      DotsForever(m, ops[..|ops| - 1], name);
    }
  }

  /** Operation `k` of a sequence gave the name its inode: a link of it that was not refused. */
  ghost predicate Gave(m: map<string, nat>, ops: seq<Op>, k: nat, name: string, inum: nat)
    requires k < |ops|
  {
    ops[k].Link? && Cut(ops[k].name) == name && ops[k].inum % 65536 == inum != 0 && name !in AppliedAll(m, ops[..k])
  }

  /** The name was present from operation `k` on, whatever was tried with it. */
  ghost predicate Stayed(m: map<string, nat>, ops: seq<Op>, k: nat, name: string) {
    forall j :: k <= j <= |ops| ==> name in AppliedAll(m, ops[..j])
  }

  /** However names come and go, a name that is there has the inode of the last link of it that was not
      refused, and it has been there ever since; or it was there at the start and never went. */
  lemma {:induction false} LastLink(m: map<string, nat>, ops: seq<Op>, name: string)
    requires name in AppliedAll(m, ops)
    ensures var inum := AppliedAll(m, ops)[name];
            || (name in m && m[name] == inum && Stayed(m, ops, 0, name))
            || exists k :: 0 <= k < |ops| && Gave(m, ops, k, name, inum) && Stayed(m, ops, k + 1, name)
  {
    hide Cut, Gave, Stayed;
    if ops == [] {
      StayedMore(m, ops, 0, name);
    } else {
      var n := |ops| - 1;
      var before := ops[..n];
      if name in AppliedAll(m, before) {
        LastLink(m, before, name);
        var inum := AppliedAll(m, before)[name];
        if Stayed(m, before, 0, name) { StayedMore(m, ops, 0, name); }
        if k :| 0 <= k < n && Gave(m, before, k, name, inum) && Stayed(m, before, k + 1, name) {
          GaveMore(m, ops, k, name, inum);
          StayedMore(m, ops, k + 1, name);
        }
      } else {
        GaveNow(m, ops, name);
        StayedMore(m, ops, n + 1, name);
      }
    }
  }

  lemma StayedMore(m: map<string, nat>, ops: seq<Op>, k: nat, name: string)
    requires name in AppliedAll(m, ops) && (k < |ops| ==> Stayed(m, ops[..|ops| - 1], k, name))
    ensures Stayed(m, ops, k, name)
  {
    hide AppliedAll;
    assert ops[..|ops|] == ops;
    if k < |ops| {
      assert forall j :: 0 <= j < |ops| ==> ops[..|ops| - 1][..j] == ops[..j];
    }
  }

  lemma GaveMore(m: map<string, nat>, ops: seq<Op>, k: nat, name: string, inum: nat)
    requires k < |ops| - 1 && Gave(m, ops[..|ops| - 1], k, name, inum)
    ensures Gave(m, ops, k, name, inum)
  {
    assert ops[..|ops| - 1][..k] == ops[..k];
  }

  lemma GaveNow(m: map<string, nat>, ops: seq<Op>, name: string)
    requires ops != [] && name in AppliedAll(m, ops) && name !in AppliedAll(m, ops[..|ops| - 1])
    ensures Gave(m, ops, |ops| - 1, name, AppliedAll(m, ops)[name])
  {
    hide Cut;
  }

  /** Unlinking undoes linking. */
  lemma UnlinkUndoes(m: map<string, nat>, name: string, inum: nat)
    ensures !Refused(m, Link(name, inum)) && !Dot(name) ==> AppliedAll(m, [Link(name, inum), Unlink(name, false)]) == m
  {
    var ops := [Link(name, inum), Unlink(name, false)];
    assert ops[..1] == [Link(name, inum)] && ops[..1][..0] == [];
    assert AppliedAll(m, ops[..1]) == Applied(AppliedAll(m, []), ops[0]);
    if !Refused(m, Link(name, inum)) && !Dot(name) {
      assert AppliedAll(m, ops) == Applied(Applied(m, ops[0]), ops[1]);
      assert m[Cut(name) := inum % HALF] - {Cut(name)} == m;
    }
  }

  class Directory {
    var entries: seq<Entry>
    ghost var names: map<string, nat>

    ghost predicate Valid()
      reads this
    {
      Holds(entries, names)
    }

    /** A new directory: . and .. */
    constructor (self: nat, parent: nat)
      requires self % HALF != 0 && parent % HALF != 0
      ensures Valid() && Dotted(entries) && names == map["." := self % HALF, ".." := parent % HALF]
    {
      hide NameOf, Holds, Put, Dotted;
      var dot := StrnCpy(".", self % HALF);
      var dots := StrnCpy("..", parent % HALF);
      TwoDots(dot, dots);
      entries, names := [dot, dots], map["." := self % HALF, ".." := parent % HALF];
    }

    /** The name's inode number and place, or 0. */
    method DirLookup(name: string) returns (inum: nat, k: nat)
      requires Valid() && Clean(name)
      ensures inum == Present(names, Cut(name))
      ensures inum != 0 ==> Cut(name) in names && Named(entries, k, Cut(name))
      ensures inum == 0 ==> Cut(name) !in names
    {
      hide NameOf;
      k := 0;
      while k < |entries|
        invariant k <= |entries| && forall i: nat :: i < k ==> !Named(entries, i, Cut(name))
      {
        if entries[k].inum != 0 {
          var diff := NameCmp(name, entries[k]);
          if diff == 0 { return entries[k].inum, k; }
        }
        k := k + 1;
      }
      Absent(entries, names, Cut(name));
      inum := 0;
    }

    /** The first free place, or the end. */
    method FreePlace() returns (k: nat)
      ensures k == Spare(entries, 0)
    {
      k := 0;
      while k < |entries| && entries[k].inum != 0
        invariant k <= |entries| && Spare(entries, k) == Spare(entries, 0)
      {
        k := k + 1;
      }
    }

    /** Stops when the directory is full and cannot grow past `room` entries. */
    method DirLink(name: string, inum: nat, room: nat) returns (r: Result)
      requires Valid() && Clean(name)
      modifies this
      ensures Valid() && (old(Dotted(entries)) ==> Dotted(entries))
      ensures r == Done(-1) <==> Refused(old(names), Link(name, inum))
      ensures r.Stopped? <==> !Refused(old(names), Link(name, inum)) && |old(entries)| >= room
                              && Spare(old(entries), 0) == |old(entries)|
      ensures r == Done(0) || r.Stopped? || (r == Done(-1) && Cut(name) in old(names))
      ensures names == if r.Stopped? then old(names) else Applied(old(names), Link(name, inum))
      ensures r == Done(0) ==>
                && Present(names, Cut(name)) == inum % 65536
                && forall other :: other != Cut(name) ==> Present(names, other) == Present(old(names), other)
      ensures r != Done(0) ==> entries == old(entries)
      ensures r == Done(0) ==> exists e: Entry :: Sound(e) && entries == Put(old(entries), Spare(old(entries), 0), e)
    {
      hide NameOf, Holds, Spare;
      var found, _ := DirLookup(name);
      if found != 0 { return Done(-1); }
      var k := FreePlace();
      if k == |entries| && k >= room { return Stopped; }
      var e := StrnCpy(name, inum % HALF);
      DottedStays(entries, names, k, e);
      if Live(e) { LinkHolds(entries, names, k, e); } else { BlankHolds(entries, names, k, e); }
      names := Applied(names, Link(name, inum));
      entries := Put(entries, k, e);
      return Done(0);
    }

    /** Whether the inode is a directory that is not empty. */
    ghost predicate Busy(dirs: map<nat, Directory>, inum: nat)
      reads dirs.Values
    {
      inum in dirs && !Bare(dirs[inum].entries)
    }

    /** The directory part of unlink, among the directories by inode number. */
    method DirUnlink(name: string, dirs: map<nat, Directory>) returns (r: int)
      requires Valid() && Clean(name)
      modifies this
      ensures Valid() && (old(Dotted(entries)) ==> Dotted(entries))
      ensures var op := Unlink(name, old(Busy(dirs, Present(names, Cut(name)))));
              r == (if Refused(old(names), op) then -1 else 0) && names == Applied(old(names), op)
      ensures r == 0 <==> Cut(name) != "." && Cut(name) != ".." && Cut(name) in old(names)
                          && !old(Busy(dirs, Present(names, Cut(name))))
      ensures r == 0 ==> names == old(names) - {Cut(name)}
      ensures |entries| == |old(entries)| && (r == -1 ==> entries == old(entries))
    {
      hide NameOf, Holds, Bare;
      if Cut(name) == "." || Cut(name) == ".." { return -1; }
      var found, k := DirLookup(name);
      if found == 0 { return -1; }
      if found in dirs {
        var empty := dirs[found].IsDirEmpty();
        if !empty { return -1; }
      }
      var blank := Entry(0, seq(DIRSIZ, _ => '\0'));
      if Dotted(entries) { DottedKeeps(entries, names, k, blank); }
      ClearHolds(entries, names, k, blank);
      entries, names := entries[k := blank], names - {Cut(name)};
      return 0;
    }

    method IsDirEmpty() returns (r: bool)
      ensures r <==> Bare(entries)
      ensures Valid() && Dotted(entries) ==> (r <==> names.Keys == {".", ".."})
    {
      hide Holds;
      if Valid() && Dotted(entries) { OnlyDots(entries, names); }
      var k: nat := 2;
      while k < |entries|
        invariant 2 <= k && forall i :: 2 <= i < k && i < |entries| ==> !Live(entries[i])
      {
        if entries[k].inum != 0 { return false; }
        k := k + 1;
      }
      return true;
    }
  }

  lemma DottedStays(es: seq<Entry>, m: map<string, nat>, k: nat, e: Entry)
    requires Holds(es, m) && k <= |es| && (k < |es| ==> !Live(es[k]))
    ensures Dotted(es) ==> Dotted(Put(es, k, e))
  {
    if Dotted(es) { DottedKeeps(es, m, k, e); }
  }
}
