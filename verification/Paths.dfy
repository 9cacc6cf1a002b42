/** Path names: the elements between slashes, and the walk from directory to directory. */
module Paths {
  import opened Directory

  /** Position of the first character at or after `i` that is (or is not) a slash. */
  function Slashes(path: string, i: nat): (j: nat)
    requires i <= |path|
    ensures i <= j <= |path| && (forall k :: i <= k < j ==> path[k] == '/') && (j < |path| ==> path[j] != '/')
    decreases |path| - i
  {
    if i < |path| && path[i] == '/' then Slashes(path, i + 1) else i
  }

  function Plain(path: string, i: nat): (j: nat)
    requires i <= |path|
    ensures i <= j <= |path| && (forall k :: i <= k < j ==> path[k] != '/') && (j < |path| ==> path[j] == '/')
    decreases |path| - i
  {
    if i < |path| && path[i] != '/' then Plain(path, i + 1) else i
  }

  /** The elements of the path from `i` on. */
  function Elems(path: string, i: nat): seq<string>
    requires i <= |path|
    decreases |path| - i
  {
    var s := Slashes(path, i);
    if s == |path| then [] else [path[s..Plain(path, s)]] + Elems(path, Plain(path, s))
  }

  lemma SlashesTwice(path: string, i: nat)
    requires i <= |path|
    ensures Slashes(path, Slashes(path, i)) == Slashes(path, i) && Elems(path, Slashes(path, i)) == Elems(path, i)
  {
  }

  lemma ElemsNext(path: string, i: nat, s: nat, e: nat)
    requires i <= |path| && s == Slashes(path, i) && s < |path| && e == Plain(path, s)
    ensures Elems(path, i) == [path[s..e]] + Elems(path, e)
  {
  }

  lemma ElemsNone(path: string, i: nat)
    requires i <= |path| && Slashes(path, i) == |path|
    ensures Elems(path, i) == []
  {
  }

  datatype Elem = None | Some(name: string, next: nat)

  /** The next element, cut as a directory entry would be, and the path after it; none exactly when
      no element is left. */
  method SkipElem(path: string, i: nat) returns (r: Elem)
    requires i <= |path|
    ensures r.None? <==> Elems(path, i) == []
    ensures r.Some? ==>
            i < r.next <= |path| && r.name == Cut(Elems(path, i)[0]) && Elems(path, r.next) == Elems(path, i)[1..]
    ensures r.Some? ==> (r.next == |path| <==> |Elems(path, i)| == 1)
  {
    var p := i;
    while p < |path| && path[p] == '/'
      invariant i <= p <= |path| && Slashes(path, p) == Slashes(path, i)
    {
      p := p + 1;
    }
    if p == |path| { return None; }
    var s := p;
    while p < |path| && path[p] != '/'
      invariant s <= p <= |path| && Plain(path, p) == Plain(path, s)
    {
      p := p + 1;
    }
    var name := if p - s >= DIRSIZ then path[s..s + DIRSIZ] else path[s..p];
    assert name == Cut(path[s..p]);
    ghost var e := p;
    SlashesTwice(path, e);
    while p < |path| && path[p] == '/'
      invariant e <= p <= |path| && Slashes(path, p) == Slashes(path, e)
    {
      p := p + 1;
    }
    return Some(name, p);
  }

  // ---------- Walking ----------

  const ROOT: nat := 1

  datatype Node = File | Dir(names: map<string, nat>)

  type Tree = map<nat, Node>

  predicate IsDir(t: Tree, ip: nat) { ip in t && t[ip].Dir? }

  /** One element further; 0 is nowhere. */
  function Step(t: Tree, ip: nat, name: string): nat {
    if IsDir(t, ip) then Present(t[ip].names, Cut(name)) else 0
  }

  function Walk(t: Tree, ip: nat, elems: seq<string>): nat
    decreases |elems|
  {
    if elems == [] || ip == 0 then ip else Walk(t, Step(t, ip, elems[0]), elems[1..])
  }

  /** Walking a path is walking its first part and then the rest from there. */
  lemma {:induction false} WalkParts(t: Tree, ip: nat, a: seq<string>, b: seq<string>)
    ensures Walk(t, ip, a + b) == Walk(t, Walk(t, ip, a), b)
    decreases |a|
  {
    if a == [] {
      assert a + b == b;
    } else if ip != 0 {
      assert (a + b)[1..] == a[1..] + b;
      WalkParts(t, Step(t, ip, a[0]), a[1..], b);
    }
  }

  /** What the path names, from the root or from `cwd`. */
  function Start(path: string, cwd: nat): nat { if path != "" && path[0] == '/' then ROOT else cwd }

  datatype Found = Nowhere | At(ip: nat, name: string)

  function Lookup(t: Tree, path: string, cwd: nat): nat { Walk(t, Start(path, cwd), Elems(path, 0)) }

  /** The directory that holds, or would hold, the last element, and that element. */
  function Parent(t: Tree, path: string, cwd: nat): Found {
    var es := Elems(path, 0);
    if es == [] then Nowhere
    else
      var d := Walk(t, Start(path, cwd), es[..|es| - 1]);
      if IsDir(t, d) && d != 0 then At(d, Cut(es[|es| - 1])) else Nowhere
  }

  /** What a path names is what its parent directory has under its last element. */
  lemma ParentHolds(t: Tree, path: string, cwd: nat)
    requires Elems(path, 0) != []
    ensures var p := Parent(t, path, cwd);
            Lookup(t, path, cwd) == if p.Nowhere? then 0 else Present(t[p.ip].names, p.name)
  {
    hide Elems, Walk;
    var es := Elems(path, 0);
    var init, last := es[..|es| - 1], es[|es| - 1..];
    assert es == init + last;
    WalkParts(t, Start(path, cwd), init, last);
    var d := Walk(t, Start(path, cwd), init);
    assert last[0] == es[|es| - 1];
    WalkOne(t, d, last);
  }

  lemma WalkOne(t: Tree, d: nat, last: seq<string>)
    requires |last| == 1
    ensures Walk(t, d, last) == if d == 0 then 0 else Step(t, d, last[0])
  {
    assert last[1..] == [];
  }

  lemma Onward(t: Tree, ip: nat, es: seq<string>)
    requires ip != 0 && es != []
    ensures Walk(t, ip, es) == Walk(t, Step(t, ip, es[0]), es[1..])
    ensures |es| > 1 ==> Walk(t, ip, es[..|es| - 1]) == Walk(t, Step(t, ip, es[0]), es[1..][..|es| - 2])
  {
    if |es| > 1 {
      assert es[..|es| - 1][1..] == es[1..][..|es| - 2];
    }
  }

  /** Cutting an element again changes nothing. */
  lemma CutTwice(name: string)
    ensures Cut(Cut(name)) == Cut(name)
  {
  }

  lemma NoWalk(t: Tree, es: seq<string>)
    ensures Walk(t, 0, es) == 0
  {
  }

  /** namei's walk: 0 when some element on the way is missing or is not in a directory. */
  method NameI(t: Tree, path: string, cwd: nat) returns (ip: nat)
    requires cwd != 0
    ensures ip == Lookup(t, path, cwd)
  {
    hide Elems, Walk;
    ip := Start(path, cwd);
    var i: nat := 0;
    ghost var all := Walk(t, ip, Elems(path, 0));
    var r := SkipElem(path, i);
    while r.Some?
      invariant i <= |path| && ip != 0 && Walk(t, ip, Elems(path, i)) == all
      invariant r.None? <==> Elems(path, i) == []
      invariant r.Some? ==>
                i < r.next <= |path| && r.name == Cut(Elems(path, i)[0]) && Elems(path, r.next) == Elems(path, i)[1..]
      decreases |path| - i
    {
      Onward(t, ip, Elems(path, i));
      CutTwice(Elems(path, i)[0]);
      NoWalk(t, Elems(path, i)[1..]);
      if !IsDir(t, ip) { return 0; }
      var next := Present(t[ip].names, Cut(r.name));
      if next == 0 { return 0; }
      ip, i := next, r.next;
      r := SkipElem(path, i);
    }
    assert Walk(t, ip, []) == ip by { WalkNone(t, ip); }
  }

  lemma WalkNone(t: Tree, ip: nat)
    ensures Walk(t, ip, []) == ip
  {
  }

  /** nameiparent's walk: it stops one element early. */
  method NameIParent(t: Tree, path: string, cwd: nat) returns (r: Found)
    requires cwd != 0
    ensures r == Parent(t, path, cwd)
  {
    hide Elems, Walk;
    var ip, i: nat := Start(path, cwd), 0;
    ghost var es := Elems(path, 0);
    ghost var at: nat := if es == [] then 0 else Walk(t, ip, es[..|es| - 1]);
    var e := SkipElem(path, i);
    while e.Some?
      invariant i <= |path| && ip != 0 && (i > 0 ==> es != [])
      invariant i == 0 || Elems(path, i) != []
      invariant Elems(path, i) != [] ==> es != [] && Elems(path, i)[|Elems(path, i)| - 1] == es[|es| - 1]
                                         && Walk(t, ip, Elems(path, i)[..|Elems(path, i)| - 1]) == at
      invariant e.None? <==> Elems(path, i) == []
      invariant e.Some? ==>
                i < e.next <= |path| && e.name == Cut(Elems(path, i)[0]) && Elems(path, e.next) == Elems(path, i)[1..]
                            && (e.next == |path| <==> |Elems(path, i)| == 1)
      decreases |path| - i
    {
      ghost var here := Elems(path, i);
      Onward(t, ip, here);
      CutTwice(here[0]);
      WalkNone(t, ip);
      NoWalk(t, here[1..]);
      if !IsDir(t, ip) {
        if |here| > 1 { NoWalk(t, here[1..][..|here| - 2]); }
        return Nowhere;
      }
      if e.next == |path| {
        assert here[..0] == [];
        return At(ip, e.name);
      }
      var next := Present(t[ip].names, Cut(e.name));
      if next == 0 {
        NoWalk(t, here[1..][..|here| - 2]);
        return Nowhere;
      }
      ip, i := next, e.next;
      e := SkipElem(path, i);
    }
    return Nowhere;
  }

  // ---------- Joining paths ----------

  /** From the same text, the same positions. */
  lemma {:induction false} SlashesShift(x: string, q: string, i: nat)
    requires i <= |q|
    ensures Slashes(x + q, |x| + i) == |x| + Slashes(q, i)
    decreases |q| - i
  {
    if i < |q| && q[i] == '/' { SlashesShift(x, q, i + 1); }
  }

  lemma {:induction false} PlainShift(x: string, q: string, i: nat)
    requires i <= |q|
    ensures Plain(x + q, |x| + i) == |x| + Plain(q, i)
    decreases |q| - i
  {
    if i < |q| && q[i] != '/' { PlainShift(x, q, i + 1); }
  }

  lemma {:induction false} ElemsShift(x: string, q: string, i: nat)
    requires i <= |q|
    ensures Elems(x + q, |x| + i) == Elems(q, i)
    decreases |q| - i
  {
    hide Slashes, Plain, Elems;
    SlashesShift(x, q, i);
    var s := Slashes(q, i);
    if s < |q| {
      PlainShift(x, q, s);
      ElemsShift(x, q, Plain(q, s));
      ElemsNext(q, i, s, Plain(q, s));
      ElemsNext(x + q, |x| + i, |x| + s, |x| + Plain(q, s));
      assert (x + q)[|x| + s..|x| + Plain(q, s)] == q[s..Plain(q, s)];
    } else {
      ElemsNone(q, i);
      ElemsNone(x + q, |x| + i);
    }
  }

  /** A slash in between keeps the elements apart. */
  lemma {:induction false} SlashesFront(p: string, q: string, i: nat)
    requires i <= |p|
    ensures Slashes(p, i) < |p| ==> Slashes(p + "/" + q, i) == Slashes(p, i)
    ensures Slashes(p, i) == |p| ==> Slashes(p + "/" + q, i) == Slashes(p + "/" + q, |p| + 1)
    decreases |p| - i
  {
    var all := p + "/" + q;
    assert all[|p|] == '/' && (i < |p| ==> all[i] == p[i]);
    if i < |p| && p[i] == '/' { SlashesFront(p, q, i + 1); }
  }

  lemma {:induction false} PlainFront(p: string, q: string, i: nat)
    requires i <= |p|
    ensures Plain(p + "/" + q, i) == Plain(p, i)
    decreases |p| - i
  {
    var all := p + "/" + q;
    assert all[|p|] == '/' && (i < |p| ==> all[i] == p[i]);
    if i < |p| && p[i] != '/' { PlainFront(p, q, i + 1); }
  }

  lemma {:induction false} ElemsJoin(p: string, q: string, i: nat)
    requires i <= |p|
    ensures Elems(p + "/" + q, i) == Elems(p, i) + Elems(q, 0)
    decreases |p| - i
  {
    hide Slashes, Plain, Elems;
    var all := p + "/" + q;
    SlashesFront(p, q, i);
    var s := Slashes(p, i);
    if s == |p| {
      ElemsSame(all, i, |p| + 1);
      assert all == (p + "/") + q;
      ElemsShift(p + "/", q, 0);
      ElemsNone(p, i);
      assert [] + Elems(q, 0) == Elems(q, 0);
    } else {
      var e := Plain(p, s);
      PlainFront(p, q, s);
      ElemsJoin(p, q, e);
      ElemsNext(p, i, s, e);
      ElemsNext(all, i, s, e);
      assert all[s..e] == p[s..e];
      assert [p[s..e]] + Elems(p, e) + Elems(q, 0) == [p[s..e]] + (Elems(p, e) + Elems(q, 0));
    }
  }

  lemma ElemsSame(path: string, i: nat, j: nat)
    requires i <= |path| && j <= |path| && Slashes(path, i) == Slashes(path, j)
    ensures Elems(path, i) == Elems(path, j)
  {
  }

  /** A path after a slash is looked up from where the path before it leads. */
  lemma LookupJoin(t: Tree, p: string, q: string, cwd: nat)
    requires p != "" && (q == "" || q[0] != '/')
    ensures Lookup(t, p + "/" + q, cwd) == Lookup(t, q, Lookup(t, p, cwd))
  {
    hide Elems, Walk;
    ElemsJoin(p, q, 0);
    WalkParts(t, Start(p, cwd), Elems(p, 0), Elems(q, 0));
  }

  // ---------- What a path says ----------

  /** The path that goes through these elements. */
  function Spelled(es: seq<string>): string {
    if es == [] then "" else Spelled(es[..|es| - 1]) + "/" + es[|es| - 1]
  }

  predicate Word(e: string) { e != "" && '/' !in e }

  lemma {:induction false} PlainAll(e: string, i: nat)
    requires '/' !in e && i <= |e|
    ensures Plain(e, i) == |e|
    decreases |e| - i
  {
    if i < |e| {
      assert e[i] in e;
      PlainAll(e, i + 1);
    }
  }

  lemma OneWord(e: string)
    requires Word(e)
    ensures Elems(e, 0) == [e]
  {
    assert e[0] in e;
    PlainAll(e, 0);
    assert Slashes(e, 0) == 0 && e[0..|e|] == e;
    ElemsNone(e, |e|);
  }

  /** The elements of a path spelled from elements are those. */
  lemma {:induction false} SpelledBack(es: seq<string>)
    requires forall k :: 0 <= k < |es| ==> Word(es[k])
    ensures Elems(Spelled(es), 0) == es
  {
    if es != [] {
      hide Elems;
      var n := |es| - 1;
      SpelledBack(es[..n]);
      ElemsJoin(Spelled(es[..n]), es[n], 0);
      OneWord(es[n]);
    } else {
      assert Slashes("", 0) == 0;
    }
  }

  /** A path that starts with a slash goes from the root, wherever the process is; any other goes from the
      current directory. */
  lemma Rooted(t: Tree, path: string, cwd: nat)
    ensures path != "" && path[0] == '/' ==> Lookup(t, path, cwd) == Walk(t, 1, Elems(path[1..], 0))
    ensures path == "" || path[0] != '/' ==> Lookup(t, path, cwd) == Walk(t, cwd, Elems(path, 0))
  {
    if path != "" && path[0] == '/' {
      assert path == "/" + path[1..];
      ElemsShift("/", path[1..], 0);
      assert Slashes(path, 0) == Slashes(path, 1);
    }
  }

  /** Directory `from` has `to` under this element. */
  predicate Entry(t: Tree, from: nat, elem: string, to: nat) {
    IsDir(t, from) && Cut(elem) in t[from].names && t[from].names[Cut(elem)] == to != 0
  }

  /** The inodes `via` lead from the first to the last, each a directory that has the next. */
  ghost predicate Leads(t: Tree, es: seq<string>, via: seq<nat>) {
    && |via| == |es| + 1 && via[0] != 0
    && forall k {:trigger es[k]} :: 0 <= k < |es| ==> Entry(t, via[k], es[k], via[k + 1])
  }

  /** The walk gets somewhere if there is such a way, and ends where the way ends. */
  lemma {:induction false} WalkLeads(t: Tree, es: seq<string>, via: seq<nat>)
    requires Leads(t, es, via)
    ensures Walk(t, via[0], es) == via[|es|] != 0
    decreases |es|
  {
    if es != [] {
      hide Cut;
      LeadsRest(t, es, via);
      WalkLeads(t, es[1..], via[1..]);
    }
  }

  lemma LeadsRest(t: Tree, es: seq<string>, via: seq<nat>)
    requires Leads(t, es, via) && es != []
    ensures Entry(t, via[0], es[0], via[1]) && Leads(t, es[1..], via[1..])
  {
    hide Entry;
    assert Entry(t, via[0], es[0], via[1]);
    assert via[1] != 0 by { EntrySome(t, via[0], es[0], via[1]); }
    forall k | 0 <= k < |es| - 1 ensures Entry(t, via[1..][k], es[1..][k], via[1..][k + 1]) {
      assert Entry(t, via[k + 1], es[k + 1], via[k + 2]);
    }
  }

  lemma EntrySome(t: Tree, from: nat, elem: string, to: nat)
    requires Entry(t, from, elem, to)
    ensures to != 0
  {
  }

  lemma LeadsOn(t: Tree, ip: nat, es: seq<string>, via: seq<nat>)
    requires es != [] && Leads(t, es[1..], via) && Entry(t, ip, es[0], via[0]) && ip != 0
    ensures Leads(t, es, [ip] + via)
  {
    hide Entry;
    forall k | 0 <= k < |es| ensures Entry(t, ([ip] + via)[k], es[k], ([ip] + via)[k + 1]) {
      if k > 0 { assert Entry(t, via[k - 1], es[1..][k - 1], via[k]); }
    }
  }

  /** ... and only if there is. */
  lemma {:induction false} WayOf(t: Tree, ip: nat, es: seq<string>) returns (via: seq<nat>)
    requires ip != 0 && Walk(t, ip, es) != 0
    ensures Leads(t, es, via) && via[0] == ip && via[|es|] == Walk(t, ip, es)
    decreases |es|
  {
    if es == [] {
      via := [ip];
    } else {
      hide Cut, Leads;
      NoWalk(t, es[1..]);
      var rest := WayOf(t, Step(t, ip, es[0]), es[1..]);
      LeadsOn(t, ip, es, rest);
      via := [ip] + rest;
    }
  }
}
