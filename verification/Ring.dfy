/** A circular doubly linked list through two index tables. */
module Ring {

  function After(n: nat, i: nat): nat { if i + 1 < n then i + 1 else 0 }

  /** Places `i` and the one after it lead to each other. */
  predicate LinkAt(next: seq<nat>, prev: seq<nat>, ring: seq<nat>, i: nat)
    requires i < |ring|
  {
    var a, b := ring[i], ring[After(|ring|, i)];
    a < |next| && b < |prev| && next[a] == b && prev[b] == a
  }

  ghost predicate Distinct(s: seq<nat>) { forall i, j :: 0 <= i < j < |s| ==> s[i] != s[j] }

  /** The tables hold exactly the circle `ring`. */
  ghost predicate Linked(next: seq<nat>, prev: seq<nat>, ring: seq<nat>) {
    |ring| > 0 && Distinct(ring) && forall i :: 0 <= i < |ring| ==> LinkAt(next, prev, ring, i)
  }

  lemma Different(s: seq<nat>, i: nat, j: nat)
    requires Distinct(s) && i < |s| && j < |s|
    ensures i != j ==> s[i] != s[j]
  {
  }

  // ---------- Taking one out ----------

  function Removed(ring: seq<nat>, k: nat): seq<nat>
    requires k < |ring|
  {
    ring[..k] + ring[k + 1..]
  }

  lemma RemovedDistinct(ring: seq<nat>, k: nat)
    requires Distinct(ring) && k < |ring|
    ensures Distinct(Removed(ring, k)) && ring[k] !in Removed(ring, k)
  {
    var now := Removed(ring, k);
    forall i, j | 0 <= i < j < |now| ensures now[i] != now[j] {
      Different(ring, if i < k then i else i + 1, if j < k then j else j + 1);
    }
    forall i | 0 <= i < |now| ensures now[i] != ring[k] {
      Different(ring, if i < k then i else i + 1, k);
    }
  }

  /** The two stores that take the node at place `k` out. */
  lemma RemovedLink(next: seq<nat>, prev: seq<nat>, ring: seq<nat>, k: nat, next': seq<nat>, prev': seq<nat>,
                    now: seq<nat>, i: nat)
    requires 0 < k < |ring| && now == Removed(ring, k) && Distinct(now) && i < |now|
    requires LinkAt(next, prev, ring, k - 1) && LinkAt(next, prev, ring, k)
    requires LinkAt(next, prev, ring, if i < k then i else i + 1)
    requires prev' == prev[next[ring[k]] := prev[ring[k]]] && next' == next[prev[ring[k]] := next[ring[k]]]
    ensures LinkAt(next', prev', now, i)
  {
    hide Distinct;
    Different(now, i, k - 1);
    Different(now, After(|now|, i), After(|now|, k - 1));
    assert now[k - 1] == ring[k - 1];
    assert now[i] == ring[if i < k then i else i + 1];
    assert i != k - 1 ==> now[After(|now|, i)] == ring[After(|ring|, if i < k then i else i + 1)];
    assert now[After(|now|, k - 1)] == ring[After(|ring|, k)];
  }

  lemma RemoveLinks(next: seq<nat>, prev: seq<nat>, ring: seq<nat>, k: nat, next': seq<nat>, prev': seq<nat>)
    requires Linked(next, prev, ring) && 0 < k < |ring|
    requires LinkAt(next, prev, ring, k - 1) && LinkAt(next, prev, ring, k)
    requires prev' == prev[next[ring[k]] := prev[ring[k]]] && next' == next[prev[ring[k]] := next[ring[k]]]
    ensures Linked(next', prev', Removed(ring, k))
  {
    hide LinkAt, Distinct;
    RemovedDistinct(ring, k);
    forall i | 0 <= i < |Removed(ring, k)| ensures LinkAt(next', prev', Removed(ring, k), i) {
      RemovedLink(next, prev, ring, k, next', prev', Removed(ring, k), i);
    }
  }

  // ---------- Putting one in front ----------

  function Fronted(ring: seq<nat>, b: nat): seq<nat>
    requires |ring| > 0
  {
    [ring[0], b] + ring[1..]
  }

  lemma FrontedDistinct(ring: seq<nat>, b: nat)
    requires Distinct(ring) && |ring| > 0 && b !in ring
    ensures Distinct(Fronted(ring, b))
  {
    var now := Fronted(ring, b);
    assert forall i :: 0 <= i < |ring| ==> ring[i] != b;
    forall i, j | 0 <= i < j < |now| ensures now[i] != now[j] {
      if i != 1 && j != 1 { Different(ring, if i == 0 then 0 else i - 1, j - 1); }
    }
  }

  /** The four stores that put `b` right after the head. */
  lemma FrontedLink(next: seq<nat>, prev: seq<nat>, ring: seq<nat>, b: nat, next': seq<nat>, prev': seq<nat>,
                    now: seq<nat>, i: nat)
    requires |ring| > 0 && now == Fronted(ring, b) && Distinct(now) && i < |now| && b < |next| && b < |prev|
             && b !in ring
    requires LinkAt(next, prev, ring, 0) && (i > 1 ==> LinkAt(next, prev, ring, i - 1))
    requires next' == next[b := next[ring[0]]][ring[0] := b] && prev' == prev[b := ring[0]][next[ring[0]] := b]
    ensures LinkAt(next', prev', now, i)
  {
    hide Distinct;
    Different(now, i, 0);
    Different(now, i, 1);
    assert next[ring[0]] in ring;
    if i == 1 {
      assert now[After(|now|, 1)] == ring[After(|ring|, 0)];
    } else if i > 1 {
      assert now[i] == ring[i - 1] && now[After(|now|, i)] == ring[After(|ring|, i - 1)];
      assert now[After(|now|, 1)] == ring[After(|ring|, 0)];
      Different(now, After(|now|, i), After(|now|, 1));
      Different(now, After(|now|, i), 1);
    }
  }

  lemma FrontLinks(next: seq<nat>, prev: seq<nat>, ring: seq<nat>, b: nat, next': seq<nat>, prev': seq<nat>)
    requires Linked(next, prev, ring) && b < |next| && b < |prev| && b !in ring && LinkAt(next, prev, ring, 0)
    requires next' == next[b := next[ring[0]]][ring[0] := b] && prev' == prev[b := ring[0]][next[ring[0]] := b]
    ensures Linked(next', prev', Fronted(ring, b))
  {
    hide LinkAt, Distinct;
    FrontedDistinct(ring, b);
    forall i | 0 <= i < |Fronted(ring, b)| ensures LinkAt(next', prev', Fronted(ring, b), i) {
      if i > 1 { assert LinkAt(next, prev, ring, i - 1); }
      FrontedLink(next, prev, ring, b, next', prev', Fronted(ring, b), i);
    }
  }
}
