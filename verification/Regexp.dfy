/** grep's regular expression matcher against what a match means.  A string ends at its NUL, so the
    sequences here hold none. */
module Regexp {

  /** A pattern as the matcher reads it: a character or dot, one of those starred, or a final $. */
  datatype Item = One(c: char) | Star(c: char) | End

  function Items(re: string): seq<Item> {
    if re == "" then []
    else if |re| > 1 && re[1] == '*' then [Star(re[0])] + Items(re[2..])
    else if re == "$" then [End]
    else [One(re[0])] + Items(re[1..])
  }

  // ---------- What a match is ----------

  predicate Ok(c: char, x: char) { c == '.' || x == c }

  /** A piece of text that an item stands for. */
  ghost predicate Fits(item: Item, w: string) {
    match item
    case One(c) => |w| == 1 && Ok(c, w[0])
    case Star(c) => forall k :: 0 <= k < |w| ==> Ok(c, w[k])
    case End => w == ""
  }

  ghost function Flatten(ws: seq<string>): string {
    if ws == [] then "" else ws[0] + Flatten(ws[1..])
  }

  /** `ws` are pieces for all the items, and nothing is left over after a $. */
  ghost predicate Accepts(items: seq<Item>, ws: seq<string>, post: string) {
    && |ws| == |items| && (forall k :: 0 <= k < |items| ==> Fits(items[k], ws[k]))
    && (End in items ==> post == "")
  }

  /** Some beginning of `text` matches. */
  ghost predicate Here(items: seq<Item>, text: string) {
    exists ws, post :: text == Flatten(ws) + post && Accepts(items, ws, post)
  }

  /** Some part of `text` matches. */
  ghost predicate Somewhere(items: seq<Item>, text: string) {
    exists pre, ws, post :: text == pre + Flatten(ws) + post && Accepts(items, ws, post)
  }

  /** What match is to answer: a ^ asks for a match at the start, otherwise anywhere. */
  ghost predicate Matches(re: string, text: string) {
    if re != "" && re[0] == '^' then Here(Items(re[1..]), text) else Somewhere(Items(re), text)
  }

  // ---------- Item by item ----------

  lemma HereNone(text: string)
    ensures Here([], text)
  {
    assert text == Flatten([]) + text && Accepts([], [], text);
  }

  lemma HereEnd(text: string)
    ensures Here([End], text) <==> text == ""
  {
    if text == "" {
      assert Flatten([""]) == "" + Flatten([]);
      assert text == Flatten([""]) + "" && Accepts([End], [""], "");
    }
    if Here([End], text) {
      var ws, post :| text == Flatten(ws) + post && Accepts([End], ws, post);
      assert Fits([End][0], ws[0]) && ws[1..] == [];
      assert End in [End];
    }
  }

  /** Put a piece for the first item in front. */
  lemma HereCons(item: Item, items: seq<Item>, w: string, text: string)
    requires Fits(item, w) && item != End && Here(items, text)
    ensures Here([item] + items, w + text)
  {
    var ws, post :| text == Flatten(ws) + post && Accepts(items, ws, post);
    var vs := [w] + ws;
    assert vs[1..] == ws;
    assert w + text == Flatten(vs) + post;
    var all := [item] + items;
    forall k | 0 <= k < |all| ensures Fits(all[k], vs[k]) {
      if k > 0 { assert Fits(items[k - 1], ws[k - 1]); }
    }
    assert End in all ==> End in items;
    assert Accepts(all, vs, post);
  }

  /** Take the piece for the first item off. */
  lemma HereSplit(item: Item, items: seq<Item>, text: string) returns (w: string, rest: string)
    requires Here([item] + items, text)
    ensures text == w + rest && Fits(item, w) && Here(items, rest)
  {
    var all := [item] + items;
    var ws, post :| text == Flatten(ws) + post && Accepts(all, ws, post);
    w, rest := ws[0], Flatten(ws[1..]) + post;
    assert Fits(all[0], ws[0]);
    forall k | 0 <= k < |items| ensures Fits(items[k], ws[1..][k]) {
      assert Fits(all[k + 1], ws[k + 1]);
    }
    assert End in items ==> End in all;
    assert Accepts(items, ws[1..], post);
  }

  lemma HereOne(c: char, items: seq<Item>, text: string)
    ensures Here([One(c)] + items, text) <==> text != "" && Ok(c, text[0]) && Here(items, text[1..])
  {
    if text != "" && Ok(c, text[0]) && Here(items, text[1..]) {
      HereCons(One(c), items, text[..1], text[1..]);
      assert text[..1] + text[1..] == text;
    }
    if Here([One(c)] + items, text) {
      var w, rest := HereSplit(One(c), items, text);
      assert rest == text[1..];
    }
  }

  /** The first `k` characters can all be taken by the starred character. */
  ghost predicate Run(c: char, text: string, k: nat) {
    k <= |text| && forall j :: 0 <= j < k ==> Ok(c, text[j])
  }

  lemma HereStar(c: char, items: seq<Item>, text: string)
    ensures Here([Star(c)] + items, text) <==> exists k :: 0 <= k <= |text| && Run(c, text, k) && Here(items, text[k..])
  {
    if k :| 0 <= k <= |text| && Run(c, text, k) && Here(items, text[k..]) {
      HereCons(Star(c), items, text[..k], text[k..]);
      assert text[..k] + text[k..] == text;
    }
    if Here([Star(c)] + items, text) {
      var w, rest := HereSplit(Star(c), items, text);
      assert rest == text[|w|..];
      assert forall j :: 0 <= j < |w| ==> text[j] == w[j];
      assert Run(c, text, |w|);
    }
  }

  lemma SomewhereAt(items: seq<Item>, text: string, i: nat)
    requires i <= |text| && Here(items, text[i..])
    ensures Somewhere(items, text)
  {
    hide Flatten, Accepts;
    var ws, post :| text[i..] == Flatten(ws) + post && Accepts(items, ws, post);
    assert text == text[..i] + Flatten(ws) + post;
  }

  lemma PlaceOfMatch(items: seq<Item>, text: string) returns (i: nat)
    requires Somewhere(items, text)
    ensures i <= |text| && Here(items, text[i..])
  {
    hide Flatten, Accepts;
    var pre, ws, post :| text == pre + Flatten(ws) + post && Accepts(items, ws, post);
    i := |pre|;
    assert text[i..] == Flatten(ws) + post;
  }

  lemma SomewhereIs(items: seq<Item>, text: string)
    ensures Somewhere(items, text) <==> exists i :: 0 <= i <= |text| && Here(items, text[i..])
  {
    hide Here, Somewhere;
    if i :| 0 <= i <= |text| && Here(items, text[i..]) { SomewhereAt(items, text, i); }
    if Somewhere(items, text) { var i := PlaceOfMatch(items, text); }
  }

  // ---------- The matcher ----------

  /** match: look for `re` anywhere, or at the start after ^. */
  method Match(re: string, text: string) returns (r: bool)
    ensures r <==> Matches(re, text)
  {
    if re != "" && re[0] == '^' {
      r := MatchHere(re[1..], text);
      return;
    }
    SomewhereIs(Items(re), text);
    var i := 0;
    while true
      invariant i <= |text| && forall j :: 0 <= j < i ==> !Here(Items(re), text[j..])
      decreases |text| - i
    {
      r := MatchHere(re, text[i..]);
      if r { return true; }
      if i == |text| { return false; }
      i := i + 1;
    }
  }

  /** matchhere: does `re` match at the beginning of `text`? */
  method MatchHere(re: string, text: string) returns (r: bool)
    ensures r <==> Here(Items(re), text)
    decreases |re|, 1
  {
    hide Here;
    if re == "" {
      HereNone(text);
      return true;
    }
    if |re| > 1 && re[1] == '*' {
      r := MatchStar(re[0], re[2..], text);
      return;
    }
    if re == "$" {
      HereEnd(text);
      return text == "";
    }
    HereOne(re[0], Items(re[1..]), text);
    if text != "" && (re[0] == '.' || re[0] == text[0]) {
      r := MatchHere(re[1..], text[1..]);
      return;
    }
    return false;
  }

  /** matchstar: does `c`* and then `re` match at the beginning of `text`? */
  method MatchStar(c: char, re: string, text: string) returns (r: bool)
    ensures r <==> Here([Star(c)] + Items(re), text)
    decreases |re|, 2
  {
    hide Here;
    HereStar(c, Items(re), text);
    var i := 0;
    while true
      invariant i <= |text| && Run(c, text, i) && forall k :: 0 <= k < i ==> !Here(Items(re), text[k..])
      decreases |text| - i
    {
      r := MatchHere(re, text[i..]);
      if r { return true; }
      if i == |text| || !(text[i] == c || c == '.') {
        assert forall k :: 0 <= k <= |text| && Run(c, text, k) ==> k <= i;
        return false;
      }
      i := i + 1;
    }
  }
}
