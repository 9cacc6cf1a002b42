/** The shell's tokens as characters of a line. */
module ShellLexer {
  import opened ShellGrammar

  predicate IsSpace(c: char) { c in {' ', '\t', '\r', '\n', '\U{0b}'} }

  predicate IsSymbol(c: char) { c in {'<', '|', '>', '&', ';', '(', ')'} }

  predicate InWord(c: char) { !IsSpace(c) && !IsSymbol(c) }

  function Skip(line: string, i: nat): (j: nat)
    requires i <= |line|
    ensures i <= j <= |line| && (j == |line| || !IsSpace(line[j]))
    decreases |line| - i
  {
    if i < |line| && IsSpace(line[i]) then Skip(line, i + 1) else i
  }

  function WordEnd(line: string, i: nat): (j: nat)
    requires i <= |line|
    ensures i <= j <= |line| && (j == |line| || !InWord(line[j]))
    ensures forall k :: i <= k < j ==> InWord(line[k])
    decreases |line| - i
  {
    if i < |line| && InWord(line[i]) then WordEnd(line, i + 1) else i
  }

  /** Where the token that starts at `i` ends. */
  function EndAt(line: string, i: nat): (j: nat)
    requires i < |line| && !IsSpace(line[i])
    ensures i < j <= |line|
  {
    if InWord(line[i]) then WordEnd(line, i)
    else if line[i] == '>' && i + 1 < |line| && line[i + 1] == '>' then i + 2
    else i + 1
  }

  function TokenAt(line: string, i: nat): Token
    requires i < |line| && !IsSpace(line[i])
  {
    match line[i]
    case '|' => Bar
    case '(' => Open
    case ')' => Close
    case ';' => Semi
    case '&' => Amp
    case '<' => Direct(In)
    case '>' => Direct(if EndAt(line, i) == i + 2 then Append else Out)
    case _ => Word(line[i..EndAt(line, i)])
  }

  /** The tokens from position `i` on. */
  function Toks(line: string, i: nat): seq<Token>
    requires i <= |line|
    decreases |line| - i
  {
    var j := Skip(line, i);
    if j == |line| then [] else [TokenAt(line, j)] + Toks(line, EndAt(line, j))
  }

  lemma {:induction false} SkipTwice(line: string, i: nat)
    requires i <= |line|
    ensures Skip(line, Skip(line, i)) == Skip(line, i) && Toks(line, Skip(line, i)) == Toks(line, i)
  {
  }

  // ---------- Spelling tokens ----------

  predicate BlankChar(c: char) { c == ' ' || c == '\t' || c == '\r' || c == '\n' || c == '\U{0b}' }

  predicate SymbolChar(c: char) {
    c == '<' || c == '|' || c == '>' || c == '&' || c == ';' || c == '(' || c == ')'
  }

  predicate GoodWord(w: string) { w != "" && forall c :: c in w ==> !BlankChar(c) && !SymbolChar(c) }

  predicate GoodToken(t: Token) { t.Word? ==> GoodWord(t.text) }

  function Spell(t: Token): string {
    match t
    case Bar => "|"
    case Open => "("
    case Close => ")"
    case Semi => ";"
    case Amp => "&"
    case Direct(In) => "<"
    case Direct(Out) => ">"
    case Direct(Append) => ">>"
    case Word(w) => w
  }

  lemma {:induction false} WordStops(line: string, i: nat, e: nat)
    requires i <= e <= |line| && (forall k :: i <= k < e ==> InWord(line[k])) && (e == |line| || !InWord(line[e]))
    ensures WordEnd(line, i) == e
    decreases e - i
  {
    if i < e { WordStops(line, i + 1, e); }
  }

  /** A run of blanks, perhaps none. */
  predicate Blank(gap: string) { forall c :: c in gap ==> BlankChar(c) }

  /** The second token may follow the first with nothing in between. */
  predicate Apart(t: Token, u: Token) {
    !(t.Word? && u.Word?) && !(t == Direct(Out) && (u == Direct(Out) || u == Direct(Append)))
  }

  /** The tokens spelled with `gaps[k]` before token `k` and the last gap at the end. */
  function Spaced(ts: seq<Token>, gaps: seq<string>): string
    requires |gaps| == |ts| + 1
  {
    if ts == [] then gaps[0] else gaps[0] + Spell(ts[0]) + Spaced(ts[1..], gaps[1..])
  }

  /** Blanks between the tokens wherever they are needed. */
  predicate WellSpaced(ts: seq<Token>, gaps: seq<string>) {
    && |gaps| == |ts| + 1 && (forall k :: 0 <= k < |gaps| ==> Blank(gaps[k]))
    && (forall k :: 0 < k < |ts| && gaps[k] == "" ==> Apart(ts[k - 1], ts[k]))
  }

  /** What follows does not run on into the token. */
  predicate CutOff(t: Token, rest: string) {
    rest == "" || ((t.Word? ==> !InWord(rest[0])) && (t == Direct(Out) ==> rest[0] != '>'))
  }

  /** A token spelled at `i` is read, if what follows does not run on into it. */
  lemma ReadsToken(line: string, i: nat, t: Token)
    requires GoodToken(t) && i + |Spell(t)| <= |line| && line[i..i + |Spell(t)|] == Spell(t)
    requires CutOff(t, line[i + |Spell(t)|..])
    ensures i < |line| && !IsSpace(line[i]) && TokenAt(line, i) == t && EndAt(line, i) == i + |Spell(t)|
  {
    var e := i + |Spell(t)|;
    assert forall k :: i <= k < e ==> line[k] == Spell(t)[k - i];
    if t.Word? {
      forall k | i <= k < e ensures InWord(line[k]) {
        assert t.text[k - i] in t.text;
      }
      WordStops(line, i, e);
    } else {
      assert line[i] == Spell(t)[0];
      if t == Direct(Append) { assert line[i + 1] == Spell(t)[1]; }
    }
  }

  lemma {:induction false} SkipGap(line: string, i: nat, e: nat)
    requires i <= e <= |line| && Blank(line[i..e]) && (e == |line| || !IsSpace(line[e]))
    ensures Skip(line, i) == e
    decreases e - i
  {
    if i < e {
      var gap := line[i..e];
      assert gap[0] in gap && line[i] == gap[0] && line[i + 1..e] == gap[1..];
      assert forall c :: c in gap[1..] ==> c in gap;
      SkipGap(line, i + 1, e);
    }
  }

  /** What follows a token does not run on into it: a blank, or a token that may follow at once. */
  lemma RestStops(t: Token, ts: seq<Token>, gaps: seq<string>)
    requires |gaps| == |ts| + 1 && Blank(gaps[0]) && (forall u :: u in ts ==> GoodToken(u))
    requires ts != [] && gaps[0] == "" ==> Apart(t, ts[0])
    ensures CutOff(t, Spaced(ts, gaps))
  {
    var rest := Spaced(ts, gaps);
    if gaps[0] != "" {
      assert gaps[0][0] in gaps[0] && rest[0] == gaps[0][0];
    } else if ts != [] {
      assert GoodToken(ts[0]);
      assert rest[0] == Spell(ts[0])[0];
      assert ts[0].Word? ==> rest[0] in ts[0].text;
    }
  }

  lemma WellSpacedRest(ts: seq<Token>, gaps: seq<string>)
    requires WellSpaced(ts, gaps) && ts != []
    ensures Blank(gaps[0]) && Blank(gaps[1..][0]) && WellSpaced(ts[1..], gaps[1..])
    ensures |ts| > 1 && gaps[1..][0] == "" ==> Apart(ts[0], ts[1..][0])
  {
    hide Blank, Apart;
    var us, hs := ts[1..], gaps[1..];
    forall k | 0 < k < |us| && hs[k] == "" ensures Apart(us[k - 1], us[k]) {
      assert gaps[k + 1] == "";
    }
  }

  /** Where the first gap and the first token end. */
  lemma SpacedParts(line: string, i: nat, ts: seq<Token>, gaps: seq<string>, s: nat, e: nat)
    requires i <= |line| && |gaps| == |ts| + 1 && ts != [] && line[i..] == Spaced(ts, gaps)
    requires s == i + |gaps[0]| && e == s + |Spell(ts[0])|
    ensures e <= |line| && line[i..s] == gaps[0] && line[s..e] == Spell(ts[0])
    ensures line[e..] == Spaced(ts[1..], gaps[1..])
  {
    hide Spell;
    var g, first, more, here := gaps[0], Spell(ts[0]), Spaced(ts[1..], gaps[1..]), line[i..];
    assert here == g + first + more && |here| == |g| + |first| + |more|;
    assert here[..|g|] == g && here[|g|..|g| + |first|] == first && here[|g| + |first|..] == more;
    assert line[i..s] == here[..|g|] && line[s..e] == here[|g|..|g| + |first|] && line[e..] == here[|g| + |first|..];
  }

  lemma {:induction false} ReadsRest(line: string, i: nat, ts: seq<Token>, gaps: seq<string>)
    requires i <= |line| && WellSpaced(ts, gaps) && line[i..] == Spaced(ts, gaps)
    requires forall t :: t in ts ==> GoodToken(t)
    ensures Toks(line, i) == ts
    decreases |ts|
  {
    if ts != [] {
      hide Toks, Spaced, TokenAt, EndAt, Spell, IsSpace, GoodToken, Blank, Apart, CutOff, WellSpaced, Skip;
      WellSpacedRest(ts, gaps);
      var s := i + |gaps[0]|;
      var e := s + |Spell(ts[0])|;
      SpacedParts(line, i, ts, gaps, s, e);
      RestStops(ts[0], ts[1..], gaps[1..]);
      ReadsToken(line, s, ts[0]);
      SkipGap(line, i, s);
      OneToken(line, i, s);
      ReadsRest(line, e, ts[1..], gaps[1..]);
      assert [ts[0]] + ts[1..] == ts;
    } else {
      hide TokenAt, EndAt, Spell;
      assert line[i..|line|] == line[i..];
      SkipGap(line, i, |line|);
    }
  }

  lemma OneToken(line: string, i: nat, s: nat)
    requires i <= s < |line| && Skip(line, i) == s
    ensures Toks(line, i) == [TokenAt(line, s)] + Toks(line, EndAt(line, s))
  {
  }

  /** Reading tokens spelled with any blanks between them, or none where none is needed, gives them back. */
  lemma ReadsSpaced(ts: seq<Token>, gaps: seq<string>)
    requires WellSpaced(ts, gaps) && forall t :: t in ts ==> GoodToken(t)
    ensures Toks(Spaced(ts, gaps), 0) == ts
  {
    assert Spaced(ts, gaps)[0..] == Spaced(ts, gaps);
    ReadsRest(Spaced(ts, gaps), 0, ts, gaps);
  }
}
