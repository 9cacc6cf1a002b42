/** The shell's command trees, a printer for them, and its parser on tokens. */
module ShellGrammar {

  const MAXARGS: nat := 10

  datatype Kind = In | Out | Append         // <  >  >>

  /** A command; `W` is what a word is. */
  datatype Cmd<W> =
    | Exec(argv: seq<W>)
    | Redir(cmd: Cmd<W>, kind: Kind, file: W)
    | Pipe(left: Cmd<W>, right: Cmd<W>)
    | List(left: Cmd<W>, right: Cmd<W>)
    | Back(cmd: Cmd<W>)

  datatype Token = Bar | Open | Close | Semi | Amp | Direct(kind: Kind) | Word(text: string)

  type Tree = Cmd<string>

  // ---------- The parser on tokens ----------

  datatype Result = Fail | Ok(cmd: Tree, rest: seq<Token>)

  /** One redirection on top of a command. */
  function Wrap(cmd: Tree, ts: seq<Token>): (r: Result)
    ensures r.Ok? ==> |r.rest| <= |ts|
    decreases |ts|
  {
    if ts == [] || !ts[0].Direct? then Ok(cmd, ts)
    else if |ts| == 1 || !ts[1].Word? then Fail
    else Wrap(Redir(cmd, ts[0].kind, ts[1].text), ts[2..])
  }

  /** The redirections that `rs` stands for, on top of a command. */
  function Wrapped<W>(cmd: Cmd<W>, rs: seq<(Kind, W)>): Cmd<W> {
    if rs == [] then cmd else Redir(Wrapped(cmd, rs[..|rs| - 1]), rs[|rs| - 1].0, rs[|rs| - 1].1)
  }

  datatype Gathered = Missing | Got(redirs: seq<(Kind, string)>, rest: seq<Token>)

  /** parseredirs, with the redirections listed instead of put on top. */
  function Gather(ts: seq<Token>, rs: seq<(Kind, string)>): (r: Gathered)
    ensures r.Got? ==> |r.rest| <= |ts|
    decreases |ts|
  {
    if ts == [] || !ts[0].Direct? then Got(rs, ts)
    else if |ts| == 1 || !ts[1].Word? then Missing
    else Gather(ts[2..], rs + [(ts[0].kind, ts[1].text)])
  }

  predicate Stops(ts: seq<Token>) { ts == [] || ts[0] in {Bar, Close, Amp, Semi} }

  /** parseexec after its test for a parenthesis: words and redirections in any order. */
  function Args(ts: seq<Token>, argv: seq<string>, rs: seq<(Kind, string)>): (r: Result)
    ensures r.Ok? ==> |r.rest| <= |ts|
    decreases |ts|
  {
    if Stops(ts) then Ok(Wrapped(Exec(argv), rs), ts)
    else if ts[0].Direct? then
      if |ts| == 1 || !ts[1].Word? then Fail else Args(ts[2..], argv, rs + [(ts[0].kind, ts[1].text)])
    else if ts[0].Word? then
      if |argv| + 1 >= MAXARGS then Fail else Args(ts[1..], argv + [ts[0].text], rs)
    else Fail
  }

  function ParseExec(ts: seq<Token>): (r: Result)
    ensures r.Ok? ==> |r.rest| <= |ts|
    decreases |ts|, 0
  {
    if ts != [] && ts[0] == Open then
      var r := ParseLine(ts[1..]);
      if r.Fail? || r.rest == [] || r.rest[0] != Close then Fail else Wrap(r.cmd, r.rest[1..])
    else Args(ts, [], [])
  }

  function ParsePipe(ts: seq<Token>): (r: Result)
    ensures r.Ok? ==> |r.rest| <= |ts|
    decreases |ts|, 1
  {
    var l := ParseExec(ts);
    if l.Fail? || l.rest == [] || l.rest[0] != Bar then l
    else
      var r := ParsePipe(l.rest[1..]);
      if r.Fail? then Fail else Ok(Pipe(l.cmd, r.cmd), r.rest)
  }

  /** The & loop of parseline. */
  function Backs(cmd: Tree, ts: seq<Token>): (r: Result)
    ensures r.Ok? && |r.rest| <= |ts|
    decreases |ts|
  {
    if ts != [] && ts[0] == Amp then Backs(Back(cmd), ts[1..]) else Ok(cmd, ts)
  }

  function ParseLine(ts: seq<Token>): (r: Result)
    ensures r.Ok? ==> |r.rest| <= |ts|
    decreases |ts|, 2
  {
    var p := ParsePipe(ts);
    if p.Fail? then Fail
    else
      var l := Backs(p.cmd, p.rest);
      if l.rest == [] || l.rest[0] != Semi then l
      else
        var r := ParseLine(l.rest[1..]);
        if r.Fail? then Fail else Ok(List(l.cmd, r.cmd), r.rest)
  }

  /** parsecmd: a line and nothing after it. */
  function Parse(ts: seq<Token>): Result {
    var r := ParseLine(ts);
    if r.Ok? && r.rest == [] then r else Fail
  }

  // ---------- The printer ----------

  /** How loosely a command binds: what may stand without parentheses where. */
  function Level(cmd: Tree): nat {
    match cmd
    case Exec(_) => 0
    case Redir(_, _, _) => 0
    case Pipe(_, _) => 1
    case Back(_) => 2
    case List(_, _) => 3
  }

  function Words(ws: seq<string>): seq<Token> {
    if ws == [] then [] else [Word(ws[0])] + Words(ws[1..])
  }

  function Print(cmd: Tree, level: nat): seq<Token>
    decreases cmd, 1
  {
    if Level(cmd) <= level then Bare(cmd) else [Open] + Bare(cmd) + [Close]
  }

  function Bare(cmd: Tree): seq<Token>
    decreases cmd, 0
  {
    match cmd
    case Exec(argv) => Words(argv)
    case Redir(c, k, f) => Print(c, 0) + [Direct(k), Word(f)]
    case Pipe(l, r) => Print(l, 0) + [Bar] + Print(r, 1)
    case Back(c) => Print(c, 2) + [Amp]
    case List(l, r) => Print(l, 2) + [Semi] + Print(r, 3)
  }

  /** Every command has fewer than MAXARGS arguments. */
  predicate FewArgs(cmd: Tree) {
    match cmd
    case Exec(argv) => |argv| < MAXARGS
    case Redir(c, _, _) => FewArgs(c)
    case Pipe(l, r) => FewArgs(l) && FewArgs(r)
    case Back(c) => FewArgs(c)
    case List(l, r) => FewArgs(l) && FewArgs(r)
  }

  // ---------- Parsing undoes printing ----------

  /** What may follow a command of each level so that it ends there. */
  predicate Follow(level: nat, rest: seq<Token>) {
    rest == [] || rest[0] == Close || (level < 3 && rest[0] == Semi) || (level < 2 && rest[0] == Amp)
        || (level < 1 && rest[0] == Bar)
  }

  lemma {:induction false} ArgsWords(ws: seq<string>, rest: seq<Token>, argv: seq<string>)
    requires |argv| + |ws| < MAXARGS
    ensures Args(Words(ws) + rest, argv, []) == Args(rest, argv + ws, [])
  {
    hide Wrapped;
    if ws == [] {
      assert Words(ws) + rest == rest && argv + ws == argv;
    } else {
      var ts := Words(ws) + rest;
      assert ts[0] == Word(ws[0]) && ts[1..] == Words(ws[1..]) + rest;
      assert Args(ts, argv, []) == Args(ts[1..], argv + [ws[0]], []);
      hide Words, Args;
      ArgsWords(ws[1..], rest, argv + [ws[0]]);
      assert argv + [ws[0]] + ws[1..] == argv + ws;
    }
  }

  function Redirs(rs: seq<(Kind, string)>): seq<Token> {
    if rs == [] then [] else [Direct(rs[0].0), Word(rs[0].1)] + Redirs(rs[1..])
  }

  lemma {:induction false} ArgsRedirs(rs: seq<(Kind, string)>, rest: seq<Token>, argv: seq<string>,
                                      done: seq<(Kind, string)>)
    ensures Args(Redirs(rs) + rest, argv, done) == Args(rest, argv, done + rs)
  {
    if rs == [] {
      assert Redirs(rs) + rest == rest && done + rs == done;
    } else {
      var ts := Redirs(rs) + rest;
      assert ts[0] == Direct(rs[0].0) && ts[1] == Word(rs[0].1) && ts[2..] == Redirs(rs[1..]) + rest;
      ArgsRedirs(rs[1..], rest, argv, done + [rs[0]]);
      assert done + [rs[0]] + rs[1..] == done + rs;
    }
  }

  lemma {:induction false} WrapRedirs(cmd: Tree, rs: seq<(Kind, string)>, rest: seq<Token>, done: seq<(Kind, string)>)
    requires rest == [] || !rest[0].Direct?
    ensures Wrap(Wrapped(cmd, done), Redirs(rs) + rest) == Ok(Wrapped(cmd, done + rs), rest)
  {
    if rs == [] {
      assert Redirs(rs) + rest == rest && done + rs == done;
    } else {
      var more := done + [rs[0]];
      WrapRedirs(cmd, rs[1..], rest, more);
      assert more + rs[1..] == done + rs;
      WrapOne(cmd, rs, rest, done, more);
    }
  }

  lemma WrapOne(cmd: Tree, rs: seq<(Kind, string)>, rest: seq<Token>, done: seq<(Kind, string)>,
                more: seq<(Kind, string)>)
    requires rs != [] && more == done + [rs[0]]
    ensures Wrap(Wrapped(cmd, done), Redirs(rs) + rest) == Wrap(Wrapped(cmd, more), Redirs(rs[1..]) + rest)
  {
    var ts := Redirs(rs) + rest;
    assert ts[0] == Direct(rs[0].0) && ts[1] == Word(rs[0].1) && ts[2..] == Redirs(rs[1..]) + rest;
    assert more[..|more| - 1] == done;
  }

  /** A command of level 0 is redirections on top of a base that is not one. */
  function Base(cmd: Tree): Tree { if cmd.Redir? then Base(cmd.cmd) else cmd }
  function Tops(cmd: Tree): seq<(Kind, string)> { if cmd.Redir? then Tops(cmd.cmd) + [(cmd.kind, cmd.file)] else [] }

  lemma {:induction false} BaseTops(cmd: Tree)
    ensures Wrapped(Base(cmd), Tops(cmd)) == cmd && !Base(cmd).Redir?
  {
    if cmd.Redir? {
      BaseTops(cmd.cmd);
      var rs := Tops(cmd);
      assert rs[..|rs| - 1] == Tops(cmd.cmd);
    }
  }

  lemma {:induction false} RedirsMore(rs: seq<(Kind, string)>, r: (Kind, string))
    ensures Redirs(rs + [r]) == Redirs(rs) + [Direct(r.0), Word(r.1)]
  {
    if rs != [] {
      assert (rs + [r])[1..] == rs[1..] + [r];
      RedirsMore(rs[1..], r);
    } else {
      assert (rs + [r])[1..] == [];
    }
  }

  lemma {:induction false} PrintTops(cmd: Tree)
    ensures Print(cmd, 0) == Print(Base(cmd), 0) + Redirs(Tops(cmd))
  {
    if cmd.Redir? {
      PrintTops(cmd.cmd);
      RedirsMore(Tops(cmd.cmd), (cmd.kind, cmd.file));
    }
  }

  lemma ArgsEnd(rest: seq<Token>, argv: seq<string>, rs: seq<(Kind, string)>)
    requires Stops(rest)
    ensures Args(rest, argv, rs) == Ok(Wrapped(Exec(argv), rs), rest)
  {
  }

  lemma PlainStart(argv: seq<string>, rs: seq<(Kind, string)>, rest: seq<Token>)
    requires Follow(0, rest)
    ensures var ts := Words(argv) + (Redirs(rs) + rest); ParseExec(ts) == Args(ts, [], [])
  {
    hide ParseLine, ParsePipe, Args, Wrap;
    var ts := Words(argv) + (Redirs(rs) + rest);
    assert ts == [] || ts[0] != Open;
  }

  /** Words and redirections read back. */
  lemma ExecBack(cmd: Tree, rest: seq<Token>)
    requires Base(cmd).Exec? && |Base(cmd).argv| < MAXARGS && Follow(0, rest)
    ensures ParseExec(Print(cmd, 0) + rest) == Ok(cmd, rest)
  {
    var base, argv, rs := Base(cmd), Base(cmd).argv, Tops(cmd);
    BaseTops(cmd);
    PrintTops(cmd);
    assert Print(base, 0) == Words(argv) && base == Exec(argv);
    hide Args, ParseExec, Print, Base, Tops, Wrapped, Words, Redirs;
    var after := Redirs(rs) + rest;
    assert Print(cmd, 0) + rest == Words(argv) + after;
    PlainStart(argv, rs, rest);
    ArgsWords(argv, after, []);
    assert [] + argv == argv;
    ArgsRedirs(rs, rest, argv, []);
    assert [] + rs == rs;
    ArgsEnd(rest, argv, rs);
  }

  lemma {:induction false} FewBase(cmd: Tree)
    requires FewArgs(cmd)
    ensures FewArgs(Base(cmd)) && (cmd.Redir? ==> Base(cmd) < cmd)
  {
    if cmd.Redir? { FewBase(cmd.cmd); }
  }

  lemma BlockStart(line: seq<Token>, base: Tree, more: seq<Token>)
    requires ParseLine(line) == Ok(base, [Close] + more)
    ensures ParseExec([Open] + line) == Wrap(base, more)
  {
    hide ParseLine, Wrap;
    assert ([Open] + line)[1..] == line && ([Close] + more)[1..] == more;
  }

  /** A block and the redirections after it. */
  lemma BlockBack(base: Tree, rs: seq<(Kind, string)>, rest: seq<Token>)
    requires Follow(0, rest) && Level(base) > 0
    requires var after := [Close] + (Redirs(rs) + rest); ParseLine(Print(base, 3) + after) == Ok(base, after)
    ensures ParseExec(Print(base, 0) + Redirs(rs) + rest) == Ok(Wrapped(base, rs), rest)
  {
    assert Print(base, 0) == [Open] + Print(base, 3) + [Close] by { hide Bare, Redirs, ParseLine, ParseExec, Wrapped; }
    hide ParseExec, ParseLine, Print, Level, Redirs, Wrap, Wrapped;
    var more := Redirs(rs) + rest;
    var line := Print(base, 3) + ([Close] + more);
    assert Print(base, 0) + Redirs(rs) + rest == [Open] + line;
    BlockStart(line, base, more);
    assert Wrapped(base, []) == base by { WrappedNone(base); }
    WrapRedirs(base, rs, rest, []);
    assert [] + rs == rs;
  }

  lemma WrappedNone(cmd: Tree)
    ensures Wrapped(cmd, []) == cmd
  {
  }

  /** Anything reads back where only a simple command may stand. */
  lemma {:induction false} SimpleBack(cmd: Tree, rest: seq<Token>)
    requires FewArgs(cmd) && Follow(0, rest)
    ensures ParseExec(Print(cmd, 0) + rest) == Ok(cmd, rest)
    decreases cmd, if Level(cmd) == 0 then 0 else 5
  {
    hide Print, ParseExec, ParseLine, Redirs, Wrapped;
    var base, rs := Base(cmd), Tops(cmd);
    BaseTops(cmd);
    FewBase(cmd);
    if base.Exec? {
      ExecBack(cmd, rest);
    } else {
      PrintTops(cmd);
      LineBack(base, [Close] + (Redirs(rs) + rest));
      BlockBack(base, rs, rest);
    }
  }

  lemma PrintPipe(cmd: Tree)
    requires cmd.Pipe?
    ensures Print(cmd, 1) == Print(cmd.left, 0) + [Bar] + Print(cmd.right, 1)
  {
  }

  lemma {:induction false} PipeBack(cmd: Tree, rest: seq<Token>)
    requires FewArgs(cmd) && Follow(1, rest)
    ensures ParsePipe(Print(cmd, 1) + rest) == Ok(cmd, rest)
    decreases cmd, if Level(cmd) <= 1 then 1 else 6
  {
    hide ParseExec, Bare;
    if cmd.Pipe? {
      assert Print(cmd, 1) == Print(cmd.left, 0) + [Bar] + Print(cmd.right, 1) by { PrintPipe(cmd); }
      hide Print;
      var after := [Bar] + (Print(cmd.right, 1) + rest);
      SimpleBack(cmd.left, after);
      PipeBack(cmd.right, rest);
      assert Print(cmd, 1) + rest == Print(cmd.left, 0) + after;
      assert after[1..] == Print(cmd.right, 1) + rest;
    } else {
      SimpleBack(cmd, rest);
    }
  }

  lemma PrintBack(cmd: Tree)
    requires cmd.Back?
    ensures Print(cmd, 2) == Print(cmd.cmd, 2) + [Amp]
  {
  }

  /** Up to the & loop. */
  lemma {:induction false} BacksBack(cmd: Tree, rest: seq<Token>)
    requires FewArgs(cmd) && Follow(1, rest)
    ensures var p := ParsePipe(Print(cmd, 2) + rest); p.Ok? && Backs(p.cmd, p.rest) == Backs(cmd, rest)
    decreases cmd, if Level(cmd) <= 2 then 2 else 7
  {
    hide ParsePipe, Bare;
    if cmd.Back? {
      assert Print(cmd, 2) == Print(cmd.cmd, 2) + [Amp] by { PrintBack(cmd); }
      hide Print;
      var after := [Amp] + rest;
      BacksBack(cmd.cmd, after);
      assert Print(cmd, 2) + rest == Print(cmd.cmd, 2) + after;
      assert after[1..] == rest;
    } else {
      PipeBack(cmd, rest);
    }
  }

  lemma PrintList(cmd: Tree)
    requires cmd.List?
    ensures Print(cmd, 3) == Print(cmd.left, 2) + [Semi] + Print(cmd.right, 3)
  {
  }

  lemma {:induction false} LineBack(cmd: Tree, rest: seq<Token>)
    requires FewArgs(cmd) && Follow(3, rest)
    ensures ParseLine(Print(cmd, 3) + rest) == Ok(cmd, rest)
    decreases cmd, 3
  {
    hide ParsePipe, Bare;
    if cmd.List? {
      assert Print(cmd, 3) == Print(cmd.left, 2) + [Semi] + Print(cmd.right, 3) by { PrintList(cmd); }
      hide Print;
      var after := [Semi] + (Print(cmd.right, 3) + rest);
      BacksBack(cmd.left, after);
      LineBack(cmd.right, rest);
      assert Print(cmd, 3) + rest == Print(cmd.left, 2) + after;
      assert after[1..] == Print(cmd.right, 3) + rest;
    } else {
      BacksBack(cmd, rest);
    }
  }

  // ---------- Redirections in one go ----------

  lemma {:induction false} GatherWraps(cmd: Tree, ts: seq<Token>, rs: seq<(Kind, string)>)
    ensures var g := Gather(ts, rs);
            Wrap(Wrapped(cmd, rs), ts) == if g.Missing? then Fail else Ok(Wrapped(cmd, g.redirs), g.rest)
    decreases |ts|
  {
    if |ts| > 1 && ts[0].Direct? && ts[1].Word? {
      var more := rs + [(ts[0].kind, ts[1].text)];
      assert more[..|more| - 1] == rs;
      GatherWraps(cmd, ts[2..], more);
    }
  }

  lemma {:induction false} GatherArgs(ts: seq<Token>, argv: seq<string>, rs: seq<(Kind, string)>)
    ensures var g := Gather(ts, rs);
            Args(ts, argv, rs) == if g.Missing? then Fail else Args(g.rest, argv, g.redirs)
    decreases |ts|
  {
    if ts != [] && ts[0].Direct? && |ts| > 1 && ts[1].Word? {
      GatherArgs(ts[2..], argv, rs + [(ts[0].kind, ts[1].text)]);
    }
  }

  // ---------- Which trees the parser gives ----------

  lemma {:induction false} WrappedFew(cmd: Tree, rs: seq<(Kind, string)>)
    requires FewArgs(cmd)
    ensures FewArgs(Wrapped(cmd, rs))
  {
    if rs != [] { WrappedFew(cmd, rs[..|rs| - 1]); }
  }

  lemma {:induction false} WrapFew(cmd: Tree, ts: seq<Token>)
    requires FewArgs(cmd) && Wrap(cmd, ts).Ok?
    ensures FewArgs(Wrap(cmd, ts).cmd)
    decreases |ts|
  {
    if ts != [] && ts[0].Direct? { WrapFew(Redir(cmd, ts[0].kind, ts[1].text), ts[2..]); }
  }

  lemma {:induction false} ArgsFew(ts: seq<Token>, argv: seq<string>, rs: seq<(Kind, string)>)
    requires |argv| < MAXARGS && Args(ts, argv, rs).Ok?
    ensures FewArgs(Args(ts, argv, rs).cmd)
    decreases |ts|
  {
    if Stops(ts) {
      WrappedFew(Exec(argv), rs);
    } else if ts[0].Direct? {
      ArgsFew(ts[2..], argv, rs + [(ts[0].kind, ts[1].text)]);
    } else {
      ArgsFew(ts[1..], argv + [ts[0].text], rs);
    }
  }

  lemma {:induction false} BacksFew(cmd: Tree, ts: seq<Token>)
    requires FewArgs(cmd)
    ensures FewArgs(Backs(cmd, ts).cmd)
    decreases |ts|
  {
    if ts != [] && ts[0] == Amp { BacksFew(Back(cmd), ts[1..]); }
  }

  lemma {:induction false} ExecFew(ts: seq<Token>)
    requires ParseExec(ts).Ok?
    ensures FewArgs(ParseExec(ts).cmd)
    decreases |ts|, 0
  {
    hide Args, Wrap;
    if ts != [] && ts[0] == Open {
      LineFew(ts[1..]);
      var r := ParseLine(ts[1..]);
      WrapFew(r.cmd, r.rest[1..]);
    } else {
      ArgsFew(ts, [], []);
    }
  }

  lemma {:induction false} PipeFew(ts: seq<Token>)
    requires ParsePipe(ts).Ok?
    ensures FewArgs(ParsePipe(ts).cmd)
    decreases |ts|, 1
  {
    hide ParseExec;
    ExecFew(ts);
    var l := ParseExec(ts);
    if l.rest != [] && l.rest[0] == Bar { PipeFew(l.rest[1..]); }
  }

  lemma {:induction false} LineFew(ts: seq<Token>)
    requires ParseLine(ts).Ok?
    ensures FewArgs(ParseLine(ts).cmd)
    decreases |ts|, 2
  {
    hide ParsePipe, Backs;
    PipeFew(ts);
    var p := ParsePipe(ts);
    BacksFew(p.cmd, p.rest);
    var l := Backs(p.cmd, p.rest);
    if l.rest != [] && l.rest[0] == Semi { LineFew(l.rest[1..]); }
  }

  /** Parsing what the printer gives gives the tree back, for exactly the trees whose commands all
      have fewer than MAXARGS arguments. */
  lemma ParsePrints(cmd: Tree)
    ensures Parse(Print(cmd, 3)) == Ok(cmd, []) <==> FewArgs(cmd)
  {
    assert Print(cmd, 3) + [] == Print(cmd, 3);
    if FewArgs(cmd) {
      LineBack(cmd, []);
    } else if ParseLine(Print(cmd, 3)).Ok? {
      LineFew(Print(cmd, 3));
    }
  }

  /** Printing what was parsed and parsing it again changes nothing. */
  lemma ParseStable(ts: seq<Token>)
    requires Parse(ts).Ok?
    ensures Parse(Print(Parse(ts).cmd, 3)) == Parse(ts)
  {
    LineFew(ts);
    ParsePrints(Parse(ts).cmd);
  }

  // ---------- Nothing of the line is lost ----------

  /** The tokens but for parentheses, however often each. */
  ghost function Solid(ts: seq<Token>): multiset<Token> {
    if ts == [] then multiset{}
    else (if ts[0] == Open || ts[0] == Close then multiset{} else multiset{ts[0]}) + Solid(ts[1..])
  }

  /** The words and marks of a tree, however often each. */
  ghost function Marks(cmd: Tree): multiset<Token> {
    match cmd
    case Exec(argv) => WordMarks(argv)
    case Redir(c, k, f) => Marks(c) + multiset{Direct(k), Word(f)}
    case Pipe(l, r) => Marks(l) + multiset{Bar} + Marks(r)
    case Back(c) => Marks(c) + multiset{Amp}
    case List(l, r) => Marks(l) + multiset{Semi} + Marks(r)
  }

  ghost function WordMarks(ws: seq<string>): multiset<Token> {
    if ws == [] then multiset{} else WordMarks(ws[..|ws| - 1]) + multiset{Word(ws[|ws| - 1])}
  }

  lemma SolidTwo(ts: seq<Token>)
    requires |ts| > 1 && ts[0].Direct? && ts[1].Word?
    ensures Solid(ts) == multiset{ts[0], ts[1]} + Solid(ts[2..])
  {
    assert ts[1..][1..] == ts[2..];
  }

  lemma {:induction false} WrapMarks(cmd: Tree, ts: seq<Token>)
    requires Wrap(cmd, ts).Ok?
    ensures Marks(Wrap(cmd, ts).cmd) + Solid(Wrap(cmd, ts).rest) == Marks(cmd) + Solid(ts)
    decreases |ts|
  {
    if ts != [] && ts[0].Direct? {
      SolidTwo(ts);
      WrapMarks(Redir(cmd, ts[0].kind, ts[1].text), ts[2..]);
    }
  }

  lemma WrappedMore(cmd: Tree, rs: seq<(Kind, string)>, k: Kind, f: string)
    ensures Wrapped(cmd, rs + [(k, f)]) == Redir(Wrapped(cmd, rs), k, f)
  {
    assert (rs + [(k, f)])[..|rs|] == rs;
  }

  lemma {:induction false} WrappedMarks(argv: seq<string>, w: string, rs: seq<(Kind, string)>)
    ensures Marks(Wrapped(Exec(argv + [w]), rs)) == Marks(Wrapped(Exec(argv), rs)) + multiset{Word(w)}
  {
    if rs == [] {
      assert (argv + [w])[..|argv|] == argv;
    } else {
      WrappedMarks(argv, w, rs[..|rs| - 1]);
    }
  }

  lemma {:induction false} ArgsMarks(ts: seq<Token>, argv: seq<string>, rs: seq<(Kind, string)>)
    requires Args(ts, argv, rs).Ok?
    ensures var r := Args(ts, argv, rs); Marks(r.cmd) + Solid(r.rest) == Marks(Wrapped(Exec(argv), rs)) + Solid(ts)
    decreases |ts|
  {
    hide Wrapped, WordMarks;
    if Stops(ts) {
    } else if ts[0].Direct? {
      SolidTwo(ts);
      WrappedMore(Exec(argv), rs, ts[0].kind, ts[1].text);
      ArgsMarks(ts[2..], argv, rs + [(ts[0].kind, ts[1].text)]);
    } else {
      WrappedMarks(argv, ts[0].text, rs);
      ArgsMarks(ts[1..], argv + [ts[0].text], rs);
    }
  }

  lemma {:induction false} BacksMarks(cmd: Tree, ts: seq<Token>)
    ensures Marks(Backs(cmd, ts).cmd) + Solid(Backs(cmd, ts).rest) == Marks(cmd) + Solid(ts)
    decreases |ts|
  {
    if ts != [] && ts[0] == Amp { BacksMarks(Back(cmd), ts[1..]); }
  }

  lemma {:induction false} ExecMarks(ts: seq<Token>)
    requires ParseExec(ts).Ok?
    ensures Marks(ParseExec(ts).cmd) + Solid(ParseExec(ts).rest) == Solid(ts)
    decreases |ts|, 0
  {
    hide Args, Wrap;
    if ts != [] && ts[0] == Open {
      LineMarks(ts[1..]);
      var r := ParseLine(ts[1..]);
      WrapMarks(r.cmd, r.rest[1..]);
    } else {
      ArgsMarks(ts, [], []);
      WrappedNone(Exec([]));
    }
  }

  lemma {:induction false} PipeMarks(ts: seq<Token>)
    requires ParsePipe(ts).Ok?
    ensures Marks(ParsePipe(ts).cmd) + Solid(ParsePipe(ts).rest) == Solid(ts)
    decreases |ts|, 1
  {
    hide ParseExec;
    ExecMarks(ts);
    var l := ParseExec(ts);
    if l.rest != [] && l.rest[0] == Bar { PipeMarks(l.rest[1..]); }
  }

  lemma {:induction false} LineMarks(ts: seq<Token>)
    requires ParseLine(ts).Ok?
    ensures Marks(ParseLine(ts).cmd) + Solid(ParseLine(ts).rest) == Solid(ts)
    decreases |ts|, 2
  {
    hide ParsePipe, Backs;
    PipeMarks(ts);
    var p := ParsePipe(ts);
    BacksMarks(p.cmd, p.rest);
    var l := Backs(p.cmd, p.rest);
    if l.rest != [] && l.rest[0] == Semi { LineMarks(l.rest[1..]); }
  }

  /** A tree that was parsed has exactly the words and marks of the line: none dropped, none made up. */
  lemma NothingLost(ts: seq<Token>)
    requires Parse(ts).Ok?
    ensures Marks(Parse(ts).cmd) == Solid(ts)
  {
    LineMarks(ts);
  }
}
