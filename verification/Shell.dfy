/** The shell's parser on a line, with a cursor, and the pass that cuts the line into C strings. */
module Shell {
  import opened ShellGrammar
  import opened ShellLexer

  /** A word as two positions in the line. */
  datatype Span = Span(q: nat, eq: nat)

  type Parsed = Cmd<Span>

  datatype Outcome = Panic | Done(cmd: Parsed, s: nat)

  /** `w` is a whole word of the line. */
  predicate IsWord(line: string, w: Span) {
    && w.q < w.eq <= |line|
    && (forall k :: w.q <= k < w.eq ==> InWord(line[k]))
    && (w.eq == |line| || !InWord(line[w.eq]))
  }

  predicate AllWords(line: string, ws: seq<Span>) { forall k :: 0 <= k < |ws| ==> IsWord(line, ws[k]) }

  predicate AllFiles(line: string, rs: seq<(Kind, Span)>) { forall k :: 0 <= k < |rs| ==> IsWord(line, rs[k].1) }

  predicate Placed(line: string, cmd: Parsed) {
    match cmd
    case Exec(argv) => AllWords(line, argv)
    case Redir(c, _, f) => Placed(line, c) && IsWord(line, f)
    case Pipe(l, r) => Placed(line, l) && Placed(line, r)
    case Back(c) => Placed(line, c)
    case List(l, r) => Placed(line, l) && Placed(line, r)
  }

  function Texts(line: string, ws: seq<Span>): seq<string>
    requires AllWords(line, ws)
  {
    seq(|ws|, k requires 0 <= k < |ws| => line[ws[k].q..ws[k].eq])
  }

  function FileTexts(line: string, rs: seq<(Kind, Span)>): seq<(Kind, string)>
    requires AllFiles(line, rs)
  {
    seq(|rs|, k requires 0 <= k < |rs| => (rs[k].0, line[rs[k].1.q..rs[k].1.eq]))
  }

  /** The tree with its words as text. */
  function Text(line: string, cmd: Parsed): Tree
    requires Placed(line, cmd)
  {
    match cmd
    case Exec(argv) => Exec(Texts(line, argv))
    case Redir(c, k, f) => Redir(Text(line, c), k, line[f.q..f.eq])
    case Pipe(l, r) => Pipe(Text(line, l), Text(line, r))
    case Back(c) => Back(Text(line, c))
    case List(l, r) => List(Text(line, l), Text(line, r))
  }

  lemma {:induction false} WrappedText(line: string, cmd: Parsed, rs: seq<(Kind, Span)>)
    requires Placed(line, cmd) && AllFiles(line, rs)
    ensures Placed(line, Wrapped(cmd, rs))
    ensures Text(line, Wrapped(cmd, rs)) == Wrapped(Text(line, cmd), FileTexts(line, rs))
  {
    if rs != [] {
      var less := rs[..|rs| - 1];
      WrappedText(line, cmd, less);
      assert FileTexts(line, rs)[..|rs| - 1] == FileTexts(line, less);
    }
  }

  /** The cursor parser from `i` did what the parser on tokens does. */
  predicate Agrees(line: string, i: nat, o: Outcome, r: Result) {
    if r.Fail? then o.Panic?
    else o.Done? && i <= o.s <= |line| && Placed(line, o.cmd) && Text(line, o.cmd) == r.cmd && Toks(line, o.s) == r.rest
  }

  // ---------- Tokens ----------

  /** What gettoken returns for a token. */
  function Code(t: Token): char {
    match t
    case Bar => '|'
    case Open => '('
    case Close => ')'
    case Semi => ';'
    case Amp => '&'
    case Direct(In) => '<'
    case Direct(Out) => '>'
    case Direct(Append) => '+'
    case Word(_) => 'a'
  }

  method SkipSpace(line: string, i: nat) returns (s: nat)
    requires i <= |line|
    ensures s == Skip(line, i)
  {
    s := i;
    while s < |line| && IsSpace(line[s])
      invariant i <= s <= |line| && Skip(line, s) == Skip(line, i)
    {
      s := s + 1;
    }
  }

  method SkipWord(line: string, i: nat) returns (s: nat)
    requires i <= |line|
    ensures s == WordEnd(line, i)
  {
    s := i;
    while s < |line| && !IsSpace(line[s]) && !IsSymbol(line[s])
      invariant i <= s <= |line| && WordEnd(line, s) == WordEnd(line, i)
    {
      s := s + 1;
    }
  }

  /** The token that starts at `q`. */
  method ScanToken(line: string, q: nat) returns (ret: char, s: nat)
    requires q < |line| && !IsSpace(line[q])
    ensures ret == Code(TokenAt(line, q)) && s == EndAt(line, q)
  {
    ret, s := line[q], q;
    match line[s] {
      case '|' => s := s + 1;
      case '(' => s := s + 1;
      case ')' => s := s + 1;
      case ';' => s := s + 1;
      case '&' => s := s + 1;
      case '<' => s := s + 1;
      case '>' =>
        s := s + 1;
        if s < |line| && line[s] == '>' {
          ret := '+';
          s := s + 1;
        }
      case _ =>
        ret := 'a';
        s := SkipWord(line, s);
    }
  }

  lemma WordToken(line: string, q: nat)
    requires q < |line| && !IsSpace(line[q]) && Code(TokenAt(line, q)) == 'a'
    ensures IsWord(line, Span(q, EndAt(line, q))) && TokenAt(line, q) == Word(line[q..EndAt(line, q)])
  {
  }

  /** At the end it returns NUL; else the first token's code, its place, and the cursor past it. */
  method GetToken(line: string, i: nat) returns (ret: char, q: nat, eq: nat, s: nat)
    requires i <= |line| && '\0' !in line
    ensures i <= s <= |line| && (ret == '\0' <==> Toks(line, i) == []) && (ret != '\0' ==> i < s)
    ensures ret != '\0' ==> ret == Code(Toks(line, i)[0]) && Toks(line, i)[1..] == Toks(line, s)
    ensures ret == 'a' ==> IsWord(line, Span(q, eq)) && Toks(line, i)[0] == Word(line[q..eq])
  {
    q := SkipSpace(line, i);
    if q == |line| {
      return '\0', q, q, q;
    }
    ret, eq := ScanToken(line, q);
    if ret == 'a' { WordToken(line, q); }
    SkipTwice(line, eq);
    hide TokenAt, EndAt, IsWord;
    s := SkipSpace(line, eq);
  }

  method Peek(line: string, i: nat, toks: string) returns (hit: bool, s: nat)
    requires i <= |line|
    ensures s == Skip(line, i) && Toks(line, s) == Toks(line, i)
    ensures hit <==> s < |line| && line[s] in toks
  {
    s := SkipSpace(line, i);
    SkipTwice(line, i);
    hit := s < |line| && line[s] in toks;
  }

  /** A peek tells which token comes first. */
  lemma Peeked(line: string, s: nat)
    requires s <= |line| && Skip(line, s) == s
    ensures s == |line| <==> Toks(line, s) == []
    ensures s < |line| ==>
            (line[s] == '|' <==> Toks(line, s)[0] == Bar) && (line[s] == '(' <==> Toks(line, s)[0] == Open)
                           && (line[s] == ')' <==> Toks(line, s)[0] == Close)
                               && (line[s] == ';' <==> Toks(line, s)[0] == Semi)
                           && (line[s] == '&' <==> Toks(line, s)[0] == Amp)
                               && (line[s] in "<>" <==> Toks(line, s)[0].Direct?)
  {
    hide EndAt;
  }

  // ---------- The parser ----------

  datatype Files = NoFile | Some(redirs: seq<(Kind, Span)>, s: nat)

  predicate FilesAgree(line: string, i: nat, o: Files, g: Gathered) {
    if g.Missing? then o.NoFile?
    else
      && o.Some? && i <= o.s <= |line| && AllFiles(line, o.redirs)
      && FileTexts(line, o.redirs) == g.redirs && Toks(line, o.s) == g.rest
  }

  function KindOf(ret: char): Kind { match ret case '<' => In case '>' => Out case _ => Append }

  lemma OneFile(line: string, rs: seq<(Kind, Span)>, k: Kind, w: Span, more: seq<(Kind, Span)>)
    requires AllFiles(line, rs) && IsWord(line, w) && more == rs + [(k, w)]
    ensures AllFiles(line, more) && FileTexts(line, more) == FileTexts(line, rs) + [(k, line[w.q..w.eq])]
  {
    hide IsWord;
    assert more[|rs|] == (k, w) && forall j :: 0 <= j < |rs| ==> more[j] == rs[j];
  }

  /** One redirection, after a peek has seen its sign. */
  method OneRedir(line: string, i: nat, rs: seq<(Kind, Span)>) returns (o: Files)
    requires i <= |line| && '\0' !in line && AllFiles(line, rs) && Toks(line, i) != [] && Toks(line, i)[0].Direct?
    ensures o.NoFile? <==> |Toks(line, i)| == 1 || !Toks(line, i)[1].Word?
    ensures o.Some? ==> i < o.s <= |line| && AllFiles(line, o.redirs)
                        && Gather(Toks(line, o.s), FileTexts(line, o.redirs)) ==
                            Gather(Toks(line, i), FileTexts(line, rs))
  {
    hide Toks, FileTexts, AllFiles, IsWord;
    var ret, q, eq, s := GetToken(line, i);
    var ret', q', eq', s' := GetToken(line, s);
    if ret' != 'a' { return NoFile; }
    var more := rs + [(KindOf(ret), Span(q', eq'))];
    OneFile(line, rs, KindOf(ret), Span(q', eq'), more);
    assert Toks(line, i)[2..] == Toks(line, i)[1..][1..];
    return Some(more, s');
  }

  method ReadRedirs(line: string, i: nat, rs: seq<(Kind, Span)>) returns (o: Files)
    requires i <= |line| && '\0' !in line && AllFiles(line, rs)
    ensures FilesAgree(line, i, o, Gather(Toks(line, i), FileTexts(line, rs)))
  {
    hide Toks, FileTexts, AllFiles;
    var hit, s := Peek(line, i, "<>");
    var all := rs;
    Peeked(line, s);
    while hit
      invariant i <= s <= |line| && AllFiles(line, all) && Skip(line, s) == s
      invariant hit <==> Toks(line, s) != [] && Toks(line, s)[0].Direct?
      invariant Gather(Toks(line, s), FileTexts(line, all)) == Gather(Toks(line, i), FileTexts(line, rs))
      decreases |line| - s
    {
      var one := OneRedir(line, s, all);
      if one.NoFile? { return NoFile; }
      all := one.redirs;
      hit, s := Peek(line, one.s, "<>");
      SkipTwice(line, one.s);
      Peeked(line, s);
    }
    return Some(all, s);
  }

  lemma OneArg(line: string, ws: seq<Span>, w: Span, more: seq<Span>)
    requires AllWords(line, ws) && IsWord(line, w) && more == ws + [w]
    ensures AllWords(line, more) && Texts(line, more) == Texts(line, ws) + [line[w.q..w.eq]]
  {
    hide IsWord;
    assert more[|ws|] == w && forall j :: 0 <= j < |ws| ==> more[j] == ws[j];
  }

  lemma NoTexts(line: string)
    ensures AllWords(line, []) && Texts(line, []) == [] && AllFiles(line, []) && FileTexts(line, []) == []
  {
  }

  /** What is left to read, with the words and redirections read so far. */
  function Left(line: string, s: nat, argv: seq<Span>, rs: seq<(Kind, Span)>): Result
    requires s <= |line| && AllWords(line, argv) && AllFiles(line, rs)
  {
    Args(Toks(line, s), Texts(line, argv), FileTexts(line, rs))
  }

  predicate Plain(ts: seq<Token>) { ts == [] || !ts[0].Direct? }

  lemma {:induction false} GatherPlain(ts: seq<Token>, rs: seq<(Kind, string)>)
    ensures Gather(ts, rs).Got? ==> Plain(Gather(ts, rs).rest)
    decreases |ts|
  {
    if |ts| > 1 && ts[0].Direct? && ts[1].Word? { GatherPlain(ts[2..], rs + [(ts[0].kind, ts[1].text)]); }
  }

  /** The redirections at the cursor. */
  method Redirected(line: string, i: nat, argv: seq<Span>, rs: seq<(Kind, Span)>) returns (o: Files)
    requires i <= |line| && '\0' !in line && AllWords(line, argv) && AllFiles(line, rs)
    ensures o.NoFile? ==> Left(line, i, argv, rs).Fail?
    ensures o.Some? ==>
            i <= o.s <= |line| && AllFiles(line, o.redirs) && Left(line, o.s, argv, o.redirs) == Left(line, i, argv, rs)
                        && Plain(Toks(line, o.s))
  {
    hide Toks, FileTexts, AllFiles, Texts, AllWords, Args, Gather;
    o := ReadRedirs(line, i, rs);
    GatherArgs(Toks(line, i), Texts(line, argv), FileTexts(line, rs));
    GatherPlain(Toks(line, i), FileTexts(line, rs));
  }

  datatype Round = Bad | Over | Next(argv: seq<Span>, redirs: seq<(Kind, Span)>, s: nat)

  /** One round of the argument loop, after its peek. */
  method OneRound(line: string, i: nat, argv: seq<Span>, rs: seq<(Kind, Span)>) returns (o: Round)
    requires i <= |line| && '\0' !in line && AllWords(line, argv) && AllFiles(line, rs)
    requires Plain(Toks(line, i)) && (Toks(line, i) == [] || !Stops(Toks(line, i)))
    ensures o.Bad? ==> Left(line, i, argv, rs).Fail?
    ensures o.Over? <==> Toks(line, i) == []
    ensures o.Next? ==>
            i < o.s <= |line| && AllWords(line, o.argv) && AllFiles(line, o.redirs) && Plain(Toks(line, o.s))
                        && Left(line, o.s, o.argv, o.redirs) == Left(line, i, argv, rs)
  {
    hide Toks, FileTexts, AllFiles, Texts, AllWords, IsWord, Gather, Wrapped;
    var tok, q, eq, s := GetToken(line, i);
    if tok == '\0' { return Over; }
    if tok != 'a' {
      return Bad;
    }
    var more := argv + [Span(q, eq)];
    OneArg(line, argv, Span(q, eq), more);
    assert |Texts(line, more)| == |more| by { TextsLength(line, more); }
    assert |Texts(line, argv)| == |argv| by { TextsLength(line, argv); }
    if |more| >= MAXARGS { return Bad; }
    assert Left(line, s, more, rs) == Left(line, i, argv, rs);
    hide Left;
    var files := Redirected(line, s, more, rs);
    if files.NoFile? { return Bad; }
    return Next(more, files.redirs, files.s);
  }

  lemma TextsLength(line: string, ws: seq<Span>)
    requires AllWords(line, ws)
    ensures |Texts(line, ws)| == |ws|
  {
  }

  /** The words and redirections of a simple command. */
  method ReadArgs(line: string, i: nat) returns (o: Outcome)
    requires i <= |line| && '\0' !in line
    ensures Agrees(line, i, o, Args(Toks(line, i), [], []))
  {
    hide Toks, FileTexts, AllFiles, Texts, AllWords, Args, Text, Placed, Wrapped, Plain;
    NoTexts(line);
    ghost var r := Args(Toks(line, i), [], []);
    var argv: seq<Span> := [];
    assert Left(line, i, argv, []) == r;
    var files := Redirected(line, i, argv, []);
    if files.NoFile? { return Panic; }
    var rs, s, over := files.redirs, files.s, false;
    hide Left;
    var hit;
    hit, s := Peek(line, s, "|)&;");
    assert Left(line, s, argv, rs) == r by { SameLeft(line, files.s, s, argv, rs); }
    Peeked(line, s);
    while !hit && !over
      invariant i <= s <= |line| && AllWords(line, argv) && AllFiles(line, rs) && Left(line, s, argv, rs) == r
      invariant Plain(Toks(line, s)) && (hit || over ==> Stops(Toks(line, s)))
                && (!hit ==> Toks(line, s) == [] || !Stops(Toks(line, s)))
      decreases |line| - s, !over
    {
      var round := OneRound(line, s, argv, rs);
      match round {
        case Bad => return Panic;
        case Over => over := true;
        case Next(argv', rs', s') =>
          argv, rs := argv', rs';
          hit, s := Peek(line, s', "|)&;");
          SkipTwice(line, s');
          SameLeft(line, s', s, argv, rs);
          Peeked(line, s);
      }
    }
    return Finished(line, s, argv, rs);
  }

  lemma SameLeft(line: string, s: nat, s': nat, argv: seq<Span>, rs: seq<(Kind, Span)>)
    requires s <= |line| && s' <= |line| && AllWords(line, argv) && AllFiles(line, rs)
             && Toks(line, s) == Toks(line, s')
    ensures Left(line, s, argv, rs) == Left(line, s', argv, rs)
  {
  }

  function Finished(line: string, s: nat, argv: seq<Span>, rs: seq<(Kind, Span)>): (o: Outcome)
    requires s <= |line| && AllWords(line, argv) && AllFiles(line, rs) && Stops(Toks(line, s))
    ensures o.Done? && o.s == s && Agrees(line, s, o, Left(line, s, argv, rs))
  {
    var cmd: Parsed := Exec(argv);
    WrappedText(line, cmd, rs);
    ArgsEnd(Toks(line, s), Texts(line, argv), FileTexts(line, rs));
    Done(Wrapped(cmd, rs), s)
  }

  lemma BlockWraps(line: string, cmd: Parsed, s: nat, files: Files)
    requires s <= |line| && Placed(line, cmd) && FilesAgree(line, s, files, Gather(Toks(line, s), []))
    ensures Agrees(line, s, if files.NoFile? then Panic else Done(Wrapped(cmd, files.redirs), files.s),
                   Wrap(Text(line, cmd), Toks(line, s)))
  {
    hide Toks, Gather, Wrap, Text, Placed, FileTexts, AllFiles;
    GatherWraps(Text(line, cmd), Toks(line, s), []);
    assert Wrapped(Text(line, cmd), []) == Text(line, cmd);
    if files.Some? { WrappedText(line, cmd, files.redirs); }
  }

  /** A parenthesised line, once the peek has seen its first parenthesis, and its redirections. */
  method ReadBlock(line: string, i: nat) returns (o: Outcome)
    requires i <= |line| && '\0' !in line && Toks(line, i) != [] && Toks(line, i)[0] == Open
    ensures Agrees(line, i, o, ParseExec(Toks(line, i)))
    decreases |line| - i, 0
  {
    hide Toks, ParseLine, Wrap, Gather, Text, Placed, FileTexts, AllFiles;
    var _, _, _, s := GetToken(line, i);
    var inner := ReadLine(line, s);
    if inner.Panic? { return Panic; }
    var hit;
    hit, s := Peek(line, inner.s, ")");
    SkipTwice(line, inner.s);
    Peeked(line, s);
    if !hit { return Panic; }
    var _, _, _, s' := GetToken(line, s);
    NoTexts(line);
    var files := ReadRedirs(line, s', []);
    BlockWraps(line, inner.cmd, s', files);
    hide Wrapped;
    o := if files.NoFile? then Panic else Done(Wrapped(inner.cmd, files.redirs), files.s);
  }

  method ReadExec(line: string, i: nat) returns (o: Outcome)
    requires i <= |line| && '\0' !in line
    ensures Agrees(line, i, o, ParseExec(Toks(line, i)))
    decreases |line| - i, 1
  {
    hide Toks, ParseLine, Args, Wrap, Text, Placed;
    var hit, s := Peek(line, i, "(");
    SkipTwice(line, i);
    Peeked(line, s);
    if hit {
      o := ReadBlock(line, s);
    } else {
      o := ReadArgs(line, s);
    }
  }

  method ReadPipe(line: string, i: nat) returns (o: Outcome)
    requires i <= |line| && '\0' !in line
    ensures Agrees(line, i, o, ParsePipe(Toks(line, i)))
    decreases |line| - i, 2
  {
    hide Toks, ParseExec;
    var left := ReadExec(line, i);
    if left.Panic? { return Panic; }
    var hit, s := Peek(line, left.s, "|");
    SkipTwice(line, left.s);
    Peeked(line, s);
    if !hit { return Done(left.cmd, s); }
    var _, _, _, s' := GetToken(line, s);
    var right := ReadPipe(line, s');
    o := if right.Panic? then Panic else Done(Pipe(left.cmd, right.cmd), right.s);
  }

  /** The & loop. */
  method ReadBacks(line: string, first: Outcome) returns (cmd: Parsed, s: nat)
    requires first.Done? && first.s <= |line| && '\0' !in line && Placed(line, first.cmd)
    ensures Agrees(line, first.s, Done(cmd, s), Backs(Text(line, first.cmd), Toks(line, first.s))) && Skip(line, s) == s
  {
    hide Toks;
    ghost var r := Backs(Text(line, first.cmd), Toks(line, first.s));
    cmd := first.cmd;
    var hit;
    hit, s := Peek(line, first.s, "&");
    SkipTwice(line, first.s);
    Peeked(line, s);
    while hit
      invariant first.s <= s <= |line| && Skip(line, s) == s && Placed(line, cmd)
      invariant hit <==> Toks(line, s) != [] && Toks(line, s)[0] == Amp
      invariant Backs(Text(line, cmd), Toks(line, s)) == r
      decreases |line| - s
    {
      var _, _, _, s' := GetToken(line, s);
      cmd := Back(cmd);
      hit, s := Peek(line, s', "&");
      SkipTwice(line, s');
      Peeked(line, s);
    }
  }

  method ReadLine(line: string, i: nat) returns (o: Outcome)
    requires i <= |line| && '\0' !in line
    ensures Agrees(line, i, o, ParseLine(Toks(line, i)))
    decreases |line| - i, 3
  {
    hide Toks, ParsePipe, Backs;
    var first := ReadPipe(line, i);
    if first.Panic? { return Panic; }
    var cmd, s := ReadBacks(line, first);
    Peeked(line, s);
    var hit, _ := Peek(line, s, ";");
    if !hit { return Done(cmd, s); }
    var _, _, _, s' := GetToken(line, s);
    var right := ReadLine(line, s');
    o := if right.Panic? then Panic else Done(List(cmd, right.cmd), right.s);
  }

  // ---------- C strings ----------

  /** The C string that starts at `q`. */
  function CString(b: seq<char>, q: nat): (r: string)
    requires q <= |b|
    ensures '\0' !in r && q + |r| <= |b| && b[q..q + |r|] == r && (q + |r| == |b| || b[q + |r|] == '\0')
    decreases |b| - q
  {
    if q == |b| || b[q] == '\0' then "" else [b[q]] + CString(b, q + 1)
  }

  lemma {:induction false} CStringIs(b: seq<char>, q: nat, e: nat)
    requires q <= e < |b| && b[e] == '\0' && '\0' !in b[q..e]
    ensures CString(b, q) == b[q..e]
    decreases e - q
  {
    if q < e {
      assert b[q] == b[q..e][0] && b[q + 1..e] == b[q..e][1..];
      CStringIs(b, q + 1, e);
    }
  }

  /** The places nulterminate writes. */
  function Ends(cmd: Parsed): set<nat> {
    match cmd
    case Exec(argv) => set w | w in argv :: w.eq
    case Redir(c, _, f) => Ends(c) + {f.eq}
    case Pipe(l, r) => Ends(l) + Ends(r)
    case Back(c) => Ends(c)
    case List(l, r) => Ends(l) + Ends(r)
  }

  function Starts(cmd: Parsed): set<nat> {
    match cmd
    case Exec(argv) => set w | w in argv :: w.q
    case Redir(c, _, f) => Starts(c) + {f.q}
    case Pipe(l, r) => Starts(l) + Starts(r)
    case Back(c) => Starts(c)
    case List(l, r) => Starts(l) + Starts(r)
  }

  /** The tree whose words are the C strings its pointers point to: what runcmd executes. */
  function Pointed(b: seq<char>, cmd: Parsed): Tree
    requires forall q :: q in Starts(cmd) ==> q <= |b|
  {
    match cmd
    case Exec(argv) => Exec(seq(|argv|, k requires 0 <= k < |argv| => assert argv[k].q in Starts(cmd);
        CString(b, argv[k].q)))
    case Redir(c, k, f) => assert Starts(cmd) == Starts(c) + {f.q}; Redir(Pointed(b, c), k, CString(b, f.q))
    case Pipe(l, r) => assert Starts(cmd) == Starts(l) + Starts(r); Pipe(Pointed(b, l), Pointed(b, r))
    case Back(c) => assert Starts(cmd) == Starts(c); Back(Pointed(b, c))
    case List(l, r) => assert Starts(cmd) == Starts(l) + Starts(r); List(Pointed(b, l), Pointed(b, r))
  }

  method NulTerminate(buf: array<char>, cmd: Parsed)
    requires forall e :: e in Ends(cmd) ==> e < buf.Length
    modifies buf
    ensures forall k :: 0 <= k < buf.Length ==> buf[k] == if k in Ends(cmd) then '\0' else old(buf[k])
    decreases cmd
  {
    match cmd {
      case Exec(argv) =>
        for i := 0 to |argv|
          invariant forall k ::
                    0 <= k < buf.Length ==>
                    buf[k] == if exists j :: 0 <= j < i && argv[j].eq == k then '\0' else old(buf[k])
        {
          assert argv[i].eq in Ends(cmd);
          buf[argv[i].eq] := '\0';
        }
      case Redir(c, _, f) =>
        assert Ends(cmd) == Ends(c) + {f.eq};
        NulTerminate(buf, c);
        buf[f.eq] := '\0';
      case Pipe(l, r) =>
        assert Ends(cmd) == Ends(l) + Ends(r);
        NulTerminate(buf, l);
        NulTerminate(buf, r);
      case List(l, r) =>
        assert Ends(cmd) == Ends(l) + Ends(r);
        NulTerminate(buf, l);
        NulTerminate(buf, r);
      case Back(c) =>
        assert Ends(cmd) == Ends(c);
        NulTerminate(buf, c);
    }
  }

  lemma {:induction false} PlacedEnds(line: string, cmd: Parsed)
    requires Placed(line, cmd)
    ensures forall e :: e in Ends(cmd) ==> e <= |line| && (e == |line| || !InWord(line[e]))
    ensures forall q :: q in Starts(cmd) ==> q <= |line|
  {
    match cmd {
      case Exec(argv) =>
        forall w | w in argv ensures IsWord(line, w) {
          var k :| 0 <= k < |argv| && argv[k] == w;
          assert IsWord(line, argv[k]);
        }
      case Redir(c, _, f) => PlacedEnds(line, c);
      case Pipe(l, r) => PlacedEnds(line, l); PlacedEnds(line, r);
      case List(l, r) => PlacedEnds(line, l); PlacedEnds(line, r);
      case Back(c) => PlacedEnds(line, c);
    }
  }

  /** `b` holds the line's words, and NUL at each of `ends`. */
  predicate Cut(line: string, b: seq<char>, ends: set<nat>) {
    && |line| < |b| && '\0' !in line
    && (forall k :: 0 <= k < |line| && InWord(line[k]) ==> b[k] == line[k])
    && (forall e :: e in ends ==> e < |b| && b[e] == '\0')
  }

  lemma CutWord(line: string, b: seq<char>, ends: set<nat>, w: Span)
    requires Cut(line, b, ends) && IsWord(line, w) && w.eq in ends
    ensures CString(b, w.q) == line[w.q..w.eq]
  {
    assert b[w.q..w.eq] == line[w.q..w.eq];
    CStringIs(b, w.q, w.eq);
  }

  /** No cut reaches into a word, so every pointer points to its word. */
  lemma {:induction false} CutTree(line: string, b: seq<char>, ends: set<nat>, cmd: Parsed)
    requires Cut(line, b, ends) && Placed(line, cmd) && Ends(cmd) <= ends
    requires forall q :: q in Starts(cmd) ==> q <= |b|
    ensures Pointed(b, cmd) == Text(line, cmd)
  {
    hide Cut, IsWord;
    match cmd {
      case Exec(argv) =>
        forall k | 0 <= k < |argv| ensures argv[k].q <= |b| && CString(b, argv[k].q) == Texts(line, argv)[k] {
          assert argv[k].q in Starts(cmd) && argv[k].eq in Ends(cmd);
          CutWord(line, b, ends, argv[k]);
        }
        assert Pointed(b, cmd).argv == Texts(line, argv);
      case Redir(c, _, f) =>
        assert f.q in Starts(cmd) && f.eq in Ends(cmd);
        CutWord(line, b, ends, f);
        CutTree(line, b, ends, c);
      case Pipe(l, r) =>
        assert Starts(cmd) == Starts(l) + Starts(r) && Ends(cmd) == Ends(l) + Ends(r);
        CutTree(line, b, ends, l);
        CutTree(line, b, ends, r);
      case List(l, r) =>
        assert Starts(cmd) == Starts(l) + Starts(r) && Ends(cmd) == Ends(l) + Ends(r);
        CutTree(line, b, ends, l);
        CutTree(line, b, ends, r);
      case Back(c) =>
        assert Starts(cmd) == Starts(c) && Ends(cmd) == Ends(c);
        CutTree(line, b, ends, c);
    }
  }

  method StrLen(buf: array<char>) returns (n: nat)
    requires exists k :: 0 <= k < buf.Length && buf[k] == '\0'
    ensures n < buf.Length && buf[n] == '\0' && buf[..n] == CString(buf[..], 0)
  {
    n := 0;
    while buf[n] != '\0'
      invariant n < buf.Length && '\0' !in buf[..n] && exists k :: n <= k < buf.Length && buf[k] == '\0'
      decreases buf.Length - n
    {
      n := n + 1;
    }
    assert buf[..][0..n] == buf[..n];
    CStringIs(buf[..], 0, n);
  }

  lemma CutAll(line: string, was: seq<char>, b: seq<char>, cmd: Parsed)
    requires |line| < |was| == |b| && was[..|line|] == line && '\0' !in line && Placed(line, cmd)
    requires forall k :: 0 <= k < |b| ==> b[k] == if k in Ends(cmd) then '\0' else was[k]
    ensures (forall q :: q in Starts(cmd) ==> q <= |b|) && Pointed(b, cmd) == Text(line, cmd)
  {
    PlacedEnds(line, cmd);
    forall k | 0 <= k < |line| && InWord(line[k]) ensures b[k] == line[k] {
      assert line[k] == was[..|line|][k];
    }
    assert Cut(line, b, Ends(cmd));
    CutTree(line, b, Ends(cmd), cmd);
  }

  /** Panics exactly when the line's tokens do not parse; else every word of the tree left behind is
      a C string in the buffer, and the tree is the parse of the line as it was. */
  method ReadCmd(buf: array<char>) returns (o: Outcome)
    requires exists k :: 0 <= k < buf.Length && buf[k] == '\0'
    modifies buf
    ensures var r := Parse(Toks(CString(old(buf[..]), 0), 0));
            if r.Fail? then o.Panic?
            else o.Done? && (forall q :: q in Starts(o.cmd) ==> q <= buf.Length) && Pointed(buf[..], o.cmd) == r.cmd
  {
    hide Toks, CString, ParseLine, Starts, Pointed, Placed, Text, Ends;
    var n := StrLen(buf);
    ghost var was := buf[..];
    var line := buf[..n];
    assert '\0' !in line by { CStringClean(was); }
    o := ReadLine(line, 0);
    if o.Panic? { return; }
    var _, s := Peek(line, o.s, "");
    SkipTwice(line, o.s);
    Peeked(line, s);
    if s != |line| { return Panic; }
    PlacedEnds(line, o.cmd);
    NulTerminate(buf, o.cmd);
    CutAll(line, was, buf[..], o.cmd);
  }

  lemma CStringClean(b: seq<char>)
    ensures '\0' !in CString(b, 0)
  {
  }

  // ---------- The whole trip ----------

  predicate GoodWords(cmd: Tree) {
    match cmd
    case Exec(argv) => forall w :: w in argv ==> GoodWord(w)
    case Redir(c, _, f) => GoodWords(c) && GoodWord(f)
    case Pipe(l, r) => GoodWords(l) && GoodWords(r)
    case Back(c) => GoodWords(c)
    case List(l, r) => GoodWords(l) && GoodWords(r)
  }

  predicate GoodTokens(ts: seq<Token>) { forall t :: t in ts ==> GoodToken(t) }

  lemma {:induction false} WordsGood(ws: seq<string>)
    requires forall w :: w in ws ==> GoodWord(w)
    ensures GoodTokens(Words(ws))
  {
    hide GoodWord;
    if ws != [] { WordsGood(ws[1..]); }
  }

  lemma {:induction false} PrintGood(cmd: Tree, level: nat)
    requires GoodWords(cmd)
    ensures GoodTokens(Print(cmd, level))
    decreases cmd, 1
  {
    BareGood(cmd);
    hide Bare;
  }

  lemma {:induction false} BareGood(cmd: Tree)
    requires GoodWords(cmd)
    ensures GoodTokens(Bare(cmd))
    decreases cmd, 0
  {
    hide Print, GoodWord;
    match cmd {
      case Exec(argv) => WordsGood(argv);
      case Redir(c, k, f) => PrintGood(c, 0);
      case Pipe(l, r) => PrintGood(l, 0); PrintGood(r, 1);
      case List(l, r) => PrintGood(l, 2); PrintGood(r, 3);
      case Back(c) => PrintGood(c, 2);
    }
  }

  /** A tree printed and spelled as a line is what parsing the line gives. */
  lemma LineReadsBack(cmd: Tree, gaps: seq<string>)
    requires FewArgs(cmd) && GoodWords(cmd) && WellSpaced(Print(cmd, 3), gaps)
    ensures Parse(Toks(Spaced(Print(cmd, 3), gaps), 0)) == Ok(cmd, [])
  {
    PrintGood(cmd, 3);
    ReadsSpaced(Print(cmd, 3), gaps);
    ParsePrints(cmd);
  }
}
