/** `sh.c`'s parser as it runs: a cursor moving over the line, nodes that point into it, and
    `nulterminate` cutting the words out of the buffer afterwards. */
module Shell {
  import opened Basics
  import opened ShellGrammar
  import opened ShellText

  /** The character a token begins with, as `peek` sees it. */
  function Lead(c: char): char { if c == '+' then '>' else c }

  /** The loop over blanks that `peek` and `gettoken` share. */
  method SkipBlanks(s: string, i: nat) returns (j: nat)
    requires i <= |s|
    ensures j == Skip(s, i)
  {
    j := i;
    while j < |s| && IsSpace(s[j])
      invariant i <= j <= |s| && Skip(s, j) == Skip(s, i)
    {
      j := j + 1;
    }
  }

  method ScanWord(s: string, q: nat) returns (e: nat)
    requires q <= |s|
    ensures e == WordEnd(s, q)
  {
    e := q;
    while e < |s| && !IsSpace(s[e]) && !IsSymbol(s[e])
      invariant q <= e <= |s| && WordEnd(s, e) == WordEnd(s, q)
    {
      e := e + 1;
    }
  }

  /** `peek`: skip blanks and look whether one of the symbols `toks` comes next. */
  method Peek(s: string, i: nat, toks: string) returns (found: bool, i': nat)
    requires i <= |s| && forall k :: 0 <= k < |toks| ==> IsSymbol(toks[k])
    ensures i <= i' <= |s| && Lex(s, i') == Lex(s, i) && (i' < |s| ==> !IsSpace(s[i']))
    ensures found <==> Lex(s, i) != [] && Lex(s, i)[0].Sym? && Lead(Lex(s, i)[0].c) in toks
  {
    i' := SkipBlanks(s, i);
    LexSkips(s, i);
    found := i' < |s| && s[i'] in toks;
  }

  /** `gettoken`: the next token and the cursor behind it; None at the end of the line. */
  method GetToken(s: string, i: nat) returns (tok: Option<Token<Range>>, i': nat)
    requires i <= |s|
    ensures i <= i' <= |s|
    ensures Lex(s, i) == [] ==> tok == None && Lex(s, i') == []
    ensures Lex(s, i) != [] ==> tok == Some(Lex(s, i)[0]) && Lex(s, i') == Lex(s, i)[1..]
  {
    hide Lex, WordEnd, Skip;
    var q := SkipBlanks(s, i);
    LexSkips(s, i);
    if q == |s| {
      LexAtEnd(s);
      return None, q;
    }
    var e := q + 1;
    if s[q] == '>' {
      if e < |s| && s[e] == '>' {
        tok := Some(Sym('+'));
        e := e + 1;
      } else {
        tok := Some(Sym('>'));
      }
    } else if IsSymbol(s[q]) {
      tok := Some(Sym(s[q]));
    } else {
      e := ScanWord(s, q);
      tok := Some(Word(Range(q, e)));
    }
    assert TokenAt(s, q) == (tok.value, e);
    LexCons(s, q);
    i' := SkipBlanks(s, e);
    LexSkips(s, e);
  }

  lemma LexAtEnd(s: string)
    ensures Lex(s, |s|) == []
  {
  }

  /** Redirections already read put before those still to come. */
  function After<W>(done: seq<(W, Kind)>, r: Option<(seq<(W, Kind)>, seq<Token<W>>)>): Option<(seq<(W, Kind)>,
      seq<Token<W>>)> {
    match r
    case None => None
    case Some((rs, rest)) => Some((done + rs, rest))
  }

  /** `parseredirs`, collecting the redirections in order. */
  method ParseRedirs(s: string, i: nat) returns (ok: bool, rs: seq<(Range, Kind)>, i': nat)
    requires i <= |s|
    ensures i' <= |s|
    ensures !ok ==> Redirs(Lex(s, i)) == None
    ensures ok ==> Redirs(Lex(s, i)) == Some((rs, Lex(s, i')))
  {
    hide Lex;
    rs := [];
    AfterNothing(Redirs(Lex(s, i)));
    var more;
    more, i' := Peek(s, i, "<>");
    while more
      invariant i' <= |s| && Redirs(Lex(s, i)) == After(rs, Redirs(Lex(s, i')))
      invariant more <==> Lex(s, i') != [] && Lex(s, i')[0].Sym? && Lead(Lex(s, i')[0].c) in "<>"
      decreases |Lex(s, i')|
    {
      ghost var ts := Lex(s, i');
      var tok, word;
      tok, i' := GetToken(s, i');
      word, i' := GetToken(s, i');
      if word.None? || word.value.Sym? {
        return false, rs, i';
      }
      assert ts[1..][1..] == ts[2..];
      ghost var before := rs;
      rs := rs + [(word.value.w, KindOf(tok.value.c))];
      AfterOne(before, (word.value.w, KindOf(tok.value.c)), Redirs(ts[2..]));
      more, i' := Peek(s, i', "<>");
    }
    assert rs + [] == rs;
    ok := true;
  }

  lemma AfterNothing<W>(x: Option<(seq<(W, Kind)>, seq<Token<W>>)>)
    ensures After([], x) == x
  {
    if x.Some? {
      assert [] + x.value.0 == x.value.0;
    }
  }

  lemma AfterOne<W>(done: seq<(W, Kind)>, r: (W, Kind), x: Option<(seq<(W, Kind)>, seq<Token<W>>)>)
    ensures After(done + [r], x) == After(done, After([r], x))
  {
    if x.Some? {
      assert done + [r] + x.value.0 == done + ([r] + x.value.0);
    }
  }

  /** The argument loop of `parseexec`. */
  method ParseArgs(s: string, i: nat, rs0: seq<(Range, Kind)>) returns (ok: bool, cmd: Cmd<Range>, i': nat)
    requires i <= |s|
    ensures i' <= |s|
    ensures !ok ==> Args([], rs0, Lex(s, i)) == None
    ensures ok ==> Args([], rs0, Lex(s, i)) == Some((cmd, Lex(s, i')))
  {
    hide Lex, Redirs, Wrap;
    var args: seq<Range>, rs := [], rs0;
    cmd := Exec([]);
    var stop;
    stop, i' := Peek(s, i, "|)&;");
    while !stop
      invariant i' <= |s| && |args| < MAXARGS && Args([], rs0, Lex(s, i)) == Args(args, rs, Lex(s, i'))
      invariant stop <==> Lex(s, i') != [] && Lex(s, i')[0].Sym? && Lex(s, i')[0].c in "|)&;"
      decreases |Lex(s, i')|
    {
      var tok, more;
      tok, i' := GetToken(s, i');
      if tok.None? {
        break;
      }
      if tok.value.Sym? {
        return false, cmd, i';
      }
      args := args + [tok.value.w];
      if |args| >= MAXARGS {
        return false, cmd, i';
      }
      ok, more, i' := ParseRedirs(s, i');
      if !ok {
        return;
      }
      rs := rs + more;
      stop, i' := Peek(s, i', "|)&;");
    }
    ok, cmd := true, Wrap(Exec(args), rs);
  }

  /** `parseblock`, after its opening parenthesis has been seen. */
  method ParseBlock(s: string, i: nat) returns (ok: bool, cmd: Cmd<Range>, i': nat)
    requires i <= |s| && Lex(s, i) != [] && Lex(s, i)[0] == Sym('(')
    ensures i' <= |s|
    ensures !ok ==> ParseExec(Lex(s, i)) == None
    ensures ok ==> ParseExec(Lex(s, i)) == Some((cmd, Lex(s, i')))
    decreases |Lex(s, i)|, 1
  {
    hide Lex;
    var closed;
    var _, i1 := GetToken(s, i);
    ok, cmd, i' := ParseLineAt(s, i1);
    if !ok {
      return;
    }
    closed, i' := Peek(s, i', ")");
    if !closed {
      return false, cmd, i';
    }
    var _, i2 := GetToken(s, i');
    var rs;
    ok, rs, i' := ParseRedirs(s, i2);
    cmd := Wrap(cmd, rs);
  }

  /** `parseexec`. */
  method ParseExecAt(s: string, i: nat) returns (ok: bool, cmd: Cmd<Range>, i': nat)
    requires i <= |s|
    ensures i' <= |s|
    ensures !ok ==> ParseExec(Lex(s, i)) == None
    ensures ok ==> ParseExec(Lex(s, i)) == Some((cmd, Lex(s, i')))
    decreases |Lex(s, i)|, 2
  {
    hide Lex;
    var block;
    block, i' := Peek(s, i, "(");
    if block {
      ok, cmd, i' := ParseBlock(s, i');
      return;
    }
    var rs;
    cmd := Exec([]);
    ok, rs, i' := ParseRedirs(s, i');
    if ok {
      ok, cmd, i' := ParseArgs(s, i', rs);
    }
  }

  /** `parsepipe`. */
  method ParsePipeAt(s: string, i: nat) returns (ok: bool, cmd: Cmd<Range>, i': nat)
    requires i <= |s|
    ensures i' <= |s|
    ensures !ok ==> ParsePipe(Lex(s, i)) == None
    ensures ok ==> ParsePipe(Lex(s, i)) == Some((cmd, Lex(s, i')))
    decreases |Lex(s, i)|, 3
  {
    hide Lex;
    ok, cmd, i' := ParseExecAt(s, i);
    if !ok {
      return;
    }
    var pipe;
    pipe, i' := Peek(s, i', "|");
    if pipe {
      var _, i1 := GetToken(s, i');
      var right;
      ok, right, i' := ParsePipeAt(s, i1);
      cmd := Pipe(cmd, right);
    }
  }

  /** `parseline`. */
  method ParseLineAt(s: string, i: nat) returns (ok: bool, cmd: Cmd<Range>, i': nat)
    requires i <= |s|
    ensures i' <= |s|
    ensures !ok ==> ParseLine(Lex(s, i)) == None
    ensures ok ==> ParseLine(Lex(s, i)) == Some((cmd, Lex(s, i')))
    decreases |Lex(s, i)|, 4
  {
    hide Lex;
    ok, cmd, i' := ParsePipeAt(s, i);
    if !ok {
      return;
    }
    ghost var first, rest := cmd, Lex(s, i');
    var more;
    more, i' := Peek(s, i', "&");
    while more
      invariant i' <= |s| && Amps(first, rest) == Amps(cmd, Lex(s, i')) && |Lex(s, i')| <= |rest|
      invariant more <==> Lex(s, i') != [] && Lex(s, i')[0] == Sym('&')
      decreases |Lex(s, i')|
    {
      var _, i1 := GetToken(s, i');
      cmd := Back(cmd);
      more, i' := Peek(s, i1, "&");
    }
    var list;
    list, i' := Peek(s, i', ";");
    if list {
      var _, i1 := GetToken(s, i');
      var right;
      ok, right, i' := ParseLineAt(s, i1);
      cmd := List(cmd, right);
    }
  }

  // --- Cutting the words out ----------------------------------------------------------------------

  /** Where the words of a tree end. */
  function WordEnds(c: Cmd<Range>): set<nat> {
    match c
    case Exec(args) => set i | 0 <= i < |args| :: args[i].eq
    case Redir(sub, file, _) => WordEnds(sub) + {file.eq}
    case Pipe(l, r) => WordEnds(l) + WordEnds(r)
    case List(l, r) => WordEnds(l) + WordEnds(r)
    case Back(sub) => WordEnds(sub)
  }

  /** All of them before `n`. */
  predicate Reaches(c: Cmd<Range>, n: nat) {
    match c
    case Exec(args) => forall i :: 0 <= i < |args| ==> args[i].eq < n
    case Redir(sub, file, _) => Reaches(sub, n) && file.eq < n
    case Pipe(l, r) => Reaches(l, n) && Reaches(r, n)
    case List(l, r) => Reaches(l, n) && Reaches(r, n)
    case Back(sub) => Reaches(sub, n)
  }

  /** `buf` is `was` with a NUL at each position in `cuts`. */
  ghost predicate Cut(buf: seq<char>, was: seq<char>, cuts: set<nat>) {
    |buf| == |was| && forall k :: 0 <= k < |buf| ==> buf[k] == if k in cuts then 0 as char else was[k]
  }

  /** `nulterminate`. */
  method NulTerminate(c: Cmd<Range>, buf: array<char>)
    requires Reaches(c, buf.Length)
    modifies buf
    ensures Cut(buf[..], old(buf[..]), WordEnds(c))
    decreases c
  {
    match c {
      case Exec(args) =>
        var i := 0;
        while i < |args|
          invariant 0 <= i <= |args| && Cut(buf[..], old(buf[..]), set j | 0 <= j < i :: args[j].eq)
        {
          buf[args[i].eq] := 0 as char;
          i := i + 1;
        }
      case Redir(sub, file, _) =>
        NulTerminate(sub, buf);
        buf[file.eq] := 0 as char;
      case Pipe(l, r) =>
        NulTerminate(l, buf);
        NulTerminate(r, buf);
      case List(l, r) =>
        NulTerminate(l, buf);
        NulTerminate(r, buf);
      case Back(sub) => NulTerminate(sub, buf);
    }
  }

  /** A word lies in the line, has no delimiter in it, and is followed by one or by the end. */
  predicate Placed(s: string, r: Range) {
    && r.q < r.eq <= |s|
    && (forall k :: r.q <= k < r.eq ==> !IsSpace(s[k]) && !IsSymbol(s[k]))
    && (r.eq < |s| ==> IsSpace(s[r.eq]) || IsSymbol(s[r.eq]))
  }

  predicate AllPlaced(s: string, c: Cmd<Range>) {
    match c
    case Exec(args) => forall i :: 0 <= i < |args| ==> Placed(s, args[i])
    case Redir(sub, file, _) => AllPlaced(s, sub) && Placed(s, file)
    case Pipe(l, r) => AllPlaced(s, l) && AllPlaced(s, r)
    case List(l, r) => AllPlaced(s, l) && AllPlaced(s, r)
    case Back(sub) => AllPlaced(s, sub)
  }

  predicate TokensPlaced(s: string, ts: seq<Token<Range>>) {
    forall i :: 0 <= i < |ts| && ts[i].Word? ==> Placed(s, ts[i].w)
  }

  lemma {:induction false} LexPlaced(s: string, i: nat)
    requires i <= |s|
    ensures TokensPlaced(s, Lex(s, i))
    decreases |s| - i
  {
    var j := Skip(s, i);
    if j < |s| {
      LexPlaced(s, TokenAt(s, j).1);
    }
  }

  /** The C string at `q`: up to the first NUL. */
  function CString(buf: seq<char>, q: nat): string
    decreases |buf| - q
  {
    if q >= |buf| || buf[q] == 0 as char then "" else [buf[q]] + CString(buf, q + 1)
  }

  lemma {:induction false} CStringIs(buf: seq<char>, q: nat, eq: nat)
    requires q <= eq < |buf| && buf[eq] == 0 as char && forall k :: q <= k < eq ==> buf[k] != 0 as char
    ensures CString(buf, q) == buf[q..eq]
    decreases eq - q
  {
    if q < eq {
      CStringIs(buf, q + 1, eq);
      assert buf[q..eq] == [buf[q]] + buf[q + 1..eq];
    }
  }

  /** After cutting, the C string at a word's start is the word, however many other words were cut. */
  lemma WordSurvives(s: string, buf: seq<char>, cuts: set<nat>, r: Range)
    requires Cut(buf, s + [0 as char], cuts) && Placed(s, r) && r.eq in cuts
    requires (forall k :: 0 <= k < |s| ==> s[k] != 0 as char)
    requires forall e :: e in cuts ==> e == |s| || (e < |s| && (IsSpace(s[e]) || IsSymbol(s[e])))
    ensures CString(buf, r.q) == Text(s, r)
  {
    var was := s + [0 as char];
    forall k | r.q <= k < r.eq
      ensures buf[k] == s[k] != 0 as char
    {
      assert k !in cuts;
      assert was[k] == s[k];
    }
    CStringIs(buf, r.q, r.eq);
    assert buf[r.q..r.eq] == s[r.q..r.eq];
  }

  /** The command the running shell sees: every word read as a C string. */
  function CmdStrings(buf: seq<char>, c: Cmd<Range>): Cmd<string>
  {
    match c
    case Exec(args) => Exec(seq(|args|, i requires 0 <= i < |args| => CString(buf, args[i].q)))
    case Redir(sub, file, kind) => Redir(CmdStrings(buf, sub), CString(buf, file.q), kind)
    case Pipe(l, r) => Pipe(CmdStrings(buf, l), CmdStrings(buf, r))
    case List(l, r) => List(CmdStrings(buf, l), CmdStrings(buf, r))
    case Back(sub) => Back(CmdStrings(buf, sub))
  }

  lemma {:induction false} CutsAreDelimiters(s: string, c: Cmd<Range>)
    requires AllPlaced(s, c)
    ensures forall e :: e in WordEnds(c) ==> e == |s| || (e < |s| && (IsSpace(s[e]) || IsSymbol(s[e])))
    ensures Reaches(c, |s| + 1)
  {
    match c {
      case Exec(_) =>
      case Redir(sub, _, _) => CutsAreDelimiters(s, sub);
      case Pipe(l, r) => CutsAreDelimiters(s, l); CutsAreDelimiters(s, r);
      case List(l, r) => CutsAreDelimiters(s, l); CutsAreDelimiters(s, r);
      case Back(sub) => CutsAreDelimiters(s, sub);
    }
  }

  /** Every argument and file name is left equal to the token scanned. */
  lemma {:induction false} StringsSurvive(s: string, buf: seq<char>, cuts: set<nat>, c: Cmd<Range>)
    requires Cut(buf, s + [0 as char], cuts) && AllPlaced(s, c) && WordEnds(c) <= cuts
    requires (forall k :: 0 <= k < |s| ==> s[k] != 0 as char)
    requires forall e :: e in cuts ==> e == |s| || (e < |s| && (IsSpace(s[e]) || IsSymbol(s[e])))
    ensures CmdStrings(buf, c) == CmdText(s, c)
  {
    hide Cut, Placed, CString;
    match c {
      case Exec(args) =>
        forall i | 0 <= i < |args|
          ensures CString(buf, args[i].q) == Text(s, args[i])
        {
          assert args[i].eq in WordEnds(c);
          WordSurvives(s, buf, cuts, args[i]);
        }
        assert CmdStrings(buf, c).args == RangeTexts(s, args);
      case Redir(sub, file, _) =>
        StringsSurvive(s, buf, cuts, sub);
        WordSurvives(s, buf, cuts, file);
      case Pipe(l, r) =>
        StringsSurvive(s, buf, cuts, l);
        StringsSurvive(s, buf, cuts, r);
      case List(l, r) =>
        StringsSurvive(s, buf, cuts, l);
        StringsSurvive(s, buf, cuts, r);
      case Back(sub) => StringsSurvive(s, buf, cuts, sub);
    }
  }

  // Words in a parsed tree are words of the line.

  lemma {:induction false} WrapPlaced(s: string, c: Cmd<Range>, rs: seq<(Range, Kind)>)
    requires AllPlaced(s, c) && forall i :: 0 <= i < |rs| ==> Placed(s, rs[i].0)
    ensures AllPlaced(s, Wrap(c, rs))
    decreases |rs|
  {
    hide Placed;
    if rs != [] {
      WrapPlaced(s, Redir(c, rs[0].0, rs[0].1), rs[1..]);
    }
  }

  lemma {:induction false} RedirsPlaced(s: string, ts: seq<Token<Range>>)
    requires TokensPlaced(s, ts) && Redirs(ts).Some?
    ensures var (rs, rest) := Redirs(ts).value; TokensPlaced(s, rest) && forall i :: 0 <= i < |rs| ==>
        Placed(s, rs[i].0)
  {
    hide Placed;
    if ts != [] && ts[0].Sym? && ts[0].c in "<>+" {
      RedirsPlaced(s, ts[2..]);
    }
  }

  lemma {:induction false} ArgsPlaced(s: string, args: seq<Range>, rs: seq<(Range, Kind)>, ts: seq<Token<Range>>)
    requires TokensPlaced(s, ts) && Args(args, rs, ts).Some?
    requires (forall i :: 0 <= i < |args| ==> Placed(s, args[i])) && forall i :: 0 <= i < |rs| ==> Placed(s, rs[i].0)
    ensures var (c, rest) := Args(args, rs, ts).value; AllPlaced(s, c) && TokensPlaced(s, rest)
    decreases |ts|
  {
    hide Placed;
    if ts == [] || (ts[0].Sym? && ts[0].c in "|)&;") {
      WrapPlaced(s, Exec(args), rs);
    } else {
      RedirsPlaced(s, ts[1..]);
      var (more, rest) := Redirs(ts[1..]).value;
      ArgsPlaced(s, args + [ts[0].w], rs + more, rest);
    }
  }

  lemma {:induction false} ExecPlaced(s: string, ts: seq<Token<Range>>)
    requires TokensPlaced(s, ts) && ParseExec(ts).Some?
    ensures var (c, rest) := ParseExec(ts).value; AllPlaced(s, c) && TokensPlaced(s, rest)
    decreases |ts|, 1
  {
    hide Placed;
    if ts != [] && ts[0] == Sym('(') {
      LinePlaced(s, ts[1..]);
      var (c, rest) := ParseLine(ts[1..]).value;
      RedirsPlaced(s, rest[1..]);
      WrapPlaced(s, c, Redirs(rest[1..]).value.0);
    } else {
      RedirsPlaced(s, ts);
      var (rs, rest) := Redirs(ts).value;
      ArgsPlaced(s, [], rs, rest);
    }
  }

  lemma {:induction false} PipePlaced(s: string, ts: seq<Token<Range>>)
    requires TokensPlaced(s, ts) && ParsePipe(ts).Some?
    ensures var (c, rest) := ParsePipe(ts).value; AllPlaced(s, c) && TokensPlaced(s, rest)
    decreases |ts|, 2
  {
    hide Placed;
    ExecPlaced(s, ts);
    var rest := ParseExec(ts).value.1;
    if rest != [] && rest[0] == Sym('|') {
      PipePlaced(s, rest[1..]);
    }
  }

  lemma {:induction false} AmpsPlaced(s: string, c: Cmd<Range>, ts: seq<Token<Range>>)
    requires AllPlaced(s, c) && TokensPlaced(s, ts)
    ensures AllPlaced(s, Amps(c, ts).0) && TokensPlaced(s, Amps(c, ts).1)
    decreases |ts|
  {
    hide Placed;
    if ts != [] && ts[0] == Sym('&') {
      AmpsPlaced(s, Back(c), ts[1..]);
    }
  }

  lemma {:induction false} LinePlaced(s: string, ts: seq<Token<Range>>)
    requires TokensPlaced(s, ts) && ParseLine(ts).Some?
    ensures var (c, rest) := ParseLine(ts).value; AllPlaced(s, c) && TokensPlaced(s, rest)
    decreases |ts|, 3
  {
    hide Placed;
    PipePlaced(s, ts);
    var (c, rest) := ParsePipe(ts).value;
    AmpsPlaced(s, c, rest);
    var rest' := Amps(c, rest).1;
    if rest' != [] && rest'[0] == Sym(';') {
      LinePlaced(s, rest'[1..]);
    }
  }

  /** `parsecmd`: parse the whole line or fail, then cut the words out of the buffer. */
  method ParseCmd(s: string, buf: array<char>) returns (ok: bool, cmd: Cmd<Range>)
    requires buf[..] == s + [0 as char] && forall k :: 0 <= k < |s| ==> s[k] != 0 as char
    modifies buf
    ensures ok <==> ParseLine(Lex(s, 0)).Some? && ParseLine(Lex(s, 0)).value.1 == []
    ensures ok ==> cmd == ParseLine(Lex(s, 0)).value.0 && CmdStrings(buf[..], cmd) == CmdText(s, cmd)
    ensures !ok ==> buf[..] == old(buf[..])
  {
    hide CmdStrings, CmdText, Cut, Placed;
    var i;
    ok, cmd, i := ParseLineAt(s, 0);
    if !ok {
      return;
    }
    ghost var rest := Lex(s, i);
    var _, j := Peek(s, i, "");
    if j != |s| {
      LexNonempty(s, i, j);
      return false, cmd;
    }
    LexPlaced(s, 0);
    LinePlaced(s, Lex(s, 0));
    CutsAreDelimiters(s, cmd);
    NulTerminate(cmd, buf);
    StringsSurvive(s, buf[..], WordEnds(cmd), cmd);
  }

  lemma LexNonempty(s: string, i: nat, j: nat)
    requires i <= |s| && j < |s| && Lex(s, j) == Lex(s, i) && !IsSpace(s[j])
    ensures Lex(s, i) != []
  {
    LexCons(s, j);
  }

  // --- Round trip ---------------------------------------------------------------------------------

  /** Every word is non-empty and free of blanks, symbols and NULs. */
  predicate PlainWords(c: Cmd<string>) {
    match c
    case Exec(args) => forall i :: 0 <= i < |args| ==> PlainWord(args[i])
    case Redir(sub, file, _) => PlainWords(sub) && PlainWord(file)
    case Pipe(l, r) => PlainWords(l) && PlainWords(r)
    case List(l, r) => PlainWords(l) && PlainWords(r)
    case Back(sub) => PlainWords(sub)
  }

  predicate AllSpellable(ts: seq<Token<string>>) { forall k :: 0 <= k < |ts| ==> Spellable(ts[k]) }

  lemma {:induction false} LineSpellable(c: Cmd<string>)
    requires PlainWords(c)
    ensures AllSpellable(PrintLine(c))
    decreases c, 3
  {
    hide Spellable, PlainWord;
    Symbols();
    if c.List? {
      BackSpellable(c.left);
      LineSpellable(c.right);
    } else {
      BackSpellable(c);
    }
  }

  lemma {:induction false} BackSpellable(c: Cmd<string>)
    requires PlainWords(c)
    ensures AllSpellable(PrintBack(c))
    decreases c, 2
  {
    hide Spellable, PlainWord;
    Symbols();
    if c.Back? {
      BackSpellable(c.sub);
    } else {
      PipeSpellable(c);
    }
  }

  lemma {:induction false} PipeSpellable(c: Cmd<string>)
    requires PlainWords(c)
    ensures AllSpellable(PrintPipe(c))
    decreases c, 1
  {
    hide Spellable, PlainWord;
    Symbols();
    if c.Pipe? {
      ExecSpellable(c.left);
      PipeSpellable(c.right);
    } else {
      ExecSpellable(c);
    }
  }

  lemma {:induction false} ExecSpellable(c: Cmd<string>)
    requires PlainWords(c)
    ensures AllSpellable(PrintExec(c))
    decreases c, 0
  {
    hide Spellable, PlainWord;
    Symbols();
    match c {
      case Exec(args) => WordsSpellable(args);
      case Redir(sub, file, _) => ExecSpellable(sub); WordSpellable(file);
      case Pipe(l, r) => ExecSpellable(l); PipeSpellable(r);
      case List(l, r) => BackSpellable(l); LineSpellable(r);
      case Back(sub) => BackSpellable(sub);
    }
  }

  lemma WordSpellable(w: string)
    requires PlainWord(w)
    ensures Spellable(Word(w))
  {
  }

  lemma WordsSpellable(ws: seq<string>)
    requires forall i :: 0 <= i < |ws| ==> PlainWord(ws[i])
    ensures AllSpellable(Words(ws))
  {
  }

  lemma Symbols()
    ensures Spellable(Sym(';')) && Spellable(Sym('&')) && Spellable(Sym('|')) && Spellable(Sym('('))
    ensures Spellable(Sym(')'))
    ensures forall k: Kind :: Spellable(Sym(SymOf(k)))
  {
  }

  /** The canonical command line for a tree. */
  function Line(c: Cmd<string>): string { Spell(PrintLine(c)) }

  /** Shell round trip: parsing the canonical line of a tree gives exactly that tree. */
  lemma RoundTrip(c: Cmd<string>)
    requires Fits(c) && PlainWords(c)
    ensures var r := ParseLine(Lex(Line(c), 0));
            r.Some? && r.value.1 == [] && CmdText(Line(c), r.value.0) == c
  {
    hide PrintLine, Lex, Spell, ParseLine, CmdText, PlainWords, Fits;
    var s, ts := Line(c), PrintLine(c);
    LineSpellable(c);
    assert s[0..] == Spell(ts);
    LexSpelled(s, 0, ts);
    LineRound(c, []);
    assert ts + [] == ts;
    LineText(s, Lex(s, 0));
  }

  lemma {:induction false} NoNul(ts: seq<Token<string>>)
    requires AllSpellable(ts)
    ensures forall k :: 0 <= k < |Spell(ts)| ==> Spell(ts)[k] != 0 as char
  {
    if ts != [] {
      var w, rest := Spelling(ts[0]), Spell(ts[1..]);
      NoNul(ts[1..]);
      assert Spellable(ts[0]);
      forall k | 0 <= k < |Spell(ts)|
        ensures Spell(ts)[k] != 0 as char
      {
        if k < |w| {
          assert Spell(ts)[k] == w[k];
        } else if k > |w| {
          assert Spell(ts)[k] == rest[k - |w| - 1];
        }
      }
    }
  }

  /** The round trip through the running code: parsing the canonical line of a tree succeeds, and the
      strings left in the buffer make up exactly that tree. */
  method ParsePrinted(c: Cmd<string>, buf: array<char>) returns (ok: bool, cmd: Cmd<Range>)
    requires Fits(c) && PlainWords(c) && buf[..] == Line(c) + [0 as char]
    modifies buf
    ensures ok && CmdStrings(buf[..], cmd) == c
  {
    hide PrintLine, Lex, Spell, ParseLine, CmdText, CmdStrings, PlainWords, Fits;
    LineSpellable(c);
    NoNul(PrintLine(c));
    RoundTrip(c);
    ok, cmd := ParseCmd(Line(c), buf);
  }
}
