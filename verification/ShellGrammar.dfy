/** The shell's command language on tokens: the recursive-descent grammar of `sh.c`, a canonical
    printer, and the proof that parsing undoes printing. */
module ShellGrammar {
  import opened Basics

  const MAXARGS: nat := 10

  /** `<`, `>` and `>>`. */
  datatype Kind = In | Out | Append

  /** Command trees over any representation of words. */
  datatype Cmd<W> =
    | Exec(args: seq<W>)
    | Redir(sub: Cmd<W>, file: W, kind: Kind)
    | Pipe(left: Cmd<W>, right: Cmd<W>)
    | List(left: Cmd<W>, right: Cmd<W>)
    | Back(sub: Cmd<W>)

  /** What `gettoken` returns: a symbol, with '+' for `>>`, or a word. */
  datatype Token<W> = Sym(c: char) | Word(w: W)

  function KindOf(c: char): Kind { if c == '<' then In else if c == '>' then Out else Append }

  function SymOf(k: Kind): char { match k case In => '<' case Out => '>' case Append => '+' }

  /** Redirections wrapped around a command, first one innermost. */
  function Wrap<W>(c: Cmd<W>, rs: seq<(W, Kind)>): Cmd<W>
    decreases |rs|
  {
    if rs == [] then c else Wrap(Redir(c, rs[0].0, rs[0].1), rs[1..])
  }

  // --- Grammar. None is a syntax error. -------------------------------------------------------------

  /** `parseredirs`. */
  function Redirs<W>(ts: seq<Token<W>>): (r: Option<(seq<(W, Kind)>, seq<Token<W>>)>)
    ensures r.Some? ==> |r.value.1| <= |ts|
  {
    if !(ts != [] && ts[0].Sym? && ts[0].c in "<>+") then Some(([], ts))
    else if |ts| < 2 || !ts[1].Word? then None
    else
      match Redirs(ts[2..])
      case None => None
      case Some((rs, rest)) => Some(([(ts[1].w, KindOf(ts[0].c))] + rs, rest))
  }

  /** The loop of `parseexec`. */
  function Args<W>(args: seq<W>, rs: seq<(W, Kind)>, ts: seq<Token<W>>): (r: Option<(Cmd<W>, seq<Token<W>>)>)
    ensures r.Some? ==> |r.value.1| <= |ts|
    decreases |ts|
  {
    if ts == [] || (ts[0].Sym? && ts[0].c in "|)&;") then Some((Wrap(Exec(args), rs), ts))
    else if ts[0].Sym? || |args| + 1 >= MAXARGS then None
    else
      match Redirs(ts[1..])
      case None => None
      case Some((more, rest)) => Args(args + [ts[0].w], rs + more, rest)
  }

  /** `parseexec` with `parseblock`. */
  function ParseExec<W>(ts: seq<Token<W>>): (r: Option<(Cmd<W>, seq<Token<W>>)>)
    ensures r.Some? ==> |r.value.1| <= |ts|
    decreases |ts|, 1
  {
    if ts != [] && ts[0] == Sym('(') then
      match ParseLine(ts[1..])
      case None => None
      case Some((c, rest)) =>
        if !(rest != [] && rest[0] == Sym(')')) then None
        else
          match Redirs(rest[1..])
          case None => None
          case Some((rs, rest')) => Some((Wrap(c, rs), rest'))
    else
      match Redirs(ts)
      case None => None
      case Some((rs, rest)) => Args([], rs, rest)
  }

  /** `parsepipe`. */
  function ParsePipe<W>(ts: seq<Token<W>>): (r: Option<(Cmd<W>, seq<Token<W>>)>)
    ensures r.Some? ==> |r.value.1| <= |ts|
    decreases |ts|, 2
  {
    match ParseExec(ts)
    case None => None
    case Some((c, rest)) =>
      if !(rest != [] && rest[0] == Sym('|')) then Some((c, rest))
      else
        match ParsePipe(rest[1..])
        case None => None
        case Some((d, rest')) => Some((Pipe(c, d), rest'))
  }

  /** The `&` loop of `parseline`. */
  function Amps<W>(c: Cmd<W>, ts: seq<Token<W>>): (r: (Cmd<W>, seq<Token<W>>))
    ensures |r.1| <= |ts|
    decreases |ts|
  {
    if ts != [] && ts[0] == Sym('&') then Amps(Back(c), ts[1..]) else (c, ts)
  }

  /** `parseline`. */
  function ParseLine<W>(ts: seq<Token<W>>): (r: Option<(Cmd<W>, seq<Token<W>>)>)
    ensures r.Some? ==> |r.value.1| <= |ts|
    decreases |ts|, 3
  {
    match ParsePipe(ts)
    case None => None
    case Some((c, rest)) =>
      var (d, rest') := Amps(c, rest);
      if !(rest' != [] && rest'[0] == Sym(';')) then Some((d, rest'))
      else
        match ParseLine(rest'[1..])
        case None => None
        case Some((e, rest'')) => Some((List(d, e), rest''))
  }

  // --- Printer. Parentheses only where the grammar needs them. ----------------------------------------

  function Words<W>(ws: seq<W>): seq<Token<W>> { seq(|ws|, i requires 0 <= i < |ws| => Word(ws[i])) }

  function PrintLine<W>(c: Cmd<W>): seq<Token<W>>
    decreases c, 3
  {
    if c.List? then PrintBack(c.left) + [Sym(';')] + PrintLine(c.right) else PrintBack(c)
  }

  function PrintBack<W>(c: Cmd<W>): seq<Token<W>>
    decreases c, 2
  {
    if c.Back? then PrintBack(c.sub) + [Sym('&')] else PrintPipe(c)
  }

  function PrintPipe<W>(c: Cmd<W>): seq<Token<W>>
    decreases c, 1
  {
    if c.Pipe? then PrintExec(c.left) + [Sym('|')] + PrintPipe(c.right) else PrintExec(c)
  }

  function PrintExec<W>(c: Cmd<W>): seq<Token<W>>
    decreases c, 0
  {
    match c
    case Exec(args) => Words(args)
    case Redir(sub, file, kind) => PrintExec(sub) + [Sym(SymOf(kind)), Word(file)]
    case Pipe(l, r) => [Sym('(')] + (PrintExec(l) + [Sym('|')] + PrintPipe(r)) + [Sym(')')]
    case List(l, r) => [Sym('(')] + (PrintBack(l) + [Sym(';')] + PrintLine(r)) + [Sym(')')]
    case Back(sub) => [Sym('(')] + (PrintBack(sub) + [Sym('&')]) + [Sym(')')]
  }

  /** Trees whose argument lists fit `argv`. */
  predicate Fits<W>(c: Cmd<W>) {
    match c
    case Exec(args) => |args| < MAXARGS
    case Redir(sub, _, _) => Fits(sub)
    case Pipe(l, r) => Fits(l) && Fits(r)
    case List(l, r) => Fits(l) && Fits(r)
    case Back(sub) => Fits(sub)
  }

  // --- Parsing undoes printing ------------------------------------------------------------------------

  function Size<W>(c: Cmd<W>): nat {
    match c
    case Exec(_) => 0
    case Redir(sub, _, _) => 1 + Size(sub)
    case Pipe(l, r) => 1 + Size(l) + Size(r)
    case List(l, r) => 1 + Size(l) + Size(r)
    case Back(sub) => 1 + Size(sub)
  }

  /** A command without its redirections, and the redirections, innermost first. */
  function Base<W>(c: Cmd<W>): (b: Cmd<W>)
    ensures Size(b) <= Size(c) && !b.Redir? && (Fits(c) ==> Fits(b))
  {
    if c.Redir? then Base(c.sub) else c
  }

  function Outer<W>(c: Cmd<W>): seq<(W, Kind)> {
    if c.Redir? then Outer(c.sub) + [(c.file, c.kind)] else []
  }

  function RedirTokens<W>(rs: seq<(W, Kind)>): seq<Token<W>> {
    if rs == [] then [] else [Sym(SymOf(rs[0].1)), Word(rs[0].0)] + RedirTokens(rs[1..])
  }

  /** A background command without its `&`s, and how many there are. */
  function Core<W>(c: Cmd<W>): (b: Cmd<W>)
    ensures Size(b) <= Size(c) && !b.Back? && (c.Back? ==> Size(b) < Size(c)) && (Fits(c) ==> Fits(b))
  {
    if c.Back? then Core(c.sub) else c
  }

  function Depth<W>(c: Cmd<W>): nat { if c.Back? then 1 + Depth(c.sub) else 0 }

  function Backs<W>(c: Cmd<W>, n: nat): Cmd<W>
    decreases n
  {
    if n == 0 then c else Backs(Back(c), n - 1)
  }

  function Ampers<W>(n: nat): seq<Token<W>> { seq(n, _ => Sym('&')) }

  /** `rest` begins with nothing or one of these symbols. */
  predicate Ends<W>(rest: seq<Token<W>>, cs: string) { rest == [] || (rest[0].Sym? && rest[0].c in cs) }

  lemma {:induction false} WrapSnoc<W>(c: Cmd<W>, rs: seq<(W, Kind)>, r: (W, Kind))
    ensures Wrap(c, rs + [r]) == Redir(Wrap(c, rs), r.0, r.1)
    decreases |rs|
  {
    if rs == [] {
      assert rs + [r] == [r];
      assert Wrap(c, [r]) == Wrap(Redir(c, r.0, r.1), [r][1..]);
    } else {
      assert (rs + [r])[1..] == rs[1..] + [r];
      WrapSnoc(Redir(c, rs[0].0, rs[0].1), rs[1..], r);
    }
  }

  lemma {:induction false} RewrapsTo<W>(c: Cmd<W>)
    ensures Wrap(Base(c), Outer(c)) == c
  {
    if c.Redir? {
      RewrapsTo(c.sub);
      WrapSnoc(Base(c.sub), Outer(c.sub), (c.file, c.kind));
    }
  }

  lemma {:induction false} RedirTokensSnoc<W>(rs: seq<(W, Kind)>, r: (W, Kind))
    ensures RedirTokens(rs + [r]) == RedirTokens(rs) + [Sym(SymOf(r.1)), Word(r.0)]
  {
    if rs == [] {
      assert rs + [r] == [r] && [r][1..] == [];
    } else {
      assert (rs + [r])[1..] == rs[1..] + [r];
      RedirTokensSnoc(rs[1..], r);
    }
  }

  lemma {:induction false} PrintedWithRedirs<W>(c: Cmd<W>)
    ensures PrintExec(c) == PrintExec(Base(c)) + RedirTokens(Outer(c))
  {
    if c.Redir? {
      PrintedWithRedirs(c.sub);
      RedirTokensSnoc(Outer(c.sub), (c.file, c.kind));
    } else {
      assert PrintExec(c) == PrintExec(c) + RedirTokens<W>([]);
    }
  }

  lemma {:induction false} BacksOf<W>(c: Cmd<W>, n: nat)
    ensures Backs(c, n + 1) == Back(Backs(c, n))
    decreases n
  {
    if n > 0 {
      BacksOf(Back(c), n - 1);
    }
  }

  lemma {:induction false} PrintedWithAmpers<W>(c: Cmd<W>)
    ensures PrintBack(c) == PrintPipe(Core(c)) + Ampers(Depth(c)) && Backs(Core(c), Depth(c)) == c
  {
    if c.Back? {
      PrintedWithAmpers(c.sub);
      BacksOf(Core(c.sub), Depth(c.sub));
      assert Ampers<W>(Depth(c)) == Ampers<W>(Depth(c.sub)) + [Sym('&')];
    } else {
      assert PrintPipe(c) == PrintPipe(c) + Ampers<W>(0);
    }
  }

  lemma {:induction false} RedirsRound<W>(rs: seq<(W, Kind)>, rest: seq<Token<W>>)
    requires rest == [] || rest[0].Word? || rest[0].c !in "<>+"
    ensures Redirs(RedirTokens(rs) + rest) == Some((rs, rest))
  {
    var ts := RedirTokens(rs) + rest;
    if rs == [] {
      assert ts == rest;
    } else {
      assert ts[2..] == RedirTokens(rs[1..]) + rest;
      RedirsRound(rs[1..], rest);
      assert [rs[0]] + rs[1..] == rs;
    }
  }

  lemma NoRedirTokens<W>()
    ensures RedirTokens<W>([]) == []
  {
  }

  lemma {:induction false} ArgsRound<W>(done: seq<W>, ws: seq<W>, rs: seq<(W, Kind)>, rest: seq<Token<W>>)
    requires ws != [] && |done| + |ws| < MAXARGS && Ends(rest, "|)&;")
    ensures Args(done, [], Words(ws) + RedirTokens(rs) + rest) == Some((Wrap(Exec(done + ws), rs), rest))
    decreases |ws|
  {
    hide Wrap, RedirTokens;
    var ts := Words(ws) + RedirTokens(rs) + rest;
    assert ts[0] == Word(ws[0]);
    assert ts[1..] == Words(ws[1..]) + RedirTokens(rs) + rest;
    if |ws| == 1 {
      assert ts[1..] == RedirTokens(rs) + rest;
      RedirsRound(rs, rest);
      assert ws == [ws[0]] && [] + rs == rs;
    } else {
      var none: seq<(W, Kind)> := [];
      RedirsRound(none, ts[1..]);
      NoRedirTokens<W>();
      assert RedirTokens(none) + ts[1..] == ts[1..] && none + none == none;
      ArgsRound(done + [ws[0]], ws[1..], rs, rest);
      assert done + [ws[0]] + ws[1..] == done + ws;
    }
  }

  lemma {:induction false} AmpsRound<W>(c: Cmd<W>, n: nat, rest: seq<Token<W>>)
    requires Ends(rest, ");")
    ensures Amps(c, Ampers(n) + rest) == (Backs(c, n), rest)
    decreases n
  {
    var ts := Ampers(n) + rest;
    if n == 0 {
      assert ts == rest;
    } else {
      assert ts[1..] == Ampers(n - 1) + rest;
      AmpsRound(Back(c), n - 1, rest);
    }
  }

  // One step of each parser, given what the parsers below it do.

  lemma PipeStep<W>(ts: seq<Token<W>>, c: Cmd<W>, more: seq<Token<W>>, d: Cmd<W>, rest: seq<Token<W>>)
    requires ParseExec(ts) == Some((c, [Sym('|')] + more)) && ParsePipe(more) == Some((d, rest))
    ensures ParsePipe(ts) == Some((Pipe(c, d), rest))
  {
    hide ParseExec;
    assert ([Sym('|')] + more)[1..] == more;
  }

  lemma PipeStop<W>(ts: seq<Token<W>>, c: Cmd<W>, rest: seq<Token<W>>)
    requires ParseExec(ts) == Some((c, rest)) && Ends(rest, ")&;")
    ensures ParsePipe(ts) == Some((c, rest))
  {
    hide ParseExec;
  }

  lemma LineStep<W>(ts: seq<Token<W>>, c: Cmd<W>, more: seq<Token<W>>, d: Cmd<W>, rest: seq<Token<W>>)
    requires ParseBack(ts) == Some((c, [Sym(';')] + more)) && ParseLine(more) == Some((d, rest))
    ensures ParseLine(ts) == Some((List(c, d), rest))
  {
    hide ParsePipe, Amps;
    assert ([Sym(';')] + more)[1..] == more;
  }

  lemma LineStop<W>(ts: seq<Token<W>>, c: Cmd<W>, rest: seq<Token<W>>)
    requires ParseBack(ts) == Some((c, rest)) && Ends(rest, ")")
    ensures ParseLine(ts) == Some((c, rest))
  {
    hide ParsePipe, Amps;
  }

  lemma Assoc<T>(a: seq<T>, x: T, b: seq<T>, c: seq<T>)
    ensures a + [x] + b + c == a + ([x] + (b + c))
  {
  }

  lemma Assoc2<T>(a: seq<T>, b: seq<T>, c: seq<T>)
    ensures a + b + c == a + (b + c)
  {
  }

  lemma PrintedPipe<W>(l: Cmd<W>, r: Cmd<W>)
    ensures PrintPipe(Pipe(l, r)) == PrintExec(l) + [Sym('|')] + PrintPipe(r)
    ensures PrintLine(Pipe(l, r)) == PrintBack(Pipe(l, r)) == PrintPipe(Pipe(l, r))
  {
    hide PrintExec;
  }

  lemma PrintedLine<W>(c: Cmd<W>)
    ensures PrintLine(c) == if c.List? then PrintBack(c.left) + [Sym(';')] + PrintLine(c.right) else PrintBack(c)
  {
    hide PrintBack;
  }

  lemma PrintedSimple<W>(c: Cmd<W>)
    requires !c.Pipe?
    ensures PrintPipe(c) == PrintExec(c)
  {
    hide PrintExec;
  }

  /** A parenthesised command. */
  lemma {:induction false} InnerRound<W>(c: Cmd<W>, rest: seq<Token<W>>)
    requires Fits(c) && (c.Pipe? || c.List? || c.Back?) && Ends(rest, ")")
    ensures ParseLine(PrintLine(c) + rest) == Some((c, rest))
    decreases Size(c), 0
  {
    hide ParseExec, ParsePipe, ParseBack, ParseLine, Amps, PrintExec, PrintPipe, PrintBack, PrintLine, Ampers, Backs,
         Core, Depth;
    var ts := PrintLine(c) + rest;
    PrintedLine(c);
    match c {
      case Pipe(l, r) =>
        PrintedPipe(l, r);
        Assoc(PrintExec(l), Sym('|'), PrintPipe(r), rest);
        ExecRound(l, [Sym('|')] + (PrintPipe(r) + rest));
        PipeRound(r, rest);
        PipeStep(ts, l, PrintPipe(r) + rest, r, rest);
        NoAmps(ts, c, rest);
        LineStop(ts, c, rest);
      case List(l, r) =>
        Assoc(PrintBack(l), Sym(';'), PrintLine(r), rest);
        BackRound(l, [Sym(';')] + (PrintLine(r) + rest));
        LineRound(r, rest);
        LineStep(ts, l, PrintLine(r) + rest, r, rest);
      case Back(_) =>
        CoreSmaller(c);
        BackRoundBy(c, rest);
        LineStop(ts, c, rest);
    }
  }

  lemma CoreSmaller<W>(c: Cmd<W>)
    ensures Size(Core(c)) <= Size(c) && (c.Back? ==> Size(Core(c)) < Size(c)) && (Fits(c) ==> Fits(Core(c)))
  {
  }

  lemma NoAmps<W>(ts: seq<Token<W>>, c: Cmd<W>, rest: seq<Token<W>>)
    requires ParsePipe(ts) == Some((c, rest)) && Ends(rest, ");")
    ensures ParseBack(ts) == Some((c, rest))
  {
    hide ParsePipe;
  }

  lemma WithAmps<W>(ts: seq<Token<W>>, c: Cmd<W>, rest: seq<Token<W>>, d: Cmd<W>, rest': seq<Token<W>>)
    requires ParsePipe(ts) == Some((c, rest)) && Amps(c, rest) == (d, rest')
    ensures ParseBack(ts) == Some((d, rest'))
  {
    hide ParsePipe, Amps;
  }

  lemma AmpersEnd<W>(n: nat, rest: seq<Token<W>>)
    requires Ends(rest, ");")
    ensures Ends(Ampers(n) + rest, ")&;")
  {
  }

  /** A background command, by way of what it is wrapped around. */
  lemma {:induction false} BackRoundBy<W>(c: Cmd<W>, rest: seq<Token<W>>)
    requires Fits(c) && Ends(rest, ");")
    ensures ParseBack(PrintBack(c) + rest) == Some((c, rest))
    decreases Size(Core(c)), 3
  {
    hide ParseExec, ParsePipe, ParseBack, Amps, PrintPipe, PrintBack, Ampers, Backs, Core, Depth;
    var b, amps := Core(c), Ampers(Depth(c)) + rest;
    CoreSmaller(c);
    PrintedWithAmpers(c);
    Assoc2(PrintPipe(b), Ampers(Depth(c)), rest);
    AmpersEnd(Depth(c), rest);
    PipeRound(b, amps);
    AmpsRound(b, Depth(c), rest);
    WithAmps(PrintBack(c) + rest, b, amps, c, rest);
  }

  lemma {:induction false} ExecRound<W>(c: Cmd<W>, rest: seq<Token<W>>)
    requires Fits(c) && Ends(rest, "|)&;")
    ensures ParseExec(PrintExec(c) + rest) == Some((c, rest))
    decreases Size(c), 1
  {
    hide PrintExec, PrintLine, RedirTokens, Wrap, ParseExec, ParseLine, Words;
    var b, rs := Base(c), Outer(c);
    PrintedWithRedirs(c);
    RewrapsTo(c);
    var ts := PrintExec(c) + rest;
    if b.Exec? {
      SimpleRound(b.args, rs, rest);
      PrintedExec(b.args);
      assert ts == Words(b.args) + RedirTokens(rs) + rest;
    } else {
      Parenthesised(b);
      InnerRound(b, [Sym(')')] + (RedirTokens(rs) + rest));
      BlockRound(PrintLine(b), b, rs, rest);
      assert ts == [Sym('(')] + PrintLine(b) + [Sym(')')] + (RedirTokens(rs) + rest);
    }
  }

  /** A parenthesised line, then redirections. */
  lemma BlockRound<W>(inner: seq<Token<W>>, c: Cmd<W>, rs: seq<(W, Kind)>, rest: seq<Token<W>>)
    requires Ends(rest, "|)&;")
    requires ParseLine(inner
        + ([Sym(')')] + (RedirTokens(rs) + rest))) == Some((c, [Sym(')')] + (RedirTokens(rs) + rest)))
    ensures ParseExec([Sym('(')] + inner + [Sym(')')] + (RedirTokens(rs) + rest)) == Some((Wrap(c, rs), rest))
  {
    hide Wrap, RedirTokens;
    var after := RedirTokens(rs) + rest;
    var ts := [Sym('(')] + inner + [Sym(')')] + after;
    assert ts[1..] == inner + ([Sym(')')] + after);
    assert ([Sym(')')] + after)[1..] == after;
    RedirsRound(rs, rest);
  }

  lemma PrintedExec<W>(args: seq<W>)
    ensures PrintExec(Exec(args)) == Words(args)
  {
  }

  lemma Parenthesised<W>(c: Cmd<W>)
    requires c.Pipe? || c.List? || c.Back?
    ensures PrintExec(c) == [Sym('(')] + PrintLine(c) + [Sym(')')]
  {
    match c {
      case Pipe(_, _) => assert PrintLine(c) == PrintBack(c) == PrintPipe(c);
      case List(_, _) =>
      case Back(_) => assert PrintLine(c) == PrintBack(c);
    }
  }

  lemma SimpleRound<W>(args: seq<W>, rs: seq<(W, Kind)>, rest: seq<Token<W>>)
    requires |args| < MAXARGS && Ends(rest, "|)&;")
    ensures ParseExec(Words(args) + RedirTokens(rs) + rest) == Some((Wrap(Exec(args), rs), rest))
  {
    var ts := Words(args) + RedirTokens(rs) + rest;
    if args == [] {
      assert ts == RedirTokens(rs) + rest;
      RedirsRound(rs, rest);
    } else {
      assert ts[0] == Word(args[0]);
      ArgsRound([], args, rs, rest);
      assert [] + args == args;
    }
  }

  lemma {:induction false} PipeRound<W>(c: Cmd<W>, rest: seq<Token<W>>)
    requires Fits(c) && Ends(rest, ")&;")
    ensures ParsePipe(PrintPipe(c) + rest) == Some((c, rest))
    decreases Size(c), 2
  {
    hide ParseExec, ParsePipe, PrintExec, PrintPipe, PrintBack, PrintLine;
    if c.Pipe? {
      PrintedPipe(c.left, c.right);
      Assoc(PrintExec(c.left), Sym('|'), PrintPipe(c.right), rest);
      ExecRound(c.left, [Sym('|')] + (PrintPipe(c.right) + rest));
      PipeRound(c.right, rest);
      PipeStep(PrintPipe(c) + rest, c.left, PrintPipe(c.right) + rest, c.right, rest);
    } else {
      PrintedSimple(c);
      ExecRound(c, rest);
      PipeStop(PrintPipe(c) + rest, c, rest);
    }
  }

  /** `parseline` up to its semicolon. */
  function ParseBack<W>(ts: seq<Token<W>>): Option<(Cmd<W>, seq<Token<W>>)> {
    match ParsePipe(ts)
    case None => None
    case Some((c, rest)) => Some(Amps(c, rest))
  }

  lemma {:induction false} BackRound<W>(c: Cmd<W>, rest: seq<Token<W>>)
    requires Fits(c) && Ends(rest, ");")
    ensures ParseBack(PrintBack(c) + rest) == Some((c, rest))
    decreases Size(c), 4
  {
    hide ParseBack, PrintBack, Core;
    CoreSmaller(c);
    BackRoundBy(c, rest);
  }

  /** Parsing a printed command gives the command back and stops exactly behind it. */
  lemma {:induction false} LineRound<W>(c: Cmd<W>, rest: seq<Token<W>>)
    requires Fits(c) && Ends(rest, ")")
    ensures ParseLine(PrintLine(c) + rest) == Some((c, rest))
    decreases Size(c), 5
  {
    hide ParseBack, ParseLine, PrintBack, PrintLine;
    if c.List? {
      InnerRound(c, rest);
    } else {
      PrintedLine(c);
      BackRound(c, rest);
      LineStop(PrintLine(c) + rest, c, rest);
    }
  }
}
