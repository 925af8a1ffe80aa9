/** The shell's language as a grammar, apart from any parser: derivations, the tokens they spell and the
    trees they mean. The parser accepts exactly the derivable token sequences and builds their trees. */
module ShellSyntax {
  import opened Basics
  import opened ShellGrammar

  /** line: pipe {&} [; line] */
  datatype LineD<W> = LastLine(pipe: PipeD<W>, amps: nat) | MoreLines(pipe: PipeD<W>, amps: nat, next: LineD<W>)

  /** pipe: command [| pipe] */
  datatype PipeD<W> = LastPipe(cmd: CommandD<W>) | MorePipes(cmd: CommandD<W>, next: PipeD<W>)

  /** command: ( line ) {redirection}, or {redirection} {word {redirection}} with fewer than ten words. */
  datatype CommandD<W> =
    | Group(line: LineD<W>, redirs: seq<(W, Kind)>)
    | Simple(first: seq<(W, Kind)>, items: seq<(W, seq<(W, Kind)>)>)

  // --- Tokens ---------------------------------------------------------------------------------------

  /** redirection: < word, > word or >> word. */
  function RedirYield<W>(rs: seq<(W, Kind)>): seq<Token<W>> {
    if rs == [] then []
    else
      var sign := match rs[0].1 { case In => '<' case Out => '>' case Append => '+' };
      [Sym(sign), Word(rs[0].0)] + RedirYield(rs[1..])
  }

  function ItemYield<W>(items: seq<(W, seq<(W, Kind)>)>): seq<Token<W>> {
    if items == [] then [] else [Word(items[0].0)] + RedirYield(items[0].1) + ItemYield(items[1..])
  }

  function AmpYield<W>(n: nat): seq<Token<W>> { if n == 0 then [] else [Sym('&')] + AmpYield(n - 1) }

  function LineYield<W>(l: LineD<W>): seq<Token<W>> {
    PipeYield(l.pipe) + AmpYield(l.amps) + if l.MoreLines? then [Sym(';')] + LineYield(l.next) else []
  }

  function PipeYield<W>(p: PipeD<W>): seq<Token<W>> {
    CommandYield(p.cmd) + if p.MorePipes? then [Sym('|')] + PipeYield(p.next) else []
  }

  function CommandYield<W>(x: CommandD<W>): seq<Token<W>> {
    match x
    case Group(line, redirs) => [Sym('(')] + LineYield(line) + [Sym(')')] + RedirYield(redirs)
    case Simple(first, items) => RedirYield(first) + ItemYield(items)
  }

  // --- Trees ----------------------------------------------------------------------------------------

  function ItemWords<W>(items: seq<(W, seq<(W, Kind)>)>): seq<W> {
    if items == [] then [] else [items[0].0] + ItemWords(items[1..])
  }

  function ItemRedirs<W>(items: seq<(W, seq<(W, Kind)>)>): seq<(W, Kind)> {
    if items == [] then [] else items[0].1 + ItemRedirs(items[1..])
  }

  /** Redirections around a command: the last one read is outermost. */
  function Redirected<W>(c: Cmd<W>, rs: seq<(W, Kind)>): Cmd<W> {
    if rs == [] then c
    else
      var n := |rs| - 1;
      Redir(Redirected(c, rs[..n]), rs[n].0, rs[n].1)
  }

  function InBack<W>(c: Cmd<W>, n: nat): Cmd<W> { if n == 0 then c else Back(InBack(c, n - 1)) }

  function LineTree<W>(l: LineD<W>): Cmd<W> {
    var first := InBack(PipeTree(l.pipe), l.amps);
    if l.MoreLines? then List(first, LineTree(l.next)) else first
  }

  function PipeTree<W>(p: PipeD<W>): Cmd<W> {
    if p.MorePipes? then Pipe(CommandTree(p.cmd), PipeTree(p.next)) else CommandTree(p.cmd)
  }

  function CommandTree<W>(x: CommandD<W>): Cmd<W> {
    match x
    case Group(line, redirs) => Redirected(LineTree(line), redirs)
    case Simple(first, items) => Redirected(Exec(ItemWords(items)), first + ItemRedirs(items))
  }

  predicate LineFits<W>(l: LineD<W>) { PipeFits(l.pipe) && (l.MoreLines? ==> LineFits(l.next)) }

  predicate PipeFits<W>(p: PipeD<W>) { CommandFits(p.cmd) && (p.MorePipes? ==> PipeFits(p.next)) }

  predicate CommandFits<W>(x: CommandD<W>) {
    match x
    case Group(line, _) => LineFits(line)
    case Simple(_, items) => |items| < 10
  }

  // --- The two ways of wrapping agree ---------------------------------------------------------------

  lemma {:induction false} WrapIs<W>(c: Cmd<W>, rs: seq<(W, Kind)>)
    ensures Wrap(c, rs) == Redirected(c, rs)
  {
    if rs != [] {
      var n := |rs| - 1;
      WrapIs(c, rs[..n]);
      WrapSnoc(c, rs[..n], rs[n]);
      assert rs == rs[..n] + [rs[n]];
    }
  }

  lemma {:induction false} InBackIs<W>(c: Cmd<W>, n: nat)
    ensures InBack(Back(c), n) == InBack(c, n + 1)
  {
    if n > 0 {
      InBackIs(c, n - 1);
    }
  }

  // --- What the parser accepts is derivable ---------------------------------------------------------

  lemma Glue<T>(a: seq<T>, b: seq<T>, c: seq<T>, d: seq<T>)
    ensures a + (b + (c + d)) == a + b + c + d
  {
  }

  lemma Swallow<T>(ts: seq<T>, x: T)
    requires ts != [] && ts[0] == x
    ensures ts == [x] + ts[1..]
  {
  }

  lemma {:induction false} RedirsSound<W>(ts: seq<Token<W>>)
    requires Redirs(ts).Some?
    ensures ts == RedirYield(Redirs(ts).value.0) + Redirs(ts).value.1
  {
    if ts != [] && ts[0].Sym? && ts[0].c in "<>+" {
      RedirsSound(ts[2..]);
      var (rs, rest) := Redirs(ts[2..]).value;
      RedirCons(ts[1].w, ts[0].c, rs);
      var two := [ts[0], ts[1]];
      assert ts == two + ts[2..];
      Assoc2(two, RedirYield(rs), rest);
    }
  }

  lemma RedirCons<W>(w: W, c: char, rs: seq<(W, Kind)>)
    requires c in "<>+"
    ensures RedirYield([(w, KindOf(c))] + rs) == [Sym(c), Word(w)] + RedirYield(rs)
  {
    assert ([(w, KindOf(c))] + rs)[1..] == rs;
  }

  lemma {:induction false} ArgsSound<W>(args: seq<W>, rs: seq<(W, Kind)>, ts: seq<Token<W>>)
    returns (items: seq<(W, seq<(W, Kind)>)>)
    requires Args(args, rs, ts).Some?
    ensures ts == ItemYield(items) + Args(args, rs, ts).value.1 && (items != [] ==> |args| + |items| < 10)
    ensures Args(args, rs, ts).value.0 == Redirected(Exec(args + ItemWords(items)), rs + ItemRedirs(items))
    decreases |ts|
  {
    if ts == [] || (ts[0].Sym? && ts[0].c in "|)&;") {
      items := [];
      WrapIs(Exec(args), rs);
      assert args + ItemWords(items) == args && rs + ItemRedirs(items) == rs;
    } else {
      var w := ts[0].w;
      var (more, rest) := Redirs(ts[1..]).value;
      hide Args, Redirs, ItemYield, ItemWords, ItemRedirs, RedirYield, Redirected;
      ArgsOne(args, rs, ts);
      RedirsSound(ts[1..]);
      var later := ArgsSound(args + [w], rs + more, rest);
      var fin := Args(args, rs, ts).value.1;
      items := [(w, more)] + later;
      ItemsCons(w, more, later);
      Swallow(ts, Word(w));
      Glue([Word(w)], RedirYield(more), ItemYield(later), fin);
      Assoc2(args, [w], ItemWords(later));
      Assoc2(rs, more, ItemRedirs(later));
    }
  }

  lemma ArgsOne<W>(args: seq<W>, rs: seq<(W, Kind)>, ts: seq<Token<W>>)
    requires ts != [] && ts[0].Word? && Args(args, rs, ts).Some?
    ensures |args| + 1 < 10 && Redirs(ts[1..]).Some?
    ensures var (more, rest) := Redirs(ts[1..]).value;
            |rest| < |ts| && Args(args, rs, ts) == Args(args + [ts[0].w], rs + more, rest)
  {
    hide Redirs;
  }

  lemma ItemsCons<W>(w: W, rs: seq<(W, Kind)>, later: seq<(W, seq<(W, Kind)>)>)
    ensures var items := [(w, rs)] + later;
            && ItemWords(items) == [w] + ItemWords(later) && ItemRedirs(items) == rs + ItemRedirs(later)
            && ItemYield(items) == [Word(w)] + RedirYield(rs) + ItemYield(later)
  {
    assert ([(w, rs)] + later)[1..] == later;
  }

  lemma {:induction false} CommandSound<W>(ts: seq<Token<W>>) returns (x: CommandD<W>)
    requires ParseExec(ts).Some?
    ensures CommandFits(x) && ts == CommandYield(x) + ParseExec(ts).value.1 && CommandTree(x) == ParseExec(ts).value.0
    decreases |ts|, 1
  {
    if ts != [] && ts[0] == Sym('(') {
      var l := LineSound(ts[1..]);
      var (c, rest) := ParseLine(ts[1..]).value;
      var (rs, fin) := Redirs(rest[1..]).value;
      hide ParseExec, ParseLine, LineYield, LineTree, LineFits, Redirs, RedirYield, Redirected, Wrap;
      GroupParsed(ts);
      RedirsSound(rest[1..]);
      WrapIs(c, rs);
      x := Group(l, rs);
      Swallow(ts, Sym('('));
      Swallow(rest, Sym(')'));
      Enclosed([Sym('(')], LineYield(l), [Sym(')')], RedirYield(rs), fin);
    } else {
      var (rs, rest) := Redirs(ts).value;
      hide Redirs, RedirYield, ItemYield, ItemWords, ItemRedirs, Redirected, Args;
      RedirsSound(ts);
      var items := ArgsSound([], rs, rest);
      x := Simple(rs, items);
      assert [] + ItemWords(items) == ItemWords(items);
      Assoc2(RedirYield(rs), ItemYield(items), Args([], rs, rest).value.1);
    }
  }

  lemma GroupParsed<W>(ts: seq<Token<W>>)
    requires ts != [] && ts[0] == Sym('(') && ParseExec(ts).Some?
    ensures ParseLine(ts[1..]).Some?
    ensures var (c, rest) := ParseLine(ts[1..]).value;
            && rest != [] && rest[0] == Sym(')') && Redirs(rest[1..]).Some?
            && ParseExec(ts) == Some((Wrap(c, Redirs(rest[1..]).value.0), Redirs(rest[1..]).value.1))
  {
    hide ParseLine, Redirs, Wrap;
  }

  lemma Enclosed<T>(a: seq<T>, b: seq<T>, c: seq<T>, d: seq<T>, e: seq<T>)
    ensures a + (b + (c + (d + e))) == a + b + c + d + e
  {
  }

  lemma {:induction false} PipeSound<W>(ts: seq<Token<W>>) returns (p: PipeD<W>)
    requires ParsePipe(ts).Some?
    ensures PipeFits(p) && ts == PipeYield(p) + ParsePipe(ts).value.1 && PipeTree(p) == ParsePipe(ts).value.0
    decreases |ts|, 2
  {
    var x := CommandSound(ts);
    var (c, rest) := ParseExec(ts).value;
    hide ParseExec, CommandYield, CommandTree;
    if rest != [] && rest[0] == Sym('|') {
      var next := PipeSound(rest[1..]);
      p := MorePipes(x, next);
      assert rest == [Sym('|')] + rest[1..];
    } else {
      p := LastPipe(x);
    }
  }

  lemma {:induction false} AmpsSound<W>(c: Cmd<W>, ts: seq<Token<W>>) returns (n: nat)
    ensures ts == AmpYield(n) + Amps(c, ts).1 && Amps(c, ts).0 == InBack(c, n)
    decreases |ts|
  {
    if ts != [] && ts[0] == Sym('&') {
      var k := AmpsSound(Back(c), ts[1..]);
      n := k + 1;
      InBackIs(c, k);
      assert ts == [Sym('&')] + ts[1..];
    } else {
      n := 0;
    }
  }

  lemma {:induction false} LineSound<W>(ts: seq<Token<W>>) returns (l: LineD<W>)
    requires ParseLine(ts).Some?
    ensures LineFits(l) && ts == LineYield(l) + ParseLine(ts).value.1 && LineTree(l) == ParseLine(ts).value.0
    decreases |ts|, 3
  {
    var p := PipeSound(ts);
    var (c, rest) := ParsePipe(ts).value;
    var n := AmpsSound(c, rest);
    var (d, fin) := Amps(c, rest);
    hide ParsePipe, PipeYield, PipeTree, PipeFits, Amps, AmpYield, InBack;
    if fin != [] && fin[0] == Sym(';') {
      var next := LineSound(fin[1..]);
      l := MoreLines(p, n, next);
      Swallow(fin, Sym(';'));
      var end := ParseLine(fin[1..]).value.1;
      Assoc2([Sym(';')], LineYield(next), end);
      Glue(PipeYield(p), AmpYield(n), [Sym(';')] + LineYield(next), end);
    } else {
      l := LastLine(p, n);
      assert PipeYield(p) + (AmpYield(n) + fin) == PipeYield(p) + AmpYield(n) + [] + fin;
    }
  }

  // --- What is derivable is accepted ----------------------------------------------------------------

  lemma {:induction false} RedirYieldIs<W>(rs: seq<(W, Kind)>)
    ensures RedirYield(rs) == RedirTokens(rs)
  {
    if rs != [] {
      RedirYieldIs(rs[1..]);
    }
  }

  /** No redirection comes next. */
  predicate NoRedir<W>(rest: seq<Token<W>>) { rest == [] || rest[0].Word? || rest[0].c !in "<>+" }

  lemma RedirsComplete<W>(rs: seq<(W, Kind)>, rest: seq<Token<W>>)
    requires NoRedir(rest)
    ensures Redirs(RedirYield(rs) + rest) == Some((rs, rest))
  {
    RedirYieldIs(rs);
    RedirsRound(rs, rest);
  }

  lemma {:induction false} ArgsComplete<W>(args: seq<W>, rs: seq<(W, Kind)>, items: seq<(W, seq<(W, Kind)>)>,
                                           rest: seq<Token<W>>)
    requires (items != [] ==> |args| + |items| < 10) && Ends(rest, "|)&;")
    ensures Args(args, rs, ItemYield(items) + rest)
         == Some((Redirected(Exec(args + ItemWords(items)), rs + ItemRedirs(items)), rest))
    decreases |items|
  {
    if items == [] {
      assert ItemYield(items) + rest == rest && args + ItemWords(items) == args && rs + ItemRedirs(items) == rs;
      WrapIs(Exec(args), rs);
    } else {
      var (w, more) := items[0];
      var later := items[1..];
      hide Args, Redirs, ItemYield, ItemWords, ItemRedirs, RedirYield, Redirected;
      assert items == [(w, more)] + later;
      ItemsCons(w, more, later);
      var tail := ItemYield(later) + rest;
      var ts := [Word(w)] + (RedirYield(more) + tail);
      Glue([Word(w)], RedirYield(more), ItemYield(later), rest);
      ItemsHead(later, rest);
      RedirsComplete(more, tail);
      assert ts[1..] == RedirYield(more) + tail;
      ArgsComplete(args + [w], rs + more, later, rest);
      ArgsStep(args, rs, ts, more, tail);
      Assoc2(args, [w], ItemWords(later));
      Assoc2(rs, more, ItemRedirs(later));
    }
  }

  lemma ItemsHead<W>(items: seq<(W, seq<(W, Kind)>)>, rest: seq<Token<W>>)
    requires Ends(rest, "|)&;")
    ensures NoRedir(ItemYield(items) + rest)
  {
    if items == [] {
      assert ItemYield(items) + rest == rest;
    } else {
      assert (ItemYield(items) + rest)[0] == Word(items[0].0);
    }
  }

  lemma ArgsStep<W>(args: seq<W>, rs: seq<(W, Kind)>, ts: seq<Token<W>>, more: seq<(W, Kind)>, rest: seq<Token<W>>)
    requires ts != [] && ts[0].Word? && |args| + 1 < 10 && Redirs(ts[1..]) == Some((more, rest))
    ensures Args(args, rs, ts) == Args(args + [ts[0].w], rs + more, rest)
  {
    hide Redirs;
  }

  lemma {:induction false} CommandComplete<W>(x: CommandD<W>, rest: seq<Token<W>>)
    requires CommandFits(x) && Ends(rest, "|)&;")
    ensures ParseExec(CommandYield(x) + rest) == Some((CommandTree(x), rest))
    decreases x
  {
    hide ParseLine, ParseExec, LineYield, LineTree, Redirs, RedirYield, ItemYield, ItemWords, ItemRedirs, Args,
         Redirected, Wrap;
    match x {
      case Group(line, redirs) =>
        var inner := [Sym(')')] + (RedirYield(redirs) + rest);
        var ts := [Sym('(')] + (LineYield(line) + inner);
        LineComplete(line, inner);
        RedirsComplete(redirs, rest);
        WrapIs(LineTree(line), redirs);
        Enclosed([Sym('(')], LineYield(line), [Sym(')')], RedirYield(redirs), rest);
        GroupStep(ts, line, inner, redirs, rest);
      case Simple(first, items) =>
        var tail := ItemYield(items) + rest;
        var ts := RedirYield(first) + tail;
        Assoc2(RedirYield(first), ItemYield(items), rest);
        ItemsHead(items, rest);
        RedirsComplete(first, tail);
        var none: seq<W> := [];
        ArgsComplete(none, first, items, rest);
        assert none + ItemWords(items) == ItemWords(items);
        SimpleStep(first, items, rest);
    }
  }

  lemma GroupStep<W>(ts: seq<Token<W>>, line: LineD<W>, inner: seq<Token<W>>, redirs: seq<(W, Kind)>,
                     rest: seq<Token<W>>)
    requires ts == [Sym('(')] + (LineYield(line) + inner) && inner == [Sym(')')] + (RedirYield(redirs) + rest)
    requires ParseLine(LineYield(line) + inner) == Some((LineTree(line), inner))
    requires Redirs(RedirYield(redirs) + rest) == Some((redirs, rest))
    ensures ParseExec(ts) == Some((Wrap(LineTree(line), redirs), rest))
  {
    hide ParseLine, LineYield, LineTree, Redirs, RedirYield, Wrap;
    assert ts[1..] == LineYield(line) + inner && inner[1..] == RedirYield(redirs) + rest;
  }

  lemma SimpleStep<W>(first: seq<(W, Kind)>, items: seq<(W, seq<(W, Kind)>)>, rest: seq<Token<W>>)
    requires Ends(rest, "|)&;")
    requires Redirs(RedirYield(first) + (ItemYield(items) + rest)) == Some((first, ItemYield(items) + rest))
    ensures ParseExec(RedirYield(first) + (ItemYield(items) + rest)) == Args([], first, ItemYield(items) + rest)
  {
    hide Args, ParseLine, Redirs, ItemYield;
    var ts := RedirYield(first) + (ItemYield(items) + rest);
    assert ts != [] ==> ts[0] != Sym('(') by {
      if first == [] {
        NoParen(items, rest);
        assert ts == ItemYield(items) + rest;
      }
    }
  }

  lemma NoParen<W>(items: seq<(W, seq<(W, Kind)>)>, rest: seq<Token<W>>)
    requires Ends(rest, "|)&;")
    ensures var ts := ItemYield(items) + rest; ts != [] ==> ts[0] != Sym('(')
  {
    if items == [] {
      assert ItemYield(items) + rest == rest;
    } else {
      assert (ItemYield(items) + rest)[0] == Word(items[0].0);
    }
  }

  lemma {:induction false} PipeComplete<W>(p: PipeD<W>, rest: seq<Token<W>>)
    requires PipeFits(p) && Ends(rest, ")&;")
    ensures ParsePipe(PipeYield(p) + rest) == Some((PipeTree(p), rest))
    decreases p, 0
  {
    hide ParseExec, ParsePipe, CommandYield, CommandTree, CommandFits;
    if p.MorePipes? {
      var more := PipeYield(p.next) + rest;
      Assoc2([Sym('|')], PipeYield(p.next), rest);
      Assoc2(CommandYield(p.cmd), [Sym('|')] + PipeYield(p.next), rest);
      CommandComplete(p.cmd, [Sym('|')] + more);
      PipeComplete(p.next, rest);
      PipeStep(PipeYield(p) + rest, CommandTree(p.cmd), more, PipeTree(p.next), rest);
    } else {
      assert PipeYield(p) == CommandYield(p.cmd);
      CommandComplete(p.cmd, rest);
      PipeStop(PipeYield(p) + rest, CommandTree(p.cmd), rest);
    }
  }

  lemma {:induction false} AmpsComplete<W>(c: Cmd<W>, n: nat, rest: seq<Token<W>>)
    requires Ends(rest, ");")
    ensures Amps(c, AmpYield(n) + rest) == (InBack(c, n), rest)
    decreases n
  {
    var ts := AmpYield(n) + rest;
    if n == 0 {
      assert ts == rest;
    } else {
      assert ts[1..] == AmpYield(n - 1) + rest;
      AmpsComplete(Back(c), n - 1, rest);
      InBackIs(c, n - 1);
    }
  }

  lemma AmpsHead<W>(n: nat, rest: seq<Token<W>>)
    requires Ends(rest, ");")
    ensures Ends(AmpYield(n) + rest, ")&;")
  {
    if n == 0 {
      assert AmpYield(n) + rest == rest;
    }
  }

  lemma BackStep<W>(p: PipeD<W>, n: nat, rest: seq<Token<W>>)
    requires PipeFits(p) && Ends(rest, ");")
    ensures ParseBack(PipeYield(p) + (AmpYield(n) + rest)) == Some((InBack(PipeTree(p), n), rest))
    decreases p, 1
  {
    hide ParsePipe, PipeYield, PipeTree, PipeFits, Amps, AmpYield, InBack;
    AmpsHead(n, rest);
    PipeComplete(p, AmpYield(n) + rest);
    AmpsComplete(PipeTree(p), n, rest);
  }

  lemma {:induction false} LineComplete<W>(l: LineD<W>, rest: seq<Token<W>>)
    requires LineFits(l) && Ends(rest, ")")
    ensures ParseLine(LineYield(l) + rest) == Some((LineTree(l), rest))
    decreases l
  {
    hide ParseBack, ParseLine, PipeYield, PipeTree, PipeFits, AmpYield, InBack;
    if l.MoreLines? {
      var more := LineYield(l.next) + rest;
      var ts := PipeYield(l.pipe) + (AmpYield(l.amps) + ([Sym(';')] + more));
      Assoc2([Sym(';')], LineYield(l.next), rest);
      Glue(PipeYield(l.pipe), AmpYield(l.amps), [Sym(';')] + LineYield(l.next), rest);
      BackStep(l.pipe, l.amps, [Sym(';')] + more);
      LineComplete(l.next, rest);
      LineStep(ts, InBack(PipeTree(l.pipe), l.amps), more, LineTree(l.next), rest);
    } else {
      var ts := PipeYield(l.pipe) + (AmpYield(l.amps) + rest);
      assert LineYield(l) == PipeYield(l.pipe) + AmpYield(l.amps);
      Assoc2(PipeYield(l.pipe), AmpYield(l.amps), rest);
      BackStep(l.pipe, l.amps, rest);
      LineStop(ts, InBack(PipeTree(l.pipe), l.amps), rest);
    }
  }

  /** The tokens derive from `line` and mean `c`. */
  ghost predicate Derives<W(!new)>(ts: seq<Token<W>>, c: Cmd<W>) {
    exists l: LineD<W> :: LineFits(l) && LineYield(l) == ts && LineTree(l) == c
  }

  /** The parser is exact: it takes a whole token sequence and builds `c` if and only if the grammar derives
      the sequence with meaning `c`. */
  lemma ParserIsExact<W(!new)>(ts: seq<Token<W>>, c: Cmd<W>)
    ensures ParseLine(ts) == Some((c, [])) <==> Derives(ts, c)
  {
    hide ParseLine, LineYield, LineTree, LineFits;
    if ParseLine(ts) == Some((c, [])) {
      var l := LineSound(ts);
      assert LineYield(l) + [] == LineYield(l);
    }
    if Derives(ts, c) {
      var l: LineD<W> :| LineFits(l) && LineYield(l) == ts && LineTree(l) == c;
      LineComplete(l, []);
      assert ts + [] == ts;
    }
  }
}
