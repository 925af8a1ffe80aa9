/** From characters to tokens and back: `gettoken`'s view of a command line, and where its words lie. */
module ShellText {
  import opened Basics
  import opened ShellGrammar

  predicate IsSpace(c: char) { c in " \t\r\n" || c == 11 as char }
  predicate IsSymbol(c: char) { c in "<|>&;()" }
  predicate IsPlain(c: char) { !IsSpace(c) && !IsSymbol(c) && c != 0 as char }

  /** A word by its place in the line: from `q` up to `eq`. */
  datatype Range = Range(q: nat, eq: nat)

  function Skip(s: string, i: nat): (j: nat)
    requires i <= |s|
    ensures i <= j <= |s| && (j < |s| ==> !IsSpace(s[j]))
    decreases |s| - i
  {
    if i < |s| && IsSpace(s[i]) then Skip(s, i + 1) else i
  }

  function WordEnd(s: string, i: nat): (j: nat)
    requires i <= |s|
    ensures i <= j <= |s| && (j < |s| ==> IsSpace(s[j]) || IsSymbol(s[j]))
    ensures forall k :: i <= k < j ==> !IsSpace(s[k]) && !IsSymbol(s[k])
    decreases |s| - i
  {
    if i < |s| && !IsSpace(s[i]) && !IsSymbol(s[i]) then WordEnd(s, i + 1) else i
  }

  /** The token that begins at `j`, and where it ends. */
  function TokenAt(s: string, j: nat): (r: (Token<Range>, nat))
    requires j < |s| && !IsSpace(s[j])
    ensures j < r.1 <= |s|
  {
    if s[j] == '>' then
      if j + 1 < |s| && s[j + 1] == '>' then (Sym('+'), j + 2) else (Sym('>'), j + 1)
    else if IsSymbol(s[j]) then (Sym(s[j]), j + 1)
    else (Word(Range(j, WordEnd(s, j))), WordEnd(s, j))
  }

  /** All tokens from position `i` on. */
  function Lex(s: string, i: nat): seq<Token<Range>>
    requires i <= |s|
    decreases |s| - i
  {
    var j := Skip(s, i);
    if j == |s| then [] else
      var (t, e) := TokenAt(s, j);
      [t] + Lex(s, e)
  }

  lemma {:induction false} LexSkips(s: string, i: nat)
    requires i <= |s|
    ensures Skip(s, Skip(s, i)) == Skip(s, i) && Lex(s, Skip(s, i)) == Lex(s, i)
  {
  }

  /** The text of a word. */
  function Text(s: string, r: Range): string { if r.q <= r.eq <= |s| then s[r.q..r.eq] else "" }

  function TokenText(s: string, t: Token<Range>): Token<string> { if t.Sym? then Sym(t.c) else Word(Text(s, t.w)) }

  function Texts(s: string, ts: seq<Token<Range>>): (r: seq<Token<string>>)
    ensures |r| == |ts| && forall i :: 0 <= i < |ts| ==> r[i] == TokenText(s, ts[i])
  {
    seq(|ts|, i requires 0 <= i < |ts| => TokenText(s, ts[i]))
  }

  function RangeTexts(s: string, rs: seq<Range>): seq<string> { seq(|rs|, i requires 0 <= i < |rs| => Text(s, rs[i])) }

  /** The command a tree of word places stands for. */
  function CmdText(s: string, c: Cmd<Range>): Cmd<string> {
    match c
    case Exec(args) => Exec(RangeTexts(s, args))
    case Redir(sub, file, kind) => Redir(CmdText(s, sub), Text(s, file), kind)
    case Pipe(l, r) => Pipe(CmdText(s, l), CmdText(s, r))
    case List(l, r) => List(CmdText(s, l), CmdText(s, r))
    case Back(sub) => Back(CmdText(s, sub))
  }

  function RedirTexts(s: string, rs: seq<(Range, Kind)>): seq<(string, Kind)> {
    seq(|rs|, i requires 0 <= i < |rs| => (Text(s, rs[i].0), rs[i].1))
  }

  // --- The grammar does not look into words ---------------------------------------------------------

  lemma {:induction false} WrapText(s: string, c: Cmd<Range>, rs: seq<(Range, Kind)>)
    ensures CmdText(s, Wrap(c, rs)) == Wrap(CmdText(s, c), RedirTexts(s, rs))
    decreases |rs|
  {
    if rs != [] {
      WrapText(s, Redir(c, rs[0].0, rs[0].1), rs[1..]);
      assert RedirTexts(s, rs)[1..] == RedirTexts(s, rs[1..]);
    }
  }

  lemma {:induction false} RedirsText(s: string, ts: seq<Token<Range>>)
    ensures match Redirs(ts)
            case None => Redirs(Texts(s, ts)) == None
            case Some((rs, rest)) => Redirs(Texts(s, ts)) == Some((RedirTexts(s, rs), Texts(s, rest)))
  {
    var us := Texts(s, ts);
    if ts != [] && ts[0].Sym? && ts[0].c in "<>+" && |ts| >= 2 && ts[1].Word? {
      RedirsText(s, ts[2..]);
      assert us[2..] == Texts(s, ts[2..]);
      if Redirs(ts[2..]).Some? {
        var (rs, rest) := Redirs(ts[2..]).value;
        assert RedirTexts(s, [(ts[1].w, KindOf(ts[0].c))] + rs) == [(Text(s, ts[1].w), KindOf(ts[0].c))]
            + RedirTexts(s, rs);
      }
    } else if !(ts != [] && ts[0].Sym? && ts[0].c in "<>+") {
      assert RedirTexts(s, []) == [];
    }
  }

  lemma {:induction false} ArgsText(s: string, args: seq<Range>, rs: seq<(Range, Kind)>, ts: seq<Token<Range>>)
    ensures match Args(args, rs, ts)
            case None => Args(RangeTexts(s, args), RedirTexts(s, rs), Texts(s, ts)) == None
            case Some((c, rest)) =>
              Args(RangeTexts(s, args), RedirTexts(s, rs), Texts(s, ts)) == Some((CmdText(s, c), Texts(s, rest)))
    decreases |ts|
  {
    var us := Texts(s, ts);
    if ts == [] || (ts[0].Sym? && ts[0].c in "|)&;") {
      WrapText(s, Exec(args), rs);
    } else if ts[0].Sym? || |args| + 1 >= MAXARGS {
    } else {
      RedirsText(s, ts[1..]);
      assert us[1..] == Texts(s, ts[1..]);
      if Redirs(ts[1..]).Some? {
        var (more, rest) := Redirs(ts[1..]).value;
        ArgsText(s, args + [ts[0].w], rs + more, rest);
        assert RangeTexts(s, args + [ts[0].w]) == RangeTexts(s, args) + [Text(s, ts[0].w)];
        assert RedirTexts(s, rs + more) == RedirTexts(s, rs) + RedirTexts(s, more);
      }
    }
  }

  /** Parsing texts and parsing places agree. */
  ghost predicate Agree(s: string, r: Option<(Cmd<Range>, seq<Token<Range>>)>,
                        t: Option<(Cmd<string>, seq<Token<string>>)>) {
    match r
    case None => t == None
    case Some((c, rest)) => t == Some((CmdText(s, c), Texts(s, rest)))
  }

  lemma {:induction false} ExecText(s: string, ts: seq<Token<Range>>)
    ensures Agree(s, ParseExec(ts), ParseExec(Texts(s, ts)))
    decreases |ts|, 1
  {
    var us := Texts(s, ts);
    if ts != [] && ts[0] == Sym('(') {
      LineText(s, ts[1..]);
      assert us[1..] == Texts(s, ts[1..]);
      if ParseLine(ts[1..]).Some? {
        var (c, rest) := ParseLine(ts[1..]).value;
        if rest != [] && rest[0] == Sym(')') {
          RedirsText(s, rest[1..]);
          assert Texts(s, rest)[1..] == Texts(s, rest[1..]);
          if Redirs(rest[1..]).Some? {
            WrapText(s, c, Redirs(rest[1..]).value.0);
          }
        }
      }
    } else {
      RedirsText(s, ts);
      if Redirs(ts).Some? {
        var (rs, rest) := Redirs(ts).value;
        ArgsText(s, [], rs, rest);
        assert RangeTexts(s, []) == [];
      }
    }
  }

  lemma {:induction false} PipeText(s: string, ts: seq<Token<Range>>)
    ensures Agree(s, ParsePipe(ts), ParsePipe(Texts(s, ts)))
    decreases |ts|, 2
  {
    ExecText(s, ts);
    if ParseExec(ts).Some? {
      var rest := ParseExec(ts).value.1;
      if rest != [] && rest[0] == Sym('|') {
        PipeText(s, rest[1..]);
        assert Texts(s, rest)[1..] == Texts(s, rest[1..]);
      }
    }
  }

  lemma {:induction false} AmpsText(s: string, c: Cmd<Range>, ts: seq<Token<Range>>)
    ensures Amps(CmdText(s, c), Texts(s, ts)) == (CmdText(s, Amps(c, ts).0), Texts(s, Amps(c, ts).1))
    decreases |ts|
  {
    if ts != [] && ts[0] == Sym('&') {
      AmpsText(s, Back(c), ts[1..]);
      assert Texts(s, ts)[1..] == Texts(s, ts[1..]);
    }
  }

  lemma {:induction false} LineText(s: string, ts: seq<Token<Range>>)
    ensures Agree(s, ParseLine(ts), ParseLine(Texts(s, ts)))
    decreases |ts|, 3
  {
    PipeText(s, ts);
    if ParsePipe(ts).Some? {
      var (c, rest) := ParsePipe(ts).value;
      AmpsText(s, c, rest);
      var (d, rest') := Amps(c, rest);
      if rest' != [] && rest'[0] == Sym(';') {
        LineText(s, rest'[1..]);
        assert Texts(s, rest')[1..] == Texts(s, rest'[1..]);
      }
    }
  }

  // --- Spelling tokens out ----------------------------------------------------------------------------

  predicate PlainWord(w: string) { w != "" && forall i :: 0 <= i < |w| ==> IsPlain(w[i]) }

  /** Symbols the grammar knows and words without special characters. */
  predicate Spellable(t: Token<string>) { if t.Sym? then t.c in "<|>&;()+" else PlainWord(t.w) }

  function Spelling(t: Token<string>): string { if t.Word? then t.w else if t.c == '+' then ">>" else [t.c] }

  /** Tokens separated by single spaces. */
  function Spell(ts: seq<Token<string>>): string {
    if ts == [] then "" else Spelling(ts[0]) + " " + Spell(ts[1..])
  }

  lemma {:induction false} WordEndsAt(s: string, i: nat, j: nat)
    requires i <= j < |s| && IsSpace(s[j]) && forall k :: i <= k < j ==> !IsSpace(s[k]) && !IsSymbol(s[k])
    ensures WordEnd(s, i) == j
    decreases j - i
  {
    if i < j {
      WordEndsAt(s, i + 1, j);
    }
  }

  /** One token followed by a space is scanned as that token. */
  lemma LexOne(s: string, i: nat, t: Token<string>, n: nat)
    requires Spellable(t) && n == |Spelling(t)| && i + n < |s| && s[i + n] == ' '
    requires forall k :: 0 <= k < n ==> s[i + k] == Spelling(t)[k]
    ensures !IsSpace(s[i]) && TokenText(s, TokenAt(s, i).0) == t && TokenAt(s, i).1 == i + n
  {
    assert s[i + 0] == Spelling(t)[0];
    if t.Word? {
      forall k | i <= k < i + n
        ensures !IsSpace(s[k]) && !IsSymbol(s[k])
      {
        assert s[i + (k - i)] == t.w[k - i] && IsPlain(t.w[k - i]);
      }
      WordEndsAt(s, i, i + n);
      assert s[i..i + n] == t.w;
    } else if t.c == '+' {
      assert s[i + 1] == Spelling(t)[1];
    }
  }

  lemma SpellTail(s: string, i: nat, ts: seq<Token<string>>)
    requires i <= |s| && s[i..] == Spell(ts) && ts != []
    ensures var w := Spelling(ts[0]);
            && i + |w| < |s| && s[i + |w|] == ' ' && s[i + |w| + 1..] == Spell(ts[1..])
            && forall k :: 0 <= k < |w| ==> s[i + k] == w[k]
  {
    var w := Spelling(ts[0]);
    var u := w + " " + Spell(ts[1..]);
    assert s[i..] == u;
    assert forall k :: 0 <= k < |u| ==> s[i + k] == s[i..][k] == u[k];
    assert s[i + |w| + 1..] == u[|w| + 1..];
  }

  /** Scanning spelled-out tokens finds them again, wherever in the line they stand. */
  lemma {:induction false} LexSpelled(s: string, i: nat, ts: seq<Token<string>>)
    requires i <= |s| && s[i..] == Spell(ts) && forall k :: 0 <= k < |ts| ==> Spellable(ts[k])
    ensures Texts(s, Lex(s, i)) == ts
    decreases |ts|
  {
    hide TokenAt, Spelling, Spellable, TokenText, Lex, Spell, Texts;
    if ts == [] {
      LexNothing(s, i);
      TextsNothing(s);
    } else {
      var n, head, tail := |Spelling(ts[0])|, ts[0], ts[1..];
      SpellTail(s, i, ts);
      LexStep(s, i, head, n);
      LexSpelled(s, i + n + 1, tail);
      TextsCons(s, TokenAt(s, i).0, Lex(s, i + n + 1));
      assert ts == [head] + tail;
    }
  }

  lemma LexStep(s: string, i: nat, t: Token<string>, n: nat)
    requires Spellable(t) && n == |Spelling(t)| && i + n < |s| && s[i + n] == ' '
    requires forall k :: 0 <= k < n ==> s[i + k] == Spelling(t)[k]
    ensures !IsSpace(s[i]) && Lex(s, i) == [TokenAt(s, i).0] + Lex(s, i + n + 1) && TokenText(s, TokenAt(s, i).0) == t
  {
    hide TokenAt, Spelling, Spellable, TokenText, Lex;
    LexOne(s, i, t, n);
    AfterSpace(s, i + n);
    LexCons(s, i);
  }

  lemma TextsNothing(s: string)
    ensures Texts(s, []) == []
  {
  }

  lemma LexNothing(s: string, i: nat)
    requires i <= |s| && s[i..] == Spell([])
    ensures Lex(s, i) == []
  {
    assert |s[i..]| == 0;
  }

  lemma LexCons(s: string, i: nat)
    requires i < |s| && !IsSpace(s[i])
    ensures Lex(s, i) == [TokenAt(s, i).0] + Lex(s, TokenAt(s, i).1)
  {
  }

  lemma TextsCons(s: string, t: Token<Range>, ts: seq<Token<Range>>)
    ensures Texts(s, [t] + ts) == [TokenText(s, t)] + Texts(s, ts)
  {
  }

  lemma AfterSpace(s: string, i: nat)
    requires i < |s| && s[i] == ' '
    ensures Lex(s, i) == Lex(s, i + 1)
  {
    assert Skip(s, i) == Skip(s, i + 1);
  }
}
