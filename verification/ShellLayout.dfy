/** Command lines as they are typed: tokens with any blanks around them, and none where a symbol already
    separates two words. Scanning finds the tokens again, and the parser builds the tree they stand for. */
module ShellLayout {
  import opened Basics
  import opened ShellGrammar
  import opened ShellText
  import opened Shell
  import opened ShellSyntax

  /** A run of spaces, tabs, carriage returns, newlines and vertical tabs. */
  predicate Blanks(g: string) {
    forall i :: 0 <= i < |g| ==> g[i] == ' ' || g[i] == '\t' || g[i] == '\r' || g[i] == '\n' || g[i] == 11 as char
  }

  /** None of the five blanks, none of the seven symbols, and not the end of a C string. */
  predicate Ordinary(c: char) {
    && c != ' ' && c != '\t' && c != '\r' && c != '\n' && c != 11 as char && c != 0 as char
    && c != '<' && c != '|' && c != '>' && c != '&' && c != ';' && c != '(' && c != ')'
  }

  predicate Writable(t: Token<string>) {
    match t
    case Word(w) => w != "" && forall i :: 0 <= i < |w| ==> Ordinary(w[i])
    case Sym(c) => c == '<' || c == '|' || c == '>' || c == '&' || c == ';' || c == '(' || c == ')' || c == '+'
  }

  /** How a token is typed: `>>` is the one symbol of two characters. */
  function Typed(t: Token<string>): string {
    match t
    case Word(w) => w
    case Sym(c) => if c == '+' then ['>', '>'] else [c]
  }

  /** Two tokens that run together if nothing stands between them. */
  predicate RunTogether(t: Token<string>, u: Token<string>) {
    (t.Word? && u.Word?) || (t == Sym('>') && (u == Sym('>') || u == Sym('+')))
  }

  /** Blanks before the first token, between tokens and after the last. */
  predicate Layout(ts: seq<Token<string>>, gaps: seq<string>) {
    && |gaps| == |ts| + 1
    && (forall k :: 0 <= k < |gaps| ==> Blanks(gaps[k]))
    && (forall k :: 0 <= k < |ts| ==> Writable(ts[k]))
    && (forall k :: 1 <= k < |ts| && RunTogether(ts[k - 1], ts[k]) ==> gaps[k] != "")
  }

  function Written(ts: seq<Token<string>>, gaps: seq<string>): string
    requires |gaps| == |ts| + 1
  {
    if ts == [] then gaps[0] else gaps[0] + Typed(ts[0]) + Written(ts[1..], gaps[1..])
  }

  lemma LayoutTail(ts: seq<Token<string>>, gaps: seq<string>)
    requires Layout(ts, gaps) && ts != []
    ensures Layout(ts[1..], gaps[1..]) && Writable(ts[0]) && Blanks(gaps[0]) && Blanks(gaps[1])
    ensures |ts| > 1 && RunTogether(ts[0], ts[1]) ==> gaps[1] != ""
    ensures |ts| > 1 ==> Writable(ts[1])
  {
    hide Writable, Blanks, RunTogether;
    forall k | 1 <= k < |ts[1..]| && RunTogether(ts[1..][k - 1], ts[1..][k])
      ensures gaps[1..][k] != ""
    {
      assert ts[1..][k - 1] == ts[k] && ts[1..][k] == ts[k + 1];
    }
  }

  lemma Characters(c: char)
    ensures Ordinary(c) ==> !IsSpace(c) && !IsSymbol(c)
    ensures c == ' ' || c == '\t' || c == '\r' || c == '\n' || c == 11 as char ==> IsSpace(c)
    ensures c == '<' || c == '|' || c == '>' || c == '&' || c == ';' || c == '(' || c == ')' <==> IsSymbol(c)
    ensures IsSymbol(c) ==> !IsSpace(c)
    ensures IsSpace(c) ==> c == ' ' || c == '\t' || c == '\r' || c == '\n' || c == 11 as char
    ensures !IsSpace(c) && !IsSymbol(c) && c != 0 as char ==> Ordinary(c)
  {
  }

  lemma {:induction false} SkipsGap(s: string, i: nat, n: nat)
    requires i + n <= |s| && Blanks(s[i..i + n])
    ensures Lex(s, i) == Lex(s, i + n)
    decreases n
  {
    hide Lex;
    if n > 0 {
      assert s[i] == s[i..i + n][0];
      Characters(s[i]);
      SkipsOne(s, i);
      assert s[i + 1..i + n] == s[i..i + n][1..];
      SkipsGap(s, i + 1, n - 1);
    }
  }

  lemma SkipsOne(s: string, i: nat)
    requires i < |s| && IsSpace(s[i])
    ensures Lex(s, i) == Lex(s, i + 1)
  {
    assert Skip(s, i) == Skip(s, i + 1);
  }

  /** What follows a token does not belong to it. */
  predicate Stops(t: Token<string>, s: string, e: nat) {
    e < |s| ==> (t.Word? ==> IsSpace(s[e]) || IsSymbol(s[e])) && (t == Sym('>') ==> s[e] != '>')
  }

  lemma {:induction false} WordStops(s: string, i: nat, j: nat)
    requires i <= j <= |s| && (j < |s| ==> IsSpace(s[j]) || IsSymbol(s[j]))
    requires forall k :: i <= k < j ==> !IsSpace(s[k]) && !IsSymbol(s[k])
    ensures WordEnd(s, i) == j
    decreases j - i
  {
    if i < j {
      WordStops(s, i + 1, j);
    }
  }

  /** A typed token is scanned as that token. */
  lemma ScansToken(s: string, i: nat, t: Token<string>)
    requires Writable(t) && i + |Typed(t)| <= |s| && s[i..i + |Typed(t)|] == Typed(t) && Stops(t, s, i + |Typed(t)|)
    ensures i < |s| && !IsSpace(s[i]) && TokenText(s, TokenAt(s, i).0) == t && TokenAt(s, i).1 == i + |Typed(t)|
  {
    hide WordEnd;
    var n := |Typed(t)|;
    assert forall k :: 0 <= k < n ==> s[i + k] == s[i..i + n][k] == Typed(t)[k];
    assert s[i + 0] == Typed(t)[0];
    Characters(s[i]);
    match t {
      case Word(w) =>
        forall k | i <= k < i + n
          ensures !IsSpace(s[k]) && !IsSymbol(s[k])
        {
          assert s[i + (k - i)] == w[k - i];
          Characters(s[k]);
        }
        WordStops(s, i, i + n);
      case Sym(c) =>
        if c == '+' {
          assert s[i + 1] == Typed(t)[1];
        }
    }
  }

  lemma Heads(ts: seq<Token<string>>, gaps: seq<string>)
    requires Layout(ts, gaps) && ts != [] && Written(ts[1..], gaps[1..]) != ""
    ensures var c := Written(ts[1..], gaps[1..])[0];
            (ts[0].Word? ==> IsSpace(c) || IsSymbol(c)) && (ts[0] == Sym('>') ==> c != '>')
  {
    hide IsSpace, IsSymbol;
    LayoutTail(ts, gaps);
    var c := Written(ts[1..], gaps[1..])[0];
    Characters(c);
    if gaps[1] != "" {
      assert c == gaps[1][0];
    } else {
      assert c == Typed(ts[1])[0];
    }
  }

  lemma Splits(s: string, i: nat, ts: seq<Token<string>>, gaps: seq<string>)
    requires i <= |s| && Layout(ts, gaps) && ts != [] && s[i..] == Written(ts, gaps)
    ensures var j := i + |gaps[0]|;
            var e := j + |Typed(ts[0])|;
            && e <= |s| && Blanks(s[i..j]) && s[j..e] == Typed(ts[0]) && s[e..] == Written(ts[1..], gaps[1..])
            && Stops(ts[0], s, e)
  {
    hide Blanks, Typed, Writable, RunTogether, IsSpace, IsSymbol;
    LayoutTail(ts, gaps);
    var g, w, u := gaps[0], Typed(ts[0]), Written(ts[1..], gaps[1..]);
    hide Layout, Written;
    Pieces(s, i, g, w, u);
    var e := i + |g| + |w|;
    if e < |s| {
      assert s[e] == s[e..][0];
      Heads(ts, gaps);
    }
  }

  lemma Pieces(s: string, i: nat, g: string, w: string, u: string)
    requires i <= |s| && s[i..] == g + w + u
    ensures var j := i + |g|;
            var e := j + |w|;
            e <= |s| && s[i..j] == g && s[j..e] == w && s[e..] == u
  {
    var t := s[i..];
    var j := i + |g|;
    var e := j + |w|;
    assert s[i..j] == t[..|g|] && t[..|g|] == g;
    assert s[j..e] == t[|g|..|g| + |w|] && t[|g|..|g| + |w|] == w;
    assert s[e..] == t[|g| + |w|..] && t[|g| + |w|..] == u;
  }

  /** Scanning finds the tokens, however they are laid out. */
  lemma {:induction false} LexWritten(s: string, i: nat, ts: seq<Token<string>>, gaps: seq<string>)
    requires i <= |s| && Layout(ts, gaps) && s[i..] == Written(ts, gaps)
    ensures Texts(s, Lex(s, i)) == ts
    decreases |ts|
  {
    hide Lex, Texts, TokenAt, TokenText, Typed, Writable, Blanks, RunTogether, Stops;
    if ts == [] {
      assert s[i..|s|] == s[i..] == gaps[0];
      SkipsGap(s, i, |s| - i);
      LexAtEnd(s);
      TextsNothing(s);
    } else {
      var j := i + |gaps[0]|;
      var e := j + |Typed(ts[0])|;
      Splits(s, i, ts, gaps);
      LayoutTail(ts, gaps);
      SkipsGap(s, i, |gaps[0]|);
      ScansToken(s, j, ts[0]);
      LexCons(s, j);
      LexWritten(s, e, ts[1..], gaps[1..]);
      TextsCons(s, TokenAt(s, j).0, Lex(s, e));
      assert ts == [ts[0]] + ts[1..];
    }
  }

  /** The token at `j`, typed as it stands there. */
  lemma TokenTyped(s: string, j: nat)
    requires j < |s| && !IsSpace(s[j]) && forall k :: 0 <= k < |s| ==> s[k] != 0 as char
    ensures var (t, e) := TokenAt(s, j);
            Writable(TokenText(s, t)) && Typed(TokenText(s, t)) == s[j..e] && Stops(TokenText(s, t), s, e)
  {
    hide WordEnd;
    var (t, e) := TokenAt(s, j);
    Characters(s[j]);
    match t {
      case Word(r) =>
        var w := s[j..e];
        assert w[0] == s[j];
        forall k | 0 <= k < |w|
          ensures Ordinary(w[k])
        {
          assert w[k] == s[j + k];
          Characters(s[j + k]);
        }
      case Sym(c) =>
        if c == '+' {
          assert s[j..e] == ['>', '>'];
        } else {
          assert s[j..e] == [c];
        }
    }
  }

  lemma {:induction false} GapIsBlank(s: string, i: nat)
    requires i <= |s|
    ensures Blanks(s[i..Skip(s, i)])
    decreases |s| - i
  {
    var j := Skip(s, i);
    if i < |s| && IsSpace(s[i]) {
      GapIsBlank(s, i + 1);
      Characters(s[i]);
      assert s[i..j] == [s[i]] + s[i + 1..j];
    } else {
      assert s[i..j] == "";
    }
  }

  lemma LayoutCons(t: Token<string>, g: string, ts: seq<Token<string>>, gaps: seq<string>)
    requires Writable(t) && Blanks(g) && Layout(ts, gaps)
    requires ts != [] && RunTogether(t, ts[0]) ==> gaps[0] != ""
    ensures Layout([t] + ts, [g] + gaps)
    ensures Written([t] + ts, [g] + gaps) == g + Typed(t) + Written(ts, gaps)
  {
    hide Writable, Blanks, RunTogether, Typed;
    var us, hs := [t] + ts, [g] + gaps;
    assert us[1..] == ts && hs[1..] == gaps;
    forall k | 1 <= k < |us| && RunTogether(us[k - 1], us[k])
      ensures hs[k] != ""
    {
      assert us[k] == ts[k - 1];
      if k > 1 {
        assert us[k - 1] == ts[k - 2];
      }
    }
  }

  /** What stops one token does not run together with it. */
  lemma Apart(t: Token<string>, s: string, e: nat, ts: seq<Token<string>>, gaps: seq<string>)
    requires e <= |s| && Stops(t, s, e) && Layout(ts, gaps) && s[e..] == Written(ts, gaps)
    ensures ts != [] && RunTogether(t, ts[0]) ==> gaps[0] != ""
  {
    if ts != [] && gaps[0] == "" {
      assert Writable(ts[0]);
      assert Typed(ts[0]) != "" && s[e..][0] == Typed(ts[0])[0] && s[e] == s[e..][0];
      Characters(s[e]);
    }
  }

  /** Every line is its tokens, typed in some layout. */
  lemma {:induction false} EveryLineIsWritten(s: string, i: nat) returns (gaps: seq<string>)
    requires i <= |s| && forall k :: 0 <= k < |s| ==> s[k] != 0 as char
    ensures Layout(Texts(s, Lex(s, i)), gaps) && Written(Texts(s, Lex(s, i)), gaps) == s[i..]
    decreases |s| - i
  {
    hide Lex, Texts, TokenAt, TokenText, Typed, Writable, Blanks, RunTogether, Stops, Skip;
    var j := Skip(s, i);
    GapIsBlank(s, i);
    LexSkips(s, i);
    if j == |s| {
      assert s[i..j] == s[i..];
      gaps := [s[i..]];
      LexAtEnd(s);
      TextsNothing(s);
    } else {
      LexCons(s, j);
      var (t, e) := TokenAt(s, j);
      TokenTyped(s, j);
      var more := EveryLineIsWritten(s, e);
      var us := Texts(s, Lex(s, e));
      Apart(TokenText(s, t), s, e, us, more);
      LayoutCons(TokenText(s, t), s[i..j], us, more);
      gaps := [s[i..j]] + more;
      TextsCons(s, t, Lex(s, e));
      assert s[i..] == s[i..j] + s[j..e] + s[e..];
    }
  }

  /** The line is a derivation of the grammar, typed in some layout, and means `c`. */
  ghost predicate Means(s: string, c: Cmd<string>) {
    exists l: LineD<string>, gaps: seq<string> ::
      LineFits(l) && LineTree(l) == c && Layout(LineYield(l), gaps) && Written(LineYield(l), gaps) == s
  }

  /** Scanning and parsing a line give `c` exactly when the line means `c`; so no line means two things. */
  lemma LineMeans(s: string, c: Cmd<string>)
    requires forall k :: 0 <= k < |s| ==> s[k] != 0 as char
    ensures ParseLine(Texts(s, Lex(s, 0))) == Some((c, [])) <==> Means(s, c)
  {
    hide Lex, ParseLine, Written, LineFits, LineTree, LineYield, Texts, Blanks, Writable, RunTogether;
    var ts := Texts(s, Lex(s, 0));
    assert s[0..] == s;
    ParserIsExact(ts, c);
    if Derives(ts, c) {
      var l: LineD<string> :| LineFits(l) && LineYield(l) == ts && LineTree(l) == c;
      var gaps := EveryLineIsWritten(s, 0);
      assert Layout(LineYield(l), gaps) && Written(LineYield(l), gaps) == s;
    }
    if Means(s, c) {
      var l: LineD<string>, gaps: seq<string> :|
        LineFits(l) && LineTree(l) == c && Layout(LineYield(l), gaps) && Written(LineYield(l), gaps) == s;
      LexWritten(s, 0, LineYield(l), gaps);
    }
  }

  /** The running code, on any line at all: it succeeds exactly on the lines that mean something, and the
      strings it leaves in the buffer make up what the line means. */
  method ParseAny(s: string, buf: array<char>) returns (ok: bool, cmd: Cmd<Range>)
    requires buf[..] == s + [0 as char] && forall k :: 0 <= k < |s| ==> s[k] != 0 as char
    modifies buf
    ensures ok ==> Means(s, CmdStrings(buf[..], cmd))
    ensures !ok ==> buf[..] == old(buf[..]) && forall c :: !Means(s, c)
  {
    hide Lex, ParseLine, CmdText, CmdStrings, Texts, Means;
    ok, cmd := ParseCmd(s, buf);
    LineText(s, Lex(s, 0));
    TextsNothing(s);
    if ok {
      LineMeans(s, CmdText(s, cmd));
    } else {
      forall c
        ensures !Means(s, c)
      {
        LineMeans(s, c);
        if ParseLine(Lex(s, 0)).Some? {
          NoTexts(s, ParseLine(Lex(s, 0)).value.1);
        }
      }
    }
  }

  lemma NoTexts(s: string, ts: seq<Token<Range>>)
    requires ts != []
    ensures Texts(s, ts) != []
  {
  }
}
