/** user/sh.c: what counts in a command line is its tokens, not the blanks around them. */
module ShellLex {
  import opened ShellParser

  /** A token as gettoken reports it, and its characters. */
  datatype Lexeme = Lexeme(ret: char, text: string)

  /** The tokens of a line, as repeated calls of gettoken give them. */
  function Lex(r: string): (ls: seq<Lexeme>)
    decreases |r|
  {
    var t := GetToken(r);
    if t.ret == '\0' then [] else [Lexeme(t.ret, WordOf(t).text)] + Lex(t.rest)
  }

  // ----- The parser sees only tokens -----

  lemma LexToken(r: string)
    ensures GetToken(r).ret == '\0' <==> Lex(r) == []
    ensures Lex(r) != [] ==>
      && GetToken(r).ret == Lex(r)[0].ret && |GetToken(r).end| <= |GetToken(r).at|
      && WordOf(GetToken(r)).text == Lex(r)[0].text && Lex(GetToken(r).rest) == Lex(r)[1..]
  {
    hide SkipWs, SkipWord;
    NulIsEnd(r);
  }

  lemma NulIsEnd(r: string)
    ensures GetToken(r).ret == '\0' <==> SkipWs(r) == ""
    ensures GetToken(r).ret != '\0' ==>
      GetToken(r).at == SkipWs(r) && WordOf(GetToken(r)).text != "" && WordOf(GetToken(r)).text[0] == SkipWs(r)[0]
  {
    hide SkipWs, SkipWord;
  }

  lemma LexBlanks(r: string)
    ensures Lex(SkipWs(r)) == Lex(r)
  {
    SkipTwice(r);
    assert GetToken(SkipWs(r)) == GetToken(r);
  }

  lemma {:induction false} SkipTwice(r: string)
    ensures SkipWs(SkipWs(r)) == SkipWs(r)
  {
    if r != "" && Ws(r[0]) {
      SkipTwice(r[1..]);
    }
  }

  lemma PeekLex(r: string, toks: string)
    ensures Peek(r, toks) <==> Lex(r) != [] && Lex(r)[0].text != "" && Lex(r)[0].text[0] in toks
  {
    hide SkipWs, SkipWord, GetToken;
    LexToken(r);
    NulIsEnd(r);
  }

  /** The same outcome but for the places of the words. */
  ghost predicate Alike(a: Result<Cmd<Tok>>, b: Result<Cmd<Tok>>) {
    match a
    case Err(m) => b == Err(m)
    case Ok(c, rest) => b.Ok? && Text(b.value) == Text(c) && Lex(b.rest) == Lex(rest)
  }

  ghost predicate AlikeRedirs(a: Result<seq<Redirection<Tok>>>, b: Result<seq<Redirection<Tok>>>) {
    match a
    case Err(m) => b == Err(m)
    case Ok(rs, rest) => b.Ok? && RedirTexts(b.value) == RedirTexts(rs) && Lex(b.rest) == Lex(rest)
  }

  lemma {:induction false} RedirsAlike(s: string, t: string)
    requires Lex(s) == Lex(t)
    ensures AlikeRedirs(Redirs(s), Redirs(t))
    decreases |s|
  {
    hide GetToken, Peek, Lex, SkipWs, WordOf;
    PeekLex(s, "<>");
    PeekLex(t, "<>");
    LexBlanks(s);
    LexBlanks(t);
    if Peek(s, "<>") {
      LexToken(s);
      LexToken(t);
      var a, b := GetToken(s), GetToken(t);
      Shrinks(s);
      LexToken(a.rest);
      LexToken(b.rest);
      var f, g := GetToken(a.rest), GetToken(b.rest);
      if f.ret == 'a' {
        Shrinks(a.rest);
        RedirsAlike(f.rest, g.rest);
        RedirsFound(s, t, a, b, f, g);
      }
    }
  }

  lemma Shrinks(r: string)
    ensures GetToken(r).ret != '\0' ==> |GetToken(r).rest| < |r|
  {}

  lemma RedirsFound(s: string, t: string, a: Token, b: Token, f: Token, g: Token)
    requires Peek(s, "<>") && Peek(t, "<>") && a == GetToken(s) && b == GetToken(t)
    requires f == GetToken(a.rest) && g == GetToken(b.rest) && a.ret == b.ret && f.ret == g.ret == 'a'
    requires |f.end| <= |f.at| && |g.end| <= |g.at| && WordOf(f).text == WordOf(g).text
    requires AlikeRedirs(Redirs(f.rest), Redirs(g.rest))
    ensures AlikeRedirs(Redirs(s), Redirs(t))
  {
    hide GetToken, Peek, Lex, SkipWs, WordOf;
    if Redirs(f.rest).Ok? {
      var d := if a.ret == '<' then In else if a.ret == '>' then Out else Append;
      var x, y := Redirection(WordOf(f), d), Redirection(WordOf(g), d);
      RedirTextsFront(x, Redirs(f.rest).value);
      RedirTextsFront(y, Redirs(g.rest).value);
    }
  }

  lemma RedirTextsConcat(a: seq<Redirection<Tok>>, b: seq<Redirection<Tok>>)
    ensures RedirTexts(a + b) == RedirTexts(a) + RedirTexts(b)
  {}

  lemma TextsConcat(a: seq<Tok>, b: seq<Tok>)
    ensures Texts(a + b) == Texts(a) + Texts(b)
  {}

  lemma {:induction false} ArgsAlike(argv: seq<Tok>, argv': seq<Tok>, rs: seq<Redirection<Tok>>,
      rs': seq<Redirection<Tok>>, s: string, t: string)
    requires Lex(s) == Lex(t) && Texts(argv) == Texts(argv') && RedirTexts(rs) == RedirTexts(rs')
    ensures Alike(Args(argv, rs, s), Args(argv', rs', t))
    decreases |s|
  {
    hide GetToken, Peek, Lex, SkipWs, WordOf, Texts, RedirTexts, Wrap, Redirs;
    PeekLex(s, "|)&;");
    PeekLex(t, "|)&;");
    LexBlanks(s);
    LexBlanks(t);
    TextWrap(Exec(argv), rs);
    TextWrap(Exec(argv'), rs');
    LexToken(s);
    LexToken(t);
    EndOfLex(s);
    EndOfLex(t);
    if !Peek(s, "|)&;") && GetToken(s).ret == 'a' {
      var a, b := GetToken(s), GetToken(t);
      Shrinks(s);
      RedirsAlike(a.rest, b.rest);
      if Redirs(a.rest).Ok? {
        TextsConcat(argv, [WordOf(a)]);
        TextsConcat(argv', [WordOf(b)]);
        OneText(WordOf(a), WordOf(b));
        RedirTextsConcat(rs, Redirs(a.rest).value);
        RedirTextsConcat(rs', Redirs(b.rest).value);
        ArgsAlike(argv + [WordOf(a)], argv' + [WordOf(b)], rs + Redirs(a.rest).value, rs' + Redirs(b.rest).value,
          Redirs(a.rest).rest, Redirs(b.rest).rest);
      }
    }
  }

  lemma OneText(a: Tok, b: Tok)
    requires a.text == b.text
    ensures Texts([a]) == Texts([b])
  {}

  lemma EndOfLex(r: string)
    ensures GetToken(r).ret == '\0' ==> Lex(GetToken(r).rest) == Lex(r) == []
  {
    NulIsEnd(r);
    LexBlanks(r);
    LexToken(r);
  }

  lemma {:induction false} ExecAlike(s: string, t: string)
    requires Lex(s) == Lex(t)
    ensures Alike(ParseExec(s), ParseExec(t))
    decreases |s|, 1
  {
    hide GetToken, Peek, Lex, Redirs, Args, ParseBlock;
    PeekLex(s, "(");
    PeekLex(t, "(");
    if Peek(s, "(") {
      BlockAlike(s, t);
    } else {
      RedirsAlike(s, t);
      if Redirs(s).Ok? {
        ArgsAlike([], [], Redirs(s).value, Redirs(t).value, Redirs(s).rest, Redirs(t).rest);
      }
    }
  }

  lemma {:induction false} BlockAlike(s: string, t: string)
    requires Lex(s) == Lex(t) && Peek(s, "(") && Peek(t, "(")
    ensures Alike(ParseBlock(s), ParseBlock(t))
    decreases |s|, 0
  {
    hide GetToken, Peek, Lex, Redirs, ParseLine, Wrap, RedirTexts;
    PeekLex(s, "(");
    LexToken(s);
    LexToken(t);
    Shrinks(s);
    LineAlike(GetToken(s).rest, GetToken(t).rest);
    var a, b := ParseLine(GetToken(s).rest), ParseLine(GetToken(t).rest);
    if a.Ok? {
      PeekLex(a.rest, ")");
      PeekLex(b.rest, ")");
      if Peek(a.rest, ")") {
        LexToken(a.rest);
        LexToken(b.rest);
        RedirsAlike(GetToken(a.rest).rest, GetToken(b.rest).rest);
        var x, y := Redirs(GetToken(a.rest).rest), Redirs(GetToken(b.rest).rest);
        if x.Ok? {
          TextWrap(a.value, x.value);
          TextWrap(b.value, y.value);
        }
      }
    }
  }

  lemma {:induction false} PipeAlike(s: string, t: string)
    requires Lex(s) == Lex(t)
    ensures Alike(ParsePipe(s), ParsePipe(t))
    decreases |s|, 2
  {
    hide GetToken, Peek, Lex, ParseExec, SkipWs;
    ExecAlike(s, t);
    var a, b := ParseExec(s), ParseExec(t);
    if a.Ok? {
      PeekLex(a.rest, "|");
      PeekLex(b.rest, "|");
      LexBlanks(a.rest);
      LexBlanks(b.rest);
      if Peek(a.rest, "|") {
        LexToken(a.rest);
        LexToken(b.rest);
        Shrinks(a.rest);
        PipeAlike(GetToken(a.rest).rest, GetToken(b.rest).rest);
      }
    }
  }

  lemma {:induction false} BacksAlike(c: Cmd<Tok>, d: Cmd<Tok>, s: string, t: string)
    requires Lex(s) == Lex(t) && Text(c) == Text(d)
    ensures Text(Backs(c, s).0) == Text(Backs(d, t).0) && Lex(Backs(c, s).1) == Lex(Backs(d, t).1)
    decreases |s|
  {
    hide GetToken, Peek, Lex, SkipWs;
    PeekLex(s, "&");
    PeekLex(t, "&");
    LexBlanks(s);
    LexBlanks(t);
    if Peek(s, "&") {
      LexToken(s);
      LexToken(t);
      Shrinks(s);
      BacksAlike(Back(c), Back(d), GetToken(s).rest, GetToken(t).rest);
    }
  }

  lemma {:induction false} LineAlike(s: string, t: string)
    requires Lex(s) == Lex(t)
    ensures Alike(ParseLine(s), ParseLine(t))
    decreases |s|, 3
  {
    hide GetToken, Peek, Lex, ParsePipe, Backs, SkipWs;
    PipeAlike(s, t);
    var a, b := ParsePipe(s), ParsePipe(t);
    if a.Ok? {
      BacksAlike(a.value, b.value, a.rest, b.rest);
      var x, y := Backs(a.value, a.rest).1, Backs(b.value, b.rest).1;
      PeekLex(x, ";");
      PeekLex(y, ";");
      LexBlanks(x);
      LexBlanks(y);
      if Peek(x, ";") {
        LexToken(x);
        LexToken(y);
        Shrinks(x);
        LineAlike(GetToken(x).rest, GetToken(y).rest);
      }
    }
  }

  /** Lines with the same tokens parse alike: to the same tree, or to the same error. */
  lemma ParsedAlike(s: string, t: string)
    requires Lex(s) == Lex(t)
    ensures ParseCmd(s).Ok? <==> ParseCmd(t).Ok?
    ensures ParseCmd(s).Ok? ==> Text(ParseCmd(s).value) == Text(ParseCmd(t).value)
    ensures ParseCmd(s).Err? ==> ParseCmd(t) == ParseCmd(s)
  {
    hide GetToken, Lex, ParseLine, SkipWs;
    LineAlike(s, t);
    if ParseLine(s).Ok? {
      AtEnd(ParseLine(s).rest);
      AtEnd(ParseLine(t).rest);
    }
  }

  lemma AtEnd(r: string)
    ensures SkipWs(r) == "" <==> Lex(r) == []
  {
    hide GetToken, SkipWs;
    NulIsEnd(r);
    LexToken(r);
  }

  // ----- Blanks -----

  /** Space, tab, return, newline, vertical tab. */
  predicate Blank(c: char) {
    c in {' ', 9 as char, 13 as char, 10 as char, 11 as char}
  }

  ghost predicate Blanks(g: string) {
    forall i :: 0 <= i < |g| ==> Blank(g[i])
  }

  /** The seven characters that stand for themselves. */
  predicate Special(c: char) {
    c in {'<', '|', '>', '&', ';', '(', ')'}
  }

  ghost predicate IsWord(w: string) {
    w != "" && forall i :: 0 <= i < |w| ==> !Blank(w[i]) && !Special(w[i]) && w[i] != '\0'
  }

  /** A word; a special character; or two `>`, which gettoken calls `+`. */
  ghost predicate IsToken(x: Lexeme) {
    || (x.ret == 'a' && IsWord(x.text)) || (x.ret == '+' && x.text == ">>")
    || (Special(x.ret) && x.text == [x.ret])
  }

  /** These would run together without a blank between them. */
  predicate Sticks(x: Lexeme, y: Lexeme) {
    (x.ret == 'a' && y.ret == 'a') || (x.ret == '>' && y.text != "" && y.text[0] == '>')
  }

  /** The line with these tokens, and blanks before, between and behind them. */
  function Spell(gaps: seq<string>, xs: seq<Lexeme>): (r: string)
    requires |gaps| == |xs| + 1
  {
    gaps[0] + if xs == [] then "" else xs[0].text + Spell(gaps[1..], xs[1..])
  }

  ghost predicate Spelling(gaps: seq<string>, xs: seq<Lexeme>) {
    && |gaps| == |xs| + 1 && (forall i :: 0 <= i < |gaps| ==> Blanks(gaps[i]))
    && (forall i :: 0 <= i < |xs| ==> IsToken(xs[i]))
    && forall i :: 0 < i < |xs| && Sticks(xs[i - 1], xs[i]) ==> gaps[i] != ""
  }

  /** Whatever the blanks, these are its tokens. */
  lemma {:induction false} LexOfSpelling(gaps: seq<string>, xs: seq<Lexeme>)
    requires Spelling(gaps, xs)
    ensures Lex(Spell(gaps, xs)) == xs
    decreases |xs|
  {
    hide Lex, Blanks, IsToken, Sticks;
    if xs == [] {
      assert Spell(gaps, xs) == gaps[0] + "";
      OnlyBlanks(gaps[0]);
    } else {
      var more := Spell(gaps[1..], xs[1..]);
      TailSpelling(gaps, xs);
      LexOfSpelling(gaps[1..], xs[1..]);
      FirstToken(gaps[0], xs[0], more);
      assert Spell(gaps, xs) == gaps[0] + (xs[0].text + more);
      assert [xs[0]] + xs[1..] == xs;
    }
  }

  lemma {:induction false} SkipBlanks(g: string, more: string)
    requires Blanks(g) && (more == "" || !Blank(more[0]))
    ensures SkipWs(g + more) == more
  {
    if g == "" {
      assert g + more == more;
    } else {
      assert Blank(g[0]);
      assert (g + more)[1..] == g[1..] + more;
      SkipBlanks(g[1..], more);
    }
  }

  lemma OnlyBlanks(g: string)
    requires Blanks(g)
    ensures Lex(g + "") == []
  {
    SkipBlanks(g, "");
    NulIsEnd(g + "");
    LexToken(g + "");
  }

  /** What may follow a token directly. */
  ghost predicate MayFollow(x: Lexeme, more: string) {
    more != "" ==>
      && (x.ret == 'a' ==> Blank(more[0]) || Special(more[0]))
      && (x.ret == '>' ==> more[0] != '>')
  }

  lemma TailSpelling(gaps: seq<string>, xs: seq<Lexeme>)
    requires Spelling(gaps, xs) && xs != []
    ensures Spelling(gaps[1..], xs[1..]) && IsToken(xs[0]) && Blanks(gaps[0])
    ensures MayFollow(xs[0], Spell(gaps[1..], xs[1..]))
  {
    var g, more := gaps[1..], xs[1..];
    assert Spelling(g, more) by {
      forall i | 0 < i < |more| && Sticks(more[i - 1], more[i])
        ensures g[i] != ""
      {
        assert Sticks(xs[i], xs[i + 1]);
      }
    }
    if g[0] != "" {
      assert Blank(g[0][0]);
    } else if more != [] {
      assert !Sticks(xs[0], xs[1]);
      assert IsToken(xs[1]);
    }
  }

  lemma FirstToken(g: string, x: Lexeme, more: string)
    requires Blanks(g) && IsToken(x) && MayFollow(x, more)
    ensures Lex(g + (x.text + more)) == [x] + Lex(more)
  {
    hide Lex, SkipWs, SkipWord;
    var r := g + (x.text + more);
    SkipBlanks(g, x.text + more);
    assert SkipWs(r) == x.text + more;
    TokenHere(r, x, more);
    LexBlanks(more);
    LexToken(r);
    assert Lex(r) == [Lex(r)[0]] + Lex(r)[1..];
  }

  lemma TokenHere(r: string, x: Lexeme, more: string)
    requires SkipWs(r) == x.text + more && IsToken(x) && MayFollow(x, more)
    ensures
      var t := GetToken(r);
      t.ret == x.ret != '\0' && t.rest == SkipWs(more) && |t.end| <= |t.at| && WordOf(t).text == x.text
  {
    hide SkipWs, SkipWord;
    var a := x.text + more;
    if x.ret == 'a' {
      WordEnds(x.text, more);
      assert a[..|a| - |more|] == x.text;
      assert a[0] == x.text[0];
    } else if x.ret == '+' {
      assert a[2..] == more && a[..2] == ">>";
    } else {
      assert a[1..] == more && a[..1] == x.text;
    }
  }

  lemma {:induction false} WordEnds(w: string, more: string)
    requires (forall i :: 0 <= i < |w| ==> !Blank(w[i]) && !Special(w[i]))
    requires more != "" ==> Blank(more[0]) || Special(more[0])
    ensures SkipWord(w + more) == more
  {
    if w == "" {
      assert w + more == more;
    } else {
      assert (w + more)[1..] == w[1..] + more;
      WordEnds(w[1..], more);
    }
  }

  /** A command line parses to the same tree, or gives the same error, however its tokens
      are set apart, with or without the newline that ends it. */
  lemma BlanksDoNotCount(xs: seq<Lexeme>, gaps: seq<string>, gaps': seq<string>)
    requires Spelling(gaps, xs) && Spelling(gaps', xs)
    ensures
      var a, b := ParseCmd(Spell(gaps, xs)), ParseCmd(Spell(gaps', xs));
      if a.Ok? then b.Ok? && Text(a.value) == Text(b.value) else b == a
  {
    hide Lex, ParseCmd;
    LexOfSpelling(gaps, xs);
    LexOfSpelling(gaps', xs);
    ParsedAlike(Spell(gaps, xs), Spell(gaps', xs));
  }

  // ----- What the operators mean -----

  ghost predicate Parses(s: string, c: Cmd<string>) {
    ParseCmd(s).Ok? && Text(ParseCmd(s).value) == c
  }

  /** A pipe takes in less than `&`, and `&` less than `;`; a redirection takes the command
      before it; parentheses hold a whole line together. */
  lemma Operators(a: string, b: string, f: string)
    requires IsWord(a) && IsWord(b) && IsWord(f)
    ensures Parses(a + "<" + f, Redir(Exec([a]), f, In))
    ensures Parses(a + ">" + f, Redir(Exec([a]), f, Out))
    ensures Parses(a + ">>" + f, Redir(Exec([a]), f, Append))
    ensures Parses(a + "|" + (b + "&") + (";" + f), List(Back(Pipe(Exec([a]), Exec([b]))), Exec([f])))
    ensures Parses(a + "|" + ("(" + (b + ";" + f) + ")"), Pipe(Exec([a]), List(Exec([b]), Exec([f]))))
  {
    hide ParseCmd, Text;
    var x, y, z := Exec([a]), Exec([b]), Exec([f]);
    forall d: Dir
      ensures Parses(a + ShowDir(d) + f, Redir(x, f, d))
    {
      RoundTrip(Redir(x, f, d));
    }
    assert ShowDir(In) == "<" && ShowDir(Out) == ">" && ShowDir(Append) == ">>";
    assert Legal(Pipe(x, y));
    RoundTrip(List(Back(Pipe(x, y)), z));
    ShownLine(a, b, f);
    RoundTrip(Pipe(x, List(y, z)));
    ShownBlock(a, b, f);
  }

  lemma ShownLine(a: string, b: string, f: string)
    ensures Show(List(Back(Pipe(Exec([a]), Exec([b]))), Exec([f])), 0) == a + "|" + (b + "&") + (";" + f)
  {
    var p := Pipe(Exec([a]), Exec([b]));
    assert Show(p, 1) == a + "|" + b;
    assert Show(Back(p), 1) == a + "|" + b + "&";
  }

  lemma ShownBlock(a: string, b: string, f: string)
    ensures Show(Pipe(Exec([a]), List(Exec([b]), Exec([f]))), 0) == a + "|" + ("(" + (b + ";" + f) + ")")
  {
    var l := List(Exec([b]), Exec([f]));
    assert Show(l, 0) == b + ";" + f;
    assert Show(l, 2) == "(" + Show(l, 0) + ")";
  }
}
