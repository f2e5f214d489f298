/** user/sh.c: where the parser's words lie in the input, and nulterminate. */
module ShellTokens {
  import opened ShellParser

  ghost predicate Suffix(a: string, r: string) {
    |a| <= |r| && a == r[|r| - |a|..]
  }

  lemma SuffixTrans(a: string, b: string, c: string)
    requires Suffix(a, b) && Suffix(b, c)
    ensures Suffix(a, c)
  {}

  lemma {:induction false} SkipWsSuffix(r: string)
    ensures Suffix(SkipWs(r), r)
  {
    if r != "" && Ws(r[0]) {
      SkipWsSuffix(r[1..]);
    }
  }

  lemma {:induction false} SkipWordSuffix(r: string)
    ensures Suffix(SkipWord(r), r)
    ensures forall i :: 0 <= i < |r| - |SkipWord(r)| ==> !Ws(r[i]) && !Symbol(r[i])
  {
    if r != "" && !Ws(r[0]) && !Symbol(r[0]) {
      SkipWordSuffix(r[1..]);
      forall i | 0 <= i < |r| - |SkipWord(r)|
        ensures !Ws(r[i]) && !Symbol(r[i])
      {
        assert i > 0 ==> r[1..][i - 1] == r[i];
      }
    }
  }

  lemma DropSuffix(r: string, n: nat)
    requires n <= |r|
    ensures Suffix(r[n..], r)
  {}

  lemma TokenSuffix(r: string)
    ensures
      var t := GetToken(r);
      Suffix(t.at, r) && Suffix(t.end, t.at) && Suffix(t.rest, t.end) && Suffix(t.rest, r)
  {
    hide Suffix, GetToken;
    var t := GetToken(r);
    EndSuffix(r);
    SkipWsSuffix(t.end);
    SuffixTrans(t.end, t.at, r);
    SuffixTrans(t.rest, t.end, r);
  }

  lemma EndSuffix(r: string)
    ensures
      var t := GetToken(r);
      Suffix(t.at, r) && Suffix(t.end, t.at) && (t.rest == SkipWs(t.end) || t.rest == t.end)
    ensures Suffix(GetToken(r).rest, GetToken(r).end)
  {
    hide Suffix, SkipWs, SkipWord, Symbol;
    var a := SkipWs(r);
    SkipWsSuffix(r);
    if a == "" {
      DropSuffix(a, 0);
    } else if a[0] == '>' {
      if |a| > 1 && a[1] == '>' {
        DropSuffix(a, 2);
        SkipWsSuffix(a[2..]);
      } else {
        DropSuffix(a, 1);
        SkipWsSuffix(a[1..]);
      }
    } else if Symbol(a[0]) {
      DropSuffix(a, 1);
      SkipWsSuffix(a[1..]);
    } else {
      WordSuffix(a);
    }
  }

  lemma WordSuffix(a: string)
    ensures Suffix(SkipWord(a), a) && Suffix(SkipWs(SkipWord(a)), SkipWord(a))
  {
    SkipWordSuffix(a);
    SkipWsSuffix(SkipWord(a));
  }

  predicate NoNul(r: string) {
    forall i :: 0 <= i < |r| ==> r[i] != '\0'
  }

  /** The word is a piece of the text, and could be printed. */
  predicate InText(t: Tok, r: string) {
    t.right < t.left <= |r| && t.text == r[|r| - t.left..|r| - t.right] && LegalWord(t.text)
  }

  lemma InTextSuffix(t: Tok, a: string, r: string)
    requires Suffix(a, r) && InText(t, a)
    ensures InText(t, r)
  {}

  lemma WordInText(r: string)
    requires NoNul(r) && GetToken(r).ret == 'a'
    ensures InText(WordOf(GetToken(r)), r)
  {
    hide SkipWs, SkipWord;
    TokenSuffix(r);
    var a := SkipWs(r);
    assert GetToken(r).at == a && GetToken(r).end == SkipWord(a);
    SkipWordSuffix(a);
    WordLegal(a, r, |SkipWord(a)|);
  }

  lemma WordLegal(a: string, r: string, right: nat)
    requires NoNul(r) && Suffix(a, r) && right < |a| && forall i :: 0 <= i < |a| - right ==> !Ws(a[i]) && !Symbol(a[i])
    ensures InText(Tok(|a|, right, a[..|a| - right]), r)
  {}

  // ----- Words do not touch -----

  /** At least one character that belongs to neither lies between them. */
  predicate Apart(a: Tok, b: Tok) {
    a.left < b.right || b.left < a.right
  }

  ghost predicate AllApart(ts: seq<Tok>) {
    forall i, j :: 0 <= i < j < |ts| ==> Apart(ts[i], ts[j])
  }

  lemma ApartCat(a: seq<Tok>, b: seq<Tok>)
    requires AllApart(a) && AllApart(b) && forall i, j :: 0 <= i < |a| && 0 <= j < |b| ==> Apart(a[i], b[j])
    ensures AllApart(a + b)
  {}

  function Files(rs: seq<Redirection<Tok>>): (r: seq<Tok>)
    ensures |r| == |rs|
  {
    seq(|rs|, i requires 0 <= i < |rs| => rs[i].file)
  }

  /** All words of a command. */
  function Toks(c: Cmd<Tok>): (r: seq<Tok>) {
    match c
    case Exec(argv) => argv
    case Redir(d, file, _) => Toks(d) + [file]
    case Pipe(l, r) => Toks(l) + Toks(r)
    case List(l, r) => Toks(l) + Toks(r)
    case Back(d) => Toks(d)
  }

  lemma {:induction false} ToksWrap(c: Cmd<Tok>, rs: seq<Redirection<Tok>>)
    ensures Toks(Wrap(c, rs)) == Toks(c) + Files(rs)
  {
    if rs != [] {
      ToksWrap(c, rs[..|rs| - 1]);
      assert Files(rs) == Files(rs[..|rs| - 1]) + [rs[|rs| - 1].file];
    }
  }

  /** A word that the text still to come begins with starts below `lim`. */
  predicate Fits(r: string, lim: nat) {
    |r| <= lim && (r != "" && !Ws(r[0]) && !Symbol(r[0]) ==> |r| < lim)
  }

  /** The words lie in `r`, before its last `lo` characters, and apart. */
  ghost predicate Placed(ts: seq<Tok>, r: string, lo: nat) {
    AllApart(ts) && forall i :: 0 <= i < |ts| ==> InText(ts[i], r) && lo <= ts[i].right
  }

  lemma PlacedSuffix(ts: seq<Tok>, a: string, r: string, lo: nat, lo': nat)
    requires Suffix(a, r) && Placed(ts, a, lo) && lo' <= lo
    ensures Placed(ts, r, lo')
  {
    hide LegalWord;
  }

  /** Words before and words after a point of the text. */
  lemma PlacedCat(a: seq<Tok>, b: seq<Tok>, r: string, mid: nat, lo: nat)
    requires Placed(a, r, mid) && Placed(b, r, lo) && lo <= mid && forall j :: 0 <= j < |b| ==> b[j].left < mid
    ensures Placed(a + b, r, lo)
  {
    hide LegalWord;
    ApartCat(a, b);
  }

  lemma {:induction false} RedirsPlaced(r: string, lim: nat) returns (lim': nat)
    requires NoNul(r) && Fits(SkipWs(r), lim) && |r| <= lim && Redirs(r).Ok?
    ensures
      var res := Redirs(r);
      && Suffix(res.rest, r) && Fits(res.rest, lim') && Tight(res.rest) && lim' <= lim
      && Placed(Files(res.value), r, lim')
      && forall i :: 0 <= i < |res.value| ==> res.value[i].file.left < lim
    decreases |r|
  {
    hide InText, Suffix, GetToken, SkipWs, NoNul;
    SkipWsSuffix(r);
    if !Peek(r, "<>") {
      lim' := lim;
    } else {
      var op := GetToken(r);
      TokenSuffix(r);
      OpShorter(r);
      NoNulSuffix(op.rest, r);
      var mid := FilePlaced(op.rest, r, lim);
      var f := GetToken(op.rest);
      TokenSuffix(op.rest);
      SuffixTrans(f.rest, op.rest, r);
      NoNulSuffix(f.rest, r);
      lim' := RedirsPlaced(f.rest, mid);
      var w, more := WordOf(f), Files(Redirs(f.rest).value);
      FirstPlaced(w, more, f.rest, r, lim');
      assert Files(Redirs(r).value) == [w] + more;
      SuffixTrans(Redirs(f.rest).rest, f.rest, r);
    }
  }

  lemma FirstPlaced(w: Tok, more: seq<Tok>, a: string, r: string, lo: nat)
    requires InText(w, r) && Suffix(a, r) && Placed(more, a, lo) && lo <= w.right
    requires forall j :: 0 <= j < |more| ==> more[j].left < w.right
    ensures Placed([w] + more, r, lo)
  {
    hide InText, Suffix;
    PlacedSuffix(more, a, r, lo, lo);
    PlacedCat([w], more, r, w.right, lo);
  }

  lemma OpShorter(r: string)
    requires Peek(r, "<>")
    ensures |GetToken(r).rest| < |SkipWs(r)|
  {}

  lemma NoNulSuffix(a: string, r: string)
    requires NoNul(r) && Suffix(a, r)
    ensures NoNul(a)
  {}

  /** A file name after a redirection symbol. */
  lemma FilePlaced(a: string, r: string, lim: nat) returns (lim': nat)
    requires NoNul(a) && Suffix(a, r) && |a| < lim && GetToken(a).ret == 'a'
    ensures
      var f := GetToken(a);
      && lim' == WordOf(f).right && InText(WordOf(f), r) && WordOf(f).left < lim
      && Fits(SkipWs(f.rest), lim') && |f.rest| <= lim'
  {
    WordInText(a);
    InTextSuffix(WordOf(GetToken(a)), a, r);
    lim' := WordOf(GetToken(a)).right;
    WordEnds(a);
  }

  /** Between one word and the next there is a blank or a symbol. */
  lemma WordEnds(a: string)
    requires GetToken(a).ret == 'a'
    ensures
      var t := GetToken(a);
      SkipWs(t.rest) == t.rest && Fits(t.rest, |t.end|)
  {
    var t := GetToken(a);
    SkipWsSuffix(t.end);
  }

  /** No command has more arguments than fit. */
  predicate FewArgs(c: Cmd<Tok>) {
    match c
    case Exec(argv) => |argv| < MAXARGS
    case Redir(d, _, _) => FewArgs(d)
    case Pipe(l, r) => FewArgs(l) && FewArgs(r)
    case List(l, r) => FewArgs(l) && FewArgs(r)
    case Back(d) => FewArgs(d)
  }

  lemma {:induction false} FewWrap(c: Cmd<Tok>, rs: seq<Redirection<Tok>>)
    requires FewArgs(c)
    ensures FewArgs(Wrap(c, rs))
  {
    if rs != [] {
      FewWrap(c, rs[..|rs| - 1]);
    }
  }

  /** What parsing a piece of text gives. */
  ghost predicate Parsed(res: Result<Cmd<Tok>>, r: string) {
    res.Ok? ==> Suffix(res.rest, r) && Placed(Toks(res.value), r, |res.rest|) && FewArgs(res.value)
  }

  /** The loop of parseexec, `all` being the words so far in the whole text `s`. */
  lemma {:induction false} ArgsPlaced(argv: seq<Tok>, rs: seq<Redirection<Tok>>, r: string, s: string, lim: nat)
    requires NoNul(s) && Suffix(r, s) && Fits(r, lim) && Tight(r) && |argv| < MAXARGS
    requires Placed(argv + Files(rs), s, lim)
    ensures Parsed(Args(argv, rs, r), s)
    decreases |r|
  {
    hide InText, Suffix, GetToken, NoNul, AllApart, Wrap;
    NoNulSuffix(r, s);
    assert SkipWs(r) == r;
    var t := GetToken(r);
    TokenSuffix(r);
    SuffixTrans(t.rest, r, s);
    if Peek(r, "|)&;") || t.ret == '\0' {
      ArgsStop(argv, rs, r, s, lim);
    } else if t.ret == 'a' && |argv| + 1 < MAXARGS && Redirs(t.rest).Ok? {
      WordAt(r, s, lim);
      NoNulSuffix(t.rest, s);
      var lim' := RedirsPlaced(t.rest, |t.end|);
      var res := Redirs(t.rest);
      ArgPlaced(argv, rs, WordOf(t), res.value, t.rest, s, lim, lim');
      SuffixTrans(res.rest, t.rest, s);
      ArgsPlaced(argv + [WordOf(t)], rs + res.value, res.rest, s, lim');
    }
  }

  /** The next argument lies below everything before it. */
  lemma WordAt(r: string, s: string, lim: nat)
    requires NoNul(s) && Suffix(r, s) && Fits(r, lim) && Tight(r) && GetToken(r).ret == 'a'
    ensures
      var t := GetToken(r);
      && InText(WordOf(t), s) && WordOf(t).left < lim && WordOf(t).right == |t.end|
      && SkipWs(t.rest) == t.rest && Fits(t.rest, |t.end|) && |t.rest| <= |t.end|
  {
    NoNulSuffix(r, s);
    WordInText(r);
    InTextSuffix(WordOf(GetToken(r)), r, s);
    WordEnds(r);
  }

  lemma ArgsStop(argv: seq<Tok>, rs: seq<Redirection<Tok>>, r: string, s: string, lim: nat)
    requires Suffix(r, s) && Fits(r, lim) && Tight(r) && |argv| < MAXARGS && Placed(argv + Files(rs), s, lim)
    requires Peek(r, "|)&;") || GetToken(r).ret == '\0'
    ensures Parsed(Args(argv, rs, r), s)
  {
    hide InText, AllApart, Wrap;
    ToksWrap(Exec(argv), rs);
    FewWrap(Exec(argv), rs);
    TokenSuffix(r);
    SuffixTrans(GetToken(r).rest, r, s);
    assert SkipWs(r) == r;
  }

  /** One more argument and the redirections behind it. */
  lemma ArgPlaced(argv: seq<Tok>, rs: seq<Redirection<Tok>>, w: Tok, rs': seq<Redirection<Tok>>, a: string, s: string,
      lim: nat, lim': nat)
    requires Placed(argv + Files(rs), s, lim) && InText(w, s) && w.left < lim && lim' <= w.right && w.right < w.left
    requires Suffix(a, s) && Placed(Files(rs'), a, lim') && forall i :: 0 <= i < |rs'| ==> rs'[i].file.left < w.right
    ensures Placed(argv + [w] + Files(rs + rs'), s, lim')
  {
    hide InText, Suffix;
    PlacedSuffix(Files(rs'), a, s, lim', lim');
    var old1, late := argv + Files(rs), Files(rs');
    assert Files(rs + rs') == Files(rs) + late;
    PlacedCat([w], late, s, w.right, lim');
    PlacedCat(old1, [w] + late, s, lim, lim');
    Reorder(argv, Files(rs), w, late, s, lim');
  }

  /** The order in which words are listed does not matter. */
  lemma Reorder(a: seq<Tok>, b: seq<Tok>, w: Tok, c: seq<Tok>, s: string, lo: nat)
    requires Placed(a + b + ([w] + c), s, lo)
    ensures Placed(a + [w] + (b + c), s, lo)
  {
    hide InText, Apart;
    var x, y := a + b + ([w] + c), a + [w] + (b + c);
    forall i, j | 0 <= i < j < |y|
      ensures Apart(y[i], y[j])
    {
      var i', j' := Place(|a|, |b|, i), Place(|a|, |b|, j);
      assert y[i] == x[i'] && y[j] == x[j'];
      assert Apart(x[i'], x[j']) || Apart(x[j'], x[i']);
      ApartSym(y[i], y[j]);
    }
    forall i | 0 <= i < |y|
      ensures InText(y[i], s) && lo <= y[i].right
    {
      assert y[i] == x[Place(|a|, |b|, i)];
    }
  }

  function Place(a: nat, b: nat, i: nat): (k: nat) {
    if i < a then i else if i == a then a + b else if i <= a + b then i - 1 else i
  }

  lemma ApartSym(a: Tok, b: Tok)
    ensures Apart(a, b) <==> Apart(b, a)
  {}

  // ----- The parsing functions -----

  /** Words of a later piece of the text come after those of an earlier one. */
  lemma LaterPlaced(a: seq<Tok>, b: seq<Tok>, r: string, later: string, mid: nat, lo: nat)
    requires Placed(a, r, mid) && Suffix(later, r) && |later| < mid && Placed(b, later, lo) && lo <= mid
    ensures Placed(a + b, r, lo)
  {
    hide Suffix, LegalWord, AllApart;
    PlacedSuffix(b, later, r, lo, lo);
    PlacedCat(a, b, r, mid, lo);
  }

  lemma SymbolShorter(r: string, toks: string)
    requires Peek(r, toks)
    ensures |GetToken(r).rest| < |r| && Suffix(GetToken(r).rest, r)
  {
    TokenSuffix(r);
  }

  lemma {:induction false} ExecPlaced(r: string)
    requires NoNul(r)
    ensures Parsed(ParseExec(r), r)
    decreases |r|, 1
  {
    hide InText, Suffix, NoNul, AllApart, Args, Redirs, ParseBlock, Parsed;
    if Peek(r, "(") {
      BlockPlaced(r);
    } else if Redirs(r).Ok? {
      var lim := RedirsPlaced(r, |r| + 1);
      var res := Redirs(r);
      assert [] + Files(res.value) == Files(res.value);
      ArgsPlaced([], res.value, res.rest, r, lim);
    } else {
      assert ParseExec(r).Err?;
      assert Parsed(ParseExec(r), r) by { ErrParsed(ParseExec(r), r); }
    }
  }

  lemma ErrParsed(res: Result<Cmd<Tok>>, r: string)
    requires res.Err?
    ensures Parsed(res, r)
  {}

  lemma {:induction false} BlockPlaced(r: string)
    requires NoNul(r) && Peek(r, "(")
    ensures Parsed(ParseBlock(r), r)
    decreases |r|, 0
  {
    hide InText, Suffix, NoNul, AllApart, Redirs, ParseLine, GetToken, Wrap;
    SymbolShorter(r, "(");
    var r1 := GetToken(r).rest;
    NoNulSuffix(r1, r);
    LinePlaced(r1);
    var line := ParseLine(r1);
    if line.Ok? && Peek(line.rest, ")") {
      SymbolShorter(line.rest, ")");
      var r2 := GetToken(line.rest).rest;
      SuffixTrans(line.rest, r1, r);
      SuffixTrans(r2, line.rest, r);
      NoNulSuffix(r2, r);
      if Redirs(r2).Ok? {
        var lim := RedirsPlaced(r2, |line.rest|);
        var res := Redirs(r2);
        PlacedSuffix(Toks(line.value), r1, r, |line.rest|, |line.rest|);
        PlacedSuffix(Files(res.value), r2, r, lim, |res.rest|);
        PlacedCat(Toks(line.value), Files(res.value), r, |line.rest|, |res.rest|);
        ToksWrap(line.value, res.value);
        FewWrap(line.value, res.value);
        SuffixTrans(res.rest, r2, r);
      }
    }
  }

  lemma {:induction false} PipePlaced(r: string)
    requires NoNul(r)
    ensures Parsed(ParsePipe(r), r)
    decreases |r|, 2
  {
    hide InText, Suffix, NoNul, AllApart, ParseExec, GetToken;
    ExecPlaced(r);
    var ex := ParseExec(r);
    if ex.Ok? {
      if Peek(ex.rest, "|") {
        SymbolShorter(ex.rest, "|");
        var r2 := GetToken(ex.rest).rest;
        SuffixTrans(r2, ex.rest, r);
        NoNulSuffix(r2, r);
        PipePlaced(r2);
        var right := ParsePipe(r2);
        if right.Ok? {
          LaterPlaced(Toks(ex.value), Toks(right.value), r, r2, |ex.rest|, |right.rest|);
          SuffixTrans(right.rest, r2, r);
        }
      } else {
        SkipWsSuffix(ex.rest);
        SuffixTrans(SkipWs(ex.rest), ex.rest, r);
      }
    }
  }

  lemma {:induction false} BacksKeep(c: Cmd<Tok>, r: string)
    ensures
      var (b, rest) := Backs(c, r);
      Toks(b) == Toks(c) && (FewArgs(c) ==> FewArgs(b)) && Suffix(rest, r)
    decreases |r|
  {
    hide Suffix, GetToken;
    if Peek(r, "&") {
      SymbolShorter(r, "&");
      var r' := GetToken(r).rest;
      BacksKeep(Back(c), r');
      SuffixTrans(Backs(Back(c), r').1, r', r);
    } else {
      SkipWsSuffix(r);
    }
  }

  lemma {:induction false} LinePlaced(r: string)
    requires NoNul(r)
    ensures Parsed(ParseLine(r), r)
    decreases |r|, 3
  {
    hide InText, Suffix, NoNul, AllApart, ParsePipe, GetToken, Backs;
    PipePlaced(r);
    var pipe := ParsePipe(r);
    if pipe.Ok? {
      var (b, rest) := Backs(pipe.value, pipe.rest);
      BacksKeep(pipe.value, pipe.rest);
      SuffixTrans(rest, pipe.rest, r);
      if Peek(rest, ";") {
        SymbolShorter(rest, ";");
        var r2 := GetToken(rest).rest;
        SuffixTrans(r2, rest, r);
        NoNulSuffix(r2, r);
        LinePlaced(r2);
        var more := ParseLine(r2);
        if more.Ok? {
          PlacedLower(Toks(b), r, |pipe.rest|, |rest|);
          LaterPlaced(Toks(b), Toks(more.value), r, r2, |rest|, |more.rest|);
          SuffixTrans(more.rest, r2, r);
        }
      } else {
        SkipWsSuffix(rest);
        SuffixTrans(SkipWs(rest), rest, r);
        PlacedLower(Toks(b), r, |pipe.rest|, |SkipWs(rest)|);
      }
    }
  }

  lemma PlacedLower(ts: seq<Tok>, r: string, lo: nat, lo': nat)
    requires Placed(ts, r, lo) && lo' <= lo
    ensures Placed(ts, r, lo')
  {}

  /** The words of any command line that parses are pieces of it that do not touch,
      and the tree could have been printed. */
  lemma ParsedWords(s: string)
    requires NoNul(s) && ParseCmd(s).Ok?
    ensures Placed(Toks(ParseCmd(s).value), s, 0) && Legal(Text(ParseCmd(s).value))
  {
    hide InText, Suffix, AllApart;
    LinePlaced(s);
    var c := ParseLine(s).value;
    PlacedLower(Toks(c), s, |ParseLine(s).rest|, 0);
    LegalText(c, s);
  }

  lemma {:induction false} LegalText(c: Cmd<Tok>, s: string)
    requires FewArgs(c) && forall i :: 0 <= i < |Toks(c)| ==> InText(Toks(c)[i], s)
    ensures Legal(Text(c))
  {
    match c
    case Exec(argv) =>
    case Redir(d, file, _) =>
      assert Toks(c)[|Toks(d)|] == file;
      forall i | 0 <= i < |Toks(d)| ensures InText(Toks(d)[i], s) { assert Toks(c)[i] == Toks(d)[i]; }
      LegalText(d, s);
    case Pipe(l, r) =>
      Halves(Toks(l), Toks(r), s);
      LegalText(l, s);
      LegalText(r, s);
    case List(l, r) =>
      Halves(Toks(l), Toks(r), s);
      LegalText(l, s);
      LegalText(r, s);
    case Back(d) => LegalText(d, s);
  }

  lemma Halves(a: seq<Tok>, b: seq<Tok>, s: string)
    requires forall i :: 0 <= i < |a + b| ==> InText((a + b)[i], s)
    ensures (forall i :: 0 <= i < |a| ==> InText(a[i], s)) && forall i :: 0 <= i < |b| ==> InText(b[i], s)
  {
    hide InText;
    forall i | 0 <= i < |a| ensures InText(a[i], s) { assert (a + b)[i] == a[i]; }
    forall i | 0 <= i < |b| ensures InText(b[i], s) { assert (a + b)[|a| + i] == b[i]; }
  }

  /** Printing and parsing again what was parsed gives the same tree. */
  lemma ParseShowParse(s: string)
    requires NoNul(s) && ParseCmd(s).Ok?
    ensures
      var t := Text(ParseCmd(s).value);
      ParseCmd(Show(t, 0)).Ok? && Text(ParseCmd(Show(t, 0)).value) == t
  {
    hide ParseCmd, Show, Text;
    ParsedWords(s);
    RoundTrip(Text(ParseCmd(s).value));
  }

  // ----- The loops of gettoken and peek -----

  /** Skipping blanks from a position on. */
  method Blanks(s: string, p: nat) returns (i: nat)
    requires p <= |s|
    ensures p <= i <= |s| && SkipWs(s[p..]) == s[i..]
  {
    i := p;
    while i < |s| && Ws(s[i])
      invariant p <= i <= |s| && SkipWs(s[i..]) == SkipWs(s[p..])
    {
      assert s[i..][1..] == s[i + 1..];
      i := i + 1;
    }
  }

  method Gettoken(s: string, ps: nat) returns (ret: char, q: nat, eq: nat, ps': nat)
    requires ps <= |s|
    ensures
      var t := GetToken(s[ps..]);
      ret == t.ret && q == |s| - |t.at| && eq == |s| - |t.end| && ps' == |s| - |t.rest|
  {
    hide SkipWs, SkipWord;
    q := Blanks(s, ps);
    eq := q;
    if q == |s| {
      ret := '\0';
    } else if s[q] == '>' {
      ret, eq := '>', q + 1;
      if eq < |s| && s[eq] == '>' {
        ret, eq := '+', eq + 1;
      }
      assert s[q..][1..] == s[q + 1..] && (|s[q..]| > 1 ==> s[q..][2..] == s[q + 2..]);
    } else if Symbol(s[q]) {
      ret, eq := s[q], q + 1;
      assert s[q..][1..] == s[q + 1..];
    } else {
      ret := 'a';
      eq := WordEnd(s, q);
    }
    ps' := Blanks(s, eq);
  }

  method WordEnd(s: string, p: nat) returns (i: nat)
    requires p <= |s|
    ensures p <= i <= |s| && SkipWord(s[p..]) == s[i..]
  {
    i := p;
    while i < |s| && !Ws(s[i]) && !Symbol(s[i])
      invariant p <= i <= |s| && SkipWord(s[i..]) == SkipWord(s[p..])
    {
      assert s[i..][1..] == s[i + 1..];
      i := i + 1;
    }
  }

  method PeekAt(s: string, ps: nat, toks: string) returns (found: bool, ps': nat)
    requires ps <= |s|
    ensures found == Peek(s[ps..], toks) && ps' <= |s| && s[ps'..] == SkipWs(s[ps..])
  {
    ps' := Blanks(s, ps);
    found := ps' < |s| && s[ps'] in toks;
  }

  // ----- nulterminate -----

  predicate InBuf(ts: seq<Tok>, n: nat) {
    forall i :: 0 <= i < |ts| ==> ts[i].right <= n
  }

  /** The buffer with a NUL behind each of the words; `n` is the length of the text. */
  function Terminated(b: string, ts: seq<Tok>, n: nat): (r: string)
    requires |b| == n + 1 && InBuf(ts, n)
    ensures |r| == |b|
  {
    if ts == [] then b else Terminated(b, ts[..|ts| - 1], n)[n - ts[|ts| - 1].right := '\0']
  }

  lemma {:induction false} TerminatedCat(b: string, x: seq<Tok>, y: seq<Tok>, n: nat)
    requires |b| == n + 1 && InBuf(x, n) && InBuf(y, n)
    ensures Terminated(b, x + y, n) == Terminated(Terminated(b, x, n), y, n)
  {
    if y == [] {
      assert x + y == x;
    } else {
      var y' := y[..|y| - 1];
      assert (x + y)[..|x + y| - 1] == x + y';
      TerminatedCat(b, x, y', n);
    }
  }

  lemma {:induction false} TerminatedAt(b: string, ts: seq<Tok>, n: nat, i: nat)
    requires |b| == n + 1 && InBuf(ts, n) && i <= n
    ensures (exists k :: 0 <= k < |ts| && n - ts[k].right == i) ==> Terminated(b, ts, n)[i] == '\0'
    ensures (forall k :: 0 <= k < |ts| ==> n - ts[k].right != i) ==> Terminated(b, ts, n)[i] == b[i]
  {
    if ts != [] {
      var ts' := ts[..|ts| - 1];
      TerminatedAt(b, ts', n, i);
      if k :| 0 <= k < |ts| && n - ts[k].right == i {
        if k < |ts'| {
          assert n - ts'[k].right == i;
        }
      }
    }
  }

  /** nulterminate */
  method Nulterminate(buf: array<char>, c: Cmd<Tok>, n: nat)
    requires buf.Length == n + 1 && InBuf(Toks(c), n)
    modifies buf
    ensures buf[..] == Terminated(old(buf[..]), Toks(c), n)
    decreases c
  {
    ghost var b := buf[..];
    match c
    case Exec(argv) =>
      assert Toks(c) == argv;
      for i := 0 to |argv|
        invariant InBuf(argv, n)
        invariant buf[..] == Terminated(b, argv[..i], n)
      {
        assert argv[..i + 1][..i] == argv[..i];
        buf[n - argv[i].right] := '\0';
      }
      assert argv[..|argv|] == argv;
    case Redir(d, file, _) =>
      assert Toks(c) == Toks(d) + [file];
      BothParts(b, Toks(d), [file], n);
      Nulterminate(buf, d, n);
      OneMore(buf[..], file, n);
      buf[n - file.right] := '\0';
    case Pipe(l, r) =>
      assert Toks(c) == Toks(l) + Toks(r);
      BothParts(b, Toks(l), Toks(r), n);
      Nulterminate(buf, l, n);
      Nulterminate(buf, r, n);
    case List(l, r) =>
      assert Toks(c) == Toks(l) + Toks(r);
      BothParts(b, Toks(l), Toks(r), n);
      Nulterminate(buf, l, n);
      Nulterminate(buf, r, n);
    case Back(d) =>
      assert Toks(c) == Toks(d);
      Nulterminate(buf, d, n);
  }

  lemma OneMore(b: string, t: Tok, n: nat)
    requires |b| == n + 1 && t.right <= n
    ensures InBuf([t], n) && Terminated(b, [t], n) == b[n - t.right := '\0']
  {
    assert [t][..0] == [];
    assert Terminated(b, [], n) == b;
  }

  lemma BothParts(b: string, x: seq<Tok>, y: seq<Tok>, n: nat)
    requires |b| == n + 1 && InBuf(x + y, n)
    ensures InBuf(x, n) && InBuf(y, n)
    ensures Terminated(b, x + y, n) == Terminated(Terminated(b, x, n), y, n)
  {
    assert forall i :: 0 <= i < |x| ==> (x + y)[i] == x[i];
    assert forall i :: 0 <= i < |y| ==> (x + y)[|x| + i] == y[i];
    TerminatedCat(b, x, y, n);
  }

  /** The C string at a position. */
  function CString(b: string, p: nat): (r: string)
    decreases |b| - p
  {
    if p >= |b| || b[p] == '\0' then "" else [b[p]] + CString(b, p + 1)
  }

  lemma {:induction false} CStringIs(b: string, p: nat, w: string)
    requires p + |w| < |b| && b[p..p + |w|] == w && b[p + |w|] == '\0' && forall i :: 0 <= i < |w| ==> w[i] != '\0'
    ensures CString(b, p) == w
    decreases |w|
  {
    if w != "" {
      assert b[p] == w[0];
      assert b[p + 1..p + 1 + |w[1..]|] == w[1..];
      CStringIs(b, p + 1, w[1..]);
    }
  }

  /** Words that do not touch survive each other's terminators. */
  lemma WordKept(s: string, ts: seq<Tok>, k: nat)
    requires Placed(ts, s, 0) && k < |ts|
    ensures InBuf(ts, |s|) && InText(ts[k], s)
    ensures
      var b := Terminated(s + "\0", ts, |s|);
      b[|s| - ts[k].left..|s| - ts[k].right] == ts[k].text && b[|s| - ts[k].right] == '\0'
  {
    hide Terminated, LegalWord;
    var n, t := |s|, ts[k];
    var b := Terminated(s + "\0", ts, n);
    forall i | n - t.left <= i < n - t.right
      ensures b[i] == s[i]
    {
      NotEnded(ts, k, n, i);
      TerminatedAt(s + "\0", ts, n, i);
    }
    TerminatedAt(s + "\0", ts, n, n - t.right);
  }

  lemma NotEnded(ts: seq<Tok>, k: nat, n: nat, i: nat)
    requires AllApart(ts) && (forall m :: 0 <= m < |ts| ==> ts[m].right < ts[m].left) && k < |ts| && ts[k].left <= n
    requires n - ts[k].left <= i < n - ts[k].right
    ensures forall m :: 0 <= m < |ts| ==> n - ts[m].right != i
  {
    forall m | 0 <= m < |ts|
      ensures n - ts[m].right != i
    {
      if m < k {
        assert Apart(ts[m], ts[k]);
      } else if m > k {
        assert Apart(ts[k], ts[m]);
      }
    }
  }

  /** After nulterminate every argument and file name of a command line is, as a C
      string, exactly its word: no terminator lands inside a word. */
  lemma WordsAreStrings(s: string, k: nat)
    requires NoNul(s) && ParseCmd(s).Ok? && k < |Toks(ParseCmd(s).value)|
    ensures
      var ts := Toks(ParseCmd(s).value);
      InBuf(ts, |s|) && ts[k].left <= |s| && CString(Terminated(s + "\0", ts, |s|), |s| - ts[k].left) == ts[k].text
  {
    hide Toks, ParseCmd, Text, Legal, Placed, Terminated, InBuf;
    ParsedWords(s);
    var ts := Toks(ParseCmd(s).value);
    WordKept(s, ts, k);
    CStringIs(Terminated(s + "\0", ts, |s|), |s| - ts[k].left, ts[k].text);
  }
}
