/** user/sh.c: the shell's parser. The functions work on what is left of the input;
    the loops of gettoken and peek are methods on the buffer and a position. */
module ShellParser {

  const MAXARGS := 10

  /** A word in the input: how much of it is left at its two ends, and its text. */
  datatype Tok = Tok(left: nat, right: nat, text: string)

  datatype Dir = In | Out | Append

  datatype Cmd<W> =
    | Exec(argv: seq<W>)
    | Redir(cmd: Cmd<W>, file: W, dir: Dir)
    | Pipe(left: Cmd<W>, right: Cmd<W>)
    | List(first: Cmd<W>, second: Cmd<W>)
    | Back(bg: Cmd<W>)

  /** A parse result, or the panic message. */
  datatype Result<T> = Ok(value: T, rest: string) | Err(message: string)

  // ----- Tokens -----

  predicate Ws(c: char) {
    c == ' ' || c == '\t' || c == '\r' || c == '\n' || c == 11 as char
  }

  predicate Symbol(c: char) {
    c == '<' || c == '|' || c == '>' || c == '&' || c == ';' || c == '(' || c == ')'
  }

  function SkipWs(r: string): (a: string)
    ensures |a| <= |r| && (a != "" ==> !Ws(a[0]))
  {
    if r != "" && Ws(r[0]) then SkipWs(r[1..]) else r
  }

  function SkipWord(r: string): (a: string)
    ensures |a| <= |r| && (a != "" ==> Ws(a[0]) || Symbol(a[0]))
  {
    if r != "" && !Ws(r[0]) && !Symbol(r[0]) then SkipWord(r[1..]) else r
  }

  /** What gettoken finds: its return value, the input from the token on, from its
      end on, and from the next token on. */
  datatype Token = Token(ret: char, at: string, end: string, rest: string)

  function GetToken(r: string): (t: Token)
    ensures t.ret != '\0' ==> |t.rest| <= |t.end| < |t.at| <= |r|
    ensures |t.rest| <= |r|
  {
    var a := SkipWs(r);
    if a == "" then Token('\0', a, a, a)
    else if a[0] == '>' then
      if |a| > 1 && a[1] == '>' then Token('+', a, a[2..], SkipWs(a[2..])) else Token('>', a, a[1..], SkipWs(a[1..]))
    else if Symbol(a[0]) then Token(a[0], a, a[1..], SkipWs(a[1..]))
    else
      assert SkipWord(a) == SkipWord(a[1..]);
      Token('a', a, SkipWord(a), SkipWs(SkipWord(a)))
  }

  predicate Peek(r: string, toks: string) {
    SkipWs(r) != "" && SkipWs(r)[0] in toks
  }

  function WordOf(t: Token): (w: Tok)
    requires |t.end| <= |t.at|
  {
    Tok(|t.at|, |t.end|, t.at[..|t.at| - |t.end|])
  }

  // ----- The parser -----

  datatype Redirection<W> = Redirection(file: W, dir: Dir)

  /** parseredirs: the redirections that come next. */
  function Redirs(r: string): (res: Result<seq<Redirection<Tok>>>)
    ensures res.Ok? ==> |res.rest| <= |r|
    decreases |r|
  {
    if !Peek(r, "<>") then Ok([], SkipWs(r))
    else
      var op := GetToken(r);
      var f := GetToken(op.rest);
      if f.ret != 'a' then Err("missing file for redirection")
      else
        match Redirs(f.rest)
        case Err(m) => Err(m)
        case Ok(rs, rest) =>
          Ok([Redirection(WordOf(f), if op.ret == '<' then In else if op.ret == '>' then Out else Append)] + rs, rest)
  }

  /** The redirections around a command, the first one innermost. */
  function Wrap<W>(c: Cmd<W>, rs: seq<Redirection<W>>): (r: Cmd<W>) {
    if rs == [] then c else Redir(Wrap(c, rs[..|rs| - 1]), rs[|rs| - 1].file, rs[|rs| - 1].dir)
  }

  /** The loop of parseexec over arguments and redirections. */
  function Args(argv: seq<Tok>, rs: seq<Redirection<Tok>>, r: string): (res: Result<Cmd<Tok>>)
    ensures res.Ok? ==> |res.rest| <= |r|
    decreases |r|
  {
    if Peek(r, "|)&;") then Ok(Wrap(Exec(argv), rs), SkipWs(r))
    else
      var t := GetToken(r);
      if t.ret == '\0' then Ok(Wrap(Exec(argv), rs), t.rest)
      else if t.ret != 'a' then Err("syntax")
      else if |argv| + 1 >= MAXARGS then Err("too many args")
      else
        match Redirs(t.rest)
        case Err(m) => Err(m)
        case Ok(rs', rest) => Args(argv + [WordOf(t)], rs + rs', rest)
  }

  function ParseExec(r: string): (res: Result<Cmd<Tok>>)
    ensures res.Ok? ==> |res.rest| <= |r|
    decreases |r|, 1
  {
    if Peek(r, "(") then ParseBlock(r)
    else
      match Redirs(r)
      case Err(m) => Err(m)
      case Ok(rs, rest) => Args([], rs, rest)
  }

  function ParseBlock(r: string): (res: Result<Cmd<Tok>>)
    requires Peek(r, "(")
    ensures res.Ok? ==> |res.rest| <= |r|
    decreases |r|, 0
  {
    match ParseLine(GetToken(r).rest)
    case Err(m) => Err(m)
    case Ok(c, rest) =>
      if !Peek(rest, ")") then Err("syntax - missing )")
      else
        match Redirs(GetToken(rest).rest)
        case Err(m) => Err(m)
        case Ok(rs, rest') => Ok(Wrap(c, rs), rest')
  }

  function ParsePipe(r: string): (res: Result<Cmd<Tok>>)
    ensures res.Ok? ==> |res.rest| <= |r|
    decreases |r|, 2
  {
    match ParseExec(r)
    case Err(m) => Err(m)
    case Ok(c, rest) =>
      if !Peek(rest, "|") then Ok(c, SkipWs(rest))
      else
        match ParsePipe(GetToken(rest).rest)
        case Err(m) => Err(m)
        case Ok(d, rest') => Ok(Pipe(c, d), rest')
  }

  /** The ampersands of parseline. */
  function Backs(c: Cmd<Tok>, r: string): (res: (Cmd<Tok>, string))
    ensures |res.1| <= |r|
    decreases |r|
  {
    if Peek(r, "&") then Backs(Back(c), GetToken(r).rest) else (c, SkipWs(r))
  }

  function ParseLine(r: string): (res: Result<Cmd<Tok>>)
    ensures res.Ok? ==> |res.rest| <= |r|
    decreases |r|, 3
  {
    match ParsePipe(r)
    case Err(m) => Err(m)
    case Ok(c, rest) =>
      var (b, r') := Backs(c, rest);
      if !Peek(r', ";") then Ok(b, SkipWs(r'))
      else
        match ParseLine(GetToken(r').rest)
        case Err(m) => Err(m)
        case Ok(d, rest') => Ok(List(b, d), rest')
  }

  function ParseCmd(s: string): (res: Result<Cmd<Tok>>) {
    match ParseLine(s)
    case Err(m) => Err(m)
    case Ok(c, rest) => if SkipWs(rest) != "" then Err("syntax") else Ok(c, "")
  }

  // ----- Printing -----

  predicate LegalWord(w: string) {
    w != "" && forall i :: 0 <= i < |w| ==> !Ws(w[i]) && !Symbol(w[i]) && w[i] != '\0'
  }

  /** Trees with words that can be written, and no more arguments than fit. */
  predicate Legal(c: Cmd<string>) {
    match c
    case Exec(argv) => |argv| < MAXARGS && forall i :: 0 <= i < |argv| ==> LegalWord(argv[i])
    case Redir(d, file, _) => Legal(d) && LegalWord(file)
    case Pipe(l, r) => Legal(l) && Legal(r)
    case List(l, r) => Legal(l) && Legal(r)
    case Back(d) => Legal(d)
  }

  function ShowWords(argv: seq<string>): (r: string) {
    if argv == [] then "" else if |argv| == 1 then argv[0] else argv[0] + " " + ShowWords(argv[1..])
  }

  function ShowDir(d: Dir): (r: string) {
    match d
    case In => "<"
    case Out => ">"
    case Append => ">>"
  }

  /** How tightly a command binds: a list least, then `&`, then a pipe. */
  function Level<W>(c: Cmd<W>): (k: nat) {
    match c
    case List(_, _) => 0
    case Back(_) => 1
    case Pipe(_, _) => 2
    case _ => 3
  }

  /** A command as text, where something that binds at level `k` is wanted; with
      parentheses only where they are needed. */
  function Show(c: Cmd<string>, k: nat): (r: string)
    requires k <= 3
    decreases c, if k > Level(c) then 1 else 0
  {
    if k > Level(c) then "(" + Show(c, 0) + ")"
    else
      match c
      case Exec(argv) => ShowWords(argv)
      case Redir(d, file, dir) => Show(d, 3) + ShowDir(dir) + file
      case Pipe(l, r) => Show(l, 3) + "|" + Show(r, 2)
      case List(l, r) => Show(l, 1) + ";" + Show(r, 0)
      case Back(d) => Show(d, 1) + "&"
  }

  /** The tree with the words themselves. */
  function Text(c: Cmd<Tok>): (r: Cmd<string>) {
    match c
    case Exec(argv) => Exec(Texts(argv))
    case Redir(d, file, dir) => Redir(Text(d), file.text, dir)
    case Pipe(l, r) => Pipe(Text(l), Text(r))
    case List(l, r) => List(Text(l), Text(r))
    case Back(d) => Back(Text(d))
  }

  function Texts(argv: seq<Tok>): (r: seq<string>)
    ensures |r| == |argv|
  {
    seq(|argv|, i requires 0 <= i < |argv| => argv[i].text)
  }

  // ----- Tokens of printed text -----

  lemma {:induction false} SkipLegal(w: string, rest: string)
    requires forall i :: 0 <= i < |w| ==> !Ws(w[i]) && !Symbol(w[i])
    requires rest == "" || Ws(rest[0]) || Symbol(rest[0])
    ensures SkipWord(w + rest) == rest
  {
    hide Ws, Symbol;
    if w == "" {
      assert w + rest == rest;
    } else {
      assert (w + rest)[1..] == w[1..] + rest;
      SkipLegal(w[1..], rest);
    }
  }

  /** Text that does not begin with blanks. */
  predicate Tight(r: string) {
    r == "" || !Ws(r[0])
  }

  /** Text that ends a word. */
  predicate Ends(r: string) {
    r == "" || Ws(r[0]) || Symbol(r[0])
  }

  lemma TokenOfWord(w: string, rest: string)
    requires LegalWord(w) && Ends(rest)
    ensures GetToken(w + rest) == Token('a', w + rest, rest, SkipWs(rest)) && WordOf(GetToken(w + rest)).text == w
  {
    assert (w + rest)[0] == w[0];
    SkipLegal(w, rest);
    assert (w + rest)[..|w + rest| - |rest|] == w;
  }

  function ShowRedirs(rs: seq<Redirection<string>>): (r: string) {
    if rs == [] then "" else ShowDir(rs[0].dir) + rs[0].file + ShowRedirs(rs[1..])
  }

  function RedirTexts(rs: seq<Redirection<Tok>>): (r: seq<Redirection<string>>)
    ensures |r| == |rs|
  {
    seq(|rs|, i requires 0 <= i < |rs| => Redirection(rs[i].file.text, rs[i].dir))
  }

  predicate LegalRedirs(rs: seq<Redirection<string>>) {
    forall i :: 0 <= i < |rs| ==> LegalWord(rs[i].file)
  }

  /** Text at which redirections stop. */
  predicate AfterRedirs(r: string) {
    Tight(r) && Ends(r) && (r == "" || (r[0] != '<' && r[0] != '>'))
  }

  lemma RedirsStep(d: Dir, file: string, more: string) returns (f: Tok)
    requires LegalWord(file) && Tight(more) && Ends(more) && Redirs(more).Ok?
    ensures f.text == file
    ensures Redirs(ShowDir(d) + (file + more)) == Ok([Redirection(f, d)] + Redirs(more).value, Redirs(more).rest)
  {
    hide GetToken, LegalWord;
    assert (file + more)[0] == file[0] && !Ws(file[0]) && !Symbol(file[0]) by { LegalStart(file); }
    TokenOfDir(d, file + more);
    TokenOfWord(file, more);
    f := WordOf(GetToken(file + more));
    assert GetToken(file + more).rest == more;
  }

  lemma LegalStart(w: string)
    requires LegalWord(w)
    ensures w != "" && !Ws(w[0]) && !Symbol(w[0])
  {}

  lemma {:induction false} RedirsOfShown(rs: seq<Redirection<string>>, rest: string)
    requires LegalRedirs(rs) && AfterRedirs(rest)
    ensures
      var res := Redirs(ShowRedirs(rs) + rest);
      res.Ok? && res.rest == rest && RedirTexts(res.value) == rs
  {
    hide Redirs, RedirTexts, ShowRedirs, ShowDir, LegalWord, AfterRedirs, Tight, Ends;
    if rs == [] {
      RedirsStop(rest);
    } else {
      var file, more := rs[0].file, ShowRedirs(rs[1..]) + rest;
      RedirsOfShown(rs[1..], rest);
      RedirsTight(rs[1..], rest);
      ShowRedirsFront(rs, rest);
      var f := RedirsStep(rs[0].dir, file, more);
      RedirTextsFront(Redirection(f, rs[0].dir), Redirs(more).value);
    }
  }

  lemma RedirsStop(rest: string)
    requires AfterRedirs(rest)
    ensures Redirs(ShowRedirs([]) + rest) == Ok([], rest) && RedirTexts([]) == []
  {
    assert ShowRedirs([]) + rest == rest;
  }

  lemma ShowRedirsFront(rs: seq<Redirection<string>>, rest: string)
    requires rs != []
    ensures ShowRedirs(rs) + rest == ShowDir(rs[0].dir) + (rs[0].file + (ShowRedirs(rs[1..]) + rest))
  {
    hide ShowDir;
  }

  lemma RedirTextsFront(r: Redirection<Tok>, rs: seq<Redirection<Tok>>)
    ensures RedirTexts([r] + rs) == [Redirection(r.file.text, r.dir)] + RedirTexts(rs)
  {}

  lemma RedirsTight(rs: seq<Redirection<string>>, rest: string)
    requires AfterRedirs(rest)
    ensures Tight(ShowRedirs(rs) + rest) && Ends(ShowRedirs(rs) + rest)
  {
    if rs == [] {
      assert ShowRedirs(rs) + rest == rest;
    } else {
      assert (ShowRedirs(rs) + rest)[0] == ShowDir(rs[0].dir)[0];
    }
  }

  lemma TokenOfDir(d: Dir, rest: string)
    requires rest != "" && !Ws(rest[0]) && !Symbol(rest[0])
    ensures
      var t := GetToken(ShowDir(d) + rest);
      && Peek(ShowDir(d) + rest, "<>") && t.rest == rest
      && d == if t.ret == '<' then In else if t.ret == '>' then Out else Append
  {
    var r := ShowDir(d) + rest;
    match d
    case In => assert r[0] == '<' && r[1..] == rest;
    case Out => assert r[0] == '>' && r[1] == rest[0] && r[1..] == rest;
    case Append => assert r[0] == '>' && r[1] == '>' && r[2..] == rest;
  }

  // ----- Commands of printed text -----

  lemma {:induction false} TextWrap(c: Cmd<Tok>, rs: seq<Redirection<Tok>>)
    ensures Text(Wrap(c, rs)) == Wrap(Text(c), RedirTexts(rs))
  {
    if rs != [] {
      TextWrap(c, rs[..|rs| - 1]);
      assert RedirTexts(rs)[..|rs| - 1] == RedirTexts(rs[..|rs| - 1]);
    }
  }

  /** Text that may follow at a level: nothing, or a symbol that ends that level. */
  predicate Follows(k: nat, r: string) {
    r == "" || r[0] == ')' || (k >= 1 && r[0] == ';') || (k >= 2 && r[0] == '&') || (k >= 3 && r[0] == '|')
  }

  /** One more argument. */
  lemma ArgsStep(argv: seq<Tok>, rs: seq<Redirection<Tok>>, w: string, more: string) returns (t: Tok)
    requires LegalWord(w) && Ends(more) && |argv| + 1 < MAXARGS && Redirs(SkipWs(more)).Ok?
    ensures t.text == w
    ensures Args(argv, rs, w + more) == Args(argv + [t], rs + Redirs(SkipWs(more)).value, Redirs(SkipWs(more)).rest)
  {
    hide GetToken, LegalWord, Redirs;
    LegalStart(w);
    assert (w + more)[0] == w[0];
    TokenOfWord(w, more);
    t := WordOf(GetToken(w + more));
  }

  lemma ArgsEnd(argv: seq<Tok>, rs: seq<Redirection<Tok>>, rest: string)
    requires Follows(3, rest)
    ensures Args(argv, rs, rest) == Ok(Wrap(Exec(argv), rs), rest)
  {}

  /** The last argument, with the redirections behind it. */
  lemma ArgsLast(argv: seq<Tok>, w: string, rs: seq<Redirection<string>>, rest: string) returns (c: Cmd<Tok>)
    requires LegalWord(w) && |argv| + 1 < MAXARGS && LegalRedirs(rs) && Follows(3, rest)
    ensures Args(argv, [], w + (ShowRedirs(rs) + rest)) == Ok(c, rest)
    ensures Text(c) == Wrap(Exec(Texts(argv) + [w]), rs)
  {
    hide Redirs, Args, LegalWord, Wrap, Text, ShowRedirs;
    var tail := ShowRedirs(rs) + rest;
    RedirsTight(rs, rest);
    RedirsOfShown(rs, rest);
    var t := ArgsStep(argv, [], w, tail);
    var rtoks := Redirs(tail).value;
    assert [] + rtoks == rtoks;
    ArgsEnd(argv + [t], rtoks, rest);
    c := Wrap(Exec(argv + [t]), rtoks);
    TextWrap(Exec(argv + [t]), rtoks);
    TextExec(argv, t);
  }

  lemma TextExec(argv: seq<Tok>, t: Tok)
    ensures Text(Exec(argv + [t])) == Exec(Texts(argv) + [t.text]) && Texts(argv + [t]) == Texts(argv) + [t.text]
  {
    assert Texts(argv + [t]) == Texts(argv) + [t.text];
  }

  /** An argument that is not the last. */
  lemma ArgsMore(argv: seq<Tok>, w: string, next: string) returns (t: Tok)
    requires LegalWord(w) && |argv| + 1 < MAXARGS && next != "" && !Ws(next[0]) && !Symbol(next[0])
    ensures t.text == w && Args(argv, [], w + (" " + next)) == Args(argv + [t], [], next)
  {
    hide Redirs, Args, LegalWord;
    var more := " " + next;
    assert more[1..] == next;
    assert SkipWs(more) == next;
    NoRedirs(next);
    t := ArgsStep(argv, [], w, more);
    assert [] + Redirs(next).value == [];
  }

  lemma {:induction false} ArgsOfShown(argv: seq<Tok>, words: seq<string>, rs: seq<Redirection<string>>, rest: string)
    returns (c: Cmd<Tok>)
    requires words != [] && (forall i :: 0 <= i < |words| ==> LegalWord(words[i])) && |argv| + |words| < MAXARGS
    requires LegalRedirs(rs) && Follows(3, rest)
    ensures Args(argv, [], ShowWords(words) + (ShowRedirs(rs) + rest)) == Ok(c, rest)
    ensures Text(c) == Wrap(Exec(Texts(argv) + words), rs)
    decreases words
  {
    hide Args, LegalWord, Wrap, Text, ShowRedirs, Follows, LegalRedirs, Texts;
    var tail := ShowRedirs(rs) + rest;
    if |words| == 1 {
      c := ArgsLast(argv, words[0], rs, rest);
      assert [words[0]] == words;
    } else {
      var next := ShowWords(words[1..]) + tail;
      WordsStart(words[1..], tail);
      assert ShowWords(words) + tail == words[0] + (" " + next);
      var t := ArgsMore(argv, words[0], next);
      c := ArgsOfShown(argv + [t], words[1..], rs, rest);
      TextExec(argv, t);
      Shift(Texts(argv), words);
    }
  }

  lemma Shift(a: seq<string>, words: seq<string>)
    requires words != []
    ensures a + [words[0]] + words[1..] == a + words
  {}

  lemma WordsStart(words: seq<string>, tail: string)
    requires words != [] && LegalWord(words[0])
    ensures
      var r := ShowWords(words) + tail;
      r != "" && !Ws(r[0]) && !Symbol(r[0])
  {
    LegalStart(words[0]);
    assert (ShowWords(words) + tail)[0] == words[0][0];
  }

  lemma NoRedirs(r: string)
    requires r != "" && !Ws(r[0]) && !Symbol(r[0])
    ensures Redirs(r) == Ok([], r)
  {}

  /** A command without the redirections around it, and those. */
  function Base<W>(c: Cmd<W>): (r: Cmd<W>)
    ensures !r.Redir?
  {
    match c
    case Redir(d, _, _) => Base(d)
    case _ => c
  }

  function RedirsOf<W>(c: Cmd<W>): (r: seq<Redirection<W>>) {
    match c
    case Redir(d, file, dir) => RedirsOf(d) + [Redirection(file, dir)]
    case _ => []
  }

  lemma {:induction false} Unwrap(c: Cmd<string>)
    requires Legal(c)
    ensures Wrap(Base(c), RedirsOf(c)) == c && Show(c, 3) == Show(Base(c), 3) + ShowRedirs(RedirsOf(c))
    ensures Legal(Base(c)) && LegalRedirs(RedirsOf(c)) && (Base(c) == c || Base(c) < c)
    decreases c
  {
    hide Show, ShowRedirs, ShowDir, LegalWord;
    match c
    case Redir(d, file, dir) =>
      Unwrap(d);
      var rs, x := RedirsOf(d), Redirection(file, dir);
      assert (rs + [x])[..|rs + [x]| - 1] == rs;
      ShowRedirsSnoc(rs, x);
      ShowRedir(d, file, dir);
      assert Show(c, 3) == Show(Base(d), 3) + (ShowRedirs(rs) + (ShowDir(dir) + file));
    case _ =>
      ShowNoRedirs(Show(c, 3));
  }

  lemma ShowRedir(d: Cmd<string>, file: string, dir: Dir)
    ensures Show(Redir(d, file, dir), 3) == Show(d, 3) + (ShowDir(dir) + file)
  {
    hide ShowDir;
  }

  lemma ShowNoRedirs(s: string)
    ensures s == s + ShowRedirs([])
  {}

  lemma {:induction false} ShowRedirsSnoc(rs: seq<Redirection<string>>, x: Redirection<string>)
    ensures ShowRedirs(rs + [x]) == ShowRedirs(rs) + (ShowDir(x.dir) + x.file)
  {
    if rs == [] {
      assert rs + [x] == [x] && [x][1..] == [];
    } else {
      ShowRedirsSnoc(rs[1..], x);
      assert (rs + [x])[1..] == rs[1..] + [x];
    }
  }

  lemma TightCat(a: string, b: string)
    requires Tight(a) && Tight(b)
    ensures Tight(a + b)
  {}

  /** Printed commands do not begin with blanks. */
  lemma {:induction false} ShowTight(c: Cmd<string>, k: nat)
    requires Legal(c) && k <= 3
    ensures Tight(Show(c, k))
    decreases c, if k > Level(c) then 1 else 0
  {
    if k <= Level(c) {
      match c
      case Exec(argv) =>
        if argv != [] {
          WordsStart(argv, "");
          assert ShowWords(argv) + "" == ShowWords(argv);
        }
      case Redir(d, file, dir) =>
        ShowTight(d, 3);
        TightCat(Show(d, 3), ShowDir(dir));
        LegalStart(file);
        TightCat(Show(d, 3) + ShowDir(dir), file);
      case Pipe(l, r) =>
        ShowTight(l, 3);
        ShowTight(r, 2);
        TightCat(Show(l, 3), "|");
        TightCat(Show(l, 3) + "|", Show(r, 2));
      case List(l, r) =>
        ShowTight(l, 1);
        ShowTight(r, 0);
        TightCat(Show(l, 1), ";");
        TightCat(Show(l, 1) + ";", Show(r, 0));
      case Back(d) =>
        ShowTight(d, 1);
        TightCat(Show(d, 1), "&");
    }
  }

  /** A symbol in front of tight text. */
  lemma TokenOfSymbol(c: char, rest: string)
    requires Symbol(c) && c != '>' && Tight(rest)
    ensures GetToken([c] + rest) == Token(c, [c] + rest, rest, rest) && SkipWs([c] + rest) == [c] + rest
  {
    assert ([c] + rest)[1..] == rest;
  }

  // One step of each parsing function on printed text.

  lemma BlockStep(inner: string, tail: string, c: Cmd<Tok>)
    requires Tight(inner + (")" + tail)) && Tight(tail) && ParseLine(inner + (")" + tail)) == Ok(c, ")" + tail)
      && Redirs(tail).Ok?
    ensures ParseExec("(" + (inner + (")" + tail))) == Ok(Wrap(c, Redirs(tail).value), Redirs(tail).rest)
  {
    hide ParseLine, Redirs, GetToken, Wrap;
    TokenOfSymbol('(', inner + (")" + tail));
    TokenOfSymbol(')', tail);
  }

  lemma PipeStep(r: string, c: Cmd<Tok>, more: string)
    requires Tight(more) && ParseExec(r) == Ok(c, "|" + more) && ParsePipe(more).Ok?
    ensures ParsePipe(r) == Ok(Pipe(c, ParsePipe(more).value), ParsePipe(more).rest)
  {
    hide ParseExec, GetToken;
    TokenOfSymbol('|', more);
  }

  lemma PipeEnd(r: string, c: Cmd<Tok>, rest: string)
    requires ParseExec(r) == Ok(c, rest) && Follows(2, rest)
    ensures ParsePipe(r) == Ok(c, rest)
  {
    hide ParseExec;
  }

  lemma BackStep(c: Cmd<Tok>, rest: string)
    requires Tight(rest)
    ensures Backs(c, "&" + rest) == Backs(Back(c), rest)
  {
    hide GetToken;
    TokenOfSymbol('&', rest);
  }

  lemma LineStep(r: string, c: Cmd<Tok>, more: string)
    requires Tight(more) && ParsePipe(r).Ok? && Backs(ParsePipe(r).value, ParsePipe(r).rest) == Backs(c, ";" + more)
    requires ParseLine(more).Ok?
    ensures ParseLine(r) == Ok(List(c, ParseLine(more).value), ParseLine(more).rest)
  {
    hide ParsePipe, GetToken;
    TokenOfSymbol(';', more);
  }

  lemma LineEnd(r: string, c: Cmd<Tok>, rest: string)
    requires ParsePipe(r).Ok? && Backs(ParsePipe(r).value, ParsePipe(r).rest) == Backs(c, rest) && Follows(0, rest)
    ensures ParseLine(r) == Ok(c, rest)
  {
    hide ParsePipe;
  }

  // ----- The round trip -----

  function Rank(c: Cmd<string>, k: nat): (n: nat) {
    if k <= Level(c) then Level(c) - k else if k <= 10 then 10 - k else 0
  }

  lemma {:induction false} RoundExec(t: Cmd<string>, rest: string) returns (c: Cmd<Tok>)
    requires Legal(t) && Follows(3, rest)
    ensures ParseExec(Show(t, 3) + rest) == Ok(c, rest) && Text(c) == t
    decreases t, Rank(t, 3)
  {
    hide Show, ParseExec, ParseLine, Legal, Text, Wrap, ShowRedirs, LegalRedirs, RedirsOf;
    Unwrap(t);
    var b, rs := Base(t), RedirsOf(t);
    var tail := ShowRedirs(rs) + rest;
    assert Show(t, 3) + rest == Show(b, 3) + tail;
    if b.Exec? {
      c := RoundWords(b.argv, rs, rest);
    } else {
      var d := RoundLine(b, ")" + tail);
      c := RoundBlock(b, rs, rest, d);
    }
  }

  /** A command in parentheses, given that its inside comes back. */
  lemma RoundBlock(b: Cmd<string>, rs: seq<Redirection<string>>, rest: string, d: Cmd<Tok>) returns (c: Cmd<Tok>)
    requires Legal(b) && !b.Exec? && !b.Redir? && LegalRedirs(rs) && Follows(3, rest) && Text(d) == b
    requires ParseLine(Show(b, 0) + (")" + (ShowRedirs(rs) + rest))) == Ok(d, ")" + (ShowRedirs(rs) + rest))
    ensures ParseExec(Show(b, 3) + (ShowRedirs(rs) + rest)) == Ok(c, rest) && Text(c) == Wrap(b, rs)
  {
    hide Show, ParseExec, ParseLine, Legal, Text, Wrap, ShowRedirs, Redirs, LegalRedirs;
    var tail := ShowRedirs(rs) + rest;
    RedirsTight(rs, rest);
    RedirsOfShown(rs, rest);
    ShowBlock(b);
    ShowTight(b, 0);
    TightCat(Show(b, 0), ")" + tail);
    assert Show(b, 3) + tail == "(" + (Show(b, 0) + (")" + tail));
    BlockStep(Show(b, 0), tail, d);
    c := Wrap(d, Redirs(tail).value);
    TextWrap(d, Redirs(tail).value);
  }

  lemma ShowBlock(b: Cmd<string>)
    requires !b.Exec? && !b.Redir?
    ensures Show(b, 3) == "(" + Show(b, 0) + ")"
  {}

  /** A command that is just words and redirections. */
  lemma RoundWords(argv: seq<string>, rs: seq<Redirection<string>>, rest: string) returns (c: Cmd<Tok>)
    requires Legal(Exec(argv)) && LegalRedirs(rs) && Follows(3, rest)
    ensures ParseExec(Show(Exec(argv), 3) + (ShowRedirs(rs) + rest)) == Ok(c, rest) && Text(c) == Wrap(Exec(argv), rs)
  {
    hide Redirs, Args, Wrap, ShowRedirs, LegalWord;
    var tail := ShowRedirs(rs) + rest;
    RedirsTight(rs, rest);
    RedirsOfShown(rs, rest);
    if argv == [] {
      assert Show(Exec(argv), 3) + tail == tail;
      assert !Peek(tail, "(") by { NoBlock(rs, rest); }
      c := Wrap(Exec([]), Redirs(tail).value);
      ArgsEnd([], Redirs(tail).value, rest);
      TextWrap(Exec([]), Redirs(tail).value);
    } else {
      WordsStart(argv, tail);
      NoRedirs(ShowWords(argv) + tail);
      c := ArgsOfShown([], argv, rs, rest);
      assert Texts([]) + argv == argv;
    }
  }

  lemma NoBlock(rs: seq<Redirection<string>>, rest: string)
    requires Follows(3, rest)
    ensures !Peek(ShowRedirs(rs) + rest, "(")
  {
    if rs == [] {
      assert ShowRedirs(rs) + rest == rest;
    } else {
      assert (ShowRedirs(rs) + rest)[0] == ShowDir(rs[0].dir)[0];
    }
  }

  lemma {:induction false} RoundPipe(t: Cmd<string>, rest: string) returns (c: Cmd<Tok>)
    requires Legal(t) && Follows(2, rest)
    ensures ParsePipe(Show(t, 2) + rest) == Ok(c, rest) && Text(c) == t
    decreases t, Rank(t, 2)
  {
    hide ParseExec, ParsePipe;
    if t.Pipe? {
      var more := Show(t.right, 2) + rest;
      var d := RoundPipe(t.right, rest);
      ShowTight(t.right, 2);
      TightCat(Show(t.right, 2), rest);
      var b := RoundExec(t.left, "|" + more);
      assert Show(t, 2) + rest == Show(t.left, 3) + ("|" + more);
      PipeStep(Show(t, 2) + rest, b, more);
      c := Pipe(b, d);
    } else {
      c := RoundExec(t, rest);
      assert Show(t, 2) == Show(t, 3);
      PipeEnd(Show(t, 2) + rest, c, rest);
    }
  }

  /** A pipe line and the ampersands behind it, up to whatever follows. */
  lemma {:induction false} RoundBack(t: Cmd<string>, rest: string) returns (c: Cmd<Tok>)
    requires Legal(t) && Follows(2, rest)
    ensures
      var res := ParsePipe(Show(t, 1) + rest);
      res.Ok? && Backs(res.value, res.rest) == Backs(c, rest) && Text(c) == t
    decreases t, Rank(t, 1)
  {
    hide ParsePipe, Backs;
    if t.Back? {
      var d := RoundBack(t.bg, "&" + rest);
      assert Show(t, 1) + rest == Show(t.bg, 1) + ("&" + rest);
      BackStep(d, rest);
      c := Back(d);
    } else {
      c := RoundPipe(t, rest);
      assert Show(t, 1) == Show(t, 2);
    }
  }

  lemma {:induction false} RoundLine(t: Cmd<string>, rest: string) returns (c: Cmd<Tok>)
    requires Legal(t) && Follows(0, rest)
    ensures ParseLine(Show(t, 0) + rest) == Ok(c, rest) && Text(c) == t
    decreases t, Rank(t, 0)
  {
    hide ParsePipe, Backs, ParseLine;
    if t.List? {
      var more := Show(t.second, 0) + rest;
      var d := RoundLine(t.second, rest);
      ShowTight(t.second, 0);
      TightCat(Show(t.second, 0), rest);
      var b := RoundBack(t.first, ";" + more);
      assert Show(t, 0) + rest == Show(t.first, 1) + (";" + more);
      LineStep(Show(t, 0) + rest, b, more);
      c := List(b, d);
    } else {
      c := RoundBack(t, rest);
      assert Show(t, 0) == Show(t, 1);
      LineEnd(Show(t, 0) + rest, c, rest);
    }
  }

  /** Every legal tree, printed and parsed, comes back. */
  lemma RoundTrip(t: Cmd<string>)
    requires Legal(t)
    ensures
      var res := ParseCmd(Show(t, 0));
      res.Ok? && Text(res.value) == t
  {
    var c := RoundLine(t, "");
    assert Show(t, 0) + "" == Show(t, 0);
  }
}
