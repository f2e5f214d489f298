/** user/grep.c: the regular-expression matcher and the buffered line loop. */
module Grep {

  // ----- The matcher -----

  /** matchhere: the pattern at the beginning of the text. */
  predicate MatchHere(re: string, text: string)
    decreases |re|, |text|
  {
    if re == "" then true
    else if |re| > 1 && re[1] == '*' then MatchStar(re[0], re[2..], text)
    else if re == "$" then text == ""
    else text != "" && (re[0] == '.' || re[0] == text[0]) && MatchHere(re[1..], text[1..])
  }

  /** matchstar: any number of `c`, then the pattern. */
  predicate MatchStar(c: char, re: string, text: string)
    decreases |re| + 1, |text|
  {
    MatchHere(re, text) || (text != "" && (text[0] == c || c == '.') && MatchStar(c, re, text[1..]))
  }

  predicate MatchAnywhere(re: string, text: string)
    decreases |text|
  {
    MatchHere(re, text) || (text != "" && MatchAnywhere(re, text[1..]))
  }

  predicate Match(re: string, text: string) {
    if re != "" && re[0] == '^' then MatchHere(re[1..], text) else MatchAnywhere(re, text)
  }

  /** match, matchhere and matchstar with their loops. */
  method Matchhere(re: string, text: string) returns (b: bool)
    ensures b == MatchHere(re, text)
    decreases |re|, |text|
  {
    if re == "" {
      return true;
    }
    if |re| > 1 && re[1] == '*' {
      b := Matchstar(re[0], re[2..], text);
      return;
    }
    if re == "$" {
      return text == "";
    }
    if text != "" && (re[0] == '.' || re[0] == text[0]) {
      b := Matchhere(re[1..], text[1..]);
      return;
    }
    return false;
  }

  method Matchstar(c: char, re: string, text: string) returns (b: bool)
    ensures b == MatchStar(c, re, text)
    decreases |re| + 1, |text|
  {
    var t := text;
    while true
      invariant MatchStar(c, re, t) == MatchStar(c, re, text)
      decreases |t|
    {
      var here := Matchhere(re, t);
      if here {
        return true;
      }
      if t == "" || !(t[0] == c || c == '.') {
        return false;
      }
      t := t[1..];
    }
  }

  method MatchLine(re: string, text: string) returns (b: bool)
    ensures b == Match(re, text)
  {
    if re != "" && re[0] == '^' {
      b := Matchhere(re[1..], text);
      return;
    }
    var t := text;
    while true
      invariant MatchAnywhere(re, t) == MatchAnywhere(re, text)
      decreases |t|
    {
      var here := Matchhere(re, t);
      if here {
        return true;
      }
      if t == "" {
        return false;
      }
      t := t[1..];
    }
  }

  // ----- What patterns mean -----

  datatype Atom = One(c: char) | Many(c: char)

  /** A pattern read as a sequence of atoms... */
  function Atoms(re: string): (r: seq<Atom>) {
    if re == "" || re == "$" then []
    else if |re| > 1 && re[1] == '*' then [Many(re[0])] + Atoms(re[2..])
    else [One(re[0])] + Atoms(re[1..])
  }

  /** ...that may be tied to the end of the text. */
  predicate AtEnd(re: string) {
    if re == "" then false
    else if re == "$" then true
    else if |re| > 1 && re[1] == '*' then AtEnd(re[2..])
    else AtEnd(re[1..])
  }

  predicate Fits(c: char, x: char) {
    c == '.' || c == x
  }

  predicate AllFit(c: char, w: string) {
    forall i :: 0 <= i < |w| ==> Fits(c, w[i])
  }

  /** The strings that a sequence of atoms stands for. */
  ghost predicate InLanguage(atoms: seq<Atom>, w: string)
    decreases |atoms|
  {
    if atoms == [] then w == ""
    else
      match atoms[0]
      case One(c) => w != "" && Fits(c, w[0]) && InLanguage(atoms[1..], w[1..])
      case Many(c) => exists k: nat :: k <= |w| && AllFit(c, w[..k]) && InLanguage(atoms[1..], w[k..])
  }

  /** The first `n` characters are what the pattern asks for. */
  ghost predicate Here(re: string, text: string, n: nat) {
    n <= |text| && InLanguage(Atoms(re), text[..n]) && (AtEnd(re) ==> n == |text|)
  }

  /** matchhere finds out whether some beginning of the text is in the pattern's language. */
  lemma {:induction false} MatchHereMeans(re: string, text: string)
    ensures MatchHere(re, text) <==> exists n: nat :: Here(re, text, n)
    decreases |re|, |text|
  {
    if re == "" {
      assert text[..0] == "";
      assert Here(re, text, 0);
    } else if |re| > 1 && re[1] == '*' {
      StarMeans(re[0], re[2..], text);
      ManyMeans(re, text);
    } else if re == "$" {
      assert text == "" ==> text[..0] == "" && Here(re, text, 0);
    } else {
      if text != "" {
        MatchHereMeans(re[1..], text[1..]);
      }
      OneMeans(re, text);
    }
  }

  lemma OneMeans(re: string, text: string)
    requires re != "" && re != "$" && !(|re| > 1 && re[1] == '*')
    ensures (exists n: nat :: Here(re, text, n)) <==>
      text != "" && Fits(re[0], text[0]) && exists n: nat :: Here(re[1..], text[1..], n)
  {
    if n: nat :| Here(re, text, n) {
      assert text[..n][1..] == text[1..][..n - 1];
      assert Here(re[1..], text[1..], n - 1);
    }
    if text != "" && Fits(re[0], text[0]) {
      if n: nat :| Here(re[1..], text[1..], n) {
        assert text[..n + 1][1..] == text[1..][..n];
        assert Here(re, text, n + 1);
      }
    }
  }

  /** The first `k` characters fit the star, and the pattern comes next. */
  ghost predicate StarHere(c: char, re: string, text: string, k: nat, n: nat) {
    k <= |text| && AllFit(c, text[..k]) && Here(re, text[k..], n)
  }

  lemma StarUp(c: char, re: string, text: string, k: nat, n: nat)
    requires text != "" && Fits(c, text[0]) && StarHere(c, re, text[1..], k, n)
    ensures StarHere(c, re, text, k + 1, n)
  {
    hide Here;
    assert text[..k + 1] == [text[0]] + text[1..][..k];
    assert text[k + 1..] == text[1..][k..];
  }

  lemma StarDown(c: char, re: string, text: string, k: nat, n: nat)
    requires StarHere(c, re, text, k, n) && k > 0
    ensures text != "" && Fits(c, text[0]) && StarHere(c, re, text[1..], k - 1, n)
  {
    hide Here;
    assert Fits(c, text[..k][0]);
    assert text[..k] == [text[0]] + text[1..][..k - 1];
    assert text[1..][..k - 1] == text[..k][1..];
    assert text[k..] == text[1..][k - 1..];
  }

  lemma {:induction false} StarMeans(c: char, re: string, text: string)
    ensures MatchStar(c, re, text) <==> exists k: nat, n: nat :: StarHere(c, re, text, k, n)
    decreases |re| + 1, |text|
  {
    hide Here, StarHere;
    MatchHereMeans(re, text);
    if n: nat :| Here(re, text, n) {
      StarZero(c, re, text, n);
    }
    if text != "" && Fits(c, text[0]) {
      StarMeans(c, re, text[1..]);
      if k: nat, n: nat :| StarHere(c, re, text[1..], k, n) {
        StarUp(c, re, text, k, n);
      }
    }
    if k: nat, n: nat :| StarHere(c, re, text, k, n) {
      if k == 0 {
        StarZero(c, re, text, n);
      } else {
        StarDown(c, re, text, k, n);
      }
    }
  }

  lemma StarZero(c: char, re: string, text: string, n: nat)
    ensures StarHere(c, re, text, 0, n) <==> Here(re, text, n)
  {
    assert text[0..] == text;
  }

  lemma ManyMeans(re: string, text: string)
    requires |re| > 1 && re[1] == '*'
    ensures (exists n: nat :: Here(re, text, n)) <==> exists k: nat, n: nat :: StarHere(re[0], re[2..], text, k, n)
  {
    if n: nat :| Here(re, text, n) {
      var k: nat :| k <= |text[..n]| && AllFit(re[0], text[..n][..k]) && InLanguage(Atoms(re[2..]), text[..n][k..]);
      assert text[..n][..k] == text[..k] && text[..n][k..] == text[k..][..n - k];
      assert StarHere(re[0], re[2..], text, k, n - k);
    }
    if k: nat, n: nat :| StarHere(re[0], re[2..], text, k, n) {
      assert text[..k + n][..k] == text[..k] && text[..k + n][k..] == text[k..][..n];
      assert Here(re, text, k + n);
    }
  }

  /** match searches the whole text, or only its beginning for a pattern with `^`. */
  lemma {:induction false} MatchAnywhereMeans(re: string, text: string)
    ensures MatchAnywhere(re, text) <==> exists i: nat, n: nat :: i <= |text| && Here(re, text[i..], n)
    decreases |text|
  {
    MatchHereMeans(re, text);
    assert text[0..] == text;
    if n: nat :| Here(re, text, n) {
      assert Here(re, text[0..], n);
    }
    if text != "" {
      MatchAnywhereMeans(re, text[1..]);
      if i: nat, n: nat :| i <= |text[1..]| && Here(re, text[1..][i..], n) {
        assert text[1..][i..] == text[i + 1..];
        assert Here(re, text[i + 1..], n);
      }
    }
    if i: nat, n: nat :| i <= |text| && Here(re, text[i..], n) {
      if i > 0 {
        assert text[i..] == text[1..][i - 1..];
        assert Here(re, text[1..][i - 1..], n);
      } else {
        assert Here(re, text, n);
      }
    }
  }

  lemma MatchMeans(re: string, text: string)
    ensures Match(re, text) <==>
      if re != "" && re[0] == '^' then exists n: nat :: Here(re[1..], text, n)
      else exists i: nat, n: nat :: i <= |text| && Here(re, text[i..], n)
  {
    if re != "" && re[0] == '^' {
      MatchHereMeans(re[1..], text);
    } else {
      MatchAnywhereMeans(re, text);
    }
  }

  // ----- What users write -----

  /** Characters that stand for themselves. */
  ghost predicate Ordinary(w: string) {
    forall i :: 0 <= i < |w| ==> w[i] != '^' && w[i] != '$' && w[i] != '*' && w[i] != '.'
  }

  lemma {:induction false} HereWord(w: string, more: string, text: string)
    requires Ordinary(w) && (more == "" || more == "$")
    ensures MatchHere(w + more, text) <==> w <= text && (more == "$" ==> text == w)
    decreases |w|
  {
    if w == "" {
      assert w + more == more;
    } else {
      assert (w + more)[1..] == w[1..] + more;
      if text != "" {
        HereWord(w[1..], more, text[1..]);
        assert text == [text[0]] + text[1..] && w == [w[0]] + w[1..];
      }
    }
  }

  ghost predicate WordAt(w: string, more: string, text: string, i: nat) {
    i <= |text| && w <= text[i..] && (more == "$" ==> text[i..] == w)
  }

  lemma {:induction false} SomewhereWord(w: string, more: string, text: string)
    requires Ordinary(w) && (more == "" || more == "$")
    ensures MatchAnywhere(w + more, text) <==> exists i: nat :: WordAt(w, more, text, i)
    decreases |text|
  {
    hide MatchHere, WordAt;
    HereWord(w, more, text);
    FirstWord(w, more, text);
    if text != "" {
      SomewhereWord(w, more, text[1..]);
      if i: nat :| WordAt(w, more, text[1..], i) {
        LaterWord(w, more, text, i);
      }
      if i: nat :| i > 0 && WordAt(w, more, text, i) {
        LaterWord(w, more, text, i - 1);
      }
    } else if i: nat :| WordAt(w, more, text, i) {
      assert i == 0 by { WordInText(w, more, text, i); }
    }
  }

  lemma WordInText(w: string, more: string, text: string, i: nat)
    requires WordAt(w, more, text, i)
    ensures i <= |text|
  {}

  lemma FirstWord(w: string, more: string, text: string)
    ensures WordAt(w, more, text, 0) <==> w <= text && (more == "$" ==> text == w)
  {
    assert text[0..] == text;
  }

  lemma LaterWord(w: string, more: string, text: string, i: nat)
    requires text != ""
    ensures WordAt(w, more, text[1..], i) <==> WordAt(w, more, text, i + 1)
  {
    if i < |text| {
      assert text[1..][i..] == text[i + 1..];
    }
  }

  lemma {:induction false} StarToEnd(c: char, text: string)
    ensures MatchStar(c, "$", text) <==> c == '.' || forall i :: 0 <= i < |text| ==> text[i] == c
    decreases |text|
  {
    if text != "" {
      StarToEnd(c, text[1..]);
      assert forall i :: 0 < i < |text| ==> text[i] == text[1..][i - 1];
    }
  }

  lemma WordAnywhere(w: string, text: string)
    requires Ordinary(w) && w != ""
    ensures Match(w, text) <==> exists i :: 0 <= i <= |text| && w <= text[i..]
    ensures Match(w + "$", text) <==> |w| <= |text| && text[|text| - |w|..] == w
  {
    hide MatchHere, MatchAnywhere;
    assert w + "" == w && w[0] != '^';
    SomewhereWord(w, "", text);
    SomewhereWord(w, "$", text);
    if i :| 0 <= i <= |text| && w <= text[i..] {
      assert WordAt(w, "", text, i);
    }
    if |w| <= |text| && text[|text| - |w|..] == w {
      assert WordAt(w, "$", text, |text| - |w|);
    }
  }

  lemma WordAtStart(w: string, text: string)
    requires Ordinary(w) && w != ""
    ensures Match("^" + w, text) <==> w <= text
    ensures Match("^" + w + "$", text) <==> text == w
  {
    hide MatchHere, MatchAnywhere;
    assert w + "" == w && ("^" + w)[1..] == w && ("^" + w + "$")[1..] == w + "$";
    HereWord(w, "", text);
    HereWord(w, "$", text);
  }

  lemma Dot(text: string)
    ensures Match(".", text) <==> text != ""
  {
    hide MatchStar;
    assert "."[1..] == "";
    if text != "" {
      assert MatchHere(".", text);
    }
  }

  lemma StarLine(c: char, text: string)
    requires c != '^'
    ensures Match("^" + [c] + "*$", text) <==> c == '.' || forall i :: 0 <= i < |text| ==> text[i] == c
  {
    hide MatchStar, MatchAnywhere;
    var re := [c] + "*$";
    assert ("^" + [c] + "*$")[1..] == re && re[2..] == "$";
    StarToEnd(c, text);
  }

  /** A word is found wherever it is, with `^` at the beginning only, with `$` at the end
      only; a dot stands for any character, and a star for any number of what is before it. */
  lemma Metacharacters(w: string, c: char, text: string)
    requires Ordinary(w) && w != "" && Ordinary([c])
    ensures Match(w, text) <==> exists i :: 0 <= i <= |text| && w <= text[i..]
    ensures Match("^" + w, text) <==> w <= text
    ensures Match(w + "$", text) <==> |w| <= |text| && text[|text| - |w|..] == w
    ensures Match("^" + w + "$", text) <==> text == w
    ensures Match(".", text) <==> text != ""
    ensures Match("^" + [c] + "*$", text) <==> forall i :: 0 <= i < |text| ==> text[i] == c
    ensures Match("^" + "." + "*$", text)
  {
    hide Match;
    WordAnywhere(w, text);
    WordAtStart(w, text);
    Dot(text);
    assert [c][0] == c;
    StarLine(c, text);
    StarLine('.', text);
    assert "." == ['.'];
  }

  // ----- The lines of a file -----

  const BUFSIZE := 1024

  /** Where the first newline or NUL is, or the length: where strchr stops. */
  function Stop(s: string): (j: nat)
    ensures j <= |s| && (j < |s| ==> s[j] == '\n' || s[j] == '\0')
  {
    if s == "" || s[0] == '\n' || s[0] == '\0' then 0 else 1 + Stop(s[1..])
  }

  /** strchr finds a newline. */
  predicate Found(s: string) {
    Stop(s) < |s| && s[Stop(s)] == '\n'
  }

  lemma {:induction false} StopIs(s: string, j: nat)
    requires j <= |s| && (forall i :: 0 <= i < j ==> s[i] != '\n' && s[i] != '\0')
    requires j < |s| ==> s[j] == '\n' || s[j] == '\0'
    ensures Stop(s) == j
  {
    if j > 0 {
      StopIs(s[1..], j - 1);
    }
  }

  lemma {:induction false} NothingBefore(s: string, i: nat)
    requires i < Stop(s)
    ensures s[i] != '\n' && s[i] != '\0'
  {
    if i > 0 {
      NothingBefore(s[1..], i - 1);
    }
  }

  /** What grep prints of a file: the matching lines, up to the first one that
      strchr does not find or that with its newline does not fit in the buffer. */
  function Output(re: string, s: string): (out: string)
    decreases |s|
  {
    var j := Stop(s);
    if !Found(s) || j + 1 >= BUFSIZE then ""
    else (if Match(re, s[..j]) then s[..j + 1] else "") + Output(re, s[j + 1..])
  }

  /** strchr for the newline, from `p` on. */
  method FindNewline(buf: array<char>, p: nat, m: nat) returns (q: nat)
    requires p <= m <= buf.Length
    ensures p <= q <= m && if q < m then Found(buf[p..m]) && q - p == Stop(buf[p..m]) else !Found(buf[p..m])
  {
    q := p;
    while q < m && buf[q] != '\n' && buf[q] != '\0'
      invariant p <= q <= m && forall i :: p <= i < q ==> buf[i] != '\n' && buf[i] != '\0'
    {
      q := q + 1;
    }
    StopIs(buf[p..m], q - p);
    if q < m && buf[q] == '\0' {
      q := m;
    }
  }

  /** Whatever follows `b`, grep of it prints `out` and then what it prints from
      position `p` of `b` on. */
  ghost predicate Emits(re: string, b: string, p: nat, out: string) {
    p <= |b| && forall rest :: Output(re, b + rest) == out + Output(re, b[p..] + rest)
  }

  lemma EmitsNothing(re: string, b: string)
    ensures Emits(re, b, 0, "")
  {
    assert b[0..] == b;
  }

  lemma EmitsLine(re: string, b: string, p: nat, out: string, j: nat)
    requires Emits(re, b, p, out) && |b| < BUFSIZE && Found(b[p..]) && j == Stop(b[p..])
    ensures Emits(re, b, p + j + 1, out + if Match(re, b[p..p + j]) then b[p..p + j + 1] else "")
  {
    hide Match, Output;
    var s := b[p..];
    OutputStep(re, s, j);
    assert s[..j] == b[p..p + j] && s[..j + 1] == b[p..p + j + 1] && s[j + 1..] == b[p + j + 1..];
  }

  /** One complete line, from `p` to the newline at `q`. */
  method OneLine(re: string, buf: array<char>, p: nat, q: nat) returns (out: string)
    requires p <= q < buf.Length && buf[q] == '\n'
    modifies buf
    ensures out == if Match(re, old(buf[p..q])) then old(buf[p..q + 1]) else ""
    ensures forall i :: 0 <= i < buf.Length && i != q ==> buf[i] == old(buf[i])
  {
    buf[q] := '\0';
    assert buf[p..q] == old(buf[p..q]);
    var matched := MatchLine(re, buf[p..q]);
    out := "";
    if matched {
      buf[q] := '\n';
      out := buf[p..q + 1];
      assert out == old(buf[p..q + 1]);
    }
  }

  /** The inner loop: the complete lines among the first `m` characters. */
  method Lines(re: string, buf: array<char>, m: nat) returns (p: nat, out: string)
    requires m < BUFSIZE == buf.Length
    modifies buf
    ensures p <= m && buf[p..m] == old(buf[p..m]) && !Found(buf[p..m])
    ensures Emits(re, old(buf[..m]), p, out)
  {
    hide Emits, Match, Stop;
    p, out := 0, "";
    ghost var b := buf[..m];
    EmitsNothing(re, b);
    assert b[0..] == b;
    var q := FindNewline(buf, p, m);
    while q < m
      invariant p <= q <= m && forall i :: p <= i < m ==> buf[i] == b[i]
      invariant if q < m then Found(buf[p..m]) && q - p == Stop(buf[p..m]) else !Found(buf[p..m])
      invariant Emits(re, b, p, out)
    {
      assert buf[p..m] == b[p..] && buf[p..q] == b[p..q] && buf[p..q + 1] == b[p..q + 1];
      EmitsLine(re, b, p, out, q - p);
      assert buf[p..m][q - p] == buf[q];
      var line := OneLine(re, buf, p, q);
      out := out + line;
      p := q + 1;
      q := FindNewline(buf, p, m);
    }
  }

  /** One line of output, whatever follows. */
  lemma OutputStep(re: string, s: string, j: nat)
    requires Found(s) && j == Stop(s) && |s| < BUFSIZE
    ensures
      var line := if Match(re, s[..j]) then s[..j + 1] else "";
      forall rest :: Output(re, s + rest) == line + Output(re, s[j + 1..] + rest)
  {
    hide Match, Output, Stop;
    forall rest
      ensures Output(re, s + rest) == (if Match(re, s[..j]) then s[..j + 1] else "") + Output(re, s[j + 1..] + rest)
    {
      SameStop(s, rest);
      StepWith(re, s, j, rest);
    }
  }

  lemma SameStop(s: string, rest: string)
    requires Found(s)
    ensures Found(s + rest) && Stop(s + rest) == Stop(s)
  {
    forall i | 0 <= i < Stop(s)
      ensures (s + rest)[i] != '\n' && (s + rest)[i] != '\0'
    {
      NothingBefore(s, i);
    }
    StopIs(s + rest, Stop(s));
  }

  lemma StepWith(re: string, s: string, j: nat, rest: string)
    requires j < |s| < BUFSIZE && Found(s + rest) && Stop(s + rest) == j
    ensures Output(re, s + rest) == (if Match(re, s[..j]) then s[..j + 1] else "") + Output(re, s[j + 1..] + rest)
  {
    hide Match, Found, Output, Stop;
    var t := s + rest;
    OutputOnce(re, t);
    assert t[..j] == s[..j] && t[..j + 1] == s[..j + 1] && t[j + 1..] == s[j + 1..] + rest;
  }

  lemma OutputOnce(re: string, t: string)
    requires Found(t) && Stop(t) < |t| && Stop(t) + 1 < BUFSIZE
    ensures
      var j := Stop(t);
      Output(re, t) == (if Match(re, t[..j]) then t[..j + 1] else "") + Output(re, t[j + 1..])
  {
    hide Match, Stop, Found;
  }

  function Min(a: nat, b: nat): (r: nat) {
    if a < b then a else b
  }

  /** How much the next read gives: as much as the kernel likes, but something,
      unless the file is at its end or nothing is asked for. */
  function ReadSize(wish: nat, room: nat, left: nat): (n: nat)
    ensures n <= room && n <= left && (n == 0 <==> room == 0 || left == 0)
  {
    Min(Min(if wish == 0 then 1 else wish, room), left)
  }

  lemma NoMore(re: string, s: string, m: nat)
    requires m <= |s| && !Found(s[..m]) && (m == |s| || m + 1 == BUFSIZE)
    ensures Output(re, s) == ""
  {
    var j := Stop(s);
    if j < m {
      forall i | 0 <= i < j
        ensures s[..m][i] != '\n' && s[..m][i] != '\0'
      {
        NothingBefore(s, i);
      }
      StopIs(s[..m], j);
    }
  }

  lemma EmitsRest(re: string, b: string, p: nat, out: string, rest: string)
    requires Emits(re, b, p, out)
    ensures Output(re, b + rest) == out + Output(re, b[p..] + rest)
  {
    hide Output;
  }

  lemma RoundDone(re: string, s: string, a: nat, b: nat, p: nat, out: string)
    requires a + p <= b <= |s| && Emits(re, s[a..b], p, out)
    ensures s[a..b][p..] == s[a + p..b] && Output(re, s[a..]) == out + Output(re, s[a + p..])
  {
    hide Output, Emits;
    EmitsRest(re, s[a..b], p, out, s[b..]);
    assert s[a..] == s[a..b] + s[b..] && s[a + p..] == s[a..b][p..] + s[b..];
  }

  lemma NothingFound()
    ensures !Found("")
  {
    assert Stop("") == 0;
  }

  /** read into the buffer from `m` on, and a NUL behind it. */
  method ReadInto(buf: array<char>, m: nat, bytes: string)
    requires m + |bytes| < buf.Length
    modifies buf
    ensures buf[..m + |bytes|] == old(buf[..m]) + bytes
  {
    for i := 0 to |bytes|
      invariant buf[..m + i] == old(buf[..m]) + bytes[..i]
    {
      buf[m + i] := bytes[i];
    }
    buf[m + |bytes|] := '\0';
  }

  /** memmove of the rest of the buffer to its front. */
  method Memmove(buf: array<char>, p: nat, m: nat)
    requires p <= m <= buf.Length
    modifies buf
    ensures buf[..m - p] == old(buf[p..m])
  {
    for i := 0 to m - p
      invariant forall k :: 0 <= k < i ==> buf[k] == old(buf[p + k])
      invariant forall k :: p + i <= k < buf.Length ==> buf[k] == old(buf[k])
    {
      buf[i] := buf[p + i];
    }
  }

  /** One round of the outer loop, after a read of `n` bytes. */
  method Round(re: string, input: string, buf: array<char>, m: nat, pos: nat, n: nat) returns (m': nat, out: string)
    requires buf.Length == BUFSIZE && m + n < BUFSIZE && m <= pos && pos + n <= |input|
    requires buf[..m] == input[pos - m..pos]
    modifies buf
    ensures m' <= m + n && buf[..m'] == input[pos + n - m'..pos + n] && !Found(buf[..m'])
    ensures Output(re, input[pos - m..]) == out + Output(re, input[pos + n - m'..])
  {
    hide Output, Found, Emits;
    ReadInto(buf, m, input[pos..pos + n]);
    Meets(input, pos - m, pos, pos + n);
    ghost var b := buf[..m + n];
    var p;
    p, out := Lines(re, buf, m + n);
    assert buf[p..m + n] == b[p..];
    RoundDone(re, input, pos - m, pos + n, p, out);
    Memmove(buf, p, m + n);
    m' := m + n - p;
  }

  lemma Meets(s: string, a: nat, b: nat, c: nat)
    requires a <= b <= c <= |s|
    ensures s[a..b] + s[b..c] == s[a..c]
  {}

  /** grep: the matching lines of a file, however the reads are cut. `wishes` are
      the sizes that the kernel would have them. */
  method GrepFile(re: string, input: string, wishes: seq<nat>, buf: array<char>) returns (out: string)
    requires buf.Length == BUFSIZE
    modifies buf
    ensures out == Output(re, input)
  {
    hide Output, Found;
    out := "";
    var m: nat, pos: nat, k: nat := 0, 0, 0;
    assert input[0..] == input && buf[..0] == "";
    NothingFound();
    while true
      invariant m < BUFSIZE && m <= pos <= |input| && buf[..m] == input[pos - m..pos] && !Found(buf[..m])
      invariant Output(re, input) == out + Output(re, input[pos - m..])
      decreases |input| - pos
    {
      var n := ReadSize(if k < |wishes| then wishes[k] else BUFSIZE, BUFSIZE - m - 1, |input| - pos);
      k := k + 1;
      if n == 0 {
        assert input[pos - m..][..m] == input[pos - m..pos];
        NoMore(re, input[pos - m..], m);
        break;
      }
      var more;
      m, more := Round(re, input, buf, m, pos, n);
      pos := pos + n;
      out := out + more;
    }
  }

  // ----- Which lines are printed -----

  /** Where the first newline is, or the length. */
  function LineEnd(s: string): (j: nat)
    ensures j <= |s| && (j < |s| ==> s[j] == '\n')
  {
    if s == "" || s[0] == '\n' then 0 else 1 + LineEnd(s[1..])
  }

  /** The matching complete lines of a text, of whatever length. */
  function MatchingLines(re: string, s: string): (out: string)
    decreases |s|
  {
    var j := LineEnd(s);
    if j == |s| then ""
    else (if Match(re, s[..j]) then s[..j + 1] else "") + MatchingLines(re, s[j + 1..])
  }

  /** A complete line of the text, with its newline at `b`. */
  predicate LineAt(s: string, a: nat, b: nat) {
    a <= b < |s| && (a == 0 || s[a - 1] == '\n') && s[b] == '\n' && '\n' !in s[a..b]
  }

  /** A line that, with its newline, fits in the buffer; and no NUL hides the newline. */
  predicate Taken(line: string) {
    |line| < BUFSIZE && '\0' !in line
  }

  predicate MatchAt(re: string, s: string, a: nat, b: nat) {
    LineAt(s, a, b) && Match(re, s[a..b])
  }

  predicate UntakenAt(s: string, a: nat, b: nat) {
    LineAt(s, a, b) && !Taken(s[a..b + 1])
  }

  ghost predicate SomeMatch(re: string, s: string) {
    exists a: nat, b: nat :: MatchAt(re, s, a, b)
  }

  /** A line matches that comes at or after one that is not taken. */
  ghost predicate SomeMissed(re: string, s: string) {
    exists a0: nat, b0: nat, a: nat, b: nat :: UntakenAt(s, a0, b0) && a0 <= a && MatchAt(re, s, a, b)
  }

  lemma {:induction false} NoNewlineBefore(s: string)
    ensures '\n' !in s[..LineEnd(s)]
  {
    if s != "" && s[0] != '\n' {
      NoNewlineBefore(s[1..]);
      assert s[..LineEnd(s)] == [s[0]] + s[1..][..LineEnd(s[1..])];
    }
  }

  /** The first line is the one that strchr finds, if it is taken. */
  lemma FirstLine(s: string)
    ensures LineEnd(s) < |s| ==> LineAt(s, 0, LineEnd(s))
    ensures Found(s) && Stop(s) + 1 < BUFSIZE <==> LineEnd(s) < |s| && Taken(s[..LineEnd(s) + 1])
    ensures Found(s) ==> Stop(s) == LineEnd(s)
  {
    NoNewlineBefore(s);
    var j, e := LineEnd(s), Stop(s);
    forall i | 0 <= i < e
      ensures s[i] != '\n' && s[i] != '\0'
    {
      NothingBefore(s, i);
    }
    forall i | 0 <= i < j
      ensures s[i] != '\n'
    {
      assert s[i] == s[..j][i];
    }
    assert e <= j;
    assert forall i :: 0 <= i <= j < |s| ==> s[..j + 1][i] == s[i];
  }

  /** The lines of what follows a newline are lines of the text. */
  lemma Shift(s: string, k: nat, a: nat, b: nat)
    requires 0 < k <= |s| && s[k - 1] == '\n'
    ensures LineAt(s[k..], a, b) <==> LineAt(s, a + k, b + k)
    ensures LineAt(s[k..], a, b) ==> s[k..][a..b] == s[a + k..b + k] && s[k..][a..b + 1] == s[a + k..b + k + 1]
  {
    if a <= b && b + k < |s| {
      assert s[k..][a..b] == s[a + k..b + k];
    }
  }

  /** A line other than the first one lies behind it. */
  lemma Behind(s: string, a: nat, b: nat)
    requires LineAt(s, a, b)
    ensures LineEnd(s) < |s| && a <= b && if a == 0 then b == LineEnd(s) else LineEnd(s) < a
  {
    var j := LineEnd(s);
    NoNewlineBefore(s);
    assert forall i :: 0 <= i < j ==> s[i] == s[..j][i];
    assert forall i :: a <= i < b ==> s[i] == s[a..b][i - a];
  }

  lemma ShiftMatch(re: string, s: string, k: nat, a: nat, b: nat)
    requires 0 < k <= |s| && s[k - 1] == '\n'
    ensures MatchAt(re, s[k..], a, b) <==> MatchAt(re, s, a + k, b + k)
  {
    hide Match, LineAt;
    Shift(s, k, a, b);
  }

  lemma ShiftUntaken(s: string, k: nat, a: nat, b: nat)
    requires 0 < k <= |s| && s[k - 1] == '\n'
    ensures UntakenAt(s[k..], a, b) <==> UntakenAt(s, a + k, b + k)
  {
    hide Taken, LineAt;
    Shift(s, k, a, b);
  }

  /** The first line matches, or a later one. */
  lemma MatchIsWhere(re: string, s: string, a: nat, b: nat)
    requires MatchAt(re, s, a, b)
    ensures LineEnd(s) < |s| && a <= b && (if a == 0 then Match(re, s[..LineEnd(s)]) else LineEnd(s) < a)
  {
    hide Match, LineAt, LineEnd;
    Behind(s, a, b);
    assert a == 0 ==> s[a..b] == s[..b];
  }

  lemma UntakenIsWhere(s: string, a: nat, b: nat)
    requires UntakenAt(s, a, b)
    ensures LineEnd(s) < |s| && a <= b && (if a == 0 then !Taken(s[..LineEnd(s) + 1]) else LineEnd(s) < a)
  {
    hide Taken, LineAt, LineEnd;
    Behind(s, a, b);
    assert a == 0 ==> s[a..b + 1] == s[..b + 1];
  }

  lemma MatchInRest(re: string, s: string)
    requires LineEnd(s) < |s|
    ensures SomeMatch(re, s) <==> Match(re, s[..LineEnd(s)]) || SomeMatch(re, s[LineEnd(s) + 1..])
  {
    hide Match, MatchAt, LineEnd;
    var k := LineEnd(s) + 1;
    if a: nat, b: nat :| MatchAt(re, s, a, b) {
      MatchIsWhere(re, s, a, b);
      if a > 0 {
        ShiftMatch(re, s, k, a - k, b - k);
      }
    }
    if Match(re, s[..k - 1]) {
      FirstMatches(re, s);
    }
    if a: nat, b: nat :| MatchAt(re, s[k..], a, b) {
      ShiftMatch(re, s, k, a, b);
    }
  }

  lemma FirstMatches(re: string, s: string)
    requires LineEnd(s) < |s| && Match(re, s[..LineEnd(s)])
    ensures MatchAt(re, s, 0, LineEnd(s))
  {
    hide Match, LineAt, LineEnd;
    FirstLine(s);
    assert s[0..LineEnd(s)] == s[..LineEnd(s)];
  }

  /** A text has matching lines to print if and only if one of its lines matches. */
  lemma {:induction false} NothingToPrint(re: string, s: string)
    ensures MatchingLines(re, s) != "" <==> SomeMatch(re, s)
    decreases |s|
  {
    hide Match, SomeMatch;
    if LineEnd(s) < |s| {
      NothingToPrint(re, s[LineEnd(s) + 1..]);
      MatchInRest(re, s);
    } else {
      NoLine(re, s);
    }
  }

  lemma NoLine(re: string, s: string)
    requires LineEnd(s) == |s|
    ensures !SomeMatch(re, s) && !SomeMissed(re, s)
  {
    hide Match, LineAt;
    if a: nat, b: nat :| MatchAt(re, s, a, b) {
      Behind(s, a, b);
    }
  }

  /** grep prints every matching complete line of a file if and only if none of them
      lies at or after a line that does not fit in its buffer or holds a NUL. */
  lemma {:induction false} PrintsAllExactlyWhen(re: string, s: string)
    ensures Output(re, s) == MatchingLines(re, s) <==> !SomeMissed(re, s)
    decreases |s|
  {
    hide Match, Taken, Output, MatchingLines, SomeMatch, SomeMissed, LineEnd;
    if LineEnd(s) == |s| {
      NoLine(re, s);
      PrintsNothing(re, s);
    } else if Taken(s[..LineEnd(s) + 1]) {
      var t := s[LineEnd(s) + 1..];
      PrintsAllExactlyWhen(re, t);
      MissedInRest(re, s);
      PrintsLine(re, s);
      Cancel(if Match(re, s[..LineEnd(s)]) then s[..LineEnd(s) + 1] else "", Output(re, t), MatchingLines(re, t));
    } else {
      NothingToPrint(re, s);
      AllMissed(re, s);
      PrintsNothing(re, s);
    }
  }

  lemma PrintsNothing(re: string, s: string)
    requires LineEnd(s) < |s| ==> !Taken(s[..LineEnd(s) + 1])
    ensures Output(re, s) == "" && (LineEnd(s) == |s| ==> MatchingLines(re, s) == "")
  {
    hide Match, Taken, Found, LineAt, LineEnd, Stop;
    FirstLine(s);
  }

  lemma PrintsLine(re: string, s: string)
    requires LineEnd(s) < |s| && Taken(s[..LineEnd(s) + 1])
    ensures
      var line := if Match(re, s[..LineEnd(s)]) then s[..LineEnd(s) + 1] else "";
      var rest := s[LineEnd(s) + 1..];
      Output(re, s) == line + Output(re, rest) && MatchingLines(re, s) == line + MatchingLines(re, rest)
  {
    hide Match, Taken, Found, LineAt, LineEnd, Stop;
    FirstLine(s);
  }

  lemma Cancel(x: string, u: string, v: string)
    ensures x + u == x + v <==> u == v
  {
    assert (x + u)[|x|..] == u && (x + v)[|x|..] == v;
  }

  /** Behind a first line that is not taken, every match is missed. */
  lemma AllMissed(re: string, s: string)
    requires LineEnd(s) < |s| && !Taken(s[..LineEnd(s) + 1])
    ensures SomeMissed(re, s) <==> SomeMatch(re, s)
  {
    hide Match, Taken, LineAt, LineEnd;
    FirstLine(s);
    assert s[0..LineEnd(s) + 1] == s[..LineEnd(s) + 1];
    assert UntakenAt(s, 0, LineEnd(s));
  }

  /** Past a line that is taken, the same lines are missed. */
  lemma MissedInRest(re: string, s: string)
    requires LineEnd(s) < |s| && Taken(s[..LineEnd(s) + 1])
    ensures SomeMissed(re, s) <==> SomeMissed(re, s[LineEnd(s) + 1..])
  {
    hide Taken, MatchAt, UntakenAt, LineEnd;
    var k := LineEnd(s) + 1;
    var t := s[k..];
    if a0: nat, b0: nat, a: nat, b: nat :| UntakenAt(s, a0, b0) && a0 <= a && MatchAt(re, s, a, b) {
      UntakenIsWhere(s, a0, b0);
      MatchIsWhere(re, s, a, b);
      ShiftUntaken(s, k, a0 - k, b0 - k);
      ShiftMatch(re, s, k, a - k, b - k);
    }
    if a0: nat, b0: nat, a: nat, b: nat :| UntakenAt(t, a0, b0) && a0 <= a && MatchAt(re, t, a, b) {
      ShiftUntaken(s, k, a0, b0);
      ShiftMatch(re, s, k, a, b);
    }
  }

  /** In particular when every complete line, with its newline, has at most 1023
      characters and no NUL. */
  lemma PrintsAllOfShortLines(re: string, s: string)
    requires forall a: nat, b: nat :: LineAt(s, a, b) ==> b + 1 - a <= 1023 && '\0' !in s[a..b]
    ensures Output(re, s) == MatchingLines(re, s)
  {
    hide Match, LineAt;
    PrintsAllExactlyWhen(re, s);
    if a0: nat, b0: nat, a: nat, b: nat :| UntakenAt(s, a0, b0) && a0 <= a && MatchAt(re, s, a, b) {
      assert LineAt(s, a0, b0);
      WithNewline(s, a0, b0);
    }
  }

  lemma WithNewline(s: string, a: nat, b: nat)
    requires LineAt(s, a, b)
    ensures a <= b < |s| && ('\0' in s[a..b + 1] <==> '\0' in s[a..b])
  {
    assert s[a..b + 1] == s[a..b] + [s[b]];
  }

  /** A line of 1023 characters does not fit, and the matching line behind it is lost. */
  lemma LongLineEndsOutput()
    ensures
      var s := seq(1023, _ => 'a') + "\n" + "b\n";
      Output("b", s) == "" && MatchingLines("b", s) == "b\n"
  {
    hide Match;
    var long := seq(1023, _ => 'a');
    var s := long + "\n" + "b\n";
    assert forall i :: 0 <= i < 1023 ==> s[i] == 'a';
    StopIs(s, 1023);
    LineEndIs(s, 1023);
    assert s[..1023] == long && s[1024..] == "b\n";
    NoB(long);
    JustB();
  }

  lemma {:induction false} LineEndIs(s: string, j: nat)
    requires j <= |s| && (forall i :: 0 <= i < j ==> s[i] != '\n') && (j < |s| ==> s[j] == '\n')
    ensures LineEnd(s) == j
  {
    if j > 0 {
      LineEndIs(s[1..], j - 1);
    }
  }

  lemma {:induction false} NoB(text: string)
    requires forall i :: 0 <= i < |text| ==> text[i] == 'a'
    ensures !Match("b", text)
    decreases |text|
  {
    if text != "" {
      NoB(text[1..]);
    }
  }

  lemma JustB()
    ensures MatchingLines("b", "b\n") == "b\n"
  {
    LineEndIs("b\n", 1);
    assert "b\n"[..1] == "b" && "b\n"[..2] == "b\n" && "b\n"[2..] == "";
    assert "b"[1..] == "";
    assert Match("b", "b");
  }
}
