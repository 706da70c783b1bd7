/**
 The lexer (lib/Lex/Lexer.cpp): what one scan step does to the cursor, the
 token stream that repeated steps make, and the peek cache in front of it.
 */
module Lexer {
  import opened TextLines
  import opened ExprSyntax
  import opened Literals

  datatype Kind = Eof | Identifier | SystemName | Numeral(base: LitKind) | Str | LineMarker | Punctuation | Unknown

  /** A token spells the bytes from `begin` up to `end`. */
  datatype Lexeme = Lexeme(kind: Kind, begin: nat, end: nat)

  /** The scanner's cursor, and whether nothing but white space and comments came before it on its line. */
  datatype Mark = Mark(cur: nat, lineStart: bool)

  const START: Mark := Mark(0, true)

  // ----- White space and comments -----

  predicate IsSpace(c: char) {
    c == ' ' || c == '\t' || c == '\r' || c == '\n'
  }

  predicate Pair(buf: string, p: nat, c: char, n: char) {
    p + 1 < |buf| && buf[p] == c && buf[p + 1] == n
  }

  /** The next end of a block comment, or the last byte, or the end. */
  function BlockStop(buf: string, p: nat): (q: nat)
    requires p <= |buf|
    ensures p <= q <= |buf|
    ensures q + 1 < |buf| ==> Pair(buf, q, '*', '/')
    ensures forall i :: p <= i < q ==> !Pair(buf, i, '*', '/')
    decreases |buf| - p
  {
    if p + 1 < |buf| && !Pair(buf, p, '*', '/') then BlockStop(buf, p + 1) else p
  }

  predicate NewlineIn(buf: string, p: nat, q: nat)
    requires p <= q <= |buf|
  {
    exists i :: p <= i < q && buf[i] == '\n'
  }

  function BlockEnd(buf: string, p: nat): (q: nat)
    requires p <= |buf|
    ensures p <= q <= |buf|
  {
    if BlockStop(buf, p) + 1 < |buf| then BlockStop(buf, p) + 2 else |buf|
  }

  /** One past the white-space byte or comment at `p`; `p` itself if there is none. */
  function PieceEnd(buf: string, p: nat): (q: nat)
    requires p <= |buf|
    ensures p <= q <= |buf|
  {
    if p < |buf| && IsSpace(buf[p]) then p + 1
    else if Pair(buf, p, '/', '/') then LineEnd(buf, p + 2)
    else if Pair(buf, p, '/', '*') then BlockEnd(buf, p + 2)
    else p
  }

  /** Whether the piece at `p` starts a new line. */
  predicate PieceBreaks(buf: string, p: nat)
    requires p <= |buf|
  {
    if p < |buf| && IsSpace(buf[p]) then buf[p] == '\n'
    else Pair(buf, p, '/', '*') && NewlineIn(buf, p + 2, BlockStop(buf, p + 2))
  }

  /** The bytes from `p` up to `q` are white space and comments. */
  predicate Trivia(buf: string, p: nat, q: nat)
    requires p <= |buf|
    decreases |buf| - p
  {
    p == q || (p < PieceEnd(buf, p) <= q && Trivia(buf, PieceEnd(buf, p), q))
  }

  function Skip(buf: string, m: Mark): (r: Mark)
    requires m.cur <= |buf|
    ensures m.cur <= r.cur <= |buf|
    ensures PieceEnd(buf, r.cur) == r.cur
    decreases |buf| - m.cur
  {
    if PieceEnd(buf, m.cur) == m.cur then m
    else Skip(buf, Mark(PieceEnd(buf, m.cur), m.lineStart || PieceBreaks(buf, m.cur)))
  }

  lemma {:induction false} SkipsTrivia(buf: string, m: Mark)
    requires m.cur <= |buf|
    ensures Trivia(buf, m.cur, Skip(buf, m).cur)
    decreases |buf| - m.cur
  {
    if PieceEnd(buf, m.cur) != m.cur {
      SkipsTrivia(buf, Mark(PieceEnd(buf, m.cur), m.lineStart || PieceBreaks(buf, m.cur)));
    }
  }

  // ----- Tokens -----

  predicate IsLetter(c: char) {
    'A' <= c <= 'Z' || 'a' <= c <= 'z'
  }

  predicate IsBody(c: char) {
    IsLetter(c) || IsDec(c) || c == '_'
  }

  function BodyEnd(buf: string, p: nat): (q: nat)
    requires p <= |buf|
    ensures p <= q <= |buf|
    ensures forall i :: p <= i < q ==> IsBody(buf[i])
    ensures q < |buf| ==> !IsBody(buf[q])
    decreases |buf| - p
  {
    if p < |buf| && IsBody(buf[p]) then BodyEnd(buf, p + 1) else p
  }

  /** One past a splice marker `%NAME%` at `p`; `p` itself if there is none. */
  function SpliceEnd(buf: string, p: nat): (q: nat)
    requires p <= |buf|
    ensures p <= q <= |buf|
  {
    if p + 1 < |buf| && buf[p] == '%' && (IsLetter(buf[p + 1]) || buf[p + 1] == '_') then
      var e := BodyEnd(buf, p + 1);
      if e < |buf| && buf[e] == '%' then e + 1 else p
    else p
  }

  /** A word is as long as it can be: neither a body byte nor a splice marker follows it. */
  function WordEnd(buf: string, p: nat): (q: nat)
    requires p <= |buf|
    ensures p <= q <= |buf|
    ensures q < |buf| ==> !IsBody(buf[q])
    ensures SpliceEnd(buf, q) == q
    decreases |buf| - p
  {
    if p < |buf| && IsBody(buf[p]) then WordEnd(buf, p + 1)
    else if SpliceEnd(buf, p) > p then WordEnd(buf, SpliceEnd(buf, p))
    else p
  }

  /** Scans the rest of a string literal. A newline ends it unfinished; a backslash takes the next byte along. */
  function StringTail(buf: string, p: nat): (r: (bool, nat))
    requires p <= |buf|
    ensures p <= r.1 <= |buf|
    decreases |buf| - p
  {
    if p == |buf| || buf[p] == '\n' then (false, p)
    else if buf[p] == '"' then (true, p + 1)
    else if buf[p] == '\\' && p + 1 < |buf| then StringTail(buf, p + 2)
    else StringTail(buf, p + 1)
  }

  predicate TwoChar(c: char, n: char) {
    || (c == ':' && n == '=') || (c == '.' && n == '{') || (c == '=' && n == '=') || (c == '!' && n == '=')
    || (c == '<' && (n == '=' || n == '<')) || (c == '>' && (n == '=' || n == '>'))
    || (c == '&' && n == '&') || (c == '|' && n == '|') || (c == '+' && n == '+') || (c == '-' && n == '-')
  }

  predicate OneChar(c: char) {
    c in "(){}[],;:.=!<>&|^~+-*/%?@#'"
  }

  function BlanksEnd(buf: string, p: nat): (q: nat)
    requires p <= |buf|
    ensures p <= q <= |buf|
    decreases |buf| - p
  {
    if p < |buf| && (buf[p] == ' ' || buf[p] == '\t') then BlanksEnd(buf, p + 1) else p
  }

  /** A `#line` marker: only first on its line, with a blank and a number after the word. */
  predicate AtMarker(buf: string, m: Mark)
    requires m.cur < |buf|
  {
    && m.lineStart && m.cur + 5 < |buf| && buf[m.cur..m.cur + 5] == "#line"
    && (buf[m.cur + 5] == ' ' || buf[m.cur + 5] == '\t')
    && BlanksEnd(buf, m.cur + 5) < |buf| && IsDec(buf[BlanksEnd(buf, m.cur + 5)])
  }

  function NumberEnd(buf: string, p: nat): (r: (Kind, nat))
    requires p < |buf| && IsDec(buf[p])
    ensures p < r.1 <= |buf|
  {
    ScannedIsRead(buf, p);
    var n := ScanNumber(buf, p);
    (Kind.Numeral(n.kind), n.end)
  }

  function PunctuationEnd(buf: string, p: nat): (r: (Kind, nat))
    requires p < |buf|
    ensures p < r.1 <= |buf|
  {
    if p + 1 < |buf| && TwoChar(buf[p], buf[p + 1]) then (Punctuation, p + 2)
    else if OneChar(buf[p]) then (Punctuation, p + 1)
    else (Unknown, p + 1)
  }

  /** Kind and end of the token at the cursor. */
  function TokenEnd(buf: string, m: Mark): (r: (Kind, nat))
    requires m.cur < |buf|
    ensures m.cur < r.1 <= |buf|
    ensures !r.0.Eof?
  {
    var p := m.cur;
    var c := buf[p];
    if AtMarker(buf, m) then (LineMarker, LineEnd(buf, p))
    else if IsLetter(c) then (Identifier, WordEnd(buf, p + 1))
    else if c == '_' then (SystemName, WordEnd(buf, p + 1))
    else if IsDec(c) then NumberEnd(buf, p)
    else if c == '"' then (if StringTail(buf, p + 1).0 then Str else Unknown, StringTail(buf, p + 1).1)
    else PunctuationEnd(buf, p)
  }

  /** One scan step: the token and the cursor after it. */
  function ScanStep(buf: string, m: Mark): (r: (Lexeme, Mark))
    requires m.cur <= |buf|
    ensures m.cur <= r.1.cur <= |buf|
    ensures m.cur <= r.0.begin <= r.0.end == r.1.cur
    ensures r.0.kind.Eof? <==> r.0.begin == |buf|
    ensures !r.0.kind.Eof? ==> r.0.begin < r.0.end
  {
    var s := Skip(buf, m);
    if s.cur == |buf| then (Lexeme(Eof, |buf|, |buf|), s)
    else
      var t := TokenEnd(buf, s);
      (Lexeme(t.0, s.cur, t.1), Mark(t.1, false))
  }

  // ----- The stream -----

  type Stepper = Mark -> (Lexeme, Mark)

  /** The scan step as a function of the cursor alone. */
  function Steps(buf: string): Stepper {
    (m: Mark) => if m.cur <= |buf| then ScanStep(buf, m) else (Lexeme(Eof, |buf|, |buf|), m)
  }

  /** The cursor after `k` steps. */
  function MarkAt(f: Stepper, k: nat): Mark {
    if k == 0 then START else f(MarkAt(f, k - 1)).1
  }

  function TokenAt(f: Stepper, k: nat): Lexeme {
    f(MarkAt(f, k)).0
  }

  /** What is known of a token scanned from `m` on. */
  ghost predicate Scanned(buf: string, m: Mark, t: Lexeme, after: Mark) {
    && m.cur <= t.begin <= t.end == after.cur <= |buf|
    && Trivia(buf, m.cur, t.begin)
    && (t.kind.Eof? <==> t.begin == |buf|)
    && (!t.kind.Eof? ==> t.begin < t.end)
  }

  lemma {:induction false} StepScans(buf: string, m: Mark)
    requires m.cur <= |buf|
    ensures Scanned(buf, m, Steps(buf)(m).0, Steps(buf)(m).1)
  {
    SkipsTrivia(buf, m);
  }

  /** Main result: every token starts at or after the end of the one before, with only white space and comments between. */
  lemma {:induction false} GapsAreTrivia(buf: string, k: nat)
    ensures MarkAt(Steps(buf), k).cur <= |buf|
    ensures Scanned(buf, MarkAt(Steps(buf), k), TokenAt(Steps(buf), k), MarkAt(Steps(buf), k + 1))
    decreases k
  {
    if k > 0 {
      GapsAreTrivia(buf, k - 1);
    }
    StepScans(buf, MarkAt(Steps(buf), k));
  }

  /** Tokens never lie before the cursor, and all but end-of-file tokens take at least a byte. */
  ghost predicate Forward(f: Stepper, size: nat) {
    forall m: Mark {:trigger f(m)} :: m.cur <= size ==>
      && m.cur <= f(m).0.begin <= f(m).0.end == f(m).1.cur <= size
      && (f(m).0.kind.Eof? <==> f(m).0.begin == size)
      && (!f(m).0.kind.Eof? ==> f(m).0.begin < f(m).0.end)
  }

  lemma {:induction false} StepsForward(buf: string)
    ensures Forward(Steps(buf), |buf|)
  {
  }

  lemma {:induction false} EndsAscend(f: Stepper, size: nat, j: nat, k: nat)
    requires Forward(f, size) && j <= k
    ensures MarkAt(f, j).cur <= MarkAt(f, k).cur <= size
    decreases k
  {
    if k > 0 {
      EndsAscend(f, size, if j < k then j else k - 1, k - 1);
    }
  }

  /** Tokens are ordered and disjoint. */
  lemma {:induction false} TokensAreDisjoint(f: Stepper, size: nat, j: nat, k: nat)
    requires Forward(f, size) && j < k
    ensures TokenAt(f, j).end <= TokenAt(f, k).begin <= TokenAt(f, k).end <= size
  {
    EndsAscend(f, size, j, j);
    EndsAscend(f, size, j + 1, k);
  }

  /** After the end of the buffer there is nothing but end-of-file tokens. */
  lemma {:induction false} EofStays(f: Stepper, size: nat, j: nat, k: nat)
    requires Forward(f, size) && TokenAt(f, j).kind.Eof? && j <= k
    ensures TokenAt(f, k).kind.Eof?
    decreases k
  {
    if j < k {
      EofStays(f, size, j, k - 1);
      EndsAscend(f, size, k - 1, k - 1);
      EndsAscend(f, size, k - 1, k);
    }
  }

  /** The end comes within as many steps as there are bytes. */
  lemma {:induction false} StreamEnds(f: Stepper, size: nat, k: nat)
    requires Forward(f, size)
    ensures MarkAt(f, k).cur >= k || TokenAt(f, k).kind.Eof?
    ensures k >= size ==> TokenAt(f, k).kind.Eof?
    decreases k
  {
    EndsAscend(f, size, k, k);
    if k > 0 {
      EndsAscend(f, size, k - 1, k - 1);
      StreamEnds(f, size, k - 1);
      if TokenAt(f, k - 1).kind.Eof? {
        EofStays(f, size, k - 1, k);
      }
    }
  }
}
