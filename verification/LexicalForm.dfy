/**
 What the lexer's pieces look like, said of the bytes alone: white space and
 comments between tokens, string literals, and operators.
 */
module LexicalForm {
  import opened Lexer

  predicate StartsAt(buf: string, p: nat, word: string) {
    p + |word| <= |buf| && buf[p..p + |word|] == word
  }

  // ----- White space and comments -----

  /** One of the four white-space bytes. */
  predicate IsBlank(buf: string, p: nat, q: nat) {
    q == p + 1 <= |buf| && buf[p] in " \t\r\n"
  }

  const TO_LINE_END: string := ['/', '/']
  const OPEN: string := ['/', '*']
  const CLOSE: string := ['*', '/']

  /** Two slashes and everything up to the newline or the end of the buffer. */
  ghost predicate IsLineComment(buf: string, p: nat, q: nat) {
    && StartsAt(buf, p, TO_LINE_END) && p + 2 <= q <= |buf|
    && (q == |buf| || buf[q] == '\n')
    && forall i :: p + 2 <= i < q ==> buf[i] != '\n'
  }

  /** An opening mark and everything up to and including the first closing mark after it, or up to the end if there is none. */
  ghost predicate IsBlockComment(buf: string, p: nat, q: nat) {
    && StartsAt(buf, p, OPEN) && p + 2 <= q <= |buf|
    && (|| (p + 4 <= q && StartsAt(buf, q - 2, CLOSE) && forall i :: p + 2 <= i < q - 2 ==> !StartsAt(buf, i, CLOSE))
        || (q == |buf| && forall i :: p + 2 <= i < q ==> !StartsAt(buf, i, CLOSE)))
  }

  ghost predicate IsPiece(buf: string, p: nat, q: nat) {
    IsBlank(buf, p, q) || IsLineComment(buf, p, q) || IsBlockComment(buf, p, q)
  }

  lemma PairIsWord(buf: string, p: nat, word: string)
    requires |word| == 2
    ensures Pair(buf, p, word[0], word[1]) <==> StartsAt(buf, p, word)
  {
    if Pair(buf, p, word[0], word[1]) {
      assert buf[p..p + 2] == word;
    }
    if StartsAt(buf, p, word) {
      assert buf[p] == buf[p..p + 2][0] && buf[p + 1] == buf[p..p + 2][1];
    }
  }

  lemma OneForm(buf: string, p: nat)
    ensures !(StartsAt(buf, p, TO_LINE_END) && StartsAt(buf, p, OPEN))
    ensures p < |buf| && buf[p] in " \t\r\n" ==> !StartsAt(buf, p, TO_LINE_END) && !StartsAt(buf, p, OPEN)
  {
    PairIsWord(buf, p, TO_LINE_END);
    PairIsWord(buf, p, OPEN);
  }

  lemma BlockPiece(buf: string, p: nat, q: nat)
    requires StartsAt(buf, p, OPEN) && q <= |buf|
    ensures IsBlockComment(buf, p, q) <==> q == BlockEnd(buf, p + 2)
  {
    var stop := BlockStop(buf, p + 2);
    forall i: nat ensures Pair(buf, i, '*', '/') <==> StartsAt(buf, i, CLOSE) {
      PairIsWord(buf, i, CLOSE);
    }
    if stop + 1 < |buf| {
      assert Pair(buf, stop, '*', '/');
    }
  }

  /** Main result: what the lexer skips at a place is exactly a white-space byte or a comment, and all of it. */
  lemma PieceIff(buf: string, p: nat, q: nat)
    requires p <= |buf|
    ensures IsPiece(buf, p, q) <==> p < q && q == PieceEnd(buf, p)
  {
    PairIsWord(buf, p, TO_LINE_END);
    PairIsWord(buf, p, OPEN);
    OneForm(buf, p);
    if StartsAt(buf, p, OPEN) && q <= |buf| {
      BlockPiece(buf, p, q);
    }
  }

  /** The bytes from `p` up to `q` are white space and comments, one after another. */
  ghost predicate IsGap(buf: string, p: nat, q: nat)
    decreases |buf| - p
  {
    p == q || exists m :: p < m <= |buf| && IsPiece(buf, p, m) && IsGap(buf, m, q)
  }

  lemma {:induction false} GapIff(buf: string, p: nat, q: nat)
    requires p <= |buf|
    ensures IsGap(buf, p, q) <==> Trivia(buf, p, q)
    decreases |buf| - p
  {
    var m := PieceEnd(buf, p);
    PieceIff(buf, p, m);
    if m > p {
      GapIff(buf, m, q);
    }
    if p != q && IsGap(buf, p, q) {
      var n: nat :| p < n <= |buf| && IsPiece(buf, p, n) && IsGap(buf, n, q);
      PieceIff(buf, p, n);
      GapReaches(buf, n, q);
    }
  }

  lemma {:induction false} GapReaches(buf: string, p: nat, q: nat)
    requires IsGap(buf, p, q)
    ensures p <= q
    decreases |buf| - p
  {
    if p != q {
      var n: nat :| p < n <= |buf| && IsPiece(buf, p, n) && IsGap(buf, n, q);
      GapReaches(buf, n, q);
    }
  }

  /** Main result: before every token lie white space and comments, and the token itself starts with neither. */
  lemma {:induction false} TokenAfterGap(buf: string, k: nat, q: nat)
    ensures
      var m, t := MarkAt(Steps(buf), k), TokenAt(Steps(buf), k);
      m.cur <= t.begin <= |buf| && IsGap(buf, m.cur, t.begin) && !IsPiece(buf, t.begin, q)
  {
    GapsAreTrivia(buf, k);
    var m, t := MarkAt(Steps(buf), k), TokenAt(Steps(buf), k);
    GapIff(buf, m.cur, t.begin);
    PieceIff(buf, t.begin, q);
    assert t.begin == Skip(buf, m).cur;
  }

  // ----- Operators -----

  const TWO_BYTES: seq<string> := [":=", ".{", "==", "!=", "<=", "<<", ">=", ">>", "&&", "||", "++", "--"]

  const ONE_BYTE: seq<string> := [
    "(", ")", "{", "}", "[", "]", ",", ";", ":", ".", "=", "!", "<", ">", "&", "|", "^", "~",
    "+", "-", "*", "/", "%", "?", "@", "#", "'"
  ]

  lemma TwoBytesIff(c: char, n: char)
    ensures TwoChar(c, n) <==> [c, n] in TWO_BYTES
  {
    if TwoChar(c, n) {
      if c == ':' { assert [c, n] == TWO_BYTES[0]; }
      else if c == '.' { assert [c, n] == TWO_BYTES[1]; }
      else if c == '=' { assert [c, n] == TWO_BYTES[2]; }
      else if c == '!' { assert [c, n] == TWO_BYTES[3]; }
      else if c == '<' && n == '=' { assert [c, n] == TWO_BYTES[4]; }
      else if c == '<' { assert [c, n] == TWO_BYTES[5]; }
      else if c == '>' && n == '=' { assert [c, n] == TWO_BYTES[6]; }
      else if c == '>' { assert [c, n] == TWO_BYTES[7]; }
      else if c == '&' { assert [c, n] == TWO_BYTES[8]; }
      else if c == '|' { assert [c, n] == TWO_BYTES[9]; }
      else if c == '+' { assert [c, n] == TWO_BYTES[10]; }
      else { assert [c, n] == TWO_BYTES[11]; }
    }
    if [c, n] in TWO_BYTES {
      var i :| 0 <= i < |TWO_BYTES| && TWO_BYTES[i] == [c, n];
      assert TWO_BYTES[i][0] == c && TWO_BYTES[i][1] == n;
    }
  }

  lemma OneByteIff(c: char)
    ensures OneChar(c) <==> [c] in ONE_BYTE
  {
    var all := "(){}[],;:.=!<>&|^~+-*/%?@#'";
    assert |all| == |ONE_BYTE| && forall i :: 0 <= i < |all| ==> ONE_BYTE[i] == [all[i]];
    if OneChar(c) {
      var i :| 0 <= i < |all| && all[i] == c;
      assert ONE_BYTE[i] == [c];
    }
    if [c] in ONE_BYTE {
      var i :| 0 <= i < |ONE_BYTE| && ONE_BYTE[i] == [c];
      assert [all[i]] == [c] && [all[i]][0] == [c][0];
    }
  }

  /** Main result: the longest operator spelled at a place is taken; a byte that spells none is an unknown token. */
  lemma {:induction false} LongestOperator(buf: string, p: nat)
    requires p < |buf|
    ensures
      var r := PunctuationEnd(buf, p);
      if p + 1 < |buf| && buf[p..p + 2] in TWO_BYTES then r == (Punctuation, p + 2)
      else if buf[p..p + 1] in ONE_BYTE then r == (Punctuation, p + 1)
      else r == (Unknown, p + 1)
  {
    assert buf[p..p + 1] == [buf[p]];
    OneByteIff(buf[p]);
    if p + 1 < |buf| {
      assert buf[p..p + 2] == [buf[p], buf[p + 1]];
      TwoBytesIff(buf[p], buf[p + 1]);
    }
  }

  // ----- String literals -----

  /** The byte is taken along by a backslash, counting from `p`. */
  predicate Escaped(buf: string, p: nat, i: nat)
    requires i <= |buf|
    decreases i
  {
    i > p && buf[i - 1] == '\\' && !Escaped(buf, p, i - 1)
  }

  /** The byte ends a string literal that started before `p`. */
  predicate EndsString(buf: string, p: nat, i: nat) {
    i < |buf| && !Escaped(buf, p, i) && (buf[i] == '"' || buf[i] == '\n')
  }

  lemma {:induction false} EscapedFrom(buf: string, p: nat, p': nat, i: nat)
    requires p <= p' <= i <= |buf| && !Escaped(buf, p, p')
    ensures Escaped(buf, p, i) <==> Escaped(buf, p', i)
    decreases i
  {
    if p' < i {
      EscapedFrom(buf, p, p', i - 1);
    }
  }

  lemma EndsFrom(buf: string, p: nat, p': nat)
    requires p <= p' <= |buf| && !Escaped(buf, p, p')
    ensures forall i :: p' <= i ==> (EndsString(buf, p, i) <==> EndsString(buf, p', i))
  {
    forall i | p' <= i < |buf| ensures Escaped(buf, p, i) <==> Escaped(buf, p', i) {
      EscapedFrom(buf, p, p', i);
    }
  }

  /**
   Main result: a string literal ends at the first quote or newline that no
   backslash takes along; a quote completes it, a newline or the end of the
   buffer leaves it unfinished.
   */
  lemma {:induction false} StringEnds(buf: string, p: nat) returns (i: nat)
    requires p <= |buf|
    ensures p <= i <= |buf| && (i == |buf| || EndsString(buf, p, i))
    ensures forall j :: p <= j < i ==> !EndsString(buf, p, j)
    ensures StringTail(buf, p) == if i < |buf| && buf[i] == '"' then (true, i + 1) else (false, i)
    decreases |buf| - p
  {
    if p == |buf| || buf[p] == '\n' || buf[p] == '"' {
      i := p;
    } else {
      var p' := if buf[p] == '\\' && p + 1 < |buf| then p + 2 else p + 1;
      i := StringEnds(buf, p');
      assert !Escaped(buf, p, p);
      assert !Escaped(buf, p, p') || p' == |buf|;
      if p' < |buf| || !Escaped(buf, p, p') {
        EndsFrom(buf, p, p');
      }
      assert p' == p + 2 ==> Escaped(buf, p, p + 1);
    }
  }

  // ----- Words -----

  predicate IsLetterByte(c: char) {
    c == '_' || 'a' <= c <= 'z' || 'A' <= c <= 'Z'
  }

  predicate IsWordByte(c: char) {
    IsLetterByte(c) || '0' <= c <= '9'
  }

  /** `%NAME%`, left by the preprocessor. */
  ghost predicate IsSplice(buf: string, p: nat, q: nat) {
    && p + 3 <= q <= |buf| && buf[p] == '%' && buf[q - 1] == '%' && IsLetterByte(buf[p + 1])
    && forall i :: p + 1 <= i < q - 1 ==> IsWordByte(buf[i])
  }

  /** Letters, digits, underscores and splices, one after another. */
  ghost predicate IsWord(buf: string, p: nat, q: nat)
    decreases |buf| - p
  {
    || p == q
    || (p < |buf| && IsWordByte(buf[p]) && IsWord(buf, p + 1, q))
    || exists m :: p < m <= |buf| && IsSplice(buf, p, m) && IsWord(buf, m, q)
  }

  lemma {:induction false} SpliceIff(buf: string, p: nat, q: nat)
    requires p <= |buf|
    ensures IsSplice(buf, p, q) <==> p < q && q == SpliceEnd(buf, p)
  {
    if p + 1 < |buf| {
      var e := BodyEnd(buf, p + 1);
      assert forall i :: p + 1 <= i < e ==> IsWordByte(buf[i]);
      if IsSplice(buf, p, q) {
        assert e == q - 1;
      }
    }
  }

  /** Main result: a word is letters, digits, underscores and splices, and as long as it can be. */
  lemma {:induction false} WordIff(buf: string, p: nat, q: nat)
    requires p <= |buf|
    ensures IsWord(buf, p, WordEnd(buf, p))
    ensures WordEnd(buf, p) < q ==> !IsWord(buf, WordEnd(buf, p), q)
    decreases |buf| - p
  {
    SpliceIff(buf, p, SpliceEnd(buf, p));
    if p < |buf| && IsBody(buf[p]) {
      WordIff(buf, p + 1, q);
    } else if SpliceEnd(buf, p) > p {
      WordIff(buf, SpliceEnd(buf, p), q);
    } else {
      forall m: nat ensures !IsSplice(buf, p, m) {
        SpliceIff(buf, p, m);
      }
    }
  }

  /** Main result: the first byte of a token decides its kind, and a word goes on as far as it can. */
  lemma {:induction false} KindByFirstByte(buf: string, m: Mark)
    requires m.cur < |buf|
    ensures
      var t, c := TokenEnd(buf, m), buf[m.cur];
      && (t.0.Identifier? <==> IsLetterByte(c) && c != '_')
      && (t.0.SystemName? <==> c == '_')
      && (t.0.Numeral? <==> '0' <= c <= '9')
      && (t.0.Str? ==> c == '"') && (t.0.LineMarker? ==> c == '#')
      && (IsLetterByte(c) ==> IsWord(buf, m.cur + 1, t.1))
  {
    WordIff(buf, m.cur + 1, 0);
    if AtMarker(buf, m) {
      assert buf[m.cur..m.cur + 5][0] == '#';
    }
  }
}
