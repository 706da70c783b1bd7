/**
 The lexer object (lib/Lex/Lexer.cpp) with its cursor and peek cache, and the
 token recorder that gives the source back (lib/Fmt/CSTBuilder.cpp).
 */
module TokenSource {
  import opened TextLines
  import opened Literals
  import opened Lexer

  ghost predicate ScansBy(buf: string, f: Stepper) {
    forall m: Mark {:trigger ScanStep(buf, m)} :: m.cur <= |buf| ==> f(m) == ScanStep(buf, m)
  }

  /** `cache` holds the tokens after the first `delivered`, and the cursor is after them. */
  ghost predicate Holds(f: Stepper, delivered: nat, cache: seq<Lexeme>, m: Mark) {
    && m == MarkAt(f, delivered + |cache|)
    && forall i :: 0 <= i < |cache| ==> cache[i] == TokenAt(f, delivered + i)
  }

  lemma {:induction false} HoldsOneMore(f: Stepper, delivered: nat, cache: seq<Lexeme>, m: Mark, t: Lexeme, after: Mark)
    requires Holds(f, delivered, cache, m) && f(m) == (t, after)
    ensures Holds(f, delivered, cache + [t], after)
  {
    assert delivered + |cache + [t]| == delivered + |cache| + 1;
  }

  lemma {:induction false} HoldsOneLess(f: Stepper, delivered: nat, cache: seq<Lexeme>, m: Mark)
    requires Holds(f, delivered, cache, m) && cache != []
    ensures cache[0] == TokenAt(f, delivered) && Holds(f, delivered + 1, cache[1..], m)
  {
    assert forall i :: 0 <= i < |cache| - 1 ==> cache[1..][i] == cache[i + 1];
  }

  lemma {:induction false} HoldsNone(f: Stepper, delivered: nat, m: Mark, t: Lexeme, after: Mark)
    requires Holds(f, delivered, [], m) && f(m) == (t, after)
    ensures t == TokenAt(f, delivered) && Holds(f, delivered + 1, [], after)
  {
  }

  lemma {:induction false} HoldsAt(f: Stepper, delivered: nat, cache: seq<Lexeme>, m: Mark, k: nat)
    requires Holds(f, delivered, cache, m) && k < |cache|
    ensures cache[k] == TokenAt(f, delivered + k)
  {
  }

  class Scanner {
    const buf: string
    var cur: nat
    var lineStart: bool
    var cache: seq<Lexeme>

    /** The scan step of this buffer, and how many tokens `Next` has handed out. */
    ghost const steps: Stepper
    ghost var delivered: nat

    ghost predicate Valid()
      reads this
    {
      cur <= |buf| && ScansBy(buf, steps) && Holds(steps, delivered, cache, Mark(cur, lineStart))
    }

    constructor (buf: string)
      ensures Valid() && this.buf == buf && steps == Steps(buf) && delivered == 0
    {
      this.buf := buf;
      steps := Steps(buf);
      cur, lineStart, cache := 0, true, [];
      delivered := 0;
    }

    /** Main result: whatever was peeked at before, the next token is the next of the stream. */
    method Next() returns (t: Lexeme)
      requires Valid()
      modifies this
      ensures Valid() && delivered == old(delivered) + 1
      ensures t == TokenAt(steps, old(delivered))
    {
      if cache != [] {
        HoldsOneLess(steps, delivered, cache, Mark(cur, lineStart));
        t := cache[0];
        cache := cache[1..];
      } else {
        ghost var m := Mark(cur, lineStart);
        t := NextImpl();
        HoldsNone(steps, delivered, m, t, Mark(cur, lineStart));
      }
      delivered := delivered + 1;
    }

    /** Main result: peeking shows the token the stream has in that place, and takes nothing. */
    method Peek(n: int) returns (t: Lexeme)
      requires Valid()
      modifies this`cur, this`lineStart, this`cache
      ensures Valid()
      ensures t == TokenAt(steps, delivered + if n < 0 then 0 else n)
    {
      var k := if n < 0 then 0 else n;
      while |cache| <= k
        invariant Valid()
        decreases k - |cache|
      {
        t := Fill();
      }
      HoldsAt(steps, delivered, cache, Mark(cur, lineStart), k);
      t := cache[k];
    }

    /** Scans one more token into the cache. */
    method Fill() returns (t: Lexeme)
      requires Valid()
      modifies this`cur, this`lineStart, this`cache
      ensures Valid() && cache == old(cache) + [t]
    {
      ghost var m := Mark(cur, lineStart);
      t := NextImpl();
      HoldsOneMore(steps, delivered, cache, m, t, Mark(cur, lineStart));
      cache := cache + [t];
    }

    method NextImpl() returns (t: Lexeme)
      requires cur <= |buf| && ScansBy(buf, steps)
      modifies this`cur, this`lineStart
      ensures cur <= |buf| && steps(old(Mark(cur, lineStart))) == (t, Mark(cur, lineStart))
    {
      assert steps(Mark(cur, lineStart)) == ScanStep(buf, Mark(cur, lineStart));
      SkipWhitespaceAndComments();
      if cur >= |buf| {
        return Lexeme(Eof, |buf|, |buf|);
      }
      var begin := cur;
      var marker := TryMarker();
      if marker {
        return Lexeme(LineMarker, begin, cur);
      }
      lineStart := false;
      var kind := ScanOther();
      t := Lexeme(kind, begin, cur);
    }

    /** Scans a line marker, if the cursor is at one. */
    method TryMarker() returns (marker: bool)
      requires cur < |buf|
      modifies this`cur, this`lineStart
      ensures marker == AtMarker(buf, old(Mark(cur, lineStart)))
      ensures marker ==> cur == LineEnd(buf, old(cur)) && !lineStart
      ensures !marker ==> cur == old(cur) && lineStart == old(lineStart)
    {
      if !(lineStart && cur + 5 < |buf|) {
        return false;
      }
      assert buf[cur..cur + 5] == [buf[cur]] + buf[cur + 1..cur + 5];
      if buf[cur] == '#' && buf[cur + 1..cur + 5] == "line" && (buf[cur + 5] == ' ' || buf[cur + 5] == '\t') {
        var look := PeekPastSpaces(cur + 5);
        if look < |buf| && IsDec(buf[look]) {
          ScanToLineEnd();
          lineStart := false;
          return true;
        }
      }
      return false;
    }

    /** Scans a token that is not a line marker. */
    method ScanOther() returns (kind: Kind)
      requires cur < |buf| && !lineStart
      modifies this`cur
      ensures cur <= |buf| && (kind, cur) == TokenEnd(buf, Mark(old(cur), false))
    {
      var c := buf[cur];
      if IsLetter(c) || c == '_' {
        ScanWord();
        return if c == '_' then SystemName else Identifier;
      }
      if IsDec(c) {
        var n := ScanNumberAt(buf, cur);
        ScannedIsRead(buf, cur);
        cur := n.end;
        return Kind.Numeral(n.kind);
      }
      if c == '"' {
        var closed := ScanString();
        return if closed then Str else Unknown;
      }
      if cur + 1 < |buf| && TwoChar(buf[cur], buf[cur + 1]) {
        cur := cur + 2;
        return Punctuation;
      }
      cur := cur + 1;
      return if OneChar(c) then Punctuation else Unknown;
    }

    method SkipWhitespaceAndComments()
      requires cur <= |buf|
      modifies this`cur, this`lineStart
      ensures cur <= |buf| && Mark(cur, lineStart) == Skip(buf, old(Mark(cur, lineStart)))
    {
      while cur < |buf|
        invariant cur <= |buf| && Skip(buf, Mark(cur, lineStart)) == Skip(buf, old(Mark(cur, lineStart)))
        decreases |buf| - cur
      {
        var c := buf[cur];
        if c == '\n' {
          cur, lineStart := cur + 1, true;
        } else if IsSpace(c) {
          cur := cur + 1;
        } else if Pair(buf, cur, '/', '/') {
          cur := cur + 2;
          ScanToLineEnd();
        } else if Pair(buf, cur, '/', '*') {
          SkipBlockComment();
        } else {
          break;
        }
      }
    }

    method SkipBlockComment()
      requires Pair(buf, cur, '/', '*')
      modifies this`cur, this`lineStart
      ensures cur == BlockEnd(buf, old(cur) + 2)
      ensures lineStart == (old(lineStart) || NewlineIn(buf, old(cur) + 2, BlockStop(buf, old(cur) + 2)))
    {
      cur := cur + 2;
      ghost var from := cur;
      while cur + 1 < |buf| && (buf[cur] != '*' || buf[cur + 1] != '/')
        invariant from <= cur <= |buf| && BlockStop(buf, cur) == BlockStop(buf, from)
        invariant lineStart == (old(lineStart) || NewlineIn(buf, from, cur))
      {
        if buf[cur] == '\n' {
          lineStart := true;
        }
        cur := cur + 1;
      }
      if cur + 1 < |buf| {
        cur := cur + 2;
      } else {
        cur := |buf|;
      }
    }

    method ScanToLineEnd()
      requires cur <= |buf|
      modifies this`cur
      ensures cur == LineEnd(buf, old(cur))
    {
      while cur < |buf| && buf[cur] != '\n'
        invariant cur <= |buf| && LineEnd(buf, cur) == LineEnd(buf, old(cur))
      {
        cur := cur + 1;
      }
    }

    method PeekPastSpaces(p: nat) returns (q: nat)
      requires p <= |buf|
      ensures q == BlanksEnd(buf, p)
    {
      q := p;
      while q < |buf| && (buf[q] == ' ' || buf[q] == '\t')
        invariant p <= q <= |buf| && BlanksEnd(buf, q) == BlanksEnd(buf, p)
      {
        q := q + 1;
      }
    }

    method ScanWord()
      requires cur < |buf|
      modifies this`cur
      ensures cur == WordEnd(buf, old(cur) + 1)
    {
      cur := cur + 1;
      while cur < |buf|
        invariant cur <= |buf| && WordEnd(buf, cur) == WordEnd(buf, old(cur) + 1)
      {
        if IsBody(buf[cur]) {
          cur := cur + 1;
        } else {
          var end := ProbeSplice(cur);
          if end == cur {
            break;
          }
          cur := end;
        }
      }
    }

    method ProbeSplice(p: nat) returns (q: nat)
      requires p < |buf|
      ensures q == SpliceEnd(buf, p)
    {
      if buf[p] == '%' && p + 1 < |buf| && (IsLetter(buf[p + 1]) || buf[p + 1] == '_') {
        var scan := p + 1;
        while scan < |buf| && IsBody(buf[scan])
          invariant p < scan <= |buf| && BodyEnd(buf, scan) == BodyEnd(buf, p + 1)
        {
          scan := scan + 1;
        }
        if scan < |buf| && buf[scan] == '%' {
          return scan + 1;
        }
      }
      return p;
    }

    method ScanString() returns (closed: bool)
      requires cur < |buf|
      modifies this`cur
      ensures (closed, cur) == StringTail(buf, old(cur) + 1)
    {
      cur := cur + 1;
      while cur < |buf|
        invariant cur <= |buf| && StringTail(buf, cur) == StringTail(buf, old(cur) + 1)
      {
        var c := buf[cur];
        if c == '"' {
          cur := cur + 1;
          return true;
        }
        if c == '\n' {
          return false;
        }
        cur := if c == '\\' && cur + 1 < |buf| then cur + 2 else cur + 1;
      }
      return false;
    }
  }

  // ----- Giving the source back -----

  /** Each token starts at or after the end of the one before, and all end within the source. */
  predicate InOrder(tokens: seq<Lexeme>, size: nat) {
    && (forall i :: 0 <= i < |tokens| ==> tokens[i].begin <= tokens[i].end <= size)
    && (forall i :: 0 < i < |tokens| ==> tokens[i - 1].end <= tokens[i].begin)
  }

  class Recorder {
    const src: string
    var tokens: seq<Lexeme>

    constructor (src: string)
      ensures this.src == src && tokens == []
    {
      this.src := src;
      tokens := [];
    }

    method RecordToken(t: Lexeme)
      modifies this
      ensures tokens == old(tokens) + [t]
    {
      tokens := tokens + [t];
    }

    /** Main result: over any tokens in order the serialised text is the source. */
    method Serialize() returns (out: string)
      ensures InOrder(tokens, |src|) ==> out == src
    {
      out := "";
      var cursor := 0;
      var i := 0;
      while i < |tokens|
        invariant 0 <= i <= |tokens|
        invariant cursor == if i == 0 then 0 else tokens[i - 1].end
        invariant InOrder(tokens, |src|) ==> cursor <= |src| && out == src[..cursor]
      {
        var t := tokens[i];
        if t.begin > cursor && t.begin <= |src| {
          out := out + src[cursor..t.begin];
        }
        if t.end > t.begin && t.end <= |src| {
          out := out + src[t.begin..t.end];
        }
        cursor := t.end;
        i := i + 1;
      }
      if cursor < |src| {
        out := out + src[cursor..];
      }
    }
  }

  /** The first `n` tokens of the stream. */
  function FirstTokens(buf: string, n: nat): (ts: seq<Lexeme>)
    ensures |ts| == n
    ensures forall i :: 0 <= i < n ==> ts[i] == TokenAt(Steps(buf), i)
  {
    if n == 0 then [] else FirstTokens(buf, n - 1) + [TokenAt(Steps(buf), n - 1)]
  }

  lemma {:induction false} StreamIsInOrder(buf: string, n: nat)
    ensures InOrder(FirstTokens(buf, n), |buf|)
  {
    var f, ts := Steps(buf), FirstTokens(buf, n);
    StepsForward(buf);
    forall i | 0 <= i < n
      ensures ts[i].begin <= ts[i].end <= |buf|
      ensures i > 0 ==> ts[i - 1].end <= ts[i].begin
    {
      EndsAscend(f, |buf|, i, i);
      if i > 0 {
        TokensAreDisjoint(f, |buf|, i - 1, i);
      }
    }
  }

  /** Main result: lexing any number of tokens, with a peek before each, and serialising what was recorded gives the source back. */
  method RoundTrip(buf: string, lookahead: seq<int>) returns (text: string)
    ensures text == buf
  {
    var scanner := new Scanner(buf);
    var recorder := new Recorder(buf);
    var n := 0;
    while n < |lookahead|
      invariant 0 <= n <= |lookahead|
      invariant scanner.Valid() && scanner.buf == buf && scanner.steps == Steps(buf) && scanner.delivered == n
      invariant recorder.src == buf && recorder.tokens == FirstTokens(buf, n)
    {
      var seen := scanner.Peek(lookahead[n]);
      var t := scanner.Next();
      recorder.RecordToken(t);
      n := n + 1;
    }
    StreamIsInOrder(buf, n);
    text := recorder.Serialize();
  }
}
