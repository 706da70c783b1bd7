/**
 Error recovery of the parser: the skip of lib/Parse/Recovery.cpp and the item
 loops of lib/Parse/Parser.cpp, ParseDecl.cpp and ParseStmt.cpp. The code works
 on bitsets; what it does is stated by the plain sets they stand for. What an item's parser does is left open:
 it is any function from where it starts to whether it succeeds and where it
 leaves the cursor.
 */
module Recovery {
  import opened TokenSets

  // ----- Items -----

  /** Whether an item parser called at a position succeeds, and where it leaves the cursor. */
  type Item = nat -> (bool, nat)

  /** It never rewinds and never leaves the stream. */
  ghost predicate Onward(f: Item, size: nat) {
    forall p: nat {:trigger f(p)} :: p <= size ==> p <= f(p).1 <= size
  }

  predicate IsItemStart(k: Kind) {
    k == STRUCT || k == DECLARE || k == MODULE || k == PARAM_INT || k == PARAM_STR
  }

  predicate StartsAtKeywords(tokens: seq<Kind>, starts: seq<nat>) {
    forall i :: 0 <= i < |starts| ==> starts[i] < |tokens| && IsItemStart(tokens[starts[i]])
  }

  /** The token at `q` was taken by an item parser called at one of the starts. */
  predicate Covered(f: Item, starts: seq<nat>, q: nat) {
    exists i :: 0 <= i < |starts| && starts[i] <= q < f(starts[i]).1
  }

  ghost predicate AllCovered(tokens: seq<Kind>, f: Item, starts: seq<nat>, from: nat, upTo: nat) {
    upTo <= |tokens| && forall q :: from <= q < upTo && IsItemStart(tokens[q]) ==> Covered(f, starts, q)
  }

  lemma {:induction false} CoveredMore(tokens: seq<Kind>, f: Item, starts: seq<nat>, from: nat, p: nat)
    requires AllCovered(tokens, f, starts, from, p) && p <= f(p).1 <= |tokens|
    ensures AllCovered(tokens, f, starts + [p], from, f(p).1)
  {
    var more := starts + [p];
    forall q | from <= q < f(p).1 && IsItemStart(tokens[q]) ensures Covered(f, more, q) {
      if q < p {
        var i :| 0 <= i < |starts| && starts[i] <= q < f(starts[i]).1;
        assert more[i] == starts[i];
      } else {
        assert more[|starts|] == p;
      }
    }
  }

  // ----- What a list does with its tokens -----

  /** An item called at or before `q` failed. */
  predicate FailedBefore(f: Item, starts: seq<nat>, q: nat) {
    exists i :: 0 <= i < |starts| && starts[i] <= q && !f(starts[i]).0
  }

  /** An item was called at `q` and took nothing. */
  predicate TookNothing(f: Item, starts: seq<nat>, q: nat) {
    q in starts && f(q).1 == q
  }

  /** A token that was neither a line marker nor taken by an item was skipped after one failed, and is nothing to resume at. */
  predicate Accounted(tokens: seq<Kind>, f: Item, starts: seq<nat>, resume: set<Kind>, q: nat)
    requires q < |tokens|
  {
    || tokens[q] == LINE_DIRECTIVE || Covered(f, starts, q)
    || ((tokens[q] !in resume || tokens[q] == SEMICOLON) && FailedBefore(f, starts, q))
  }

  ghost predicate AllAccounted(tokens: seq<Kind>, f: Item, starts: seq<nat>, resume: set<Kind>, from: nat, upTo: nat) {
    upTo <= |tokens| && forall q :: from <= q < upTo ==> Accounted(tokens, f, starts, resume, q) || TookNothing(f, starts, q)
  }

  lemma {:induction false} MoreStarts(f: Item, starts: seq<nat>, p: nat, q: nat)
    ensures Covered(f, starts, q) ==> Covered(f, starts + [p], q)
    ensures FailedBefore(f, starts, q) ==> FailedBefore(f, starts + [p], q)
    ensures TookNothing(f, starts, q) ==> TookNothing(f, starts + [p], q)
    ensures p <= q < f(p).1 ==> Covered(f, starts + [p], q)
    ensures p <= q && !f(p).0 ==> FailedBefore(f, starts + [p], q)
  {
    var more := starts + [p];
    assert more[|starts|] == p;
    if i :| 0 <= i < |starts| && starts[i] <= q < f(starts[i]).1 {
      assert more[i] == starts[i];
    }
    if i :| 0 <= i < |starts| && starts[i] <= q && !f(starts[i]).0 {
      assert more[i] == starts[i];
    }
  }

  lemma {:induction false} MoreFailed(f: Item, starts: seq<nat>, p: nat)
    ensures !f(p).0 ==> forall q :: p <= q ==> FailedBefore(f, starts + [p], q)
  {
    forall q: nat | p <= q && !f(p).0 ensures FailedBefore(f, starts + [p], q) {
      MoreStarts(f, starts, p, q);
    }
  }

  lemma {:induction false} AccountMore(tokens: seq<Kind>, f: Item, starts: seq<nat>, resume: set<Kind>, from: nat, p: nat)
    requires AllAccounted(tokens, f, starts, resume, from, p) && p <= f(p).1 <= |tokens|
    ensures AllAccounted(tokens, f, starts + [p], resume, from, f(p).1)
  {
    forall q | from <= q < f(p).1
      ensures Accounted(tokens, f, starts + [p], resume, q) || TookNothing(f, starts + [p], q)
    {
      MoreStarts(f, starts, p, q);
    }
  }

  /**
   An iteration at `p` would come back to `p`: the item takes nothing, and
   either claims success or stands on a resumption keyword of its own list.
   */
  predicate Stuck(tokens: seq<Kind>, f: Item, local: set<Kind>, p: nat) {
    && p < |tokens| && tokens[p] != RBRACE && tokens[p] != LINE_DIRECTIVE
    && f(p).1 == p
    && (f(p).0 || (tokens[p] in local && tokens[p] != SEMICOLON))
  }

  /** A declare list resumes only at `;` and `}`, so no failing item can hold it up. */
  lemma {:induction false} DeclareNeverStuck(tokens: seq<Kind>, f: Item, p: nat)
    requires f(p).0 ==> f(p).1 > p
    ensures !Stuck(tokens, f, Plain(DECLARE_ITEM), p)
  {
    assert DECLARE_ITEM == [SEMICOLON, RBRACE];
  }

  /** A list that resumes at `;`, `}` and keywords gets stuck exactly where an item takes nothing on one of those keywords. */
  lemma {:induction false} StuckOnKeywordIff(tokens: seq<Kind>, f: Item, keywords: seq<bv8>, p: nat)
    requires f(p).0 ==> f(p).1 > p
    requires SEMICOLON !in keywords && RBRACE !in keywords && LINE_DIRECTIVE !in keywords
    ensures Stuck(tokens, f, Plain([SEMICOLON, RBRACE] + keywords), p) <==>
      p < |tokens| && f(p).1 == p && tokens[p] in keywords
  {
    if p < |tokens| {
      assert tokens[p] in Plain([SEMICOLON, RBRACE] + keywords) <==> tokens[p] in [SEMICOLON, RBRACE] + keywords;
    }
  }

  lemma KeywordsAre(k: Kind)
    ensures k in MODULE_KEYWORDS <==>
      k in {FUNC, FUNCTION, PROC, STATE, WIRE, REG, MEM, INTEGER, VARIABLE, PROC_NAME, STATE_NAME, FIRST_STATE, FUNC_SELF}
    ensures k in SEQ_KEYWORDS <==> k in {IF, FOR, WHILE, GOTO, RETURN}
  {
    ListedIff(k, MODULE_KEYWORDS);
    ListedIff(k, SEQ_KEYWORDS);
  }

  lemma ListedIff(k: Kind, list: seq<bv8>)
    ensures k in list <==> exists i :: 0 <= i < |list| && list[i] == k
  {
  }

  lemma {:induction false} ModuleStuckIff(tokens: seq<Kind>, f: Item, p: nat)
    requires f(p).0 ==> f(p).1 > p
    ensures Stuck(tokens, f, Plain(MODULE_ITEM), p) <==>
      && p < |tokens| && f(p).1 == p
      && tokens[p] in {FUNC, FUNCTION, PROC, STATE, WIRE, REG, MEM, INTEGER, VARIABLE, PROC_NAME, STATE_NAME, FIRST_STATE, FUNC_SELF}
  {
    KeywordsAre(if p < |tokens| then tokens[p] else EOF);
    StuckOnKeywordIff(tokens, f, MODULE_KEYWORDS, p);
  }

  lemma {:induction false} SeqStuckIff(tokens: seq<Kind>, f: Item, p: nat)
    requires f(p).0 ==> f(p).1 > p
    ensures Stuck(tokens, f, Plain(SEQ_ITEM), p) <==>
      p < |tokens| && f(p).1 == p && tokens[p] in {IF, FOR, WHILE, GOTO, RETURN}
  {
    KeywordsAre(if p < |tokens| then tokens[p] else EOF);
    StuckOnKeywordIff(tokens, f, SEQ_KEYWORDS, p);
  }

  class Parser {
    /** The kinds of the tokens before the end of the file. */
    const tokens: seq<Kind>
    var pos: nat
    var stack: seq<TokenSet>

    /** The sets the stacked bitsets stand for. */
    ghost var guards: seq<set<Kind>>

    ghost predicate Valid()
      reads this
    {
      pos <= |tokens| && EOF !in tokens && StandForAll(stack, guards)
    }

    constructor (tokens: seq<Kind>)
      requires EOF !in tokens
      ensures Valid() && this.tokens == tokens && pos == 0 && guards == []
    {
      this.tokens := tokens;
      pos, stack, guards := 0, [], [];
    }

    function KindAt(p: nat): Kind {
      if p < |tokens| then tokens[p] else EOF
    }

    function PeekKind(): Kind
      reads this`pos
    {
      KindAt(pos)
    }

    method Consume()
      requires Valid()
      modifies this`pos
      ensures Valid() && pos == if old(pos) < |tokens| then old(pos) + 1 else old(pos)
    {
      if pos < |tokens| {
        pos := pos + 1;
      }
    }

    method ConsumeLineMarkers()
      requires Valid()
      modifies this`pos
      ensures Valid() && old(pos) <= pos && PeekKind() != LINE_DIRECTIVE
      ensures forall i :: old(pos) <= i < pos ==> tokens[i] == LINE_DIRECTIVE
    {
      while PeekKind() == LINE_DIRECTIVE
        invariant Valid() && old(pos) <= pos
        invariant forall i :: old(pos) <= i < pos ==> tokens[i] == LINE_DIRECTIVE
        decreases |tokens| - pos
      {
        Consume();
      }
    }

    /** Main result: stops at the first token of the set, or at the end of the file, and consumes all before it. */
    method SkipUntil(s: TokenSet, ghost plain: set<Kind>)
      requires Valid() && StandsFor(s, plain)
      modifies this`pos
      ensures Valid() && old(pos) <= pos
      ensures PeekKind() == EOF || PeekKind() in plain
      ensures forall i :: old(pos) <= i < pos ==> tokens[i] !in plain
    {
      while PeekKind() != EOF && !Contains(s, PeekKind())
        invariant Valid() && old(pos) <= pos
        invariant forall i :: old(pos) <= i < pos ==> tokens[i] !in plain
        decreases |tokens| - pos
      {
        Consume();
      }
    }

    /** Skips with the union of all active guards. */
    method SkipToActive()
      requires Valid()
      modifies this`pos
      ensures Valid() && old(pos) <= pos
      ensures PeekKind() == EOF || PeekKind() in AnyOf(guards)
      ensures forall i :: old(pos) <= i < pos ==> tokens[i] !in AnyOf(guards)
    {
      var active := CurrentRecoverySet(stack);
      UnionOfIsAnyOf(stack, guards);
      SkipUntil(active, AnyOf(guards));
    }

    method PushGuard(kinds: seq<bv8>)
      requires Valid()
      modifies this`stack, this`guards
      ensures Valid() && guards == old(guards) + [Plain(kinds)]
    {
      var local := MakeSet(kinds);
      SetOfIsPlain(kinds);
      stack, guards := stack + [local], guards + [Plain(kinds)];
    }

    method PopGuard()
      requires Valid() && guards != []
      modifies this`stack, this`guards
      ensures Valid() && guards == old(guards)[..|old(guards)| - 1]
    {
      stack, guards := stack[..|stack| - 1], guards[..|guards| - 1];
    }

    method Holds(kinds: seq<bv8>, k: Kind) returns (b: bool)
      ensures b == (k in Plain(kinds))
    {
      var s := MakeSet(kinds);
      SetOfIsPlain(kinds);
      b := Contains(s, k);
    }

    method RunItem(f: Item) returns (ok: bool)
      requires Valid() && Onward(f, |tokens|)
      modifies this`pos
      ensures Valid() && (ok, pos) == f(old(pos)) && old(pos) <= pos
    {
      ok := f(pos).0;
      pos := f(pos).1;
    }

    // ----- Item lists: declare, module and seq bodies -----

    /** The token at `p` is for an enclosing rule to resume at. */
    ghost predicate Outer(local: set<Kind>, p: nat)
      reads this`guards
    {
      p < |tokens| && tokens[p] !in local && tokens[p] in AnyOf(guards)
    }

    /** Main result: one iteration consumes a token or leaves the loop, unless it is stuck. */
    method ItemStep(f: Item, kinds: seq<bv8>, ghost local: set<Kind>, starts: seq<nat>, ghost from: nat)
      returns (leave: bool, starts': seq<nat>)
      requires Valid() && Onward(f, |tokens|) && PeekKind() != RBRACE && PeekKind() != EOF
      requires local == Plain(kinds) && local <= AnyOf(guards)
      requires SEMICOLON in local && RBRACE in local
      requires AllAccounted(tokens, f, starts, local, from, pos)
      modifies this`pos
      ensures Valid() && old(pos) <= pos
      ensures leave ==> PeekKind() == RBRACE || PeekKind() == EOF || Outer(local, pos)
      ensures !leave && pos == old(pos) <==> Stuck(tokens, f, local, old(pos))
      ensures AllAccounted(tokens, f, starts', local, from, pos)
    {
      starts' := starts;
      ConsumeLineMarkers();
      if PeekKind() == RBRACE {
        return true, starts';
      }
      AccountMore(tokens, f, starts, local, from, pos);
      starts' := starts + [pos];
      ghost var start := pos;
      var ok := RunItem(f);
      if ok {
        return false, starts';
      }
      MoreFailed(f, starts, start);
      SkipToActive();
      if PeekKind() == EOF {
        return true, starts';
      }
      var here := Holds(kinds, PeekKind());
      if !here {
        return true, starts';
      }
      if PeekKind() == SEMICOLON {
        Consume();
      }
      return false, starts';
    }

    /**
     The loop of a declare, module or seq body, which ends for any items that
     never get stuck. Only after a failed item does it skip a token, and never
     one of its own resumption keywords.
     */
    method ItemList(f: Item, kinds: seq<bv8>) returns (starts: seq<nat>)
      requires Valid() && Onward(f, |tokens|)
      requires SEMICOLON in Plain(kinds) && RBRACE in Plain(kinds)
      requires forall p: nat :: p < |tokens| ==> !Stuck(tokens, f, Plain(kinds), p)
      modifies this
      ensures Valid() && old(pos) <= pos && guards == old(guards)
      ensures PeekKind() == RBRACE || PeekKind() == EOF || Outer(Plain(kinds), pos)
      ensures AllAccounted(tokens, f, starts, Plain(kinds), old(pos), pos)
    {
      PushGuard(kinds);
      ghost var local := Plain(kinds);
      GuardsInclude(old(guards), local);
      starts := [];
      while PeekKind() != RBRACE && PeekKind() != EOF
        invariant Valid() && old(pos) <= pos && guards == old(guards) + [local]
        invariant AllAccounted(tokens, f, starts, local, old(pos), pos)
        decreases |tokens| - pos
      {
        var leave;
        leave, starts := ItemStep(f, kinds, local, starts, old(pos));
        if leave {
          break;
        }
      }
      assert guards[..|guards| - 1] == old(guards);
      PopGuard();
    }

    // ----- Parallel blocks -----

    /**
     Main result: with its own progress guard the loop ends for any items at
     all, at a `}` or the end of the file. Besides the tokens of its items it
     skips only after a failed one, and one token where an item took nothing.
     */
    method ParallelBlock(f: Item) returns (starts: seq<nat>)
      requires Valid() && Onward(f, |tokens|)
      modifies this`pos
      ensures Valid() && old(pos) <= pos
      ensures PeekKind() == RBRACE || PeekKind() == EOF
      ensures AllAccounted(tokens, f, starts, AnyOf(guards), old(pos), pos)
    {
      starts := [];
      while true
        invariant Valid() && old(pos) <= pos
        invariant AllAccounted(tokens, f, starts, AnyOf(guards), old(pos), pos)
        decreases |tokens| - pos
      {
        ConsumeLineMarkers();
        if PeekKind() == RBRACE || PeekKind() == EOF {
          break;
        }
        AccountMore(tokens, f, starts, AnyOf(guards), old(pos), pos);
        MoreFailed(f, starts, pos);
        var start := pos;
        starts := starts + [pos];
        var ok := RunItem(f);
        if !ok {
          SkipToActive();
          if PeekKind() == EOF || PeekKind() == RBRACE {
            break;
          }
          if PeekKind() == SEMICOLON {
            Consume();
          }
        }
        if pos == start && PeekKind() != EOF && PeekKind() != RBRACE {
          assert TookNothing(f, starts, start);
          Consume();
        }
      }
    }

    // ----- The compilation unit -----

    /**
     Main result: if items take at least their own keyword, the loop ends with
     the whole file consumed, and no item keyword is ever skipped: each one was
     handed to an item parser or taken by one.
     */
    method CompilationUnit(f: Item) returns (starts: seq<nat>)
      requires Valid() && Onward(f, |tokens|) && guards == []
      requires forall p: nat :: p < |tokens| && IsItemStart(tokens[p]) ==> f(p).1 > p
      modifies this
      ensures Valid() && pos == |tokens| && guards == []
      ensures StartsAtKeywords(tokens, starts) && AllCovered(tokens, f, starts, old(pos), |tokens|)
    {
      PushGuard(TOP_LEVEL);
      starts := [];
      while true
        invariant Valid() && old(pos) <= pos && guards == [Plain(TOP_LEVEL)]
        invariant StartsAtKeywords(tokens, starts) && AllCovered(tokens, f, starts, old(pos), pos)
        decreases |tokens| - pos
      {
        ConsumeLineMarkers();
        var k := PeekKind();
        if k == EOF {
          break;
        }
        if !IsItemStart(k) {
          SkipToItem();
          continue;
        }
        CoveredMore(tokens, f, starts, old(pos), pos);
        starts := starts + [pos];
        var ok := RunItem(f);
        if ok {
          continue;
        }
        SkipToItem();
        if PeekKind() == EOF {
          break;
        }
        if PeekKind() == SEMICOLON || PeekKind() == RBRACE {
          Consume();
        }
      }
      PopGuard();
    }

    /** Skips to the next item keyword, with only the outermost guard in force. */
    method SkipToItem()
      requires Valid() && guards == [Plain(TOP_LEVEL)]
      modifies this`pos
      ensures Valid() && old(pos) <= pos
      ensures PeekKind() == EOF || IsItemStart(PeekKind())
      ensures forall i :: old(pos) <= i < pos ==> !IsItemStart(tokens[i])
    {
      assert AnyOf(guards) == Plain(TOP_LEVEL);
      SkipToActive();
      forall i | old(pos) <= i < pos ensures !IsItemStart(tokens[i]) {
        TopLevelKeywords(tokens[i]);
      }
    }
  }

  lemma TopLevelKeywords(k: Kind)
    ensures k in Plain(TOP_LEVEL) <==> IsItemStart(k) || k == EOF
  {
    var all := TOP_LEVEL;
    assert all[0] == STRUCT && all[1] == DECLARE && all[2] == MODULE && all[3] == PARAM_INT && all[4] == PARAM_STR && all[5] == EOF;
    assert k in Plain(all) <==> k in all;
    if k in all {
      var i :| 0 <= i < |all| && all[i] == k;
    }
    if IsItemStart(k) || k == EOF {
      assert k == all[0] || k == all[1] || k == all[2] || k == all[3] || k == all[4] || k == all[5];
    }
  }

  lemma {:induction false} GuardsInclude(guards: seq<set<Kind>>, local: set<Kind>)
    ensures local <= AnyOf(guards + [local])
    ensures AnyOf(guards + [local]) == AnyOf(guards) + local
  {
    assert (guards + [local])[..|guards|] == guards;
  }
}
