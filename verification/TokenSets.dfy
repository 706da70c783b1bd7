/**
 The token kinds and the bitset over them (lib/Parse/Recovery.h), with the four
 recovery sets of the grammar's item lists.
 */
module TokenSets {

  // ----- Token kinds, numbered as in the source -----

  const KIND_COUNT: bv8 := 93
  type Kind = k: bv8 | k < 93

  const EOF: Kind := 1
  const DECLARE: Kind := 13
  const FOR: Kind := 15
  const FUNC: Kind := 16
  const FUNC_SELF: Kind := 19
  const GOTO: Kind := 21
  const INTEGER: Kind := 24
  const MEM: Kind := 29
  const MODULE: Kind := 30
  const PROC: Kind := 33
  const PROC_NAME: Kind := 34
  const REG: Kind := 35
  const STATE: Kind := 37
  const STATE_NAME: Kind := 38
  const VARIABLE: Kind := 39
  const WHILE: Kind := 40
  const WIRE: Kind := 41
  const FIRST_STATE: Kind := 43
  const FUNCTION: Kind := 44
  const IF: Kind := 45
  const PARAM_INT: Kind := 47
  const PARAM_STR: Kind := 48
  const RETURN: Kind := 50
  const STRUCT: Kind := 52
  const RBRACE: Kind := 56
  const SEMICOLON: Kind := 60
  const LINE_DIRECTIVE: Kind := 92

  // ----- The bitset -----

  /** One bit per token kind, in two words. */
  datatype TokenSet = TokenSet(low: bv64, high: bv64)

  const EMPTY_SET: TokenSet := TokenSet(0, 0)

  /** The mask of the bit a kind has in its word. */
  function Mask(k: bv8): bv64 {
    (1 as bv64) << ((k % 64) as bv64)
  }

  predicate Contains(s: TokenSet, k: Kind) {
    (if k / 64 == 0 then s.low else s.high) & Mask(k) != 0
  }

  /** Numbers beyond the kinds are dropped. */
  function With(s: TokenSet, idx: bv8): TokenSet {
    if idx >= KIND_COUNT then s
    else if idx / 64 == 0 then s.(low := s.low | Mask(idx)) else s.(high := s.high | Mask(idx))
  }

  function Union(a: TokenSet, b: TokenSet): TokenSet {
    TokenSet(a.low | b.low, a.high | b.high)
  }

  /** Main result: the bitset behaves as the plain set of its members. */
  lemma {:induction false} WithIsInsertion(s: TokenSet, idx: bv8, k: Kind)
    ensures Contains(With(s, idx), k) <==> idx == k || Contains(s, k)
  {
  }

  lemma {:induction false} UnionIsUnion(a: TokenSet, b: TokenSet, k: Kind)
    ensures Contains(Union(a, b), k) <==> Contains(a, k) || Contains(b, k)
  {
  }

  lemma {:induction false} EmptyIsEmpty(k: Kind)
    ensures !Contains(EMPTY_SET, k)
  {
  }

  function SetOf(kinds: seq<bv8>): TokenSet {
    if kinds == [] then EMPTY_SET else With(SetOf(kinds[..|kinds| - 1]), kinds[|kinds| - 1])
  }

  lemma {:induction false} SetOfMembers(kinds: seq<bv8>, k: Kind)
    ensures Contains(SetOf(kinds), k) <==> k in kinds
    decreases |kinds|
  {
    if kinds == [] {
      EmptyIsEmpty(k);
    } else {
      var front := kinds[..|kinds| - 1];
      assert kinds == front + [kinds[|kinds| - 1]];
      SetOfMembers(front, k);
      WithIsInsertion(SetOf(front), kinds[|kinds| - 1], k);
    }
  }

  function UnionOf(sets: seq<TokenSet>): TokenSet {
    if sets == [] then EMPTY_SET else Union(UnionOf(sets[..|sets| - 1]), sets[|sets| - 1])
  }

  const TOP_LEVEL: seq<bv8> := [STRUCT, DECLARE, MODULE, PARAM_INT, PARAM_STR, EOF]
  const DECLARE_ITEM: seq<bv8> := [SEMICOLON, RBRACE]
  const MODULE_KEYWORDS: seq<bv8> := [
    FUNC, FUNCTION, PROC, STATE, WIRE, REG, MEM, INTEGER, VARIABLE, PROC_NAME, STATE_NAME, FIRST_STATE, FUNC_SELF]
  const MODULE_ITEM: seq<bv8> := [SEMICOLON, RBRACE] + MODULE_KEYWORDS
  const SEQ_KEYWORDS: seq<bv8> := [IF, FOR, WHILE, GOTO, RETURN]
  const SEQ_ITEM: seq<bv8> := [SEMICOLON, RBRACE] + SEQ_KEYWORDS

  function Plain(kinds: seq<bv8>): set<Kind> {
    set k: bv8 | k in kinds && k < KIND_COUNT :: k
  }

  function AnyOf(sets: seq<set<Kind>>): set<Kind> {
    if sets == [] then {} else AnyOf(sets[..|sets| - 1]) + sets[|sets| - 1]
  }

  /** The bitset has the members of the plain set. */
  ghost predicate StandsFor(s: TokenSet, plain: set<Kind>) {
    forall k: Kind {:trigger Contains(s, k)} :: Contains(s, k) <==> k in plain
  }

  ghost predicate StandForAll(sets: seq<TokenSet>, plain: seq<set<Kind>>) {
    |sets| == |plain| && forall i {:trigger plain[i]} :: 0 <= i < |sets| ==> StandsFor(sets[i], plain[i])
  }

  /** Main result: building a bitset from kinds is building the set of them. */
  lemma {:induction false} SetOfIsPlain(kinds: seq<bv8>)
    ensures StandsFor(SetOf(kinds), Plain(kinds))
  {
    forall k: Kind ensures Contains(SetOf(kinds), k) <==> k in Plain(kinds) {
      SetOfMembers(kinds, k);
    }
  }

  /** Main result: merging bitsets is merging the sets they stand for. */
  lemma {:induction false} UnionOfIsAnyOf(sets: seq<TokenSet>, plain: seq<set<Kind>>)
    requires StandForAll(sets, plain)
    ensures StandsFor(UnionOf(sets), AnyOf(plain))
    decreases |sets|
  {
    if sets == [] {
      forall k: Kind ensures !Contains(EMPTY_SET, k) {
        EmptyIsEmpty(k);
      }
    } else {
      var n := |sets| - 1;
      assert StandsFor(sets[n], plain[n]);
      UnionOfIsAnyOf(sets[..n], plain[..n]);
      UnionStandsFor(UnionOf(sets[..n]), sets[n], AnyOf(plain[..n]), plain[n]);
    }
  }

  lemma {:induction false} UnionStandsFor(a: TokenSet, b: TokenSet, p: set<Kind>, q: set<Kind>)
    requires StandsFor(a, p) && StandsFor(b, q)
    ensures StandsFor(Union(a, b), p + q)
  {
    forall k: Kind ensures Contains(Union(a, b), k) <==> k in p + q {
      UnionIsUnion(a, b, k);
    }
  }

  /** The merge loop over the stack of guards. */
  method CurrentRecoverySet(guards: seq<TokenSet>) returns (merged: TokenSet)
    ensures merged == UnionOf(guards)
  {
    merged := EMPTY_SET;
    var i := 0;
    while i < |guards|
      invariant 0 <= i <= |guards| && merged == UnionOf(guards[..i])
    {
      assert guards[..i + 1][..i] == guards[..i];
      merged := Union(merged, guards[i]);
      i := i + 1;
    }
    assert guards[..i] == guards;
  }

  /** The loop that builds a set from a list of kinds. */
  method MakeSet(kinds: seq<bv8>) returns (s: TokenSet)
    ensures s == SetOf(kinds)
  {
    s := EMPTY_SET;
    var i := 0;
    while i < |kinds|
      invariant 0 <= i <= |kinds| && s == SetOf(kinds[..i])
    {
      assert kinds[..i + 1][..i] == kinds[..i];
      s := With(s, kinds[i]);
      i := i + 1;
    }
    assert kinds[..i] == kinds;
  }
}
