/**
 The line diff of lib/Fmt/Diff.cpp: a flat table of common-subsequence lengths
 filled in place, and the walk back through it that yields the edit script.
 */
module LineDiff {
  import opened EditScript

  newtype uint32 = x: int | 0 <= x < 0x1_0000_0000

  /** Largest object size: the table's element count is a `size_t`. */
  const SIZE_MAX: nat := 0xFFFF_FFFF_FFFF_FFFF

  /** A table whose size is representable has entries that fit 32 bits. */
  lemma EntriesFit(n: nat, m: nat)
    requires (n + 1) * (m + 1) <= SIZE_MAX
    ensures n < 0xFFFF_FFFF || m < 0xFFFF_FFFF
  {
    if n >= 0xFFFF_FFFF {
      assert (n + 1) * (m + 1) >= 0x1_0000_0000 * (m + 1);
    }
  }

  lemma SlotInRange(n: nat, m: nat, i: nat, j: nat)
    requires i <= n && j <= m
    ensures 0 <= i * (m + 1) + j < (n + 1) * (m + 1)
  {
    assert i * (m + 1) <= n * (m + 1);
    assert (n + 1) * (m + 1) == n * (m + 1) + (m + 1);
  }

  /** Row-major slots do not collide. */
  lemma SlotInjective(m: nat, i: nat, j: nat, i': nat, j': nat)
    requires j <= m && j' <= m && i * (m + 1) + j == i' * (m + 1) + j'
    ensures i == i' && j == j'
  {
    RowsApart(m, i, j, i');
    RowsApart(m, i', j', i);
  }

  lemma RowsApart(m: nat, i: nat, j: nat, i': nat)
    requires j <= m
    ensures i < i' ==> i * (m + 1) + j < i' * (m + 1)
  {
    if i < i' {
      assert (i + 1) * (m + 1) <= i' * (m + 1);
    }
  }

  class LcsTable {
    const n: nat
    const m: nat
    const data: array<uint32>

    ghost predicate Valid() {
      data.Length == (n + 1) * (m + 1) <= SIZE_MAX
    }

    constructor (n: nat, m: nat)
      requires (n + 1) * (m + 1) <= SIZE_MAX
      ensures Valid() && this.n == n && this.m == m && fresh(data)
      ensures forall i, j :: 0 <= i <= n && 0 <= j <= m ==> At(i, j) == 0
    {
      this.n, this.m := n, m;
      data := new uint32[(n + 1) * (m + 1)](_ => 0);
      new;
      forall i, j | 0 <= i <= n && 0 <= j <= m ensures At(i, j) == 0 {
        SlotInRange(n, m, i, j);
      }
    }

    function At(i: nat, j: nat): uint32
      requires Valid() && i <= n && j <= m
      reads data
    {
      SlotInRange(n, m, i, j);
      data[i * (m + 1) + j]
    }

    method Set(i: nat, j: nat, v: uint32)
      requires Valid() && i <= n && j <= m
      modifies data
      ensures At(i, j) == v
      ensures forall i', j' :: 0 <= i' <= n && 0 <= j' <= m && (i' != i || j' != j) ==> At(i', j') == old(At(i', j'))
    {
      SlotInRange(n, m, i, j);
      data[i * (m + 1) + j] := v;
      forall i', j' | 0 <= i' <= n && 0 <= j' <= m && (i' != i || j' != j)
        ensures At(i', j') == old(At(i', j'))
      {
        SlotInRange(n, m, i', j');
        if i' * (m + 1) + j' == i * (m + 1) + j {
          SlotInjective(m, i', j', i, j);
        }
      }
    }

    /** The entry for a pair of prefixes is the recurrence at that pair. */
    ghost predicate Correct(a: seq<Line>, b: seq<Line>, i: nat, j: nat)
      requires Valid() && n == |a| && m == |b| && i <= n && j <= m
      reads data
    {
      At(i, j) as nat == Lcs(a[..i], b[..j])
    }
  }

  lemma PrefixStep<T>(s: seq<T>, i: nat)
    requires 0 < i <= |s|
    ensures DropLast(s[..i]) == s[..i - 1] && Last(s[..i]) == s[i - 1]
  {
  }

  /** The recurrence at one cell, in the loop's own indices. */
  lemma CellStep(a: seq<Line>, b: seq<Line>, i: nat, j: nat)
    requires 0 < i <= |a| && 0 < j <= |b|
    ensures Lcs(a[..i], b[..j]) ==
      if a[i - 1] == b[j - 1] then Lcs(a[..i - 1], b[..j - 1]) + 1
      else Max(Lcs(a[..i - 1], b[..j]), Lcs(a[..i], b[..j - 1]))
    ensures Lcs(a[..i - 1], b[..j - 1]) <= i - 1 && Lcs(a[..i - 1], b[..j - 1]) <= j - 1
  {
    PrefixStep(a, i);
    PrefixStep(b, j);
    LcsBound(a[..i - 1], b[..j - 1]);
  }

  /** Every entry of rows `0..rows` is final. */
  ghost predicate RowsFilled(table: LcsTable, a: seq<Line>, b: seq<Line>, rows: nat)
    requires table.Valid() && table.n == |a| && table.m == |b| && rows <= |a| + 1
    reads table.data
  {
    forall i, j :: 0 <= i < rows && 0 <= j <= |b| ==> table.Correct(a, b, i, j)
  }

  /** Computes one entry from its three neighbours. */
  method FillCell(table: LcsTable, a: seq<Line>, b: seq<Line>, i: nat, j: nat)
    requires table.Valid() && table.n == |a| && table.m == |b| && 0 < i <= |a| && 0 < j <= |b|
    requires table.Correct(a, b, i - 1, j - 1) && table.Correct(a, b, i - 1, j) && table.Correct(a, b, i, j - 1)
    modifies table.data
    ensures table.Correct(a, b, i, j)
    ensures forall i', j' :: 0 <= i' <= |a| && 0 <= j' <= |b| && old(table.Correct(a, b, i', j')) ==>
      table.Correct(a, b, i', j')
    ensures forall i' :: i < i' <= |a| ==> table.At(i', 0) == old(table.At(i', 0))
  {
    EntriesFit(|a|, |b|);
    CellStep(a, b, i, j);
    if a[i - 1] == b[j - 1] {
      table.Set(i, j, table.At(i - 1, j - 1) + 1);
    } else {
      var up, left := table.At(i - 1, j), table.At(i, j - 1);
      table.Set(i, j, if up < left then left else up);
    }
  }

  /** Fills one row, left to right, from the row above it. */
  method FillRow(table: LcsTable, a: seq<Line>, b: seq<Line>, i: nat)
    requires table.Valid() && table.n == |a| && table.m == |b| && 0 < i <= |a|
    requires RowsFilled(table, a, b, i)
    requires table.At(i, 0) == 0
    modifies table.data
    ensures RowsFilled(table, a, b, i + 1)
    ensures forall i' :: i < i' <= |a| ==> table.At(i', 0) == old(table.At(i', 0))
  {
    var j: nat := 1;
    while j <= |b|
      invariant 1 <= j <= |b| + 1
      invariant RowsFilled(table, a, b, i)
      invariant forall j' :: 0 <= j' < j ==> table.Correct(a, b, i, j')
      invariant forall i' :: i < i' <= |a| ==> table.At(i', 0) == old(table.At(i', 0))
    {
      assert table.Correct(a, b, i - 1, j - 1) && table.Correct(a, b, i - 1, j) && table.Correct(a, b, i, j - 1);
      FillCell(table, a, b, i, j);
      j := j + 1;
    }
  }

  /** Fills the table; every entry ends as the true maximum for its prefix pair. */
  method FillLcs(table: LcsTable, a: seq<Line>, b: seq<Line>)
    requires table.Valid() && table.n == |a| && table.m == |b|
    requires forall i, j :: 0 <= i <= |a| && 0 <= j <= |b| ==> table.At(i, j) == 0
    modifies table.data
    ensures RowsFilled(table, a, b, |a| + 1)
    ensures forall i, j :: 0 <= i <= |a| && 0 <= j <= |b| ==> IsLongest(table.At(i, j) as nat, a[..i], b[..j])
  {
    var i: nat := 1;
    while i <= |a|
      invariant 1 <= i <= |a| + 1
      invariant RowsFilled(table, a, b, i)
      invariant forall i' :: i <= i' <= |a| ==> table.At(i', 0) == 0
    {
      FillRow(table, a, b, i);
      i := i + 1;
    }
    forall i, j | 0 <= i <= |a| && 0 <= j <= |b|
      ensures IsLongest(table.At(i, j) as nat, a[..i], b[..j])
    {
      assert table.Correct(a, b, i, j);
      LcsIsLongest(a[..i], b[..j]);
    }
  }

  function Reverse<T>(s: seq<T>): seq<T> {
    if s == [] then [] else [Last(s)] + Reverse(DropLast(s))
  }

  lemma {:induction false} ReverseStep<T>(s: seq<T>, x: T)
    ensures Reverse(s + [x]) == [x] + Reverse(s)
  {
    assert DropLast(s + [x]) == s;
  }

  /** One step of the walk back, in its own indices. */
  lemma TraceStep(a: seq<Line>, b: seq<Line>, i: nat, j: nat, back: seq<Edit>)
    requires i <= |a| && j <= |b|
    ensures TraceRemoves(a[..i], b[..j]) ==>
      var e := Edit(Removed, a[i - 1]);
      Script(a[..i], b[..j]) + Reverse(back) == Script(a[..i - 1], b[..j]) + Reverse(back + [e])
    ensures TraceAdds(a[..i], b[..j]) ==>
      var e := Edit(Added, b[j - 1]);
      Script(a[..i], b[..j]) + Reverse(back) == Script(a[..i], b[..j - 1]) + Reverse(back + [e])
    ensures i > 0 && j > 0 && a[i - 1] == b[j - 1] ==>
      var e := Edit(Context, a[i - 1]);
      Script(a[..i], b[..j]) + Reverse(back) == Script(a[..i - 1], b[..j - 1]) + Reverse(back + [e])
  {
    if i > 0 {
      PrefixStep(a, i);
      ReverseStep(back, Edit(Removed, a[i - 1]));
      ReverseStep(back, Edit(Context, a[i - 1]));
    }
    if j > 0 {
      PrefixStep(b, j);
      ReverseStep(back, Edit(Added, b[j - 1]));
    }
    ScriptStep(a[..i], b[..j]);
  }

  /** Which way the table sends the walk. */
  lemma TraceChoice(a: seq<Line>, b: seq<Line>, i: nat, j: nat)
    requires i <= |a| && j <= |b|
    ensures i > 0 && j == 0 ==> TraceRemoves(a[..i], b[..j])
    ensures i == 0 && j > 0 ==> TraceAdds(a[..i], b[..j])
    ensures i > 0 && j > 0 && a[i - 1] != b[j - 1] ==>
      && (TraceRemoves(a[..i], b[..j]) <==> Lcs(a[..i - 1], b[..j]) > Lcs(a[..i], b[..j - 1]))
      && (TraceAdds(a[..i], b[..j]) <==> !TraceRemoves(a[..i], b[..j]))
  {
    if i > 0 { PrefixStep(a, i); }
    if j > 0 { PrefixStep(b, j); }
  }

  /** What every caller may rely on about the traced script. */
  ghost predicate MinimalScript(edits: seq<Edit>, a: seq<Line>, b: seq<Line>) {
    && Transforms(edits, a, b)
    && RemovedFirst(edits)
    && (forall es :: Transforms(es, a, b) ==> Cost(edits) <= Cost(es))
    && IsPreferred(edits, a, b)
  }

  /** Any other script as cheap differs first, from the end, by adding or removing where this one keeps or adds. */
  ghost predicate IsPreferred(edits: seq<Edit>, a: seq<Line>, b: seq<Line>) {
    forall es :: Transforms(es, a, b) && Cost(es) == Cost(edits) ==> es == edits || Preferred(edits, es)
  }

  lemma ScriptIsMinimal(a: seq<Line>, b: seq<Line>)
    ensures MinimalScript(Script(a, b), a, b)
  {
    ScriptTransforms(a, b);
    ScriptRemovesFirst(a, b);
    forall es | Transforms(es, a, b)
      ensures Cost(Script(a, b)) <= Cost(es)
      ensures Cost(es) == Cost(Script(a, b)) ==> es == Script(a, b) || Preferred(Script(a, b), es)
    {
      ScriptIsOptimal(a, b, es);
      if Cost(es) == Cost(Script(a, b)) && es != Script(a, b) {
        ScriptIsPreferred(a, b, es);
      }
    }
  }

  /** What is left of one file when the other is used up. */
  method TraceRest(a: seq<Line>, b: seq<Line>, i0: nat, j0: nat, back0: seq<Edit>) returns (back: seq<Edit>)
    requires i0 <= |a| && j0 <= |b| && (i0 == 0 || j0 == 0)
    ensures Script(a[..i0], b[..j0]) + Reverse(back0) == Reverse(back)
  {
    var i, j := i0, j0;
    back := back0;
    ghost var goal := Script(a[..i0], b[..j0]) + Reverse(back0);
    while i > 0
      invariant 0 <= i <= |a| && 0 <= j <= |b| && (i == 0 || j == 0)
      invariant goal == Script(a[..i], b[..j]) + Reverse(back)
    {
      TraceChoice(a, b, i, j);
      TraceStep(a, b, i, j, back);
      i := i - 1;
      back := back + [Edit(Removed, a[i])];
    }
    while j > 0
      invariant i == 0 <= j <= |b|
      invariant goal == Script(a[..i], b[..j]) + Reverse(back)
    {
      TraceChoice(a, b, i, j);
      TraceStep(a, b, i, j, back);
      j := j - 1;
      back := back + [Edit(Added, b[j])];
    }
  }

  /** Walks the filled table from its last entry back to its first. */
  method TraceDiff(table: LcsTable, a: seq<Line>, b: seq<Line>) returns (edits: seq<Edit>)
    requires table.Valid() && table.n == |a| && table.m == |b|
    requires RowsFilled(table, a, b, |a| + 1)
    ensures edits == Script(a, b)
    ensures MinimalScript(edits, a, b)
  {
    var back := [];
    var i, j := |a|, |b|;
    assert a[..i] == a && b[..j] == b;
    while i > 0 && j > 0
      invariant 0 <= i <= |a| && 0 <= j <= |b|
      invariant Script(a, b) == Script(a[..i], b[..j]) + Reverse(back)
      decreases i + j
    {
      TraceChoice(a, b, i, j);
      TraceStep(a, b, i, j, back);
      assert table.Correct(a, b, i - 1, j) && table.Correct(a, b, i, j - 1);
      if a[i - 1] == b[j - 1] {
        back, i, j := back + [Edit(Context, a[i - 1])], i - 1, j - 1;
      } else if table.At(i - 1, j) > table.At(i, j - 1) {
        back, i := back + [Edit(Removed, a[i - 1])], i - 1;
      } else {
        back, j := back + [Edit(Added, b[j - 1])], j - 1;
      }
    }
    back := TraceRest(a, b, i, j, back);
    edits := Reverse(back);
    ScriptIsMinimal(a, b);
  }
}
