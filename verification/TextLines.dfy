/** Where a line of text ends. */
module TextLines {

  /** The next newline, or the end. */
  function LineEnd(s: string, p: nat): (q: nat)
    requires p <= |s|
    ensures p <= q <= |s|
    ensures q < |s| ==> s[q] == '\n'
    ensures forall i :: p <= i < q ==> s[i] != '\n'
    decreases |s| - p
  {
    if p < |s| && s[p] != '\n' then LineEnd(s, p + 1) else p
  }
}
