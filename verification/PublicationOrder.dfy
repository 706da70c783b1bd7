/**
 When the scheduler's publications are what they seem: when a publication is
 of the newest version, when it comes after a newer one, and when the state it
 hands over is its own. Each is decided by what happens between a worker's
 reparse or stale check and its publish.
 */
module PublicationOrder {
  import opened Wrappers
  import opened Scheduler

  // ----- Traces -----

  /** The states a run goes through, from the first to the last. */
  ghost predicate IsTrace(run: seq<Action>, tr: seq<State>) {
    && |tr| == |run| + 1 && tr[0] == INIT
    && forall i {:trigger run[i]} :: 0 <= i < |run| ==> Step(tr[i], run[i]) == Some(tr[i + 1])
  }

  /** Every run has its trace. */
  lemma {:induction false} TraceOfRun(run: seq<Action>) returns (tr: seq<State>)
    requires Run(INIT, run).Some?
    ensures IsTrace(run, tr) && tr[|run|] == Run(INIT, run).value
  {
    if run == [] {
      tr := [INIT];
    } else {
      var front := TraceOfRun(run[..|run| - 1]);
      tr := front + [Run(INIT, run).value];
      TraceGrows(run, front, tr);
    }
  }

  lemma {:induction false} TraceGrows(run: seq<Action>, front: seq<State>, tr: seq<State>)
    requires run != [] && IsTrace(run[..|run| - 1], front) && |tr| == |run| + 1 && tr[..|run|] == front
    requires Step(front[|run| - 1], run[|run| - 1]) == Some(tr[|run|])
    ensures IsTrace(run, tr)
  {
    var shorter := run[..|run| - 1];
    assert forall i :: 0 <= i < |run| ==> tr[i] == front[i];
    forall i | 0 <= i < |run| ensures Step(tr[i], run[i]) == Some(tr[i + 1]) {
      if i < |shorter| {
        assert shorter[i] == run[i];
      }
    }
  }

  lemma {:induction false} TraceInv(run: seq<Action>, tr: seq<State>, i: nat)
    requires IsTrace(run, tr) && i <= |run|
    ensures Inv(tr[i])
  {
    if i == 0 {
      InitOk();
    } else {
      TraceInv(run, tr, i - 1);
      assert Step(tr[i - 1], run[i - 1]) == Some(tr[i]);
      StepKeepsInv(tr[i - 1], run[i - 1]);
    }
  }

  /** A job keeps its document and version, and what is received stays received. */
  lemma {:induction false} JobLater(run: seq<Action>, tr: seq<State>, i: nat, k: nat, j: nat)
    requires IsTrace(run, tr) && i <= k <= |run| && j < |tr[i].jobs|
    ensures j < |tr[k].jobs|
    ensures tr[k].jobs[j].uri == tr[i].jobs[j].uri && tr[k].jobs[j].version == tr[i].jobs[j].version
    ensures IsNoted(tr[i].jobs[j].pc) ==> IsNoted(tr[k].jobs[j].pc)
    decreases k
  {
    if i < k {
      JobLater(run, tr, i, k - 1, j);
      assert Step(tr[k - 1], run[k - 1]) == Some(tr[k]);
      StepJobs(tr[k - 1], run[k - 1], j);
    }
  }

  predicate PastReparse(pc: Pc, tu: nat) {
    pc == Parsed(tu) || pc == Passed(tu) || pc.Finished?
  }

  predicate PastCheck(pc: Pc, tu: nat) {
    pc == Passed(tu) || pc.Finished?
  }

  /** A worker never goes back, and holds on to its unit. */
  lemma {:induction false} StepPast(s: State, a: Action, j: nat, tu: nat)
    requires Step(s, a).Some? && j < |s.jobs|
    ensures
      var s' := Step(s, a).value;
      && j < |s'.jobs|
      && (PastReparse(s.jobs[j].pc, tu) ==> PastReparse(s'.jobs[j].pc, tu))
      && (PastCheck(s.jobs[j].pc, tu) ==> PastCheck(s'.jobs[j].pc, tu))
      && (s.jobs[j].pc.Finished? ==> s'.jobs[j].pc == s.jobs[j].pc)
  {
  }

  lemma {:induction false} PastLater(run: seq<Action>, tr: seq<State>, i: nat, k: nat, j: nat, tu: nat)
    requires IsTrace(run, tr) && i <= k <= |run| && j < |tr[i].jobs|
    ensures j < |tr[k].jobs|
    ensures PastReparse(tr[i].jobs[j].pc, tu) ==> PastReparse(tr[k].jobs[j].pc, tu)
    ensures PastCheck(tr[i].jobs[j].pc, tu) ==> PastCheck(tr[k].jobs[j].pc, tu)
    ensures tr[i].jobs[j].pc.Finished? ==> tr[k].jobs[j].pc == tr[i].jobs[j].pc
    decreases k
  {
    if i < k {
      PastLater(run, tr, i, k - 1, j, tu);
      assert Step(tr[k - 1], run[k - 1]) == Some(tr[k]);
      StepPast(tr[k - 1], run[k - 1], j, tu);
    }
  }

  lemma {:induction false} OpenBefore(run: seq<Action>, tr: seq<State>, i: nat, k: nat, u: Uri)
    requires IsTrace(run, tr) && i <= k <= |run| && u !in tr[k].closed
    ensures u !in tr[i].closed
    decreases k
  {
    if i < k {
      assert Step(tr[k - 1], run[k - 1]) == Some(tr[k]);
      OpenBefore(run, tr, i, k - 1, u);
    }
  }

  /** A worker past its check has made one, and past its reparse too. */
  lemma {:induction false} CameThrough(run: seq<Action>, tr: seq<State>, k: nat, j: nat)
    requires IsTrace(run, tr) && k <= |run| && j < |tr[k].jobs|
    ensures tr[k].jobs[j].pc.Parsed? || tr[k].jobs[j].pc.Passed? ==> exists r :: 0 <= r < k && run[r] == Reparse(j)
    ensures tr[k].jobs[j].pc.Passed? ==> exists c :: 0 <= c < k && run[c] == Check(j)
    decreases k
  {
    if k > 0 && (tr[k].jobs[j].pc.Parsed? || tr[k].jobs[j].pc.Passed?) {
      assert Step(tr[k - 1], run[k - 1]) == Some(tr[k]);
      if run[k - 1] != Reparse(j) && run[k - 1] != Check(j) {
        assert j < |tr[k - 1].jobs| && tr[k].jobs[j].pc == tr[k - 1].jobs[j].pc;
      }
      CameThrough(run, tr, k - 1, j);
    }
  }

  // ----- The register between a check and a publish -----

  /** Step `n` is an exchange that raises the document's register. */
  predicate Raises(run: seq<Action>, tr: seq<State>, n: nat, u: Uri)
    requires n < |run| && |tr| == |run| + 1
  {
    run[n].Exchange? && Register(tr[n], u) < Register(tr[n + 1], u)
  }

  lemma {:induction false} RegisterLater(run: seq<Action>, tr: seq<State>, i: nat, k: nat, u: Uri)
    requires IsTrace(run, tr) && i <= k <= |run| && u !in tr[k].closed
    ensures Register(tr[i], u) <= Register(tr[k], u)
    ensures Register(tr[i], u) == Register(tr[k], u) <==> forall n :: i <= n < k ==> !Raises(run, tr, n, u)
    decreases k
  {
    if i < k {
      var n := k - 1;
      assert Step(tr[n], run[n]) == Some(tr[k]);
      TraceInv(run, tr, n);
      StepRegister(tr[n], run[n], u);
      RegisterLater(run, tr, i, n, u);
      if Register(tr[n], u) != Register(tr[k], u) {
        RegisterMoves(tr[n], run[n], u);
        assert Raises(run, tr, n, u);
      }
    }
  }

  /** At a check that passed, the version was the register. */
  lemma {:induction false} VersionAtCheck(run: seq<Action>, tr: seq<State>, c: nat, p: nat, j: nat)
    requires IsTrace(run, tr) && c < p < |run| && run[c] == Check(j) && run[p] == Publish(j)
    requires j < |tr[p].jobs| && tr[p].jobs[j].uri !in tr[p].closed
    ensures j < |tr[c].jobs| && tr[c].jobs[j].uri == tr[p].jobs[j].uri && tr[c].jobs[j].version == tr[p].jobs[j].version
    ensures tr[p].jobs[j].version == Register(tr[c], tr[p].jobs[j].uri)
  {
    assert Step(tr[c], run[c]) == Some(tr[c + 1]);
    assert Step(tr[p], run[p]) == Some(tr[p + 1]);
    JobLater(run, tr, c, p, j);
    OpenBefore(run, tr, c, p, tr[p].jobs[j].uri);
    TraceInv(run, tr, c);
    CheckCompares(tr[c], j);
    PastLater(run, tr, c + 1, p, j, 0);
  }

  /**
   Main result: what a worker publishes is the newest version received, if and
   only if no exchange has raised the register since its stale check.
   */
  lemma {:induction false} PublishesNewestIff(run: seq<Action>, tr: seq<State>, c: nat, p: nat, j: nat)
    requires IsTrace(run, tr) && c < p < |run| && run[c] == Check(j) && run[p] == Publish(j)
    requires j < |tr[p].jobs| && tr[p].jobs[j].uri !in tr[p].closed
    ensures
      var u, v := tr[p].jobs[j].uri, tr[p].jobs[j].version;
      IsMaxReceived(tr[p], u, v) <==> forall n :: c < n < p ==> !Raises(run, tr, n, u)
  {
    var u, v := tr[p].jobs[j].uri, tr[p].jobs[j].version;
    VersionAtCheck(run, tr, c, p, j);
    RegisterLater(run, tr, c, p, u);
    assert !Raises(run, tr, c, u);
    TraceInv(run, tr, p);
    RegisterIsMax(tr[p], u);
    if IsMaxReceived(tr[p], u, v) {
      NewestIsUnique(tr[p], u, v, Register(tr[p], u));
    }
  }

  lemma {:induction false} RegisterIsMax(s: State, u: Uri)
    requires Inv(s) && u !in s.closed
    ensures IsMaxReceived(s, u, Register(s, u))
  {
    assert JobsOk(s, u) && RegisterAttained(s, u);
  }

  // ----- Order -----

  /** Step `k` publishes a newer version of document `u` than `v`, one not yet received at step `c`. */
  predicate Overtakes(run: seq<Action>, tr: seq<State>, c: nat, k: nat, u: Uri, v: int)
    requires k < |run| && c < |tr| && k < |tr|
  {
    && run[k].Publish? && run[k].job < |tr[k].jobs|
    && tr[k].jobs[run[k].job].uri == u && tr[k].jobs[run[k].job].version > v
    && !NotedFor(tr[c], u, run[k].job)
  }

  /** An entry of the log was written by a publish step, and stays. */
  lemma {:induction false} EntryWritten(run: seq<Action>, tr: seq<State>, p: nat, e: nat) returns (k: nat)
    requires IsTrace(run, tr) && p <= |run| && e < |tr[p].published|
    ensures k < p && run[k] == Publish(tr[p].published[e].job) && run[k].job < |tr[k].jobs|
    ensures
      var job := tr[k].jobs[run[k].job];
      job.uri == tr[p].published[e].uri && job.version == tr[p].published[e].version
    decreases p
  {
    var before := tr[p - 1];
    assert Step(before, run[p - 1]) == Some(tr[p]);
    if e < |before.published| {
      LogGrows(before, run[p - 1]);
      k := EntryWritten(run, tr, p - 1, e);
    } else {
      k := p - 1;
    }
  }

  lemma {:induction false} LogGrows(s: State, a: Action)
    requires Step(s, a).Some?
    ensures |s.published| <= |Step(s, a).value.published|
    ensures forall e :: 0 <= e < |s.published| ==> Step(s, a).value.published[e] == s.published[e]
  {
  }

  lemma {:induction false} EntryStays(run: seq<Action>, tr: seq<State>, k: nat, p: nat, e: nat)
    requires IsTrace(run, tr) && k <= p <= |run| && e < |tr[k].published|
    ensures e < |tr[p].published| && tr[p].published[e] == tr[k].published[e]
    decreases p
  {
    if k < p {
      EntryStays(run, tr, k, p - 1, e);
      assert Step(tr[p - 1], run[p - 1]) == Some(tr[p]);
      LogGrows(tr[p - 1], run[p - 1]);
    }
  }

  /** The log holds a newer version of the document than `v`. */
  predicate NewerPublished(s: State, u: Uri, v: int) {
    exists e :: 0 <= e < |s.published| && s.published[e].uri == u && s.published[e].version > v
  }

  lemma {:induction false} NotYetReceived(run: seq<Action>, tr: seq<State>, c: nat, k: nat, i: nat, u: Uri)
    requires IsTrace(run, tr) && c <= k <= |run| && u !in tr[c].closed && i < |tr[k].jobs|
    requires tr[k].jobs[i].uri == u && tr[k].jobs[i].version > Register(tr[c], u)
    ensures !NotedFor(tr[c], u, i)
  {
    TraceInv(run, tr, c);
    assert JobsOk(tr[c], u);
    if NotedFor(tr[c], u, i) {
      JobLater(run, tr, c, k, i);
    }
  }

  /**
   Main result: a publication follows a newer one of the same document, if and
   only if a version newer than its own was both received and published between
   its stale check and its publish.
   */
  lemma {:induction false} OutOfOrderIff(run: seq<Action>, tr: seq<State>, c: nat, p: nat, j: nat)
    requires IsTrace(run, tr) && c < p < |run| && run[c] == Check(j) && run[p] == Publish(j)
    requires j < |tr[p].jobs| && tr[p].jobs[j].uri !in tr[p].closed
    ensures
      var u, v := tr[p].jobs[j].uri, tr[p].jobs[j].version;
      NewerPublished(tr[p], u, v) <==> exists k :: c < k < p && Overtakes(run, tr, c, k, u, v)
  {
    var u, v := tr[p].jobs[j].uri, tr[p].jobs[j].version;
    VersionAtCheck(run, tr, c, p, j);
    OpenBefore(run, tr, c, p, u);
    if NewerPublished(tr[p], u, v) {
      var e :| 0 <= e < |tr[p].published| && tr[p].published[e].uri == u && tr[p].published[e].version > v;
      var k := EntryWritten(run, tr, p, e);
      PublishedAfterCheck(run, tr, c, k, u, v);
      assert Overtakes(run, tr, c, k, u, v);
    }
    if k :| c < k < p && Overtakes(run, tr, c, k, u, v) {
      assert Step(tr[k], run[k]) == Some(tr[k + 1]);
      EntryStays(run, tr, k + 1, p, |tr[k].published|);
    }
  }

  /** At the check nothing newer than the version was received, so nothing newer was published before it. */
  lemma {:induction false} PublishedAfterCheck(run: seq<Action>, tr: seq<State>, c: nat, k: nat, u: Uri, v: int)
    requires IsTrace(run, tr) && c < |run| && k < |run| && u !in tr[c].closed && v == Register(tr[c], u)
    requires run[c].Check? && run[k].Publish? && run[k].job < |tr[k].jobs|
    requires tr[k].jobs[run[k].job].uri == u && tr[k].jobs[run[k].job].version > v
    ensures c < k && !NotedFor(tr[c], u, run[k].job)
  {
    var i := run[k].job;
    assert Step(tr[k], run[k]) == Some(tr[k + 1]);
    if k < c {
      JobLater(run, tr, k, c, i);
      NotYetReceived(run, tr, c, c, i, u);
      assert false;
    }
    NotYetReceived(run, tr, c, k, i, u);
  }

  // ----- The state handed over -----

  /** Step `n` is a reparse of the unit `tu`. */
  predicate Reparses(run: seq<Action>, tr: seq<State>, n: nat, tu: nat)
    requires n < |run| && n < |tr|
  {
    && run[n].Reparse? && run[n].job < |tr[n].jobs|
    && tr[n].jobs[run[n].job].pc == Looked(tu)
  }

  /** Step `n` is the last reparse of the unit before step `p`. */
  ghost predicate LastReparse(run: seq<Action>, tr: seq<State>, n: nat, p: nat, tu: nat)
    requires p <= |run| && |tr| == |run| + 1
  {
    n < p && Reparses(run, tr, n, tu) && forall i :: n < i < p ==> !Reparses(run, tr, i, tu)
  }

  lemma {:induction false} ParsedMoves(s: State, a: Action, tu: nat)
    requires Step(s, a).Some? && tu < |s.heap|
    ensures
      var s' := Step(s, a).value;
      && tu < |s'.heap|
      && (s'.heap[tu].parsed == s.heap[tu].parsed ||
          (a.Reparse? && s.jobs[a.job].pc == Looked(tu) && s'.heap[tu].parsed == s.jobs[a.job].version))
  {
  }

  /** The unit's state is the one of its last reparse. */
  lemma {:induction false} ParsedIsLast(run: seq<Action>, tr: seq<State>, n: nat, p: nat, tu: nat)
    requires IsTrace(run, tr) && p <= |run| && LastReparse(run, tr, n, p, tu)
    ensures tu < |tr[p].heap| && tr[p].heap[tu].parsed == tr[n].jobs[run[n].job].version
    decreases p
  {
    assert Step(tr[p - 1], run[p - 1]) == Some(tr[p]);
    if n < p - 1 {
      ParsedIsLast(run, tr, n, p - 1, tu);
      ParsedMoves(tr[p - 1], run[p - 1], tu);
      assert !Reparses(run, tr, p - 1, tu);
    }
  }

  lemma {:induction false} LastReparseExists(run: seq<Action>, tr: seq<State>, r: nat, p: nat, tu: nat) returns (n: nat)
    requires IsTrace(run, tr) && r < p <= |run| && Reparses(run, tr, r, tu)
    ensures r <= n && LastReparse(run, tr, n, p, tu)
    decreases p
  {
    if Reparses(run, tr, p - 1, tu) {
      n := p - 1;
    } else {
      n := LastReparseExists(run, tr, r, p - 1, tu);
    }
  }

  /** The unit a worker publishes from is the one it reparsed. */
  lemma {:induction false} SameUnit(run: seq<Action>, tr: seq<State>, r: nat, p: nat, j: nat) returns (tu: nat)
    requires IsTrace(run, tr) && r < p < |run| && run[r] == Reparse(j) && run[p] == Publish(j)
    ensures Reparses(run, tr, r, tu) && j < |tr[p].jobs| && tr[p].jobs[j].pc == Passed(tu)
    ensures tr[r].jobs[j].uri == tr[p].jobs[j].uri && tr[r].jobs[j].version == tr[p].jobs[j].version
    ensures tr[p + 1].published == tr[p].published + [Publication(j, tr[p].jobs[j].uri, tr[p].jobs[j].version, tr[p].heap[tu].parsed)]
  {
    assert Step(tr[r], run[r]) == Some(tr[r + 1]);
    assert Step(tr[p], run[p]) == Some(tr[p + 1]);
    tu := tr[r].jobs[j].pc.tu;
    JobLater(run, tr, r, p, j);
    PastLater(run, tr, r + 1, p, j, tu);
  }

  function LastPublication(s: State): Publication
    requires s.published != []
  {
    s.published[|s.published| - 1]
  }

  /**
   Main result: a publication hands over the state of its own version, if and
   only if that is the version of the last reparse of its unit before it.
   */
  lemma {:induction false} OwnStateIff(run: seq<Action>, tr: seq<State>, r: nat, p: nat, j: nat) returns (tu: nat, n: nat)
    requires IsTrace(run, tr) && r < p < |run| && run[r] == Reparse(j) && run[p] == Publish(j)
    ensures j < |tr[p].jobs| && tr[p].jobs[j].pc == Passed(tu)
    ensures r <= n && LastReparse(run, tr, n, p, tu)
    ensures tr[p + 1].published != [] && LastPublication(tr[p + 1]).job == j
    ensures
      var q := LastPublication(tr[p + 1]);
      q.parsed == q.version <==> tr[n].jobs[run[n].job].version == q.version
  {
    tu := SameUnit(run, tr, r, p, j);
    n := LastReparseExists(run, tr, r, p, tu);
    ParsedIsLast(run, tr, n, p, tu);
  }

  /** No other update of the document has the job's version. */
  ghost predicate VersionIsOwn(s: State, j: nat) {
    j < |s.jobs| && forall i :: 0 <= i < |s.jobs| && s.jobs[i].uri == s.jobs[j].uri && s.jobs[i].version == s.jobs[j].version ==> i == j
  }

  /**
   Main result: with a version of its own, it does so if and only if no other
   reparse of the unit came between its own reparse and its publish.
   */
  lemma {:induction false} OwnStateIffUndisturbed(run: seq<Action>, tr: seq<State>, r: nat, p: nat, j: nat) returns (tu: nat)
    requires IsTrace(run, tr) && r < p < |run| && run[r] == Reparse(j) && run[p] == Publish(j) && VersionIsOwn(tr[p], j)
    ensures j < |tr[p].jobs| && tr[p].jobs[j].pc == Passed(tu)
    ensures tr[p + 1].published != [] && LastPublication(tr[p + 1]).job == j
    ensures
      var q := LastPublication(tr[p + 1]);
      q.parsed == q.version <==> forall i :: r < i < p ==> !Reparses(run, tr, i, tu)
  {
    tu := SameUnit(run, tr, r, p, j);
    var n := LastReparseExists(run, tr, r, p, tu);
    ParsedIsLast(run, tr, n, p, tu);
    if n > r {
      AnotherReparser(run, tr, r, n, p, j, tu);
    }
  }

  /** A later reparse of the unit is another job's, of the same document. */
  lemma {:induction false} AnotherReparser(run: seq<Action>, tr: seq<State>, r: nat, n: nat, p: nat, j: nat, tu: nat)
    requires IsTrace(run, tr) && r < n < p < |run| && run[r] == Reparse(j)
    requires Reparses(run, tr, r, tu) && Reparses(run, tr, n, tu) && VersionIsOwn(tr[p], j)
    ensures tr[n].jobs[run[n].job].version != tr[p].jobs[j].version
  {
    var i := run[n].job;
    assert Step(tr[r], run[r]) == Some(tr[r + 1]);
    PastLater(run, tr, r + 1, n, j, tu);
    assert i != j;
    TraceInv(run, tr, r);
    TraceInv(run, tr, n);
    UnitKeepsDocument(run, tr, r, n, tu);
    JobLater(run, tr, r, p, j);
    JobLater(run, tr, n, p, i);
  }

  lemma {:induction false} UnitKeepsDocument(run: seq<Action>, tr: seq<State>, i: nat, k: nat, tu: nat)
    requires IsTrace(run, tr) && i <= k <= |run| && tu < |tr[i].heap|
    ensures tu < |tr[k].heap| && tr[k].heap[tu].uri == tr[i].heap[tu].uri
    decreases k
  {
    if i < k {
      UnitKeepsDocument(run, tr, i, k - 1, tu);
      assert Step(tr[k - 1], run[k - 1]) == Some(tr[k]);
    }
  }
}
