/**
 What closing a document does to its workers: which documents have a unit at
 any moment, which workers give up because theirs is gone, and what is still
 published after a close.
 */
module ClosedDocuments {
  import opened Wrappers
  import opened Scheduler
  import opened PublicationOrder

  /** Step `n` makes sure that document `u` has a unit: an open, or an update call on its way to the queue. */
  predicate Opens(run: seq<Action>, tr: seq<State>, n: nat, u: Uri)
    requires n < |run| && |tr| == |run| + 1
  {
    || run[n] == Open(u)
    || ((run[n].FindUnit? || run[n].Ensure?) && run[n].job < |tr[n].jobs| && tr[n].jobs[run[n].job].uri == u)
  }

  /** Some step before `k` opened the document, and no close of it came since. */
  ghost predicate OpenSince(run: seq<Action>, tr: seq<State>, n: int, k: nat, u: Uri)
    requires k <= |run| && |tr| == |run| + 1
  {
    0 <= n < k && Opens(run, tr, n, u) && forall m :: n < m < k ==> run[m] != Close(u)
  }

  lemma {:induction false} StepUnit(run: seq<Action>, tr: seq<State>, n: nat, u: Uri)
    requires IsTrace(run, tr) && n < |run|
    ensures Opens(run, tr, n, u) ==> u in tr[n + 1].units
    ensures run[n] == Close(u) ==> u !in tr[n + 1].units
    ensures !Opens(run, tr, n, u) && run[n] != Close(u) ==> (u in tr[n + 1].units <==> u in tr[n].units)
  {
    assert Step(tr[n], run[n]) == Some(tr[n + 1]);
  }

  /** Main result: a document has a unit if and only if it was opened and not closed since. */
  lemma {:induction false} HasUnitIff(run: seq<Action>, tr: seq<State>, k: nat, u: Uri)
    requires IsTrace(run, tr) && k <= |run|
    ensures u in tr[k].units <==> exists n :: OpenSince(run, tr, n, k, u)
    decreases k
  {
    if k > 0 {
      var b := k - 1;
      HasUnitIff(run, tr, b, u);
      StepUnit(run, tr, b, u);
      if n :| OpenSince(run, tr, n, b, u) {
        assert run[b] != Close(u) ==> OpenSince(run, tr, n, k, u);
      }
      if n :| OpenSince(run, tr, n, k, u) {
        assert run[b] != Close(u) || n == b;
        assert n < b ==> OpenSince(run, tr, n, b, u);
      }
      if Opens(run, tr, b, u) {
        assert OpenSince(run, tr, b, k, u);
      }
    }
  }

  /** Main result: a worker gives up at its lookup if and only if the document is not open at that moment. */
  lemma {:induction false} GivesUpIff(run: seq<Action>, tr: seq<State>, k: nat, j: nat)
    requires IsTrace(run, tr) && k < |run| && run[k] == Lookup(j)
    ensures j < |tr[k].jobs| && j < |tr[k + 1].jobs|
    ensures tr[k + 1].jobs[j].pc == Finished(Closed) || tr[k + 1].jobs[j].pc.Looked?
    ensures tr[k + 1].jobs[j].pc == Finished(Closed) <==> !exists n :: OpenSince(run, tr, n, k, tr[k].jobs[j].uri)
  {
    assert Step(tr[k], run[k]) == Some(tr[k + 1]);
    HasUnitIff(run, tr, k, tr[k].jobs[j].uri);
  }

  // ----- After a close -----

  /** Step `c` closes the document, and up to step `k` nothing opens it again. */
  ghost predicate StaysClosed(run: seq<Action>, tr: seq<State>, c: nat, k: nat, u: Uri)
    requires k <= |run| && |tr| == |run| + 1
  {
    c < k && run[c] == Close(u) && forall n :: c < n < k ==> !Opens(run, tr, n, u)
  }

  lemma {:induction false} NoUnitWhileClosed(run: seq<Action>, tr: seq<State>, c: nat, k: nat, u: Uri)
    requires IsTrace(run, tr) && k <= |run| && StaysClosed(run, tr, c, k, u)
    ensures u !in tr[k].units
  {
    HasUnitIff(run, tr, k, u);
    assert !Opens(run, tr, c, u);
  }

  /** The worker has found its unit. */
  predicate HoldsOn(pc: Pc) {
    pc.Looked? || pc.Parsed? || pc.Passed?
  }

  /** The worker has not yet looked up its unit, or found it gone. */
  predicate NotServed(pc: Pc) {
    !HoldsOn(pc) && (pc.Finished? ==> pc == Finished(Closed))
  }

  lemma {:induction false} StepNotServed(s: State, a: Action, j: nat)
    requires Step(s, a).Some? && j < |s.jobs| && s.jobs[j].uri !in s.units && NotServed(s.jobs[j].pc)
    ensures j < |Step(s, a).value.jobs| && NotServed(Step(s, a).value.jobs[j].pc)
  {
  }

  /** A call adds its job at the start of its way. */
  lemma {:induction false} NewJob(s: State, a: Action, j: nat)
    requires Step(s, a).Some? && |s.jobs| <= j < |Step(s, a).value.jobs|
    ensures Step(s, a).value.jobs[j].pc == Called
  {
  }

  /**
   Main result: while a closed document stays closed, a worker that had not
   looked up its unit before the close, or whose call came later, never gets
   one: if it has finished, it has given up.
   */
  lemma {:induction false} ClosedWorkerGivesUp(run: seq<Action>, tr: seq<State>, c: nat, k: nat, u: Uri, j: nat)
    requires IsTrace(run, tr) && k <= |run| && StaysClosed(run, tr, c, k, u)
    requires j < |tr[k].jobs| && tr[k].jobs[j].uri == u
    requires j < |tr[c].jobs| ==> !HoldsOn(tr[c].jobs[j].pc) && !tr[c].jobs[j].pc.Finished?
    ensures !HoldsOn(tr[k].jobs[j].pc)
    ensures tr[k].jobs[j].pc.Finished? ==> tr[k].jobs[j].pc == Finished(Closed)
    decreases k
  {
    assert Step(tr[k - 1], run[k - 1]) == Some(tr[k]);
    if j >= |tr[k - 1].jobs| {
      NewJob(tr[k - 1], run[k - 1], j);
    } else if k == c + 1 {
      assert tr[k].jobs == tr[c].jobs;
    } else {
      StepJobs(tr[k - 1], run[k - 1], j);
      assert StaysClosed(run, tr, c, k - 1, u);
      ClosedWorkerGivesUp(run, tr, c, k - 1, u, j);
      NoUnitWhileClosed(run, tr, c, k - 1, u);
      StepNotServed(tr[k - 1], run[k - 1], j);
    }
  }

  /**
   Main result: what is published of a closed document while it stays closed
   comes only from workers that had found their unit before the close.
   */
  lemma {:induction false} OnlyHeldUnitsPublish(run: seq<Action>, tr: seq<State>, c: nat, k: nat, u: Uri, e: nat)
    requires IsTrace(run, tr) && k <= |run| && StaysClosed(run, tr, c, k, u)
    requires |tr[c].published| <= e < |tr[k].published| && tr[k].published[e].uri == u
    ensures tr[k].published[e].job < |tr[c].jobs| && HoldsOn(tr[c].jobs[tr[k].published[e].job].pc)
  {
    var p := WrittenAfter(run, tr, c, k, e);
    var j := run[p].job;
    assert Step(tr[p], run[p]) == Some(tr[p + 1]);
    if c == p {
      assert false;
    }
    assert StaysClosed(run, tr, c, p, u);
    if j < |tr[c].jobs| {
      PastLater(run, tr, c, p, j, 0);
    }
    if !(j < |tr[c].jobs| && HoldsOn(tr[c].jobs[j].pc)) {
      ClosedWorkerGivesUp(run, tr, c, p, u, j);
      assert false;
    }
  }

  /** An entry that was not in the log at step `c` was written by a publish from then on. */
  lemma {:induction false} WrittenAfter(run: seq<Action>, tr: seq<State>, c: nat, k: nat, e: nat) returns (p: nat)
    requires IsTrace(run, tr) && c <= k <= |run| && |tr[c].published| <= e < |tr[k].published|
    ensures c <= p < k && run[p] == Publish(tr[k].published[e].job) && run[p].job < |tr[p].jobs|
    ensures tr[p].jobs[run[p].job].uri == tr[k].published[e].uri
    decreases k
  {
    assert Step(tr[k - 1], run[k - 1]) == Some(tr[k]);
    if e < |tr[k - 1].published| {
      LogGrows(tr[k - 1], run[k - 1]);
      p := WrittenAfter(run, tr, c, k - 1, e);
    } else {
      p := k - 1;
    }
  }
}
