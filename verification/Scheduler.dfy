/**
 The diagnostics scheduler of the language server (lib/LSP/TUScheduler.cpp and
 lib/LSP/NslTU.h) as a step system. Every atomic action of an update call and of
 the worker it queues is one step; any interleaving of steps is a run.

 The scheduler's map mutex is not modelled: its critical sections may interleave
 here, so every run of the code is a run of this model.
 */
module Scheduler {
  import opened Wrappers

  type Uri = string

  /** A translation unit: the received-version register and the version of the last completed reparse. */
  datatype Tu = Tu(uri: Uri, received: int, parsed: int)

  datatype Outcome = Published | Stale | Closed

  /** Where an update call, or the worker task it queued, has got to. */
  datatype Pc =
    | Called                        // update() entered
    | Noting(tu: nat)               // unit found or made; noteReceived about to load
    | Trying(tu: nat, prev: int)    // loaded `prev`; at the loop test and the exchange
    | Noted                         // noteReceived returned
    | Ensured                       // schedule() has made sure a unit exists
    | Queued                        // task in the pool
    | Looked(tu: nat)               // worker holds the unit
    | Parsed(tu: nat)               // reparse done
    | Passed(tu: nat)               // stale check passed, about to publish
    | Finished(outcome: Outcome)

  datatype Job = Job(uri: Uri, version: int, pc: Pc)

  /** `job` is the update call it came from; `parsed` is the version of the state handed over. */
  datatype Publication = Publication(job: nat, uri: Uri, version: int, parsed: int)

  datatype State = State(
    units: map<Uri, nat>,
    heap: seq<Tu>,
    jobs: seq<Job>,
    published: seq<Publication>,
    closed: set<Uri>)

  const INIT := State(map[], [], [], [], {})

  datatype Action =
    | Open(uri: Uri)
    | Close(uri: Uri)
    | Call(uri: Uri, version: int)
    | FindUnit(job: nat)
    | Load(job: nat)
    | Exchange(job: nat, spurious: bool)  // a weak exchange may fail for no reason
    | Ensure(job: nat)
    | Enqueue(job: nat)
    | Lookup(job: nat)
    | Reparse(job: nat)
    | Check(job: nat)
    | Publish(job: nat)

  // ----- Steps -----

  /** Makes a unit for `uri` unless there is one. */
  function FindOrMake(s: State, uri: Uri): State {
    if uri in s.units then s
    else s.(units := s.units[uri := |s.heap|], heap := s.heap + [Tu(uri, -1, -1)])
  }

  function Move(s: State, j: nat, pc: Pc): State
    requires j < |s.jobs|
  {
    s.(jobs := s.jobs[j := s.jobs[j].(pc := pc)])
  }

  predicate At(s: State, j: nat) {
    j < |s.jobs|
  }

  function Step(s: State, a: Action): Option<State> {
    match a
    case Open(u) => Some(FindOrMake(s, u))
    case Close(u) => Some(s.(units := s.units - {u}, closed := s.closed + {u}))
    case Call(u, v) => Some(s.(jobs := s.jobs + [Job(u, v, Called)]))
    case FindUnit(j) =>
      if !At(s, j) || s.jobs[j].pc != Called then None else
      var s' := FindOrMake(s, s.jobs[j].uri);
      Some(Move(s', j, Noting(s'.units[s.jobs[j].uri])))
    case Load(j) =>
      if !At(s, j) || !s.jobs[j].pc.Noting? || s.jobs[j].pc.tu >= |s.heap| then None else
      var tu := s.jobs[j].pc.tu;
      Some(Move(s, j, Trying(tu, s.heap[tu].received)))
    case Exchange(j, spurious) =>
      if !At(s, j) || !s.jobs[j].pc.Trying? || s.jobs[j].pc.tu >= |s.heap| then None else
      var tu, v := s.jobs[j].pc.tu, s.jobs[j].version;
      if v <= s.jobs[j].pc.prev then Some(Move(s, j, Noted))
      else if spurious || s.heap[tu].received != s.jobs[j].pc.prev then
        Some(Move(s, j, Trying(tu, s.heap[tu].received)))
      else Some(Move(s.(heap := s.heap[tu := s.heap[tu].(received := v)]), j, Noted))
    case Ensure(j) =>
      if !At(s, j) || s.jobs[j].pc != Noted then None else
      Some(Move(FindOrMake(s, s.jobs[j].uri), j, Ensured))
    case Enqueue(j) =>
      if !At(s, j) || s.jobs[j].pc != Ensured then None else Some(Move(s, j, Queued))
    case Lookup(j) =>
      if !At(s, j) || s.jobs[j].pc != Queued then None
      else if s.jobs[j].uri !in s.units then Some(Move(s, j, Finished(Closed)))
      else Some(Move(s, j, Looked(s.units[s.jobs[j].uri])))
    case Reparse(j) =>
      if !At(s, j) || !s.jobs[j].pc.Looked? || s.jobs[j].pc.tu >= |s.heap| then None else
      var tu := s.jobs[j].pc.tu;
      Some(Move(s.(heap := s.heap[tu := s.heap[tu].(parsed := s.jobs[j].version)]), j, Parsed(tu)))
    case Check(j) =>
      if !At(s, j) || !s.jobs[j].pc.Parsed? || s.jobs[j].pc.tu >= |s.heap| then None else
      var tu := s.jobs[j].pc.tu;
      Some(Move(s, j, if s.jobs[j].version < s.heap[tu].received then Finished(Stale) else Passed(tu)))
    case Publish(j) =>
      if !At(s, j) || !s.jobs[j].pc.Passed? || s.jobs[j].pc.tu >= |s.heap| then None else
      var tu := s.jobs[j].pc.tu;
      var p := Publication(j, s.jobs[j].uri, s.jobs[j].version, s.heap[tu].parsed);
      Some(Move(s.(published := s.published + [p]), j, Finished(Published)))
  }

  /** The state after a run, or none if some action was not enabled. */
  function Run(s: State, run: seq<Action>): Option<State> {
    if run == [] then Some(s)
    else
      var before := Run(s, run[..|run| - 1]);
      if before.None? then None else Step(before.value, run[|run| - 1])
  }

  // ----- What is received -----

  /** noteReceived has returned for this job. */
  predicate IsNoted(pc: Pc) {
    !pc.Called? && !pc.Noting? && !pc.Trying?
  }

  function Register(s: State, u: Uri): int {
    if u in s.units && s.units[u] < |s.heap| then s.heap[s.units[u]].received else -1
  }

  predicate NotedFor(s: State, u: Uri, j: nat) {
    j < |s.jobs| && s.jobs[j].uri == u && IsNoted(s.jobs[j].pc)
  }

  /** `m` is the largest version received for `u`, or -1 if none is larger. */
  ghost predicate IsMaxReceived(s: State, u: Uri, m: int) {
    && m >= -1
    && (forall j: nat :: NotedFor(s, u, j) ==> s.jobs[j].version <= m)
    && (m == -1 || exists j: nat :: NotedFor(s, u, j) && s.jobs[j].version == m)
  }

  // ----- Invariant -----

  predicate HoldsUnit(pc: Pc) {
    pc.Noting? || pc.Trying? || pc.Looked? || pc.Parsed? || pc.Passed?
  }

  ghost predicate HeapOk(s: State) {
    && (forall i :: 0 <= i < |s.heap| ==> s.heap[i].received >= -1)
    && (forall u :: u in s.units ==> s.units[u] < |s.heap| && s.heap[s.units[u]].uri == u)
    && (forall j :: 0 <= j < |s.jobs| && HoldsUnit(s.jobs[j].pc) ==>
          s.jobs[j].pc.tu < |s.heap| && s.heap[s.jobs[j].pc.tu].uri == s.jobs[j].uri)
  }

  /** What a job of an unclosed document knows, given its unit and the register. */
  predicate JobOk(job: Job, units: map<Uri, nat>, register: int) {
    && (!job.pc.Called? ==> job.uri in units)
    && (HoldsUnit(job.pc) ==> units[job.uri] == job.pc.tu)
    && (job.pc.Trying? ==> job.pc.prev <= register)
    && (IsNoted(job.pc) ==> job.version <= register)
    && (job.pc.Finished? ==> job.pc.outcome != Closed)
    && (job.pc == Finished(Stale) ==> job.version < register)
    && (job.pc.Passed? || job.pc == Finished(Published) ==> job.version >= -1)
  }

  ghost predicate JobsOk(s: State, u: Uri) {
    forall j :: 0 <= j < |s.jobs| && s.jobs[j].uri == u ==> JobOk(s.jobs[j], s.units, Register(s, u))
  }

  ghost predicate RegisterAttained(s: State, u: Uri) {
    Register(s, u) == -1 || exists j: nat :: NotedFor(s, u, j) && s.jobs[j].version == Register(s, u)
  }

  function TimesPublished(log: seq<Publication>, j: nat): nat {
    if log == [] then 0
    else TimesPublished(log[..|log| - 1], j) + (if log[|log| - 1].job == j then 1 else 0)
  }

  ghost predicate CountsOk(s: State) {
    forall j: nat :: TimesPublished(s.published, j) == if IsPublished(s, j) then 1 else 0
  }

  ghost predicate EntriesOk(s: State) {
    forall i :: 0 <= i < |s.published| ==>
      var p := s.published[i];
      p.job < |s.jobs| && p.uri == s.jobs[p.job].uri && p.version == s.jobs[p.job].version
  }

  ghost predicate Inv(s: State) {
    && HeapOk(s)
    && CountsOk(s) && EntriesOk(s)
    && (forall u :: u !in s.closed ==> JobsOk(s, u) && RegisterAttained(s, u))
  }

  lemma InitOk()
    ensures Inv(INIT)
  {
  }

  // ----- Every step keeps the invariant -----

  lemma MakeHeap(s: State, u: Uri)
    requires HeapOk(s)
    ensures HeapOk(FindOrMake(s, u)) && u in FindOrMake(s, u).units
    ensures FindOrMake(s, u).jobs == s.jobs
  {
  }

  lemma MoveHeap(s: State, j: nat, pc: Pc)
    requires HeapOk(s) && At(s, j)
    requires HoldsUnit(pc) ==> pc.tu < |s.heap| && s.heap[pc.tu].uri == s.jobs[j].uri
    ensures HeapOk(Move(s, j, pc))
  {
  }

  lemma WriteHeap(s: State, tu: nat, cell: Tu)
    requires HeapOk(s) && tu < |s.heap| && cell.uri == s.heap[tu].uri && cell.received >= -1
    ensures HeapOk(s.(heap := s.heap[tu := cell]))
  {
  }

  lemma FindHeap(s: State, j: nat)
    requires HeapOk(s) && Step(s, FindUnit(j)).Some?
    ensures HeapOk(Step(s, FindUnit(j)).value)
  {
    MakeHeap(s, s.jobs[j].uri);
    var s' := FindOrMake(s, s.jobs[j].uri);
    MoveHeap(s', j, Noting(s'.units[s.jobs[j].uri]));
  }

  lemma ExchangeHeap(s: State, j: nat, spurious: bool)
    requires HeapOk(s) && Step(s, Exchange(j, spurious)).Some?
    ensures HeapOk(Step(s, Exchange(j, spurious)).value)
  {
    var tu, v := s.jobs[j].pc.tu, s.jobs[j].version;
    if v <= s.jobs[j].pc.prev {
      MoveHeap(s, j, Noted);
    } else if spurious || s.heap[tu].received != s.jobs[j].pc.prev {
      MoveHeap(s, j, Trying(tu, s.heap[tu].received));
    } else {
      WriteHeap(s, tu, s.heap[tu].(received := v));
      MoveHeap(s.(heap := s.heap[tu := s.heap[tu].(received := v)]), j, Noted);
    }
  }

  lemma EnsureHeap(s: State, j: nat)
    requires HeapOk(s) && Step(s, Ensure(j)).Some?
    ensures HeapOk(Step(s, Ensure(j)).value)
  {
    MakeHeap(s, s.jobs[j].uri);
    MoveHeap(FindOrMake(s, s.jobs[j].uri), j, Ensured);
  }

  lemma ReparseHeap(s: State, j: nat)
    requires HeapOk(s) && Step(s, Reparse(j)).Some?
    ensures HeapOk(Step(s, Reparse(j)).value)
  {
    var tu := s.jobs[j].pc.tu;
    WriteHeap(s, tu, s.heap[tu].(parsed := s.jobs[j].version));
    MoveHeap(s.(heap := s.heap[tu := s.heap[tu].(parsed := s.jobs[j].version)]), j, Parsed(tu));
  }

  lemma LookupHeap(s: State, j: nat)
    requires HeapOk(s) && Step(s, Lookup(j)).Some?
    ensures HeapOk(Step(s, Lookup(j)).value)
  {
    if s.jobs[j].uri in s.units {
      MoveHeap(s, j, Looked(s.units[s.jobs[j].uri]));
    } else {
      MoveHeap(s, j, Finished(Closed));
    }
  }

  lemma StepHeap(s: State, a: Action)
    requires HeapOk(s) && Step(s, a).Some?
    ensures HeapOk(Step(s, a).value)
  {
    match a
    case Open(u) => MakeHeap(s, u);
    case Close(u) => CloseHeap(s, u);
    case Call(u, v) => CallHeap(s, u, v);
    case FindUnit(j) => FindHeap(s, j);
    case Load(j) => MoveHeap(s, j, Trying(s.jobs[j].pc.tu, s.heap[s.jobs[j].pc.tu].received));
    case Exchange(j, spurious) => ExchangeHeap(s, j, spurious);
    case Ensure(j) => EnsureHeap(s, j);
    case Enqueue(j) => MoveHeap(s, j, Queued);
    case Lookup(j) => LookupHeap(s, j);
    case Reparse(j) => ReparseHeap(s, j);
    case Check(j) => MoveHeap(s, j, Step(s, a).value.jobs[j].pc);
    case Publish(j) => PublishHeap(s, j);
  }

  lemma CloseHeap(s: State, u: Uri)
    requires HeapOk(s)
    ensures HeapOk(Step(s, Close(u)).value)
  {
  }

  lemma CallHeap(s: State, u: Uri, v: int)
    requires HeapOk(s)
    ensures HeapOk(Step(s, Call(u, v)).value)
  {
  }

  lemma PublishHeap(s: State, j: nat)
    requires HeapOk(s) && Step(s, Publish(j)).Some?
    ensures HeapOk(Step(s, Publish(j)).value)
  {
    MoveHeap(s, j, Finished(Published));
  }

  /** A unit of an unclosed document stays, and its register never goes down. */
  lemma StepRegister(s: State, a: Action, u: Uri)
    requires HeapOk(s) && Step(s, a).Some? && u !in Step(s, a).value.closed
    ensures
      var s' := Step(s, a).value;
      && u !in s.closed
      && (u in s.units ==> u in s'.units && s'.units[u] == s.units[u])
      && Register(s, u) <= Register(s', u)
  {
  }

  lemma JobOkLater(job: Job, units: map<Uri, nat>, register: int, units': map<Uri, nat>, register': int)
    requires JobOk(job, units, register) && register <= register'
    requires job.uri in units ==> job.uri in units' && units'[job.uri] == units[job.uri]
    ensures JobOk(job, units', register')
  {
  }

  /** The job an action moves; a new call moves the job it adds. */
  function Actor(s: State, a: Action): nat {
    match a
    case Open(_) => |s.jobs|
    case Close(_) => |s.jobs|
    case Call(_, _) => |s.jobs|
    case FindUnit(j) => j
    case Load(j) => j
    case Exchange(j, _) => j
    case Ensure(j) => j
    case Enqueue(j) => j
    case Lookup(j) => j
    case Reparse(j) => j
    case Check(j) => j
    case Publish(j) => j
  }

  /** Other jobs stay as they are; the actor keeps its document and version. */
  lemma StepJobs(s: State, a: Action, k: nat)
    requires Step(s, a).Some? && k < |s.jobs|
    ensures
      var s' := Step(s, a).value;
      && |s.jobs| <= |s'.jobs|
      && (k != Actor(s, a) ==> s'.jobs[k] == s.jobs[k])
      && s'.jobs[k].uri == s.jobs[k].uri && s'.jobs[k].version == s.jobs[k].version
      && (IsNoted(s.jobs[k].pc) ==> IsNoted(s'.jobs[k].pc))
  {
  }

  lemma ActorOk(s: State, a: Action)
    requires Inv(s) && Step(s, a).Some?
    ensures
      var s' := Step(s, a).value;
      var j := Actor(s, a);
      j < |s'.jobs| && s'.jobs[j].uri !in s'.closed ==>
        JobOk(s'.jobs[j], s'.units, Register(s', s'.jobs[j].uri))
  {
    if a.FindUnit? || a.Load? || a.Exchange? {
      NotingOk(s, a);
    } else if a.Ensure? || a.Enqueue? || a.Lookup? {
      QueuingOk(s, a);
    } else if a.Reparse? || a.Check? || a.Publish? {
      WorkingOk(s, a);
    }
  }

  lemma NotingOk(s: State, a: Action)
    requires Inv(s) && Step(s, a).Some? && (a.FindUnit? || a.Load? || a.Exchange?)
    ensures
      var s' := Step(s, a).value;
      var j := Actor(s, a);
      j < |s'.jobs| && s'.jobs[j].uri !in s'.closed ==>
        JobOk(s'.jobs[j], s'.units, Register(s', s'.jobs[j].uri))
  {
    var j := Actor(s, a);
    if j < |s.jobs| && s.jobs[j].uri !in s.closed {
      assert JobsOk(s, s.jobs[j].uri);
      assert JobOk(s.jobs[j], s.units, Register(s, s.jobs[j].uri));
    }
  }

  lemma QueuingOk(s: State, a: Action)
    requires Inv(s) && Step(s, a).Some? && (a.Ensure? || a.Enqueue? || a.Lookup?)
    ensures
      var s' := Step(s, a).value;
      var j := Actor(s, a);
      j < |s'.jobs| && s'.jobs[j].uri !in s'.closed ==>
        JobOk(s'.jobs[j], s'.units, Register(s', s'.jobs[j].uri))
  {
    var j := Actor(s, a);
    if j < |s.jobs| && s.jobs[j].uri !in s.closed {
      assert JobsOk(s, s.jobs[j].uri);
      assert JobOk(s.jobs[j], s.units, Register(s, s.jobs[j].uri));
    }
  }

  lemma WorkingOk(s: State, a: Action)
    requires Inv(s) && Step(s, a).Some? && (a.Reparse? || a.Check? || a.Publish?)
    ensures
      var s' := Step(s, a).value;
      var j := Actor(s, a);
      j < |s'.jobs| && s'.jobs[j].uri !in s'.closed ==>
        JobOk(s'.jobs[j], s'.units, Register(s', s'.jobs[j].uri))
  {
    var j := Actor(s, a);
    if j < |s.jobs| && s.jobs[j].uri !in s.closed {
      assert JobsOk(s, s.jobs[j].uri);
      assert JobOk(s.jobs[j], s.units, Register(s, s.jobs[j].uri));
    }
  }

  lemma StepJobsOk(s: State, a: Action, u: Uri)
    requires Inv(s) && Step(s, a).Some? && u !in Step(s, a).value.closed
    ensures JobsOk(Step(s, a).value, u)
  {
    var s' := Step(s, a).value;
    StepRegister(s, a, u);
    ActorOk(s, a);
    forall k | 0 <= k < |s'.jobs| && s'.jobs[k].uri == u
      ensures JobOk(s'.jobs[k], s'.units, Register(s', u))
    {
      if k != Actor(s, a) {
        NewJobIsActor(s, a);
        StepJobs(s, a, k);
        assert JobsOk(s, u);
        JobOkLater(s.jobs[k], s.units, Register(s, u), s'.units, Register(s', u));
      }
    }
  }

  lemma NewJobIsActor(s: State, a: Action)
    requires Step(s, a).Some?
    ensures |Step(s, a).value.jobs| <= |s.jobs| + 1
    ensures |Step(s, a).value.jobs| == |s.jobs| + 1 ==> Actor(s, a) == |s.jobs|
  {
  }

  /** The register moves only to the version of a job whose note it is. */
  lemma RegisterMoves(s: State, a: Action, u: Uri)
    requires Inv(s) && Step(s, a).Some? && u !in Step(s, a).value.closed
    requires Register(Step(s, a).value, u) != Register(s, u)
    ensures a.Exchange? && NotedFor(Step(s, a).value, u, a.job)
    ensures Step(s, a).value.jobs[a.job].version == Register(Step(s, a).value, u)
  {
  }

  lemma StepAttained(s: State, a: Action, u: Uri)
    requires Inv(s) && Step(s, a).Some? && u !in Step(s, a).value.closed
    ensures RegisterAttained(Step(s, a).value, u)
  {
    var s' := Step(s, a).value;
    StepRegister(s, a, u);
    if Register(s', u) != Register(s, u) {
      RegisterMoves(s, a, u);
    } else if Register(s, u) != -1 {
      assert RegisterAttained(s, u);
      var j: nat :| NotedFor(s, u, j) && s.jobs[j].version == Register(s, u);
      StepJobs(s, a, j);
      assert NotedFor(s', u, j);
    }
  }

  lemma CountSnoc(log: seq<Publication>, p: Publication, j: nat)
    ensures TimesPublished(log + [p], j) == TimesPublished(log, j) + (if p.job == j then 1 else 0)
  {
    assert (log + [p])[..|log|] == log;
  }

  predicate IsPublished(s: State, j: nat) {
    j < |s.jobs| && s.jobs[j].pc == Finished(Published)
  }

  /** Only a publish step changes the log, and it records the job it finishes. */
  lemma StepPublishes(s: State, a: Action, j: nat)
    requires Step(s, a).Some?
    ensures
      var s' := Step(s, a).value;
      && (!a.Publish? ==> s'.published == s.published && (IsPublished(s', j) <==> IsPublished(s, j)))
      && (a.Publish? ==>
            && |s'.published| == |s.published| + 1 && s'.published[..|s.published|] == s.published
            && s'.published[|s.published|].job == a.job
            && (IsPublished(s', j) <==> j == a.job || IsPublished(s, j)) && !IsPublished(s, a.job))
  {
  }

  lemma StepCounts(s: State, a: Action)
    requires CountsOk(s) && Step(s, a).Some?
    ensures CountsOk(Step(s, a).value)
  {
    var s' := Step(s, a).value;
    forall j: nat
      ensures TimesPublished(s'.published, j) == if IsPublished(s', j) then 1 else 0
    {
      assert TimesPublished(s.published, j) == if IsPublished(s, j) then 1 else 0;
      StepPublishes(s, a, j);
      if a.Publish? {
        assert s'.published == s.published + [s'.published[|s.published|]];
        CountSnoc(s.published, s'.published[|s.published|], j);
      }
    }
  }

  lemma StepEntries(s: State, a: Action)
    requires EntriesOk(s) && Step(s, a).Some?
    ensures EntriesOk(Step(s, a).value)
  {
    var s' := Step(s, a).value;
    forall i | 0 <= i < |s'.published|
      ensures
        var p := s'.published[i];
        p.job < |s'.jobs| && p.uri == s'.jobs[p.job].uri && p.version == s'.jobs[p.job].version
    {
      if i < |s.published| {
        StepJobs(s, a, s.published[i].job);
      }
    }
  }

  lemma StepKeepsInv(s: State, a: Action)
    requires Inv(s) && Step(s, a).Some?
    ensures Inv(Step(s, a).value)
  {
    StepHeap(s, a);
    StepCounts(s, a);
    StepEntries(s, a);
    forall u | u !in Step(s, a).value.closed
      ensures JobsOk(Step(s, a).value, u) && RegisterAttained(Step(s, a).value, u)
    {
      StepJobsOk(s, a, u);
      StepAttained(s, a, u);
    }
  }

  lemma {:induction false} RunKeepsInv(run: seq<Action>)
    ensures Run(INIT, run).Some? ==> Inv(Run(INIT, run).value)
  {
    if run == [] {
      InitOk();
    } else {
      RunKeepsInv(run[..|run| - 1]);
      if Run(INIT, run).Some? {
        StepKeepsInv(Run(INIT, run[..|run| - 1]).value, run[|run| - 1]);
      }
    }
  }

  // ----- Main results -----

  /** In every run the register of an unclosed document is the newest received version. */
  lemma RegisterIsNewest(run: seq<Action>, u: Uri)
    requires Run(INIT, run).Some? && u !in Run(INIT, run).value.closed
    ensures IsMaxReceived(Run(INIT, run).value, u, Register(Run(INIT, run).value, u))
  {
    RunKeepsInv(run);
    var s := Run(INIT, run).value;
    assert JobsOk(s, u) && RegisterAttained(s, u);
  }

  lemma NewestIsUnique(s: State, u: Uri, m: int, n: int)
    requires IsMaxReceived(s, u, m) && IsMaxReceived(s, u, n)
    ensures m == n
  {
  }

  /** A worker of an unclosed document passes the stale check exactly when its version is then the newest received. */
  lemma PassesOnlyIfNewest(run: seq<Action>, j: nat)
    requires Run(INIT, run).Some?
    requires
      var s := Run(INIT, run).value;
      Step(s, Check(j)).Some? && s.jobs[j].uri !in s.closed
    ensures
      var s := Run(INIT, run).value;
      Step(s, Check(j)).value.jobs[j].pc.Passed? <==> IsMaxReceived(s, s.jobs[j].uri, s.jobs[j].version)
  {
    RunKeepsInv(run);
    var s := Run(INIT, run).value;
    RegisterIsNewest(run, s.jobs[j].uri);
    CheckCompares(s, j);
    if IsMaxReceived(s, s.jobs[j].uri, s.jobs[j].version) {
      NewestIsUnique(s, s.jobs[j].uri, s.jobs[j].version, Register(s, s.jobs[j].uri));
    }
  }

  lemma CheckCompares(s: State, j: nat)
    requires Inv(s) && Step(s, Check(j)).Some? && s.jobs[j].uri !in s.closed
    ensures Step(s, Check(j)).value.jobs[j].pc.Passed? <==> s.jobs[j].version == Register(s, s.jobs[j].uri)
  {
    assert JobsOk(s, s.jobs[j].uri);
    assert JobOk(s.jobs[j], s.units, Register(s, s.jobs[j].uri));
  }

  /** The pool is idle and no update call for `u` is under way. */
  ghost predicate Drained(s: State, u: Uri) {
    forall j :: 0 <= j < |s.jobs| && s.jobs[j].uri == u ==> s.jobs[j].pc.Finished?
  }

  ghost predicate IsNewest(s: State, u: Uri, m: nat) {
    && m < |s.jobs| && s.jobs[m].uri == u
    && forall j :: 0 <= j < |s.jobs| && s.jobs[j].uri == u ==> s.jobs[j].version <= s.jobs[m].version
  }

  function TimesVersion(log: seq<Publication>, u: Uri, v: int): nat {
    if log == [] then 0
    else
      var p := log[|log| - 1];
      TimesVersion(log[..|log| - 1], u, v) + (if p.uri == u && p.version == v then 1 else 0)
  }

  /** If one job has the version, its publications are the version's. */
  lemma {:induction false} VersionCount(log: seq<Publication>, jobs: seq<Job>, u: Uri, m: nat)
    requires m < |jobs| && jobs[m].uri == u
    requires forall i :: 0 <= i < |log| ==>
      log[i].job < |jobs| && log[i].uri == jobs[log[i].job].uri && log[i].version == jobs[log[i].job].version
    requires forall j :: 0 <= j < |jobs| && jobs[j].uri == u && jobs[j].version == jobs[m].version ==> j == m
    ensures TimesVersion(log, u, jobs[m].version) == TimesPublished(log, m)
  {
    if log != [] {
      VersionCount(log[..|log| - 1], jobs, u, m);
    }
  }

  lemma {:induction false} PublishedSomewhere(log: seq<Publication>, m: nat) returns (i: nat)
    requires TimesPublished(log, m) > 0
    ensures i < |log| && log[i].job == m
  {
    i := |log| - 1;
    if log[i].job != m {
      i := PublishedSomewhere(log[..|log| - 1], m);
    }
  }

  /**
   Once everything for an unclosed document has drained, its newest version has
   been published if and only if it is at least -1, the register's start value.
   */
  lemma DrainedPublishesNewest(run: seq<Action>, u: Uri, m: nat)
    requires Run(INIT, run).Some?
    requires
      var s := Run(INIT, run).value;
      u !in s.closed && Drained(s, u) && IsNewest(s, u, m)
    ensures
      var s := Run(INIT, run).value;
      (exists i :: 0 <= i < |s.published| && s.published[i].uri == u && s.published[i].version == s.jobs[m].version)
      <==> s.jobs[m].version >= -1
  {
    RunKeepsInv(run);
    var s := Run(INIT, run).value;
    var v := s.jobs[m].version;
    if v >= -1 {
      NewestFinishesPublished(s, u, m);
      var i := PublishedSomewhere(s.published, m);
    } else {
      forall i | 0 <= i < |s.published| && s.published[i].uri == u
        ensures s.published[i].version != v
      {
        NeverBelowStart(s, i);
      }
    }
  }

  lemma {:induction false} EntryCounts(log: seq<Publication>, i: nat)
    requires i < |log|
    ensures TimesPublished(log, log[i].job) > 0
  {
    if i < |log| - 1 {
      EntryCounts(log[..|log| - 1], i);
    }
  }

  /** Below the register's start value nothing is ever published. */
  lemma NeverBelowStart(s: State, i: nat)
    requires Inv(s) && i < |s.published| && s.published[i].uri !in s.closed
    ensures s.published[i].version >= -1
  {
    var p := s.published[i];
    EntryCounts(s.published, i);
    assert TimesPublished(s.published, p.job) == if IsPublished(s, p.job) then 1 else 0;
    assert JobsOk(s, p.uri);
    assert JobOk(s.jobs[p.job], s.units, Register(s, p.uri));
  }

  /** With distinct versions the newest is published exactly once. */
  lemma DrainedPublishesOnce(run: seq<Action>, u: Uri, m: nat)
    requires Run(INIT, run).Some?
    requires
      var s := Run(INIT, run).value;
      && u !in s.closed && Drained(s, u) && IsNewest(s, u, m) && s.jobs[m].version >= -1
      && forall j :: 0 <= j < |s.jobs| && s.jobs[j].uri == u && s.jobs[j].version == s.jobs[m].version ==> j == m
    ensures TimesVersion(Run(INIT, run).value.published, u, Run(INIT, run).value.jobs[m].version) == 1
  {
    RunKeepsInv(run);
    var s := Run(INIT, run).value;
    NewestFinishesPublished(s, u, m);
    VersionCount(s.published, s.jobs, u, m);
  }

  lemma NewestFinishesPublished(s: State, u: Uri, m: nat)
    requires Inv(s) && u !in s.closed && Drained(s, u) && IsNewest(s, u, m) && s.jobs[m].version >= -1
    ensures IsPublished(s, m) && TimesPublished(s.published, m) == 1
  {
    assert JobsOk(s, u) && RegisterAttained(s, u);
    assert JobOk(s.jobs[m], s.units, Register(s, u));
    assert Register(s, u) <= s.jobs[m].version;
    assert TimesPublished(s.published, m) == if IsPublished(s, m) then 1 else 0;
  }

  // ----- What does not hold -----

  lemma Extend(run: seq<Action>, s: State, a: Action) returns (run': seq<Action>, s': State)
    requires Run(INIT, run) == Some(s) && Step(s, a).Some?
    ensures Run(INIT, run') == Some(s') && s' == Step(s, a).value
  {
    run', s' := run + [a], Step(s, a).value;
    assert run'[..|run'| - 1] == run;
  }

  lemma UpdateNotes(run: seq<Action>, s: State, u: Uri, v: int, tu: nat) returns (run': seq<Action>, s': State)
    requires Run(INIT, run) == Some(s)
    requires u in s.units && s.units[u] == tu < |s.heap| && s.heap[tu].received < v
    ensures Run(INIT, run') == Some(s')
    ensures s' == s.(jobs := s.jobs + [Job(u, v, Noted)], heap := s.heap[tu := s.heap[tu].(received := v)])
  {
    var j := |s.jobs|;
    run', s' := Extend(run, s, Call(u, v));
    run', s' := Extend(run', s', FindUnit(j));
    assert s'.jobs == s.jobs + [Job(u, v, Noting(tu))];
    run', s' := Extend(run', s', Load(j));
    run', s' := Extend(run', s', Exchange(j, false));
    assert s'.jobs == s.jobs + [Job(u, v, Noted)];
  }

  lemma NotedIsLooked(run: seq<Action>, s: State, tu: nat, before: seq<Job>, u: Uri, v: int)
    returns (run': seq<Action>, s': State)
    requires Run(INIT, run) == Some(s) && s.jobs == before + [Job(u, v, Noted)]
    requires u in s.units && s.units[u] == tu
    ensures Run(INIT, run') == Some(s')
    ensures s' == s.(jobs := before + [Job(u, v, Looked(tu))])
  {
    var j := |before|;
    run', s' := Extend(run, s, Ensure(j));
    run', s' := Extend(run', s', Enqueue(j));
    assert s'.jobs == before + [Job(u, v, Queued)];
    run', s' := Extend(run', s', Lookup(j));
    assert s'.jobs == before + [Job(u, v, Looked(tu))];
  }

  /** A newer version can go from its call to a passed check without interruption. */
  lemma UpdatePasses(run: seq<Action>, s: State, u: Uri, v: int, tu: nat) returns (run': seq<Action>, s': State)
    requires Run(INIT, run) == Some(s)
    requires u in s.units && s.units[u] == tu < |s.heap| && s.heap[tu].received < v
    ensures Run(INIT, run') == Some(s')
    ensures s' == s.(jobs := s.jobs + [Job(u, v, Passed(tu))],
                     heap := s.heap[tu := s.heap[tu].(received := v, parsed := v)])
  {
    var j := |s.jobs|;
    run', s' := UpdateNotes(run, s, u, v, tu);
    run', s' := NotedIsLooked(run', s', tu, s.jobs, u, v);
    run', s' := Extend(run', s', Reparse(j));
    run', s' := Extend(run', s', Check(j));
    assert s'.jobs == s.jobs + [Job(u, v, Passed(tu))];
  }

  /**
   Publications are not ordered: version 1 passes its check, version 2 is
   received, parsed and published, and then version 1 is published, last, with
   the state of version 2.
   */
  lemma StalePublicationLast(u: Uri)
    ensures exists run ::
      && Run(INIT, run).Some?
      && var log := Run(INIT, run).value.published;
         |log| == 2 && log[0].version == 2 && log[1].version == 1 && log[1].parsed == 2
  {
    var run, s := TwoPassed(u);
    run, s := Extend(run, s, Publish(1));
    assert s.published == [Publication(1, u, 2, 2)] && s.jobs[0] == Job(u, 1, Passed(0));
    run, s := Extend(run, s, Publish(0));
    assert s.published == [Publication(1, u, 2, 2), Publication(0, u, 1, 2)];
    assert Run(INIT, run) == Some(s);
  }

  /** Two versions, the older one first, both past their checks. */
  lemma TwoPassed(u: Uri) returns (run: seq<Action>, s: State)
    ensures Run(INIT, run) == Some(s)
    ensures s == State(map[u := 0], [Tu(u, 2, 2)], [Job(u, 1, Passed(0)), Job(u, 2, Passed(0))], [], {})
  {
    run, s := Extend([], INIT, Open(u));
    assert s == State(map[u := 0], [Tu(u, -1, -1)], [], [], {});
    run, s := UpdatePasses(run, s, u, 1, 0);
    assert s == State(map[u := 0], [Tu(u, 1, 1)], [Job(u, 1, Passed(0))], [], {});
    run, s := UpdatePasses(run, s, u, 2, 0);
  }

  /**
   A version below -1 is never published: here it is the only one, everything
   has drained, and the log is empty.
   */
  lemma LowVersionDropped(u: Uri)
    ensures exists run ::
      && Run(INIT, run).Some?
      && var s := Run(INIT, run).value;
         Drained(s, u) && IsNewest(s, u, 0) && s.jobs[0].version == -2 && u !in s.closed && s.published == []
  {
    var run, s := LowVersionNoted(u);
    run, s := NotedIsLooked(run, s, 0, [], u, -2);
    run, s := LowVersionEnds(run, s, u);
    assert Run(INIT, run) == Some(s);
  }

  lemma LowVersionFound(u: Uri) returns (run: seq<Action>, s: State)
    ensures Run(INIT, run) == Some(s)
    ensures s == State(map[u := 0], [Tu(u, -1, -1)], [Job(u, -2, Noting(0))], [], {})
  {
    run, s := Extend([], INIT, Open(u));
    assert s == State(map[u := 0], [Tu(u, -1, -1)], [], [], {});
    run, s := Extend(run, s, Call(u, -2));
    assert s == State(map[u := 0], [Tu(u, -1, -1)], [Job(u, -2, Called)], [], {});
    run, s := Extend(run, s, FindUnit(0));
  }

  lemma LowVersionNoted(u: Uri) returns (run: seq<Action>, s: State)
    ensures Run(INIT, run) == Some(s)
    ensures s == State(map[u := 0], [Tu(u, -1, -1)], [] + [Job(u, -2, Noted)], [], {})
  {
    run, s := LowVersionFound(u);
    run, s := Extend(run, s, Load(0));
    run, s := Extend(run, s, Exchange(0, false));
  }

  lemma LowVersionEnds(run: seq<Action>, s: State, u: Uri) returns (run': seq<Action>, s': State)
    requires Run(INIT, run) == Some(s)
    requires s == State(map[u := 0], [Tu(u, -1, -1)], [] + [Job(u, -2, Looked(0))], [], {})
    ensures Run(INIT, run') == Some(s')
    ensures s' == State(map[u := 0], [Tu(u, -1, -2)], [Job(u, -2, Finished(Stale))], [], {})
  {
    run', s' := Extend(run, s, Reparse(0));
    run', s' := Extend(run', s', Check(0));
  }
}
