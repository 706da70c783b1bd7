/**
 Which answer each message gets, in terms of the messages read before it:
 the lifecycle gates of lib/LSP/NslLSPServer.cpp without their flags.
 */
module DispatchReplies {
  import opened Wrappers
  import opened LspServer

  /** The messages a run reads, in order. */
  function Messages(run: seq<Action>): seq<Message> {
    if run == [] then []
    else
      var last := run[|run| - 1];
      Messages(run[..|run| - 1]) + (if last.Read? then [last.msg] else [])
  }

  // ----- What came before -----

  /** A `shutdown` with an id came before message `n`. */
  ghost predicate ShutBefore(ms: seq<Message>, n: nat) {
    exists i :: 0 <= i < n && i < |ms| && ms[i].kind.Shutdown? && ms[i].id.Some?
  }

  /** Message `i` is an `initialized` that came before any such `shutdown`. */
  ghost predicate MakesReady(ms: seq<Message>, i: int) {
    0 <= i < |ms| && ms[i].kind.Initialized? && !ShutBefore(ms, i)
  }

  ghost predicate ReadyBefore(ms: seq<Message>, n: nat) {
    exists i :: 0 <= i < n && MakesReady(ms, i)
  }

  /** The methods that must wait for `initialized`. */
  predicate MustWait(k: Kind) {
    k.DocumentSync? || k.FoldingRange? || k.Unknown?
  }

  /** Message `n` came too early. */
  ghost predicate TooEarly(ms: seq<Message>, n: nat)
    requires n < |ms|
  {
    MustWait(ms[n].kind) && !ReadyBefore(ms, n)
  }

  /** Message `n` came too late: only `exit` and the `$/` methods are heard after a shutdown. */
  ghost predicate TooLate(ms: seq<Message>, n: nat)
    requires n < |ms|
  {
    && !TooEarly(ms, n) && ShutBefore(ms, n)
    && !ms[n].kind.Exit? && !ms[n].kind.CancelRequest? && !ms[n].kind.OtherDollar?
  }

  ghost predicate InTime(ms: seq<Message>, n: nat)
    requires n < |ms|
  {
    !TooEarly(ms, n) && !TooLate(ms, n)
  }

  /** A folding-range request that is to be worked on. */
  ghost predicate Enters(ms: seq<Message>, n: nat)
    requires n < |ms|
  {
    InTime(ms, n) && ms[n].kind.FoldingRange? && ms[n].id.Some? && ms[n].wellFormed
  }

  /** The reply given on the dispatch thread, if any. */
  ghost function AtOnce(ms: seq<Message>, n: nat): Option<Reply>
    requires n < |ms|
  {
    var k := ms[n].kind;
    if ms[n].id.None? then None
    else if TooEarly(ms, n) then Some(NotInitialized)
    else if TooLate(ms, n) then Some(InvalidRequest)
    else if k.Initialize? || k.Shutdown? then Some(Result)
    else if k.OtherDollar? || k.Unknown? then Some(MethodNotFound)
    else if k.FoldingRange? && !ms[n].wellFormed then Some(Folds)
    else None
  }

  lemma {:induction false} ShutPrefix(ms: seq<Message>, m: Message, n: nat)
    requires n <= |ms|
    ensures ShutBefore(ms + [m], n) <==> ShutBefore(ms, n)
  {
    forall i | 0 <= i < n ensures (ms + [m])[i] == ms[i] {
    }
  }

  lemma {:induction false} ReadyPrefix(ms: seq<Message>, m: Message, n: nat)
    requires n <= |ms|
    ensures ReadyBefore(ms + [m], n) <==> ReadyBefore(ms, n)
  {
    forall i | 0 <= i < n ensures MakesReady(ms + [m], i) <==> MakesReady(ms, i) {
      ShutPrefix(ms, m, i);
    }
  }

  /** What comes later does not change an answer. */
  lemma {:induction false} AnswerPrefix(ms: seq<Message>, m: Message, n: nat)
    requires n < |ms|
    ensures AtOnce(ms + [m], n) == AtOnce(ms, n) && (Enters(ms + [m], n) <==> Enters(ms, n))
  {
    ShutPrefix(ms, m, n);
    ReadyPrefix(ms, m, n);
    assert (ms + [m])[n] == ms[n];
  }

  // ----- Invariant -----

  /** The flags are what the messages make them. */
  ghost predicate FlagsOk(ms: seq<Message>, s: State) {
    && (s.initialized <==> ReadyBefore(ms, |ms|))
    && (s.shutdown <==> ShutBefore(ms, |ms|))
  }

  /** How far message `n` may have got. */
  ghost predicate PlaceOk(ms: seq<Message>, pc: Pc, n: nat)
    requires n < |ms|
  {
    if Enters(ms, n) then !pc.Ignored? && !pc.Answered? && pc.id == ms[n].id.value
    else if AtOnce(ms, n).Some? then pc.Answered?
    else pc.Ignored?
  }

  /** The reply message `n` has had. */
  function Given(pc: Pc): Option<Reply> {
    if pc.Replied? then Some(if pc.wasCancelled then RequestCancelled else Folds) else None
  }

  ghost predicate LogOk(ms: seq<Message>, s: State, n: nat)
    requires |s.requests| == |ms|
  {
    && (forall q :: EvReplied(n, q) in s.log <==>
          n < |ms| && (AtOnce(ms, n) == Some(q) || Given(s.requests[n].1) == Some(q)))
    && (forall id :: EvRegistered(n, id) in s.log <==>
          n < |ms| && Enters(ms, n) && !s.requests[n].1.Accepted? && ms[n].id == Some(id))
  }

  ghost predicate MessageOk(ms: seq<Message>, s: State, n: nat)
    requires |s.requests| == |ms|
  {
    && (n < |ms| ==> s.requests[n].0 == ms[n] && PlaceOk(ms, s.requests[n].1, n))
    && LogOk(ms, s, n)
  }

  ghost predicate Heard(ms: seq<Message>, s: State) {
    && |s.requests| == |ms| && FlagsOk(ms, s)
    && (forall n: nat {:trigger MessageOk(ms, s, n)} :: MessageOk(ms, s, n))
  }

  // ----- Steps -----

  lemma {:induction false} FlagsRead(ms: seq<Message>, s: State, m: Message)
    requires FlagsOk(ms, s) && |s.requests| == |ms|
    ensures FlagsOk(ms + [m], Dispatch(s, m))
  {
    var after := ms + [m];
    ShutPrefix(ms, m, |ms|);
    ReadyPrefix(ms, m, |ms|);
    assert after[|ms|] == m;
    assert MakesReady(after, |ms|) <==> m.kind.Initialized? && !s.shutdown;
    if ShutBefore(after, |ms|) || (m.kind.Shutdown? && m.id.Some?) {
      assert ShutBefore(after, |after|);
    }
    if ReadyBefore(after, |ms|) || MakesReady(after, |ms|) {
      assert ReadyBefore(after, |after|);
    }
  }

  /** Message `m` was put last, at `pc`, with the given events. */
  predicate Pushed(s: State, s': State, m: Message, pc: Pc, events: seq<Event>) {
    s'.requests == s.requests + [(m, pc)] && s'.log == s.log + events
  }

  /** The answer to a message read in this state. */
  function Served(s: State, m: Message): Option<Reply> {
    if m.id.None? then None
    else if MustWait(m.kind) && !s.initialized then Some(NotInitialized)
    else if s.shutdown && GatedAfterShutdown(m.kind) then Some(InvalidRequest)
    else if m.kind.Initialize? || m.kind.Shutdown? then Some(Result)
    else if m.kind.OtherDollar? || m.kind.Unknown? then Some(MethodNotFound)
    else if m.kind.FoldingRange? && !m.wellFormed then Some(Folds)
    else None
  }

  predicate Accepts(s: State, m: Message) {
    m.kind.FoldingRange? && s.initialized && !s.shutdown && m.id.Some? && m.wellFormed
  }

  lemma {:induction false} DispatchAnswers(s: State, m: Message)
    requires Served(s, m).Some?
    ensures Pushed(s, Dispatch(s, m), m, Answered, [EvReplied(|s.requests|, Served(s, m).value)])
  {
  }

  lemma {:induction false} DispatchAccepts(s: State, m: Message)
    requires Accepts(s, m)
    ensures Pushed(s, Dispatch(s, m), m, Accepted(m.id.value), [])
  {
  }

  lemma {:induction false} DispatchPushes(s: State, m: Message)
    ensures Served(s, m).Some? ==> Pushed(s, Dispatch(s, m), m, Answered, [EvReplied(|s.requests|, Served(s, m).value)])
    ensures Accepts(s, m) ==> Pushed(s, Dispatch(s, m), m, Accepted(m.id.value), [])
    ensures Served(s, m).None? && !Accepts(s, m) ==>
      || Pushed(s, Dispatch(s, m), m, Ignored, [])
      || (m.kind.CancelRequest? && m.kind.target.Some? && Pushed(s, Dispatch(s, m), m, Ignored, [EvCancel(m.kind.target.value)]))
  {
    if Served(s, m).Some? {
      DispatchAnswers(s, m);
    } else if Accepts(s, m) {
      DispatchAccepts(s, m);
    }
  }

  lemma {:induction false} ServedIs(ms: seq<Message>, s: State, m: Message)
    requires FlagsOk(ms, s)
    ensures AtOnce(ms + [m], |ms|) == Served(s, m) && (Enters(ms + [m], |ms|) <==> Accepts(s, m))
  {
    var after := ms + [m];
    assert after[|ms|] == m;
    ShutPrefix(ms, m, |ms|);
    ReadyPrefix(ms, m, |ms|);
  }

  lemma {:induction false} PushedOk(ms: seq<Message>, s: State, s': State, m: Message, pc: Pc, events: seq<Event>, n: nat)
    requires Heard(ms, s) && Pushed(s, s', m, pc, events)
    requires
      var after, k := ms + [m], |ms|;
      && PlaceOk(after, pc, k) && (Enters(after, k) ==> pc.Accepted?)
      && (AtOnce(after, k).Some? ==> events == [EvReplied(k, AtOnce(after, k).value)])
      && (AtOnce(after, k).None? ==> events == [] || (|events| == 1 && events[0].EvCancel?))
    ensures |s'.requests| == |ms + [m]| && MessageOk(ms + [m], s', n)
  {
    assert MessageOk(ms, s, n);
    assert (ms + [m])[|ms|] == m;
    if n < |ms| {
      AnswerPrefix(ms, m, n);
      assert s'.requests[n] == s.requests[n];
    }
    assert forall e :: e in s'.log <==> e in s.log || e in events;
  }

  lemma {:induction false} ReadOk(ms: seq<Message>, s: State, m: Message, n: nat)
    requires Heard(ms, s)
    ensures |Dispatch(s, m).requests| == |ms + [m]| && MessageOk(ms + [m], Dispatch(s, m), n)
  {
    var s' := Dispatch(s, m);
    ServedIs(ms, s, m);
    DispatchPushes(s, m);
    if Served(s, m).Some? {
      PushedOk(ms, s, s', m, Answered, [EvReplied(|s.requests|, Served(s, m).value)], n);
    } else if Accepts(s, m) {
      assert (ms + [m])[|ms|] == m;
      PushedOk(ms, s, s', m, Accepted(m.id.value), [], n);
    } else if Pushed(s, s', m, Ignored, []) {
      PushedOk(ms, s, s', m, Ignored, [], n);
    } else {
      PushedOk(ms, s, s', m, Ignored, [EvCancel(m.kind.target.value)], n);
    }
  }

  lemma {:induction false} ReadKeeps(ms: seq<Message>, s: State, m: Message)
    requires Heard(ms, s)
    ensures Heard(ms + [m], Dispatch(s, m))
  {
    FlagsRead(ms, s, m);
    ReadOk(ms, s, m, 0);
    forall n: nat ensures MessageOk(ms + [m], Dispatch(s, m), n) {
      ReadOk(ms, s, m, n);
    }
  }

  /** Request `k` moved on to `pc`, with the given events. */
  predicate Moved(s: State, s': State, k: nat, pc: Pc, events: seq<Event>)
    requires k < |s.requests|
  {
    s'.requests == s.requests[k := (s.requests[k].0, pc)] && s'.log == s.log + events
  }

  lemma {:induction false} MovedOk(ms: seq<Message>, s: State, s': State, k: nat, pc: Pc, events: seq<Event>, n: nat)
    requires Heard(ms, s) && k < |s.requests| && Moved(s, s', k, pc, events)
    requires Enters(ms, k) && ms[k].id.Some? && !pc.Ignored? && !pc.Answered? && !pc.Accepted? && pc.id == ms[k].id.value
    requires Given(s.requests[k].1).None?
    requires
      var registers := if s.requests[k].1.Accepted? then [EvRegistered(k, pc.id)] else [];
      var replies := if Given(pc).Some? then [EvReplied(k, Given(pc).value)] else [];
      events == registers + replies || (registers == [] && replies == [] && events == [EvErased(k)])
    ensures |s'.requests| == |ms| && MessageOk(ms, s', n)
  {
    assert MessageOk(ms, s, n) && MessageOk(ms, s, k);
    assert forall e :: e in s'.log <==> e in s.log || e in events;
  }

  /** A request on its way through the table. */
  lemma {:induction false} OnItsWay(ms: seq<Message>, s: State, k: nat)
    requires Heard(ms, s) && k < |s.requests| && !s.requests[k].1.Ignored? && !s.requests[k].1.Answered?
    ensures |ms| == |s.requests| && Enters(ms, k) && ms[k].id.Some? && s.requests[k].1.id == ms[k].id.value
  {
    assert MessageOk(ms, s, k);
  }

  lemma {:induction false} SendOk(ms: seq<Message>, s: State, k: nat, n: nat)
    requires Heard(ms, s) && Step(s, Send(k)).Some?
    ensures |Step(s, Send(k)).value.requests| == |ms| && MessageOk(ms, Step(s, Send(k)).value, n)
  {
    var s' := Step(s, Send(k)).value;
    OnItsWay(ms, s, k);
    MovedOk(ms, s, s', k, s'.requests[k].1, [EvReplied(k, Given(s'.requests[k].1).value)], n);
  }

  lemma {:induction false} EraseOk(ms: seq<Message>, s: State, k: nat, n: nat)
    requires Heard(ms, s) && Step(s, Erase(k)).Some?
    ensures |Step(s, Erase(k)).value.requests| == |ms| && MessageOk(ms, Step(s, Erase(k)).value, n)
  {
    var s' := Step(s, Erase(k)).value;
    OnItsWay(ms, s, k);
    MovedOk(ms, s, s', k, s'.requests[k].1, [EvErased(k)], n);
  }

  lemma {:induction false} AdvanceOk(ms: seq<Message>, s: State, a: Action, n: nat)
    requires Heard(ms, s) && (a.Register? || a.Spawn? || a.Walk?) && Step(s, a).Some?
    ensures |Step(s, a).value.requests| == |ms| && MessageOk(ms, Step(s, a).value, n)
  {
    var s' := Step(s, a).value;
    var k := if a.Walk? then a.req else s.dispatcher.req;
    OnItsWay(ms, s, k);
    MovedOk(ms, s, s', k, s'.requests[k].1, if a.Register? then [EvRegistered(k, s'.requests[k].1.id)] else [], n);
  }

  /** A step that moves no request. */
  lemma {:induction false} StillOk(ms: seq<Message>, s: State, s': State, n: nat)
    requires Heard(ms, s) && s'.requests == s.requests && (s'.log == s.log || s'.log == s.log + [EvDrain])
    ensures |s'.requests| == |ms| && MessageOk(ms, s', n)
  {
    assert MessageOk(ms, s, n);
  }

  /** A step that reads nothing. */
  lemma {:induction false} WorkOk(ms: seq<Message>, s: State, a: Action, n: nat)
    requires Heard(ms, s) && !a.Read? && Step(s, a).Some?
    ensures |Step(s, a).value.requests| == |ms| && MessageOk(ms, Step(s, a).value, n)
  {
    match a
    case Register => AdvanceOk(ms, s, a, n);
    case Spawn => AdvanceOk(ms, s, a, n);
    case Walk(_) => AdvanceOk(ms, s, a, n);
    case Erase(k) => EraseOk(ms, s, k, n);
    case Send(k) => SendOk(ms, s, k, n);
    case EndOfInput => StillOk(ms, s, Step(s, a).value, n);
    case LeaveLoop => StillOk(ms, s, Step(s, a).value, n);
    case Drain => StillOk(ms, s, Step(s, a).value, n);
    case Join => StillOk(ms, s, Step(s, a).value, n);
  }

  lemma {:induction false} WorkKeeps(ms: seq<Message>, s: State, a: Action)
    requires Heard(ms, s) && !a.Read? && Step(s, a).Some?
    ensures Heard(ms, Step(s, a).value)
  {
    WorkOk(ms, s, a, 0);
    forall n: nat ensures MessageOk(ms, Step(s, a).value, n) {
      WorkOk(ms, s, a, n);
    }
  }

  /** In every run the server has heard the messages read, and nothing else. */
  lemma {:induction false} RunHears(run: seq<Action>)
    requires Run(INIT, run).Some?
    ensures Heard(Messages(run), Run(INIT, run).value)
  {
    if run != [] {
      var front, a := run[..|run| - 1], run[|run| - 1];
      RunHears(front);
      var s := Run(INIT, front).value;
      if a.Read? {
        ReadKeeps(Messages(front), s, a.msg);
      } else {
        assert Messages(front) + [] == Messages(front);
        WorkKeeps(Messages(front), s, a);
      }
    } else {
      forall n: nat ensures MessageOk([], INIT, n) {
      }
    }
  }

  // ----- Main results -----

  /** Main result: in every run, the exact condition of each reply given on the dispatch thread. */
  lemma {:induction false} RepliesIff(run: seq<Action>, n: nat)
    requires Run(INIT, run).Some? && n < |Messages(run)|
    ensures
      var ms, log := Messages(run), Run(INIT, run).value.log;
      var k, asked := ms[n].kind, ms[n].id.Some?;
      var waits := k.DocumentSync? || k.FoldingRange? || k.Unknown?;
      var heardLate := k.Exit? || k.CancelRequest? || k.OtherDollar?;
      var early := waits && !ReadyBefore(ms, n);
      var late := ShutBefore(ms, n) && !heardLate;
      && (EvReplied(n, NotInitialized) in log <==> asked && early)
      && (EvReplied(n, InvalidRequest) in log <==> asked && !early && late)
      && (EvReplied(n, Result) in log <==> asked && (k.Initialize? || k.Shutdown?) && !ShutBefore(ms, n))
      && (EvReplied(n, MethodNotFound) in log <==> asked && (k.OtherDollar? || (k.Unknown? && !early && !late)))
  {
    RunHears(run);
    assert MessageOk(Messages(run), Run(INIT, run).value, n);
  }

  /**
   Main result: a message enters the table if and only if it is a well-formed
   folding-range request that comes after `initialized` and before a
   `shutdown`; until it has, the dispatcher is busy with it.
   */
  lemma {:induction false} RegistersIff(run: seq<Action>, n: nat, id: Id)
    requires Run(INIT, run).Some? && n < |Messages(run)|
    ensures
      var ms, s := Messages(run), Run(INIT, run).value;
      var m := ms[n];
      var served := m.kind.FoldingRange? && m.wellFormed && ReadyBefore(ms, n) && !ShutBefore(ms, n);
      && (EvRegistered(n, id) in s.log ==> served && m.id == Some(id))
      && (served && m.id == Some(id) ==> EvRegistered(n, id) in s.log || s.dispatcher == Busy(n))
  {
    RunHears(run);
    RunKeepsInv(run);
    var s := Run(INIT, run).value;
    assert MessageOk(Messages(run), s, n);
    assert Valid(s, n);
  }

  /**
   Main result: once `run` has returned, a folding-range request in time has
   its folds or was cancelled, and one without parameters has its folds.
   */
  lemma {:induction false} FoldsIff(run: seq<Action>, n: nat)
    requires Run(INIT, run).Some? && Run(INIT, run).value.dispatcher.Returned? && n < |Messages(run)|
    ensures
      var ms, log := Messages(run), Run(INIT, run).value.log;
      var m := ms[n];
      var served := m.kind.FoldingRange? && m.id.Some? && ReadyBefore(ms, n) && !ShutBefore(ms, n);
      && (EvReplied(n, Folds) in log || EvReplied(n, RequestCancelled) in log <==> served)
      && (served && !m.wellFormed ==> EvReplied(n, Folds) in log && EvReplied(n, RequestCancelled) !in log)
  {
    RunHears(run);
    ReturnedIsDone(run);
    var s := Run(INIT, run).value;
    assert MessageOk(Messages(run), s, n);
    assert IsDone(s.requests[n].1);
  }

  // ----- Exit -----

  ghost predicate ExitOk(ms: seq<Message>, s: State) {
    && (s.exited <==> ms != [] && ms[|ms| - 1].kind.Exit?)
    && (forall i :: 0 <= i < |ms| - 1 ==> !ms[i].kind.Exit?)
  }

  lemma {:induction false} ReadSetsExit(s: State, m: Message)
    requires !s.exited
    ensures Dispatch(s, m).exited <==> m.kind.Exit?
  {
  }

  lemma {:induction false} WorkKeepsExit(s: State, a: Action)
    requires !a.Read? && Step(s, a).Some?
    ensures Step(s, a).value.exited == s.exited
  {
  }

  lemma {:induction false} ExitPrefix(ms: seq<Message>, s: State, m: Message)
    requires ExitOk(ms, s) && !s.exited
    ensures ExitOk(ms + [m], Dispatch(s, m))
  {
    ReadSetsExit(s, m);
    assert forall i :: 0 <= i < |ms| ==> (ms + [m])[i] == ms[i];
  }

  /** Main result: `exit` is the last message read. */
  lemma {:induction false} ExitIsLast(run: seq<Action>)
    requires Run(INIT, run).Some?
    ensures ExitOk(Messages(run), Run(INIT, run).value)
  {
    if run != [] {
      var front, a := run[..|run| - 1], run[|run| - 1];
      ExitIsLast(front);
      var s := Run(INIT, front).value;
      if a.Read? {
        ExitPrefix(Messages(front), s, a.msg);
      } else {
        assert Messages(front) + [] == Messages(front);
        WorkKeepsExit(s, a);
      }
    }
  }

  // ----- Cancels -----

  /** The ids that the well-formed cancel notifications name, in order. */
  function Targets(ms: seq<Message>): seq<Id> {
    if ms == [] then []
    else
      var m := ms[|ms| - 1];
      Targets(Front(ms)) + (if m.kind.CancelRequest? && m.wellFormed && m.kind.target.Some? then [m.kind.target.value] else [])
  }

  /** The cancels that went through the table, in order. */
  function Cancelled(log: seq<Event>): seq<Id> {
    if log == [] then []
    else Cancelled(Front(log)) + (if log[|log| - 1].EvCancel? then [log[|log| - 1].id] else [])
  }

  lemma CancelledSnoc(log: seq<Event>, e: Event)
    ensures Cancelled(log + [e]) == Cancelled(log) + (if e.EvCancel? then [e.id] else [])
  {
    assert Front(log + [e]) == log;
  }

  lemma {:induction false} ReadCancels(s: State, m: Message)
    ensures Cancelled(Dispatch(s, m).log) ==
      Cancelled(s.log) + (if m.kind.CancelRequest? && m.wellFormed && m.kind.target.Some? then [m.kind.target.value] else [])
  {
    DispatchPushes(s, m);
    assert s.log + [] == s.log;
    if Served(s, m).Some? {
      CancelledSnoc(s.log, EvReplied(|s.requests|, Served(s, m).value));
    } else if m.kind.CancelRequest? && m.kind.target.Some? {
      CancelledSnoc(s.log, EvCancel(m.kind.target.value));
    }
  }

  lemma {:induction false} WorkAddsNoCancel(s: State, a: Action)
    requires !a.Read? && Step(s, a).Some?
    ensures
      var s' := Step(s, a).value;
      s'.log == s.log || (|s'.log| == |s.log| + 1 && s'.log == s.log + [s'.log[|s.log|]] && !s'.log[|s.log|].EvCancel?)
  {
  }

  /** Main result: every well-formed cancel goes through the table, whatever the state of the session, in the order read. */
  lemma {:induction false} CancelsGoThrough(run: seq<Action>)
    requires Run(INIT, run).Some?
    ensures Cancelled(Run(INIT, run).value.log) == Targets(Messages(run))
  {
    if run != [] {
      var front, a := run[..|run| - 1], run[|run| - 1];
      CancelsGoThrough(front);
      var s := Run(INIT, front).value;
      if a.Read? {
        ReadCancels(s, a.msg);
        assert Front(Messages(front) + [a.msg]) == Messages(front);
      } else {
        assert Messages(front) + [] == Messages(front);
        WorkAddsNoCancel(s, a);
        var s' := Step(s, a).value;
        if s'.log != s.log {
          CancelledSnoc(s.log, s'.log[|s.log|]);
        }
      }
    }
  }

  lemma {:induction false} DrainStep(s: State, a: Action)
    requires Step(s, a).Some?
    ensures
      var s' := Step(s, a).value;
      && (EvDrain in s'.log <==> EvDrain in s.log || a.Drain?)
      && (s'.dispatcher.Joining? || s'.dispatcher.Returned? <==> s.dispatcher.Joining? || s.dispatcher.Returned? || a.Drain?)
  {
    if a.Read? {
      DispatchPushes(s, a.msg);
    }
  }

  /** Main result: the final drain goes through the table before the workers are joined, and at no other time. */
  lemma {:induction false} DrainsBeforeJoining(run: seq<Action>)
    requires Run(INIT, run).Some?
    ensures
      var s := Run(INIT, run).value;
      EvDrain in s.log <==> s.dispatcher.Joining? || s.dispatcher.Returned?
  {
    if run != [] {
      DrainsBeforeJoining(run[..|run| - 1]);
      DrainStep(Run(INIT, run[..|run| - 1]).value, run[|run| - 1]);
    }
  }
}
