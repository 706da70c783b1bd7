/**
 The protocol layer of the language server (lib/LSP/NslLSPServer.cpp) as a step
 system: the dispatch thread, one worker thread per folding-range request, the
 in-flight table and its cancellation tokens. Any interleaving of enabled steps
 is a run; the log records the events in the order they happened.
 */
module LspServer {
  import opened Wrappers

  type Id = int

  datatype Kind =
    | Initialize | Initialized | Shutdown | Exit
    | DocumentSync                    // didOpen, didChange, didClose
    | FoldingRange
    | CancelRequest(target: Option<Id>)
    | OtherDollar                     // any other method that starts with `$/`
    | Unknown

  /** `wellFormed` says that the parameters are an object. */
  datatype Message = Message(kind: Kind, id: Option<Id>, wellFormed: bool)

  datatype Reply = Result | Folds | RequestCancelled | NotInitialized | InvalidRequest | MethodNotFound

  datatype Event =
    | EvRegistered(req: nat, id: Id)
    | EvCancel(id: Id)                // a cancel for `id` went through the in-flight table
    | EvDrain                         // the final drain went through the in-flight table
    | EvErased(req: nat)
    | EvReplied(req: nat, reply: Reply)

  /** How far one received message has got. */
  datatype Pc =
    | Ignored                         // no reply owed
    | Answered                        // replied on the dispatch thread
    | Accepted(id: Id)                // folding range, about to enter the table
    | Registered(id: Id)              // in the table, worker not started
    | Walking(id: Id)
    | Walked(id: Id)
    | Erased(id: Id, wasCancelled: bool)
    | Replied(id: Id, wasCancelled: bool)

  datatype Dispatcher = Reading | Busy(req: nat) | Draining | Joining | Returned

  datatype State = State(
    initialized: bool,
    shutdown: bool,
    exited: bool,
    dispatcher: Dispatcher,
    requests: seq<(Message, Pc)>,
    inflight: map<Id, nat>,           // the token of request `n` is `n`
    cancelled: set<nat>,              // tokens whose flag is set
    log: seq<Event>)

  const INIT := State(false, false, false, Reading, [], map[], {}, [])

  datatype Action =
    | Read(msg: Message)
    | EndOfInput
    | LeaveLoop
    | Register
    | Spawn
    | Drain
    | Join
    | Walk(req: nat)
    | Erase(req: nat)
    | Send(req: nat)

  // ----- Steps -----

  predicate GatedBeforeInit(m: Kind) {
    m.DocumentSync? || m.FoldingRange? || m.Unknown?
  }

  predicate GatedAfterShutdown(m: Kind) {
    !m.Exit? && !m.CancelRequest? && !m.OtherDollar?
  }

  function Push(s: State, msg: Message, pc: Pc, events: seq<Event>): State {
    s.(requests := s.requests + [(msg, pc)], log := s.log + events)
  }

  /** Replies on the dispatch thread when the message carries an id. */
  function Answer(s: State, msg: Message, reply: Reply): State {
    if msg.id.None? then Push(s, msg, Ignored, [])
    else Push(s, msg, Answered, [EvReplied(|s.requests|, reply)])
  }

  function Cancel(s: State, msg: Message, target: Option<Id>): State {
    if !msg.wellFormed || target.None? then Push(s, msg, Ignored, [])
    else
      var hit := if target.value in s.inflight then {s.inflight[target.value]} else {};
      Push(s.(cancelled := s.cancelled + hit), msg, Ignored, [EvCancel(target.value)])
  }

  function Dispatch(s: State, msg: Message): State {
    if !s.initialized && GatedBeforeInit(msg.kind) then Answer(s, msg, NotInitialized)
    else if s.shutdown && GatedAfterShutdown(msg.kind) then Answer(s, msg, InvalidRequest)
    else
      match msg.kind
      case Initialize => Answer(s, msg, Result)
      case Initialized => Push(s.(initialized := true), msg, Ignored, [])
      case Shutdown => if msg.id.None? then Push(s, msg, Ignored, []) else Answer(s.(shutdown := true), msg, Result)
      case Exit => Push(s.(exited := true), msg, Ignored, [])
      case DocumentSync => Push(s, msg, Ignored, [])
      case FoldingRange =>
        if msg.id.None? then Push(s, msg, Ignored, [])
        else if !msg.wellFormed then Answer(s, msg, Folds)
        else Push(s.(dispatcher := Busy(|s.requests|)), msg, Accepted(msg.id.value), [])
      case CancelRequest(target) => Cancel(s, msg, target)
      case OtherDollar => Answer(s, msg, MethodNotFound)
      case Unknown => Answer(s, msg, MethodNotFound)
  }

  predicate Valid(s: State, n: nat) {
    n < |s.requests|
  }

  function PcOf(s: State, n: nat): Pc
    requires Valid(s, n)
  {
    s.requests[n].1
  }

  function Move(s: State, n: nat, pc: Pc, e: seq<Event>): State
    requires Valid(s, n)
  {
    s.(requests := s.requests[n := (s.requests[n].0, pc)], log := s.log + e)
  }

  predicate IsDone(pc: Pc) {
    pc.Ignored? || pc.Answered? || pc.Replied?
  }

  function Step(s: State, a: Action): Option<State> {
    match a
    case Read(msg) => if s.dispatcher.Reading? && !s.exited then Some(Dispatch(s, msg)) else None
    case EndOfInput => if s.dispatcher.Reading? then Some(s.(dispatcher := Draining)) else None
    case LeaveLoop => if s.dispatcher.Reading? && s.exited then Some(s.(dispatcher := Draining)) else None
    case Register =>
      if !s.dispatcher.Busy? || !Valid(s, s.dispatcher.req) || !PcOf(s, s.dispatcher.req).Accepted? then None else
      var n := s.dispatcher.req;
      var id := PcOf(s, n).id;
      Some(Move(s.(inflight := s.inflight[id := n]), n, Registered(id), [EvRegistered(n, id)]))
    case Spawn =>
      if !s.dispatcher.Busy? || !Valid(s, s.dispatcher.req) || !PcOf(s, s.dispatcher.req).Registered? then None else
      var n := s.dispatcher.req;
      Some(Move(s.(dispatcher := Reading), n, Walking(PcOf(s, n).id), []))
    case Drain =>
      if s.dispatcher != Draining then None else
      Some(s.(dispatcher := Joining, cancelled := s.cancelled + s.inflight.Values, log := s.log + [EvDrain]))
    case Join =>
      if s.dispatcher == Joining && (forall n :: 0 <= n < |s.requests| ==> IsDone(s.requests[n].1))
      then Some(s.(dispatcher := Returned)) else None
    case Walk(n) =>
      if !Valid(s, n) || !PcOf(s, n).Walking? then None else Some(Move(s, n, Walked(PcOf(s, n).id), []))
    case Erase(n) =>
      if !Valid(s, n) || !PcOf(s, n).Walked? then None else
      var id := PcOf(s, n).id;
      Some(Move(s.(inflight := s.inflight - {id}), n, Erased(id, n in s.cancelled), [EvErased(n)]))
    case Send(n) =>
      if !Valid(s, n) || !PcOf(s, n).Erased? then None else
      var pc := PcOf(s, n);
      Some(Move(s, n, Replied(pc.id, pc.wasCancelled),
                [EvReplied(n, if pc.wasCancelled then RequestCancelled else Folds)]))
  }

  function Run(s: State, run: seq<Action>): Option<State> {
    if run == [] then Some(s)
    else
      var before := Run(s, run[..|run| - 1]);
      if before.None? then None else Step(before.value, run[|run| - 1])
  }

  // ----- Reading the log -----

  function Front<T>(s: seq<T>): seq<T>
    requires s != []
  {
    s[..|s| - 1]
  }

  function Replies(log: seq<Event>, n: nat): nat {
    if log == [] then 0
    else Replies(Front(log), n) + (if log[|log| - 1].EvReplied? && log[|log| - 1].req == n then 1 else 0)
  }

  /** A request's time in the table, as the log tells it. `hit`: a cancel for its id, or the drain, came in that time. */
  datatype Stay = Outside | InTable(id: Id, hit: bool) | Left(hit: bool)

  function StayOf(log: seq<Event>, n: nat): Stay {
    if log == [] then Outside
    else Next(StayOf(Front(log), n), log[|log| - 1], n)
  }

  function Next(stay: Stay, e: Event, n: nat): Stay {
    match e
    case EvRegistered(m, id) => if m == n then InTable(id, false) else stay
    case EvCancel(id) => if stay.InTable? && stay.id == id then InTable(id, true) else stay
    case EvDrain => if stay.InTable? then InTable(stay.id, true) else stay
    case EvErased(m) => if m == n && stay.InTable? then Left(stay.hit) else stay
    case EvReplied(_, _) => stay
  }

  /** Some other request with the same id was in the table during this one's stay. */
  ghost predicate SharesId(log: seq<Event>, n: nat) {
    if log == [] then false
    else
      var before, e := Front(log), log[|log| - 1];
      || SharesId(before, n)
      || (e.EvRegistered? && e.req != n && StayOf(before, n).InTable? && StayOf(before, n).id == e.id)
      || (e.EvRegistered? && e.req == n && exists m :: m != n && StayOf(before, m).InTable? && StayOf(before, m).id == e.id)
  }

  // ----- Invariant -----

  /** In the table as far as the request itself knows. */
  predicate IsLive(pc: Pc) {
    pc.Registered? || pc.Walking? || pc.Walked?
  }

  predicate LiveAt(s: State, n: nat, id: Id) {
    Valid(s, n) && IsLive(PcOf(s, n)) && PcOf(s, n).id == id
  }

  /** Requests a reply is owed to, whatever state the server is in. */
  predicate Owed(msg: Message) {
    && msg.id.Some?
    && (msg.kind.Initialize? || msg.kind.Shutdown? || msg.kind.FoldingRange? || msg.kind.OtherDollar? || msg.kind.Unknown?)
  }

  ghost predicate DispatcherOk(s: State) {
    && (s.dispatcher.Busy? ==> Valid(s, s.dispatcher.req))
    && (forall n: nat :: Valid(s, n) && (PcOf(s, n).Accepted? || PcOf(s, n).Registered?) ==> s.dispatcher == Busy(n))
    && (forall n: nat :: Valid(s, n) && PcOf(s, n).Ignored? ==> !Owed(s.requests[n].0))
  }

  /** Table entries and set flags belong to requests that have registered. */
  ghost predicate TableOk(s: State) {
    && (forall id :: id in s.inflight ==> LiveAt(s, s.inflight[id], id))
    && (forall n: nat :: n in s.cancelled ==>
          Valid(s, n) && !PcOf(s, n).Ignored? && !PcOf(s, n).Answered? && !PcOf(s, n).Accepted?)
  }

  /** The log agrees with how far request `n` has got. */
  ghost predicate StayOk(s: State, n: nat) {
    if !Valid(s, n) then StayOf(s.log, n) == Outside
    else
      var pc := PcOf(s, n);
      if IsLive(pc) then StayOf(s.log, n).InTable? && StayOf(s.log, n).id == pc.id
      else if pc.Erased? || pc.Replied? then StayOf(s.log, n).Left?
      else StayOf(s.log, n) == Outside
  }

  predicate Hit(stay: Stay) {
    !stay.Outside? && stay.hit
  }

  /** For a request whose id is its own, the table and the flag say what the log says. */
  ghost predicate FlagOk(s: State, n: nat) {
    Valid(s, n) && !SharesId(s.log, n) ==>
      var pc := PcOf(s, n);
      && (IsLive(pc) ==> pc.id in s.inflight && s.inflight[pc.id] == n && (n in s.cancelled <==> Hit(StayOf(s.log, n))))
      && (pc.Erased? || pc.Replied? ==> pc.wasCancelled == Hit(StayOf(s.log, n)))
  }

  ghost predicate SharingOk(s: State) {
    forall m: nat, n: nat, id :: m != n && LiveAt(s, m, id) && LiveAt(s, n, id) ==> SharesId(s.log, n)
  }

  ghost predicate RepliesOk(s: State, n: nat) {
    Replies(s.log, n) == if Valid(s, n) && (PcOf(s, n).Answered? || PcOf(s, n).Replied?) then 1 else 0
  }

  /** Every reply in the log is the one its request computed. */
  ghost predicate ReplyKindOk(s: State, n: nat) {
    Valid(s, n) && PcOf(s, n).Replied? ==>
      EvReplied(n, if PcOf(s, n).wasCancelled then RequestCancelled else Folds) in s.log
  }

  ghost predicate RequestOk(s: State, n: nat) {
    StayOk(s, n) && FlagOk(s, n) && RepliesOk(s, n) && ReplyKindOk(s, n)
  }

  ghost predicate Inv(s: State) {
    && DispatcherOk(s) && TableOk(s) && SharingOk(s)
    && (forall n: nat :: RequestOk(s, n))
  }

  // ----- One event more -----

  lemma LogSnoc(log: seq<Event>, e: Event, n: nat)
    ensures StayOf(log + [e], n) == Next(StayOf(log, n), e, n)
    ensures Replies(log + [e], n) == Replies(log, n) + (if e.EvReplied? && e.req == n then 1 else 0)
    ensures !e.EvRegistered? ==> SharesId(log + [e], n) == SharesId(log, n)
    ensures SharesId(log, n) ==> SharesId(log + [e], n)
  {
    assert Front(log + [e]) == log;
  }

  lemma SharesSnoc(log: seq<Event>, m: nat, id: Id, n: nat)
    ensures m != n && StayOf(log, n).InTable? && StayOf(log, n).id == id ==> SharesId(log + [EvRegistered(m, id)], n)
    ensures m != n && StayOf(log, m).InTable? && StayOf(log, m).id == id ==> SharesId(log + [EvRegistered(n, id)], n)
  {
    assert Front(log + [EvRegistered(m, id)]) == log;
    assert Front(log + [EvRegistered(n, id)]) == log;
  }

  lemma InitOk()
    ensures Inv(INIT)
  {
    forall n: nat ensures RequestOk(INIT, n) {
    }
  }

  // ----- Every step keeps the invariant -----

  /** Moving a live request along, without an event. */
  lemma AdvanceRequestOk(s: State, k: nat, pc: Pc, d: Dispatcher, n: nat)
    requires Inv(s) && Valid(s, k) && IsLive(PcOf(s, k)) && (pc.Walking? || pc.Walked?) && pc.id == PcOf(s, k).id
    ensures RequestOk(Move(s.(dispatcher := d), k, pc, []), n)
  {
    assert Move(s.(dispatcher := d), k, pc, []).log == s.log;
    assert RequestOk(s, n);
  }

  lemma AdvanceKeeps(s: State, k: nat, pc: Pc, d: Dispatcher)
    requires Inv(s) && Valid(s, k) && IsLive(PcOf(s, k)) && (pc.Walking? || pc.Walked?) && pc.id == PcOf(s, k).id
    requires if PcOf(s, k).Registered? then d == Reading else d == s.dispatcher
    ensures Inv(Move(s.(dispatcher := d), k, pc, []))
  {
    var s' := Move(s.(dispatcher := d), k, pc, []);
    assert s'.log == s.log;
    forall n: nat ensures RequestOk(s', n) {
      AdvanceRequestOk(s, k, pc, d, n);
    }
    forall m: nat, n: nat, id | m != n && LiveAt(s', m, id) && LiveAt(s', n, id) ensures SharesId(s'.log, n) {
      assert LiveAt(s, m, id) && LiveAt(s, n, id);
    }
  }

  lemma EraseRequestOk(s: State, k: nat, n: nat)
    requires Inv(s) && Step(s, Erase(k)).Some?
    ensures RequestOk(Step(s, Erase(k)).value, n)
  {
    var id := PcOf(s, k).id;
    assert RequestOk(s, n);
    LogSnoc(s.log, EvErased(k), n);
    assert LiveAt(s, k, id) && (n != k && LiveAt(s, n, id) ==> SharesId(s.log, n));
  }

  lemma SendRequestOk(s: State, k: nat, n: nat)
    requires Inv(s) && Step(s, Send(k)).Some?
    ensures RequestOk(Step(s, Send(k)).value, n)
  {
    assert RequestOk(s, n);
    LogSnoc(s.log, Step(s, Send(k)).value.log[|s.log|], n);
  }

  lemma EraseKeeps(s: State, k: nat)
    requires Inv(s) && Step(s, Erase(k)).Some?
    ensures Inv(Step(s, Erase(k)).value)
  {
    var s' := Step(s, Erase(k)).value;
    forall n: nat ensures RequestOk(s', n) {
      EraseRequestOk(s, k, n);
    }
    forall m: nat, n: nat, id | m != n && LiveAt(s', m, id) && LiveAt(s', n, id) ensures SharesId(s'.log, n) {
      assert LiveAt(s, m, id) && LiveAt(s, n, id);
      LogSnoc(s.log, EvErased(k), n);
    }
  }

  lemma SendKeeps(s: State, k: nat)
    requires Inv(s) && Step(s, Send(k)).Some?
    ensures Inv(Step(s, Send(k)).value)
  {
    var s' := Step(s, Send(k)).value;
    var e := s'.log[|s.log|];
    forall n: nat ensures RequestOk(s', n) {
      SendRequestOk(s, k, n);
    }
    forall m: nat, n: nat, id | m != n && LiveAt(s', m, id) && LiveAt(s', n, id) ensures SharesId(s'.log, n) {
      assert LiveAt(s, m, id) && LiveAt(s, n, id);
      LogSnoc(s.log, e, n);
    }
  }

  lemma RegisterRequestOk(s: State, n: nat)
    requires Inv(s) && Step(s, Register).Some?
    ensures RequestOk(Step(s, Register).value, n)
  {
    var k := s.dispatcher.req;
    var id := PcOf(s, k).id;
    assert RequestOk(s, n);
    LogSnoc(s.log, EvRegistered(k, id), n);
    SharesSnoc(s.log, k, id, n);
  }

  lemma RegisterKeeps(s: State)
    requires Inv(s) && Step(s, Register).Some?
    ensures Inv(Step(s, Register).value)
  {
    var s' := Step(s, Register).value;
    var k := s.dispatcher.req;
    var id := PcOf(s, k).id;
    forall n: nat ensures RequestOk(s', n) {
      RegisterRequestOk(s, n);
    }
    forall m: nat, n: nat, i | m != n && LiveAt(s', m, i) && LiveAt(s', n, i) ensures SharesId(s'.log, n) {
      LogSnoc(s.log, EvRegistered(k, id), n);
      SharesSnoc(s.log, k, id, n);
      SharesSnoc(s.log, m, id, n);
      assert RequestOk(s, m) && RequestOk(s, n);
      assert m != k && n != k ==> LiveAt(s, m, i) && LiveAt(s, n, i);
    }
  }

  lemma DrainKeeps(s: State)
    requires Inv(s) && Step(s, Drain).Some?
    ensures Inv(Step(s, Drain).value)
  {
    var s' := Step(s, Drain).value;
    forall n: nat ensures RequestOk(s', n) {
      assert RequestOk(s, n);
      LogSnoc(s.log, EvDrain, n);
    }
    forall m: nat, n: nat, id | m != n && LiveAt(s', m, id) && LiveAt(s', n, id) ensures SharesId(s'.log, n) {
      assert LiveAt(s, m, id) && LiveAt(s, n, id);
      LogSnoc(s.log, EvDrain, n);
    }
  }

  /** A message handled on the dispatch thread, with at most a reply. */
  lemma AnswerKeeps(s: State, msg: Message, reply: Reply)
    requires Inv(s) && s.dispatcher.Reading?
    ensures Inv(Answer(s, msg, reply))
  {
    var s' := Answer(s, msg, reply);
    assert s'.log == if msg.id.None? then s.log else s.log + [EvReplied(|s.requests|, reply)];
    forall n: nat ensures RequestOk(s', n) {
      assert RequestOk(s, n);
      LogSnoc(s.log, EvReplied(|s.requests|, reply), n);
    }
    forall m: nat, n: nat, id | m != n && LiveAt(s', m, id) && LiveAt(s', n, id) ensures SharesId(s'.log, n) {
      assert LiveAt(s, m, id) && LiveAt(s, n, id);
      LogSnoc(s.log, EvReplied(|s.requests|, reply), n);
    }
  }

  lemma CancelRequestOk(s: State, msg: Message, id: Id, n: nat)
    requires Inv(s)
    ensures
      var hit := if id in s.inflight then {s.inflight[id]} else {};
      RequestOk(Push(s.(cancelled := s.cancelled + hit), msg, Ignored, [EvCancel(id)]), n)
  {
    assert RequestOk(s, n);
    LogSnoc(s.log, EvCancel(id), n);
  }

  lemma CancelKeeps(s: State, msg: Message, id: Id)
    requires Inv(s) && s.dispatcher.Reading? && msg.kind.CancelRequest?
    ensures
      var hit := if id in s.inflight then {s.inflight[id]} else {};
      Inv(Push(s.(cancelled := s.cancelled + hit), msg, Ignored, [EvCancel(id)]))
  {
    var hit := if id in s.inflight then {s.inflight[id]} else {};
    var s' := Push(s.(cancelled := s.cancelled + hit), msg, Ignored, [EvCancel(id)]);
    forall n: nat ensures RequestOk(s', n) {
      CancelRequestOk(s, msg, id, n);
    }
    forall m: nat, n: nat, i | m != n && LiveAt(s', m, i) && LiveAt(s', n, i) ensures SharesId(s'.log, n) {
      assert LiveAt(s, m, i) && LiveAt(s, n, i);
      LogSnoc(s.log, EvCancel(id), n);
    }
  }

  /** A message that only sets lifecycle flags, or nothing at all. */
  lemma QuietKeeps(s: State, msg: Message, initialized: bool, shutdown: bool, exited: bool)
    requires Inv(s) && s.dispatcher.Reading? && !Owed(msg)
    ensures Inv(Push(s.(initialized := initialized, shutdown := shutdown, exited := exited), msg, Ignored, []))
  {
    var s' := Push(s.(initialized := initialized, shutdown := shutdown, exited := exited), msg, Ignored, []);
    assert s'.log == s.log;
    forall n: nat ensures RequestOk(s', n) {
      assert RequestOk(s, n);
    }
    forall m: nat, n: nat, id | m != n && LiveAt(s', m, id) && LiveAt(s', n, id) ensures SharesId(s'.log, n) {
      assert LiveAt(s, m, id) && LiveAt(s, n, id);
    }
  }

  lemma AcceptKeeps(s: State, msg: Message)
    requires Inv(s) && s.dispatcher.Reading? && msg.kind.FoldingRange? && msg.id.Some?
    ensures Inv(Push(s.(dispatcher := Busy(|s.requests|)), msg, Accepted(msg.id.value), []))
  {
    var s' := Push(s.(dispatcher := Busy(|s.requests|)), msg, Accepted(msg.id.value), []);
    assert s'.log == s.log;
    forall n: nat ensures RequestOk(s', n) {
      assert RequestOk(s, n);
    }
    forall m: nat, n: nat, id | m != n && LiveAt(s', m, id) && LiveAt(s', n, id) ensures SharesId(s'.log, n) {
      assert LiveAt(s, m, id) && LiveAt(s, n, id);
    }
  }

  /** The lifecycle flags are not part of the invariant. */
  lemma FlagsKeep(s: State, shutdown: bool, d: Dispatcher)
    requires Inv(s) && s.dispatcher != Busy(0) && !s.dispatcher.Busy? && !d.Busy?
    ensures Inv(s.(shutdown := shutdown, dispatcher := d))
  {
    var s' := s.(shutdown := shutdown, dispatcher := d);
    forall n: nat ensures RequestOk(s', n) {
      assert RequestOk(s, n);
    }
    forall m: nat, n: nat, id | m != n && LiveAt(s', m, id) && LiveAt(s', n, id) ensures SharesId(s'.log, n) {
      assert LiveAt(s, m, id) && LiveAt(s, n, id);
    }
  }

  lemma ReadKeeps(s: State, msg: Message)
    requires Inv(s) && s.dispatcher.Reading?
    ensures Inv(Dispatch(s, msg))
  {
    if !s.initialized && GatedBeforeInit(msg.kind) {
      AnswerKeeps(s, msg, NotInitialized);
    } else if s.shutdown && GatedAfterShutdown(msg.kind) {
      AnswerKeeps(s, msg, InvalidRequest);
    } else {
      match msg.kind
      case Initialize => AnswerKeeps(s, msg, Result);
      case Initialized => QuietKeeps(s, msg, true, s.shutdown, s.exited);
      case Shutdown =>
        if msg.id.None? {
          QuietKeeps(s, msg, s.initialized, s.shutdown, s.exited);
        } else {
          FlagsKeep(s, true, s.dispatcher);
          AnswerKeeps(s.(shutdown := true), msg, Result);
        }
      case Exit => QuietKeeps(s, msg, s.initialized, s.shutdown, true);
      case DocumentSync => QuietKeeps(s, msg, s.initialized, s.shutdown, s.exited);
      case FoldingRange =>
        if msg.id.None? {
          QuietKeeps(s, msg, s.initialized, s.shutdown, s.exited);
        } else if !msg.wellFormed {
          AnswerKeeps(s, msg, Folds);
        } else {
          AcceptKeeps(s, msg);
        }
      case CancelRequest(target) =>
        if !msg.wellFormed || target.None? {
          QuietKeeps(s, msg, s.initialized, s.shutdown, s.exited);
        } else {
          CancelKeeps(s, msg, target.value);
        }
      case OtherDollar => AnswerKeeps(s, msg, MethodNotFound);
      case Unknown => AnswerKeeps(s, msg, MethodNotFound);
    }
  }

  lemma StepKeepsInv(s: State, a: Action)
    requires Inv(s) && Step(s, a).Some?
    ensures Inv(Step(s, a).value)
  {
    match a
    case Read(msg) => ReadKeeps(s, msg);
    case EndOfInput => FlagsKeep(s, s.shutdown, Draining);
    case LeaveLoop => FlagsKeep(s, s.shutdown, Draining);
    case Register => RegisterKeeps(s);
    case Spawn => AdvanceKeeps(s, s.dispatcher.req, Walking(PcOf(s, s.dispatcher.req).id), Reading);
    case Drain => DrainKeeps(s);
    case Join => FlagsKeep(s, s.shutdown, Returned);
    case Walk(n) => AdvanceKeeps(s, n, Walked(PcOf(s, n).id), s.dispatcher);
    case Erase(n) => EraseKeeps(s, n);
    case Send(n) => SendKeeps(s, n);
  }

  lemma {:induction false} RunKeepsInv(run: seq<Action>)
    ensures Run(INIT, run).Some? ==> Inv(Run(INIT, run).value)
  {
    if run == [] {
      InitOk();
    } else {
      RunKeepsInv(run[..|run| - 1]);
      if Run(INIT, run).Some? {
        StepKeepsInv(Run(INIT, run[..|run| - 1]).value, run[|run| - 1]);
      }
    }
  }

  // ----- Main results -----

  lemma {:induction false} EventCounts(log: seq<Event>, n: nat, reply: Reply)
    requires EvReplied(n, reply) in log
    ensures Replies(log, n) > 0
  {
    if log[|log| - 1] != EvReplied(n, reply) {
      assert EvReplied(n, reply) in Front(log);
      EventCounts(Front(log), n, reply);
    }
  }

  /** In every run, at every moment, no message has more than one reply. */
  lemma AtMostOneReply(run: seq<Action>, n: nat)
    requires Run(INIT, run).Some?
    ensures Replies(Run(INIT, run).value.log, n) <= 1
  {
    RunKeepsInv(run);
    assert RequestOk(Run(INIT, run).value, n);
  }

  /** When `run` has returned, every request that is owed a reply has had exactly one. */
  lemma ExactlyOneReply(run: seq<Action>, n: nat)
    requires Run(INIT, run).Some? && Run(INIT, run).value.dispatcher.Returned?
    requires n < |Run(INIT, run).value.requests| && Owed(Run(INIT, run).value.requests[n].0)
    ensures Replies(Run(INIT, run).value.log, n) == 1
  {
    RunKeepsInv(run);
    ReturnedIsDone(run);
    assert RequestOk(Run(INIT, run).value, n);
  }

  ghost predicate AllDone(s: State) {
    forall n :: 0 <= n < |s.requests| ==> IsDone(s.requests[n].1)
  }

  lemma StepReturned(s: State, a: Action)
    requires s.dispatcher.Returned? ==> AllDone(s)
    requires Step(s, a).Some?
    ensures Step(s, a).value.dispatcher.Returned? ==> AllDone(Step(s, a).value)
  {
  }

  /** Once `run` has returned no thread of the server has anything left to do. */
  lemma {:induction false} ReturnedIsDone(run: seq<Action>)
    requires Run(INIT, run).Some?
    ensures Run(INIT, run).value.dispatcher.Returned? ==> AllDone(Run(INIT, run).value)
  {
    if run != [] {
      ReturnedIsDone(run[..|run| - 1]);
      StepReturned(Run(INIT, run[..|run| - 1]).value, run[|run| - 1]);
    }
  }

  lemma {:induction false} TwoReplies(log: seq<Event>, n: nat, r: Reply, q: Reply)
    requires r != q && EvReplied(n, r) in log && EvReplied(n, q) in log
    ensures Replies(log, n) >= 2
  {
    var e := log[|log| - 1];
    var front := Front(log);
    assert log == front + [e];
    if e == EvReplied(n, r) {
      EventCounts(front, n, q);
    } else if e == EvReplied(n, q) {
      EventCounts(front, n, r);
    } else {
      TwoReplies(front, n, r, q);
    }
  }

  /**
   A folding-range request that entered the table under an id of its own is
   answered RequestCancelled exactly when a cancel for that id, or the final
   drain, went through the table between its registration and its erase.
   */
  lemma CancelledIff(run: seq<Action>, n: nat, reply: Reply)
    requires Run(INIT, run).Some?
    requires
      var log := Run(INIT, run).value.log;
      EvReplied(n, reply) in log && !StayOf(log, n).Outside? && !SharesId(log, n)
    ensures reply == RequestCancelled || reply == Folds
    ensures reply == RequestCancelled <==> StayOf(Run(INIT, run).value.log, n).hit
  {
    RunKeepsInv(run);
    var s := Run(INIT, run).value;
    assert RequestOk(s, n);
    EventCounts(s.log, n, reply);
    var sent := if PcOf(s, n).wasCancelled then RequestCancelled else Folds;
    if sent != reply {
      TwoReplies(s.log, n, sent, reply);
    }
  }
}
