/** The core's request router: calls forwarded to module connections under internal ids, and the
    correlation of replies, timeouts and lost connections with the callers that wait. */
module Router {
  import opened Options

  /** The body of a reply: a result or an error. */
  datatype Body = Result(text: string) | Failure(code: int, text: string)

  const MODULE_OFFLINE: int := -31000
  const MODULE_TIMEOUT: int := -31001
  const CAPABILITY_MISSING: int := -31002
  const INTERNAL_ERROR: int := -32603

  const OFFLINE := Failure(MODULE_OFFLINE, "")

  /** A JSON-RPC id: an integer, or a string or null. */
  datatype Id = IntId(n: int) | TextId(s: string) | NullId

  /** A forwarded call: its reply, once there is one, and the module that owes it. */
  datatype Call = Call(reply: Option<Body>, owner: string)

  datatype State = State(writers: map<string, int>, pending: map<int, Call>, lastId: nat)

  const INITIAL := State(map[], map[], 0)

  /** The module before the first dot of a method. */
  function OwnerOf(method_: string): string {
    if method_ == "" || method_[0] == '.' then "" else [method_[0]] + OwnerOf(method_[1..])
  }

  // ---- the state changes ------------------------------------------------------------

  function Settled(c: Call, name: string): Call {
    if c.owner == name && c.reply == None then c.(reply := Some(OFFLINE)) else c
  }

  function Detach(s: State, name: string): State {
    s.(writers := s.writers - {name}, pending := map id | id in s.pending :: Settled(s.pending[id], name))
  }

  function Attach(s: State, name: string, writer: int): State {
    var s' := if name in s.writers then Detach(s, name) else s;
    s'.(writers := s'.writers[name := writer])
  }

  function Resolve(s: State, id: Id, body: Body): State {
    if id.IntId? && id.n in s.pending && s.pending[id.n].reply == None
    then s.(pending := s.pending[id.n := s.pending[id.n].(reply := Some(body))])
    else s
  }

  /** The start of a call, up to the await: its internal id, or the error that it raises. What the
      registry says of the method is a parameter. */
  function Issue(s: State, method_: string, registered: bool, hasMethod: bool): (State, Options.Result<int, int>) {
    var owner := OwnerOf(method_);
    if !registered then (s, Err(MODULE_OFFLINE))
    else if !hasMethod then (s, Err(CAPABILITY_MISSING))
    else if owner !in s.writers then (s, Err(MODULE_OFFLINE))
    else
      var id := s.lastId + 1;
      (s.(lastId := id, pending := s.pending[id := Call(None, owner)]), Ok(id))
  }

  /** The end of a call, however it ends. */
  function Forget(s: State, id: int): State {
    s.(pending := s.pending - {id})
  }

  lemma SomeMember(ids: set<int>)
    requires ids != {}
    ensures exists id :: id in ids
  {
    assert (forall id :: id !in ids) ==> ids == {};
  }

  // ---- the object -------------------------------------------------------------------

  class CallRouter {
    var moduleWriters: map<string, int>
    var pending: map<int, Call>
    var nextInternalId: nat

    ghost function Abstract(): State
      reads this
    {
      State(moduleWriters, pending, nextInternalId)
    }

    constructor ()
      ensures Abstract() == INITIAL
    {
      moduleWriters, pending, nextInternalId := map[], map[], 0;
    }

    method AttachModuleWriter(name: string, writer: int)
      modifies this
      ensures Abstract() == Attach(old(Abstract()), name, writer)
    {
      if name in moduleWriters {
        DetachModuleWriter(name);
      }
      moduleWriters := moduleWriters[name := writer];
    }

    /** The pending calls are visited in some order; each of the module's open ones fails. */
    method DetachModuleWriter(name: string)
      modifies this
      ensures Abstract() == Detach(old(Abstract()), name)
    {
      moduleWriters := moduleWriters - {name};
      var rest: set<int> := pending.Keys;
      while rest != {}
        invariant rest <= pending.Keys == old(pending).Keys
        invariant forall id :: id in rest ==> pending[id] == old(pending)[id]
        invariant forall id :: id in old(pending).Keys - rest ==> pending[id] == Settled(old(pending)[id], name)
        invariant moduleWriters == old(moduleWriters) - {name} && nextInternalId == old(nextInternalId)
        decreases rest
      {
        SomeMember(rest);
        var id :| id in rest;
        var call := pending[id];
        if call.owner == name && call.reply == None {
          pending := pending[id := call.(reply := Some(OFFLINE))];
        }
        rest := rest - {id};
      }
      assert forall id :: id in pending ==> pending[id] == Settled(old(pending)[id], name);
      assert pending == (map id | id in old(pending) :: Settled(old(pending)[id], name));
    }

    method ResolvePending(id: Id, body: Body)
      modifies this
      ensures Abstract() == Resolve(old(Abstract()), id, body)
    {
      if !id.IntId? || id.n !in pending {
        return;
      }
      if pending[id.n].reply == None {
        pending := pending[id.n := pending[id.n].(reply := Some(body))];
      }
    }

    /** _issue_to_module up to the write of the forwarded frame. */
    method IssueToModule(method_: string, registered: bool, hasMethod: bool) returns (r: Options.Result<int, int>)
      modifies this
      ensures (Abstract(), r) == Issue(old(Abstract()), method_, registered, hasMethod)
    {
      var owner := OwnerOf(method_);
      if !registered {
        return Err(MODULE_OFFLINE);
      }
      if !hasMethod {
        return Err(CAPABILITY_MISSING);
      }
      if owner !in moduleWriters {
        return Err(MODULE_OFFLINE);
      }
      nextInternalId := nextInternalId + 1;
      var id := nextInternalId;
      pending := pending[id := Call(None, owner)];
      r := Ok(id);
    }

    /** The finally clause of _issue_to_module. */
    method Finish(id: int)
      modifies this
      ensures Abstract() == Forget(old(Abstract()), id)
    {
      pending := pending - {id};
    }
  }

  // ---- runs -------------------------------------------------------------------------

  /** The atomic steps between awaits, in any order. `Resume`, `TimeOut` and `WriteFails` end the
      call with that internal id: its reply has come, its deadline has passed, or the frame could
      not be written. `sender` is whose connection a reply comes in on, which the source never asks. */
  datatype Op =
    | Attaching(name: string, writer: int)
    | Detaching(name: string)
    | Replying(sender: string, id: Id, body: Body)
    | Calling(caller: Id, method_: string, registered: bool, hasMethod: bool)
    | Resume(internalId: int)
    | TimeOut(internalId: int)
    | WriteFails(internalId: int)

  /** Why a call's future was resolved. */
  datatype Cause = ByReply(sender: string, id: Id, body: Body) | ByDetach(name: string)

  /** What a caller gets: its own request id, and a body. */
  datatype Answer = Answer(caller: Id, internalId: Option<int>, body: Body)

  /** The router with the record of its past: who made each call and to which module, why each
      future was resolved, and every answer given. */
  datatype Past = Past(
    s: State,
    callers: map<int, Id>,
    owners: map<int, string>,
    causes: map<int, Cause>,
    answers: seq<Answer>)

  function CauseBody(c: Cause): Body {
    match c
    case ByReply(_, _, body) => body
    case ByDetach(_) => OFFLINE
  }

  /** The causes that a state change adds: the futures it resolves. */
  function Resolved(s: State, s': State, c: Cause): map<int, Cause> {
    map id | id in s'.pending && s'.pending[id].reply.Some? && id in s.pending && s.pending[id].reply == None :: c
  }

  function Ended(p: Past, id: int, body: Body): Past
    requires id in p.callers
  {
    p.(s := Forget(p.s, id), answers := p.answers + [Answer(p.callers[id], Some(id), body)])
  }

  function Step(p: Past, op: Op): Past
    requires p.s.pending.Keys <= p.callers.Keys
  {
    match op
    case Attaching(name, writer) =>
      var s' := Attach(p.s, name, writer);
      p.(s := s', causes := p.causes + Resolved(p.s, s', ByDetach(name)))
    case Detaching(name) =>
      var s' := Detach(p.s, name);
      p.(s := s', causes := p.causes + Resolved(p.s, s', ByDetach(name)))
    case Replying(sender, id, body) =>
      var s' := Resolve(p.s, id, body);
      p.(s := s', causes := p.causes + Resolved(p.s, s', ByReply(sender, id, body)))
    case Calling(caller, method_, registered, hasMethod) =>
      var (s', r) := Issue(p.s, method_, registered, hasMethod);
      (match r
       case Err(code) => p.(answers := p.answers + [Answer(caller, None, Failure(code, ""))])
       case Ok(id) =>
         p.(s := s', callers := p.callers[id := caller], owners := p.owners[id := OwnerOf(method_)]))
    case Resume(id) =>
      if id in p.s.pending && p.s.pending[id].reply.Some? then Ended(p, id, p.s.pending[id].reply.value) else p
    case TimeOut(id) => if id in p.s.pending then Ended(p, id, Failure(MODULE_TIMEOUT, "")) else p
    case WriteFails(id) => if id in p.s.pending then Ended(p, id, Failure(INTERNAL_ERROR, "")) else p
  }

  function Run(ops: seq<Op>): (p: Past)
    ensures p.s.pending.Keys <= p.callers.Keys
  {
    if ops == [] then Past(INITIAL, map[], map[], map[], []) else
      Step(Run(ops[..|ops| - 1]), ops[|ops| - 1])
  }

  /** The calls that were answered. */
  ghost function Answered(answers: seq<Answer>): set<int> {
    set a | a in answers && a.internalId.Some? :: a.internalId.value
  }

  /** Internal ids are handed out once each, in order, and a call is pending or answered, never
      both. */
  ghost predicate IdsAreFresh(p: Past) {
    && (forall id :: id in p.callers <==> 1 <= id <= p.s.lastId)
    && p.owners.Keys == p.callers.Keys
    && p.s.pending.Keys <= p.callers.Keys
    && Answered(p.answers) == p.callers.Keys - p.s.pending.Keys
  }

  ghost predicate IsOwnCause(c: Cause, id: int, owner: string) {
    match c
    case ByReply(_, rid, _) => rid == IntId(id)
    case ByDetach(name) => name == owner
  }

  function Outcome(causes: map<int, Cause>, id: int): Option<Body> {
    if id in causes then Some(CauseBody(causes[id])) else None
  }

  /** A future is resolved exactly by its recorded cause, which is a reply with its own id or the
      detachment of the module that owes the call. */
  ghost predicate FuturesHaveCauses(p: Past)
    requires IdsAreFresh(p)
  {
    && (forall id :: id in p.causes ==> id in p.owners && IsOwnCause(p.causes[id], id, p.owners[id]))
    && (forall id :: id in p.s.pending ==> p.s.pending[id].owner == p.owners[id])
    && (forall id :: id in p.s.pending ==> p.s.pending[id].reply == Outcome(p.causes, id))
  }

  /** Every unresolved call's owner has a connection. */
  ghost predicate OwnersAreAttached(p: Past) {
    forall id :: id in p.s.pending && p.s.pending[id].reply == None ==> p.s.pending[id].owner in p.s.writers
  }

  /** The answer to a call: to the caller who made it, and what resolved the call's future, unless
      the call timed out or was never written. */
  ghost predicate IsOwnAnswer(p: Past, a: Answer)
    requires a.internalId.Some?
  {
    var id := a.internalId.value;
    && id in p.callers && a.caller == p.callers[id]
    && (Outcome(p.causes, id) == Some(a.body)
        || a.body == Failure(MODULE_TIMEOUT, "") || a.body == Failure(INTERNAL_ERROR, ""))
  }

  /** Every answer to a call is its own, and there is at most one per call. */
  ghost predicate AnswersAreOwn(p: Past) {
    && (forall i :: 0 <= i < |p.answers| && p.answers[i].internalId.Some? ==> IsOwnAnswer(p, p.answers[i]))
    && (forall i, j :: 0 <= i < j < |p.answers| && p.answers[i].internalId.Some? ==>
          p.answers[i].internalId != p.answers[j].internalId)
  }

  ghost predicate Correlates(p: Past) {
    IdsAreFresh(p) && FuturesHaveCauses(p) && OwnersAreAttached(p) && AnswersAreOwn(p)
  }

  lemma AnsweredSnoc(answers: seq<Answer>, a: Answer)
    ensures Answered(answers + [a]) == Answered(answers) + (if a.internalId.Some? then {a.internalId.value} else {})
  {
    assert forall x :: x in answers + [a] <==> x in answers || x == a;
  }

  /** A change that only resolves open futures, each by a cause of its own. */
  ghost predicate Settles(p: Past, s': State, c: Cause)
    requires IdsAreFresh(p)
  {
    && s'.lastId == p.s.lastId && s'.pending.Keys == p.s.pending.Keys
    && forall id :: id in s'.pending ==>
         s'.pending[id] == p.s.pending[id] ||
         (p.s.pending[id].reply == None && s'.pending[id] == p.s.pending[id].(reply := Some(CauseBody(c)))
           && IsOwnCause(c, id, p.owners[id]))
  }

  lemma SettlingCorrelates(p: Past, s': State, c: Cause)
    requires Correlates(p) && Settles(p, s', c)
    requires forall id :: id in s'.pending && s'.pending[id].reply == None ==> s'.pending[id].owner in s'.writers
    ensures Correlates(p.(s := s', causes := p.causes + Resolved(p.s, s', c)))
  {
    var causes := p.causes + Resolved(p.s, s', c);
    forall id | id in s'.pending
      ensures s'.pending[id].reply == Outcome(causes, id)
    {
      assert id in p.s.pending;
    }
    assert forall id :: id in p.causes ==> causes[id] == p.causes[id];
  }

  lemma EndingCorrelates(p: Past, id: int, body: Body)
    requires Correlates(p) && id in p.s.pending && id in p.callers
    requires Outcome(p.causes, id) == Some(body) || body in {Failure(MODULE_TIMEOUT, ""), Failure(INTERNAL_ERROR, "")}
    ensures Correlates(Ended(p, id, body))
  {
    AnsweredSnoc(p.answers, Answer(p.callers[id], Some(id), body));
    forall i | 0 <= i < |p.answers| ensures p.answers[i].internalId != Some(id) {
      if p.answers[i].internalId.Some? {
        assert p.answers[i].internalId.value in Answered(p.answers);
      }
    }
  }

  lemma RefusingCorrelates(p: Past, a: Answer)
    requires Correlates(p) && a.internalId == None
    ensures Correlates(p.(answers := p.answers + [a]))
  {
    AnsweredSnoc(p.answers, a);
  }

  lemma CallingCorrelates(p: Past, caller: Id, owner: string)
    requires Correlates(p) && owner in p.s.writers
    ensures var id := p.s.lastId + 1;
      Correlates(p.(s := p.s.(lastId := id, pending := p.s.pending[id := Call(None, owner)]),
                    callers := p.callers[id := caller], owners := p.owners[id := owner]))
  {
    var id := p.s.lastId + 1;
    assert id !in p.callers && id !in p.causes && id !in Answered(p.answers);
  }

  lemma StepCorrelates(p: Past, op: Op)
    requires Correlates(p)
    ensures Correlates(Step(p, op))
  {
    match op {
      case Attaching(name, writer) => SettlingCorrelates(p, Attach(p.s, name, writer), ByDetach(name));
      case Detaching(name) => SettlingCorrelates(p, Detach(p.s, name), ByDetach(name));
      case Replying(sender, id, body) => SettlingCorrelates(p, Resolve(p.s, id, body), ByReply(sender, id, body));
      case Calling(caller, method_, registered, hasMethod) =>
        match Issue(p.s, method_, registered, hasMethod).1 {
          case Err(code) => RefusingCorrelates(p, Answer(caller, None, Failure(code, "")));
          case Ok(_) => CallingCorrelates(p, caller, OwnerOf(method_));
        }
      case Resume(id) =>
        if id in p.s.pending && p.s.pending[id].reply.Some? {
          EndingCorrelates(p, id, p.s.pending[id].reply.value);
        }
      case TimeOut(id) =>
        if id in p.s.pending {
          EndingCorrelates(p, id, Failure(MODULE_TIMEOUT, ""));
        }
      case WriteFails(id) =>
        if id in p.s.pending {
          EndingCorrelates(p, id, Failure(INTERNAL_ERROR, ""));
        }
    }
  }

  /** Correlation over every interleaving of calls, replies, timeouts and connections. */
  lemma {:induction false} RunsCorrelate(ops: seq<Op>)
    ensures Correlates(Run(ops))
  {
    if ops != [] {
      RunsCorrelate(ops[..|ops| - 1]);
      StepCorrelates(Run(ops[..|ops| - 1]), ops[|ops| - 1]);
    }
  }

  /** Nothing that happened is undone: ids keep their caller, futures their cause, and the answers
      given stay. So no id is reused and no future resolved a second time. */
  ghost predicate Continues(p: Past, p': Past) {
    && p.s.lastId <= p'.s.lastId
    && (forall id :: id in p.callers ==> id in p'.callers && p'.callers[id] == p.callers[id])
    && (forall id :: id in p.causes ==> id in p'.causes && p'.causes[id] == p.causes[id])
    && p.answers <= p'.answers
  }

  lemma StepContinues(p: Past, op: Op)
    requires Correlates(p)
    ensures Continues(p, Step(p, op))
  {
    var p' := Step(p, op);
    forall id | id in p.causes ensures id in p'.causes && p'.causes[id] == p.causes[id] {
      assert id in p.s.pending ==> p.s.pending[id].reply.Some?;
    }
  }

  lemma ContinuesChain(p: Past, p': Past, p'': Past)
    requires Continues(p, p') && Continues(p', p'')
    ensures Continues(p, p'')
  {
  }

  lemma RunSnoc(ops: seq<Op>, op: Op)
    ensures Run(ops + [op]) == Step(Run(ops), op)
  {
    assert (ops + [op])[..|ops|] == ops;
  }

  lemma {:induction false} RunsContinue(ops: seq<Op>, more: seq<Op>)
    ensures Continues(Run(ops), Run(ops + more))
    decreases |more|
  {
    if more == [] {
      assert ops + more == ops;
    } else {
      var n := |more| - 1;
      var before := ops + more[..n];
      assert ops + more == before + [more[n]];
      RunsContinue(ops, more[..n]);
      RunsCorrelate(before);
      RunSnoc(before, more[n]);
      StepContinues(Run(before), more[n]);
      ContinuesChain(Run(ops), Run(before), Run(ops + more));
    }
  }

  /** A reply to an id that is not pending, that is already resolved or that is no integer changes
      nothing. */
  lemma LateRepliesAreIgnored(ops: seq<Op>, sender: string, id: Id, body: Body)
    requires id.IntId? ==> id.n in Run(ops).causes || id.n !in Run(ops).s.pending
    ensures Run(ops + [Replying(sender, id, body)]) == Run(ops)
  {
    RunsCorrelate(ops);
    RunSnoc(ops, Replying(sender, id, body));
    var p := Run(ops);
    assert Resolve(p.s, id, body) == p.s;
    assert p.causes + map[] == p.causes;
    assert Resolved(p.s, p.s, ByReply(sender, id, body)) == map[];
  }

  // ---- who replies ------------------------------------------------------------------

  /** A reply that comes in while its call is open, from a connection other than the owner's. */
  predicate IsForeign(s: State, op: Op) {
    && op.Replying? && op.id.IntId? && op.id.n in s.pending
    && s.pending[op.id.n].reply == None && s.pending[op.id.n].owner != op.sender
  }

  ghost predicate HasForeignReply(ops: seq<Op>) {
    ops != [] &&
    (HasForeignReply(ops[..|ops| - 1]) || IsForeign(Run(ops[..|ops| - 1]).s, ops[|ops| - 1]))
  }

  /** Every call that a reply resolved was resolved by the module that owed it. */
  ghost predicate OwnersResolve(p: Past)
    requires IdsAreFresh(p) && FuturesHaveCauses(p)
  {
    forall id :: id in p.causes && p.causes[id].ByReply? ==> p.causes[id].sender == p.owners[id]
  }

  lemma StepOwnersResolve(p: Past, op: Op)
    requires Correlates(p) && Correlates(Step(p, op))
    ensures OwnersResolve(Step(p, op)) <==> OwnersResolve(p) && !IsForeign(p.s, op)
  {
    var p' := Step(p, op);
    StepContinues(p, op);
    assert forall id :: id in p.owners ==> p'.owners[id] == p.owners[id];
    if IsForeign(p.s, op) {
      assert op.id.n in p'.causes && p'.causes[op.id.n] == ByReply(op.sender, op.id, op.body);
    } else {
      forall id | id in p'.causes && id !in p.causes && p'.causes[id].ByReply?
        ensures p'.causes[id].sender == p'.owners[id]
      {
        assert op.Replying? && op.id == IntId(id) && id in p.s.pending;
      }
    }
  }

  /** The owner of every call resolves it if and only if no other connection's reply ever comes in
      while the call is open. */
  lemma {:induction false} OwnersResolveIffNoForeignReply(ops: seq<Op>)
    ensures Correlates(Run(ops)) && (OwnersResolve(Run(ops)) <==> !HasForeignReply(ops))
  {
    RunsCorrelate(ops);
    if ops != [] {
      OwnersResolveIffNoForeignReply(ops[..|ops| - 1]);
      StepOwnersResolve(Run(ops[..|ops| - 1]), ops[|ops| - 1]);
    }
  }

  /** Nothing else protects a call: whoever replies to its id first, the caller gets that reply. */
  lemma AnyoneResolves(ops: seq<Op>, sender: string, id: int, body: Body)
    requires var s := Run(ops).s; id in s.pending && s.pending[id].reply == None
    ensures var p, p' := Run(ops), Run(ops + [Replying(sender, IntId(id), body), Resume(id)]);
      p'.answers == p.answers + [Answer(p.callers[id], Some(id), body)]
  {
    var replied := ops + [Replying(sender, IntId(id), body)];
    RunSnoc(ops, Replying(sender, IntId(id), body));
    RunSnoc(replied, Resume(id));
    assert replied + [Resume(id)] == ops + [Replying(sender, IntId(id), body), Resume(id)];
  }

  // ---- connections that go ----------------------------------------------------------

  /** The module of a method is what stands before its first dot. */
  lemma {:induction false} OwnerIs(method_: string)
    ensures var owner := OwnerOf(method_);
      && '.' !in owner && owner <= method_
      && (|owner| < |method_| ==> method_[|owner|] == '.')
  {
    if method_ != "" && method_[0] != '.' {
      OwnerIs(method_[1..]);
      assert method_ == [method_[0]] + method_[1..];
    }
  }

  lemma {:induction false} OwnerOfMethod(name: string, rest: string)
    requires '.' !in name
    ensures OwnerOf(name + ("." + rest)) == name
  {
    if name == "" {
      assert "" + ("." + rest) == "." + rest;
    } else {
      OwnerOfMethod(name[1..], rest);
      assert (name + ("." + rest))[1..] == name[1..] + ("." + rest);
    }
  }

  /** A detachment takes the connection, and fails the module's open calls as offline; every other
      call and connection stays. */
  lemma DetachIs(s: State, name: string)
    ensures var s' := Detach(s, name);
      && name !in s'.writers && s'.writers.Keys == s.writers.Keys - {name} && s'.lastId == s.lastId
      && (forall other :: other in s'.writers ==> s'.writers[other] == s.writers[other])
      && s'.pending.Keys == s.pending.Keys
      && (forall id :: id in s.pending ==> s'.pending[id].owner == s.pending[id].owner)
      && (forall id :: id in s.pending ==>
            if s.pending[id].owner == name && s.pending[id].reply == None
            then s'.pending[id].reply == Some(Failure(-31000, ""))
            else s'.pending[id].reply == s.pending[id].reply)
  {
  }

  /** A new connection takes the place of the old one, whose calls fail as offline. */
  lemma AttachIs(s: State, name: string, writer: int)
    ensures var s' := Attach(s, name, writer);
      && s'.writers == s.writers[name := writer] && s'.lastId == s.lastId
      && s'.pending == (if name in s.writers then Detach(s, name).pending else s.pending)
  {
    assert (s.writers - {name})[name := writer] == s.writers[name := writer];
  }

  /** A call is refused if the module is not registered, has no such method or has no connection, in
      that order; otherwise it gets the next id and waits for its module. */
  lemma IssueIs(s: State, method_: string, registered: bool, hasMethod: bool)
    ensures var (s', r) := Issue(s, method_, registered, hasMethod);
      if !registered then r == Err(-31000) && s' == s
      else if !hasMethod then r == Err(-31002) && s' == s
      else if OwnerOf(method_) !in s.writers then r == Err(-31000) && s' == s
      else
        && r == Ok(s.lastId + 1) && s'.writers == s.writers && s'.lastId == s.lastId + 1
        && s'.pending == s.pending[s.lastId + 1 := Call(None, OwnerOf(method_))]
  {
  }

  /** The caller of an open call to a module that goes gets the offline error. */
  lemma DetachAnswers(ops: seq<Op>, name: string, id: int)
    requires var p := Run(ops); id in p.s.pending && p.s.pending[id].reply == None && p.s.pending[id].owner == name
    ensures var p, p' := Run(ops), Run(ops + [Detaching(name), Resume(id)]);
      p'.answers == p.answers + [Answer(p.callers[id], Some(id), Failure(-31000, ""))] && id !in p'.s.pending
  {
    var detached := ops + [Detaching(name)];
    RunSnoc(ops, Detaching(name));
    RunSnoc(detached, Resume(id));
    assert detached + [Resume(id)] == ops + [Detaching(name), Resume(id)];
    DetachIs(Run(ops).s, name);
  }

  /** And so does every further call to it, until it attaches again. */
  lemma DetachRefuses(ops: seq<Op>, name: string, caller: Id, rest: string)
    requires '.' !in name
    ensures var p, method_ := Run(ops), name + ("." + rest);
      var p' := Run(ops + [Detaching(name), Calling(caller, method_, true, true)]);
      p'.answers == p.answers + [Answer(caller, None, Failure(-31000, ""))] && name !in p'.s.writers
  {
    var detached, call := ops + [Detaching(name)], Calling(caller, name + ("." + rest), true, true);
    RunSnoc(ops, Detaching(name));
    RunSnoc(detached, call);
    assert detached + [call] == ops + [Detaching(name), call];
    OwnerOfMethod(name, rest);
    DetachIs(Run(ops).s, name);
    IssueIs(Run(detached).s, name + ("." + rest), true, true);
  }

  /** A call whose deadline passes, or that cannot be written, is answered so, and forgotten. */
  lemma GivenUpIs(ops: seq<Op>, id: int)
    requires id in Run(ops).s.pending
    ensures var p, timedOut, unwritten := Run(ops), Run(ops + [TimeOut(id)]), Run(ops + [WriteFails(id)]);
      && timedOut.answers == p.answers + [Answer(p.callers[id], Some(id), Failure(-31001, ""))]
      && unwritten.answers == p.answers + [Answer(p.callers[id], Some(id), Failure(-32603, ""))]
      && timedOut.s == unwritten.s == p.s.(pending := p.s.pending - {id})
  {
    RunSnoc(ops, TimeOut(id));
    RunSnoc(ops, WriteFails(id));
  }
}
