/**
 The client's stream handler, and a server call and a client handler connected by a channel that loses
 and reorders nothing.
 */
module StreamPairs {
  import opened Options
  import opened Streams

  // What a client handler has asked the completion queue for and not heard of yet.
  datatype Outstanding = StartCall | Read | GetStatus | Nothing

  datatype Client<RES> = Client(
    callStatus: CallStatus,
    reply: RES,
    status: Status,
    error: Option<string>,
    received: seq<RES>,              // replies passed to the callback
    outstanding: Outstanding,
    holdsPromise: bool,
    promise: seq<Option<string>>,    // values the promise was set to
    deleted: bool)

  function NewClient<RES>(blank: RES, holdsPromise: bool): Client<RES> {
    Client(STARTUP, blank, Ok, None, [], StartCall, holdsPromise, [], false)
  }

  function Handle<RES>(c: Client<RES>, eventStatus: bool): Client<RES> {
    match c.callStatus
    case STARTUP =>
      if eventStatus then c.(callStatus := PROCESS, outstanding := Read)
      else c.(callStatus := FINISH, outstanding := GetStatus)
    case PROCESS =>
      if eventStatus then c.(received := c.received + [c.reply], outstanding := Read)
      else c.(callStatus := FINISH, outstanding := GetStatus)
    case FINISH =>
      var error := if c.status == Ok then c.error else ErrorOf(c.status);
      c.(error := error, outstanding := Nothing, deleted := true,
         promise := if c.holdsPromise then c.promise + [error] else c.promise)
  }

  class AsyncClientStreamHandler<RES> {
    var callStatus: CallStatus
    var reply: RES
    var status: Status
    var error: Option<string>
    var received: seq<RES>
    var outstanding: Outstanding
    var holdsPromise: bool
    var promise: seq<Option<string>>
    var deleted: bool

    ghost function State(): Client<RES>
      reads this
    {
      Client(callStatus, reply, status, error, received, outstanding, holdsPromise, promise, deleted)
    }

    constructor (blank: RES, holdsPromise: bool)
      ensures State() == NewClient(blank, holdsPromise)
    {
      callStatus, reply, status, error, received := STARTUP, blank, Ok, None, [];
      outstanding, this.holdsPromise, promise, deleted := StartCall, holdsPromise, [], false;
    }

    // handle, called when what is outstanding has completed; before, a read has filled in reply and a
    // finish has filled in status.
    method HandleEvent(eventStatus: bool)
      requires !deleted
      modifies this
      ensures State() == Handle(old(State()), eventStatus)
    {
      match callStatus {
        case STARTUP =>
          if eventStatus {
            callStatus := PROCESS;
            outstanding := Read;
          } else {
            callStatus := FINISH;
            outstanding := GetStatus;
          }
        case PROCESS =>
          if eventStatus {
            received := received + [reply];
            outstanding := Read;
          } else {
            callStatus := FINISH;
            outstanding := GetStatus;
          }
        case FINISH =>
          if status != Ok {
            error := ErrorOf(status);
          }
          Destroy();
      }
    }

    // delete this, with the base class destructor: a promise that is still held is resolved.
    method Destroy()
      requires !deleted
      modifies this
      ensures State() == old(State()).(outstanding := Nothing, deleted := true,
                promise := if old(holdsPromise) then old(promise) + [old(error)] else old(promise))
    {
      if holdsPromise {
        promise := promise + [error];
      }
      outstanding, deleted := Nothing, true;
    }
  }

  /* -------- the two ends together -------- */

  // delivered counts the operations of the server that the client has seen; refused is the status the
  // client gets when its call could not even start.
  datatype World<E, RES> = World(
    server: Server<E, RES>, client: Client<RES>, delivered: nat, refused: Option<Status>)

  // An operation completes: the server's last one, the client's start, its read or its finish.
  datatype Event = ServerDone | Started | NotStarted(failure: Status) | ReadDone | StatusDone

  function Ends<RES>(ops: seq<Op<RES>>, i: nat): bool {
    i < |ops| && ops[i].Finish?
  }

  // An event that cannot happen changes nothing.
  ghost function Step<REQ, E, RES>(svc: Service<REQ, E, RES>, req: REQ, w: World<E, RES>, e: Event): World<E, RES>
    requires w.server.it <= |w.server.ranges|
  {
    var c, ops := w.client, w.server.ops;
    match e
    case ServerDone => if w.server.deleted then w else w.(server := Serve(svc, req, w.server))
    case Started =>
      if c.outstanding == StartCall then w.(client := Handle(c, true)) else w
    case NotStarted(failure) =>
      if c.outstanding == StartCall then w.(client := Handle(c, false), refused := Some(failure)) else w
    case ReadDone =>
      if c.outstanding != Read || w.delivered >= |ops| then w
      else if Ends(ops, w.delivered) then w.(client := Handle(c, false))
      else w.(client := Handle(c.(reply := ops[w.delivered].reply), true), delivered := w.delivered + 1)
    case StatusDone =>
      if c.outstanding != GetStatus then w
      else if w.refused.Some? then w.(client := Handle(c.(status := w.refused.value), true))
      else if Ends(ops, w.delivered) then w.(client := Handle(c.(status := ops[w.delivered].status), true))
      else w
  }

  ghost function Initial<REQ, E, RES>(svc: Service<REQ, E, RES>, holdsPromise: bool): World<E, RES> {
    World(NewServer(), NewClient(svc.blank, holdsPromise), 0, None)
  }

  // The client has passed on exactly the writes that were delivered, and it is where it should be.
  ghost predicate ClientInv<E, RES>(w: World<E, RES>) {
    var c := w.client;
    && w.delivered <= |w.server.ops|
    && Writes(c.received) == w.server.ops[..w.delivered]
    && (w.refused.Some? ==> c.received == [] && c.callStatus == FINISH)
    && (c.deleted ==> c.callStatus == FINISH && c.outstanding == Nothing)
    && (!c.deleted ==> c.promise == [] && c.error == None)
    && (c.callStatus == STARTUP ==> c.outstanding == StartCall && w.delivered == 0 && !c.deleted)
    && (c.callStatus == PROCESS ==> c.outstanding == Read && !c.deleted)
    && (c.callStatus == FINISH && !c.deleted ==> c.outstanding == GetStatus)
    && (c.callStatus == FINISH && w.refused.None? ==> Ends(w.server.ops, w.delivered))
    && (c.deleted ==> c.status == if w.refused.Some? then w.refused.value else w.server.ops[w.delivered].status)
    && (c.deleted ==> c.promise == if c.holdsPromise then [ErrorOf(c.status)] else [])
  }

  ghost predicate Inv<REQ, E, RES>(svc: Service<REQ, E, RES>, req: REQ, w: World<E, RES>) {
    ServerInv(svc, req, w.server) && ClientInv(w)
  }

  lemma ServeAppends<REQ, E, RES>(svc: Service<REQ, E, RES>, req: REQ, s: Server<E, RES>)
    requires s.it <= |s.ranges|
    ensures s.ops <= Serve(svc, req, s).ops
  {
  }

  // What the server issues after what was delivered changes nothing for the client.
  lemma InvServerDone<E, RES>(w: World<E, RES>, server: Server<E, RES>)
    requires ClientInv(w) && w.server.ops <= server.ops
    ensures ClientInv(w.(server := server))
  {
  }

  lemma InvStarted<E, RES>(w: World<E, RES>)
    requires ClientInv(w) && w.client.outstanding == StartCall
    ensures ClientInv(w.(client := Handle(w.client, true)))
  {
  }

  lemma InvNotStarted<E, RES>(w: World<E, RES>, failure: Status)
    requires ClientInv(w) && w.client.outstanding == StartCall
    ensures ClientInv(w.(client := Handle(w.client, false), refused := Some(failure)))
  {
    assert w.client.received == [] by {
      assert |Writes(w.client.received)| == 0;
    }
  }

  lemma InvReadDone<E, RES>(w: World<E, RES>)
    requires ClientInv(w) && w.client.outstanding == Read && w.delivered < |w.server.ops|
    ensures var c, ops := w.client, w.server.ops;
            if Ends(ops, w.delivered) then ClientInv(w.(client := Handle(c, false)))
            else ClientInv(w.(client := Handle(c.(reply := ops[w.delivered].reply), true),
                              delivered := w.delivered + 1))
  {
    var c, ops := w.client, w.server.ops;
    if !Ends(ops, w.delivered) {
      assert Writes(c.received + [ops[w.delivered].reply]) == Writes(c.received) + [ops[w.delivered]];
    }
  }

  // The last event of the client: its status has come.
  lemma InvStatusDone<E, RES>(w: World<E, RES>, status: Status)
    requires ClientInv(w) && w.client.outstanding == GetStatus
    requires w.refused == Some(status) ||
             (w.refused.None? && Ends(w.server.ops, w.delivered) && w.server.ops[w.delivered].status == status)
    ensures ClientInv(w.(client := Handle(w.client.(status := status), true)))
  {
  }

  lemma InvStep<REQ, E, RES>(svc: Service<REQ, E, RES>, req: REQ, w: World<E, RES>, e: Event)
    requires Inv(svc, req, w)
    ensures Inv(svc, req, Step(svc, req, w, e))
    ensures Step(svc, req, w, e).client.holdsPromise == w.client.holdsPromise
  {
    hide Serve, ServerInv, ClientInv;
    var c, ops := w.client, w.server.ops;
    ServerInRange(svc, req, w.server);
    match e
    case ServerDone =>
      if !w.server.deleted {
        ServeIssuesNext(svc, req, w.server);
        ServeAppends(svc, req, w.server);
        InvServerDone(w, Serve(svc, req, w.server));
      }
    case Started =>
      if c.outstanding == StartCall {
        InvStarted(w);
      }
    case NotStarted(failure) =>
      if c.outstanding == StartCall {
        InvNotStarted(w, failure);
      }
    case ReadDone =>
      if c.outstanding == Read && w.delivered < |ops| {
        InvReadDone(w);
      }
    case StatusDone =>
      if c.outstanding == GetStatus {
        if w.refused.Some? {
          InvStatusDone(w, w.refused.value);
        } else if Ends(ops, w.delivered) {
          InvStatusDone(w, ops[w.delivered].status);
        }
      }
  }

  lemma ServerInRange<REQ, E, RES>(svc: Service<REQ, E, RES>, req: REQ, s: Server<E, RES>)
    requires ServerInv(svc, req, s)
    ensures s.it <= |s.ranges|
  {
  }

  ghost function After<REQ, E, RES>(svc: Service<REQ, E, RES>, req: REQ, holdsPromise: bool, run: seq<Event>)
    : (w: World<E, RES>)
    ensures Inv(svc, req, w) && w.client.holdsPromise == holdsPromise
    decreases |run|
  {
    if run == [] then Initial(svc, holdsPromise)
    else
      var w := After(svc, req, holdsPromise, run[..|run| - 1]);
      InvStep(svc, req, w, run[|run| - 1]);
      Step(svc, req, w, run[|run| - 1])
  }

  /* -------- what comes out -------- */

  ghost function AllReplies<REQ, E, RES>(svc: Service<REQ, E, RES>, req: REQ): seq<RES> {
    if svc.init(req).0 == Ok then Replies(svc, req, svc.init(req).1, 0) else []
  }

  // Whatever order the events come in, the callback sees the replies in the order of the range, from
  // the first one on, and the promise is not set before the client is gone, and then once.
  lemma ReceivedInOrder<REQ, E, RES>(svc: Service<REQ, E, RES>, req: REQ, holdsPromise: bool, run: seq<Event>)
    ensures var c := After(svc, req, holdsPromise, run).client;
            && c.received <= AllReplies(svc, req)
            && |c.promise| == (if c.deleted && holdsPromise then 1 else 0)
  {
    var w := After(svc, req, holdsPromise, run);
    WritesArePrefix(w.client.received, AllReplies(svc, req), Script(svc, req));
  }

  lemma WritesOnly<RES>(received: seq<RES>, ops: seq<Op<RES>>)
    requires Writes(received) <= ops
    ensures forall i :: 0 <= i < |received| ==> ops[i].Write?
  {
    forall i | 0 <= i < |received|
      ensures ops[i].Write?
    {
      assert Writes(received)[i] == ops[i];
    }
  }

  lemma WritesArePrefix<RES>(received: seq<RES>, all: seq<RES>, script: seq<Op<RES>>)
    requires Writes(received) <= script
    requires |script| == |all| + 1 && script[..|all|] == Writes(all) && script[|all|].Finish?
    ensures received <= all
  {
    WritesOnly(received, script);
    forall i | 0 <= i < |received|
      ensures received[i] == all[i]
    {
      assert Writes(received)[i] == script[i] == Writes(all)[i];
    }
  }

  // Once the client is gone it has received all replies, and its promise says how the call ended: an
  // error exactly if the final status is not OK.
  lemma EndToEnd<REQ, E, RES>(svc: Service<REQ, E, RES>, req: REQ, holdsPromise: bool, run: seq<Event>)
    ensures var w := After(svc, req, holdsPromise, run);
            w.client.deleted ==>
              && w.client.received == (if w.refused.None? then AllReplies(svc, req) else [])
              && (holdsPromise ==>
                    match w.refused.GetOr(svc.init(req).0)
                    case Ok => w.client.promise == [None]
                    case Error(message) => w.client.promise == [Some(message)])
  {
    var w := After(svc, req, holdsPromise, run);
    if w.client.deleted && w.refused.None? {
      WritesArePrefix(w.client.received, AllReplies(svc, req), Script(svc, req));
      assert w.server.ops[w.delivered] == Script(svc, req)[w.delivered];
    }
  }

  /* -------- the two ends as objects -------- */

  // A server call and a client handler, and what the channel between them keeps.
  class Connection<REQ, E, RES> {
    const call: AsyncServerStreamCall<REQ, E, RES>
    const handler: AsyncClientStreamHandler<RES>
    var delivered: nat
    var refused: Option<Status>

    ghost function State(): World<E, RES>
      reads this, call, handler
    {
      World(call.State(), handler.State(), delivered, refused)
    }

    constructor (service: Service<REQ, E, RES>, req: REQ, holdsPromise: bool)
      ensures fresh(call) && fresh(handler) && call.service == service && call.req == req
      ensures State() == Initial(service, holdsPromise)
    {
      call := new AsyncServerStreamCall(service, req);
      handler := new AsyncClientStreamHandler(service.blank, holdsPromise);
      delivered, refused := 0, None;
    }

    // The completion queue delivers an event to the end that it is for.
    method Complete(e: Event)
      requires Inv(call.service, call.req, State())
      modifies this, call, handler
      ensures State() == Step(call.service, call.req, old(State()), e)
    {
      hide Serve, ServerInv;
      ServerInRange(call.service, call.req, call.State());
      match e {
        case ServerDone =>
          if !call.deleted {
            call.ServeNext();
          }
        case Started =>
          if handler.outstanding == StartCall {
            handler.HandleEvent(true);
          }
        case NotStarted(failure) =>
          if handler.outstanding == StartCall {
            handler.HandleEvent(false);
            refused := Some(failure);
          }
        case ReadDone =>
          if handler.outstanding == Read && delivered < |call.ops| {
            match call.ops[delivered] {
              case Finish(_) => handler.HandleEvent(false);
              case Write(reply) =>
                handler.reply := reply;
                handler.HandleEvent(true);
                delivered := delivered + 1;
            }
          }
        case StatusDone =>
          if handler.outstanding == GetStatus {
            if refused.Some? {
              handler.status := refused.value;
              handler.HandleEvent(true);
            } else if Ends(call.ops, delivered) {
              handler.status := call.ops[delivered].status;
              handler.HandleEvent(true);
            }
          }
      }
    }
  }

  // A stream request and the events that happen to it: what its callback was given, what its promise
  // was set to, whether the client is gone, and whether its call failed to start.
  method Communicate<REQ, E, RES>
    (service: Service<REQ, E, RES>, req: REQ, holdsPromise: bool, run: seq<Event>)
    returns (received: seq<RES>, promise: seq<Option<string>>, ended: bool, refused: Option<Status>)
    ensures received <= AllReplies(service, req)
    ensures |promise| == if ended && holdsPromise then 1 else 0
    ensures ended ==> received == if refused.None? then AllReplies(service, req) else []
    ensures ended && holdsPromise ==>
              match refused.GetOr(service.init(req).0)
              case Ok => promise == [None]
              case Error(message) => promise == [Some(message)]
    ensures var w := After(service, req, holdsPromise, run);
            (received, promise, ended, refused) ==
            (w.client.received, w.client.promise, w.client.deleted, w.refused)
  {
    hide Step, Inv, AllReplies;
    var connection := new Connection(service, req, holdsPromise);
    for i := 0 to |run|
      invariant fresh(connection) && fresh(connection.call) && fresh(connection.handler)
      invariant connection.call.service == service && connection.call.req == req
      invariant connection.State() == After(service, req, holdsPromise, run[..i])
    {
      assert run[..i + 1][..i] == run[..i];
      connection.Complete(run[i]);
    }
    assert run[..|run|] == run;
    ReceivedInOrder(service, req, holdsPromise, run);
    EndToEnd(service, req, holdsPromise, run);
    received, promise := connection.handler.received, connection.handler.promise;
    ended, refused := connection.handler.deleted, connection.refused;
  }

  /* -------- every run can be finished, and none goes on for ever -------- */

  ghost function Remaining<REQ, E, RES>(svc: Service<REQ, E, RES>, req: REQ, w: World<E, RES>): int
    requires Inv(svc, req, w)
  {
    var c := w.client;
    (if w.server.deleted then 0 else |Future(svc, req, w.server)| + 1) +
    (if c.deleted then 0
     else match c.callStatus
          case STARTUP => |Script(svc, req)| + 3
          case PROCESS => |Script(svc, req)| - w.delivered + 2
          case FINISH => 1)
  }

  // Each event that happens brings both ends closer to being deleted, whatever it is.
  lemma EventsRunOut<REQ, E, RES>(svc: Service<REQ, E, RES>, req: REQ, w: World<E, RES>, e: Event)
    requires Inv(svc, req, w)
    ensures Inv(svc, req, Step(svc, req, w, e)) && Remaining(svc, req, w) >= 0
    ensures Step(svc, req, w, e) == w || Remaining(svc, req, Step(svc, req, w, e)) < Remaining(svc, req, w)
  {
    hide Serve, Script;
    InvStep(svc, req, w, e);
    if e == ServerDone && !w.server.deleted {
      ServeIssuesNext(svc, req, w.server);
    }
  }

  // As long as one end is there, some event can happen: the two never wait for each other.
  lemma SomethingCanHappen<REQ, E, RES>(svc: Service<REQ, E, RES>, req: REQ, w: World<E, RES>)
    requires Inv(svc, req, w) && !(w.server.deleted && w.client.deleted)
    ensures exists e :: Step(svc, req, w, e) != w
  {
    if !w.server.deleted {
      ServeIssuesNext(svc, req, w.server);
      assert Step(svc, req, w, ServerDone) != w;
    } else {
      WritesOnly(w.client.received, w.server.ops);
      assert w.server.ops == Script(svc, req);
      assert w.server.ops[|w.server.ops| - 1].Finish?;
      match w.client.outstanding
      case StartCall => assert Step(svc, req, w, Started) != w;
      case Read => assert Step(svc, req, w, ReadDone) != w;
      case GetStatus => assert Step(svc, req, w, StatusDone) != w;
      case Nothing =>
    }
  }

  // An event that happens after a run, unless both ends are gone.
  lemma OneMore<REQ, E, RES>(svc: Service<REQ, E, RES>, req: REQ, holdsPromise: bool, run: seq<Event>)
    returns (e: Event)
    ensures var w := After(svc, req, holdsPromise, run);
            || (w.server.deleted && w.client.deleted)
            || 0 <= Remaining(svc, req, After(svc, req, holdsPromise, run + [e])) < Remaining(svc, req, w)
  {
    hide Remaining, Serve, Handle;
    var w := After(svc, req, holdsPromise, run);
    e := ServerDone;
    if !(w.server.deleted && w.client.deleted) {
      SomethingCanHappen(svc, req, w);
      e :| Step(svc, req, w, e) != w;
      EventsRunOut(svc, req, w, e);
      assert (run + [e])[..|run|] == run;
      EventsRunOut(svc, req, After(svc, req, holdsPromise, run + [e]), e);
    }
  }

  // So every run can go on until both are gone.
  lemma {:induction false} CanFinish<REQ, E, RES>
    (svc: Service<REQ, E, RES>, req: REQ, holdsPromise: bool, run: seq<Event>) returns (more: seq<Event>)
    ensures After(svc, req, holdsPromise, run + more).server.deleted
    ensures After(svc, req, holdsPromise, run + more).client.deleted
    decreases Remaining(svc, req, After(svc, req, holdsPromise, run))
  {
    hide Step, Inv, Remaining, After;
    var w := After(svc, req, holdsPromise, run);
    if w.server.deleted && w.client.deleted {
      more := [];
      assert run + more == run;
    } else {
      var e := OneMore(svc, req, holdsPromise, run);
      var rest := CanFinish(svc, req, holdsPromise, run + [e]);
      more := [e] + rest;
      assert run + more == run + [e] + rest;
    }
  }
}
