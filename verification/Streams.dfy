/**
 The asynchronous stream handlers of egrpc, the server's and the client's, as the methods that the
 completion queue drives, and what comes out when the two are connected.
 */
module Streams {
  import opened Options

  // grpc::Status.
  datatype Status = Ok | Error(message: string)

  // The error that a handler's promise is set to for a status.
  function ErrorOf(status: Status): Option<string> {
    match status
    case Ok => None
    case Error(message) => Some(message)
  }

  // What the server program plugs into a stream call: init fills the range from the request, write
  // turns an element into a reply or skips it.  write gets the reply as the skipped elements before
  // left it; blank is a reply as constructed.
  datatype Service<!REQ, !E, !RES> = Service(
    init: REQ -> (Status, seq<E>),
    write: (REQ, E, RES) -> (bool, RES),
    blank: RES)

  datatype CallStatus = STARTUP | PROCESS | FINISH

  // An operation that a server call issues on its writer.
  datatype Op<RES> = Write(reply: RES) | Finish(status: Status)

  /* -------- the server handler -------- */

  datatype Server<E, RES> = Server(
    status: CallStatus,
    ranges: seq<E>,
    it: nat,
    deleted: bool,
    successors: nat,           // calls created to take the next request
    visited: seq<nat>,         // positions of the elements passed to write
    ops: seq<Op<RES>>)         // operations issued so far

  function NewServer<E, RES>(): Server<E, RES> {
    Server(STARTUP, [], 0, false, 0, [], [])
  }

  // The search for the next element that is not skipped: whether there is one, the position after
  // it or the end, and the reply.
  function Seek<REQ, E, RES>(svc: Service<REQ, E, RES>, req: REQ, es: seq<E>, it: nat, reply: RES)
    : (r: (bool, nat, RES))
    requires it <= |es|
    ensures it <= r.1 <= |es| && (r.0 ==> it < r.1) && (!r.0 ==> r.1 == |es|)
    decreases |es| - it
  {
    if it == |es| then (false, it, reply)
    else
      var (wrote, reply') := svc.write(req, es[it], reply);
      if wrote then (true, it + 1, reply') else Seek(svc, req, es, it + 1, reply')
  }

  // The replies to the elements from it on.
  ghost function Replies<REQ, E, RES>(svc: Service<REQ, E, RES>, req: REQ, es: seq<E>, it: nat): seq<RES>
    requires it <= |es|
    decreases |es| - it
  {
    var (wrote, it', reply) := Seek(svc, req, es, it, svc.blank);
    if wrote then [reply] + Replies(svc, req, es, it') else []
  }

  // The numbers from `from` up to, but not including, `to`.
  function Range(from: nat, to: nat): seq<nat>
    requires from <= to
  {
    seq((to - from) as int, i requires i >= 0 => from + i)
  }

  // serve from PROCESS on.
  ghost function Process<REQ, E, RES>(svc: Service<REQ, E, RES>, req: REQ, s: Server<E, RES>): Server<E, RES>
    requires s.it <= |s.ranges|
  {
    var (wrote, it', reply) := Seek(svc, req, s.ranges, s.it, svc.blank);
    if wrote then
      s.(status := PROCESS, it := it', visited := s.visited + Range(s.it, it'), ops := s.ops + [Write(reply)])
    else
      s.(status := FINISH, it := it', visited := s.visited + Range(s.it, it'), ops := s.ops + [Finish(Ok)])
  }

  ghost function Serve<REQ, E, RES>(svc: Service<REQ, E, RES>, req: REQ, s: Server<E, RES>): Server<E, RES>
    requires s.it <= |s.ranges|
  {
    match s.status
    case STARTUP =>
      var (status, ranges) := svc.init(req);
      var s' := s.(successors := s.successors + 1, ranges := ranges);
      if status != Ok then s'.(status := FINISH, ops := s.ops + [Finish(status)])
      else Process(svc, req, s'.(it := 0))
    case PROCESS => Process(svc, req, s)
    case FINISH => s.(deleted := true)
  }

  class AsyncServerStreamCall<REQ, E, RES> {
    const service: Service<REQ, E, RES>
    const req: REQ
    var status: CallStatus
    var ranges: seq<E>
    var it: nat
    var deleted: bool
    var successors: nat
    var visited: seq<nat>
    var ops: seq<Op<RES>>

    ghost function State(): Server<E, RES>
      reads this
    {
      Server(status, ranges, it, deleted, successors, visited, ops)
    }

    constructor (service: Service<REQ, E, RES>, req: REQ)
      ensures State() == NewServer() && this.service == service && this.req == req
    {
      this.service, this.req := service, req;
      status, ranges, it, deleted, successors, visited, ops := STARTUP, [], 0, false, 0, [], [];
    }

    // serve, called when the operation issued before has completed.
    method ServeNext()
      requires !deleted && it <= |ranges|
      modifies this
      ensures State() == Serve(service, req, old(State()))
    {
      match status {
        case STARTUP =>
          successors := successors + 1;
          var (outStatus, range) := service.init(req);
          ranges := range;
          if outStatus != Ok {
            status := FINISH;
            ops := ops + [Finish(outStatus)];
            return;
          }
          it := 0;
          ProcessNext();
        case PROCESS =>
          ProcessNext();
        case FINISH =>
          deleted := true;
      }
    }

    // The PROCESS part of serve, which STARTUP falls through to.
    method ProcessNext()
      requires it <= |ranges|
      modifies this
      ensures State() == Process(service, req, old(State()))
    {
      status := PROCESS;
      if it != |ranges| {
        var reply := service.blank;
        var wrote := false;
        ghost var sought := Seek(service, req, ranges, it, service.blank);
        while !wrote && it != |ranges|
          invariant old(it) <= it <= |ranges|
          invariant visited == old(visited) + Range(old(it), it)
          invariant sought == if wrote then (true, it, reply) else Seek(service, req, ranges, it, reply)
          invariant unchanged(this`ranges) && unchanged(this`ops) && unchanged(this`deleted)
          invariant unchanged(this`successors) && status == PROCESS
        {
          wrote, reply := service.write(req, ranges[it], reply).0, service.write(req, ranges[it], reply).1;
          visited := visited + [it];
          it := it + 1;
        }
        if wrote {
          ops := ops + [Write(reply)];
          return;
        }
      }
      if it == |ranges| {
        status := FINISH;
        ops := ops + [Finish(Ok)];
      }
    }
  }

  /* -------- what a server call does in all -------- */

  ghost function Writes<RES>(replies: seq<RES>): seq<Op<RES>> {
    seq(|replies|, i requires 0 <= i < |replies| => Write(replies[i]))
  }

  // The operations of a whole call: a finish with the error of init, or a write for every reply to
  // an element that is not skipped, in the order of the range, and a finish without error.
  ghost function Script<REQ, E, RES>(svc: Service<REQ, E, RES>, req: REQ): seq<Op<RES>> {
    var (status, ranges) := svc.init(req);
    if status != Ok then [Finish(status)] else Writes(Replies(svc, req, ranges, 0)) + [Finish(Ok)]
  }

  // The operations that are still to come.
  ghost function Future<REQ, E, RES>(svc: Service<REQ, E, RES>, req: REQ, s: Server<E, RES>): seq<Op<RES>>
    requires s.it <= |s.ranges|
  {
    match s.status
    case STARTUP => Script(svc, req)
    case PROCESS => Writes(Replies(svc, req, s.ranges, s.it)) + [Finish(Ok)]
    case FINISH => []
  }

  ghost predicate ServerInv<REQ, E, RES>(svc: Service<REQ, E, RES>, req: REQ, s: Server<E, RES>) {
    && s.it <= |s.ranges|
    && s.ops + Future(svc, req, s) == Script(svc, req)
    && s.visited == Range(0, s.it)
    && (s.status == STARTUP ==> s.it == 0 && s.successors == 0)
    && (s.status != STARTUP ==> s.ranges == svc.init(req).1 && s.successors == 1)
    && (s.status == FINISH && svc.init(req).0 == Ok ==> s.it == |s.ranges|)
    && (s.status == FINISH && svc.init(req).0 != Ok ==> s.it == 0)
    && (s.status == PROCESS ==> svc.init(req).0 == Ok)
    && (s.deleted ==> s.status == FINISH)
  }

  // The PROCESS part issues the next of the writes and the finish that are left.
  lemma ProcessIssuesNext<REQ, E, RES>(svc: Service<REQ, E, RES>, req: REQ, s: Server<E, RES>)
    requires s.it <= |s.ranges| && s.visited == Range(0, s.it)
    ensures var left := Writes(Replies(svc, req, s.ranges, s.it)) + [Finish(Ok)];
            var t := Process(svc, req, s);
            && s.it <= t.it <= |s.ranges| && t.visited == Range(0, t.it)
            && t.ops == s.ops + [left[0]] && t.ops + Future(svc, req, t) == s.ops + left
            && t.ranges == s.ranges && t.successors == s.successors && t.deleted == s.deleted
            && (t.status == PROCESS || (t.status == FINISH && t.it == |s.ranges|))
  {
    var (wrote, it', reply) := Seek(svc, req, s.ranges, s.it, svc.blank);
    if wrote {
      var rest := Replies(svc, req, s.ranges, it');
      assert Writes([reply] + rest) == [Write(reply)] + Writes(rest);
    } else {
      assert Writes<RES>([]) == [];
    }
    assert Range(0, s.it) + Range(s.it, it') == Range(0, it');
  }

  // Until its deletion every serve issues the next operation of the script and nothing else.
  lemma ServeIssuesNext<REQ, E, RES>(svc: Service<REQ, E, RES>, req: REQ, s: Server<E, RES>)
    requires ServerInv(svc, req, s) && !s.deleted
    ensures ServerInv(svc, req, Serve(svc, req, s))
    ensures if s.status == FINISH then Serve(svc, req, s) == s.(deleted := true)
            else !Serve(svc, req, s).deleted && |Serve(svc, req, s).ops| == |s.ops| + 1
  {
    hide Process, Replies, Writes, Range, Seek;
    match s.status
    case STARTUP =>
      var (status, ranges) := svc.init(req);
      if status == Ok {
        ProcessIssuesNext(svc, req, s.(successors := s.successors + 1, ranges := ranges, it := 0));
      }
    case PROCESS => ProcessIssuesNext(svc, req, s);
    case FINISH =>
  }

  // A call after n of the completions that it gets, starting with that of the request.
  ghost function Served<REQ, E, RES>(svc: Service<REQ, E, RES>, req: REQ, n: nat): (s: Server<E, RES>)
    ensures ServerInv(svc, req, s)
  {
    if n == 0 then NewServer()
    else
      var s := Served(svc, req, n - 1);
      if s.deleted then s else ServeIssuesNext(svc, req, s); Serve(svc, req, s)
  }

  // What ServerInv says of a call that has nothing more to do.
  lemma AtFinish<REQ, E, RES>(svc: Service<REQ, E, RES>, req: REQ, s: Server<E, RES>)
    requires ServerInv(svc, req, s)
    ensures s.ops == Script(svc, req)[..|s.ops|] && (s.status == FINISH <==> |s.ops| == |Script(svc, req)|)
    ensures s.successors == if s.status == STARTUP then 0 else 1
    ensures s.status == STARTUP ==> s.ops == []
    ensures s.status == FINISH ==>
              s.visited == if svc.init(req).0 == Ok then Range(0, |svc.init(req).1|) else []
  {
    assert |Script(svc, req)| > 0;
  }

  // For n completions there are n operations, the first n of the script; the completion of the last
  // one deletes the call, and by then write has been passed every element exactly once, or none if
  // init failed.
  lemma {:induction false} ServedInAll<REQ, E, RES>(svc: Service<REQ, E, RES>, req: REQ, n: nat)
    ensures var s := Served(svc, req, n);
            var script := Script(svc, req);
            && s.ops == (if n <= |script| then script[..n] else script)
            && (s.deleted <==> n > |script|)
            && s.successors == (if n == 0 then 0 else 1)
            && (s.deleted ==> s.visited == if svc.init(req).0 == Ok then Range(0, |svc.init(req).1|) else [])
    decreases n
  {
    hide Serve, Script, ServerInv;
    AtFinish(svc, req, Served(svc, req, n));
    if n == 0 {
    } else {
      var s := Served(svc, req, n - 1);
      ServedInAll(svc, req, n - 1);
      AtFinish(svc, req, s);
      if !s.deleted {
        ServeIssuesNext(svc, req, s);
      }
    }
  }

  // A call from its creation until it is gone: serve runs when the request has arrived, and then
  // whenever the operation issued before has completed.
  method ServeAll<REQ, E, RES>(service: Service<REQ, E, RES>, req: REQ)
    returns (ops: seq<Op<RES>>, visited: seq<nat>, completions: nat, successors: nat)
    ensures ops == Script(service, req) && completions == |ops| + 1
    ensures visited == if service.init(req).0 == Ok then Range(0, |service.init(req).1|) else []
    ensures successors == 1
  {
    hide Script, Serve, ServerInv;
    var call := new AsyncServerStreamCall(service, req);
    ServedInAll(service, req, 0);
    completions := 0;
    while !call.deleted
      invariant call.State() == Served(service, req, completions)
      invariant completions <= |Script(service, req)| + 1
      decreases |Script(service, req)| + 1 - completions
    {
      ServedInRange(service, req, completions);
      ServedInAll(service, req, completions);
      call.ServeNext();
      completions := completions + 1;
    }
    ServedInAll(service, req, completions);
    ops, visited, successors := call.ops, call.visited, call.successors;
  }

  lemma ServedInRange<REQ, E, RES>(svc: Service<REQ, E, RES>, req: REQ, n: nat)
    ensures Served(svc, req, n).it <= |Served(svc, req, n).ranges|
  {
  }

  /* -------- the reply object -------- */

  // One reply object goes through the writes of all elements up to the one that is accepted: left is
  // what each of them leaves, and finds.
  lemma {:induction false} SeekWrites<REQ, E, RES>
    (svc: Service<REQ, E, RES>, req: REQ, es: seq<E>, it: nat, reply: RES) returns (left: seq<RES>)
    requires it <= |es|
    ensures var (wrote, it', found) := Seek(svc, req, es, it, reply);
            && |left| == it' - it + 1 && left[0] == reply && left[it' - it] == found
            && forall i :: 0 <= i < it' - it ==>
                 svc.write(req, es[it + i], left[i]) == (wrote && i == it' - it - 1, left[i + 1])
    decreases |es| - it
  {
    left := [reply];
    if it < |es| {
      var (wrote, next) := svc.write(req, es[it], reply);
      if wrote {
        left := [reply, next];
      } else {
        var rest := SeekWrites(svc, req, es, it + 1, next);
        left := [reply] + rest;
        forall i | 0 <= i < |rest|
          ensures left[i + 1] == rest[i]
        {
        }
      }
    }
  }

  /* -------- replies that do not depend on skipped elements -------- */

  // The replies to the elements that are not skipped, one by one.
  ghost function FilterMap<REQ, E, RES>(svc: Service<REQ, E, RES>, req: REQ, es: seq<E>): seq<RES> {
    if es == [] then []
    else
      var (wrote, reply) := svc.write(req, es[0], svc.blank);
      (if wrote then [reply] else []) + FilterMap(svc, req, es[1..])
  }

  // write overwrites all of the reply when it accepts, and does not look at it.
  ghost predicate Overwrites<REQ, E(!new), RES(!new)>(svc: Service<REQ, E, RES>, req: REQ) {
    forall e, r :: svc.write(req, e, r).0 == svc.write(req, e, svc.blank).0
                   && (svc.write(req, e, r).0 ==> svc.write(req, e, r) == svc.write(req, e, svc.blank))
  }

  lemma {:induction false} RepliesAreFilterMap<REQ, E(!new), RES(!new)>
    (svc: Service<REQ, E, RES>, req: REQ, es: seq<E>, it: nat, reply: RES)
    requires it <= |es| && Overwrites(svc, req)
    ensures Replies(svc, req, es, it) == FilterMap(svc, req, es[it..])
    ensures var (wrote, it', found) := Seek(svc, req, es, it, reply);
            (wrote, it') == (Seek(svc, req, es, it, svc.blank).0, Seek(svc, req, es, it, svc.blank).1)
            && (wrote ==> found == Seek(svc, req, es, it, svc.blank).2)
            && FilterMap(svc, req, es[it..]) ==
               (if wrote then [found] + FilterMap(svc, req, es[it'..]) else [])
    decreases |es| - it
  {
    if it < |es| {
      assert es[it..][1..] == es[it + 1..];
      RepliesAreFilterMap(svc, req, es, it + 1, svc.write(req, es[it], reply).1);
      RepliesAreFilterMap(svc, req, es, it + 1, svc.write(req, es[it], svc.blank).1);
    }
  }
}
