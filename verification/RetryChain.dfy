/**
 The retrying client of egrpc: a chain of handlers that hand one promise on.  Each handler starts its
 attempt when it is constructed; the completion may come later, from the completion queue, or at once,
 re-entering the handler before its constructor has returned.
 */
module RetryChain {
  import opened Options
  import opened Streams

  // What becomes of an attempt: its status and reply, and whether it completes inside init_.
  datatype Attempt<+RES> = Attempt(status: Status, reply: RES, atOnce: bool)

  // The plan of a chain: what becomes of its k-th attempt, and whether there is a callback.
  datatype Plan<+RES> = Plan(outcome: nat -> Attempt<RES>, hasCallback: bool)

  // What a chain has done so far.  waiting is the number of retries left to the handler whose attempt
  // has not completed yet.
  datatype Chain<RES> = Chain(
    attempts: nat,
    destroyed: nat,
    callbacks: seq<RES>,
    promise: seq<Option<string>>,
    waiting: Option<nat>)

  /* -------- the handlers, as functions of what the chain has done -------- */

  // A handler with n retries is constructed.
  ghost function Construct<RES>(plan: Plan<RES>, c: Chain<RES>, n: nat): (r: Chain<RES>)
    requires c.waiting.None?
    ensures r.waiting.Some? ==> r.waiting.value <= n
    decreases n, 1
  {
    var c' := c.(attempts := c.attempts + 1);
    if plan.outcome(c.attempts).atOnce then Handle(plan, c', n) else c'.(waiting := Some(n))
  }

  // The latest attempt, of a handler with n retries, has completed.
  ghost function Handle<RES>(plan: Plan<RES>, c: Chain<RES>, n: nat): (r: Chain<RES>)
    requires c.waiting.None? && c.attempts > 0
    ensures r.waiting.Some? ==> r.waiting.value < n
    ensures r.attempts > 0
    decreases n, 0
  {
    var last := plan.outcome(c.attempts - 1);
    var c' :=
      if last.status == Ok then
        c.(callbacks := if plan.hasCallback then c.callbacks + [last.reply] else c.callbacks,
           promise := c.promise + [None])
      else if n > 0 then Construct(plan, c, n - 1)
      else c.(promise := c.promise + [ErrorOf(last.status)]);
    c'.(destroyed := c'.destroyed + 1)
  }

  // The completion queue delivers completions as long as one is outstanding.
  ghost function Complete<RES>(plan: Plan<RES>, c: Chain<RES>): Chain<RES>
    requires c.attempts > 0
    decreases if c.waiting.Some? then c.waiting.value + 1 else 0
  {
    if c.waiting.None? then c
    else Complete(plan, Handle(plan, c.(waiting := None), c.waiting.value))
  }

  /* -------- the handlers, as objects -------- */

  class Promise {
    var values: seq<Option<string>>

    constructor ()
      ensures values == []
    {
      values := [];
    }
  }

  // What handlers act on besides their promise.
  class Environment<RES> {
    const plan: Plan<RES>
    const blank: RES
    var attempts: nat
    var destroyed: nat
    var callbacks: seq<RES>
    var waiting: AsyncClientHandler?<RES>

    constructor (plan: Plan<RES>, blank: RES)
      ensures this.plan == plan && waiting == null
      ensures attempts == 0 && destroyed == 0 && callbacks == []
    {
      this.plan, this.blank := plan, blank;
      attempts, destroyed, callbacks, waiting := 0, 0, [], null;
    }
  }

  ghost function State<RES>(env: Environment<RES>, promise: Promise): Chain<RES>
    reads env, env.waiting, promise
  {
    Chain(env.attempts, env.destroyed, env.callbacks, promise.values,
          if env.waiting == null then None else Some(env.waiting.retries))
  }

  // A handler that waits holds the promise and has no other than the latest attempt.
  ghost predicate WaitingHolds<RES>(env: Environment<RES>, promise: Promise)
    reads env, env.waiting
  {
    env.waiting != null ==>
      env.waiting.completePromise == promise && !env.waiting.deleted && env.waiting.error == None
      && env.attempts > 0
  }

  class AsyncClientHandler<RES> {
    var completePromise: Promise?
    var error: Option<string>
    var status: Status
    var reply: RES
    var retries: nat
    var deleted: bool

    constructor (env: Environment<RES>, promise: Promise, retries: nat)
      requires env.waiting == null
      modifies env, promise
      ensures State(env, promise) == Construct(env.plan, old(State(env, promise)), retries)
      ensures env.waiting != null ==> fresh(env.waiting)
      ensures WaitingHolds(env, promise) && env.attempts > 0
      decreases retries, 1
    {
      completePromise, error, status, reply := promise, None, Ok, env.blank;
      this.retries, deleted := retries, false;
      new;
      // init_
      var attempt := env.plan.outcome(env.attempts);
      env.attempts := env.attempts + 1;
      if attempt.atOnce {
        status, reply := attempt.status, attempt.reply;
        HandleEvent(env, promise);
      } else {
        env.waiting := this;
      }
    }

    // handle
    method HandleEvent(env: Environment<RES>, ghost promise: Promise)
      requires env.waiting == null && env.attempts > 0
      requires completePromise == promise && !deleted && error == None
      requires status == env.plan.outcome(env.attempts - 1).status
      requires reply == env.plan.outcome(env.attempts - 1).reply
      modifies this, env, promise
      ensures State(env, promise) == Handle(env.plan, old(State(env, promise)), old(retries))
      ensures deleted
      ensures env.waiting != null ==> fresh(env.waiting)
      ensures WaitingHolds(env, promise) && env.attempts > 0
      decreases retries, 0
    {
      if status == Ok {
        if env.plan.hasCallback {
          env.callbacks := env.callbacks + [reply];
        }
      } else if retries > 0 {
        var next := new AsyncClientHandler<RES>(env, completePromise, retries - 1);
        completePromise := null;
      } else {
        error := ErrorOf(status);
      }
      Destroy(env);
    }

    // delete this, with the base class destructor.
    method Destroy(env: Environment<RES>)
      requires !deleted
      modifies this, env`destroyed, completePromise
      ensures deleted && env.destroyed == old(env.destroyed) + 1
      ensures old(completePromise) != null ==>
                old(completePromise).values == old(completePromise.values) + [old(error)]
    {
      if completePromise != null {
        completePromise.values := completePromise.values + [error];
      }
      env.destroyed := env.destroyed + 1;
      deleted := true;
    }
  }

  // The completion queue's loop, as far as this chain is concerned.
  method CompleteAll<RES>(env: Environment<RES>, promise: Promise)
    requires WaitingHolds(env, promise) && env.attempts > 0
    modifies env, promise, env.waiting
    ensures State(env, promise) == Complete(env.plan, old(State(env, promise)))
    decreases if env.waiting == null then 0 else env.waiting.retries + 1
  {
    if env.waiting != null {
      var handler: AsyncClientHandler<RES> := env.waiting;
      var attempt := env.plan.outcome(env.attempts - 1);
      handler.status, handler.reply := attempt.status, attempt.reply;
      env.waiting := null;
      handler.HandleEvent(env, promise);
      CompleteAll(env, promise);
    }
  }

  /* -------- linearity -------- */

  // How many attempts a chain makes that is about to make attempt k and has n retries left after it.
  ghost function Tries<RES>(plan: Plan<RES>, k: nat, n: nat): (t: nat)
    ensures t > 0
    decreases n
  {
    if plan.outcome(k).status == Ok || n == 0 then 1 else 1 + Tries(plan, k + 1, n - 1)
  }

  lemma {:induction false} TriesMeans<RES>(plan: Plan<RES>, k: nat, n: nat)
    ensures var t := Tries(plan, k, n);
            && 1 <= t <= n + 1
            && (forall i :: k <= i < k + t - 1 ==> plan.outcome(i).status != Ok)
            && (plan.outcome(k + t - 1).status == Ok || t == n + 1)
    decreases n
  {
    if plan.outcome(k).status == Ok || n == 0 {
    } else {
      TriesMeans(plan, k + 1, n - 1);
    }
  }

  // The chain that has made t attempts from the k-th on and has nothing left to do.
  ghost function Done<RES>(plan: Plan<RES>, k: nat, d: nat, t: nat): Chain<RES>
    requires t > 0
  {
    var last := plan.outcome(k + t - 1);
    Chain(k + t, d + t, if last.status == Ok && plan.hasCallback then [last.reply] else [],
          [ErrorOf(last.status)], None)
  }

  // From attempt k on, with n retries and d handlers destroyed before: either all is done, or one
  // handler waits, the promise is untouched, and all handlers before it failed and are gone.
  ghost predicate OnTheWay<RES>(plan: Plan<RES>, k: nat, n: nat, d: nat, c: Chain<RES>) {
    match c.waiting
    case None => c == Done(plan, k, d, Tries(plan, k, n))
    case Some(m) =>
      && m <= n
      && c == Chain(k + (n - m) + 1, d + (n - m), [], [], Some(m))
      && Tries(plan, k, n) == (n - m) + Tries(plan, k + (n - m), m)
  }

  // What is on the way from a later attempt is on the way from the attempt that led to it.
  lemma OnTheWayFromBefore<RES>(plan: Plan<RES>, k: nat, n: nat, d: nat, m: nat, c: Chain<RES>)
    requires m <= n && Tries(plan, k, n) == (n - m) + Tries(plan, k + (n - m), m)
    requires OnTheWay(plan, k + (n - m), m, d + (n - m), c)
    ensures OnTheWay(plan, k, n, d, c)
  {
    hide Tries;
  }

  lemma {:induction false} ConstructOnTheWay<RES>(plan: Plan<RES>, c: Chain<RES>, n: nat)
    requires c.waiting == None && c.callbacks == [] && c.promise == []
    ensures OnTheWay(plan, c.attempts, n, c.destroyed, Construct(plan, c, n))
    decreases n, 1
  {
    if plan.outcome(c.attempts).atOnce {
      HandleOnTheWay(plan, c.(attempts := c.attempts + 1), n);
    }
  }

  lemma {:induction false} HandleOnTheWay<RES>(plan: Plan<RES>, c: Chain<RES>, n: nat)
    requires c.attempts > 0 && c.waiting == None && c.callbacks == [] && c.promise == []
    ensures OnTheWay(plan, c.attempts - 1, n, c.destroyed, Handle(plan, c, n))
    decreases n, 0
  {
    if plan.outcome(c.attempts - 1).status == Ok || n == 0 {
      hide Construct;
    } else {
      ConstructOnTheWay(plan, c, n - 1);
      RetryOnTheWay(plan, c, n, Construct(plan, c, n - 1));
    }
  }

  // A failed attempt with retries left only adds its own handler to those that are gone.
  lemma RetryOnTheWay<RES>(plan: Plan<RES>, c: Chain<RES>, n: nat, r: Chain<RES>)
    requires c.attempts > 0 && n > 0 && plan.outcome(c.attempts - 1).status != Ok
    requires OnTheWay(plan, c.attempts, n - 1, c.destroyed, r)
    ensures OnTheWay(plan, c.attempts - 1, n, c.destroyed, r.(destroyed := r.destroyed + 1))
  {
    assert Tries(plan, c.attempts - 1, n) == 1 + Tries(plan, c.attempts, n - 1);
    hide Tries;
    OnTheWayFromBefore(plan, c.attempts - 1, n, c.destroyed, n - 1, r.(destroyed := r.destroyed + 1));
  }

  // One completion, if one is outstanding.
  ghost function CompleteOne<RES>(plan: Plan<RES>, c: Chain<RES>): (r: Chain<RES>)
    requires c.attempts > 0
    ensures r.attempts > 0
  {
    if c.waiting.None? then c else Handle(plan, c.(waiting := None), c.waiting.value)
  }

  lemma CompletionOnTheWay<RES>(plan: Plan<RES>, k: nat, n: nat, d: nat, c: Chain<RES>)
    requires c.attempts > 0 && OnTheWay(plan, k, n, d, c)
    ensures OnTheWay(plan, k, n, d, CompleteOne(plan, c))
  {
    hide Handle, Tries;
    if c.waiting.Some? {
      HandleOnTheWay(plan, c.(waiting := None), c.waiting.value);
      OnTheWayFromBefore(plan, k, n, d, c.waiting.value, CompleteOne(plan, c));
    }
  }

  lemma {:induction false} CompletesWhatWaits<RES>(plan: Plan<RES>, k: nat, n: nat, d: nat, c: Chain<RES>)
    requires c.attempts > 0 && OnTheWay(plan, k, n, d, c)
    ensures Complete(plan, c) == Done(plan, k, d, Tries(plan, k, n))
    decreases if c.waiting.Some? then c.waiting.value + 1 else 0
  {
    hide Handle, Tries;
    if c.waiting.None? {
    } else {
      CompletionOnTheWay(plan, k, n, d, c);
      CompletesWhatWaits(plan, k, n, d, CompleteOne(plan, c));
    }
  }

  // A chain whose first handler has n retries, after i of its completions.
  ghost function After<RES>(plan: Plan<RES>, n: nat, i: nat): (c: Chain<RES>)
    ensures c.attempts > 0 && OnTheWay(plan, 0, n, 0, c)
    decreases i
  {
    if i == 0 then
      ConstructOnTheWay(plan, Chain(0, 0, [], [], None), n);
      Construct(plan, Chain(0, 0, [], [], None), n)
    else
      CompletionOnTheWay(plan, 0, n, 0, After(plan, n, i - 1));
      CompleteOne(plan, After(plan, n, i - 1))
  }

  // As long as a handler waits, the promise has not been set, the callback has not run, every attempt
  // but the latest has failed, and only the waiting handler is not destroyed.
  lemma WhileWaiting<RES>(plan: Plan<RES>, n: nat, i: nat)
    requires After(plan, n, i).waiting.Some?
    ensures var c := After(plan, n, i);
            && c.promise == [] && c.callbacks == [] && c.destroyed == c.attempts - 1
            && c.attempts + c.waiting.value == n + 1
            && forall j :: 0 <= j < c.attempts - 1 ==> plan.outcome(j).status != Ok
  {
    hide Tries;
    var m := After(plan, n, i).waiting.value;
    TriesMeans(plan, 0, n);
    TriesMeans(plan, n - m, m);
  }

  // A chain with n retries makes at most n + 1 attempts and stops at the first that succeeds.  Every
  // handler is destroyed once, the promise is set once, to an error if and only if all attempts
  // failed, and then the last one's, and the callback runs once if an attempt succeeded and there is
  // one.  When attempts complete makes no difference.
  lemma ChainIsLinear<RES>(plan: Plan<RES>, n: nat)
    ensures var c := Complete(plan, After(plan, n, 0));
            && 1 <= c.attempts <= n + 1 && c.destroyed == c.attempts && c.waiting == None
            && (forall i :: 0 <= i < c.attempts - 1 ==> plan.outcome(i).status != Ok)
            && (plan.outcome(c.attempts - 1).status == Ok || c.attempts == n + 1)
            && (match plan.outcome(c.attempts - 1).status
                case Ok => c.promise == [None]
                case Error(message) => c.promise == [Some(message)])
            && c.callbacks == (if plan.outcome(c.attempts - 1).status == Ok && plan.hasCallback
                               then [plan.outcome(c.attempts - 1).reply] else [])
    ensures Complete(plan, After(plan, n, 0)).promise[0] == None
            <==> exists i :: 0 <= i <= n && plan.outcome(i).status == Ok
  {
    hide Tries, Construct, Handle, Complete;
    CompletesWhatWaits(plan, 0, n, 0, After(plan, n, 0));
    TriesMeans(plan, 0, n);
  }

  // A request with a budget of retries, from its first handler until its last one is gone: what the
  // caller's promise was set to, and what the callback was given.
  method Request<RES>(plan: Plan<RES>, blank: RES, retries: nat)
    returns (resolved: seq<Option<string>>, callbacks: seq<RES>, attempts: nat)
    ensures 1 <= attempts <= retries + 1
    ensures forall i :: 0 <= i < attempts - 1 ==> plan.outcome(i).status != Ok
    ensures plan.outcome(attempts - 1).status == Ok || attempts == retries + 1
    ensures match plan.outcome(attempts - 1).status
            case Ok => resolved == [None]
            case Error(message) => resolved == [Some(message)]
    ensures callbacks == if plan.outcome(attempts - 1).status == Ok && plan.hasCallback
                         then [plan.outcome(attempts - 1).reply] else []
  {
    hide Construct, Handle, Complete, Tries;
    var env := new Environment(plan, blank);
    var promise := new Promise();
    var handler := new AsyncClientHandler<RES>(env, promise, retries);
    CompleteAll(env, promise);
    ChainIsLinear(plan, retries);
    resolved, callbacks, attempts := promise.values, env.callbacks, env.attempts;
  }
}
