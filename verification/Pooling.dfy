/** One pooled connection per call, and a call that may be dropped at any await
    (src/pooled.rs). What the driver and the pool do on their own is taken as
    the source describes it: a transaction is counted once its BEGIN has
    returned, a counted one is rolled back when it is dropped, and a returned
    connection has whatever reply was still on its way drained first. */
module Pooling {
  import opened Outcome

  /** Where the call that holds a connection stands. */
  datatype Stage = Idle | Acquired | Beginning | BeginFailed | Open | Ending

  /** One connection: the call's stage, the arming flag, the driver's depth, and
      whether the SERVER holds it inside a transaction. */
  datatype Conn = Conn(stage: Stage, armed: bool, depth: nat, inside: bool)

  /** What the pool opens, and what replaces a connection it closes. */
  const CLEAN := Conn(Idle, false, 0, false)

  // ---- The steps ----

  /** `begin` up to its await. Without arming, this is the driver's own. */
  function BeginSent(c: Conn, arming: bool): Conn {
    c.(stage := Beginning, armed := arming)
  }

  function BeginReturned(c: Conn): Conn {
    c.(stage := Open, armed := false, depth := 1)
  }

  /** A BEGIN that failed: what the server did with it is not known. */
  function BeginErred(c: Conn): Conn {
    c.(stage := BeginFailed)
  }

  /** The call is dropped: the transaction first, then the connection, which the
      pool closes when it is armed and takes back otherwise. */
  function Dropped(c: Conn): Conn {
    if c.armed then CLEAN
    else
      var drained := c.inside || c.stage.Beginning?;
      Conn(Idle, false, 0, if c.depth > 0 then false else drained)
  }

  predicate ConnStep(c: Conn, c': Conn, arming: bool) {
    match c.stage
    case Idle => c' == c.(stage := Acquired)
    case Acquired => c' == BeginSent(c, arming) || c' == Dropped(c)
    case Beginning =>
      || c' == c.(inside := true)
      || (c.inside && c' == BeginReturned(c))
      || c' == BeginErred(c)
      || c' == Dropped(c)
    case BeginFailed => c' == Dropped(c)
    case Open => c' == c.(stage := Ending) || c' == Dropped(c)
    case Ending =>
      || c' == c.(inside := false)
      || (!c.inside && c' == c.(stage := Acquired, depth := 0))
      || c' == c.(stage := Open)
      || c' == Dropped(c)
  }

  /** One connection of the pool takes a step. */
  ghost predicate PoolStep(p: seq<Conn>, p': seq<Conn>, arming: bool) {
    exists i, c :: 0 <= i < |p| && ConnStep(p[i], c, arming) && p' == p[i := c]
  }

  ghost predicate PoolStepAt(run: seq<seq<Conn>>, arming: bool, k: nat)
    requires k < |run| - 1
  {
    PoolStep(run[k], run[k + 1], arming)
  }

  /** Any calls, on any connections, each dropped wherever it may be. */
  ghost predicate PoolRun(run: seq<seq<Conn>>, arming: bool) {
    && run != [] && (forall i :: 0 <= i < |run[0]| ==> run[0][i] == CLEAN)
    && forall k {:trigger PoolStepAt(run, arming, k)} :: 0 <= k < |run| - 1 ==> PoolStepAt(run, arming, k)
  }

  // ---- No call poisons the pool ----

  /** What every connection keeps: armed exactly while a BEGIN is unaccounted
      for, counted exactly while a transaction is. */
  predicate Sound(c: Conn) {
    && (c.armed <==> c.stage.Beginning? || c.stage.BeginFailed?)
    && (c.depth > 0 <==> c.stage.Open? || c.stage.Ending?)
    && (c.stage.Idle? || c.stage.Acquired? ==> !c.inside)
  }

  lemma StepKeepsSound(c: Conn, c': Conn)
    requires Sound(c) && ConnStep(c, c', true)
    ensures Sound(c')
  {
  }

  lemma {:induction false} RunIsSound(run: seq<seq<Conn>>, k: nat, i: nat)
    requires PoolRun(run, true) && k < |run| && i < |run[k]|
    ensures Sound(run[k][i])
  {
    if k > 0 {
      assert PoolStepAt(run, true, k - 1);
      var j, c :| 0 <= j < |run[k - 1]| && ConnStep(run[k - 1][j], c, true) && run[k] == run[k - 1][j := c];
      RunIsSound(run, k - 1, i);
      if i == j {
        StepKeepsSound(run[k - 1][i], c);
      }
    }
  }

  /** Every connection the pool can hand out, at any moment of any run, is
      outside every server transaction and counted as outside one. */
  lemma HandedOutClean(run: seq<seq<Conn>>, k: nat, i: nat)
    requires PoolRun(run, true) && k < |run| && i < |run[k]| && run[k][i].stage.Idle?
    ensures run[k][i] == CLEAN
  {
    RunIsSound(run, k, i);
  }

  /** Without the arming a BEGIN dropped in flight poisons its connection. */
  lemma UnarmedPoisons() returns (run: seq<seq<Conn>>)
    ensures PoolRun(run, false)
    ensures exists k, i :: 0 <= k < |run| && 0 <= i < |run[k]| && run[k][i].stage.Idle? && run[k][i].inside
  {
    var a := CLEAN.(stage := Acquired);
    var b := BeginSent(a, false);
    var c := Dropped(b);
    run := [[CLEAN], [a], [b], [c]];
    PoolOfOne(CLEAN, a, false);
    PoolOfOne(a, b, false);
    PoolOfOne(b, c, false);
    assert run[3][0].stage.Idle? && run[3][0].inside;
  }

  lemma PoolOfOne(c: Conn, c': Conn, arming: bool)
    requires ConnStep(c, c', arming)
    ensures PoolStep([c], [c'], arming)
  {
    assert [c'] == [c][0 := c'];
    assert ConnStep([c][0], c', arming);
  }

  // ---- The code ----

  ghost predicate TraceAt(trace: seq<Conn>, i: nat)
    requires i < |trace| - 1
  {
    ConnStep(trace[i], trace[i + 1], true)
  }

  /** A clean connection, step by step. */
  ghost predicate IsTrace(trace: seq<Conn>) {
    && trace != [] && trace[0] == CLEAN
    && forall i {:trigger TraceAt(trace, i)} :: 0 <= i < |trace| - 1 ==> TraceAt(trace, i)
  }

  lemma TraceExtends(trace: seq<Conn>, c: Conn)
    requires IsTrace(trace) && ConnStep(trace[|trace| - 1], c, true)
    ensures IsTrace(trace + [c])
  {
    forall i {:trigger TraceAt(trace + [c], i)} | 0 <= i < |trace|
      ensures TraceAt(trace + [c], i)
    {
      if i < |trace| - 1 {
        assert TraceAt(trace, i);
      }
    }
  }

  lemma {:induction false} TraceIsSound(trace: seq<Conn>)
    requires IsTrace(trace)
    ensures Sound(trace[|trace| - 1])
  {
    var n := |trace| - 1;
    if n > 0 {
      forall i {:trigger TraceAt(trace[..n], i)} | 0 <= i < n - 1
        ensures TraceAt(trace[..n], i)
      {
        assert TraceAt(trace, i);
      }
      TraceIsSound(trace[..n]);
      assert TraceAt(trace, n - 1);
      StepKeepsSound(trace[n - 1], trace[n]);
    }
  }

  /** A connection taken out of the pool for one call. */
  class Pooled {
    var stage: Stage
    var armed: bool
    var depth: nat
    var inside: bool
    /** Every state since the pool opened it. */
    ghost var trace: seq<Conn>

    ghost function State(): Conn
      reads this
    {
      Conn(stage, armed, depth, inside)
    }

    ghost predicate Valid()
      reads this
    {
      IsTrace(trace) && trace[|trace| - 1] == State()
    }

    /** It has taken one step of the protocol, to this stage. */
    twostate predicate TookStep(to: Stage)
      reads this
    {
      Valid() && stage == to && trace == old(trace) + [State()]
    }

    ghost method Note()
      requires IsTrace(trace) && ConnStep(trace[|trace| - 1], State(), true)
      modifies `trace
      ensures trace == old(trace) + [State()] && Valid()
    {
      TraceExtends(trace, State());
      trace := trace + [State()];
    }

    /** `acquire`, when the pool has one. */
    constructor (idle: Conn, ghost past: seq<Conn>)
      requires IsTrace(past) && past[|past| - 1] == idle && idle.stage.Idle?
      ensures Valid() && stage == Acquired && trace == past + [State()]
    {
      TraceIsSound(past);
      stage := Acquired;
      armed := false;
      depth := idle.depth;
      inside := idle.inside;
      trace := past;
      new;
      Note();
    }

    /** `begin` up to its await. */
    method SendBegin()
      requires Valid() && stage.Acquired?
      modifies this
      ensures TookStep(Beginning)
    {
      armed := true;
      stage := Beginning;
      Note();
    }

    /** The server executes the BEGIN, whether or not anyone still waits for it. */
    method ServerBegins()
      requires Valid() && stage.Beginning?
      modifies this
      ensures TookStep(Beginning) && inside
    {
      inside := true;
      Note();
    }

    /** `begin` once its await is over: a failure leaves the connection armed. */
    method FinishBegin(began: bool) returns (r: Result<()>)
      requires Valid() && stage.Beginning? && (began ==> inside)
      modifies this
      ensures r.Ok? <==> began
      ensures TookStep(if began then Open else BeginFailed)
    {
      if !began {
        stage := BeginFailed;
        Note();
        return Err(Internal);
      }
      depth := 1;
      stage := Open;
      armed := false;
      Note();
      return Ok(());
    }

    /** COMMIT or ROLLBACK up to its await. */
    method SendEnd()
      requires Valid() && stage.Open?
      modifies this
      ensures TookStep(Ending)
    {
      stage := Ending;
      Note();
    }

    method ServerEnds()
      requires Valid() && stage.Ending?
      modifies this
      ensures TookStep(Ending) && !inside
    {
      inside := false;
      Note();
    }

    method FinishEnd()
      requires Valid() && stage.Ending? && !inside
      modifies this
      ensures TookStep(Acquired)
    {
      stage := Acquired;
      depth := 0;
      Note();
    }

    /** `drop`, and what the pool makes of what it gets: a clean connection,
        wherever the call stood, a new one exactly when what the server did with a
        BEGIN is not known. */
    method Drop() returns (returned: Conn, closed: bool)
      requires Valid() && !stage.Idle?
      modifies this
      ensures returned == CLEAN == State() && TookStep(Idle)
      ensures closed <==> old(stage).Beginning? || old(stage).BeginFailed?
    {
      TraceIsSound(trace);
      closed := armed;
      if closed {
        stage, armed, depth, inside := Idle, false, 0, false;
      } else {
        inside := inside || stage.Beginning?;
        if depth > 0 {
          inside := false;
          depth := 0;
        }
        stage := Idle;
      }
      returned := Conn(stage, armed, depth, inside);
      Note();
    }
  }

  /** One call, dropped at any of its awaits or at its end, the server having done
      or not done what was sent: it gives back a clean connection. */
  method OneCall(idle: Conn, ghost past: seq<Conn>) returns (returned: Conn, ghost trace: seq<Conn>)
    requires IsTrace(past) && past[|past| - 1] == idle && idle.stage.Idle?
    ensures returned == CLEAN
    ensures past <= trace && IsTrace(trace) && trace[|trace| - 1] == returned
  {
    var c := new Pooled(idle, past);
    c.SendBegin();
    var served: bool := *;
    if served {
      c.ServerBegins();
    }
    var dropped: bool := *;
    if !dropped {
      var answered: bool := *;
      var begun := c.FinishBegin(served && answered);
      dropped := *;
      if begun.Ok? && !dropped {
        EndCall(c);
      }
    }
    var closed: bool;
    returned, closed := c.Drop();
    trace := c.trace;
  }

  /** COMMIT or ROLLBACK, possibly dropped before it is over. */
  method EndCall(c: Pooled)
    requires c.Valid() && c.stage.Open?
    modifies c
    ensures c.Valid() && !c.stage.Idle? && old(c.trace) <= c.trace
  {
    c.SendEnd();
    var served: bool := *;
    if served {
      c.ServerEnds();
      var dropped: bool := *;
      if !dropped {
        c.FinishEnd();
      }
    }
  }
}
