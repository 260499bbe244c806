/** Ownership of the one QUIC connection of a proxy: callers of `_wait_for_quic_connection`, the tasks
    running `_run_quic_connection`, and the futures between them. A step is what runs between two
    `await` points. */
module Quic {
  import opened ByteStrings

  datatype Future = Pending | Result | Failed | Cancelled

  /** Where a connection task is: not run yet, entering the context, waiting to be connected, waiting
      to be closed, leaving the context, or finished (by a cancellation or not). */
  datatype Phase = Created | Entering | Connecting | Connected | Exiting(cancelled: bool) | Done(cancelled: bool)

  /** Connection k: its task, the handshake future made for it, whether a cancellation of that task is
      waiting to be delivered or was ever requested, and whether its protocol is closed. */
  datatype Conn = Conn(phase: Phase, handshake: Future, cancel: bool, doomed: bool, closed: bool)

  /** How a `CancelledError` that was not aimed at the caller reached it: through the handshake it had
      joined, through a handshake it found cancelled, or through the closing task it waited for. `late`
      if that task's cancellation had been requested when the caller met it. */
  datatype Via = Joined(late: bool) | OldResult(late: bool) | ClosingTask(late: bool)

  /** A caller is suspended on a handshake or on a closing task, `late` as above, or has left. */
  datatype Caller =
    | Waiting(k: nat, late: bool)
    | Closing(k: nat, late: bool)
    | Returned(k: nat)
    | Raised
    | OwnCancel
    | ForeignCancel(via: Via)

  datatype State = State(
    handshake: Option<nat>, task: Option<nat>, waiters: int, protocol: Option<nat>,
    conns: seq<Conn>, callers: seq<Caller>, shut: bool)

  datatype Event =
    | Call
    | Wake(i: nat)
    | Cancel(i: nat)
    | Run(k: nat, ok: bool)
    | Terminated(k: nat)
    | Dies(k: nat)
    | Close

  const INITIAL: State := State(None, None, 0, None, [], [], false)

  // ---- The caller -----------------------------------------------------------------------------

  predicate InRange(st: State) {
    && (st.handshake.Some? ==> st.handshake.value < |st.conns|)
    && (st.task.Some? ==> st.task.value < |st.conns|)
    && forall i | 0 <= i < |st.callers| ::
         match st.callers[i]
         case Waiting(k, late) => k < |st.conns|
         case Closing(k, late) => k < |st.conns|
         case _ => true
  }

  /** A finished handshake whose protocol has closed is forgotten before the next look. */
  function Forget(st: State): State
    requires InRange(st)
  {
    if st.handshake.Some? && st.conns[st.handshake.value].handshake.Result? && st.conns[st.handshake.value].closed
    then st.(handshake := None) else st
  }

  /** The retry loop up to its next suspension or exit, for caller i. */
  function Enter(st0: State, i: nat): State
    requires InRange(st0) && i < |st0.callers|
  {
    var st := Forget(st0);
    match st.handshake
    case Some(k) =>
      (match st.conns[k].handshake
       case Pending => Suspended(st, i, k, st.conns[k].doomed)
       case Result => Put(st, i, Returned(k))
       case Failed => Put(st, i, Raised)
       case Cancelled => Put(st, i, ForeignCancel(OldResult(st.conns[k].doomed))))
    case None =>
      if st.task.Some? && !st.conns[st.task.value].phase.Done? then
        Put(st, i, Closing(st.task.value, st.conns[st.task.value].doomed))
      else
        var k := |st.conns|;
        Suspended(st.(handshake := Some(k), task := Some(k),
                      conns := st.conns + [Conn(Created, Pending, false, false, false)]), i, k, false)
  }

  function Put(st: State, i: nat, c: Caller): State
    requires i < |st.callers|
  {
    st.(callers := st.callers[i := c])
  }

  function Suspended(st: State, i: nat, k: nat, late: bool): State
    requires i < |st.callers|
  {
    Put(st, i, Waiting(k, late)).(waiters := st.waiters + 1)
  }

  function Left(st: State, i: nat, c: Caller): State
    requires i < |st.callers|
  {
    Put(st, i, c).(waiters := st.waiters - 1)
  }

  /** The awaited future is done and the caller runs again. */
  function Woken(st: State, i: nat): State
    requires InRange(st) && i < |st.callers|
  {
    match st.callers[i]
    case Waiting(k, late) =>
      (match st.conns[k].handshake
       case Pending => st
       case Result => Left(st, i, Returned(k))
       case Failed => Left(st, i, Raised)
       case Cancelled => Left(st, i, ForeignCancel(Joined(late))))
    case Closing(k, late) =>
      if !st.conns[k].phase.Done? then st
      else if st.conns[k].phase.cancelled then Put(st, i, ForeignCancel(ClosingTask(late)))
      else Enter(st, i)
    case _ => st
  }

  function Requested(c: Conn): Conn {
    if c.phase.Done? then c else c.(cancel := true, doomed := true)
  }

  function RequestCancel(st: State, k: nat): State
    requires k < |st.conns|
  {
    st.(conns := st.conns[k := Requested(st.conns[k])])
  }

  /** The test in the caller's cancellation handler. */
  predicate MayCancel(st: State, k: nat)
    requires k < |st.conns|
  {
    st.handshake == Some(k) && st.conns[k].handshake.Pending? && st.waiters == 1 && st.task.Some?
  }

  /** The caller's own cancellation is delivered. */
  function CallerCancelled(st: State, i: nat): State
    requires InRange(st) && i < |st.callers|
  {
    match st.callers[i]
    case Waiting(k, late) =>
      Left(if MayCancel(st, k) then RequestCancel(st, st.task.value) else st, i, OwnCancel)
    case Closing(k, late) => Put(st, i, OwnCancel)
    case _ => st
  }

  // ---- The connection task --------------------------------------------------------------------

  function Settle(f: Future, to: Future): Future {
    if f.Pending? then to else f
  }

  /** The part of `finally` before its `await`; it ends there when the context was not entered. */
  function Leave(st: State, k: nat, c: Conn, cancelled: bool, entered: bool): State
    requires k < |st.conns|
  {
    var t := st.(conns := st.conns[k := c.(phase := Exiting(cancelled))],
                 protocol := if st.protocol == Some(k) then None else st.protocol);
    if entered then t else Finish(t, k, cancelled)
  }

  /** The part of `finally` after its `await`. */
  function Finish(st: State, k: nat, cancelled: bool): State
    requires k < |st.conns|
  {
    st.(conns := st.conns[k := st.conns[k].(phase := Done(cancelled))],
        handshake := if st.handshake == Some(k) then None else st.handshake,
        task := if st.task == Some(k) then None else st.task)
  }

  /** Task k runs again: with the pending cancellation if there is one, else with success or failure
      of what it awaited. A task cancelled before its first step never runs its body, and one
      cancelled while leaving skips the rest of `finally`. */
  function Ran(st: State, k: nat, ok: bool): State
    requires k < |st.conns|
  {
    var c := st.conns[k].(cancel := false);
    if st.conns[k].cancel then
      (match c.phase
       case Created => st.(conns := st.conns[k := c.(phase := Done(true))])
       case Entering => Leave(st, k, c.(handshake := Settle(c.handshake, Cancelled)), true, false)
       case Exiting(_) => st.(conns := st.conns[k := c.(phase := Done(true))])
       case Done(_) => st
       case _ => Leave(st, k, c.(handshake := Settle(c.handshake, Cancelled), closed := true), true, true))
    else
      match c.phase
      case Created => st.(conns := st.conns[k := c.(phase := Entering)])
      case Entering =>
        if ok then st.(conns := st.conns[k := c.(phase := Connecting)], protocol := Some(k))
        else Leave(st, k, c.(handshake := Settle(c.handshake, Failed)), false, false)
      case Connecting =>
        if ok then st.(conns := st.conns[k := c.(phase := Connected, handshake := Settle(c.handshake, Result))])
        else Leave(st, k, c.(handshake := Settle(c.handshake, Failed)), false, true)
      case Connected =>
        Leave(st, k, if ok then c.(closed := true) else c.(handshake := Settle(c.handshake, Failed)), false, true)
      case Exiting(cancelled) => Finish(st, k, cancelled)
      case Done(_) => st
  }

  /** `connection_terminated` for connection k. */
  function Terminate(st: State, k: nat): State
    requires k < |st.conns|
  {
    if st.handshake == Some(k) then
      st.(conns := st.conns[k := st.conns[k].(handshake := Settle(st.conns[k].handshake, Failed))], handshake := None)
    else st
  }

  function Apply(st: State, e: Event): State
    requires InRange(st)
  {
    match e
    case Call => Enter(st.(callers := st.callers + [Raised]), |st.callers|)
    case Wake(i) => if i < |st.callers| then Woken(st, i) else st
    case Cancel(i) => if i < |st.callers| then CallerCancelled(st, i) else st
    case Run(k, ok) => if k < |st.conns| then Ran(st, k, ok) else st
    case Terminated(k) => if k < |st.conns| then Terminate(st, k) else st
    case Dies(k) => if k < |st.conns| then st.(conns := st.conns[k := st.conns[k].(closed := true)]) else st
    case Close =>
      var t := st.(shut := true);
      if t.task.Some? then RequestCancel(t, t.task.value) else t
  }

  // ---- The invariant --------------------------------------------------------------------------

  function Count(callers: seq<Caller>): nat {
    if callers == [] then 0
    else Count(callers[..|callers| - 1]) + if callers[|callers| - 1].Waiting? then 1 else 0
  }

  ghost predicate Owned(st: State) {
    && InRange(st)
    && (forall k | 0 <= k < |st.conns| :: st.conns[k].phase.Done? || st.task == Some(k))
    && (st.handshake.Some? ==> st.task == st.handshake)
  }

  /** A caller that met its task before any cancellation request is safe from it, unless the proxy
      closes; while a closing task is waited for there is no handshake. */
  ghost predicate Fated(c: Caller, conns: seq<Conn>, handshake: Option<nat>, shut: bool) {
    match c
    case Waiting(k, late) =>
      && k < |conns|
      && (!late && !shut ==> !conns[k].doomed)
      && (late ==> conns[k].doomed && !conns[k].handshake.Result?)
    case Closing(k, late) =>
      && k < |conns|
      && (!late && !shut ==> !conns[k].doomed)
      && (late ==> conns[k].doomed)
      && (conns[k].phase.Done? || handshake == None)
    case ForeignCancel(via) => via.late || shut
    case _ => true
  }

  /** A requested cancellation is pending or has ended the task; a handshake is pending only before the
      connection exists, or when its task was cancelled before it ran. */
  ghost predicate Marked(c: Conn) {
    && (c.cancel ==> c.doomed && !c.phase.Done?)
    && (c.handshake.Cancelled? || c.phase == Exiting(true) || c.phase == Done(true) ==> c.doomed)
    && (c.doomed ==> c.cancel || c.phase == Exiting(true) || c.phase == Done(true))
    && (c.handshake.Pending? ==>
          c.phase.Created? || c.phase.Entering? || c.phase.Connecting? || (c.phase == Done(true) && c.doomed))
  }

  ghost predicate Inv(st: State) {
    && Owned(st)
    && st.waiters == Count(st.callers)
    && (forall k | 0 <= k < |st.conns| ::
          Marked(st.conns[k]) && (st.conns[k].doomed && st.conns[k].handshake.Result? ==> st.shut))
    && (forall i | 0 <= i < |st.callers| :: Fated(st.callers[i], st.conns, st.handshake, st.shut))
  }

  lemma {:induction false} CountAppend(a: seq<Caller>, c: Caller)
    ensures Count(a + [c]) == Count(a) + if c.Waiting? then 1 else 0
  {
    assert (a + [c])[..|a|] == a;
  }

  lemma {:induction false} CountPut(a: seq<Caller>, i: nat, c: Caller)
    requires i < |a|
    ensures Count(a[i := c]) + (if a[i].Waiting? then 1 else 0) == Count(a) + (if c.Waiting? then 1 else 0)
    decreases |a|
  {
    var n := |a| - 1;
    if i == n {
      assert a[i := c][..n] == a[..n];
    } else {
      CountPut(a[..n], i, c);
      assert a[i := c][..n] == a[..n][i := c];
    }
  }

  lemma {:induction false} CountOne(a: seq<Caller>, i: nat, j: nat)
    requires i < |a| && j < |a| && i != j && a[i].Waiting? && a[j].Waiting?
    ensures Count(a) >= 2
  {
    CountPut(a, i, Raised);
    CountPut(a[i := Raised], j, Raised);
  }

  lemma {:induction false} NoneOther(a: seq<Caller>, i: nat)
    requires i < |a| && a[i].Waiting? && forall j | 0 <= j < |a| && j != i :: !a[j].Waiting?
    ensures Count(a) == 1
  {
    CountPut(a, i, Raised);
    NoneWaiting(a[i := Raised]);
  }

  lemma {:induction false} NoneWaiting(a: seq<Caller>)
    requires forall j | 0 <= j < |a| :: !a[j].Waiting?
    ensures Count(a) == 0
    decreases |a|
  {
    if a != [] { NoneWaiting(a[..|a| - 1]); }
  }

  // ---- Every step keeps it --------------------------------------------------------------------

  lemma {:induction false} PutKeeps(st: State, i: nat, c: Caller, waiters: int)
    requires Inv(st) && i < |st.callers| && Fated(c, st.conns, st.handshake, st.shut)
    requires waiters == st.waiters + (if c.Waiting? then 1 else 0) - (if st.callers[i].Waiting? then 1 else 0)
    ensures Inv(Put(st, i, c).(waiters := waiters))
  {
    hide Count, Fated, Marked;
    CountPut(st.callers, i, c);
    if c.Waiting? || c.Closing? { FatedRange(c, st.conns, st.handshake, st.shut); }
  }

  lemma {:induction false} FatedRange(c: Caller, conns: seq<Conn>, handshake: Option<nat>, shut: bool)
    requires Fated(c, conns, handshake, shut) && (c.Waiting? || c.Closing?)
    ensures c.k < |conns|
  {
  }

  lemma {:induction false} CreateKeeps(st: State)
    requires Inv(st) && (st.task.None? || st.conns[st.task.value].phase.Done?)
    ensures var k := |st.conns|;
            Inv(st.(handshake := Some(k), task := Some(k),
                    conns := st.conns + [Conn(Created, Pending, false, false, false)]))
  {
    hide Count;
  }

  lemma {:induction false} ForgetKeeps(st: State)
    requires Inv(st)
    ensures Inv(Forget(st))
  {
    hide Count;
  }

  lemma {:induction false} EnterFated(st: State, k: nat)
    requires Inv(st) && k < |st.conns|
    ensures st.conns[k].handshake.Pending? ==>
              Fated(Waiting(k, st.conns[k].doomed), st.conns, st.handshake, st.shut)
    ensures st.conns[k].handshake.Cancelled? ==>
              Fated(ForeignCancel(OldResult(st.conns[k].doomed)), st.conns, st.handshake, st.shut)
    ensures st.handshake == None ==> Fated(Closing(k, st.conns[k].doomed), st.conns, st.handshake, st.shut)
    ensures Fated(Returned(k), st.conns, st.handshake, st.shut) && Fated(Raised, st.conns, st.handshake, st.shut)
  {
    hide Count;
  }

  lemma {:induction false} EnterKeeps(st: State, i: nat)
    requires Inv(st) && i < |st.callers| && !st.callers[i].Waiting?
    ensures Inv(Enter(st, i))
  {
    ForgetKeeps(st);
    var t := Forget(st);
    match t.handshake
    case Some(k) =>
      EnterFated(t, k);
      hide Inv, Fated;
      var c := match t.conns[k].handshake
        case Pending => Waiting(k, t.conns[k].doomed)
        case Result => Returned(k)
        case Failed => Raised
        case Cancelled => ForeignCancel(OldResult(t.conns[k].doomed));
      PutKeeps(t, i, c, t.waiters + if c.Waiting? then 1 else 0);
      assert t.(waiters := t.waiters) == t;
    case None =>
      if t.task.Some? && !t.conns[t.task.value].phase.Done? {
        EnterFated(t, t.task.value);
        hide Inv, Fated;
        PutKeeps(t, i, Closing(t.task.value, t.conns[t.task.value].doomed), t.waiters);
      } else {
        var k := |t.conns|;
        CreateKeeps(t);
        var u := t.(handshake := Some(k), task := Some(k),
                    conns := t.conns + [Conn(Created, Pending, false, false, false)]);
        assert Fated(Waiting(k, false), u.conns, u.handshake, u.shut);
        hide Inv, Fated;
        PutKeeps(u, i, Waiting(k, false), u.waiters + 1);
      }
  }

  lemma {:induction false} WokenKeeps(st: State, i: nat)
    requires Inv(st) && i < |st.callers|
    ensures Inv(Woken(st, i))
  {
    match st.callers[i]
    case Waiting(k, late) =>
      if !st.conns[k].handshake.Pending? {
        var c := if st.conns[k].handshake.Result? then Returned(k)
                 else if st.conns[k].handshake.Failed? then Raised
                 else ForeignCancel(Joined(late));
        assert Fated(st.callers[i], st.conns, st.handshake, st.shut) && Marked(st.conns[k]);
        assert Fated(c, st.conns, st.handshake, st.shut);
        hide Inv, Fated, Marked, Count;
        PutKeeps(st, i, c, st.waiters - 1);
      }
    case Closing(k, late) =>
      if st.conns[k].phase.Done? {
        if st.conns[k].phase.cancelled {
          assert Fated(st.callers[i], st.conns, st.handshake, st.shut) && Marked(st.conns[k]);
          PutKeeps(st, i, ForeignCancel(ClosingTask(late)), st.waiters);
        } else {
          EnterKeeps(st, i);
        }
      }
    case _ =>
  }

  /** Replacing connection k: nobody who joined in time may be doomed by it, and a doomed handshake
      does not get a result. */
  lemma {:induction false} ConnKeeps(
    st: State, k: nat, c: Conn, handshake: Option<nat>, task: Option<nat>, protocol: Option<nat>, shut: bool)
    requires Inv(st) && k < |st.conns| && Marked(c) && (st.shut ==> shut)
    requires st.conns[k].doomed ==> c.doomed && (c.handshake.Result? ==> st.conns[k].handshake.Result?)
    requires c.doomed && !st.conns[k].doomed ==>
               shut || (Waiting(k, false) !in st.callers && Closing(k, false) !in st.callers)
    requires c.doomed && c.handshake.Result? ==> shut
    requires handshake == None || handshake == st.handshake
    requires task == st.task || (task == None && c.phase.Done? && handshake == None && st.task == Some(k))
    requires st.conns[k].phase.Done? ==> c.phase.Done?
    ensures Inv(st.(conns := st.conns[k := c], handshake := handshake, task := task,
                    protocol := protocol, shut := shut))
  {
    hide Count;
    var t := st.(conns := st.conns[k := c], handshake := handshake, task := task, protocol := protocol, shut := shut);
    forall i | 0 <= i < |t.callers|
      ensures Fated(t.callers[i], t.conns, t.handshake, t.shut)
    {
      assert Fated(st.callers[i], st.conns, st.handshake, st.shut);
    }
    assert InRange(t);
  }

  lemma {:induction false} ClosingAlone(st: State, j: nat)
    requires Inv(st) && j < |st.callers| && st.callers[j].Closing?
    ensures st.callers[j].k < |st.conns|
    ensures st.conns[st.callers[j].k].phase.Done? || st.handshake == None
  {
    assert Fated(st.callers[j], st.conns, st.handshake, st.shut);
  }

  lemma {:induction false} CallerCancelledKeeps(st: State, i: nat)
    requires Inv(st) && i < |st.callers|
    ensures Inv(CallerCancelled(st, i))
  {
    hide Count;
    match st.callers[i]
    case Waiting(k, late) =>
      PutKeeps(st, i, OwnCancel, st.waiters - 1);
      var left := Left(st, i, OwnCancel);
      if MayCancel(st, k) {
        assert st.task == Some(k);
        var c := Requested(st.conns[k]);
        assert Marked(st.conns[k]) && Marked(c);
        if Waiting(k, false) in left.callers {
          var j :| 0 <= j < |left.callers| && left.callers[j] == Waiting(k, false);
          CountOne(st.callers, i, j);
          assert false;
        }
        if Closing(k, false) in left.callers && !st.conns[k].phase.Done? {
          var j :| 0 <= j < |left.callers| && left.callers[j] == Closing(k, false);
          ClosingAlone(left, j);
          assert false;
        }
        ConnKeeps(left, k, c, left.handshake, left.task, left.protocol, left.shut);
      }
    case Closing(k, late) => PutKeeps(st, i, OwnCancel, st.waiters);
    case _ =>
  }

  /** Running task k changes its own connection and the shared fields, and dooms nobody. */
  lemma {:induction false} RanFrame(st: State, k: nat, ok: bool)
    requires k < |st.conns|
    ensures var t := Ran(st, k, ok);
            && |t.conns| == |st.conns|
            && t == st.(conns := st.conns[k := t.conns[k]], handshake := t.handshake,
                        task := t.task, protocol := t.protocol)
  {
  }

  lemma {:induction false} RanConn(st: State, k: nat, ok: bool)
    requires k < |st.conns| && Marked(st.conns[k]) && !st.conns[k].phase.Done? && st.task == Some(k)
    requires st.handshake.Some? ==> st.handshake == st.task
    ensures var t := Ran(st, k, ok);
            && |t.conns| == |st.conns| && Marked(t.conns[k]) && t.conns[k].doomed == st.conns[k].doomed
            && (st.conns[k].doomed && t.conns[k].handshake.Result? ==> st.conns[k].handshake.Result?)
            && (t.handshake == None || t.handshake == st.handshake)
            && (t.task == st.task || (t.task == None && t.conns[k].phase.Done? && t.handshake == None))
  {
  }

  lemma {:induction false} RanKeeps(st: State, k: nat, ok: bool)
    requires Inv(st) && k < |st.conns|
    ensures Inv(Ran(st, k, ok))
  {
    assert Marked(st.conns[k]);
    if !st.conns[k].phase.Done? {
      RanFrame(st, k, ok);
      RanConn(st, k, ok);
      hide Count, Fated, Marked, Ran;
      var t := Ran(st, k, ok);
      ConnKeeps(st, k, t.conns[k], t.handshake, t.task, t.protocol, st.shut);
    }
  }

  lemma {:induction false} TerminateKeeps(st: State, k: nat)
    requires Inv(st) && k < |st.conns|
    ensures Inv(Terminate(st, k))
  {
    hide Count, Fated;
    if st.handshake == Some(k) {
      var c := st.conns[k].(handshake := Settle(st.conns[k].handshake, Failed));
      assert Marked(st.conns[k]);
      ConnKeeps(st, k, c, None, st.task, st.protocol, st.shut);
    }
  }

  lemma {:induction false} CloseKeeps(st: State)
    requires Inv(st)
    ensures Inv(Apply(st, Close))
  {
    hide Count, Fated;
    if st.task.Some? {
      var k := st.task.value;
      assert Marked(st.conns[k]);
      ConnKeeps(st, k, Requested(st.conns[k]), st.handshake, st.task, st.protocol, true);
    } else {
      ShutKeeps(st);
    }
  }

  lemma {:induction false} ShutKeeps(st: State)
    requires Inv(st)
    ensures Inv(st.(shut := true))
  {
    hide Count;
    forall i | 0 <= i < |st.callers|
      ensures Fated(st.callers[i], st.conns, st.handshake, true)
    {
      assert Fated(st.callers[i], st.conns, st.handshake, st.shut);
    }
  }

  lemma {:induction false} CallKeeps(st: State)
    requires Inv(st)
    ensures Inv(Apply(st, Call))
  {
    var t := st.(callers := st.callers + [Raised]);
    AddCaller(st);
    hide Inv;
    EnterKeeps(t, |st.callers|);
  }

  lemma {:induction false} DiesKeeps(st: State, k: nat)
    requires Inv(st) && k < |st.conns|
    ensures Inv(Apply(st, Dies(k)))
  {
    hide Count, Fated;
    assert Marked(st.conns[k]);
    ConnKeeps(st, k, st.conns[k].(closed := true), st.handshake, st.task, st.protocol, st.shut);
  }

  lemma {:induction false} ApplyKeeps(st: State, e: Event)
    requires Inv(st)
    ensures Inv(Apply(st, e))
  {
    hide Count, Fated, Marked, Owned;
    match e
    case Call => CallKeeps(st);
    case Wake(i) => if i < |st.callers| { WokenKeeps(st, i); }
    case Cancel(i) => if i < |st.callers| { CallerCancelledKeeps(st, i); }
    case Run(k, ok) => if k < |st.conns| { RanKeeps(st, k, ok); }
    case Terminated(k) => if k < |st.conns| { TerminateKeeps(st, k); }
    case Dies(k) => if k < |st.conns| { DiesKeeps(st, k); }
    case Close => CloseKeeps(st);
  }

  // ---- All runs -------------------------------------------------------------------------------

  ghost predicate RunOf(states: seq<State>, events: seq<Event>) {
    && |states| == |events| + 1 && states[0] == INITIAL
    && forall n | 0 <= n < |events| :: InRange(states[n]) && states[n + 1] == Apply(states[n], events[n])
  }

  lemma {:induction false} Always(states: seq<State>, events: seq<Event>, n: nat)
    requires RunOf(states, events) && n <= |events|
    ensures n < |states| && Inv(states[n])
  {
    if n > 0 {
      hide Inv, Apply;
      Always(states, events, n - 1);
      ApplyKeeps(states[n - 1], events[n - 1]);
    }
  }

  /** In every interleaving at most one connection task is unfinished, and `_quic_waiters` is the
      number of callers suspended on a handshake. */
  lemma {:induction false} OneOwner(states: seq<State>, events: seq<Event>, n: nat)
    requires RunOf(states, events) && n <= |events|
    ensures forall j, k | 0 <= j < |states[n].conns| && 0 <= k < |states[n].conns| &&
                          !states[n].conns[j].phase.Done? && !states[n].conns[k].phase.Done? :: j == k
    ensures states[n].waiters == Count(states[n].callers)
  {
    hide Count, Fated, Marked, RunOf;
    Always(states, events, n);
  }

  /** A cancelled caller requests the cancellation of the connection task exactly when its handshake is
      the current one and pending, and no other caller is suspended on any handshake. */
  lemma {:induction false} CancelsAlone(st: State, i: nat)
    requires Inv(st) && i < |st.callers| && st.callers[i].Waiting?
    ensures var k := st.callers[i].k;
            var alone := forall j | 0 <= j < |st.callers| && j != i :: !st.callers[j].Waiting?;
            Apply(st, Cancel(i)).conns ==
            if st.handshake == Some(k) && st.conns[k].handshake.Pending? && alone
            then st.conns[k := Requested(st.conns[k])] else st.conns
  {
    hide Count, Fated, Marked;
    var k := st.callers[i].k;
    var alone := forall j | 0 <= j < |st.callers| && j != i :: !st.callers[j].Waiting?;
    if alone {
      NoneOther(st.callers, i);
    } else {
      var j :| 0 <= j < |st.callers| && j != i && st.callers[j].Waiting?;
      CountOne(st.callers, i, j);
    }
  }

  /** Without `close`, a cancellation aimed at another caller reaches only one that met a task whose
      cancellation had already been requested, whichever way it reaches it. */
  lemma {:induction false} OnlyLateCallersSuffer(states: seq<State>, events: seq<Event>, n: nat, i: nat)
    requires RunOf(states, events) && n <= |events| && !states[n].shut && i < |states[n].callers|
    requires states[n].callers[i].ForeignCancel?
    ensures states[n].callers[i].via.late
  {
    hide Count, Marked, Owned;
    Always(states, events, n);
    assert Fated(states[n].callers[i], states[n].conns, states[n].handshake, false);
  }

  /** Suspended on a doomed task, or gone without a connection. */
  predicate Hopeless(c: Caller) {
    match c
    case Waiting(k, late) => late
    case Closing(k, late) => late
    case Returned(k) => false
    case _ => true
  }

  /** A call or retry that meets an unfinished task whose cancellation was requested is late. */
  lemma {:induction false} EntersLate(st: State, i: nat)
    requires Inv(st) && !st.shut && i < |st.callers| && st.task.Some?
    requires st.conns[st.task.value].doomed && !st.conns[st.task.value].phase.Done?
    ensures Hopeless(Enter(st, i).callers[i])
  {
    hide Count;
  }

  lemma {:induction false} EnterFrame(st: State, j: nat, i: nat)
    requires InRange(st) && j < |st.callers| && i < |st.callers| && i != j
    ensures i < |Enter(st, j).callers| && Enter(st, j).callers[i] == st.callers[i]
  {
  }

  lemma {:induction false} WokenFrame(st: State, j: nat, i: nat)
    requires InRange(st) && j < |st.callers| && i < |st.callers| && i != j
    ensures i < |Woken(st, j).callers| && Woken(st, j).callers[i] == st.callers[i]
  {
    hide Enter;
    EnterFrame(st, j, i);
  }

  lemma {:induction false} CancelledFrame(st: State, j: nat, i: nat)
    requires InRange(st) && j < |st.callers| && i < |st.callers| && i != j
    ensures i < |CallerCancelled(st, j).callers| && CallerCancelled(st, j).callers[i] == st.callers[i]
  {
  }

  /** Only its own waking and cancellation move a caller. */
  lemma {:induction false} MovesAlone(st: State, e: Event, i: nat)
    requires InRange(st) && i < |st.callers| && e != Wake(i) && e != Cancel(i)
    ensures i < |Apply(st, e).callers| && Apply(st, e).callers[i] == st.callers[i]
  {
    hide Ran, Terminate, Enter, Woken, CallerCancelled;
    match e
    case Call => EnterFrame(st.(callers := st.callers + [Raised]), |st.callers|, i);
    case Wake(j) => if j < |st.callers| { WokenFrame(st, j, i); }
    case Cancel(j) => if j < |st.callers| { CancelledFrame(st, j, i); }
    case Run(k, ok) => if k < |st.conns| { RanFrame(st, k, ok); }
    case Terminated(k) => if k < |st.conns| { TerminateFrame(st, k); }
    case _ =>
  }

  lemma {:induction false} TerminateFrame(st: State, k: nat)
    requires k < |st.conns|
    ensures Terminate(st, k).callers == st.callers
  {
  }

  lemma {:induction false} HopelessWakes(st: State, i: nat)
    requires Inv(st) && i < |st.callers| && Hopeless(st.callers[i])
    ensures i < |Woken(st, i).callers| && Hopeless(Woken(st, i).callers[i])
  {
    hide Count, Enter;
    assert Fated(st.callers[i], st.conns, st.handshake, st.shut);
    if st.callers[i].Closing? {
      assert Marked(st.conns[st.callers[i].k]);
    }
  }

  lemma {:induction false} HopelessStep(st: State, e: Event, i: nat)
    requires Inv(st) && i < |st.callers| && Hopeless(st.callers[i])
    ensures i < |Apply(st, e).callers| && Hopeless(Apply(st, e).callers[i])
  {
    hide Count, Fated, Marked, Enter, Ran, Terminate, Woken;
    if e == Wake(i) {
      HopelessWakes(st, i);
    } else if e != Cancel(i) {
      MovesAlone(st, e, i);
    }
  }

  /** A late caller never returns with a connection, on any continuation. */
  lemma {:induction false} LateCallersGetNothing(states: seq<State>, events: seq<Event>, m: nat, n: nat, i: nat)
    requires RunOf(states, events) && m <= n <= |events|
    requires i < |states[m].callers| && Hopeless(states[m].callers[i])
    ensures i < |states[n].callers| && Hopeless(states[n].callers[i])
    decreases n
  {
    if m < n {
      hide Inv, Apply, Hopeless;
      LateCallersGetNothing(states, events, m, n - 1, i);
      Always(states, events, n - 1);
      HopelessStep(states[n - 1], events[n - 1], i);
    }
  }

  // ---- Who gets what --------------------------------------------------------------------------

  /** Caller i looks for a connection: it has just called, or the closing task it waited for is done. */
  predicate Looks(st: State, e: Event, i: nat)
    requires InRange(st)
  {
    || (e == Call && i == |st.callers|)
    || (e == Wake(i) && i < |st.callers| && st.callers[i].Closing? && st.conns[st.callers[i].k].phase == Done(false))
  }

  /** What it finds is the current handshake, unless that one's protocol is closed. */
  predicate Finds(st: State, k: nat, f: Future)
    requires InRange(st)
  {
    && st.handshake == Some(k) && st.conns[k].handshake == f
    && !(f.Result? && st.conns[k].closed)
  }

  /** Caller i is woken on handshake k, which is f. */
  predicate WokenOn(st: State, e: Event, i: nat, k: nat, f: Future)
    requires InRange(st)
  {
    && e == Wake(i) && i < |st.callers| && st.callers[i].Waiting? && st.callers[i].k == k
    && st.conns[k].handshake == f
  }

  /** A step gives caller i connection k exactly when the caller is woken on handshake k and it has a
      result, or finds it with a result and an open protocol. */
  lemma {:induction false} ReturnsExactly(st: State, e: Event, i: nat, k: nat)
    requires InRange(st) && i < |Apply(st, e).callers| && (i < |st.callers| ==> !st.callers[i].Returned?)
    ensures Apply(st, e).callers[i] == Returned(k) <==>
            WokenOn(st, e, i, k, Result) || (Looks(st, e, i) && Finds(st, k, Result))
  {
    StepOf(st, e, i);
  }

  /** It raises the handshake's error exactly when it meets one that has failed. */
  lemma {:induction false} RaisesExactly(st: State, e: Event, i: nat)
    requires InRange(st) && i < |Apply(st, e).callers| && (i < |st.callers| ==> !st.callers[i].Raised?)
    ensures Apply(st, e).callers[i] == Raised <==>
            exists k: nat :: WokenOn(st, e, i, k, Failed) || (Looks(st, e, i) && Finds(st, k, Failed))
  {
    StepOf(st, e, i);
    if Apply(st, e).callers[i] == Raised {
      if e == Call || st.callers[i].Closing? {
        assert Finds(st, st.handshake.value, Failed);
      } else {
        assert WokenOn(st, e, i, st.callers[i].k, Failed);
      }
    }
  }

  /** It is cancelled by another's cancellation exactly when it meets a cancelled handshake, or the closing
      task it waits for was cancelled; and by its own exactly while it is suspended. */
  lemma {:induction false} CancelledExactly(st: State, e: Event, i: nat)
    requires InRange(st) && i < |Apply(st, e).callers|
    ensures (i < |st.callers| ==> !st.callers[i].ForeignCancel?) ==>
              (Apply(st, e).callers[i].ForeignCancel? <==>
                 || (exists k: nat :: WokenOn(st, e, i, k, Cancelled) || (Looks(st, e, i) && Finds(st, k, Cancelled)))
                 || (e == Wake(i) && i < |st.callers| && st.callers[i].Closing?
                     && st.conns[st.callers[i].k].phase == Done(true)))
    ensures (i < |st.callers| ==> !st.callers[i].OwnCancel?) ==>
              (Apply(st, e).callers[i] == OwnCancel <==>
                 e == Cancel(i) && i < |st.callers| && (st.callers[i].Waiting? || st.callers[i].Closing?))
  {
    StepOf(st, e, i);
    if Apply(st, e).callers[i].ForeignCancel? && (i < |st.callers| ==> !st.callers[i].ForeignCancel?) {
      if e == Call || st.callers[i].Closing? {
        if e == Call || st.conns[st.callers[i].k].phase == Done(false) {
          assert Finds(st, st.handshake.value, Cancelled);
        }
      } else {
        assert WokenOn(st, e, i, st.callers[i].k, Cancelled);
      }
    }
  }

  /** Which step functions concern caller i. */
  lemma {:induction false} StepOf(st: State, e: Event, i: nat)
    requires InRange(st) && i < |Apply(st, e).callers|
    ensures i <= |st.callers|
    ensures i == |st.callers| ==> e == Call && Apply(st, e).callers[i] == EnteredAs(st)
    ensures i < |st.callers| && e == Wake(i) ==>
              Apply(st, e).callers[i] ==
              match st.callers[i]
              case Waiting(k, late) =>
                (match st.conns[k].handshake
                 case Pending => st.callers[i]
                 case Result => Returned(k)
                 case Failed => Raised
                 case Cancelled => ForeignCancel(Joined(late)))
              case Closing(k, late) =>
                if !st.conns[k].phase.Done? then st.callers[i]
                else if st.conns[k].phase.cancelled then ForeignCancel(ClosingTask(late))
                else EnteredAs(st)
              case c => c
    ensures i < |st.callers| && e == Cancel(i) ==>
              Apply(st, e).callers[i] ==
              if st.callers[i].Waiting? || st.callers[i].Closing? then OwnCancel else st.callers[i]
    ensures i < |st.callers| && e != Wake(i) && e != Cancel(i) ==> Apply(st, e).callers[i] == st.callers[i]
  {
    CallersGrow(st, e);
    if i < |st.callers| && e != Wake(i) && e != Cancel(i) { MovesAlone(st, e, i); }
    if i == |st.callers| { EnteredIs(st.(callers := st.callers + [Raised]), i); }
    if i < |st.callers| && e == Wake(i) { EnteredIs(st, i); }
  }

  lemma {:induction false} CallersGrow(st: State, e: Event)
    requires InRange(st)
    ensures |Apply(st, e).callers| == |st.callers| + if e == Call then 1 else 0
  {
    hide Ran, Terminate;
    match e
    case Run(k, ok) => if k < |st.conns| { RanFrame(st, k, ok); }
    case Terminated(k) => if k < |st.conns| { TerminateFrame(st, k); }
    case _ =>
  }

  /** What a look at the fields makes of a caller. */
  function EnteredAs(st: State): Caller
    requires InRange(st)
  {
    var spent := st.handshake.Some? &&
                 var c := st.conns[st.handshake.value]; c.handshake.Result? && c.closed;
    if st.handshake.None? || spent then
      if st.task.Some? && !st.conns[st.task.value].phase.Done? then
        Closing(st.task.value, st.conns[st.task.value].doomed)
      else Waiting(|st.conns|, false)
    else
      var k := st.handshake.value;
      match st.conns[k].handshake
      case Pending => Waiting(k, st.conns[k].doomed)
      case Result => Returned(k)
      case Failed => Raised
      case Cancelled => ForeignCancel(OldResult(st.conns[k].doomed))
  }

  lemma {:induction false} EnteredIs(st: State, i: nat)
    requires InRange(st) && i < |st.callers|
    ensures i < |Enter(st, i).callers| && Enter(st, i).callers[i] == EnteredAs(st)
  {
  }

  /** A pending handshake is settled exactly so: with a result when its task finds itself connected; with an
      error when entering or connecting fails or the connection is reported terminated; cancelled when the
      task's cancellation is delivered. A settled one stays. */
  lemma {:induction false} SettlesExactly(st: State, e: Event, k: nat)
    requires Inv(st) && k < |st.conns|
    ensures k < |Apply(st, e).conns|
    ensures var c, f := st.conns[k], Apply(st, e).conns[k].handshake;
            if !c.handshake.Pending? then f == c.handshake
            else
              && (f.Result? <==> e == Run(k, true) && !c.cancel && c.phase.Connecting?)
              && (f.Failed? <==> (e == Run(k, false) && !c.cancel && (c.phase.Entering? || c.phase.Connecting?))
                                 || (e == Terminated(k) && st.handshake == Some(k)))
              && (f.Cancelled? <==> e.Run? && e.k == k && c.cancel && (c.phase.Entering? || c.phase.Connecting?))
  {
    hide Count, Fated, Enter;
    assert Marked(st.conns[k]);
    ConnStep(st, e, k);
  }

  /** A protocol is closed exactly by its own end, by the end its task waited for, or by a cancellation
      delivered after it was entered. */
  lemma {:induction false} ClosesExactly(st: State, e: Event, k: nat)
    requires Inv(st) && k < |st.conns|
    ensures k < |Apply(st, e).conns|
    ensures var c := st.conns[k];
            Apply(st, e).conns[k].closed <==>
              c.closed || e == Dies(k)
              || (e.Run? && e.k == k && c.cancel && (c.phase.Connecting? || c.phase.Connected?))
              || (e == Run(k, true) && !c.cancel && c.phase.Connected?)
  {
    hide Count, Fated, Enter;
    assert Marked(st.conns[k]);
    ConnStep(st, e, k);
  }

  /** Which events change connection k, and how. */
  lemma {:induction false} ConnStep(st: State, e: Event, k: nat)
    requires Inv(st) && k < |st.conns|
    ensures k < |Apply(st, e).conns|
    ensures e.Run? && e.k == k ==> Apply(st, e).conns[k] == Ran(st, k, e.ok).conns[k]
    ensures e == Terminated(k) ==> Apply(st, e).conns[k] == Terminate(st, k).conns[k]
    ensures e == Dies(k) ==> Apply(st, e).conns[k] == st.conns[k].(closed := true)
    ensures !(e.Run? && e.k == k) && e != Terminated(k) && e != Dies(k) ==>
              var c, d := st.conns[k], Apply(st, e).conns[k];
              d == c || d == Requested(c)
  {
    hide Inv;
    Inside(st);
    match e
    case Call => hide Enter; EnterConns(st.(callers := st.callers + [Raised]), |st.callers|, k);
    case Wake(i) => if i < |st.callers| { hide Enter; EnterConns(st, i, k); }
    case Run(j, ok) => if j < |st.conns| && j != k { hide Ran; RanFrame(st, j, ok); }
    case _ =>
  }

  lemma {:induction false} EnterConns(st: State, i: nat, k: nat)
    requires InRange(st) && i < |st.callers| && k < |st.conns|
    ensures k < |Enter(st, i).conns| && Enter(st, i).conns[k] == st.conns[k]
  {
  }

  /** `close` leaves a cancellation pending for every connection task that is not done. */
  lemma {:induction false} CloseRequests(st: State)
    requires Inv(st)
    ensures forall k | 0 <= k < |Apply(st, Close).conns| && !Apply(st, Close).conns[k].phase.Done? ::
              Apply(st, Close).conns[k].cancel
  {
    hide Count, Fated, Marked;
  }

  /** A termination is forgotten with its handshake. */
  lemma {:induction false} TerminationForgets(st: State, k: nat)
    requires Inv(st) && k < |st.conns|
    ensures Apply(st, Terminated(k)).handshake == if st.handshake == Some(k) then None else st.handshake
  {
  }

  predicate Open(c: Conn) { c.phase.Connecting? || c.phase.Connected? }

  ghost predicate Holds(st: State) {
    && (st.protocol.Some? ==> st.protocol.value < |st.conns|)
    && forall k | 0 <= k < |st.conns| :: st.protocol == Some(k) <==> Open(st.conns[k])
  }

  /** On every run the owner keeps the protocol exactly while its task is inside it. */
  lemma {:induction false} ProtocolHeld(states: seq<State>, events: seq<Event>, n: nat)
    requires RunOf(states, events) && n <= |events|
    ensures n < |states| && Holds(states[n])
  {
    if n > 0 {
      hide Inv, Apply, Holds;
      ProtocolHeld(states, events, n - 1);
      Always(states, events, n - 1);
      HoldsOn(states[n - 1], events[n - 1]);
    } else {
      assert states[0] == INITIAL;
    }
  }

  lemma {:induction false} HoldsOn(st: State, e: Event)
    requires Inv(st) && Holds(st)
    ensures Holds(Apply(st, e))
  {
    Inside(st);
    match e
    case Call => hide Inv, Enter; EnterHolds(st.(callers := st.callers + [Raised]), |st.callers|);
    case Wake(i) => hide Inv, Woken; if i < |st.callers| { WokenHolds(st, i); }
    case Run(k, ok) => hide Apply; RunHolds(st, k, ok);
    case _ => hide Inv;
  }

  lemma {:induction false} RunHolds(st: State, k: nat, ok: bool)
    requires Inv(st) && Holds(st)
    ensures Holds(Apply(st, Run(k, ok)))
  {
    hide Count, Fated, Marked, Ran;
    if k < |st.conns| {
      assert st.conns[k].phase.Done? || st.task == Some(k);
      RanFrame(st, k, ok);
      RanHolds(st, k, ok);
    }
  }

  lemma {:induction false} RanHolds(st: State, k: nat, ok: bool)
    requires k < |st.conns| && (st.protocol == Some(k) <==> Open(st.conns[k]))
    ensures var t := Ran(st, k, ok);
            && k < |t.conns| && (t.protocol == Some(k) <==> Open(t.conns[k]))
            && (t.protocol == st.protocol || t.protocol == Some(k) || (st.protocol == Some(k) && t.protocol == None))
            && (t.protocol == Some(k) && st.protocol != Some(k) ==> st.conns[k].phase.Entering?)
  {
  }

  lemma {:induction false} WokenHolds(st: State, i: nat)
    requires InRange(st) && Holds(st) && i < |st.callers|
    ensures Holds(Woken(st, i))
  {
    hide Enter;
    EnterHolds(st, i);
  }

  lemma {:induction false} EnterHolds(st: State, i: nat)
    requires InRange(st) && Holds(st) && i < |st.callers|
    ensures Holds(Enter(st, i))
  {
  }

  // ---- When nothing goes wrong ----------------------------------------------------------------

  /** Calls, wake-ups, tasks whose awaits succeed, and protocols that die. */
  predicate Fine(e: Event) {
    e.Call? || e.Wake? || e.Dies? || (e.Run? && e.ok)
  }

  ghost predicate Smooth(st: State) {
    && Inv(st) && !st.shut
    && (forall k | 0 <= k < |st.conns| ::
          var c := st.conns[k];
          && !c.cancel && !c.doomed
          && (c.handshake == if c.phase.Created? || c.phase.Entering? || c.phase.Connecting? then Pending else Result))
    && (forall i | 0 <= i < |st.callers| ::
          st.callers[i].Waiting? || st.callers[i].Closing? || st.callers[i].Returned?)
  }

  lemma {:induction false} SmoothConns(st: State, e: Event, k: nat)
    requires Smooth(st) && Fine(e) && k < |Apply(st, e).conns|
    ensures var c := Apply(st, e).conns[k];
            && !c.cancel && !c.doomed
            && (c.handshake == if c.phase.Created? || c.phase.Entering? || c.phase.Connecting? then Pending else Result)
  {
    hide Inv;
    Inside(st);
    match e
    case Call => hide Enter; NewConns(st.(callers := st.callers + [Raised]), |st.callers|, k);
    case Wake(i) => if i < |st.callers| { hide Enter; NewConns(st, i, k); }
    case Run(j, ok) =>
      if j < |st.conns| && j != k { hide Ran; RanFrame(st, j, ok); }
    case Dies(_) =>
  }

  lemma {:induction false} NewConns(st: State, i: nat, k: nat)
    requires InRange(st) && i < |st.callers| && k < |Enter(st, i).conns|
    ensures Enter(st, i).conns[k] == if k < |st.conns| then st.conns[k] else Conn(Created, Pending, false, false, false)
  {
  }

  lemma {:induction false} SmoothCaller(st: State, e: Event, i: nat)
    requires Smooth(st) && Fine(e) && i < |Apply(st, e).callers|
    ensures var c := Apply(st, e).callers[i]; c.Waiting? || c.Closing? || c.Returned?
  {
    hide Count, Fated, Apply;
    StepOf(st, e, i);
    if i < |st.callers| && st.callers[i].Closing? {
      assert Marked(st.conns[st.callers[i].k]);
    }
  }

  lemma {:induction false} SmoothStep(st: State, e: Event)
    requires Smooth(st) && Fine(e)
    ensures Smooth(Apply(st, e))
  {
    hide Inv, Apply;
    Inside(st);
    FineShut(st, e);
    assert Inv(Apply(st, e)) by { ApplyKeeps(st, e); }
    forall k | 0 <= k < |Apply(st, e).conns|
      ensures var c := Apply(st, e).conns[k];
              && !c.cancel && !c.doomed
              && (c.handshake ==
                  if c.phase.Created? || c.phase.Entering? || c.phase.Connecting? then Pending else Result)
    {
      SmoothConns(st, e, k);
    }
    forall i | 0 <= i < |Apply(st, e).callers|
      ensures var c := Apply(st, e).callers[i]; c.Waiting? || c.Closing? || c.Returned?
    {
      SmoothCaller(st, e, i);
    }
  }

  lemma {:induction false} FineShut(st: State, e: Event)
    requires InRange(st) && Fine(e)
    ensures Apply(st, e).shut == st.shut
  {
    hide Ran;
    match e
    case Run(k, ok) => if k < |st.conns| { RanFrame(st, k, ok); }
    case _ =>
  }

  /** On runs in which nothing is cancelled, terminated or closed and no await fails, nobody ever raises or
      is cancelled. */
  lemma {:induction false} NobodyFails(states: seq<State>, events: seq<Event>, n: nat)
    requires RunOf(states, events) && n <= |events| && forall m | 0 <= m < n :: Fine(events[m])
    ensures n < |states| && Smooth(states[n])
    ensures forall i | 0 <= i < |states[n].callers| ::
              states[n].callers[i].Waiting? || states[n].callers[i].Closing? || states[n].callers[i].Returned?
  {
    if n > 0 {
      hide Inv, Apply;
      NobodyFails(states, events, n - 1);
      SmoothStep(states[n - 1], events[n - 1]);
    } else {
      assert states[0] == INITIAL;
    }
  }

  /** The steps a connection task still needs for its result. */
  function ToGo(c: Conn): nat {
    match c.phase
    case Created => 3
    case Entering => 2
    case Connecting => 1
    case _ => 0
  }

  function Steps(st: State, k: nat, n: nat): State
    requires InRange(st) && k < |st.conns|
    decreases n
  {
    if n == 0 then st
    else
      RanRange(st, k, true);
      Steps(Apply(st, Run(k, true)), k, n - 1)
  }

  lemma {:induction false} RanRange(st: State, k: nat, ok: bool)
    requires InRange(st) && k < |st.conns|
    ensures InRange(Apply(st, Run(k, ok))) && |Apply(st, Run(k, ok)).conns| == |st.conns|
  {
    hide Ran;
    RanFrame(st, k, ok);
    RanIds(st, k, ok);
  }

  lemma {:induction false} RanIds(st: State, k: nat, ok: bool)
    requires k < |st.conns|
    ensures Ran(st, k, ok).handshake in {None, st.handshake} && Ran(st, k, ok).task in {None, st.task}
  {
  }

  /** There, whoever waits for a handshake gets its connection: run the connection task to its result, then
      the caller. */
  lemma {:induction false} CallersAreServed(st: State, i: nat)
    requires Smooth(st) && i < |st.callers| && st.callers[i].Waiting?
    ensures var k := st.callers[i].k;
            && k < |st.conns| && ToGo(st.conns[k]) <= 3
            && var t := Steps(st, k, ToGo(st.conns[k]));
               InRange(t) && i < |Apply(t, Wake(i)).callers| && Apply(t, Wake(i)).callers[i] == Returned(k)
  {
    var k := st.callers[i].k;
    assert Fated(st.callers[i], st.conns, st.handshake, st.shut);
    var n := ToGo(st.conns[k]);
    Serving(st, k, n, i);
    hide Smooth, Fated, Count;
    var t := Steps(st, k, n);
    StepOf(t, Wake(i), i);
  }

  lemma {:induction false} Serving(st: State, k: nat, n: nat, i: nat)
    requires Smooth(st) && k < |st.conns| && n == ToGo(st.conns[k]) && i < |st.callers|
    ensures var t := Steps(st, k, n);
            && Smooth(t) && k < |t.conns| && t.conns[k].handshake.Result?
            && i < |t.callers| && t.callers[i] == st.callers[i]
    decreases n
  {
    hide Inv, Count, Fated;
    if n > 0 {
      Inside(st);
      var e := Run(k, true);
      var u := Apply(st, e);
      OneStepNearer(st, k);
      assert Smooth(u) by { hide Apply; SmoothStep(st, e); }
      MovesAlone(st, e, i);
      hide Apply, Smooth;
      Serving(u, k, n - 1, i);
    }
  }

  lemma {:induction false} Inside(st: State)
    requires Inv(st)
    ensures InRange(st)
  {
  }

  lemma {:induction false} OneStepNearer(st: State, k: nat)
    requires InRange(st) && k < |st.conns| && !st.conns[k].cancel && ToGo(st.conns[k]) > 0
    ensures var u := Apply(st, Run(k, true)); k < |u.conns| && ToGo(u.conns[k]) == ToGo(st.conns[k]) - 1
  {
  }

  // ---- Handshakes that nobody settles ---------------------------------------------------------

  /** Running a task leaves its handshake pending behind it exactly when it is cancelled before its
      first step. */
  lemma {:induction false} StrandsExactly(st: State, k: nat, ok: bool)
    requires Inv(st) && k < |st.conns| && st.conns[k].handshake.Pending? && !st.conns[k].phase.Done?
    ensures var c := Ran(st, k, ok).conns[k];
            c.handshake.Pending? && c.phase.Done? <==> st.conns[k].phase.Created? && st.conns[k].cancel
  {
    hide Count, Fated;
    assert Marked(st.conns[k]);
  }

  /** A task that ends forgets its handshake, unless it is cancelled before its first step or while leaving. */
  lemma {:induction false} ForgetsExactly(st: State, k: nat, ok: bool)
    requires Inv(st) && k < |st.conns| && !st.conns[k].phase.Done? && Ran(st, k, ok).conns[k].phase.Done?
    ensures Ran(st, k, ok).handshake == Some(k) <==>
            st.handshake == Some(k) && st.conns[k].cancel
            && (st.conns[k].phase.Created? || st.conns[k].phase.Exiting?)
  {
    hide Count, Fated, Marked;
  }

  function StepsLeft(p: Phase): nat {
    match p
    case Created => 5
    case Entering => 4
    case Connecting => 3
    case Connected => 2
    case Exiting(_) => 1
    case Done(_) => 0
  }

  /** Every step of a task that is not done brings it nearer to its end, by one if all goes well. */
  lemma {:induction false} TaskAdvances(st: State, k: nat, ok: bool)
    requires k < |st.conns| && !st.conns[k].phase.Done?
    ensures var d := StepsLeft(st.conns[k].phase) - StepsLeft(Ran(st, k, ok).conns[k].phase);
            d >= 1 && (ok && !st.conns[k].cancel ==> d == 1)
    ensures Ran(st, k, ok).conns[k].phase == Done(true) ==> st.conns[k].cancel || st.conns[k].phase == Exiting(true)
    ensures Ran(st, k, ok).conns[k].phase == Done(false) ==> !st.conns[k].cancel && st.conns[k].phase != Exiting(true)
  {
  }

  /** No task of the run so far was cancelled before its first step. */
  ghost predicate AllStarted(states: seq<State>, events: seq<Event>, n: nat)
    requires |states| == |events| + 1 && n <= |events|
  {
    forall m | 0 <= m < n && events[m].Run? && events[m].k < |states[m].conns| ::
      !(states[m].conns[events[m].k].phase.Created? && states[m].conns[events[m].k].cancel)
  }

  ghost predicate Settling(st: State) {
    forall k | 0 <= k < |st.conns| :: st.conns[k].handshake.Pending? ==> !st.conns[k].phase.Done?
  }

  /** Everything but running a task leaves phases alone and settles handshakes at most. */
  ghost predicate Mild(a: seq<Conn>, b: seq<Conn>) {
    && |a| <= |b|
    && (forall k | 0 <= k < |a| ::
          b[k].phase == a[k].phase && (b[k].handshake.Pending? ==> a[k].handshake.Pending?))
    && (forall k | |a| <= k < |b| :: b[k].phase.Created?)
  }

  lemma {:induction false} EnterMild(st: State, i: nat)
    requires InRange(st) && i < |st.callers|
    ensures Mild(st.conns, Enter(st, i).conns)
  {
  }

  lemma {:induction false} OthersMild(st: State, e: Event)
    requires InRange(st) && !e.Run?
    ensures Mild(st.conns, Apply(st, e).conns)
  {
    hide Enter, Ran;
    match e
    case Call => EnterMild(st.(callers := st.callers + [Raised]), |st.callers|);
    case Wake(i) => if i < |st.callers| { EnterMild(st, i); }
    case _ =>
  }

  lemma {:induction false} SettlingStep(st: State, e: Event)
    requires Inv(st) && Settling(st)
    requires e.Run? && e.k < |st.conns| ==> !(st.conns[e.k].phase.Created? && st.conns[e.k].cancel)
    ensures Settling(Apply(st, e))
  {
    hide Count, Fated, Marked, Ran, Enter;
    if !e.Run? {
      OthersMild(st, e);
    } else if e.k < |st.conns| {
      RanFrame(st, e.k, e.ok);
      RunSettles(st, e.k, e.ok);
    }
  }

  lemma {:induction false} RunSettles(st: State, k: nat, ok: bool)
    requires Inv(st) && Settling(st) && k < |st.conns| && !(st.conns[k].phase.Created? && st.conns[k].cancel)
    ensures k < |Ran(st, k, ok).conns|
    ensures var c := Ran(st, k, ok).conns[k]; c.handshake.Pending? ==> !c.phase.Done?
  {
    hide Count, Fated, Marked;
    if st.conns[k].handshake.Pending? { StrandsExactly(st, k, ok); }
  }

  /** Unless a task was cancelled before its first step, whoever is suspended on a pending handshake
      still has an unfinished task to settle it. */
  lemma {:induction false} HandshakeHasTask(states: seq<State>, events: seq<Event>, n: nat)
    requires RunOf(states, events) && n <= |events| && AllStarted(states, events, n)
    ensures n < |states|
    ensures forall i | 0 <= i < |states[n].callers| && states[n].callers[i].Waiting? ::
              var k := states[n].callers[i].k;
              k < |states[n].conns| && (states[n].conns[k].handshake.Pending? ==> !states[n].conns[k].phase.Done?)
  {
    hide Count, Marked;
    Always(states, events, n);
    AllSettling(states, events, n);
    forall i | 0 <= i < |states[n].callers| && states[n].callers[i].Waiting?
      ensures states[n].callers[i].k < |states[n].conns|
    {
      assert Fated(states[n].callers[i], states[n].conns, states[n].handshake, states[n].shut);
    }
  }

  lemma {:induction false} AllSettling(states: seq<State>, events: seq<Event>, n: nat)
    requires RunOf(states, events) && n <= |events| && AllStarted(states, events, n)
    ensures Settling(states[n])
  {
    if n > 0 {
      hide Inv, Apply, Settling;
      Always(states, events, n - 1);
      AllSettling(states, events, n - 1);
      SettlingStep(states[n - 1], events[n - 1]);
    } else {
      assert states[0] == INITIAL;
    }
  }

  /** The current handshake is pending and its task is done. */
  ghost predicate Stranded(st: State, k: nat) {
    st.handshake == Some(k) && k < |st.conns| && st.conns[k].handshake.Pending? && st.conns[k].phase.Done?
  }

  /** Suspended on handshake k, or cancelled there. */
  predicate Parked(c: Caller, k: nat) {
    c.OwnCancel? || (c.Waiting? && c.k == k)
  }

  lemma {:induction false} StrandedEnter(st: State, i: nat, k: nat)
    requires InRange(st) && i < |st.callers| && Stranded(st, k)
    ensures Stranded(Enter(st, i), k) && Enter(st, i).callers == st.callers[i := Waiting(k, st.conns[k].doomed)]
  {
  }

  lemma {:induction false} StrandedWoken(st: State, i: nat, k: nat)
    requires InRange(st) && i < |st.callers| && Stranded(st, k)
    ensures var t := Woken(st, i); Stranded(t, k) && |t.callers| == |st.callers|
    ensures Parked(st.callers[i], k) ==> Woken(st, i) == st
  {
    hide Enter;
    StrandedEnter(st, i, k);
  }

  lemma {:induction false} StrandedRun(st: State, j: nat, ok: bool, k: nat)
    requires Inv(st) && j < |st.conns| && Stranded(st, k)
    ensures Ran(st, j, ok) == st
  {
    hide Count, Fated;
    assert Marked(st.conns[j]) && st.task == Some(k);
    assert st.conns[j].phase.Done?;
  }

  lemma {:induction false} StrandedStep(st: State, e: Event, k: nat)
    requires Inv(st) && Stranded(st, k) && e != Terminated(k)
    ensures Stranded(Apply(st, e), k) && |st.callers| <= |Apply(st, e).callers|
    ensures forall i | 0 <= i < |Apply(st, e).callers| :: (i < |st.callers| ==> Parked(st.callers[i], k)) ==>
              Parked(Apply(st, e).callers[i], k)
  {
    hide Count, Fated, Marked, Enter, Ran, Woken;
    match e
    case Call => StrandedEnter(st.(callers := st.callers + [Raised]), |st.callers|, k);
    case Wake(i) =>
      if i < |st.callers| { StrandedWoken(st, i, k); }
      forall j | 0 <= j < |st.callers| && j != i
        ensures j < |Apply(st, e).callers| && Apply(st, e).callers[j] == st.callers[j]
      {
        MovesAlone(st, e, j);
      }
    case Run(j, ok) => if j < |st.conns| { StrandedRun(st, j, ok, k); }
    case _ =>
  }

  /** From there on, unless the connection is reported terminated, nobody who calls or waits for that
      handshake gets anything but its own cancellation. */
  lemma {:induction false} StrandedForGood(states: seq<State>, events: seq<Event>, m: nat, n: nat, k: nat)
    requires RunOf(states, events) && m <= n <= |events| && Stranded(states[m], k)
    requires forall p | m <= p < n :: events[p] != Terminated(k)
    ensures n < |states| && Stranded(states[n], k) && |states[m].callers| <= |states[n].callers|
    ensures forall i | 0 <= i < |states[n].callers| ::
              (i < |states[m].callers| ==> Parked(states[m].callers[i], k)) ==> Parked(states[n].callers[i], k)
    decreases n
  {
    if m < n {
      hide Inv, Apply, Parked, Stranded;
      StrandedForGood(states, events, m, n - 1, k);
      Always(states, events, n - 1);
      StrandedStep(states[n - 1], events[n - 1], k);
    }
  }

  /** It happens: `close` right after the first call, before the connection task has run. */
  lemma {:induction false} CloseStrands()
    ensures var a := Apply(INITIAL, Call);
            InRange(a) && InRange(Apply(a, Close)) && Stranded(Apply(Apply(a, Close), Run(0, true)), 0)
  {
    var a := Apply(INITIAL, Call);
    assert a == State(Some(0), Some(0), 1, None, [C0], [Waiting(0, false)], false);
    var b := Apply(a, Close);
    assert b == State(Some(0), Some(0), 1, None, [Requested(C0)], [Waiting(0, false)], true);
  }

  // ---- Foreign cancellations happen -----------------------------------------------------------

  // The first caller creates the connection and is cancelled. A second one joins between the request
  // and its delivery; or finds the cancelled handshake; or waits for the task that was cancelled.
  const C0: Conn := Conn(Created, Pending, false, false, false)
  const C1: Conn := Conn(Entering, Pending, false, false, false)
  const C2: Conn := Conn(Entering, Pending, true, true, false)
  const C3: Conn := Conn(Done(true), Cancelled, false, true, false)
  const JOINS: seq<State> := [
    INITIAL,
    State(Some(0), Some(0), 1, None, [C0], [Waiting(0, false)], false),
    State(Some(0), Some(0), 1, None, [C1], [Waiting(0, false)], false),
    State(Some(0), Some(0), 0, None, [C2], [OwnCancel], false),
    State(Some(0), Some(0), 1, None, [C2], [OwnCancel, Waiting(0, true)], false),
    State(None, None, 1, None, [C3], [OwnCancel, Waiting(0, true)], false),
    State(None, None, 0, None, [C3], [OwnCancel, ForeignCancel(Joined(true))], false)]
  const JOIN_EVENTS: seq<Event> := [Call, Run(0, true), Cancel(0), Call, Run(0, true), Wake(1)]

  const C4: Conn := Conn(Connecting, Pending, false, false, false)
  const C5: Conn := Conn(Connecting, Pending, true, true, false)
  const C6: Conn := Conn(Exiting(true), Cancelled, false, true, true)
  const C7: Conn := Conn(Done(true), Cancelled, false, true, true)
  const COMES_LATER: seq<State> := [
    JOINS[0], JOINS[1], JOINS[2],
    State(Some(0), Some(0), 1, Some(0), [C4], [Waiting(0, false)], false),
    State(Some(0), Some(0), 0, Some(0), [C5], [OwnCancel], false),
    State(Some(0), Some(0), 0, None, [C6], [OwnCancel], false),
    State(Some(0), Some(0), 0, None, [C6], [OwnCancel, ForeignCancel(OldResult(true))], false),
    State(None, Some(0), 0, None, [C6], [OwnCancel, ForeignCancel(OldResult(true))], false),
    State(None, Some(0), 0, None, [C6], [OwnCancel, ForeignCancel(OldResult(true)), Closing(0, true)], false),
    State(None, None, 0, None, [C7], [OwnCancel, ForeignCancel(OldResult(true)), Closing(0, true)], false),
    State(None, None, 0, None, [C7],
          [OwnCancel, ForeignCancel(OldResult(true)), ForeignCancel(ClosingTask(true))], false)]
  const LATER_EVENTS: seq<Event> := [
    Call, Run(0, true), Run(0, true), Cancel(0), Run(0, true), Call, Terminated(0), Call, Run(0, true), Wake(2)]

  lemma {:induction false} JoinBegins()
    ensures InRange(JOINS[0]) && Apply(JOINS[0], Call) == JOINS[1]
    ensures InRange(JOINS[1]) && Apply(JOINS[1], Run(0, true)) == JOINS[2]
    ensures InRange(JOINS[2]) && Apply(JOINS[2], Cancel(0)) == JOINS[3]
  {
  }

  lemma {:induction false} JoinEnds()
    ensures InRange(JOINS[3]) && Apply(JOINS[3], Call) == JOINS[4]
    ensures InRange(JOINS[4]) && Apply(JOINS[4], Run(0, true)) == JOINS[5]
    ensures InRange(JOINS[5]) && Apply(JOINS[5], Wake(1)) == JOINS[6]
  {
  }

  lemma {:induction false} LaterBegins()
    ensures InRange(COMES_LATER[2]) && Apply(COMES_LATER[2], Run(0, true)) == COMES_LATER[3]
    ensures InRange(COMES_LATER[3]) && Apply(COMES_LATER[3], Cancel(0)) == COMES_LATER[4]
    ensures InRange(COMES_LATER[4]) && Apply(COMES_LATER[4], Run(0, true)) == COMES_LATER[5]
    ensures InRange(COMES_LATER[5]) && Apply(COMES_LATER[5], Call) == COMES_LATER[6]
  {
  }

  lemma {:induction false} LaterEnds()
    ensures InRange(COMES_LATER[6]) && Apply(COMES_LATER[6], Terminated(0)) == COMES_LATER[7]
    ensures InRange(COMES_LATER[7]) && Apply(COMES_LATER[7], Call) == COMES_LATER[8]
    ensures InRange(COMES_LATER[8]) && Apply(COMES_LATER[8], Run(0, true)) == COMES_LATER[9]
    ensures InRange(COMES_LATER[9]) && Apply(COMES_LATER[9], Wake(2)) == COMES_LATER[10]
  {
  }

  /** Two runs, without `close`, in which nobody cancels the later callers and all three ways occur. */
  lemma {:induction false} ForeignCancellation()
    ensures RunOf(JOINS, JOIN_EVENTS) && Cancel(1) !in JOIN_EVENTS && Close !in JOIN_EVENTS
    ensures JOINS[6].callers[1] == ForeignCancel(Joined(true))
    ensures RunOf(COMES_LATER, LATER_EVENTS) && Close !in LATER_EVENTS
    ensures Cancel(1) !in LATER_EVENTS && Cancel(2) !in LATER_EVENTS
    ensures COMES_LATER[10].callers[1] == ForeignCancel(OldResult(true))
    ensures COMES_LATER[10].callers[2] == ForeignCancel(ClosingTask(true))
  {
    hide Apply, InRange;
    JoinBegins();
    JoinEnds();
    LaterBegins();
    LaterEnds();
  }

  // ---- The object -----------------------------------------------------------------------------

  /** The shared fields of `ProxyQUIC`, with the tasks, futures and callers they refer to. */
  class ProxyQUIC {
    var handshake: Option<nat>
    var task: Option<nat>
    var waiters: int
    var protocol: Option<nat>
    var conns: seq<Conn>
    var callers: seq<Caller>
    var shut: bool

    ghost function St(): State
      reads this
    {
      State(handshake, task, waiters, protocol, conns, callers, shut)
    }

    ghost predicate Valid()
      reads this
    {
      Inv(St())
    }

    constructor ()
      ensures Valid() && St() == INITIAL
    {
      handshake, task, waiters, protocol, conns, callers, shut := None, None, 0, None, [], [], false;
    }

    /** The retry loop for caller i, to its next suspension or exit. */
    method Retry(i: nat)
      requires Valid() && i < |callers| && !callers[i].Waiting?
      modifies this`handshake, this`task, this`waiters, this`conns, this`callers
      ensures Valid() && St() == Enter(old(St()), i)
    {
      EnterKeeps(St(), i);
      hide Count, Fated, Marked, Enter;
      while true
        invariant InRange(St()) && |callers| == |old(callers)|
        invariant Enter(St(), i) == Enter(old(St()), i)
        decreases handshake.Some?
      {
        var settled := Look(i);
        if settled {
          return;
        }
      }
    }

    /** One pass of the loop: false when the handshake belonged to a closed protocol. */
    method Look(i: nat) returns (settled: bool)
      requires InRange(St()) && i < |callers|
      modifies this`handshake, this`task, this`waiters, this`conns, this`callers
      ensures settled ==> St() == Enter(old(St()), i)
      ensures !settled ==> old(handshake).Some? && handshake == None && |callers| == |old(callers)|
      ensures !settled ==> InRange(St()) && Enter(St(), i) == Enter(old(St()), i)
    {
      settled := true;
      if handshake.None? {
        if task.Some? && !conns[task.value].phase.Done? {
          callers := callers[i := Closing(task.value, conns[task.value].doomed)];
          return;
        }
        var k := |conns|;
        handshake, task := Some(k), Some(k);
        conns := conns + [Conn(Created, Pending, false, false, false)];
        Await(i, k);
        return;
      }
      var k := handshake.value;
      match conns[k].handshake
      case Pending => Await(i, k);
      case Failed => callers := callers[i := Raised];
      case Cancelled => callers := callers[i := ForeignCancel(OldResult(conns[k].doomed))];
      case Result =>
        if conns[k].closed {
          handshake := None;
          settled := false;
        } else {
          callers := callers[i := Returned(k)];
        }
    }

    method Await(i: nat, k: nat)
      requires i < |callers| && k < |conns|
      modifies this`waiters, this`callers
      ensures callers == old(callers)[i := Waiting(k, conns[k].doomed)] && waiters == old(waiters) + 1
    {
      waiters := waiters + 1;
      callers := callers[i := Waiting(k, conns[k].doomed)];
    }

    method WaitForConnection() returns (i: nat)
      requires Valid()
      modifies this`handshake, this`task, this`waiters, this`conns, this`callers
      ensures Valid() && i == |old(callers)| && St() == Apply(old(St()), Call)
    {
      AddCaller(St());
      i := |callers|;
      callers := callers + [Raised];
      Retry(i);
    }

    /** Caller i runs again because what it awaited is done. */
    method WakeCaller(i: nat)
      requires Valid() && i < |callers|
      requires match callers[i]
               case Waiting(k, late) => k < |conns| && !conns[k].handshake.Pending?
               case Closing(k, late) => k < |conns| && conns[k].phase.Done?
               case _ => false
      modifies this`handshake, this`task, this`waiters, this`conns, this`callers
      ensures Valid() && St() == Apply(old(St()), Wake(i))
    {
      ApplyKeeps(St(), Wake(i));
      hide Count, Fated, Marked;
      match callers[i]
      case Waiting(k, late) =>
        var f := conns[k].handshake;
        var c := if f.Result? then Returned(k) else if f.Failed? then Raised else ForeignCancel(Joined(late));
        callers := callers[i := c];
        waiters := waiters - 1;
      case Closing(k, late) =>
        if conns[k].phase.cancelled {
          callers := callers[i := ForeignCancel(ClosingTask(late))];
        } else {
          Retry(i);
        }
    }

    /** `task.cancel()`. */
    method RequestTask(k: nat)
      requires k < |conns|
      modifies this`conns
      ensures conns == old(conns)[k := Requested(old(conns)[k])]
    {
      if conns[k].phase.Done? {
        assert conns[k := conns[k]] == conns;
      } else {
        conns := conns[k := conns[k].(cancel := true, doomed := true)];
      }
    }

    /** A `CancelledError` reaches caller i. */
    method CancelCaller(i: nat)
      requires Valid() && i < |callers| && (callers[i].Waiting? || callers[i].Closing?)
      modifies this`waiters, this`conns, this`callers
      ensures Valid() && St() == Apply(old(St()), Cancel(i))
    {
      ApplyKeeps(St(), Cancel(i));
      hide Count, Fated, Marked;
      if callers[i].Waiting? {
        var k := callers[i].k;
        if handshake == Some(k) && conns[k].handshake.Pending? && waiters == 1 && task.Some? {
          RequestTask(task.value);
        }
        waiters := waiters - 1;
      }
      callers := callers[i := OwnCancel];
    }

    method ConnectionTerminated(k: nat)
      requires Valid() && k < |conns|
      modifies this`handshake, this`conns
      ensures Valid() && St() == Apply(old(St()), Terminated(k))
    {
      ApplyKeeps(St(), Terminated(k));
      hide Count, Fated, Marked;
      if handshake == Some(k) {
        conns := conns[k := conns[k].(handshake := if conns[k].handshake.Pending? then Failed else conns[k].handshake)];
        handshake := None;
      }
    }

    /** The end of `finally`, after the context was left or when it was never entered. */
    method FinishTask(k: nat, cancelled: bool)
      requires k < |conns|
      modifies this`handshake, this`task, this`conns
      ensures St() == Finish(old(St()), k, cancelled)
    {
      if handshake == Some(k) {
        handshake := None;
      }
      if task == Some(k) {
        task := None;
      }
      conns := conns[k := conns[k].(phase := Done(cancelled))];
    }

    /** `finally`, up to the `await` in it if there is one. */
    method LeaveContext(k: nat, cancelled: bool, entered: bool)
      requires k < |conns|
      modifies this`handshake, this`task, this`protocol, this`conns
      ensures St() == Leave(old(St()), k, old(conns)[k], cancelled, entered)
    {
      if protocol == Some(k) {
        protocol := None;
      }
      conns := conns[k := conns[k].(phase := Exiting(cancelled))];
      if !entered {
        FinishTask(k, cancelled);
      }
    }

    method SettleHandshake(k: nat, f: Future)
      requires k < |conns|
      modifies this`conns
      ensures conns == old(conns)[k := old(conns)[k].(handshake := Settle(old(conns)[k].handshake, f))]
    {
      if conns[k].handshake.Pending? {
        conns := conns[k := conns[k].(handshake := f)];
      } else {
        assert conns[k := conns[k]] == conns;
      }
    }

    /** The pending cancellation is delivered to task k. */
    method RunCancelled(k: nat)
      requires k < |conns| && conns[k].cancel && !conns[k].phase.Done?
      modifies this`handshake, this`task, this`protocol, this`conns
      ensures St() == Ran(old(St()), k, false)
    {
      var c := conns[k];
      ghost var was := conns;
      if c.phase.Created? || c.phase.Exiting? {
        conns := conns[k := c.(cancel := false, phase := Done(true))];
      } else {
        conns := conns[k := c.(cancel := false, closed := c.closed || !c.phase.Entering?)];
        SettleHandshake(k, Cancelled);
        assert conns == was[k := conns[k]];
        LeaveContext(k, true, !c.phase.Entering?);
      }
    }

    /** What task k awaited has happened, or has failed. */
    method RunOn(k: nat, ok: bool)
      requires k < |conns| && !conns[k].cancel && !conns[k].phase.Done?
      modifies this`handshake, this`task, this`protocol, this`conns
      ensures St() == Ran(old(St()), k, ok)
    {
      var c := conns[k];
      ghost var was := conns;
      match c.phase
      case Created =>
        conns := conns[k := c.(phase := Entering)];
      case Entering =>
        if ok {
          protocol := Some(k);
          conns := conns[k := c.(phase := Connecting)];
        } else {
          SettleHandshake(k, Failed);
          LeaveContext(k, false, false);
        }
      case Connecting =>
        SettleHandshake(k, if ok then Result else Failed);
        if ok {
          conns := conns[k := conns[k].(phase := Connected)];
        } else {
          LeaveContext(k, false, true);
        }
      case Connected =>
        if ok {
          conns := conns[k := c.(closed := true)];
        } else {
          SettleHandshake(k, Failed);
        }
        LeaveContext(k, false, true);
      case Exiting(cancelled) => FinishTask(k, cancelled);
    }

    /** `_run_quic_connection`, from one suspension to the next. */
    method RunTask(k: nat, ok: bool)
      requires Valid() && k < |conns| && !conns[k].phase.Done?
      modifies this`handshake, this`task, this`protocol, this`conns
      ensures Valid() && St() == Apply(old(St()), Run(k, ok))
    {
      ApplyKeeps(St(), Run(k, ok));
      hide Count, Fated, Marked;
      if conns[k].cancel {
        RunCancelled(k);
      } else {
        RunOn(k, ok);
      }
    }

    /** `cancel_all` of the registry the connection task was created through, then the protocol or the
        task. Closing the protocol shows as `Dies` when the protocol reports it. */
    method CloseProxy()
      requires Valid()
      modifies this`conns, this`shut
      ensures Valid() && St() == Apply(old(St()), Close)
    {
      CloseKeeps(St());
      hide Count, Fated, Marked;
      shut := true;
      if task.Some? {
        RequestTask(task.value);
      }
      if protocol.None? && task.Some? {
        RequestTask(task.value);
        assert conns[task.value := conns[task.value]] == conns;
      }
    }
  }

  lemma {:induction false} AddCaller(st: State)
    requires Inv(st)
    ensures Inv(st.(callers := st.callers + [Raised]))
  {
    hide Count;
    CountAppend(st.callers, Raised);
  }
}
