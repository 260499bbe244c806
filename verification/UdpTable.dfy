/** The UDP associations of one proxy: `udpmap`, the least-recently-used order beside it and the
    connection count. A step is what runs between two `await` points: a datagram that needs an endpoint
    starts its creation, which ends later in any order, and the transport opens later still. */
module UdpTable {
  import opened ByteStrings

  const UDP_LIMIT: nat := 30

  type Addr = Bytes

  /** An `OrderedDict`: its keys in order, and its values. */
  datatype Ordered = Ordered(order: seq<Addr>, values: map<Addr, nat>)

  /** A protocol object has no transport yet, an open one, or a closed one. */
  datatype Phase = Fresh | Open | Shut

  /** One protocol object: its client, and whether `connection_lost` has been delivered. */
  datatype Prot = Prot(addr: Addr, phase: Phase, lost: bool)

  /** `opening` lists the clients of the creations under way. The rest records the run: every touch,
      failed creations, creations for a client that had got an association meanwhile, entries made by a
      protocol whose client had none any more, and entries added to a full table. */
  datatype State = State(
    udpmap: map<Addr, nat>, lru: Ordered, connections: int, prots: seq<Prot>, opening: seq<Addr>,
    touched: seq<Addr>, failed: nat, doubled: nat, revived: nat, over: nat)

  /** A datagram from a client; the end of creation j, with a protocol or a failure; the transport of
      protocol p opens; a datagram from its remote; its end. */
  datatype Event =
    | Send(addr: Addr)
    | Created(j: nat, ok: bool)
    | Made(p: nat)
    | Received(p: nat)
    | Lost(p: nat)

  const EMPTY: State := State(map[], Ordered([], map[]), 0, [], [], [], 0, 0, 0, 0)

  // ---- The ordered dictionary -----------------------------------------------------------------

  function IndexOf(order: seq<Addr>, a: Addr): (i: nat)
    requires a in order
    ensures i < |order| && order[i] == a
  {
    if order[0] == a then 0 else 1 + IndexOf(order[1..], a)
  }

  function Removed(order: seq<Addr>, a: Addr): seq<Addr> {
    if a in order then var i := IndexOf(order, a); order[..i] + order[i + 1..] else order
  }

  /** `d[a] = p` and `d.move_to_end(a)`. */
  function PutLast(d: Ordered, a: Addr, p: nat): Ordered {
    Ordered(Removed(d.order, a) + [a], d.values[a := p])
  }

  function Popped(d: Ordered, a: Addr): Ordered {
    Ordered(Removed(d.order, a), d.values - {a})
  }

  // ---- The operations -------------------------------------------------------------------------

  function Touch(st: State, a: Addr, p: nat): State {
    st.(udpmap := st.udpmap[a := p], lru := PutLast(st.lru, a, p), touched := st.touched + [a],
        over := if a !in st.udpmap && |st.lru.order| >= UDP_LIMIT then st.over + 1 else st.over)
  }

  function Discard(st: State, a: Addr): State {
    st.(lru := Popped(st.lru, a), udpmap := st.udpmap - {a},
        connections := if a in st.udpmap then st.connections - 1 else st.connections)
  }

  /** `transport.close()`, if there is a transport. */
  function Closed(prots: seq<Prot>, p: nat): seq<Prot> {
    if p < |prots| && prots[p].phase.Open? then prots[p := prots[p].(phase := Shut)] else prots
  }

  /** The eviction before a new association. */
  function Evict(st: State): State {
    if |st.lru.order| < UDP_LIMIT then st
    else
      var a := st.lru.order[0];
      var t := Discard(st, a);
      if a in st.udpmap then t.(prots := Closed(t.prots, st.udpmap[a])) else t
  }

  /** A datagram for a client without an association. */
  function Begin(st: State, a: Addr): State {
    var t := Evict(st.(connections := st.connections + 1));
    t.(opening := t.opening + [a])
  }

  /** The constructor of the protocol. */
  function Init(st: State, a: Addr): State {
    Touch(st.(prots := st.prots + [Prot(a, Fresh, false)],
              doubled := if a in st.udpmap then st.doubled + 1 else st.doubled), a, |st.prots|)
  }

  function Ended(st: State, j: nat, ok: bool): State
    requires j < |st.opening|
  {
    var t := st.(opening := st.opening[..j] + st.opening[j + 1..]);
    if ok then Init(t, st.opening[j]) else t.(failed := t.failed + 1)
  }

  /** A protocol touches its client, listed or not. */
  function TouchedBy(st: State, p: nat): State
    requires p < |st.prots|
  {
    var a := st.prots[p].addr;
    Touch(st.(revived := if a in st.udpmap then st.revived else st.revived + 1), a, p)
  }

  function Apply(st: State, e: Event): State {
    match e
    case Send(a) => if a in st.udpmap then Touch(st, a, st.udpmap[a]) else Begin(st, a)
    case Created(j, ok) => if j < |st.opening| then Ended(st, j, ok) else st
    case Made(p) =>
      if p < |st.prots| && st.prots[p].phase.Fresh? then
        TouchedBy(st.(prots := st.prots[p := st.prots[p].(phase := Open)]), p)
      else st
    case Received(p) => if p < |st.prots| && st.prots[p].phase.Open? then TouchedBy(st, p) else st
    case Lost(p) =>
      if p < |st.prots| && !st.prots[p].phase.Fresh? && !st.prots[p].lost then
        Discard(st, st.prots[p].addr).(prots := st.prots[p := st.prots[p].(phase := Shut, lost := true)])
      else st
  }

  // ---- What every run keeps -------------------------------------------------------------------

  /** The index of the last touch of a, or -1. */
  function LastTouch(touched: seq<Addr>, a: Addr): int {
    if touched == [] then -1
    else if touched[|touched| - 1] == a then |touched| - 1
    else LastTouch(touched[..|touched| - 1], a)
  }

  ghost predicate ByTouch(touched: seq<Addr>, order: seq<Addr>) {
    && (forall i | 0 <= i < |order| :: 0 <= LastTouch(touched, order[i]) < |touched|)
    && (forall i, j | 0 <= i < j < |order| :: LastTouch(touched, order[i]) < LastTouch(touched, order[j]))
  }

  ghost predicate Listed(st: State) {
    && st.udpmap == st.lru.values
    && (forall a :: a in st.lru.order <==> a in st.udpmap)
    && ByTouch(st.touched, st.lru.order)
  }

  /** The two tables agree, the order lists exactly their keys from the least to the most recently
      touched, and the count and the limit are off by exactly what the run recorded. */
  ghost predicate Inv(st: State) {
    && Listed(st)
    && st.connections == |st.lru.order| + |st.opening| + st.failed + st.doubled - st.revived
    && |st.lru.order| <= UDP_LIMIT + st.over
  }

  lemma {:induction false} NothingRemoved(order: seq<Addr>, a: Addr)
    requires a !in order
    ensures Removed(order, a) == order
  {
  }

  lemma {:induction false} RemovedLength(order: seq<Addr>, a: Addr)
    ensures |Removed(order, a)| == |order| - if a in order then 1 else 0
  {
  }

  lemma {:induction false} RemovedAt(order: seq<Addr>, a: Addr, j: nat)
    requires a in order && j < |order| - 1
    ensures |Removed(order, a)| == |order| - 1
    ensures Removed(order, a)[j] == order[if j < IndexOf(order, a) then j else j + 1]
  {
  }

  lemma {:induction false} RemovedKeeps(order: seq<Addr>, a: Addr, b: Addr)
    requires b in order && b != a
    ensures b in Removed(order, a)
  {
    hide Removed, IndexOf;
    if a in order {
      var i := IndexOf(order, a);
      var j :| 0 <= j < |order| && order[j] == b;
      RemovedAt(order, a, if j < i then j else j - 1);
    } else {
      NothingRemoved(order, a);
    }
  }

  lemma {:induction false} RemovedDrops(order: seq<Addr>, a: Addr, b: Addr)
    requires forall i, j | 0 <= i < j < |order| :: order[i] != order[j]
    requires b in Removed(order, a)
    ensures b in order && b != a
  {
    hide Removed, IndexOf;
    RemovedLength(order, a);
    if a in order {
      var r := Removed(order, a);
      var j :| 0 <= j < |r| && r[j] == b;
      RemovedAt(order, a, j);
    } else {
      NothingRemoved(order, a);
    }
  }

  lemma {:induction false} RemovedMembers(order: seq<Addr>, a: Addr)
    requires forall i, j | 0 <= i < j < |order| :: order[i] != order[j]
    ensures forall b :: b in Removed(order, a) <==> b in order && b != a
  {
    hide Removed;
    forall b
      ensures b in Removed(order, a) <==> b in order && b != a
    {
      if b in order && b != a { RemovedKeeps(order, a, b); }
      if b in Removed(order, a) { RemovedDrops(order, a, b); }
    }
  }

  lemma {:induction false} RemovedShape(touched: seq<Addr>, order: seq<Addr>, a: Addr)
    requires ByTouch(touched, order)
    ensures ByTouch(touched, Removed(order, a))
    ensures forall b :: b in Removed(order, a) <==> b in order && b != a
    ensures |Removed(order, a)| == |order| - if a in order then 1 else 0
  {
    hide LastTouch, Removed;
    RemovedMembers(order, a);
    RemovedLength(order, a);
    if a in order {
      var r := Removed(order, a);
      forall i | 0 <= i < |r|
        ensures 0 <= LastTouch(touched, r[i]) < |touched|
      {
        RemovedAt(order, a, i);
      }
      forall i, j | 0 <= i < j < |r|
        ensures LastTouch(touched, r[i]) < LastTouch(touched, r[j])
      {
        RemovedAt(order, a, i);
        RemovedAt(order, a, j);
      }
    } else {
      assert Removed(order, a) == order by { NothingRemoved(order, a); }
    }
  }

  lemma {:induction false} LastTouchSnoc(touched: seq<Addr>, a: Addr, b: Addr)
    ensures LastTouch(touched + [a], b) == if a == b then |touched| else LastTouch(touched, b)
  {
    assert (touched + [a])[..|touched|] == touched;
  }

  lemma {:induction false} TouchShape(touched: seq<Addr>, order: seq<Addr>, a: Addr)
    requires ByTouch(touched, order)
    ensures ByTouch(touched + [a], Removed(order, a) + [a])
  {
    hide LastTouch, Removed;
    RemovedShape(touched, order, a);
    var r := Removed(order, a);
    LastTouchSnoc(touched, a, a);
    forall i | 0 <= i < |r|
      ensures LastTouch(touched + [a], r[i]) == LastTouch(touched, r[i])
    {
      assert r[i] in r;
      LastTouchSnoc(touched, a, r[i]);
    }
  }

  lemma {:induction false} TouchKeeps(st: State, a: Addr, p: nat)
    requires Listed(st)
    ensures var t := Touch(st, a, p);
            Listed(t) && |t.lru.order| == |st.lru.order| + if a in st.udpmap then 0 else 1
  {
    hide LastTouch, Removed, ByTouch;
    RemovedShape(st.touched, st.lru.order, a);
    TouchShape(st.touched, st.lru.order, a);
  }

  lemma {:induction false} DiscardKeeps(st: State, a: Addr)
    requires Listed(st)
    ensures var t := Discard(st, a);
            Listed(t) && |t.lru.order| == |st.lru.order| - if a in st.udpmap then 1 else 0
  {
    hide LastTouch, Removed, ByTouch;
    RemovedShape(st.touched, st.lru.order, a);
  }

  /** What a datagram for an unlisted client does to table and count. */
  lemma {:induction false} BeginKeeps(st: State, a: Addr)
    requires Listed(st)
    ensures var t, n := Begin(st, a), |st.lru.order|;
            && Listed(t) && t.opening == st.opening + [a]
            && |t.lru.order| == (if n >= UDP_LIMIT then n - 1 else n)
            && t.connections == st.connections + (if n >= UDP_LIMIT then 0 else 1)
  {
    hide LastTouch, Removed, ByTouch, PutLast, Popped;
    if |st.lru.order| >= UDP_LIMIT {
      assert st.lru.order[0] in st.lru.order;
      DiscardKeeps(st.(connections := st.connections + 1), st.lru.order[0]);
    }
  }

  /** Entries that a step adds for a client without one. */
  predicate Adds(st: State, e: Event) {
    match e
    case Send(a) => false
    case Created(j, ok) => ok && j < |st.opening| && st.opening[j] !in st.udpmap
    case Made(p) => p < |st.prots| && st.prots[p].phase.Fresh? && st.prots[p].addr !in st.udpmap
    case Received(p) => p < |st.prots| && st.prots[p].phase.Open? && st.prots[p].addr !in st.udpmap
    case Lost(p) => false
  }

  lemma {:induction false} SizeStep(st: State, e: Event)
    requires Listed(st)
    ensures var n, t := |st.lru.order|, Apply(st, e);
            && Listed(t) && (if Adds(st, e) then |t.lru.order| == n + 1 else |t.lru.order| <= n)
            && t.over == st.over + if Adds(st, e) && n >= UDP_LIMIT then 1 else 0
  {
    hide LastTouch, Removed, ByTouch, PutLast, Popped, Begin;
    match e
    case Send(a) =>
      if a in st.udpmap { TouchKeeps(st, a, st.udpmap[a]); } else { BeginKeeps(st, a); BeginOver(st, a); }
    case Created(j, ok) =>
      if j < |st.opening| && ok {
        var a := st.opening[j];
        TouchKeeps(Before(st, j), a, |st.prots|);
      }
    case Made(p) =>
      if p < |st.prots| {
        TouchKeeps(st.(prots := st.prots[p := st.prots[p].(phase := Open)]), st.prots[p].addr, p);
      }
    case Received(p) =>
      if p < |st.prots| { TouchKeeps(st, st.prots[p].addr, p); }
    case Lost(p) =>
      if p < |st.prots| { DiscardKeeps(st, st.prots[p].addr); }
  }

  /** The state in which the constructor of creation j touches its client. */
  function Before(st: State, j: nat): State
    requires j < |st.opening|
  {
    var a := st.opening[j];
    st.(opening := st.opening[..j] + st.opening[j + 1..], prots := st.prots + [Prot(a, Fresh, false)],
        doubled := if a in st.udpmap then st.doubled + 1 else st.doubled)
  }

  lemma {:induction false} BeginOver(st: State, a: Addr)
    ensures Begin(st, a).over == st.over
  {
    hide Popped;
  }

  lemma {:induction false} CountStep(st: State, e: Event)
    requires Listed(st)
    ensures var t := Apply(st, e);
            t.connections - (|t.lru.order| + |t.opening| + t.failed + t.doubled - t.revived) ==
            st.connections - (|st.lru.order| + |st.opening| + st.failed + st.doubled - st.revived)
  {
    hide LastTouch, Removed, ByTouch, PutLast, Popped, Begin;
    match e
    case Send(a) =>
      if a in st.udpmap { TouchKeeps(st, a, st.udpmap[a]); } else { BeginKeeps(st, a); BeginCounts(st, a); }
    case Created(j, ok) =>
      if j < |st.opening| && ok { TouchKeeps(Before(st, j), st.opening[j], |st.prots|); }
    case Made(p) =>
      if p < |st.prots| {
        TouchKeeps(st.(prots := st.prots[p := st.prots[p].(phase := Open)]), st.prots[p].addr, p);
      }
    case Received(p) =>
      if p < |st.prots| { TouchKeeps(st, st.prots[p].addr, p); }
    case Lost(p) =>
      if p < |st.prots| { DiscardKeeps(st, st.prots[p].addr); }
  }

  lemma {:induction false} BeginCounts(st: State, a: Addr)
    ensures var t := Begin(st, a); t.failed == st.failed && t.doubled == st.doubled && t.revived == st.revived
  {
    hide Popped;
  }

  lemma {:induction false} ApplyKeeps(st: State, e: Event)
    requires Inv(st)
    ensures Inv(Apply(st, e))
  {
    hide Listed, Apply, Adds;
    SizeStep(st, e);
    CountStep(st, e);
  }

  function Execute(st: State, events: seq<Event>): State
    decreases |events|
  {
    if events == [] then st else Execute(Apply(st, events[0]), events[1..])
  }

  lemma {:induction false} Always(st: State, events: seq<Event>)
    requires Inv(st)
    ensures Inv(Execute(st, events))
    decreases |events|
  {
    hide Inv, Apply;
    if events != [] {
      ApplyKeeps(st, events[0]);
      Always(Apply(st, events[0]), events[1..]);
    }
  }

  lemma {:induction false} EmptyInv()
    ensures Inv(EMPTY)
  {
  }

  /** On every run the tables are equal as maps, and the count equals the associations exactly when
      creations under way, failed and doubled ones are as many as revived associations. */
  lemma {:induction false} TablesAgree(events: seq<Event>)
    ensures var st := Execute(EMPTY, events);
            && st.udpmap == st.lru.values && |st.lru.order| == |st.udpmap|
            && (st.connections == |st.udpmap| <==> |st.opening| + st.failed + st.doubled == st.revived)
  {
    hide Execute;
    EmptyInv();
    Always(EMPTY, events);
    OrderSize(Execute(EMPTY, events));
  }

  lemma {:induction false} OrderSize(st: State)
    requires Listed(st)
    ensures |st.lru.order| == |st.udpmap|
  {
    hide LastTouch;
    var keys := set a | a in st.lru.order;
    assert keys == st.udpmap.Keys;
    DistinctSize(st.lru.order);
  }

  lemma {:induction false} DistinctSize(order: seq<Addr>)
    requires forall i, j | 0 <= i < j < |order| :: order[i] != order[j]
    ensures |set a | a in order| == |order|
    decreases |order|
  {
    if order == [] {
      assert (set a | a in order) == {};
    } else {
      var n := |order| - 1;
      DistinctSize(order[..n]);
      assert (set a | a in order) == (set a | a in order[..n]) + {order[n]};
      assert order[n] !in order[..n];
    }
  }

  /** What makes room is the least recently touched client. */
  lemma {:induction false} EvictsOldest(st: State, a: Addr, b: Addr)
    requires Inv(st) && |st.lru.order| >= UDP_LIMIT
    requires a in st.udpmap && a !in Evict(st).udpmap && b in st.udpmap && b != a
    ensures LastTouch(st.touched, a) < LastTouch(st.touched, b)
    ensures Evict(st).udpmap == st.udpmap - {a}
  {
    hide LastTouch, Removed;
    assert a == st.lru.order[0];
    var j :| 0 <= j < |st.lru.order| && st.lru.order[j] == b;
  }

  // ---- What a run has recorded ----------------------------------------------------------------

  /** The client an event concerns most recently: one that has an association and sends, one whose protocol
      is constructed, opened or answered. */
  function Touched(st: State, e: Event): Option<Addr> {
    match e
    case Send(a) => if a in st.udpmap then Some(a) else None
    case Created(j, ok) => if j < |st.opening| && ok then Some(st.opening[j]) else None
    case Made(p) => if p < |st.prots| && st.prots[p].phase.Fresh? then Some(st.prots[p].addr) else None
    case Received(p) => if p < |st.prots| && st.prots[p].phase.Open? then Some(st.prots[p].addr) else None
    case Lost(p) => None
  }

  datatype Kind = Failing | Doubling | Reviving | Overfilling

  predicate Happens(kind: Kind, st: State, e: Event) {
    match kind
    case Failing => e.Created? && !e.ok && e.j < |st.opening|
    case Doubling => e.Created? && e.ok && e.j < |st.opening| && st.opening[e.j] in st.udpmap
    case Reviving => (e.Made? || e.Received?) && Adds(st, e)
    case Overfilling => Adds(st, e) && |st.udpmap| >= UDP_LIMIT
  }

  function Touches(st: State, events: seq<Event>): seq<Addr>
    decreases |events|
  {
    if events == [] then []
    else
      (match Touched(st, events[0]) case None => [] case Some(a) => [a]) +
      Touches(Apply(st, events[0]), events[1..])
  }

  function Times(kind: Kind, st: State, events: seq<Event>): nat
    decreases |events|
  {
    if events == [] then 0
    else (if Happens(kind, st, events[0]) then 1 else 0) + Times(kind, Apply(st, events[0]), events[1..])
  }

  function Recorded(kind: Kind, st: State): nat {
    match kind
    case Failing => st.failed
    case Doubling => st.doubled
    case Reviving => st.revived
    case Overfilling => st.over
  }

  lemma {:induction false} RecordStep(kind: Kind, st: State, e: Event)
    requires Inv(st)
    ensures var t := Apply(st, e);
            && t.touched == st.touched + (match Touched(st, e) case None => [] case Some(a) => [a])
            && Recorded(kind, t) == Recorded(kind, st) + if Happens(kind, st, e) then 1 else 0
  {
    OrderSize(st);
    hide LastTouch, Removed, ByTouch, PutLast, Popped;
    assert forall s: seq<Addr> :: s + [] == s;
  }

  /** The touches and counts of a run are those of its events. */
  lemma {:induction false} RecordsExactly(kind: Kind, st: State, events: seq<Event>)
    requires Inv(st)
    ensures Execute(st, events).touched == st.touched + Touches(st, events)
    ensures Recorded(kind, Execute(st, events)) == Recorded(kind, st) + Times(kind, st, events)
    decreases |events|
  {
    hide Inv, Apply, Touched, Happens, Recorded;
    if events != [] {
      var t := Apply(st, events[0]);
      RecordStep(kind, st, events[0]);
      ApplyKeeps(st, events[0]);
      RecordsExactly(kind, t, events[1..]);
    }
  }

  /** Table, count and limit of a run from nothing but its events. */
  lemma {:induction false} CountsFromEvents(events: seq<Event>)
    ensures var st := Execute(EMPTY, events);
            && st.connections == |st.udpmap| + |st.opening| + Times(Failing, EMPTY, events)
                                 + Times(Doubling, EMPTY, events) - Times(Reviving, EMPTY, events)
            && |st.udpmap| <= 30 + Times(Overfilling, EMPTY, events)
            && st.touched == Touches(EMPTY, events)
  {
    hide Execute, Times, Touches;
    EmptyInv();
    Always(EMPTY, events);
    OrderSize(Execute(EMPTY, events));
    RecordsExactly(Failing, EMPTY, events);
    RecordsExactly(Doubling, EMPTY, events);
    RecordsExactly(Reviving, EMPTY, events);
    RecordsExactly(Overfilling, EMPTY, events);
    assert [] + Touches(EMPTY, events) == Touches(EMPTY, events);
  }

  /** The protocol an event enters for the client it touches. */
  function Enters(st: State, e: Event): nat
    requires Touched(st, e).Some?
  {
    match e
    case Send(a) => st.udpmap[a]
    case Created(j, ok) => |st.prots|
    case Made(p) => p
    case Received(p) => p
  }

  /** Client b loses its association: it is the least recently touched one of a full table when an unlisted
      client sends, or one of its protocols, open or closed, is lost for the first time. */
  predicate Drops(st: State, e: Event, b: Addr) {
    match e
    case Send(a) => a !in st.udpmap && |st.udpmap| >= UDP_LIMIT && st.lru.order != [] && st.lru.order[0] == b
    case Lost(p) => p < |st.prots| && !st.prots[p].phase.Fresh? && !st.prots[p].lost && st.prots[p].addr == b
    case _ => false
  }

  /** A step gives the touched client, as the most recent one, the protocol of the event, takes the dropped
      client's entry and leaves every other entry alone. */
  lemma {:induction false} EntriesExactly(st: State, e: Event, b: Addr, q: nat)
    requires Inv(st)
    ensures var t := Apply(st, e);
            && (b in t.udpmap && t.udpmap[b] == q <==>
                  if Touched(st, e) == Some(b) then q == Enters(st, e)
                  else b in st.udpmap && st.udpmap[b] == q && !Drops(st, e, b))
            && (Touched(st, e) == Some(b) ==> t.lru.order != [] && t.lru.order[|t.lru.order| - 1] == b)
  {
    OrderSize(st);
    hide Listed, Apply, Enters;
    if Touched(st, e).Some? {
      TouchedEntries(st, e);
      if Touched(st, e) == Some(b) { LastInOrder(st, e, b); }
    } else if e.Send? {
      SentEntries(st, e.addr);
    } else {
      OtherEntries(st, e);
    }
  }

  lemma {:induction false} LastInOrder(st: State, e: Event, b: Addr)
    requires Touched(st, e) == Some(b)
    ensures var o := Apply(st, e).lru.order; o != [] && o[|o| - 1] == b
  {
    hide Removed, Begin;
  }

  lemma {:induction false} TouchedEntries(st: State, e: Event)
    requires Touched(st, e).Some?
    ensures Apply(st, e).udpmap == st.udpmap[Touched(st, e).value := Enters(st, e)]
  {
    hide PutLast, Begin, Discard;
  }

  lemma {:induction false} SentEntries(st: State, a: Addr)
    requires Listed(st) && |st.lru.order| == |st.udpmap| && a !in st.udpmap
    ensures Apply(st, Send(a)).udpmap ==
            if |st.udpmap| >= UDP_LIMIT && st.lru.order != [] then st.udpmap - {st.lru.order[0]} else st.udpmap
  {
    hide Listed, Begin;
    BeginEntries(st, a);
    if |st.lru.order| >= UDP_LIMIT { BeginMap(st, a); }
  }

  lemma {:induction false} OtherEntries(st: State, e: Event)
    requires Touched(st, e).None? && !e.Send?
    ensures Apply(st, e).udpmap == if e.Lost? && e.p < |st.prots| && Drops(st, e, st.prots[e.p].addr)
                                   then st.udpmap - {st.prots[e.p].addr} else st.udpmap
  {
    hide PutLast, Popped, Begin;
  }

  lemma {:induction false} BeginEntries(st: State, a: Addr)
    ensures |st.lru.order| < UDP_LIMIT ==> Begin(st, a).udpmap == st.udpmap
  {
    hide Popped;
  }

  /** Transports open and close exactly so: the first time when they are made, and when they are lost or
      their client is evicted while they are open; and protocols come only from creations. */
  lemma {:induction false} TransportsExactly(st: State, e: Event, q: nat)
    requires Inv(st)
    ensures var t := Apply(st, e);
            && |t.prots| == |st.prots| + (if e.Created? && e.ok && e.j < |st.opening| then 1 else 0)
            && (q == |st.prots| < |t.prots| ==> t.prots[q] == Prot(st.opening[e.j], Fresh, false))
            && (q < |st.prots| ==>
                  && t.prots[q].addr == st.prots[q].addr
                  && (t.prots[q].lost <==> st.prots[q].lost || (e == Lost(q) && !st.prots[q].phase.Fresh?))
                  && (t.prots[q].phase.Fresh? <==> st.prots[q].phase.Fresh? && e != Made(q))
                  && (t.prots[q].phase.Shut? <==>
                        || st.prots[q].phase.Shut?
                        || (st.prots[q].phase.Open? && e == Lost(q) && !st.prots[q].lost)
                        || (st.prots[q].phase.Open? && e.Send? && exists b ::
                              Drops(st, e, b) && b in st.udpmap && st.udpmap[b] == q)))
  {
    hide Listed, Apply;
    if e.Send? && e.addr !in st.udpmap {
      OrderSize(st);
      SentProts(st, e.addr);
      if |st.udpmap| >= UDP_LIMIT { assert Drops(st, e, st.lru.order[0]); }
    } else {
      ProtsAfter(st, e);
    }
  }

  lemma {:induction false} SentProts(st: State, a: Addr)
    requires Listed(st) && a !in st.udpmap
    ensures Apply(st, Send(a)).prots ==
            if |st.lru.order| >= UDP_LIMIT && st.lru.order[0] in st.udpmap
            then Closed(st.prots, st.udpmap[st.lru.order[0]]) else st.prots
    ensures |st.lru.order| >= UDP_LIMIT ==> st.lru.order[0] in st.udpmap
  {
    hide Listed, Begin;
    BeginPrevious(st, a);
    if |st.lru.order| >= UDP_LIMIT { BeginMap(st, a); }
  }

  lemma {:induction false} ProtsAfter(st: State, e: Event)
    requires !e.Send? || e.addr in st.udpmap
    ensures Apply(st, e).prots ==
            match e
            case Send(_) => st.prots
            case Created(j, ok) =>
              if ok && j < |st.opening| then st.prots + [Prot(st.opening[j], Fresh, false)] else st.prots
            case Made(p) =>
              if p < |st.prots| && st.prots[p].phase.Fresh?
              then st.prots[p := st.prots[p].(phase := Open)] else st.prots
            case Received(_) => st.prots
            case Lost(p) =>
              if p < |st.prots| && !st.prots[p].phase.Fresh? && !st.prots[p].lost
              then st.prots[p := st.prots[p].(phase := Shut, lost := true)] else st.prots
  {
    hide PutLast, Popped, Begin;
  }

  lemma {:induction false} BeginPrevious(st: State, a: Addr)
    ensures |st.lru.order| < UDP_LIMIT ==> Begin(st, a).prots == st.prots
  {
    hide Popped;
  }

  /** Creations under way are exactly the unlisted clients that sent, in order, less those that ended. */
  lemma {:induction false} OpeningExactly(st: State, e: Event)
    ensures Apply(st, e).opening ==
            if e.Send? && e.addr !in st.udpmap then st.opening + [e.addr]
            else if e.Created? && e.j < |st.opening| then st.opening[..e.j] + st.opening[e.j + 1..]
            else st.opening
  {
    hide PutLast, Popped;
  }

  // ---- The limit ------------------------------------------------------------------------------

  /** A step takes the table over its limit exactly when it adds an entry to a full table. */
  lemma {:induction false} OverLimit(st: State, e: Event)
    requires Inv(st)
    ensures var n := |st.udpmap|;
            |Apply(st, e).udpmap| > (if n > UDP_LIMIT then n else UDP_LIMIT) <==> Adds(st, e) && n >= UDP_LIMIT
  {
    hide Listed, Apply, Adds;
    SizeStep(st, e);
    OrderSize(st);
    OrderSize(Apply(st, e));
  }

  /** On every run the table is over its limit by at most the number of such steps. */
  lemma {:induction false} WithinLimit(events: seq<Event>)
    ensures var st := Execute(EMPTY, events); |st.udpmap| <= UDP_LIMIT + st.over
  {
    hide Execute;
    EmptyInv();
    Always(EMPTY, events);
    OrderSize(Execute(EMPTY, events));
  }

  function Sends(addrs: seq<Addr>): seq<Event>
    decreases |addrs|
  {
    if addrs == [] then [] else [Send(addrs[0])] + Sends(addrs[1..])
  }

  function Creations(n: nat): seq<Event> {
    if n == 0 then [] else [Created(0, true)] + Creations(n - 1)
  }

  lemma {:induction false} ExecuteSplit(st: State, a: seq<Event>, b: seq<Event>)
    ensures Execute(st, a + b) == Execute(Execute(st, a), b)
    decreases |a|
  {
    hide Apply;
    if a == [] {
      assert a + b == b;
    } else {
      assert (a + b)[0] == a[0] && (a + b)[1..] == a[1..] + b;
      ExecuteSplit(Apply(st, a[0]), a[1..], b);
    }
  }

  lemma {:induction false} SendsStart(st: State, addrs: seq<Addr>)
    requires st.udpmap == map[] && st.lru.order == []
    ensures var t := Execute(st, Sends(addrs));
            && t.udpmap == map[] && t.lru == st.lru && t.opening == st.opening + addrs
            && t.connections == st.connections + |addrs| && t.prots == st.prots
    decreases |addrs|
  {
    if addrs == [] {
      assert st.opening + addrs == st.opening;
    } else {
      var events := Sends(addrs);
      assert events[0] == Send(addrs[0]) && events[1..] == Sends(addrs[1..]);
      var t := Apply(st, events[0]);
      SendsStart(t, addrs[1..]);
      assert st.opening + [addrs[0]] + addrs[1..] == st.opening + addrs;
    }
  }

  lemma {:induction false} CreationsEnd(st: State, addrs: seq<Addr>)
    requires Listed(st) && st.opening == addrs && forall i, j | 0 <= i < j < |addrs| :: addrs[i] != addrs[j]
    requires forall a | a in addrs :: a !in st.udpmap
    ensures var t := Execute(st, Creations(|addrs|));
            && Listed(t) && |t.lru.order| == |st.lru.order| + |addrs|
            && t.udpmap.Keys == st.udpmap.Keys + (set a | a in addrs)
    decreases |addrs|
  {
    hide Listed, Apply, Execute, Adds, Creations;
    if addrs == [] {
      NoCreations(st);
      assert (set a | a in addrs) == {};
    } else {
      var e, rest := Created(0, true), addrs[1..];
      assert addrs == [addrs[0]] + rest;
      CreationsFirst(st, |addrs|);
      AddsFirst(st);
      SizeStep(st, e);
      FirstCreation(st);
      CreationsEnd(Apply(st, e), rest);
      HeadAndRest(addrs[0], rest);
    }
  }

  lemma {:induction false} NoCreations(st: State)
    ensures Execute(st, Creations(0)) == st
  {
  }

  lemma {:induction false} CreationsFirst(st: State, n: nat)
    requires n > 0
    ensures Execute(st, Creations(n)) == Execute(Apply(st, Created(0, true)), Creations(n - 1))
  {
    hide Apply;
    assert Creations(n)[1..] == Creations(n - 1);
  }

  lemma {:induction false} AddsFirst(st: State)
    requires st.opening != [] && st.opening[0] !in st.udpmap
    ensures Adds(st, Created(0, true))
  {
  }

  lemma {:induction false} HeadAndRest(x: Addr, rest: seq<Addr>)
    ensures (set a | a in [x] + rest) == {x} + set a | a in rest
  {
  }

  lemma {:induction false} FirstCreation(st: State)
    requires st.opening != []
    ensures var t, a := Apply(st, Created(0, true)), st.opening[0];
            && t.opening == st.opening[1..] && t.udpmap == st.udpmap[a := |st.prots|]
            && t.connections == st.connections && t.prots == st.prots + [Prot(a, Fresh, false)]
  {
    hide PutLast;
    assert st.opening[..0] + st.opening[1..] == st.opening[1..];
  }

  /** Room is made when a creation starts, not when it ends: any number of clients whose first datagrams
      come before any endpoint is there all get in. */
  lemma {:induction false} BurstGetsIn(addrs: seq<Addr>)
    requires forall i, j | 0 <= i < j < |addrs| :: addrs[i] != addrs[j]
    ensures var st := Execute(EMPTY, Sends(addrs) + Creations(|addrs|));
            st.udpmap.Keys == (set a | a in addrs) && |st.udpmap| == |addrs|
  {
    hide Execute, Listed;
    ExecuteSplit(EMPTY, Sends(addrs), Creations(|addrs|));
    SendsStart(EMPTY, addrs);
    var s := Execute(EMPTY, Sends(addrs));
    assert [] + addrs == addrs;
    EmptyListed(s);
    CreationsEnd(s, addrs);
    OrderSize(Execute(s, Creations(|addrs|)));
  }

  lemma {:induction false} EmptyListed(st: State)
    requires st.udpmap == map[] && st.lru == Ordered([], map[])
    ensures Listed(st)
  {
  }

  // ---- Creations that overtake each other -----------------------------------------------------

  /** The end of a creation takes the table entry of another protocol exactly when its client has got one
      since; that protocol keeps its transport. */
  lemma {:induction false} DoublesExactly(st: State, j: nat, q: nat)
    requires Inv(st) && j < |st.opening| && q < |st.prots|
    ensures var a, t := st.opening[j], Apply(st, Created(j, true));
            && (a in st.udpmap && st.udpmap[a] == q <==>
                  exists b :: b in st.udpmap && st.udpmap[b] == q && b in t.udpmap && t.udpmap[b] != q)
            && t.prots[..|st.prots|] == st.prots && a in t.udpmap && t.udpmap[a] == |st.prots|
  {
    hide LastTouch, Removed, ByTouch, PutLast;
    var a, t := st.opening[j], Apply(st, Created(j, true));
    assert t.udpmap == st.udpmap[a := |st.prots|] && t.prots == st.prots + [Prot(a, Fresh, false)];
    if a in st.udpmap && st.udpmap[a] == q {
      assert t.udpmap[a] != q;
    }
  }

  /** Two datagrams of one client before its endpoint is there: two protocols and a count of two for one
      association. */
  lemma {:induction false} TwiceAtOnce(a: Addr)
    ensures var st := Execute(EMPTY, Sends([a, a]) + Creations(2));
            && st.udpmap == map[a := 1] && st.connections == 2
            && st.prots == [Prot(a, Fresh, false), Prot(a, Fresh, false)]
  {
    hide Apply, Execute, Sends, Creations;
    SendsStart(EMPTY, [a, a]);
    ExecuteSplit(EMPTY, Sends([a, a]), Creations(2));
    var s := Execute(EMPTY, Sends([a, a]));
    assert s.opening == [a, a] && [a, a][1..] == [a];
    var t := Apply(s, Created(0, true));
    FirstCreation(s);
    FirstCreation(t);
    CreationsFirst(s, 2);
    CreationsFirst(t, 1);
    NoCreations(Apply(t, Created(0, true)));
  }

  /** Evicting an association whose transport is not open yet is undone when it opens. */
  lemma {:induction false} EvictionUndone(st: State, b: Addr)
    requires Inv(st) && |st.lru.order| >= UDP_LIMIT && b !in st.udpmap
    requires st.lru.order[0] in st.udpmap && st.udpmap[st.lru.order[0]] < |st.prots|
    requires st.prots[st.udpmap[st.lru.order[0]]] == Prot(st.lru.order[0], Fresh, false)
    ensures var a := st.lru.order[0];
            var p := st.udpmap[a];
            var s := Apply(st, Send(b));
            var t := Apply(s, Made(p));
            a !in s.udpmap && t.udpmap == s.udpmap[a := p] && t.revived == st.revived + 1
  {
    hide LastTouch, Removed, ByTouch, PutLast, Popped;
  }

  // ---- Prompt runs ----------------------------------------------------------------------------

  /** Endpoints can be created, one at a time and with their transport before the next one, and a client
      that opens an association has no earlier one whose `connection_lost` is outstanding. */
  ghost predicate Prompt(st: State, e: Event) {
    match e
    case Send(a) =>
      a !in st.udpmap ==>
        && st.opening == []
        && (forall p | 0 <= p < |st.prots| :: !st.prots[p].phase.Fresh?)
        && (forall p | 0 <= p < |st.prots| && st.prots[p].addr == a :: st.prots[p].lost)
    case Created(j, ok) => ok
    case _ => true
  }

  ghost predicate PromptRun(st: State, events: seq<Event>)
    decreases |events|
  {
    events != [] ==> Prompt(st, events[0]) && PromptRun(Apply(st, events[0]), events[1..])
  }

  /** The table holds exactly the protocols that are not closed. */
  ghost predicate Holds(st: State) {
    && (forall a | a in st.udpmap ::
          && st.udpmap[a] < |st.prots|
          && var q := st.prots[st.udpmap[a]]; q.addr == a && !q.phase.Shut? && !q.lost)
    && (forall p | 0 <= p < |st.prots| && !st.prots[p].phase.Shut? ::
          st.prots[p].addr in st.udpmap && st.udpmap[st.prots[p].addr] == p)
    && (forall p | 0 <= p < |st.prots| && st.prots[p].phase.Shut? && !st.prots[p].lost ::
          st.prots[p].addr !in st.udpmap)
  }

  /** At most one creation is under way, there is room for it, and its client is new. */
  ghost predicate Ready(st: State) {
    && |st.opening| <= 1
    && (st.opening != [] ==>
          && st.opening[0] !in st.udpmap && |st.lru.order| < UDP_LIMIT
          && forall p | 0 <= p < |st.prots| && st.prots[p].addr == st.opening[0] :: st.prots[p].lost)
  }

  ghost predicate Exact(st: State) {
    && Inv(st) && st.failed == 0 && st.doubled == 0 && st.revived == 0 && st.over == 0
    && Holds(st) && Ready(st)
  }

  lemma {:induction false} BeginExact(st: State, a: Addr)
    requires Exact(st) && a !in st.udpmap && Prompt(st, Send(a))
    ensures Exact(Begin(st, a))
  {
    hide LastTouch, Removed, ByTouch, PutLast, Popped;
    ApplyKeeps(st, Send(a));
    BeginKeeps(st, a);
    BeginCounts(st, a);
    BeginOver(st, a);
    if |st.lru.order| >= UDP_LIMIT {
      assert st.lru.order[0] in st.udpmap;
      assert Begin(st, a).udpmap == st.udpmap - {st.lru.order[0]};
    }
  }

  lemma {:induction false} KnownExact(st: State, a: Addr)
    requires Exact(st) && a in st.udpmap
    ensures Exact(Touch(st, a, st.udpmap[a]))
  {
    hide LastTouch, Removed, ByTouch, PutLast;
    TouchKeeps(st, a, st.udpmap[a]);
    assert st.udpmap[a := st.udpmap[a]] == st.udpmap;
  }

  lemma {:induction false} CreatedExact(st: State)
    requires Exact(st) && st.opening != []
    ensures Exact(Apply(st, Created(0, true)))
  {
    hide LastTouch, Removed, ByTouch, PutLast;
    ApplyKeeps(st, Created(0, true));
    SizeStep(st, Created(0, true));
    FirstCreation(st);
    assert st.opening[1..] == [];
  }

  lemma {:induction false} MadeExact(st: State, p: nat)
    requires Exact(st) && p < |st.prots| && st.prots[p].phase.Fresh?
    ensures Exact(Apply(st, Made(p)))
  {
    hide LastTouch, Removed, ByTouch, PutLast;
    var s := st.(prots := st.prots[p := st.prots[p].(phase := Open)]);
    assert Exact(s);
    assert s.udpmap[s.prots[p].addr] == p;
    KnownExact(s, s.prots[p].addr);
  }

  lemma {:induction false} ReceivedExact(st: State, p: nat)
    requires Exact(st) && p < |st.prots| && st.prots[p].phase.Open?
    ensures Exact(Apply(st, Received(p)))
  {
    hide LastTouch, Removed, ByTouch, PutLast;
    assert st.udpmap[st.prots[p].addr] == p;
    KnownExact(st, st.prots[p].addr);
  }

  lemma {:induction false} LostExact(st: State, p: nat)
    requires Exact(st)
    ensures Exact(Apply(st, Lost(p)))
  {
    hide LastTouch, Removed, ByTouch, PutLast, Popped;
    ApplyKeeps(st, Lost(p));
    SizeStep(st, Lost(p));
  }

  lemma {:induction false} ApplyExact(st: State, e: Event)
    requires Exact(st) && Prompt(st, e)
    ensures Exact(Apply(st, e))
  {
    match e
    case Send(a) =>
      hide Exact, Begin, Touch;
      if a in st.udpmap { KnownExact(st, a); } else { BeginExact(st, a); }
    case Created(j, ok) =>
      if j < |st.opening| {
        hide Inv, Holds, Init;
        CreatedExact(st);
      }
    case Made(p) => if p < |st.prots| && st.prots[p].phase.Fresh? { hide Exact; MadeExact(st, p); }
    case Received(p) => if p < |st.prots| && st.prots[p].phase.Open? { hide Exact; ReceivedExact(st, p); }
    case Lost(p) => hide Exact; LostExact(st, p);
  }

  lemma {:induction false} PromptExact(st: State, events: seq<Event>)
    requires Exact(st) && PromptRun(st, events)
    ensures Exact(Execute(st, events))
    decreases |events|
  {
    hide Exact, Apply, Prompt;
    if events != [] {
      ApplyExact(st, events[0]);
      PromptExact(Apply(st, events[0]), events[1..]);
    }
  }

  /** On every prompt run the limit holds, the count is the number of associations and creations, and the
      associations are exactly the protocols that are not closed. */
  lemma {:induction false} PromptRuns(events: seq<Event>)
    requires PromptRun(EMPTY, events)
    ensures var st := Execute(EMPTY, events);
            && |st.udpmap| <= UDP_LIMIT && st.connections == |st.udpmap| + |st.opening| && |st.opening| <= 1
            && (forall p | 0 <= p < |st.prots| ::
                  !st.prots[p].phase.Shut? <==> st.prots[p].addr in st.udpmap && st.udpmap[st.prots[p].addr] == p)
  {
    hide Execute, PromptRun;
    EmptyInv();
    PromptExact(EMPTY, events);
    OrderSize(Execute(EMPTY, events));
  }

  /** One loss removes another protocol's association exactly when the client has reopened: the
      discard goes by client, not by protocol. */
  lemma {:induction false} LateLoss(st: State, p: nat, q: nat)
    requires Inv(st) && p < |st.prots| && !st.prots[p].phase.Fresh? && !st.prots[p].lost && q != p
    ensures (exists a :: a in st.udpmap && st.udpmap[a] == q && a !in Apply(st, Lost(p)).udpmap) <==>
            st.prots[p].addr in st.udpmap && st.udpmap[st.prots[p].addr] == q
  {
    hide LastTouch, Removed, ByTouch, PutLast, Popped, Evict;
    var a := st.prots[p].addr;
    assert Apply(st, Lost(p)).udpmap == st.udpmap - {a};
  }

  /** A new client at the limit, up to its open transport. */
  function Opened(st: State, b: Addr): State {
    Apply(Apply(Apply(st, Send(b)), Created(0, true)), Made(|st.prots|))
  }

  lemma {:induction false} OpenAtLimit(st: State, b: Addr)
    requires Inv(st) && |st.lru.order| == UDP_LIMIT && b !in st.udpmap && st.opening == []
    ensures var a, t := st.lru.order[0], Opened(st, b);
            && Inv(t) && |t.lru.order| == UDP_LIMIT && a in st.udpmap && a != b && t.opening == []
            && t.udpmap == (st.udpmap - {a})[b := |st.prots|]
            && t.prots == Closed(st.prots, st.udpmap[a]) + [Prot(b, Open, false)]
  {
    hide LastTouch, Removed, ByTouch, PutLast, Popped, Begin;
    var a := st.lru.order[0];
    assert a in st.lru.order;
    var s1 := Apply(st, Send(b));
    ApplyKeeps(st, Send(b));
    BeginKeeps(st, b);
    BeginMap(st, b);
    var s2 := Apply(s1, Created(0, true));
    ApplyKeeps(s1, Created(0, true));
    SizeStep(s1, Created(0, true));
    FirstCreation(s1);
    assert s1.opening == [b] && s1.opening[1..] == [];
    ApplyKeeps(s2, Made(|st.prots|));
    SizeStep(s2, Made(|st.prots|));
    assert s2.udpmap[b := |st.prots|] == s2.udpmap;
    OpenedMap(s2, |st.prots|);
  }

  lemma {:induction false} BeginMap(st: State, b: Addr)
    requires Listed(st) && |st.lru.order| >= UDP_LIMIT
    ensures var a, t := st.lru.order[0], Begin(st, b);
            a in st.udpmap && t.udpmap == st.udpmap - {a} && t.prots == Closed(st.prots, st.udpmap[a])
  {
    hide LastTouch, ByTouch, Popped;
    assert st.lru.order[0] in st.lru.order;
  }

  lemma {:induction false} OpenedMap(st: State, p: nat)
    requires p < |st.prots| && st.prots[p].phase.Fresh?
    ensures var t := Apply(st, Made(p));
            && t.udpmap == st.udpmap[st.prots[p].addr := p] && t.opening == st.opening
            && t.prots == st.prots[p := st.prots[p].(phase := Open)]
  {
    hide PutLast;
  }

  /** Any full table shows it: a new client evicts the oldest one, this one writes again at once, and
      only then is its first protocol's loss delivered. Its second protocol stays open unlisted. */
  lemma {:induction false} ReopenedThenLost(st: State, b: Addr)
    requires Exact(st) && |st.lru.order| == UDP_LIMIT && b !in st.udpmap
    requires forall p | 0 <= p < |st.prots| :: !st.prots[p].phase.Fresh?
    ensures var a := st.lru.order[0];
            a in st.udpmap &&
            var t := Apply(Opened(Opened(st, b), a), Lost(st.udpmap[a]));
            a !in t.udpmap && Prot(a, Open, false) in t.prots
  {
    hide LastTouch, Removed, ByTouch, PutLast, Popped, Evict, Apply, Opened;
    var a := st.lru.order[0];
    OpenAtLimit(st, b);
    var s1 := Opened(st, b);
    OpenAtLimit(s1, a);
    var s2 := Opened(s1, a);
    var p := st.udpmap[a];
    assert s2.prots[p].addr == a && !s2.prots[p].lost && !s2.prots[p].phase.Fresh?;
    LostStep(s2, p, a);
    var s3 := Apply(s2, Lost(p));
    assert s3.prots[|s1.prots|] == Prot(a, Open, false);
  }

  lemma {:induction false} LostStep(st: State, p: nat, a: Addr)
    requires p < |st.prots| && st.prots[p].addr == a && !st.prots[p].lost && !st.prots[p].phase.Fresh?
    ensures a !in Apply(st, Lost(p)).udpmap
    ensures Apply(st, Lost(p)).prots == st.prots[p := st.prots[p].(phase := Shut, lost := true)]
  {
    hide Popped;
  }

  // ---- The object -----------------------------------------------------------------------------

  class ProxyDirect {
    var udpmap: map<Addr, nat>
    var lru: Ordered
    var connections: int
    var prots: seq<Prot>
    var opening: seq<Addr>
    ghost var touched: seq<Addr>
    ghost var failed: nat
    ghost var doubled: nat
    ghost var revived: nat
    ghost var over: nat

    ghost function St(): State
      reads this
    {
      State(udpmap, lru, connections, prots, opening, touched, failed, doubled, revived, over)
    }

    ghost predicate Valid()
      reads this
    {
      Inv(St())
    }

    constructor ()
      ensures Valid() && St() == EMPTY
    {
      udpmap, lru, connections, prots, opening := map[], Ordered([], map[]), 0, [], [];
      touched, failed, doubled, revived, over := [], 0, 0, 0, 0;
    }

    method UdpTouch(a: Addr, p: nat)
      modifies this`udpmap, this`lru, this`touched, this`over
      ensures St() == Touch(old(St()), a, p)
    {
      if a !in udpmap && |lru.order| >= UDP_LIMIT {
        over := over + 1;
      }
      udpmap := udpmap[a := p];
      lru := PutLast(lru, a, p);
      touched := touched + [a];
    }

    /** The removed protocol, if there was one. */
    method UdpDiscard(a: Addr) returns (p: Option<nat>)
      modifies this`udpmap, this`lru, this`connections
      ensures St() == Discard(old(St()), a)
      ensures p == if a in old(udpmap) then Some(old(udpmap)[a]) else None
    {
      lru := Popped(lru, a);
      p := None;
      if a in udpmap {
        p := Some(udpmap[a]);
        connections := connections - 1;
      }
      udpmap := udpmap - {a};
    }

    method UdpEvictIfNeeded()
      modifies this`udpmap, this`lru, this`connections, this`prots
      ensures St() == Evict(old(St()))
    {
      hide Popped;
      if |lru.order| < UDP_LIMIT {
        return;
      }
      var p := UdpDiscard(lru.order[0]);
      if p.Some? && p.value < |prots| && prots[p.value].phase.Open? {
        prots := prots[p.value := prots[p.value].(phase := Shut)];
      }
    }

    /** Up to the `await`, if an endpoint is needed. */
    method UdpOpenConnection(a: Addr)
      requires Valid()
      modifies this
      ensures Valid() && St() == Apply(old(St()), Send(a))
    {
      hide PutLast, Popped, Listed;
      ApplyKeeps(St(), Send(a));
      if a in udpmap {
        UdpTouch(a, udpmap[a]);
      } else {
        connections := connections + 1;
        UdpEvictIfNeeded();
        opening := opening + [a];
      }
    }

    /** Creation j constructs its protocol. */
    method Construct(j: nat)
      requires Valid() && j < |opening|
      modifies this
      ensures Valid() && St() == Apply(old(St()), Created(j, true))
    {
      hide PutLast, Listed;
      ApplyKeeps(St(), Created(j, true));
      var a := opening[j];
      opening := opening[..j] + opening[j + 1..];
      if a in udpmap {
        doubled := doubled + 1;
      }
      prots := prots + [Prot(a, Fresh, false)];
      UdpTouch(a, |prots| - 1);
    }

    /** Creation j raises: nothing is undone. */
    method CreationFailed(j: nat)
      requires Valid() && j < |opening|
      modifies this
      ensures Valid() && St() == Apply(old(St()), Created(j, false))
    {
      hide Listed;
      ApplyKeeps(St(), Created(j, false));
      opening := opening[..j] + opening[j + 1..];
      failed := failed + 1;
    }

    method ConnectionMade(p: nat)
      requires Valid() && p < |prots| && prots[p].phase.Fresh?
      modifies this
      ensures Valid() && St() == Apply(old(St()), Made(p))
    {
      hide PutLast, Listed;
      ApplyKeeps(St(), Made(p));
      prots := prots[p := prots[p].(phase := Open)];
      if prots[p].addr !in udpmap {
        revived := revived + 1;
      }
      UdpTouch(prots[p].addr, p);
    }

    method DatagramReceived(p: nat)
      requires Valid() && p < |prots| && prots[p].phase.Open?
      modifies this
      ensures Valid() && St() == Apply(old(St()), Received(p))
    {
      hide PutLast, Listed;
      ApplyKeeps(St(), Received(p));
      if prots[p].addr !in udpmap {
        revived := revived + 1;
      }
      UdpTouch(prots[p].addr, p);
    }

    method ConnectionLost(p: nat)
      requires Valid() && p < |prots| && !prots[p].phase.Fresh? && !prots[p].lost
      modifies this
      ensures Valid() && St() == Apply(old(St()), Lost(p))
    {
      hide Popped, Listed;
      ApplyKeeps(St(), Lost(p));
      var gone := UdpDiscard(prots[p].addr);
      prots := prots[p := prots[p].(phase := Shut, lost := true)];
    }
  }
}
