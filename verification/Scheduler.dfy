/** `schedule`: the choice of a remote, and the rotation that makes round robin fair. */
module Scheduler {
  /** Remotes are objects, told apart by a number; eligibility is `alive` together with the rule match
      for the request at hand, and may be different at every call. */
  type Remote = nat
  type Eligible = Remote -> bool

  datatype Algorithm = First | RoundRobin | Random | LeastConnections | Unknown

  datatype Outcome = Chosen(remote: Remote) | Nobody | ConfigurationError

  /** The index of the first eligible remote, or the length. */
  function FirstAt(s: seq<Remote>, e: Eligible): (i: nat)
    ensures i <= |s|
    ensures forall j | 0 <= j < i :: !e(s[j])
    ensures i < |s| ==> e(s[i])
  {
    if s == [] || e(s[0]) then 0 else 1 + FirstAt(s[1..], e)
  }

  function MovedLast(s: seq<Remote>, i: nat): seq<Remote>
    requires i < |s|
  {
    s[..i] + s[i + 1..] + [s[i]]
  }

  /** One round-robin call; without an eligible remote it falls through to the error. */
  function Turn(s: seq<Remote>, e: Eligible): (seq<Remote>, Outcome) {
    var i := FirstAt(s, e);
    if i < |s| then (MovedLast(s, i), Chosen(s[i])) else (s, ConfigurationError)
  }

  /** The outcomes of successive calls, one eligibility each. */
  function Turns(s: seq<Remote>, es: seq<Eligible>): (r: (seq<Remote>, seq<Outcome>))
    ensures |r.1| == |es|
    decreases |es|
  {
    if es == [] then (s, [])
    else
      var (t, o) := Turn(s, es[0]);
      var (u, rest) := Turns(t, es[1..]);
      (u, [o] + rest)
  }

  // ---- Bounded wait ---------------------------------------------------------------------------

  /** A remote that is eligible but not chosen moves one place forward. */
  lemma {:induction false} MovesForward(s: seq<Remote>, e: Eligible, k: nat)
    requires k < |s| && e(s[k])
    ensures Turn(s, e).1 == Chosen(s[k]) ||
            (k > 0 && |Turn(s, e).0| == |s| && Turn(s, e).0[k - 1] == s[k])
  {
  }

  /** A remote at index k that stays eligible is chosen within k + 1 calls, whatever the others do. */
  lemma {:induction false} BoundedWait(s: seq<Remote>, es: seq<Eligible>, k: nat)
    requires k < |s| && k < |es| && forall j | 0 <= j <= k :: es[j](s[k])
    ensures Chosen(s[k]) in Turns(s, es).1[..k + 1]
    decreases k
  {
    var x := s[k];
    var (t, o) := Turn(s, es[0]);
    var rest := Turns(t, es[1..]).1;
    MovesForward(s, es[0], k);
    assert Turns(s, es).1 == [o] + rest;
    if o == Chosen(x) {
      assert ([o] + rest)[..k + 1][0] == Chosen(x);
    } else {
      forall j | 0 <= j <= k - 1
        ensures es[1..][j](t[k - 1])
      {
        assert es[j + 1](x);
      }
      BoundedWait(t, es[1..], k - 1);
      assert ([o] + rest)[..k + 1] == [o] + rest[..k];
    }
  }

  /** In n calls for n remotes, one that is eligible throughout is chosen. */
  lemma {:induction false} WithinOneRound(s: seq<Remote>, es: seq<Eligible>, x: Remote)
    requires x in s && |es| == |s| && forall j | 0 <= j < |es| :: es[j](x)
    ensures Chosen(x) in Turns(s, es).1
  {
    var k :| 0 <= k < |s| && s[k] == x;
    BoundedWait(s, es, k);
  }

  // ---- Permutation ----------------------------------------------------------------------------

  lemma {:induction false} TurnPermutes(s: seq<Remote>, e: Eligible)
    ensures multiset(Turn(s, e).0) == multiset(s)
  {
    var i := FirstAt(s, e);
    if i < |s| {
      assert s == s[..i] + [s[i]] + s[i + 1..];
    }
  }

  /** The list stays a permutation of the configured remotes on every run. */
  lemma {:induction false} TurnsPermute(s: seq<Remote>, es: seq<Eligible>)
    ensures multiset(Turns(s, es).0) == multiset(s)
    decreases |es|
  {
    if es != [] {
      TurnPermutes(s, es[0]);
      TurnsPermute(Turn(s, es[0]).0, es[1..]);
    }
  }

  /** Only eligible remotes of the list are chosen, and the error comes exactly when there is none. */
  lemma {:induction false} TurnChooses(s: seq<Remote>, e: Eligible)
    ensures match Turn(s, e).1
            case Chosen(x) => x in s && e(x)
            case Nobody => false
            case ConfigurationError => forall x | x in s :: !e(x)
  {
  }

  function AllOf(e: Eligible, n: nat): (es: seq<Eligible>)
    ensures |es| == n && forall j | 0 <= j < n :: es[j] == e
    decreases n
  {
    if n == 0 then [] else [e] + AllOf(e, n - 1)
  }

  function Choices(s: seq<Remote>): (o: seq<Outcome>)
    ensures |o| == |s|
  {
    seq(|s|, i requires 0 <= i < |s| => Chosen(s[i]))
  }

  lemma {:induction false} TakesFirst(s: seq<Remote>, e: Eligible, n: nat)
    requires s != [] && e(s[0]) && n > 0
    ensures var u := Turns(s[1..] + [s[0]], AllOf(e, n - 1));
            Turns(s, AllOf(e, n)).0 == u.0 && Turns(s, AllOf(e, n)).1 == [Chosen(s[0])] + u.1
  {
    assert FirstAt(s, e) == 0;
    assert s[..0] + s[1..] + [s[0]] == s[1..] + [s[0]];
    assert AllOf(e, n)[1..] == AllOf(e, n - 1);
  }

  lemma {:induction false} NoTurns(s: seq<Remote>, e: Eligible)
    ensures Turns(s, AllOf(e, 0)) == (s, []) && Choices(s[..0]) == []
  {
  }

  lemma {:induction false} ChoicesCons(x: Remote, s: seq<Remote>)
    ensures Choices([x] + s) == [Chosen(x)] + Choices(s)
  {
  }

  /** While everybody is eligible the first n turns take the first n of the list in order. */
  lemma {:induction false} TakesInOrder(s: seq<Remote>, e: Eligible, n: nat)
    requires n <= |s| && forall x | x in s :: e(x)
    ensures Turns(s, AllOf(e, n)).0 == s[n..] + s[..n]
    ensures Turns(s, AllOf(e, n)).1 == Choices(s[..n])
    decreases n
  {
    hide Turns, AllOf, Choices;
    if n == 0 {
      NoTurns(s, e);
      assert s[0..] + s[..0] == s;
    } else {
      var t := s[1..] + [s[0]];
      Rotated(s);
      TakesInOrder(t, e, n - 1);
      TakesFirst(s, e, n);
      assert t[n - 1..] + t[..n - 1] == s[n..] + s[..n];
      assert s[..n] == [s[0]] + t[..n - 1];
      ChoicesCons(s[0], t[..n - 1]);
    }
  }

  lemma {:induction false} Rotated(s: seq<Remote>)
    requires s != []
    ensures forall x :: x in s[1..] + [s[0]] <==> x in s
  {
    assert s == [s[0]] + s[1..];
  }

  /** A full round with everybody eligible serves each remote once, in list order, and restores the
      list. */
  lemma {:induction false} FullRound(s: seq<Remote>, e: Eligible)
    requires forall x | x in s :: e(x)
    ensures Turns(s, AllOf(e, |s|)).0 == s
    ensures Turns(s, AllOf(e, |s|)).1 == Choices(s)
  {
    TakesInOrder(s, e, |s|);
    assert s[|s|..] + s[..|s|] == s && s[..|s|] == s;
  }

  // ---- The random choice ----------------------------------------------------------------------

  /** The eligible remotes in list order. */
  function Options(s: seq<Remote>, e: Eligible): seq<Remote>
    decreases |s|
  {
    if s == [] then []
    else Options(s[..|s| - 1], e) + if e(s[|s| - 1]) then [s[|s| - 1]] else []
  }

  lemma {:induction false} OptionsAre(s: seq<Remote>, e: Eligible)
    ensures forall x :: x in Options(s, e) <==> x in s && e(x)
    decreases |s|
  {
    if s != [] {
      OptionsAre(s[..|s| - 1], e);
      assert s == s[..|s| - 1] + [s[|s| - 1]];
    }
  }

  /** The draws below n that fall on x, among these options. */
  function Falls(options: seq<Remote>, x: Remote, n: nat): nat
    requires n <= |options|
    decreases n
  {
    if n == 0 then 0 else Falls(options, x, n - 1) + if options[n - 1] == x then 1 else 0
  }

  /** Over one cycle of the draw every remote is chosen as often as the list has it, if it is eligible. */
  lemma {:induction false} DrawsEvenly(s: seq<Remote>, e: Eligible, x: Remote)
    ensures var o := Options(s, e); Falls(o, x, |o|) == if e(x) then multiset(s)[x] else 0
    decreases |s|
  {
    hide Falls;
    if s != [] {
      var p, y := s[..|s| - 1], s[|s| - 1];
      DrawsEvenly(p, e, x);
      assert s == p + [y];
      FallsAppend(Options(p, e), x, y);
    } else {
      NoFalls([], x);
    }
  }

  lemma {:induction false} NoFalls(o: seq<Remote>, x: Remote)
    ensures Falls(o, x, 0) == 0
  {
  }

  lemma {:induction false} FallsAppend(o: seq<Remote>, x: Remote, y: Remote)
    ensures Falls(o + [y], x, |o| + 1) == Falls(o, x, |o|) + if x == y then 1 else 0
    ensures o + [] == o
  {
    FallsBelow(o, x, y, |o|);
  }

  lemma {:induction false} FallsBelow(o: seq<Remote>, x: Remote, y: Remote, n: nat)
    requires n <= |o|
    ensures Falls(o + [y], x, n) == Falls(o, x, n)
    decreases n
  {
    if n > 0 { FallsBelow(o, x, y, n - 1); }
  }

  // ---- The object -----------------------------------------------------------------------------

  ghost predicate Least(s: seq<Remote>, e: Eligible, load: Remote -> int, i: int) {
    && 0 <= i < |s| && e(s[i])
    && (forall j | 0 <= j < |s| && e(s[j]) :: load(s[i]) <= load(s[j]))
    && (forall j | 0 <= j < i && e(s[j]) :: load(s[i]) < load(s[j]))
  }

  class Group {
    var rserver: seq<Remote>

    constructor (remotes: seq<Remote>)
      ensures rserver == remotes
    {
      rserver := remotes;
    }

    /** The rotation happens inside the search loop. */
    method NextInTurn(e: Eligible) returns (r: Outcome)
      modifies this
      ensures (rserver, r) == Turn(old(rserver), e)
    {
      for index := 0 to |rserver|
        invariant rserver == old(rserver)
        invariant forall j | 0 <= j < index :: !e(rserver[j])
      {
        var option := rserver[index];
        if e(option) {
          assert FirstAt(rserver, e) == index;
          rserver := rserver[..index] + rserver[index + 1..];
          rserver := rserver + [option];
          return Chosen(option);
        }
      }
      r := ConfigurationError;
    }

    method FirstEligible(e: Eligible) returns (r: Outcome)
      ensures r == if FirstAt(rserver, e) < |rserver| then Chosen(rserver[FirstAt(rserver, e)]) else Nobody
    {
      for index := 0 to |rserver|
        invariant forall j | 0 <= j < index :: !e(rserver[j])
      {
        if e(rserver[index]) {
          assert FirstAt(rserver, e) == index;
          return Chosen(rserver[index]);
        }
      }
      r := Nobody;
    }

    /** `min` with a key: the first of those with the least load. */
    method LeastLoaded(e: Eligible, load: Remote -> int) returns (r: Outcome)
      ensures r != ConfigurationError
      ensures r == Nobody <==> forall x | x in rserver :: !e(x)
      ensures r.Chosen? ==> exists i :: Least(rserver, e, load, i) && rserver[i] == r.remote
    {
      r := Nobody;
      ghost var best: nat := 0;
      for index := 0 to |rserver|
        invariant r == Nobody || (r.Chosen? && best < index && rserver[best] == r.remote)
        invariant r == Nobody ==> forall j | 0 <= j < index :: !e(rserver[j])
        invariant r.Chosen? ==> Least(rserver[..index], e, load, best)
      {
        var x := rserver[index];
        assert rserver[..index + 1] == rserver[..index] + [x];
        if e(x) && (r == Nobody || load(x) < load(r.remote)) {
          r, best := Chosen(x), index;
        }
      }
      assert rserver[..|rserver|] == rserver;
    }

    /** `draw` is the random index among the eligible remotes. */
    method AnyEligible(e: Eligible, draw: nat) returns (r: Outcome)
      ensures var o := Options(rserver, e); r == if o == [] then Nobody else Chosen(o[draw % |o|])
    {
      var options: seq<Remote> := [];
      for index := 0 to |rserver|
        invariant options == Options(rserver[..index], e)
      {
        assert rserver[..index + 1][..index] == rserver[..index];
        if e(rserver[index]) {
          options := options + [rserver[index]];
        }
      }
      assert rserver[..|rserver|] == rserver;
      if options == [] {
        return Nobody;
      }
      r := Chosen(options[draw % |options|]);
    }

    /** An eligible remote of the list, or nobody when there is none. */
    ghost predicate Fitting(r: Outcome, e: Eligible)
      reads this
    {
      && r != ConfigurationError
      && (r == Nobody <==> forall x | x in rserver :: !e(x))
      && (r.Chosen? ==> r.remote in rserver && e(r.remote))
    }

    /** Only round robin changes the list; only it and an unknown name raise. */
    method Schedule(a: Algorithm, e: Eligible, load: Remote -> int, draw: nat) returns (r: Outcome)
      modifies this
      ensures a.RoundRobin? ==> (rserver, r) == Turn(old(rserver), e)
      ensures !a.RoundRobin? ==> rserver == old(rserver)
      ensures a.Unknown? ==> r == ConfigurationError
      ensures !a.RoundRobin? && !a.Unknown? ==> Fitting(r, e)
      ensures a.Random? && r.Chosen? ==>
                var o := Options(rserver, e); o != [] && r.remote == o[draw % |o|]
      ensures a.First? && r.Chosen? ==> r.remote == rserver[FirstAt(rserver, e)]
      ensures a.LeastConnections? && r.Chosen? ==> exists i :: Least(rserver, e, load, i) && rserver[i] == r.remote
    {
      match a
      case First =>
        r := FirstEligible(e);
        if r == Nobody {
          assert forall x | x in rserver :: !e(x);
        } else {
          assert r.remote in rserver;
        }
      case RoundRobin => r := NextInTurn(e);
      case Random =>
        r := AnyEligible(e, draw);
        OptionsAre(rserver, e);
        if r == Nobody {
          assert forall x | x in rserver :: !e(x) by {
            forall x | x in rserver
              ensures !e(x)
            {
              assert x !in Options(rserver, e);
            }
          }
        } else {
          assert r.remote in Options(rserver, e);
        }
      case LeastConnections =>
        r := LeastLoaded(e, load);
        if r.Chosen? {
          ghost var i :| Least(rserver, e, load, i) && rserver[i] == r.remote;
        }
      case Unknown => r := ConfigurationError;
    }
  }
}
