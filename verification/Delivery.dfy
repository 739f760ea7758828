/** When turns of the responders bring delivery, and when they do not. */
module Delivery {
  import opened Wrappers
  import opened Mpack
  import opened WaitQueue

  // ----- what a schedule decides

  lemma {:induction false} RunsConcat(s: State, a: seq<Action>, b: seq<Action>)
    requires IsRun(s, a) && IsRun(After(s, a), b)
    ensures IsRun(s, a + b) && After(s, a + b) == After(After(s, a), b)
    decreases |a|
  {
    if |a| == 0 {
      assert a + b == b;
    } else {
      assert (a + b)[0] == a[0] && (a + b)[1..] == a[1..] + b;
      OneMore(s, a);
      RunsConcat(Apply(s, a[0]), a[1..], b);
      OneMore(s, a + b);
    }
  }

  lemma RunOfOne(s: State, a: Action)
    requires Enabled(s, a)
    ensures IsRun(s, [a]) && After(s, [a]) == Apply(s, a)
  {
    OneMore(s, [a]);
  }

  /** From every reachable state an arrived response can still be delivered to its waiting caller. */
  lemma DeliveryStaysPossible(s: State, t: nat) returns (run: seq<Action>)
    requires Inv(s) && Waits(s, t) && t in s.responders
    ensures IsRun(s, run) && Waits(s, t)
    ensures t < |After(s, run).callers| && After(s, run).callers[t] == Delivered(s.responders[t].payload)
  {
    assert Sound(s, t);
    if s.responders[t].held == Some(t) {
      RunOfOne(s, Deliver(t));
      run := [Deliver(t)];
    } else if s.responders[t].held.Some? {
      var n := s.responders[t].held.value;
      assert Held(s, t, n);
      if Count(n) == Count(t) {
        LiveIdsDiffer(s, n, t);
      }
      StepKeepsInv(s, Requeue(t));
      RunOfOne(s, Requeue(t));
      var rest := EmptyHandedDelivers(Apply(s, Requeue(t)), t);
      RunsConcat(s, [Requeue(t)], rest);
      run := [Requeue(t)] + rest;
    } else {
      run := EmptyHandedDelivers(s, t);
    }
  }

  lemma EmptyHandedDelivers(s: State, t: nat) returns (run: seq<Action>)
    requires Inv(s) && Waits(s, t) && t in s.responders && s.responders[t].held == None
    ensures IsRun(s, run)
    ensures t < |After(s, run).callers| && After(s, run).callers[t] == Delivered(s.responders[t].payload)
  {
    if t in s.queue {
      var k :| 0 <= k < |s.queue| && s.queue[k] == t;
      AloneDelivers(s, t, k);
      run := Alone(t, k);
    } else {
      var r :| Held(s, r, t);
      assert Sound(s, r) && Sound(s, t);
      if Count(t) == Count(r) {
        LiveIdsDiffer(s, t, r);
      }
      var next := Apply(s, Requeue(r));
      StepKeepsInv(s, Requeue(r));
      RunOfOne(s, Requeue(r));
      AloneDelivers(next, t, |s.queue|);
      RunsConcat(s, [Requeue(r)], Alone(t, |s.queue|));
      run := [Requeue(r)] + Alone(t, |s.queue|);
    }
  }

  // ----- when turns bring delivery

  predicate TurnOf(a: Action, r: nat) { (a.Pop? || a.Deliver? || a.Requeue? || a.Nap?) && a.responder == r }

  /** How often a responder moves in a run. */
  function Turns(run: seq<Action>, r: nat): nat {
    if |run| == 0 then 0 else (if TurnOf(run[0], r) then 1 else 0) + Turns(run[1..], r)
  }

  predicate NoArrivals(run: seq<Action>) { forall i :: 0 <= i < |run| ==> !run[i].Arrive? }

  /** A responder that has its own node, or no other responder that can still take a node out of turn. */
  ghost predicate Unrivalled(s: State, t: nat) {
    Held(s, t, t) || forall r :: r in s.responders && r != t ==> s.responders[r].finished || Held(s, r, r)
  }

  function Position(queue: seq<nat>, t: nat): (k: nat)
    ensures k <= |queue| && (k < |queue| ==> queue[k] == t) && forall j :: 0 <= j < k ==> queue[j] != t
  {
    if |queue| == 0 || queue[0] == t then 0 else 1 + Position(queue[1..], t)
  }

  lemma {:induction false} PositionIs(queue: seq<nat>, t: nat, k: nat)
    requires k < |queue| && queue[k] == t && forall j :: 0 <= j < k ==> queue[j] != t
    ensures Position(queue, t) == k
  {
  }

  /** One turn with its own node; otherwise two for every node up to it, and one more to put another back first. */
  function TurnsNeeded(s: State, t: nat): nat
    requires t in s.responders
  {
    match s.responders[t].held
    case None => 2 * (Position(s.queue, t) + 1)
    case Some(n) => if n == t then 1 else 1 + 2 * (Position(s.queue, t) + 1)
  }

  /** What is known of a responder that has no rival and is not done. */
  ghost predicate Pending(s: State, t: nat) {
    Inv(s) && Waits(s, t) && t in s.responders && Unrivalled(s, t)
  }

  lemma HoldsItsOwn(s: State, r: nat, t: nat)
    requires r in s.responders && Sound(s, r) && r != t && (s.responders[r].finished || Held(s, r, r))
    ensures !Held(s, r, t)
  {
  }

  lemma PendingIsQueued(s: State, t: nat)
    requires Pending(s, t) && !Held(s, t, t)
    ensures t in s.queue && Position(s.queue, t) < |s.queue|
  {
    forall r
      ensures !Held(s, r, t)
    {
      if r in s.responders && r != t {
        HoldsItsOwn(s, r, t);
      }
    }
    assert Placed(s, t);
    var k :| 0 <= k < |s.queue| && s.queue[k] == t;
    assert Position(s.queue, t) <= k;
  }

  lemma PopTurn(s: State, t: nat)
    requires Pending(s, t) && Enabled(s, Pop(t))
    ensures Pending(Apply(s, Pop(t)), t) && TurnsNeeded(Apply(s, Pop(t)), t) == TurnsNeeded(s, t) - 1
  {
    var s' := Apply(s, Pop(t));
    StepKeepsInv(s, Pop(t));
    PendingIsQueued(s, t);
    OthersKept(s, s', t);
    var k := Position(s.queue, t);
    if k > 0 {
      assert s'.queue == s.queue[1..];
      PositionIs(s'.queue, t, k - 1);
    }
  }

  lemma RequeueTurn(s: State, t: nat)
    requires Pending(s, t) && Enabled(s, Requeue(t))
    ensures Pending(Apply(s, Requeue(t)), t) && TurnsNeeded(Apply(s, Requeue(t)), t) == TurnsNeeded(s, t) - 1
  {
    assert Sound(s, t);
    var s' := Apply(s, Requeue(t));
    StepKeepsInv(s, Requeue(t));
    PendingIsQueued(s, t);
    OthersKept(s, s', t);
    var k := Position(s.queue, t);
    assert forall j :: 0 <= j <= k ==> s'.queue[j] == s.queue[j];
    PositionIs(s'.queue, t, k);
  }

  lemma OthersKept(s: State, s': State, t: nat)
    requires Unrivalled(s, t) && !Held(s, t, t) && s'.responders.Keys == s.responders.Keys
    requires forall r :: r != t && r in s.responders ==> s'.responders[r] == s.responders[r]
    ensures Unrivalled(s', t)
  {
    forall r | r in s'.responders && r != t
      ensures s'.responders[r].finished || Held(s', r, r)
    {
      assert s.responders[r].finished || Held(s, r, r);
    }
  }

  /** The turn of a responder without rivals: it delivers, or needs one turn less. */
  lemma OwnTurn(s: State, t: nat, a: Action)
    requires Pending(s, t) && Enabled(s, a) && TurnOf(a, t) && !a.Deliver?
    ensures Pending(Apply(s, a), t) && Apply(s, a).responders[t].payload == s.responders[t].payload
    ensures TurnsNeeded(Apply(s, a), t) == TurnsNeeded(s, t) - 1
  {
    assert Sound(s, t);
    if a.Pop? {
      PopTurn(s, t);
    } else if a.Requeue? {
      RequeueTurn(s, t);
    } else {
      PendingIsQueued(s, t);
    }
  }

  lemma OthersOnlyDeliver(s: State, t: nat, a: Action)
    requires Pending(s, t) && !Held(s, t, t) && Enabled(s, a) && !TurnOf(a, t)
    ensures !a.Pop? && !a.Requeue? && !a.Nap?
  {
    assert forall r :: r in s.responders && r != t ==> Sound(s, r) && (s.responders[r].finished || Held(s, r, r));
  }

  /** What others hold or have delivered stays no rival. */
  lemma NoRivalAppears(s: State, t: nat, a: Action)
    requires Pending(s, t) && !Held(s, t, t) && Enabled(s, a) && !TurnOf(a, t) && !a.Arrive?
    ensures Unrivalled(Apply(s, a), t)
  {
    var s' := Apply(s, a);
    OthersOnlyDeliver(s, t, a);
    forall r | r in s'.responders && r != t
      ensures s'.responders[r].finished || Held(s', r, r)
    {
      assert s.responders[r].finished || Held(s, r, r);
    }
  }

  lemma OthersKeepTheNode(s: State, t: nat, a: Action)
    requires Inv(s) && Waits(s, t) && t in s.responders && Enabled(s, a) && !TurnOf(a, t) && !a.Arrive?
    ensures Waits(Apply(s, a), t) && t in Apply(s, a).responders && Apply(s, a).responders[t] == s.responders[t]
  {
    assert Sound(s, t);
    if a.Deliver? {
      DeliversToOwnCaller(s, a.responder);
    }
  }

  /** Nobody else's step gets in its way. */
  lemma OthersStep(s: State, t: nat, a: Action)
    requires Pending(s, t) && Enabled(s, a) && !TurnOf(a, t) && !a.Arrive?
    ensures Pending(Apply(s, a), t) && Apply(s, a).responders[t] == s.responders[t]
    ensures TurnsNeeded(Apply(s, a), t) == TurnsNeeded(s, t)
  {
    StepKeepsInv(s, a);
    OthersKeepTheNode(s, t, a);
    if !Held(s, t, t) {
      NoRivalAppears(s, t, a);
      PendingIsQueued(s, t);
      SamePosition(s, t, a);
    }
  }

  lemma SamePosition(s: State, t: nat, a: Action)
    requires Pending(s, t) && !Held(s, t, t) && Enabled(s, a) && !TurnOf(a, t) && !a.Arrive?
    ensures Position(Apply(s, a).queue, t) == Position(s.queue, t)
  {
    OthersOnlyDeliver(s, t, a);
    PendingIsQueued(s, t);
    var queue, k := Apply(s, a).queue, Position(s.queue, t);
    assert forall j :: 0 <= j <= k ==> queue[j] == s.queue[j];
    PositionIs(queue, t, k);
  }

  /** Delivered payloads stay delivered, whatever runs on. */
  lemma DeliveryIsFinal(s: State, t: nat, run: seq<Action>)
    requires Inv(s) && t in s.responders && Enabled(s, Deliver(t)) && IsRun(Apply(s, Deliver(t)), run)
    ensures var end := After(Apply(s, Deliver(t)), run);
            t < |end.callers| && Answer(end.callers[t]) == Some(s.responders[t].payload)
  {
    DeliversToOwnCaller(s, t);
    StepKeepsInv(s, Deliver(t));
    AnswersAreFinal(Apply(s, Deliver(t)), run, t);
  }

  /** Without rivals enough turns bring delivery, whatever the callers and the others do meanwhile. */
  lemma {:induction false} EnoughTurnsDeliver(s: State, t: nat, run: seq<Action>)
    requires Pending(s, t) && IsRun(s, run) && NoArrivals(run) && Turns(run, t) >= TurnsNeeded(s, t)
    ensures t < |After(s, run).callers| && Answer(After(s, run).callers[t]) == Some(s.responders[t].payload)
    decreases |run|
  {
    if |run| > 0 {
      var a, rest := run[0], run[1..];
      OneMore(s, run);
      assert forall i :: 0 <= i < |rest| ==> rest[i] == run[i + 1];
      if a == Deliver(t) {
        DeliveryIsFinal(s, t, rest);
      } else if TurnOf(a, t) {
        OwnTurn(s, t, a);
        EnoughTurnsDeliver(Apply(s, a), t, rest);
      } else {
        OthersStep(s, t, a);
        EnoughTurnsDeliver(Apply(s, a), t, rest);
      }
    }
  }

  // ----- when they do not

  lemma {:induction false} TurnsConcat(a: seq<Action>, b: seq<Action>, r: nat)
    ensures Turns(a + b, r) == Turns(a, r) + Turns(b, r)
    ensures NoArrivals(a) && NoArrivals(b) ==> NoArrivals(a + b)
  {
    if |a| == 0 {
      assert a + b == b;
    } else {
      assert (a + b)[0] == a[0] && (a + b)[1..] == a[1..] + b;
      TurnsConcat(a[1..], b, r);
    }
  }

  /** A responder has taken another's node, and that one has nothing in its hands. */
  ghost predicate Overtaken(s: State, t: nat, r: nat) {
    Inv(s) && r != t && t in s.responders && s.responders[t].held == None && Waits(s, t) && Held(s, r, t)
  }

  /** Both responders with empty hands and the node of the first in the queue. */
  ghost predicate Contended(s: State, t: nat, r: nat) {
    && Inv(s) && r != t && t in s.responders && s.responders[t].held == None && Waits(s, t) && t in s.queue
    && r in s.responders && s.responders[r].held == None && !s.responders[r].finished
  }

  /** A run without arrivals from one state to another. */
  ghost predicate Leads(s: State, run: seq<Action>, next: State) {
    IsRun(s, run) && NoArrivals(run) && After(s, run) == next
  }

  lemma LeadsOn(s: State, a: seq<Action>, mid: State, b: seq<Action>, next: State)
    requires Leads(s, a, mid) && Leads(mid, b, next)
    ensures Leads(s, a + b, next)
    ensures forall r :: Turns(a + b, r) == Turns(a, r) + Turns(b, r)
  {
    RunsConcat(s, a, b);
    forall r
      ensures Turns(a + b, r) == Turns(a, r) + Turns(b, r) && NoArrivals(a + b)
    {
      TurnsConcat(a, b, r);
    }
  }

  lemma LeadsOne(s: State, a: Action)
    requires Enabled(s, a) && !a.Arrive?
    ensures Leads(s, [a], Apply(s, a)) && forall r :: Turns([a], r) == if TurnOf(a, r) then 1 else 0
  {
    RunOfOne(s, a);
    assert [a][1..] == [];
  }

  /** The first turns what is in front of its node round, and the second takes the node. */
  lemma {:induction false} TakeOver(s: State, t: nat, r: nat) returns (run: seq<Action>, next: State)
    requires Contended(s, t, r)
    ensures Leads(s, run, next) && Overtaken(next, t, r) && Turns(run, r) >= 1
    decreases Position(s.queue, t)
  {
    var k :| 0 <= k < |s.queue| && s.queue[k] == t;
    assert Position(s.queue, t) <= k;
    if s.queue[0] == t {
      next := Apply(s, Pop(r));
      StepKeepsInv(s, Pop(r));
      LeadsOne(s, Pop(r));
      run := [Pop(r)];
    } else {
      var turned := PassOver(s, t);
      PositionIs(turned.queue, t, Position(s.queue, t) - 1);
      assert turned.queue[Position(turned.queue, t)] in turned.queue;
      Twice(s, Pop(t), Requeue(t), turned);
      assert Leads(s, [Pop(t), Requeue(t)], turned);
      var rest;
      rest, next := TakeOver(turned, t, r);
      LeadsOn(s, [Pop(t), Requeue(t)], turned, rest, next);
      run := [Pop(t), Requeue(t)] + rest;
    }
  }

  /** A responder that holds another's node puts it back. */
  lemma PutBack(s: State, h: nat) returns (next: State)
    requires Inv(s) && h in s.responders && s.responders[h].held.Some? && !Held(s, h, h)
    ensures Leads(s, [Requeue(h)], next) && Inv(next) && next.callers == s.callers
    ensures next.queue == s.queue + [s.responders[h].held.value]
    ensures next.responders == s.responders[h := s.responders[h].(held := None)]
  {
    var n := s.responders[h].held.value;
    assert Held(s, h, n) && Sound(s, h);
    if Count(n) == Count(h) {
      LiveIdsDiffer(s, n, h);
    }
    next := Apply(s, Requeue(h));
    StepKeepsInv(s, Requeue(h));
    LeadsOne(s, Requeue(h));
  }

  /** Another responder that may still take the node: not done, and without its own. */
  predicate Rival(s: State, t: nat, r: nat) {
    r in s.responders && r != t && !s.responders[r].finished && !Held(s, r, r)
  }

  lemma EmptyRun(s: State)
    ensures Leads(s, [], s) && forall r :: Turns([], r) == 0
  {
  }

  lemma PutBackIfAny(s: State, h: nat) returns (run: seq<Action>, next: State)
    requires Inv(s) && h in s.responders && !Held(s, h, h)
    ensures Leads(s, run, next) && Inv(next) && next.callers == s.callers && s.queue <= next.queue
    ensures next.responders == s.responders[h := s.responders[h].(held := None)]
    ensures forall t :: Held(s, h, t) ==> t in next.queue
  {
    if s.responders[h].held.Some? {
      next := PutBack(s, h);
      run := [Requeue(h)];
    } else {
      EmptyRun(s);
      run, next := [], s;
    }
  }

  /** With a rival the two can come to contend with empty hands. */
  lemma ComeToContend(s: State, t: nat, r: nat) returns (run: seq<Action>, next: State)
    requires Inv(s) && Waits(s, t) && t in s.responders && !Held(s, t, t) && Rival(s, t, r)
    ensures Leads(s, run, next) && Contended(next, t, r)
  {
    var a, s1 := PutBackIfAny(s, t);
    var b, s2 := PutBackIfAny(s1, r);
    LeadsOn(s, a, s1, b, s2);
    if t in s2.queue {
      run, next := a + b, s2;
    } else {
      assert Waits(s2, t) && Placed(s2, t);
      var h :| Held(s2, h, t);
      next := PutBack(s2, h);
      LeadsOn(s, a + b, s2, [Requeue(h)], next);
      run := a + b + [Requeue(h)];
    }
  }

  /** The overtaken responder turns a node round, or naps if there is none. */
  lemma TurnRound(s: State, t: nat, r: nat) returns (run: seq<Action>, next: State)
    requires Overtaken(s, t, r)
    ensures Leads(s, run, next) && Overtaken(next, t, r) && Turns(run, t) >= 1
  {
    assert Sound(s, t);
    if |s.queue| == 0 {
      run, next := [Nap(t)], s;
      LeadsOne(s, Nap(t));
    } else {
      next := PassOver(s, t);
      run := [Pop(t), Requeue(t)];
      Twice(s, Pop(t), Requeue(t), next);
    }
  }

  /** A round in which both move and the node is taken again. */
  lemma OneRound(s: State, t: nat, r: nat) returns (run: seq<Action>, next: State)
    requires Overtaken(s, t, r)
    ensures Leads(s, run, next) && Overtaken(next, t, r) && Turns(run, t) >= 1 && Turns(run, r) >= 1
  {
    var a, s1 := TurnRound(s, t, r);
    assert !Held(s1, r, r);
    var s2 := PutBack(s1, r);
    LeadsOn(s, a, s1, [Requeue(r)], s2);
    assert s2.queue[|s1.queue|] == t && Sound(s2, r);
    var b;
    b, next := TakeOver(s2, t, r);
    LeadsOn(s, a + [Requeue(r)], s2, b, next);
    run := a + [Requeue(r)] + b;
  }

  lemma {:induction false} ManyRounds(s: State, t: nat, r: nat, n: nat) returns (run: seq<Action>, next: State)
    requires Overtaken(s, t, r)
    ensures Leads(s, run, next) && Overtaken(next, t, r) && Turns(run, t) >= n && Turns(run, r) >= n
  {
    EmptyRun(s);
    run, next := [], s;
    if n > 0 {
      var mid;
      run, mid := ManyRounds(s, t, r, n - 1);
      var last;
      last, next := OneRound(mid, t, r);
      LeadsOn(s, run, mid, last, next);
      run := run + last;
    }
  }

  /** With a rival there are runs in which both move as often as one likes and nothing is delivered. */
  lemma RivalsMayNeverDeliver(s: State, t: nat, r: nat, n: nat) returns (run: seq<Action>)
    requires Inv(s) && Waits(s, t) && t in s.responders && !Held(s, t, t) && Rival(s, t, r)
    ensures IsRun(s, run) && NoArrivals(run) && Turns(run, t) >= n && Turns(run, r) >= n
    ensures Waits(After(s, run), t)
  {
    var a, s1 := ComeToContend(s, t, r);
    var b, s2 := TakeOver(s1, t, r);
    LeadsOn(s, a, s1, b, s2);
    var c, s3 := ManyRounds(s2, t, r, n);
    LeadsOn(s, a + b, s2, c, s3);
    run := a + b + c;
  }

  /** So many turns of the responder bring delivery in every run, unless further responses arrive. */
  ghost predicate TurnsSuffice(s: State, t: nat, n: nat)
    requires t in s.responders
  {
    forall run :: IsRun(s, run) && NoArrivals(run) && Turns(run, t) >= n ==> AnsweredWith(After(s, run), t, s.responders[t].payload)
  }

  predicate AnsweredWith(s: State, t: nat, payload: Obj) { t < |s.callers| && Answer(s.callers[t]) == Some(payload) }

  /** Some number of turns is enough if and only if the responder has its own node or no rival. */
  lemma DeliveryIsCertainIff(s: State, t: nat)
    requires Inv(s) && Waits(s, t) && t in s.responders
    ensures (exists n :: TurnsSuffice(s, t, n)) <==> Held(s, t, t) || forall r :: !Rival(s, t, r)
  {
    if Held(s, t, t) || forall r :: !Rival(s, t, r) {
      assert forall r :: r in s.responders && r != t ==> !Rival(s, t, r) || Held(s, t, t);
      forall run | IsRun(s, run) && NoArrivals(run) && Turns(run, t) >= TurnsNeeded(s, t)
        ensures AnsweredWith(After(s, run), t, s.responders[t].payload)
      {
        EnoughTurnsDeliver(s, t, run);
      }
      assert TurnsSuffice(s, t, TurnsNeeded(s, t));
    } else {
      var r :| Rival(s, t, r);
      forall n: nat
        ensures !TurnsSuffice(s, t, n)
      {
        var run := RivalsMayNeverDeliver(s, t, r, n);
        assert !AnsweredWith(After(s, run), t, s.responders[t].payload);
      }
    }
  }

  /** Two requests are written, their callers registered, and both responses arrive. */
  const TWO_REQUESTS: seq<Action> := [Fetch, Fetch] + [Write(0), Write(1)] + [Register(0), Register(1)]

  function TwoAtOnce(p: Obj): seq<Action> { TWO_REQUESTS + [Arrive(0, p), Arrive(1, p)] }

  const TWO_CALLERS := State([Waiting, Waiting], [0, 1], map[])

  function TwoWaiting(p: Obj): State {
    TWO_CALLERS.(responders := map[0 := Responder(0, p, None, false), 1 := Responder(1, p, None, false)])
  }

  lemma TwoRequests()
    ensures IsRun(START, TWO_REQUESTS) && After(START, TWO_REQUESTS) == TWO_CALLERS
  {
    var s2, s4 := State([Counted, Counted], [], map[]), State([Sent, Sent], [], map[]);
    Twice(START, Fetch, Fetch, s2);
    Twice(s2, Write(0), Write(1), s4);
    RunsConcat(START, [Fetch, Fetch], [Write(0), Write(1)]);
    Twice(s4, Register(0), Register(1), TWO_CALLERS);
    RunsConcat(START, [Fetch, Fetch] + [Write(0), Write(1)], [Register(0), Register(1)]);
  }

  lemma TwoAtOnceIsRun(p: Obj)
    ensures IsRun(START, TwoAtOnce(p)) && After(START, TwoAtOnce(p)) == TwoWaiting(p)
  {
    TwoRequests();
    Twice(TWO_CALLERS, Arrive(0, p), Arrive(1, p), TwoWaiting(p));
    RunsConcat(START, TWO_REQUESTS, [Arrive(0, p), Arrive(1, p)]);
  }

  lemma Twice(s: State, a: Action, b: Action, next: State)
    requires Enabled(s, a) && Enabled(Apply(s, a), b) && next == Apply(Apply(s, a), b)
    ensures IsRun(s, [a, b]) && After(s, [a, b]) == next
  {
    TwoMore(s, a, b, []);
    assert [a, b] + [] == [a, b];
  }

  /** Each responder takes the other's node and puts it back. */
  const ROUND: seq<Action> := [Pop(1), Pop(0), Requeue(1), Requeue(0)]

  function Rounds(n: nat): seq<Action> { if n == 0 then [] else ROUND + Rounds(n - 1) }

  lemma RoundChangesNothing(p: Obj)
    ensures IsRun(TwoWaiting(p), ROUND) && After(TwoWaiting(p), ROUND) == TwoWaiting(p)
  {
    var s := TwoWaiting(p);
    var both := State([Waiting, Waiting], [], map[0 := Responder(0, p, Some(1), false), 1 := Responder(1, p, Some(0), false)]);
    Twice(s, Pop(1), Pop(0), both);
    Twice(both, Requeue(1), Requeue(0), s);
    RunsConcat(s, [Pop(1), Pop(0)], [Requeue(1), Requeue(0)]);
    assert [Pop(1), Pop(0)] + [Requeue(1), Requeue(0)] == ROUND;
  }

  /**
   Turns alone do not bring delivery: two responders that each move twice in every round can go on for
   any number of rounds without delivering, from a state that a run from the start leads to.
   */
  lemma {:induction false} FairTurnsMayNeverDeliver(p: Obj, n: nat)
    ensures IsRun(START, TwoAtOnce(p) + Rounds(n)) && After(START, TwoAtOnce(p) + Rounds(n)) == TwoWaiting(p)
  {
    TwoAtOnceIsRun(p);
    RoundsChangeNothing(p, n);
    RunsConcat(START, TwoAtOnce(p), Rounds(n));
  }

  lemma {:induction false} RoundsChangeNothing(p: Obj, n: nat)
    ensures IsRun(TwoWaiting(p), Rounds(n)) && After(TwoWaiting(p), Rounds(n)) == TwoWaiting(p)
  {
    if n > 0 {
      RoundChangesNothing(p);
      RoundsChangeNothing(p, n - 1);
      RunsConcat(TwoWaiting(p), ROUND, Rounds(n - 1));
    }
  }
}
