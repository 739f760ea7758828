/**
 The rendezvous between callers waiting for a response and the threads that bring one: a responder
 working alone, and then callers and responders interleaved in any order.
 */
module WaitQueue {
  import opened Wrappers
  import opened Mpack

  // ----- one responder over the shared queue

  /** What a caller leaves in the queue while it waits. */
  class WaitNode {
    const fd: int
    const count: nat
    var obj: Option<Obj>
    var awake: bool

    constructor (count: nat)
      ensures fd == 1 && this.count == count && obj == None && !awake
    {
      fd := 1;
      this.count := count;
      obj, awake := None, false;
    }
  }

  class Queue {
    var nodes: seq<WaitNode>

    constructor ()
      ensures nodes == []
    {
      nodes := [];
    }

    method Append(node: WaitNode)
      modifies this
      ensures nodes == old(nodes) + [node]
    {
      nodes := nodes + [node];
    }

    method Pop() returns (node: WaitNode?)
      modifies this
      ensures if |old(nodes)| == 0 then node == null && nodes == []
              else node == old(nodes)[0] && nodes == old(nodes)[1..]
    {
      if |nodes| == 0 {
        return null;
      }
      node, nodes := nodes[0], nodes[1..];
    }
  }

  predicate Answers(node: WaitNode, fd: int, count: nat) { node.fd == fd && node.count == count }

  /**
   A responder with the queue to itself: with its first match at position k it pops exactly k + 1
   nodes, wakes the match and no other, and leaves the nodes it passed over behind the rest.
   */
  method HandleNvimResponse(queue: Queue, obj: Obj, fd0: int, count: nat, ghost k: nat) returns (pops: nat)
    requires k < |queue.nodes| && Answers(queue.nodes[k], if fd0 == 0 then 1 else fd0, count)
    requires forall j :: 0 <= j < k ==> !Answers(queue.nodes[j], if fd0 == 0 then 1 else fd0, count)
    modifies queue, queue.nodes
    ensures pops == k + 1 && queue.nodes == old(queue.nodes)[k + 1..] + old(queue.nodes)[..k]
    ensures old(queue.nodes)[k].obj == Some(obj) && old(queue.nodes)[k].awake
    ensures forall n :: n in old(queue.nodes) && n != old(queue.nodes)[k] ==> n.obj == old(n.obj) && n.awake == old(n.awake)
  {
    var fd := if fd0 == 0 then 1 else fd0;
    ghost var start := queue.nodes;
    pops := 0;
    while true
      invariant 0 <= pops <= k && fd == if fd0 == 0 then 1 else fd0
      invariant queue.nodes == start[pops..] + start[..pops]
      decreases k - pops
      invariant forall n :: n in start ==> n.obj == old(n.obj) && n.awake == old(n.awake)
      modifies queue, start
    {
      var node := queue.Pop();
      pops := pops + 1;
      assert node == start[pops - 1];
      if node.fd == fd && node.count == count {
        node.obj := Some(obj);
        node.awake := true;
        assert pops == k + 1;
        return;
      }
      queue.Append(node);
      assert start[pops..] + start[..pops - 1] + [node] == start[pops..] + start[..pops];
    }
  }

  // ----- all interleavings

  /** Request ids come from a counter of 32 bits. */
  const COUNT_RANGE: nat := 0x1_0000_0000

  /** The id of the request with a ticket, tickets being numbered without wrapping. */
  function Count(ticket: nat): nat { ticket % COUNT_RANGE }

  /** How far a caller has come. */
  datatype Phase =
    | Counted
    | Sent
    | Waiting
    | Delivered(obj: Obj)
    | Returned(obj: Obj)

  /** A thread with one response: the id and payload it carries and the node it has popped, if any. */
  datatype Responder = Responder(id: nat, payload: Obj, held: Option<nat>, finished: bool)

  /**
   Callers by ticket, the queue of their nodes, and responders by the ticket they answer. A responder
   only ever looks at the ids.
   */
  datatype State = State(callers: seq<Phase>, queue: seq<nat>, responders: map<nat, Responder>)

  const START := State([], [], map[])

  datatype Action =
    | Fetch
    | Write(caller: nat)
    | Register(caller: nat)
    | Arrive(caller: nat, payload: Obj)
    | Pop(responder: nat)
    | Deliver(responder: nat)
    | Requeue(responder: nat)
    | Nap(responder: nat)
    | Return(caller: nat)

  predicate Live(s: State, t: nat) { t < |s.callers| && !s.callers[t].Returned? }

  predicate Busy(s: State, r: nat) { r in s.responders && s.responders[r].held.Some? }

  /**
   When each step can happen; a responder that finds the queue empty naps and tries again. A request is answered at most once, after it was written; fewer than
   2^32 requests are under way when another one starts.
   */
  predicate Enabled(s: State, a: Action) {
    match a
    case Fetch => forall t :: 0 <= t < |s.callers| ==> Live(s, t) ==> |s.callers| - t < COUNT_RANGE
    case Write(t) => t < |s.callers| && s.callers[t] == Counted
    case Register(t) => t < |s.callers| && s.callers[t] == Sent
    case Arrive(t, _) => t < |s.callers| && (s.callers[t] == Sent || s.callers[t] == Waiting) && t !in s.responders
    case Pop(r) => r in s.responders && !s.responders[r].finished && s.responders[r].held == None && |s.queue| > 0
    case Deliver(r) => Busy(s, r) && s.responders[r].held.value < |s.callers| && Count(s.responders[r].held.value) == s.responders[r].id
    case Requeue(r) => Busy(s, r) && Count(s.responders[r].held.value) != s.responders[r].id
    case Nap(r) => r in s.responders && !s.responders[r].finished && s.responders[r].held == None && |s.queue| == 0
    case Return(t) => t < |s.callers| && s.callers[t].Delivered?
  }

  function Apply(s: State, a: Action): State
    requires Enabled(s, a)
  {
    match a
    case Fetch => s.(callers := s.callers + [Counted])
    case Write(t) => s.(callers := s.callers[t := Sent])
    case Register(t) => s.(callers := s.callers[t := Waiting], queue := s.queue + [t])
    case Arrive(t, payload) => s.(responders := s.responders[t := Responder(Count(t), payload, None, false)])
    case Pop(r) =>
      s.(queue := s.queue[1..], responders := s.responders[r := s.responders[r].(held := Some(s.queue[0]))])
    case Deliver(r) =>
      var me := s.responders[r];
      s.(callers := s.callers[me.held.value := Delivered(me.payload)],
         responders := s.responders[r := me.(held := None, finished := true)])
    case Requeue(r) =>
      var me := s.responders[r];
      s.(queue := s.queue + [me.held.value], responders := s.responders[r := me.(held := None)])
    case Nap(r) => s
    case Return(t) => s.(callers := s.callers[t := Returned(s.callers[t].obj)])
  }

  /** A responder has a caller's node in its hands. */
  predicate Held(s: State, r: nat, t: nat) { r in s.responders && s.responders[r].held == Some(t) }

  predicate Waits(s: State, t: nat) { t < |s.callers| && s.callers[t] == Waiting }

  ghost predicate QueueWaits(s: State) {
    && (forall t :: t in s.queue ==> Waits(s, t))
    && (forall i, j :: 0 <= i < j < |s.queue| ==> s.queue[i] != s.queue[j])
  }

  ghost predicate HandsWait(s: State) {
    && (forall r, t :: Held(s, r, t) ==> Waits(s, t) && t !in s.queue)
    && (forall r, q, t :: Held(s, r, t) && Held(s, q, t) ==> r == q)
  }

  ghost predicate Placed(s: State, t: nat) { t in s.queue || exists r :: Held(s, r, t) }

  /** Nodes are where they should be: each waiting caller's in the queue once or in one responder's hands, no other's anywhere. */
  ghost predicate NodesConserved(s: State) {
    QueueWaits(s) && HandsWait(s) && forall t :: Waits(s, t) ==> Placed(s, t)
  }

  /** What a responder knows: its own id. A finished one has delivered to its own caller, an unfinished one's caller is still owed. */
  predicate Sound(s: State, r: nat)
    requires r in s.responders
  {
    var me := s.responders[r];
    && r < |s.callers| && me.id == Count(r)
    && if me.finished then me.held == None && (s.callers[r] == Delivered(me.payload) || s.callers[r] == Returned(me.payload))
       else s.callers[r] == Sent || s.callers[r] == Waiting
  }

  predicate Answered(s: State, t: nat) { t < |s.callers| && (s.callers[t].Delivered? || s.callers[t].Returned?) }

  ghost predicate ResponsesMatched(s: State) {
    && (forall r :: r in s.responders ==> Sound(s, r))
    && (forall t :: Answered(s, t) ==> t in s.responders && s.responders[t].finished)
  }

  /** Requests under way are recent enough to have different ids. */
  ghost predicate IdsDistinct(s: State) {
    forall t :: Live(s, t) ==> |s.callers| - t <= COUNT_RANGE
  }

  ghost predicate Inv(s: State) {
    NodesConserved(s) && ResponsesMatched(s) && IdsDistinct(s)
  }

  lemma LiveIdsDiffer(s: State, t: nat, u: nat)
    requires IdsDistinct(s) && Live(s, t) && Live(s, u) && Count(t) == Count(u)
    ensures t == u
  {
    if t < u {
      SameResidue(t, u);
    } else if u < t {
      SameResidue(u, t);
    }
  }

  /** Ids repeat after 2^32 requests and not before. */
  lemma IdsAreEqualIff(t: nat, u: nat)
    requires t <= u
    ensures Count(t) == Count(u) <==> exists k: nat :: u == t + k * 4294967296
  {
    if Count(t) == Count(u) {
      assert u == t + ((u - t) / 4294967296) * 4294967296;
    }
  }

  lemma SameResidue(t: nat, u: nat)
    requires t < u < t + COUNT_RANGE
    ensures Count(t) != Count(u)
  {
  }

  /** A delivery always reaches the caller whose request is being answered. */
  lemma DeliversToOwnCaller(s: State, r: nat)
    requires Inv(s) && Enabled(s, Deliver(r))
    ensures s.responders[r].held == Some(r)
  {
    assert Held(s, r, s.responders[r].held.value) && Sound(s, r);
    LiveIdsDiffer(s, s.responders[r].held.value, r);
  }

  // ----- the invariant, step by step

  lemma KeepsIds(s: State, a: Action)
    requires Inv(s) && Enabled(s, a)
    ensures IdsDistinct(Apply(s, a))
  {
    var s' := Apply(s, a);
    if a.Deliver? {
      DeliversToOwnCaller(s, a.responder);
      assert Held(s, a.responder, a.responder);
    }
    forall t: nat | Live(s', t)
      ensures |s'.callers| - t <= COUNT_RANGE
    {
      assert t < |s.callers| ==> Live(s, t);
    }
  }

  lemma KeepsResponses(s: State, a: Action)
    requires ResponsesMatched(s) && Enabled(s, a)
    requires a.Deliver? ==> s.responders[a.responder].held == Some(a.responder)
    ensures ResponsesMatched(Apply(s, a))
  {
    var s' := Apply(s, a);
    forall r | r in s'.responders
      ensures Sound(s', r)
    {
      KeepsSound(s, a, r);
    }
    forall t | Answered(s', t)
      ensures t in s'.responders && s'.responders[t].finished
    {
      assert Answered(s, t) || a == Deliver(t);
    }
  }

  lemma KeepsSound(s: State, a: Action, r: nat)
    requires r in s.responders ==> Sound(s, r)
    requires Enabled(s, a) && r in Apply(s, a).responders
    requires a.Deliver? ==> Sound(s, a.responder) && s.responders[a.responder].held == Some(a.responder)
    ensures Sound(Apply(s, a), r)
  {
  }

  /** A caller's own steps leave the nodes of the others alone. */
  lemma KeepsNodesCaller(s: State, a: Action)
    requires NodesConserved(s) && Enabled(s, a) && (a.Fetch? || a.Write? || a.Return? || a.Arrive? || a.Nap?)
    ensures NodesConserved(Apply(s, a))
  {
    var s' := Apply(s, a);
    assert forall t :: Waits(s', t) <==> Waits(s, t);
    assert forall r, t :: Held(s', r, t) <==> Held(s, r, t);
    forall t | Waits(s', t)
      ensures Placed(s', t)
    {
      StaysPlaced(s, s', t);
    }
  }

  lemma StaysPlaced(s: State, s': State, t: nat)
    requires Placed(s, t)
    requires t in s.queue ==> t in s'.queue
    requires forall r :: Held(s, r, t) ==> Held(s', r, t)
    ensures Placed(s', t)
  {
  }

  lemma KeepsNodesRegister(s: State, c: nat)
    requires NodesConserved(s) && Enabled(s, Register(c))
    ensures NodesConserved(Apply(s, Register(c)))
  {
    var s' := Apply(s, Register(c));
    assert !Waits(s, c);
    assert forall t :: Waits(s', t) <==> Waits(s, t) || t == c;
    assert forall r, t :: Held(s', r, t) <==> Held(s, r, t);
    Appended(s.queue, c);
    forall t | Waits(s', t)
      ensures Placed(s', t)
    {
      if t != c {
        StaysPlaced(s, s', t);
      }
    }
  }

  lemma Appended(queue: seq<nat>, n: nat)
    requires n !in queue && forall i, j :: 0 <= i < j < |queue| ==> queue[i] != queue[j]
    ensures forall t :: t in queue + [n] <==> t in queue || t == n
    ensures forall i, j :: 0 <= i < j < |queue + [n]| ==> (queue + [n])[i] != (queue + [n])[j]
  {
  }

  lemma KeepsNodesPop(s: State, r: nat)
    requires NodesConserved(s) && Enabled(s, Pop(r))
    ensures NodesConserved(Apply(s, Pop(r)))
  {
    var s' := Apply(s, Pop(r));
    var n := s.queue[0];
    Popped(s.queue);
    assert forall t :: Waits(s', t) <==> Waits(s, t);
    assert forall q, t :: Held(s', q, t) <==> Held(s, q, t) || (q == r && t == n);
    forall t | Waits(s', t)
      ensures Placed(s', t)
    {
      if t == n {
        assert Held(s', r, t);
      } else {
        StaysPlaced(s, s', t);
      }
    }
  }

  lemma Popped(queue: seq<nat>)
    requires |queue| > 0 && forall i, j :: 0 <= i < j < |queue| ==> queue[i] != queue[j]
    ensures forall t :: t in queue[1..] <==> t in queue && t != queue[0]
    ensures forall i, j :: 0 <= i < j < |queue[1..]| ==> queue[1..][i] != queue[1..][j]
  {
    forall t | t in queue && t != queue[0]
      ensures t in queue[1..]
    {
      var i :| 0 <= i < |queue| && queue[i] == t;
      assert queue[1..][i - 1] == t;
    }
  }

  lemma KeepsNodesRequeue(s: State, r: nat)
    requires NodesConserved(s) && Enabled(s, Requeue(r))
    ensures NodesConserved(Apply(s, Requeue(r)))
  {
    var s' := Apply(s, Requeue(r));
    var n := s.responders[r].held.value;
    assert Held(s, r, n);
    Appended(s.queue, n);
    assert forall t :: Waits(s', t) <==> Waits(s, t);
    assert forall q, t :: Held(s', q, t) <==> Held(s, q, t) && t != n;
    forall t | Waits(s', t)
      ensures Placed(s', t)
    {
      if t != n {
        StaysPlaced(s, s', t);
      }
    }
  }

  lemma KeepsNodesDeliver(s: State, r: nat)
    requires NodesConserved(s) && Enabled(s, Deliver(r))
    ensures NodesConserved(Apply(s, Deliver(r)))
  {
    var s' := Apply(s, Deliver(r));
    var n := s.responders[r].held.value;
    assert Held(s, r, n);
    assert forall t :: Waits(s', t) <==> Waits(s, t) && t != n;
    assert forall q, t :: Held(s', q, t) <==> Held(s, q, t) && t != n;
    forall t | Waits(s', t)
      ensures Placed(s', t)
    {
      StaysPlaced(s, s', t);
    }
  }

  /** Every step keeps the invariant. */
  lemma StepKeepsInv(s: State, a: Action)
    requires Inv(s) && Enabled(s, a)
    ensures Inv(Apply(s, a))
  {
    KeepsIds(s, a);
    if a.Deliver? {
      DeliversToOwnCaller(s, a.responder);
    }
    KeepsResponses(s, a);
    match a
    case Register(c) => KeepsNodesRegister(s, c);
    case Pop(r) => KeepsNodesPop(s, r);
    case Requeue(r) => KeepsNodesRequeue(s, r);
    case Deliver(r) => KeepsNodesDeliver(s, r);
    case _ => KeepsNodesCaller(s, a);
  }

  // ----- whole runs

  /** A run: each action can happen in the state its predecessors lead to. */
  predicate IsRun(s: State, run: seq<Action>)
    decreases |run|
  {
    |run| > 0 ==> Enabled(s, run[0]) && IsRun(Apply(s, run[0]), run[1..])
  }

  function After(s: State, run: seq<Action>): State
    requires IsRun(s, run)
    decreases |run|
  {
    if |run| == 0 then s else After(Apply(s, run[0]), run[1..])
  }

  lemma {:induction false} RunKeepsInv(s: State, run: seq<Action>)
    requires Inv(s) && IsRun(s, run)
    ensures Inv(After(s, run))
    decreases |run|
  {
    if |run| > 0 {
      StepKeepsInv(s, run[0]);
      RunKeepsInv(Apply(s, run[0]), run[1..]);
    }
  }

  /** The responders that hold a caller's node. */
  ghost function Holders(s: State, t: nat): set<nat> {
    set r | r in s.responders && s.responders[r].held == Some(t)
  }

  /**
   In every interleaving: a caller that got an object got the payload of the response to its own
   request, and each registered unanswered node is in the queue once or held by one responder, never
   both, while all other nodes are in neither.
   */
  lemma EveryInterleavingIsSafe(run: seq<Action>, t: nat)
    requires IsRun(START, run) && t < |After(START, run).callers|
    ensures var s := After(START, run);
            && (s.callers[t].Delivered? || s.callers[t].Returned? ==>
                  t in s.responders && s.callers[t].obj == s.responders[t].payload && s.responders[t].id == Count(t))
            && multiset(s.queue)[t] + |Holders(s, t)| == if s.callers[t] == Waiting then 1 else 0
  {
    RunKeepsInv(START, run);
    var s := After(START, run);
    QueuedOnce(s.queue, t);
    assert t in s.responders ==> Sound(s, t);
    assert forall r :: r in Holders(s, t) <==> Held(s, r, t);
    if r :| r in Holders(s, t) {
      assert Held(s, r, t);
      assert Holders(s, t) == {r};
    } else {
      assert Waits(s, t) ==> t in s.queue;
      assert Holders(s, t) == {};
    }
  }

  lemma {:induction false} QueuedOnce(queue: seq<nat>, t: nat)
    requires forall i, j :: 0 <= i < j < |queue| ==> queue[i] != queue[j]
    ensures multiset(queue)[t] == if t in queue then 1 else 0
  {
    if |queue| > 0 {
      var n := |queue| - 1;
      QueuedOnce(queue[..n], t);
      assert queue == queue[..n] + [queue[n]];
      if t == queue[n] {
        assert t !in queue[..n];
      }
    }
  }

  /** The answer a caller has been given. */
  function Answer(p: Phase): Option<Obj> {
    match p
    case Delivered(obj) => Some(obj)
    case Returned(obj) => Some(obj)
    case _ => None
  }

  /** Once given, an answer never changes. */
  lemma {:induction false} AnswersAreFinal(s: State, run: seq<Action>, t: nat)
    requires Inv(s) && IsRun(s, run) && t < |s.callers| && Answer(s.callers[t]).Some?
    ensures t < |After(s, run).callers| && Answer(After(s, run).callers[t]) == Answer(s.callers[t])
    decreases |run|
  {
    if |run| > 0 {
      var a := run[0];
      if a.Deliver? {
        DeliversToOwnCaller(s, a.responder);
      }
      StepKeepsInv(s, a);
      AnswersAreFinal(Apply(s, a), run[1..], t);
    }
  }

  /** No answer is stuck: while an arrived response is undelivered and its caller waits, some responder can move. */
  lemma SomeResponderCanMove(s: State, t: nat) returns (a: Action)
    requires Inv(s) && t < |s.callers| && s.callers[t] == Waiting && t in s.responders
    ensures (a.Pop? || a.Deliver? || a.Requeue?) && Enabled(s, a)
  {
    if t in s.queue && s.responders[t].held == None {
      a := Pop(t);
    } else {
      var r := t;
      if s.responders[t].held == None {
        assert Waits(s, t);
        r :| Held(s, r, t);
      }
      assert Held(s, r, s.responders[r].held.value) && Sound(s, r);
      a := if Count(s.responders[r].held.value) == s.responders[r].id then Deliver(r) else Requeue(r);
    }
  }

  /**
   From any reachable state a responder that moves alone delivers: with its caller's node at position
   k it takes exactly k + 1 pops, each but the last followed by a requeue.
   */
  lemma {:induction false} AloneDelivers(s: State, t: nat, k: nat)
    requires Inv(s) && t in s.responders && s.responders[t].held == None && k < |s.queue| && s.queue[k] == t
    ensures IsRun(s, Alone(t, k))
    ensures After(s, Alone(t, k)).queue == s.queue[k + 1..] + s.queue[..k]
    ensures t < |After(s, Alone(t, k)).callers| && After(s, Alone(t, k)).callers[t] == Delivered(s.responders[t].payload)
    decreases k
  {
    assert t in s.queue && Waits(s, t);
    if k == 0 {
      DeliverAtOnce(s, t);
    } else {
      var next := PassOver(s, t);
      Rotated(s.queue, next.queue, k);
      AloneDelivers(next, t, k - 1);
      TwoMore(s, Pop(t), Requeue(t), Alone(t, k - 1));
    }
  }

  lemma Rotated(queue: seq<nat>, next: seq<nat>, k: nat)
    requires 0 < k < |queue| && next == queue[1..] + [queue[0]]
    ensures next[k - 1] == queue[k] && next[k..] + next[..k - 1] == queue[k + 1..] + queue[..k]
  {
  }

  /** A responder's moves when it meets k other nodes first. */
  function Alone(t: nat, k: nat): (run: seq<Action>)
    ensures |run| == 2 * (k + 1)
  {
    if k == 0 then [Pop(t), Deliver(t)] else [Pop(t), Requeue(t)] + Alone(t, k - 1)
  }

  lemma DeliverAtOnce(s: State, t: nat)
    requires Inv(s) && t in s.responders && s.responders[t].held == None && |s.queue| > 0 && s.queue[0] == t && Waits(s, t)
    ensures IsRun(s, Alone(t, 0))
    ensures After(s, Alone(t, 0)).queue == s.queue[1..] + s.queue[..0]
    ensures t < |After(s, Alone(t, 0)).callers| && After(s, Alone(t, 0)).callers[t] == Delivered(s.responders[t].payload)
  {
    assert Sound(s, t);
    var run := [Pop(t), Deliver(t)];
    OneMore(s, run);
    OneMore(Apply(s, Pop(t)), run[1..]);
    assert s.queue[1..] + s.queue[..0] == s.queue[1..];
  }

  /** A node that is not the responder's goes from the front of the queue to its end. */
  lemma PassOver(s: State, t: nat) returns (next: State)
    requires Inv(s) && t in s.responders && s.responders[t].held == None && |s.queue| > 0 && s.queue[0] != t && Waits(s, t)
    ensures Enabled(s, Pop(t)) && Enabled(Apply(s, Pop(t)), Requeue(t)) && next == Apply(Apply(s, Pop(t)), Requeue(t))
    ensures Inv(next) && next == s.(queue := s.queue[1..] + [s.queue[0]])
  {
    var passed := s.queue[0];
    assert passed in s.queue && Waits(s, passed) && Sound(s, t);
    if Count(passed) == Count(t) {
      LiveIdsDiffer(s, passed, t);
    }
    StepKeepsInv(s, Pop(t));
    StepKeepsInv(Apply(s, Pop(t)), Requeue(t));
    next := Apply(Apply(s, Pop(t)), Requeue(t));
  }

  lemma TwoMore(s: State, a: Action, b: Action, rest: seq<Action>)
    requires Enabled(s, a) && Enabled(Apply(s, a), b) && IsRun(Apply(Apply(s, a), b), rest)
    ensures IsRun(s, [a, b] + rest) && After(s, [a, b] + rest) == After(Apply(Apply(s, a), b), rest)
  {
    var run := [a, b] + rest;
    assert run[1..] == [b] + rest && run[1..][1..] == rest;
    OneMore(s, run);
    OneMore(Apply(s, a), run[1..]);
  }

  lemma OneMore(s: State, run: seq<Action>)
    requires |run| > 0 && Enabled(s, run[0])
    ensures IsRun(s, run) <==> IsRun(Apply(s, run[0]), run[1..])
    ensures IsRun(s, run) ==> After(s, run) == After(Apply(s, run[0]), run[1..])
  {
  }

  /** Once every response is delivered the queue is empty of answered requests: what is left still awaits an answer. */
  lemma QuietQueue(s: State, i: nat)
    requires Inv(s) && i < |s.queue| && forall r :: r in s.responders ==> s.responders[r].finished
    ensures s.queue[i] !in s.responders
  {
    assert s.queue[i] in s.queue && Waits(s, s.queue[i]);
    assert s.queue[i] in s.responders ==> Sound(s, s.queue[i]);
  }
}
