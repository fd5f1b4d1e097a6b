/**
 The FQ-CoDel scheduler of compat/sch_fq_codel.c as a machine whose steps are the visits to a flow:
 deficit round robin over new and old flows (RFC 8290, sections 4.1 and 4.2). How many packets CoDel drops
 at the head of a flow is arbitrary.
 */
module FqModel {
  import opened Common
  datatype Packet = Packet(id: nat, len: nat)

  function Bytes(q: seq<Packet>): nat {
    if q == [] then 0 else q[0].len + Bytes(q[1..])
  }

  datatype Sched = Sched(queues: seq<seq<Packet>>, deficits: seq<int>, newFlows: seq<nat>, oldFlows: seq<nat>)

  /** What can happen: a packet arrives; the longest flow loses its head; a flow at the head of its list gets
      a new quantum; it sends a packet after CoDel has dropped some; or CoDel finds, or leaves, it empty. */
  datatype Event =
    | Arrive(i: nat, p: Packet)
    | Overflow(i: nat)
    | Refill(i: nat)
    | Serve(i: nat, drops: nat)
    | Starve(i: nat)

  function Start(n: nat): Sched {
    Sched(seq(n, _ => []), seq(n, _ => 0), [], [])
  }

  predicate Listed(s: Sched, i: nat) {
    i in s.newFlows || i in s.oldFlows
  }

  // the flow whose turn it is
  predicate Turn(s: Sched, i: nat) {
    if s.newFlows != [] then s.newFlows[0] == i else s.oldFlows != [] && s.oldFlows[0] == i
  }

  ghost predicate WellFormed(s: Sched) {
    |s.deficits| == |s.queues| && (forall i :: i in All(s) ==> i < |s.queues|)
  }

  // all listed flows, in the order in which they will be visited
  function All(s: Sched): seq<nat> {
    s.newFlows + s.oldFlows
  }

  ghost predicate Enabled(s: Sched, e: Event)
  {
    match e
    case Arrive(i, p) => i < |s.queues|
    case Overflow(i) => i < |s.queues| && s.queues[i] != []
    case Refill(i) => i < |s.deficits| && Turn(s, i) && s.deficits[i] <= 0
    case Serve(i, drops) => i < |s.queues| && i < |s.deficits| && Turn(s, i) && s.deficits[i] > 0 && drops < |s.queues[i]|
    case Starve(i) => i < |s.queues| && i < |s.deficits| && Turn(s, i) && s.deficits[i] > 0
  }

  // the rest of a list when the flow at its head is taken off
  function Pop(l: seq<nat>): seq<nat> {
    if l == [] then [] else l[1..]
  }

  function MoveToOld(s: Sched, i: nat): Sched {
    if s.newFlows != [] then s.(newFlows := Pop(s.newFlows), oldFlows := s.oldFlows + [i]) else s.(oldFlows := Pop(s.oldFlows) + [i])
  }

  function Next(quantum: nat, s: Sched, e: Event): Sched
    requires Enabled(s, e) && WellFormed(s)
  {
    match e
    case Arrive(i, p) =>
      var s1 := s.(queues := s.queues[i := s.queues[i] + [p]]);
      if Listed(s, i) then s1 else s1.(newFlows := s.newFlows + [i], deficits := s.deficits[i := quantum])
    case Overflow(i) => s.(queues := s.queues[i := s.queues[i][1..]])
    case Refill(i) => MoveToOld(s.(deficits := s.deficits[i := s.deficits[i] + quantum]), i)
    case Serve(i, drops) =>
      s.(queues := s.queues[i := s.queues[i][drops + 1..]],
         deficits := s.deficits[i := s.deficits[i] - s.queues[i][drops].len])
    case Starve(i) =>
      var s1 := s.(queues := s.queues[i := []]);
      if s.newFlows != [] && s.oldFlows != [] then MoveToOld(s1, i)
      else if s.newFlows != [] then s1.(newFlows := Pop(s.newFlows))
      else s1.(oldFlows := Pop(s.oldFlows))
  }

  // ---- what every run keeps

  /** Every non-empty flow is on exactly one list, once; the deficit of a listed flow is more than minus the
      largest packet and at most a quantum. */
  ghost predicate Ok(quantum: nat, maxpkt: nat, s: Sched) {
    && WellFormed(s) && NoDup(All(s))
    && (forall i :: 0 <= i < |s.queues| ==> FlowOk(quantum, maxpkt, s, i))
  }

  ghost predicate FlowOk(quantum: nat, maxpkt: nat, s: Sched, i: nat)
    requires i < |s.queues| == |s.deficits|
  {
    && (s.queues[i] != [] ==> i in All(s))
    && (i in All(s) ==> -(maxpkt as int) < s.deficits[i] <= quantum)
    && (forall k :: 0 <= k < |s.queues[i]| ==> 0 < s.queues[i][k].len <= maxpkt)
  }

  ghost predicate Sensible(maxpkt: nat, e: Event) {
    e.Arrive? ==> 0 < e.p.len <= maxpkt
  }

  lemma OkKept(quantum: nat, maxpkt: nat, s: Sched, e: Event)
    requires quantum > 0 && Ok(quantum, maxpkt, s) && Enabled(s, e) && Sensible(maxpkt, e)
    ensures Ok(quantum, maxpkt, Next(quantum, s, e))
  {
    var r := Next(quantum, s, e);
    ListsKept(quantum, maxpkt, s, e);
    forall j | 0 <= j < |r.queues|
      ensures FlowOk(quantum, maxpkt, r, j)
    {
      assert FlowOk(quantum, maxpkt, s, j);
    }
  }

  /** The list of listed flows is rotated, loses its head, or gains a flow that was not in it. */
  lemma ListsKept(quantum: nat, maxpkt: nat, s: Sched, e: Event)
    requires Ok(quantum, maxpkt, s) && Enabled(s, e)
    ensures var r := Next(quantum, s, e);
      && WellFormed(r) && NoDup(All(r)) && |r.queues| == |s.queues|
      && (forall j :: j != e.i ==> (j in All(r) <==> j in All(s)))
      && (e.Starve? || e.i in All(r) <==> e.Starve? || e.Arrive? || e.i in All(s))
      && (e.Starve? ==> e.i in All(s) && (e.i !in All(r) ==> r.queues[e.i] == []))
  {
    var r := Next(quantum, s, e);
    var l := All(s);
    match e
    case Arrive(i, _) => if !Listed(s, i) { Inserted(s.newFlows, s.oldFlows, i); }
    case Overflow(_) =>
    case Serve(_, _) =>
    case Refill(i) =>
      MoveRotates(s, i);
      Rotated(l);
    case Starve(i) =>
      if s.newFlows != [] && s.oldFlows != [] {
        MoveRotates(s, i);
        Rotated(l);
      } else {
        assert All(r) == l[1..];
        Tail(l);
      }
  }

  lemma MoveRotates(s: Sched, i: nat)
    requires Turn(s, i)
    ensures All(s) != [] && All(s)[0] == i && All(MoveToOld(s, i)) == All(s)[1..] + [i]
  {
  }

  lemma Rotated(l: seq<nat>)
    requires NoDup(l) && l != []
    ensures NoDup(l[1..] + [l[0]]) && forall j :: j in l[1..] + [l[0]] <==> j in l
  {
    assert l == [l[0]] + l[1..];
  }

  lemma Tail(l: seq<nat>)
    requires NoDup(l) && l != []
    ensures NoDup(l[1..]) && forall j :: j in l[1..] <==> j in l && j != l[0]
  {
    assert l == [l[0]] + l[1..];
  }

  lemma Inserted(a: seq<nat>, b: seq<nat>, i: nat)
    requires NoDup(a + b) && i !in a && i !in b
    ensures NoDup(a + [i] + b) && forall j :: j in a + [i] + b <==> j == i || j in a + b
  {
    var l, m := a + b, a + [i] + b;
    forall j, k | 0 <= j < k < |m|
      ensures m[j] != m[k]
    {
      assert j < |a| ==> m[j] == l[j];
      assert j > |a| ==> m[j] == l[j - 1];
      assert k < |a| ==> m[k] == l[k];
      assert k > |a| ==> m[k] == l[k - 1];
    }
  }
}
