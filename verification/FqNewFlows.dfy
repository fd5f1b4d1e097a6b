/**
 What the list of new flows is for, over whole runs of the FQ-CoDel scheduler (RFC 8290, sections 4.1 and 4.2): new
 flows are served in the order in which they became active, each with one quantum, so that a flow that sends little
 never waits for a second turn; and for all that the old flows are not starved.
 */
module FqNewFlows {
  import opened Common
  import opened FqModel
  import opened FqFairness

  // a flow's turn ends when it gets a new quantum or is empty
  predicate Ends(e: Event) { e.Refill? || e.Starve? }

  predicate Visits(e: Event, i: nat) { (Ends(e) || e.Serve?) && e.i == i }

  // how many turns end
  function Ended(t: seq<Event>): nat {
    if t == [] then 0 else (if Ends(t[0]) then 1 else 0) + Ended(t[1..])
  }

  /** Flows that become active queue up behind the new flows, and each turn that ends takes one flow off the front,
      whatever arrives: the flow at place k gets its turn when k turns have ended, no sooner and no later. */
  lemma {:induction false} NewInOrder(quantum: nat, maxpkt: nat, s: Sched, t: seq<Event>)
    requires CanRun(quantum, maxpkt, s, t) && Ended(t) <= |s.newFlows|
    ensures s.newFlows[Ended(t)..] <= After(quantum, maxpkt, s, t).newFlows
    decreases |t|
  {
    if t != [] {
      var r := Next(quantum, s, t[0]);
      if Ends(t[0]) {
        assert r.newFlows == s.newFlows[1..];
        assert s.newFlows[1..][Ended(t[1..])..] == s.newFlows[Ended(t)..];
      } else {
        assert s.newFlows <= r.newFlows;
        assert s.newFlows[Ended(t)..] <= r.newFlows[Ended(t)..];
      }
      NewInOrder(quantum, maxpkt, r, t[1..]);
    }
  }

  /** A flow that becomes active comes behind all new flows, with one quantum; one that is on a list stays there. */
  lemma ArrivesLast(quantum: nat, s: Sched, i: nat, p: Packet)
    requires WellFormed(s) && i < |s.queues|
    ensures var r := Next(quantum, s, Arrive(i, p));
      && r.oldFlows == s.oldFlows && r.queues == s.queues[i := s.queues[i] + [p]]
      && (if i in s.newFlows || i in s.oldFlows then r.newFlows == s.newFlows && r.deficits == s.deficits
          else r.newFlows == s.newFlows + [i] && r.deficits == s.deficits[i := quantum])
  {
  }

  /** Of two new flows, the one in front gets its turn first: until that ends, the other is not visited. */
  lemma {:induction false} WaitsBehind(quantum: nat, maxpkt: nat, s: Sched, t: seq<Event>, a: nat, b: nat)
    requires quantum > 0 && Ok(quantum, maxpkt, s) && CanRun(quantum, maxpkt, s, t) && Before(s.newFlows, a, b)
    requires forall k :: 0 <= k < |t| ==> t[k] != Refill(a) && t[k] != Starve(a)
    ensures forall k :: 0 <= k < |t| ==> !Visits(t[k], b)
    ensures Before(After(quantum, maxpkt, s, t).newFlows, a, b)
    decreases |t|
  {
    if t != [] {
      var r := Next(quantum, s, t[0]);
      OkKept(quantum, maxpkt, s, t[0]);
      StillBefore(quantum, maxpkt, s, t[0], a, b);
      assert forall k :: 0 <= k < |t[1..]| ==> t[1..][k] == t[k + 1];
      WaitsBehind(quantum, maxpkt, r, t[1..], a, b);
      forall k | 0 <= k < |t|
        ensures !Visits(t[k], b)
      {
        assert k > 0 ==> t[k] == t[1..][k - 1];
      }
    }
  }

  lemma StillBefore(quantum: nat, maxpkt: nat, s: Sched, e: Event, a: nat, b: nat)
    requires Ok(quantum, maxpkt, s) && Enabled(s, e) && Before(s.newFlows, a, b) && e != Refill(a) && e != Starve(a)
    ensures !Visits(e, b) && Before(Next(quantum, s, e).newFlows, a, b)
  {
    var l, l' := s.newFlows, Next(quantum, s, e).newFlows;
    var i, j :| 0 <= i < j < |l| && l[i] == a && l[j] == b;
    assert All(s)[0] == l[0] && All(s)[j] == l[j] && All(s)[i] == l[i];
    if Ends(e) {
      assert l' == l[1..];
      Found(l', i - 1, j - 1, a, b);
    } else {
      assert l <= l';
      Found(l', i, j, a, b);
    }
  }

  // ---- what a flow may send

  /** Flow `i` is on one of the lists all the time, and gets no new quantum. */
  ghost predicate Unfilled(quantum: nat, maxpkt: nat, s: Sched, t: seq<Event>, i: nat)
    requires CanRun(quantum, maxpkt, s, t)
    decreases |t|
  {
    i in All(s) && (t != [] ==> t[0] != Refill(i) && Unfilled(quantum, maxpkt, Next(quantum, s, t[0]), t[1..], i))
  }

  /** Before its first refill, a flow that became active sends less than one quantum and one packet. */
  lemma FirstTurn(quantum: nat, maxpkt: nat, s: Sched, i: nat, p: Packet, t: seq<Event>)
    requires quantum > 0 && Ok(quantum, maxpkt, s) && i < |s.queues| && !Listed(s, i) && 0 < p.len <= maxpkt
    requires var r := Next(quantum, s, Arrive(i, p)); CanRun(quantum, maxpkt, r, t) && Unfilled(quantum, maxpkt, r, t, i)
    ensures Sent(quantum, maxpkt, Next(quantum, s, Arrive(i, p)), t, i) < quantum + maxpkt
  {
    var r := Next(quantum, s, Arrive(i, p));
    OkKept(quantum, maxpkt, s, Arrive(i, p));
    SentIs(quantum, maxpkt, r, t, i);
  }

  lemma {:induction false} SentIs(quantum: nat, maxpkt: nat, s: Sched, t: seq<Event>, i: nat)
    requires quantum > 0 && Ok(quantum, maxpkt, s) && CanRun(quantum, maxpkt, s, t) && Unfilled(quantum, maxpkt, s, t, i)
    ensures i < |s.deficits| && Sent(quantum, maxpkt, s, t, i) < s.deficits[i] + maxpkt
    decreases |t|
  {
    assert i in All(s);
    assert FlowOk(quantum, maxpkt, s, i);
    if t != [] {
      OkKept(quantum, maxpkt, s, t[0]);
      SentIs(quantum, maxpkt, Next(quantum, s, t[0]), t[1..], i);
    }
  }

  /** A flow that becomes active, with less than a quantum to send in all, never waits for a new quantum: its turn goes
      on until it is empty. */
  lemma SparseFlow(quantum: nat, maxpkt: nat, s: Sched, i: nat, p: Packet, t: seq<Event>)
    requires quantum > 0 && Ok(quantum, maxpkt, s) && i < |s.queues| && !Listed(s, i) && 0 < p.len <= maxpkt
    requires CanRun(quantum, maxpkt, Next(quantum, s, Arrive(i, p)), t)
    requires p.len + Bytes(Arrived(t, i)) < quantum && forall k :: 0 <= k < |t| ==> t[k] != Starve(i)
    ensures forall k :: 0 <= k < |t| ==> t[k] != Refill(i)
  {
    var r := Next(quantum, s, Arrive(i, p));
    OkKept(quantum, maxpkt, s, Arrive(i, p));
    assert FlowOk(quantum, maxpkt, s, i);
    assert r.queues[i] == [p] && [p][1..] == [];
    CreditLasts(quantum, maxpkt, r, t, i);
  }

  lemma {:induction false} CreditLasts(quantum: nat, maxpkt: nat, s: Sched, t: seq<Event>, i: nat)
    requires quantum > 0 && Ok(quantum, maxpkt, s) && CanRun(quantum, maxpkt, s, t) && i in All(s)
    requires Bytes(s.queues[i]) + Bytes(Arrived(t, i)) < s.deficits[i]
    requires forall k :: 0 <= k < |t| ==> t[k] != Starve(i)
    ensures forall k :: 0 <= k < |t| ==> t[k] != Refill(i)
    decreases |t|
  {
    if t != [] {
      var r := Next(quantum, s, t[0]);
      OkKept(quantum, maxpkt, s, t[0]);
      ListsKept(quantum, maxpkt, s, t[0]);
      CreditKept(quantum, s, t[0], t[1..], i);
      CreditLasts(quantum, maxpkt, r, t[1..], i);
      forall k | 0 <= k < |t|
        ensures t[k] != Refill(i)
      {
        assert k > 0 ==> t[k] == t[1..][k - 1];
      }
    }
  }

  lemma CreditKept(quantum: nat, s: Sched, e: Event, t: seq<Event>, i: nat)
    requires WellFormed(s) && Enabled(s, e) && i in All(s) && e != Starve(i)
    requires Bytes(s.queues[i]) + Bytes(Arrived([e] + t, i)) < s.deficits[i]
    ensures e != Refill(i)
    ensures var r := Next(quantum, s, e); Bytes(r.queues[i]) + Bytes(Arrived(t, i)) < r.deficits[i]
  {
    var q := s.queues[i];
    assert ([e] + t)[1..] == t;
    BytesJoin(Added(e, i), Arrived(t, i));
    BytesJoin(q, Added(e, i));
    BytesJoin([], []);
    if e.Serve? && e.i == i {
      BytesServed(q, e.drops);
    }
  }

  lemma BytesServed(q: seq<Packet>, k: nat)
    requires k < |q|
    ensures q[k].len + Bytes(q[k + 1..]) <= Bytes(q)
  {
    assert q == q[..k] + ([q[k]] + q[k + 1..]);
    BytesJoin(q[..k], [q[k]] + q[k + 1..]);
    BytesJoin([q[k]], q[k + 1..]);
  }

  lemma {:induction false} BytesJoin(a: seq<Packet>, b: seq<Packet>)
    ensures Bytes(a + b) == Bytes(a) + Bytes(b)
    ensures |a| == 1 ==> Bytes(a) == a[0].len
    decreases |a|
  {
    if a == [] {
      assert a + b == b;
    } else {
      assert (a + b)[1..] == a[1..] + b;
      BytesJoin(a[1..], b);
    }
  }

  // ---- the old flows

  /** An old flow with `p` others in front of it gets its turn, whatever arrives, after at most so many turns of other
      flows as there are flows that are not behind it, and `p` more: a new flow that has been served waits
      behind it, even when it was found empty. */
  lemma {:induction false} OldNotStarved(quantum: nat, maxpkt: nat, s: Sched, t: seq<Event>, p: nat)
    requires quantum > 0 && Ok(quantum, maxpkt, s) && CanRun(quantum, maxpkt, s, t) && p < |s.oldFlows|
    requires forall k :: 0 <= k < |t| ==> !Visits(t[k], s.oldFlows[p])
    ensures Ended(t) <= p + (|s.queues| - (|s.oldFlows| - p))
    decreases |t|
  {
    AtMost(All(s), |s.queues|);
    if t != [] {
      var e, r := t[0], Next(quantum, s, t[0]);
      OkKept(quantum, maxpkt, s, e);
      ListsKept(quantum, maxpkt, s, e);
      var p' := if Ends(e) && s.newFlows == [] then p - 1 else p;
      assert r.oldFlows[p'] == s.oldFlows[p];
      assert forall k :: 0 <= k < |t[1..]| ==> t[1..][k] == t[k + 1];
      OldNotStarved(quantum, maxpkt, r, t[1..], p');
    }
  }

  lemma {:induction false} AtMost(l: seq<nat>, n: nat)
    requires NoDup(l) && forall i :: i in l ==> i < n
    ensures |l| <= n
    decreases n
  {
    if n == 0 {
      assert forall k :: 0 <= k < |l| ==> l[k] in l;
    } else if n - 1 in l {
      var k :| 0 <= k < |l| && l[k] == n - 1;
      var m := l[..k] + l[k + 1..];
      forall j | 0 <= j < |m|
        ensures m[j] in l && m[j] != n - 1
      {
        assert m[j] == l[if j < k then j else j + 1];
      }
      AtMost(m, n - 1);
    } else {
      AtMost(l, n - 1);
    }
  }
}
