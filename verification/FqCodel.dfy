/**
 struct fq_codel_sched_data of compat/sch_fq_codel.c, updated in place. Every method is a run of the
 machine of FqModel; the counters (qlen, backlogs) always agree with the queues.
 */
module FqCodel {
  import opened Common
  import opened FqModel
  import opened FqFairness

  function Total(qs: seq<seq<Packet>>): nat {
    if qs == [] then 0 else |qs[0]| + Total(qs[1..])
  }

  lemma {:induction false} BytesAppend(q: seq<Packet>, p: Packet)
    ensures Bytes(q + [p]) == Bytes(q) + p.len
    decreases q
  {
    if q != [] {
      assert (q + [p])[1..] == q[1..] + [p];
      BytesAppend(q[1..], p);
    }
  }

  lemma {:induction false} TotalUpdate(qs: seq<seq<Packet>>, i: nat, q: seq<Packet>)
    requires i < |qs|
    ensures Total(qs[i := q]) == Total(qs) - |qs[i]| + |q|
    decreases qs
  {
    if i > 0 {
      assert qs[i := q][1..] == qs[1..][i - 1 := q];
      TotalUpdate(qs[1..], i - 1, q);
    } else {
      assert qs[i := q][1..] == qs[1..];
    }
  }

  lemma {:induction false} TotalEmpty(qs: seq<seq<Packet>>)
    requires forall i :: 0 <= i < |qs| ==> qs[i] == []
    ensures Total(qs) == 0
    decreases qs
  {
    if qs != [] {
      TotalEmpty(qs[1..]);
    }
  }

  lemma {:induction false} SomeQueue(qs: seq<seq<Packet>>) returns (i: nat)
    requires Total(qs) > 0
    ensures i < |qs| && qs[i] != []
    decreases qs
  {
    if qs[0] != [] {
      i := 0;
    } else {
      i := SomeQueue(qs[1..]);
      i := i + 1;
    }
  }

  lemma {:induction false} BytesPositive(q: seq<Packet>)
    requires q != [] && forall k :: 0 <= k < |q| ==> q[k].len > 0
    ensures Bytes(q) > 0
    decreases q
  {
  }

  // ---- why fq_codel_dequeue terminates

  ghost predicate Within(l: seq<nat>, n: nat) {
    forall k :: 0 <= k < |l| ==> l[k] < n
  }

  lemma ListedWithin(s: Sched)
    requires WellFormed(s)
    ensures Within(All(s), |s.deficits|)
  {
    forall k | 0 <= k < |All(s)|
      ensures All(s)[k] < |s.deficits|
    {
      assert All(s)[k] in All(s);
    }
  }

  // how far below a positive deficit the flows of a list are, together
  ghost function Debt(l: seq<nat>, d: seq<int>): nat
    requires Within(l, |d|)
  {
    if l == [] then 0 else (if d[l[0]] > 0 then 0 else 1 - d[l[0]]) + Debt(l[1..], d)
  }

  lemma {:induction false} DebtAppend(l: seq<nat>, d: seq<int>, i: nat)
    requires i < |d| && Within(l, |d|)
    ensures Debt(l + [i], d) == Debt(l, d) + if d[i] > 0 then 0 else 1 - d[i]
    decreases l
  {
    if l == [] {
      assert Debt([i][1..], d) == 0;
    } else {
      assert (l + [i])[1..] == l[1..] + [i];
      DebtAppend(l[1..], d, i);
    }
  }

  lemma {:induction false} DebtElsewhere(l: seq<nat>, d: seq<int>, i: nat, x: int)
    requires i < |d| && i !in l && Within(l, |d|)
    ensures Debt(l, d[i := x]) == Debt(l, d)
    decreases l
  {
    if l != [] {
      DebtElsewhere(l[1..], d, i, x);
    }
  }

  /** Every visit that does not end in sending a packet brings the scheduler closer to one that does, or to
      empty lists. */
  ghost function Distance(s: Sched): nat
    requires WellFormed(s)
  {
    ListedWithin(s);
    Debt(All(s), s.deficits) + 2 * |s.newFlows| + |s.oldFlows|
  }

  lemma VisitsCloser(quantum: nat, maxpkt: nat, s: Sched, e: Event)
    requires quantum > 0 && Ok(quantum, maxpkt, s) && Enabled(s, e) && (e.Refill? || e.Starve?)
    ensures var r := Next(quantum, s, e); WellFormed(r) && Distance(r) < Distance(s)
  {
    var r, l, i := Next(quantum, s, e), All(s), e.i;
    ListsKept(quantum, maxpkt, s, e);
    assert l[0] == i && l == [i] + l[1..];
    Tail(l);
    ListedWithin(s);
    ListedWithin(r);
    assert Within(l[1..], |s.deficits|);
    if e.Refill? {
      MoveRotates(s, i);
      DebtElsewhere(l[1..], s.deficits, i, s.deficits[i] + quantum);
      DebtAppend(l[1..], r.deficits, i);
    } else if s.newFlows != [] && s.oldFlows != [] {
      MoveRotates(s, i);
      DebtAppend(l[1..], r.deficits, i);
    } else {
      assert All(r) == l[1..];
    }
  }

  // nothing but visits that send no packet
  ghost predicate Visits(t: seq<Event>) {
    forall k :: 0 <= k < |t| ==> t[k].Refill? || t[k].Starve?
  }

  datatype Xmit = Success | CongestionNotification | Dropped

  class Qdisc {
    var queues: seq<seq<Packet>>
    var backlogs: seq<nat>
    var deficits: seq<int>
    var newFlows: seq<nat>
    var oldFlows: seq<nat>
    var qlen: nat
    var limit: nat
    const quantum: nat
    ghost const maxpkt: nat       // no packet is longer
    ghost const flowsCnt: nat
    ghost var trace: seq<Event>

    constructor (flowsCnt: nat, quantum: nat, limit: nat, ghost maxpkt: nat)
      requires flowsCnt > 0 && quantum > 0
      ensures Valid() && this.quantum == quantum && this.limit == limit && this.maxpkt == maxpkt
      ensures this.flowsCnt == flowsCnt && trace == [] && qlen == 0
    {
      this.flowsCnt, this.quantum, this.limit, this.maxpkt := flowsCnt, quantum, limit, maxpkt;
      queues, backlogs, deficits := seq(flowsCnt, _ => []), seq(flowsCnt, _ => 0), seq(flowsCnt, _ => 0);
      newFlows, oldFlows, qlen, trace := [], [], 0, [];
      new;
      TotalEmpty(queues);
    }

    ghost function State(): Sched
      reads this
    {
      Sched(queues, deficits, newFlows, oldFlows)
    }

    // the counters agree with the queues
    ghost predicate Counted()
      reads this
    {
      && |backlogs| == |queues| == flowsCnt && qlen == Total(queues)
      && forall i :: 0 <= i < |queues| ==> backlogs[i] == Bytes(queues[i])
    }

    ghost predicate Valid()
      reads this
    {
      && quantum > 0 && flowsCnt > 0 && Counted() && Ok(quantum, maxpkt, State())
      && CanRun(quantum, maxpkt, Start(flowsCnt), trace) && After(quantum, maxpkt, Start(flowsCnt), trace) == State()
    }

    /** dequeue: takes one packet from the head of a flow. */
    method DequeueHead(i: nat) returns (skb: Packet)
      requires Counted() && i < |queues| && queues[i] != []
      modifies `queues, `backlogs, `qlen
      ensures Counted() && skb == old(queues[i][0]) && queues == old(queues[i := queues[i][1..]]) && qlen == old(qlen) - 1
    {
      skb := queues[i][0];
      TotalUpdate(queues, i, queues[i][1..]);
      queues := queues[i := queues[i][1..]];
      backlogs := backlogs[i := backlogs[i] - skb.len];
      qlen := qlen - 1;
    }

    // the step of the machine that has just been taken
    ghost method Happened(e: Event, s: Sched)
      requires quantum > 0 && flowsCnt > 0 && Counted() && Ok(quantum, maxpkt, s)
      requires CanRun(quantum, maxpkt, Start(flowsCnt), trace) && After(quantum, maxpkt, Start(flowsCnt), trace) == s
      requires Enabled(s, e) && Sensible(maxpkt, e) && State() == Next(quantum, s, e)
      modifies `trace
      ensures Valid() && trace == old(trace) + [e]
    {
      AfterMore(quantum, maxpkt, Start(flowsCnt), trace, e);
      OkKept(quantum, maxpkt, s, e);
      trace := trace + [e];
    }

    /** fq_codel_drop: the flow with the largest backlog loses the packet at its head. */
    method Drop() returns (idx: nat)
      requires Valid() && qlen > 0
      modifies this
      ensures Valid() && trace == old(trace) + [Overflow(idx)] && limit == old(limit)
      ensures idx < flowsCnt && forall j :: 0 <= j < flowsCnt ==> old(backlogs[j]) <= old(backlogs[idx])
      ensures qlen == old(qlen) - 1
    {
      ghost var s := State();
      var maxbacklog := 0;
      idx := 0;
      var i := 0;
      while i < |backlogs|
        invariant i <= |backlogs| && idx < |backlogs|
        invariant forall j :: 0 <= j < i ==> backlogs[j] <= maxbacklog
        invariant maxbacklog > 0 ==> backlogs[idx] == maxbacklog
        invariant maxbacklog == 0 ==> idx == 0
      {
        if backlogs[i] > maxbacklog {
          maxbacklog, idx := backlogs[i], i;
        }
        i := i + 1;
      }
      ghost var k := SomeQueue(queues);
      assert FlowOk(quantum, maxpkt, s, k);
      BytesPositive(queues[k]);
      var skb := DequeueHead(idx);
      Happened(Overflow(idx), s);
    }

    /** fq_codel_enqueue, with the flow that the classifier chose, or 0. When the limit is reached, the
        longest flow pays, and the caller learns whether it was its own. */
    method Enqueue(p: Packet, classified: nat) returns (ret: Xmit)
      requires Valid() && 0 < p.len <= maxpkt && classified <= flowsCnt
      modifies this
      ensures Valid() && limit == old(limit)
      ensures classified == 0 ==> ret.Dropped? && trace == old(trace)
      ensures classified > 0 ==>
        if old(qlen) + 1 < limit then ret.Success? && trace == old(trace) + [Arrive(classified - 1, p)] && qlen == old(qlen) + 1
        else
          && qlen == old(qlen)
          && exists j: nat :: j < flowsCnt && trace == old(trace) + [Arrive(classified - 1, p), Overflow(j)]
                         && (ret == if j == classified - 1 then CongestionNotification else Success)
    {
      if classified == 0 {
        return Dropped;
      }
      var idx := classified - 1;
      Add(p, idx);
      if qlen < limit {
        return Success;
      }
      var j := Drop();
      assert trace == old(trace) + [Arrive(idx, p), Overflow(j)];
      ret := if j == idx then CongestionNotification else Success;
    }

    // the first half of fq_codel_enqueue
    method Add(p: Packet, idx: nat)
      requires Valid() && 0 < p.len <= maxpkt && idx < flowsCnt
      modifies `queues, `backlogs, `newFlows, `deficits, `qlen, `trace
      ensures Valid() && trace == old(trace) + [Arrive(idx, p)] && qlen == old(qlen) + 1
    {
      ghost var s := State();
      TotalUpdate(queues, idx, queues[idx] + [p]);
      BytesAppend(queues[idx], p);
      queues := queues[idx := queues[idx] + [p]];
      backlogs := backlogs[idx := backlogs[idx] + p.len];
      if idx !in newFlows && idx !in oldFlows {
        newFlows := newFlows + [idx];
        deficits := deficits[idx := quantum];
      }
      qlen := qlen + 1;
      Happened(Arrive(idx, p), s);
    }

    /** codel_dequeue, as far as the scheduler sees it: drops some packets and returns the next one. */
    method CodelDequeue(i: nat, drops: nat) returns (skb: Option<Packet>)
      requires Counted() && i < |queues|
      modifies `queues, `backlogs, `qlen
      ensures Counted() && qlen <= old(qlen) && (skb.Some? ==> qlen < old(qlen))
      ensures var q := old(queues[i]);
        if drops < |q| then skb == Some(q[drops]) && queues == old(queues[i := queues[i][drops + 1..]])
        else skb == None && queues == old(queues[i := []])
    {
      ghost var q := queues[i];
      var n := 0;
      while n < drops && queues[i] != []
        invariant Counted() && i < |queues| && n <= |q| && n <= drops && queues == old(queues)[i := q[n..]] && qlen <= old(qlen)
        decreases drops - n
      {
        var dropped := DequeueHead(i);
        n := n + 1;
      }
      if queues[i] == [] {
        return None;
      }
      var p := DequeueHead(i);
      skb := Some(p);
    }

    /** One round of fq_codel_dequeue: the flow whose turn it is gets a quantum, sends a packet, or is found
        empty and leaves its list. */
    method Visit(i: nat, drops: nat) returns (skb: Option<Packet>)
      requires Valid() && (newFlows != [] || oldFlows != [])
      requires i == if newFlows != [] then newFlows[0] else oldFlows[0]
      modifies this
      ensures Valid() && limit == old(limit) && qlen <= old(qlen)
      ensures |trace| == |old(trace)| + 1 && trace[..|old(trace)|] == old(trace)
      ensures var e := trace[|trace| - 1];
        if skb.Some? then
          && e.Serve? && e.i == i < |old(queues)| && e.drops < |old(queues)[i]| && skb.value == old(queues)[i][e.drops]
          && qlen < old(qlen)
        else (e.Refill? || e.Starve?) && old(WellFormed(State())) && Distance(State()) < old(Distance(State()))
    {
      ghost var s := State();
      assert i in All(s);
      skb := None;
      if deficits[i] <= 0 {
        GiveQuantum(i);
      } else {
        skb := CodelDequeue(i, drops);
        if skb.None? {
          LeaveList(i, s);
        } else {
          deficits := deficits[i := deficits[i] - skb.value.len];
          Happened(Serve(i, drops), s);
        }
      }
    }

    method GiveQuantum(i: nat)
      requires Valid() && i < |deficits| && Turn(State(), i) && deficits[i] <= 0
      modifies `deficits, `newFlows, `oldFlows, `trace
      ensures Valid() && trace == old(trace) + [Refill(i)]
      ensures old(WellFormed(State())) && Distance(State()) < old(Distance(State()))
    {
      ghost var s := State();
      VisitsCloser(quantum, maxpkt, s, Refill(i));
      deficits := deficits[i := deficits[i] + quantum];
      ListMoveTail(i);
      Happened(Refill(i), s);
    }

    // an empty new flow becomes an old one, so that it cannot starve the others; an old one is dropped
    method LeaveList(i: nat, ghost s: Sched)
      requires quantum > 0 && flowsCnt > 0 && Counted() && Ok(quantum, maxpkt, s)
      requires CanRun(quantum, maxpkt, Start(flowsCnt), trace) && After(quantum, maxpkt, Start(flowsCnt), trace) == s
      requires Enabled(s, Starve(i)) && State() == s.(queues := s.queues[i := []])
      modifies `newFlows, `oldFlows, `trace
      ensures Valid() && trace == old(trace) + [Starve(i)] && WellFormed(s) && Distance(State()) < Distance(s)
    {
      VisitsCloser(quantum, maxpkt, s, Starve(i));
      if newFlows != [] && oldFlows != [] {
        ListMoveTail(i);
      } else {
        ListDel(i);
      }
      Happened(Starve(i), s);
    }

    /** fq_codel_dequeue: visits flows until one sends a packet. It terminates, and returns nothing only
        when nothing is queued. `choose` is how many packets CoDel drops at each of its calls, and `before`
        the state just before the packet was sent. */
    method Dequeue(choose: nat -> nat) returns (skb: Option<Packet>, ghost before: Sched)
      requires Valid()
      modifies this
      ensures Valid() && limit == old(limit) && qlen <= old(qlen)
      ensures |old(trace)| <= |trace| && trace[..|old(trace)|] == old(trace)
      ensures skb.None? ==> qlen == 0 && newFlows == [] && oldFlows == [] && Visits(trace[|old(trace)|..])
      ensures skb.Some? ==>
        && qlen < old(qlen) && |old(trace)| < |trace| && Visits(trace[|old(trace)|..|trace| - 1])
        && var e := trace[|trace| - 1];
           e.Serve? && e.i < |before.queues| && e.drops < |before.queues[e.i]| && skb.value == before.queues[e.i][e.drops]
      ensures skb.Some? ==>
        && CanRun(quantum, maxpkt, Start(flowsCnt), trace[..|trace| - 1])
        && before == After(quantum, maxpkt, Start(flowsCnt), trace[..|trace| - 1])
    {
      var calls := 0;
      skb, before := None, State();
      ghost var t0 := trace;
      while newFlows != [] || oldFlows != []
        invariant Valid() && limit == old(limit) && qlen <= old(qlen)
        invariant |t0| <= |trace| && trace[..|t0|] == t0 && Visits(trace[|t0|..]) && skb == None
        decreases Distance(State())
      {
        var i := if newFlows != [] then newFlows[0] else oldFlows[0];
        ghost var t := trace;
        before := State();
        skb := Visit(i, choose(calls));
        assert trace[..|t|] == t && trace[..|t0|] == t[..|t0|];
        assert trace[|t0|..] == t[|t0|..] + [trace[|t|]];
        if skb.Some? {
          assert trace[..|trace| - 1] == t && trace[|t0|..|trace| - 1] == t[|t0|..];
          return;
        }
        calls := calls + 1;
      }
      NothingLeft();
    }

    /** fq_codel_reset: everything is dequeued, packet by packet. */
    method Reset(choose: nat -> nat)
      requires Valid()
      modifies this
      ensures Valid() && qlen == 0 && newFlows == [] && oldFlows == [] && limit == old(limit)
    {
      var skb, before := Dequeue(choose);
      while skb.Some?
        invariant Valid() && limit == old(limit)
        invariant skb.None? ==> qlen == 0 && newFlows == [] && oldFlows == []
        decreases if skb.Some? then qlen + 1 else 0
      {
        skb, before := Dequeue(choose);
      }
    }

    /** The end of fq_codel_change: packets are dropped until the queue is within a new limit. */
    method Trim(newLimit: nat, choose: nat -> nat)
      requires Valid()
      modifies this
      ensures Valid() && limit == newLimit && qlen <= limit && qlen <= old(qlen)
    {
      limit := newLimit;
      while qlen > limit
        invariant Valid() && limit == newLimit && qlen <= old(qlen)
        decreases qlen
      {
        var skb, before := Dequeue(choose);
      }
    }

    /** list_del_init of the flow at the head of its list. */
    method ListDel(i: nat)
      requires if newFlows != [] then newFlows[0] == i else oldFlows != [] && oldFlows[0] == i
      modifies `newFlows, `oldFlows
      ensures if old(newFlows) != [] then newFlows == old(newFlows)[1..] && oldFlows == old(oldFlows)
        else newFlows == [] && oldFlows == old(oldFlows)[1..]
    {
      if newFlows != [] {
        newFlows := newFlows[1..];
      } else {
        oldFlows := oldFlows[1..];
      }
    }

    lemma NothingLeft()
      requires Valid() && newFlows == [] && oldFlows == []
      ensures qlen == 0
    {
      forall i | 0 <= i < |queues|
        ensures queues[i] == []
      {
        assert FlowOk(quantum, maxpkt, State(), i);
      }
      TotalEmpty(queues);
    }

    /** list_move_tail of the flow at the head of its list to the list of old flows. */
    method ListMoveTail(i: nat)
      requires if newFlows != [] then newFlows[0] == i else oldFlows != [] && oldFlows[0] == i
      modifies `newFlows, `oldFlows
      ensures var s := old(State()); State() == MoveToOld(s, i)
    {
      if newFlows != [] {
        newFlows := newFlows[1..];
      } else {
        oldFlows := oldFlows[1..];
      }
      oldFlows := oldFlows + [i];
    }
  }
}