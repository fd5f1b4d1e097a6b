/**
 The lock-free list of include/linux/llist.h and compat/compat-3.2.c as interleaved steps: every read of the
 head, every write of a next pointer and every cmpxchg or xchg is one step, and nodes that were delivered
 may be reused, written and added again at any time.
 */
module LockFreeList {
  import opened Common
  import opened Chains

  /** In llist_add_batch: the nodes to be added, the head that was read, and whether the last node is linked
      to it yet. */
  datatype Adder = Adder(batch: seq<Obj>, entry: Ptr, linked: bool)

  /** In llist_del_first: the head that was read, and its successor once that is read. */
  datatype Deleter = Deleter(entry: Obj, next: Option<Ptr>)

  /** `used` are the nodes that do not belong to the environment: listed, or about to be added. `added`
      records what was added, newest first, and `delivered` what was handed out, in that order. */
  datatype Ll = Ll(first: Ptr, next: map<Obj, Ptr>, adders: map<nat, Adder>, deleters: map<nat, Deleter>,
                   used: set<Obj>, added: seq<Obj>, delivered: seq<Obj>)

  function Empty(): Ll { Ll(Nulls, map[], map[], map[], {}, [], []) }

  datatype Step =
    | AddBegin(i: nat, batch: seq<Obj>)
    | AddLink(i: nat)
    | AddCas(i: nat)
    | DelAll(path: seq<Obj>)
    | DelBegin(d: nat)
    | DelNext(d: nat)
    | DelCas(d: nat)
    | Scribble(o: Obj, p: Ptr)

  ghost predicate Enabled(s: Ll, step: Step) {
    match step
    case AddBegin(i, batch) =>
      i !in s.adders && batch != [] && NoDup(batch) && forall k :: 0 <= k < |batch| ==> batch[k] !in s.used
    case AddLink(i) => i in s.adders && s.adders[i].batch != [] && !s.adders[i].linked
    case AddCas(i) => i in s.adders && s.adders[i].batch != [] && s.adders[i].linked
    case DelAll(path) => Seg(s.next, s.first, path, Nulls)
    case DelBegin(d) => d !in s.deleters && s.first.At?
    case DelNext(d) => d in s.deleters && s.deleters[d].next.None? && s.deleters[d].entry in s.next
    case DelCas(d) => d in s.deleters && s.deleters[d].next.Some?
    case Scribble(o, _) => o !in s.used
  }

  // the caller links the nodes of a batch to each other before it adds them
  function LinkUp(next: map<Obj, Ptr>, batch: seq<Obj>): map<Obj, Ptr>
    decreases batch
  {
    if |batch| <= 1 then next else LinkUp(next, batch[1..])[batch[0] := At(batch[1])]
  }

  function Elements(c: seq<Obj>): set<Obj> {
    if c == [] then {} else {c[0]} + Elements(c[1..])
  }

  function Next(s: Ll, step: Step): Ll
    requires Enabled(s, step)
  {
    match step
    case AddBegin(i, batch) =>
      s.(next := LinkUp(s.next, batch), adders := s.adders[i := Adder(batch, s.first, false)], used := s.used + Elements(batch))
    case AddLink(i) =>
      var a := s.adders[i];
      s.(next := s.next[a.batch[|a.batch| - 1] := a.entry], adders := s.adders[i := a.(linked := true)])
    case AddCas(i) =>
      var a := s.adders[i];
      if s.first == a.entry then
        s.(first := At(a.batch[0]), adders := s.adders - {i}, added := a.batch + s.added)
      else s.(adders := s.adders[i := a.(entry := s.first, linked := false)])
    case DelAll(path) => s.(first := Nulls, used := s.used - Elements(path), delivered := s.delivered + path)
    case DelBegin(d) => s.(deleters := s.deleters[d := Deleter(s.first.o, None)])
    case DelNext(d) => s.(deleters := s.deleters[d := s.deleters[d].(next := Some(s.next[s.deleters[d].entry]))])
    case DelCas(d) =>
      var e := s.deleters[d];
      if s.first == At(e.entry) then
        s.(first := e.next.value, deleters := s.deleters - {d}, used := s.used - {e.entry}, delivered := s.delivered + [e.entry])
      else if s.first == Nulls then s.(deleters := s.deleters - {d})
      else s.(deleters := s.deleters[d := Deleter(s.first.o, None)])
    case Scribble(o, p) => s.(next := s.next[o := p])
  }

  /** The pairs of operations that need no lock: adders with any number of llist_del_all, or adders with a
      single user of llist_del_first. */
  ghost predicate Allowed(single: bool, step: Step) {
    match step
    case DelAll(_) => !single
    case DelBegin(d) => single && d == 0
    case DelNext(d) => single && d == 0
    case DelCas(d) => single && d == 0
    case _ => true
  }

  // ---- the invariant

  ghost predicate AdderOk(s: Ll, a: Adder) {
    && a.batch != [] && NoDup(a.batch)
    && a.batch[|a.batch| - 1] in a.batch
    && Seg(s.next, At(a.batch[0]), a.batch[..|a.batch| - 1], At(a.batch[|a.batch| - 1]))
    && (a.linked ==> a.batch[|a.batch| - 1] in s.next && s.next[a.batch[|a.batch| - 1]] == a.entry)
  }

  ghost predicate Disjoint(a: seq<Obj>, b: seq<Obj>) {
    forall o :: o in a ==> o !in b
  }

  ghost predicate Owned(s: Ll, list: seq<Obj>) {
    && (forall o :: o in list ==> o in s.used)
    && (forall i, o :: i in s.adders && o in s.adders[i].batch ==> o in s.used)
    && (forall i :: i in s.adders ==> Disjoint(s.adders[i].batch, list))
    && (forall i, j :: i in s.adders && j in s.adders && i != j ==> Disjoint(s.adders[i].batch, s.adders[j].batch))
  }

  ghost predicate DeletersOk(s: Ll, list: seq<Obj>, single: bool) {
    forall d :: d in s.deleters ==>
      single && d == 0 && s.deleters[d].entry in list
      && (s.deleters[d].next.Some? ==> s.deleters[d].entry in s.next && s.deleters[d].next.value == s.next[s.deleters[d].entry])
  }

  /** The head leads through exactly the nodes of `list`; every node that was added was delivered once or is
      still in the list, and those are in the order newest first. */
  ghost predicate Listed(s: Ll, list: seq<Obj>) {
    && Seg(s.next, s.first, list, Nulls) && NoDup(list)
    && multiset(s.added) == multiset(s.delivered) + multiset(list) && Subseq(list, s.added)
  }

  ghost predicate AddersOk(s: Ll) {
    forall i :: i in s.adders ==> AdderOk(s, s.adders[i])
  }

  ghost predicate Inv(s: Ll, list: seq<Obj>, single: bool) {
    Listed(s, list) && AddersOk(s) && Owned(s, list) && DeletersOk(s, list, single)
  }

  // `a` is what is left of `b` when some of it is taken out
  ghost predicate Subseq(a: seq<Obj>, b: seq<Obj>)
    decreases b
  {
    a == [] || (b != [] && ((a[0] == b[0] && Subseq(a[1..], b[1..])) || Subseq(a, b[1..])))
  }

  /** What a step does to the list: the linearization of each operation is its successful cmpxchg or xchg. */
  function NextList(s: Ll, list: seq<Obj>, step: Step): seq<Obj> {
    match step
    case AddCas(i) => if i in s.adders && s.first == s.adders[i].entry then s.adders[i].batch + list else list
    case DelAll(_) => []
    case DelCas(d) => if d in s.deleters && s.first == At(s.deleters[d].entry) && list != [] then list[1..] else list
    case _ => list
  }

  lemma {:induction false} SubseqDrop(a: seq<Obj>, b: seq<Obj>)
    requires a != [] && Subseq(a, b)
    ensures Subseq(a[1..], b)
    decreases b
  {
    if a[0] == b[0] && Subseq(a[1..], b[1..]) {
      if a[1..] != [] {
        assert Subseq(a[1..], b[1..]);
      }
    } else {
      SubseqDrop(a, b[1..]);
    }
  }

  lemma {:induction false} SubseqGrow(c: seq<Obj>, a: seq<Obj>, b: seq<Obj>)
    requires Subseq(a, b)
    ensures Subseq(c + a, c + b)
    decreases c
  {
    if c == [] {
      assert c + a == a && c + b == b;
    } else {
      SubseqGrow(c[1..], a, b);
      assert (c + a)[1..] == c[1..] + a && (c + b)[1..] == c[1..] + b;
    }
  }

  lemma {:induction false} ElementsAre(c: seq<Obj>)
    ensures forall o :: o in Elements(c) <==> o in c
    decreases c
  {
    if c != [] {
      ElementsAre(c[1..]);
      assert c == [c[0]] + c[1..];
    }
  }

  lemma {:induction false} LinkUpIs(next: map<Obj, Ptr>, batch: seq<Obj>)
    requires batch != [] && NoDup(batch)
    ensures var n := LinkUp(next, batch);
      && (forall o :: o !in batch ==> (o in n <==> o in next) && (o in next ==> n[o] == next[o]))
      && Seg(n, At(batch[0]), batch[..|batch| - 1], At(batch[|batch| - 1]))
    decreases batch
  {
    if |batch| > 1 {
      var rest, n' := batch[1..], LinkUp(next, batch[1..]);
      LinkUpIs(next, rest);
      var n := n'[batch[0] := At(batch[1])];
      assert rest[..|rest| - 1] == batch[..|batch| - 1][1..];
      SegFrame(n', n, At(rest[0]), rest[..|rest| - 1], At(rest[|rest| - 1]));
    }
  }

  // ---- the steps

  /** Nothing changes for an adder whose nodes are not written. */
  lemma AdderSame(s: Ll, s': Ll, a: Adder)
    requires AdderOk(s, a)
    requires forall o :: o in a.batch && o in s.next ==> o in s'.next && s'.next[o] == s.next[o]
    ensures AdderOk(s', a)
  {
    SegFrame(s.next, s'.next, At(a.batch[0]), a.batch[..|a.batch| - 1], At(a.batch[|a.batch| - 1]));
  }

  // What happens to nodes that nobody else owns does not matter to the list.
  lemma ListSame(s: Ll, s': Ll, list: seq<Obj>, single: bool)
    requires Listed(s, list) && DeletersOk(s, list, single)
    requires s'.first == s.first && s'.added == s.added && s'.delivered == s.delivered && s'.deleters == s.deleters
    requires forall o :: o in list && o in s.next ==> o in s'.next && s'.next[o] == s.next[o]
    ensures Listed(s', list) && DeletersOk(s', list, single)
  {
    SegFrame(s.next, s'.next, s.first, list, Nulls);
  }

  lemma BeginKeeps(s: Ll, list: seq<Obj>, single: bool, i: nat, batch: seq<Obj>)
    requires Inv(s, list, single) && Enabled(s, AddBegin(i, batch))
    ensures Inv(Next(s, AddBegin(i, batch)), list, single)
  {
    var s' := Next(s, AddBegin(i, batch));
    LinkUpIs(s.next, batch);
    Unused(s, list, batch);
    ListSame(s, s', list, single);
    BeginOwned(s, s', list, i, batch);
    BeginAdders(s, s', i, batch);
  }

  lemma Unused(s: Ll, list: seq<Obj>, batch: seq<Obj>)
    requires Owned(s, list) && forall k :: 0 <= k < |batch| ==> batch[k] !in s.used
    ensures Disjoint(batch, list) && forall j :: j in s.adders ==> Disjoint(batch, s.adders[j].batch)
  {
    forall o | o in batch
      ensures o !in list
    {
    }
    forall j | j in s.adders
      ensures Disjoint(batch, s.adders[j].batch)
    {
      assert forall o :: o in s.adders[j].batch ==> o in s.used;
    }
  }

  lemma BeginOwned(s: Ll, s': Ll, list: seq<Obj>, i: nat, batch: seq<Obj>)
    requires Owned(s, list) && i !in s.adders && Disjoint(batch, list)
    requires forall j :: j in s.adders ==> Disjoint(batch, s.adders[j].batch)
    requires s'.used == s.used + Elements(batch) && s'.adders.Keys == s.adders.Keys + {i}
    requires s'.adders[i].batch == batch && forall j :: j in s.adders ==> s'.adders[j] == s.adders[j]
    ensures Owned(s', list)
  {
    ElementsAre(batch);
    forall j, k | j in s'.adders && k in s'.adders && j != k
      ensures Disjoint(s'.adders[j].batch, s'.adders[k].batch)
    {
      if j == i {
        assert Disjoint(batch, s.adders[k].batch);
      } else if k == i {
        assert Disjoint(batch, s.adders[j].batch);
      }
    }
  }

  lemma BeginAdders(s: Ll, s': Ll, i: nat, batch: seq<Obj>)
    requires AddersOk(s) && i !in s.adders && batch != [] && NoDup(batch) && s'.next == LinkUp(s.next, batch)
    requires s'.adders == s.adders[i := Adder(batch, s.first, false)]
    requires forall j :: j in s.adders ==> Disjoint(batch, s.adders[j].batch)
    ensures AddersOk(s')
  {
    LinkUpIs(s.next, batch);
    forall j | j in s'.adders
      ensures AdderOk(s', s'.adders[j])
    {
      if j != i {
        assert Disjoint(batch, s.adders[j].batch);
        AdderSame(s, s', s.adders[j]);
      } else {
        assert batch[|batch| - 1] in batch;
      }
    }
  }

  lemma LinkKeeps(s: Ll, list: seq<Obj>, single: bool, i: nat)
    requires Inv(s, list, single) && Enabled(s, AddLink(i))
    ensures Inv(Next(s, AddLink(i)), list, single)
  {
    var s', a := Next(s, AddLink(i)), s.adders[i];
    var l := a.batch[|a.batch| - 1];
    assert AdderOk(s, a) && Disjoint(a.batch, list);
    ListSame(s, s', list, single);
    OwnedSame(s, s', list);
    LinkAdders(s, s', i);
  }

  lemma OwnedSame(s: Ll, s': Ll, list: seq<Obj>)
    requires Owned(s, list) && s'.used == s.used
    requires forall j :: j in s'.adders ==> j in s.adders && s'.adders[j].batch == s.adders[j].batch
    ensures Owned(s', list)
  {
    forall j, k | j in s'.adders && k in s'.adders && j != k
      ensures Disjoint(s'.adders[j].batch, s'.adders[k].batch)
    {
      assert Disjoint(s.adders[j].batch, s.adders[k].batch);
    }
  }

  lemma LinkAdders(s: Ll, s': Ll, i: nat)
    requires AddersOk(s) && i in s.adders && s.adders[i].batch != []
    requires forall j :: j in s.adders && j != i ==> Disjoint(s.adders[i].batch, s.adders[j].batch)
    requires var a := s.adders[i];
      s'.next == s.next[a.batch[|a.batch| - 1] := a.entry] && s'.adders == s.adders[i := a.(linked := true)]
    ensures AddersOk(s')
  {
    var a := s.adders[i];
    var l := a.batch[|a.batch| - 1];
    assert AdderOk(s, a);
    forall j | j in s'.adders
      ensures AdderOk(s', s'.adders[j])
    {
      if j != i {
        assert Disjoint(s.adders[i].batch, s.adders[j].batch);
        AdderSame(s, s', s.adders[j]);
      } else {
        SegFrame(s.next, s'.next, At(a.batch[0]), a.batch[..|a.batch| - 1], At(l));
      }
    }
  }

  lemma AddersSame(s: Ll, s': Ll)
    requires AddersOk(s) && s'.next == s.next
    requires forall j :: j in s'.adders ==>
      j in s.adders && s'.adders[j].batch == s.adders[j].batch && (s'.adders[j].linked ==> s'.adders[j] == s.adders[j])
    ensures AddersOk(s')
  {
    forall j | j in s'.adders
      ensures AdderOk(s', s'.adders[j])
    {
      assert AdderOk(s, s.adders[j]);
    }
  }

  /** The successful cmpxchg of an adder: whatever happened since the head was read, it is the head again, and
      the new nodes lead to the list as it is now. */
  lemma CasKeeps(s: Ll, list: seq<Obj>, single: bool, i: nat)
    requires Inv(s, list, single) && Enabled(s, AddCas(i))
    ensures Inv(Next(s, AddCas(i)), NextList(s, list, AddCas(i)), single)
  {
    var s', a := Next(s, AddCas(i)), s.adders[i];
    AddersSame(s, s');
    if s.first == a.entry {
      assert AdderOk(s, a) && Disjoint(a.batch, list);
      CasListed(s, s', list, a);
      CasOwned(s, s', list, i);
    } else {
      ListSame(s, s', list, single);
      OwnedSame(s, s', list);
    }
  }

  lemma CasListed(s: Ll, s': Ll, list: seq<Obj>, a: Adder)
    requires Listed(s, list) && AdderOk(s, a) && a.linked && s.first == a.entry && Disjoint(a.batch, list)
    requires s'.next == s.next && s'.first == At(a.batch[0]) && s'.added == a.batch + s.added && s'.delivered == s.delivered
    ensures Listed(s', a.batch + list)
  {
    Joined(s.next, At(a.batch[0]), a.batch, list, s.first, Nulls);
    SubseqGrow(a.batch, list, s.added);
    NoDupJoined(a.batch, list);
  }

  lemma CasOwned(s: Ll, s': Ll, list: seq<Obj>, i: nat)
    requires Owned(s, list) && i in s.adders && s'.used == s.used && s'.adders == s.adders - {i}
    ensures Owned(s', s.adders[i].batch + list)
  {
    var b := s.adders[i].batch;
    forall j | j in s'.adders
      ensures Disjoint(s'.adders[j].batch, b + list)
    {
      assert Disjoint(s.adders[j].batch, b) && Disjoint(s.adders[j].batch, list);
    }
    forall j, k | j in s'.adders && k in s'.adders && j != k
      ensures Disjoint(s'.adders[j].batch, s'.adders[k].batch)
    {
      assert Disjoint(s.adders[j].batch, s.adders[k].batch);
    }
  }

  lemma {:induction false} Joined(next: map<Obj, Ptr>, p: Ptr, a: seq<Obj>, b: seq<Obj>, mid: Ptr, end: Ptr)
    requires a != [] && Seg(next, p, a[..|a| - 1], At(a[|a| - 1])) && a[|a| - 1] in next && next[a[|a| - 1]] == mid
    requires Seg(next, mid, b, end)
    ensures Seg(next, p, a + b, end)
    decreases a
  {
    if |a| == 1 {
      assert (a + b)[1..] == b;
    } else {
      assert a[..|a| - 1][1..] == a[1..][..|a| - 2];
      Joined(next, next[a[0]], a[1..], b, mid, end);
      assert (a + b)[1..] == a[1..] + b;
    }
  }

  lemma NoDupJoined(a: seq<Obj>, b: seq<Obj>)
    requires NoDup(a) && NoDup(b) && Disjoint(a, b)
    ensures NoDup(a + b)
  {
    forall i, j | 0 <= i < j < |a + b|
      ensures (a + b)[i] != (a + b)[j]
    {
      if i < |a| <= j {
        assert a[i] in a;
      }
    }
  }

  lemma DelAllKeeps(s: Ll, list: seq<Obj>, path: seq<Obj>)
    requires Inv(s, list, false) && Enabled(s, DelAll(path))
    ensures path == list && Inv(Next(s, DelAll(path)), [], false)
  {
    SegUnique(s.next, s.first, list, path);
    var s' := Next(s, DelAll(path));
    AddersSame(s, s');
    LessOwned(s, s', list, [], path);
  }

  // nodes of the list are given back to the environment
  lemma LessOwned(s: Ll, s': Ll, list: seq<Obj>, rest: seq<Obj>, gone: seq<Obj>)
    requires Owned(s, list) && s'.adders == s.adders && s'.used == s.used - Elements(gone)
    requires forall o :: o in gone ==> o in list && o !in rest
    requires forall o :: o in rest ==> o in list
    ensures Owned(s', rest)
  {
    ElementsAre(gone);
    forall j, o | j in s'.adders && o in s'.adders[j].batch
      ensures o in s'.used
    {
      assert Disjoint(s.adders[j].batch, list);
    }
    forall j | j in s'.adders
      ensures Disjoint(s'.adders[j].batch, rest)
    {
      assert Disjoint(s.adders[j].batch, list);
    }
    forall j, k | j in s'.adders && k in s'.adders && j != k
      ensures Disjoint(s'.adders[j].batch, s'.adders[k].batch)
    {
      assert Disjoint(s.adders[j].batch, s.adders[k].batch);
    }
  }

  /** The successful cmpxchg of the only user of llist_del_first: the head it read has been in the list ever
      since, so its successor has not changed. */
  lemma DelCasKeeps(s: Ll, list: seq<Obj>)
    requires Inv(s, list, true) && Enabled(s, DelCas(0))
    ensures Inv(Next(s, DelCas(0)), NextList(s, list, DelCas(0)), true)
    ensures s.first == At(s.deleters[0].entry) ==> list != [] && list[0] == s.deleters[0].entry
  {
    var s', e := Next(s, DelCas(0)), s.deleters[0];
    AddersSame(s, s');
    if s.first == At(e.entry) {
      DelListed(s, s', list);
      assert list == [list[0]] + list[1..];
      assert Elements([e.entry]) == {e.entry};
      LessOwned(s, s', list, list[1..], [e.entry]);
    } else {
      OwnedSame(s, s', list);
    }
  }

  lemma DelListed(s: Ll, s': Ll, list: seq<Obj>)
    requires Listed(s, list) && list != [] && list[0] in s.next
    requires s'.next == s.next && s'.first == s.next[list[0]] && s'.added == s.added && s'.delivered == s.delivered + [list[0]]
    ensures Listed(s', list[1..])
  {
    SubseqDrop(list, s.added);
    assert list == [list[0]] + list[1..];
    assert multiset(list) == multiset{list[0]} + multiset(list[1..]);
  }

  lemma OthersKeep(s: Ll, list: seq<Obj>, single: bool, step: Step)
    requires Inv(s, list, single) && Enabled(s, step) && Allowed(single, step)
    requires step.DelBegin? || step.DelNext? || step.Scribble?
    ensures Inv(Next(s, step), list, single)
  {
    var s' := Next(s, step);
    SegFrame(s.next, s'.next, s.first, list, Nulls);
    forall j | j in s'.adders
      ensures AdderOk(s', s'.adders[j])
    {
      assert forall o :: o in s.adders[j].batch ==> o in s.used;
      AdderSame(s, s', s.adders[j]);
    }
    OwnedSame(s, s', list);
  }

  lemma StepKeeps(s: Ll, list: seq<Obj>, single: bool, step: Step)
    requires Inv(s, list, single) && Enabled(s, step) && Allowed(single, step)
    ensures Inv(Next(s, step), NextList(s, list, step), single)
  {
    match step
    case AddBegin(i, batch) => BeginKeeps(s, list, single, i, batch);
    case AddLink(i) => LinkKeeps(s, list, single, i);
    case AddCas(i) => CasKeeps(s, list, single, i);
    case DelAll(path) => DelAllKeeps(s, list, path);
    case DelCas(d) => DelCasKeeps(s, list);
    case _ => OthersKeep(s, list, single, step);
  }

  // ---- runs

  ghost predicate CanRun(s: Ll, steps: seq<Step>)
    decreases steps
  {
    steps == [] || (Enabled(s, steps[0]) && CanRun(Next(s, steps[0]), steps[1..]))
  }

  function After(s: Ll, steps: seq<Step>): Ll
    requires CanRun(s, steps)
    decreases steps
  {
    if steps == [] then s else After(Next(s, steps[0]), steps[1..])
  }

  // ---- the list as a stack that is changed in one go

  /** A sequential list: its nodes, newest first, and what it has handed out so far. */
  datatype Stack = Stack(list: seq<Obj>, handed: seq<Obj>)

  /** What an operation returns at its successful cmpxchg or xchg: the whole list, or its newest node. */
  function Handed(s: Ll, list: seq<Obj>, step: Step): seq<Obj> {
    match step
    case DelAll(_) => list
    case DelCas(d) => if d in s.deleters && s.first == At(s.deleters[d].entry) && list != [] then [list[0]] else []
    case _ => []
  }

  function Atomic(t: Stack, s: Ll, step: Step): Stack {
    Stack(NextList(s, t.list, step), t.handed + Handed(s, t.list, step))
  }

  function Serial(t: Stack, s: Ll, steps: seq<Step>): Stack
    requires CanRun(s, steps)
    decreases steps
  {
    if steps == [] then t else Serial(Atomic(t, s, steps[0]), Next(s, steps[0]), steps[1..])
  }

  lemma StepDelivers(s: Ll, list: seq<Obj>, single: bool, step: Step)
    requires Inv(s, list, single) && Enabled(s, step) && Allowed(single, step)
    ensures Next(s, step).delivered == s.delivered + Handed(s, list, step)
  {
    match step
    case DelAll(path) => DelAllKeeps(s, list, path);
    case DelCas(d) => DelCasKeeps(s, list);
    case _ =>
  }

  lemma {:induction false} RunKeeps(t: Stack, s: Ll, single: bool, steps: seq<Step>)
    requires Inv(s, t.list, single) && s.delivered == t.handed
    requires CanRun(s, steps) && forall k :: 0 <= k < |steps| ==> Allowed(single, steps[k])
    ensures var t' := Serial(t, s, steps);
      Inv(After(s, steps), t'.list, single) && After(s, steps).delivered == t'.handed
    decreases steps
  {
    if steps != [] {
      StepKeeps(s, t.list, single, steps[0]);
      StepDelivers(s, t.list, single, steps[0]);
      RunKeeps(Atomic(t, s, steps[0]), Next(s, steps[0]), single, steps[1..]);
    }
  }

  /** Within the table of llist.h no lock is needed: after any run of adders with any number of llist_del_all,
      or with one llist_del_first, reused nodes included, the list and everything handed out, in order, are what
      a stack gives on which each operation is one step, at its successful cmpxchg or xchg. */
  lemma Linearizable(single: bool, steps: seq<Step>)
    requires CanRun(Empty(), steps) && forall k :: 0 <= k < |steps| ==> Allowed(single, steps[k])
    ensures var s, t := After(Empty(), steps), Serial(Stack([], []), Empty(), steps);
      Seg(s.next, s.first, t.list, Nulls) && s.delivered == t.handed
  {
    RunKeeps(Stack([], []), Empty(), single, steps);
  }

  /** So every node added was delivered exactly once or is in the list, newest first. */
  lemma ExactlyOnce(single: bool, steps: seq<Step>) returns (list: seq<Obj>)
    requires CanRun(Empty(), steps) && forall k :: 0 <= k < |steps| ==> Allowed(single, steps[k])
    ensures var s := After(Empty(), steps);
      && Seg(s.next, s.first, list, Nulls) && NoDup(list)
      && multiset(s.added) == multiset(s.delivered) + multiset(list) && Subseq(list, s.added)
  {
    RunKeeps(Stack([], []), Empty(), single, steps);
    list := Serial(Stack([], []), Empty(), steps).list;
  }

  /** llist_add tells whether the list was empty at the moment of its cmpxchg, and llist_del_first returns
      the newest node. */
  lemma ReturnValues(s: Ll, list: seq<Obj>, single: bool)
    requires Inv(s, list, single)
    ensures forall i :: i in s.adders && s.first == s.adders[i].entry ==> (s.adders[i].entry == Nulls <==> list == [])
    ensures forall d :: d in s.deleters && s.first == At(s.deleters[d].entry) ==> list != [] && s.deleters[d].entry == list[0]
  {
  }

  // ---- why the other pairs need a lock

  lemma RunOn(s: Ll, step: Step, rest: seq<Step>)
    requires Enabled(s, step) && CanRun(Next(s, step), rest)
    ensures CanRun(s, [step] + rest) && After(s, [step] + rest) == After(Next(s, step), rest)
  {
    assert ([step] + rest)[1..] == rest;
  }

  lemma OneStep(s: Ll, step: Step)
    requires Enabled(s, step)
    ensures CanRun(s, [step]) && After(s, [step]) == Next(s, step)
  {
    RunOn(s, step, []);
    assert [step] + [] == [step];
  }

  lemma {:induction false} RunThen(s: Ll, a: seq<Step>, b: seq<Step>)
    requires CanRun(s, a) && CanRun(After(s, a), b)
    ensures CanRun(s, a + b) && After(s, a + b) == After(After(s, a), b)
    decreases a
  {
    if a == [] {
      assert a + b == b;
    } else {
      RunThen(Next(s, a[0]), a[1..], b);
      RunOn(s, a[0], a[1..] + b);
      assert a + b == [a[0]] + (a[1..] + b);
    }
  }

  // llist_add of one node by nobody but adder 0
  function Add(o: Obj): seq<Step> { [AddBegin(0, [o])] + ([AddLink(0)] + [AddCas(0)]) }

  lemma AddOne(s: Ll, o: Obj)
    requires s.adders == map[] && o !in s.used
    ensures CanRun(s, Add(o))
    ensures After(s, Add(o)) == s.(first := At(o), next := s.next[o := s.first], used := s.used + {o}, added := [o] + s.added)
  {
    var s1 := Next(s, AddBegin(0, [o]));
    assert Elements([o]) == {o} by {
      assert [o][1..] == [];
    }
    var s2 := Next(s1, AddLink(0));
    var s3 := Next(s2, AddCas(0));
    assert s3.adders == map[];
    OneStep(s2, AddCas(0));
    RunOn(s1, AddLink(0), [AddCas(0)]);
    RunOn(s, AddBegin(0, [o]), [AddLink(0)] + [AddCas(0)]);
  }

  // llist_del_first by user `d`, up to its cmpxchg
  function Read(d: nat): seq<Step> { [DelBegin(d)] + [DelNext(d)] }

  lemma ReadHead(s: Ll, d: nat)
    requires d !in s.deleters && s.first.At? && s.first.o in s.next
    ensures CanRun(s, Read(d))
    ensures After(s, Read(d)) == s.(deleters := s.deleters[d := Deleter(s.first.o, Some(s.next[s.first.o]))])
  {
    var s1 := Next(s, DelBegin(d));
    OneStep(s1, DelNext(d));
    RunOn(s, DelBegin(d), [DelNext(d)]);
    assert Next(s1, DelNext(d)).deleters == s.deleters[d := Deleter(s.first.o, Some(s.next[s.first.o]))];
  }

  // ... and its cmpxchg, when nothing has come between
  lemma PopHead(s: Ll, d: nat)
    requires d !in s.deleters && s.first.At? && s.first.o in s.next
    ensures var steps := Read(d) + [DelCas(d)];
      && CanRun(s, steps)
      && After(s, steps) == s.(first := s.next[s.first.o], used := s.used - {s.first.o}, delivered := s.delivered + [s.first.o])
  {
    ReadHead(s, d);
    var s1 := After(s, Read(d));
    OneStep(s1, DelCas(d));
    assert Next(s1, DelCas(d)).deleters == s.deleters;
    RunThen(s, Read(d), [DelCas(d)]);
  }

  // node 2 in front of node 1, and user 0 of llist_del_first has read node 2 and its successor
  function Prelude(): seq<Step> { Add(1) + (Add(2) + Read(0)) }

  function HalfDeleted(): Ll {
    Ll(At(2), map[1 := Nulls, 2 := At(1)], map[], map[0 := Deleter(2, Some(At(1)))], {1, 2}, [2, 1], [])
  }

  lemma PreludeIs()
    ensures CanRun(Empty(), Prelude()) && After(Empty(), Prelude()) == HalfDeleted()
  {
    var s0 := Empty();
    AddOne(s0, 1);
    var s1 := After(s0, Add(1));
    AddOne(s1, 2);
    var s2 := After(s1, Add(2));
    ReadHead(s2, 0);
    RunThen(s1, Add(2), Read(0));
    RunThen(s0, Add(1), Add(2) + Read(0));
    assert After(s2, Read(0)).next == HalfDeleted().next;
    assert After(s2, Read(0)).used == HalfDeleted().used;
    assert After(s2, Read(0)).added == HalfDeleted().added;
    assert After(s2, Read(0)).deleters == HalfDeleted().deleters;
  }

  // Node 1 is linked though it was delivered, once for the once that it was added, and not added again.
  ghost predicate LinkedAgain(s: Ll) {
    s.first == At(1) && s.used == {} && s.added == [2, 2, 1] && s.delivered == [2, 1, 2]
  }

  /** llist_del_all beside llist_del_first: the list is taken, node 2 is added again, and the cmpxchg of
      llist_del_first succeeds with a stale successor. */
  lemma DelAllNeedsLock()
    ensures var steps := Prelude() + ([DelAll([2, 1])] + (Add(2) + [DelCas(0)]));
      CanRun(Empty(), steps) && LinkedAgain(After(Empty(), steps))
  {
    var s := HalfDeleted();
    PreludeIs();
    assert [2, 1][1..] == [1] && [1][1..] == [];
    assert Seg(s.next, Nulls, [], Nulls) && Seg(s.next, At(1), [1], Nulls) && Seg(s.next, At(2), [2, 1], Nulls);
    var s1 := Next(s, DelAll([2, 1]));
    ElementsAre([2, 1]);
    assert s1.used == {};
    StaleDelete(s1);
    RunOn(s, DelAll([2, 1]), Add(2) + [DelCas(0)]);
    RunThen(Empty(), Prelude(), [DelAll([2, 1])] + (Add(2) + [DelCas(0)]));
  }

  /** Two users of llist_del_first: the second one takes both nodes and adds node 2 again. */
  lemma SecondDeleterNeedsLock()
    ensures var pop := Read(1) + [DelCas(1)];
      var steps := Prelude() + (pop + (pop + (Add(2) + [DelCas(0)])));
      CanRun(Empty(), steps) && LinkedAgain(After(Empty(), steps))
  {
    var s, pop, end := HalfDeleted(), Read(1) + [DelCas(1)], Add(2) + [DelCas(0)];
    PreludeIs();
    PopHead(s, 1);
    var s1 := After(s, pop);
    PopHead(s1, 1);
    var s2 := After(s1, pop);
    assert s2.used == {};
    StaleDelete(s2);
    RunThen(s1, pop, end);
    RunThen(s, pop, pop + end);
    RunThen(Empty(), Prelude(), pop + (pop + end));
  }

  lemma StaleDelete(s: Ll)
    requires s.first == Nulls && s.adders == map[] && s.used == {} && s.added == [2, 1] && s.delivered == [2, 1]
    requires 0 in s.deleters && s.deleters[0] == Deleter(2, Some(At(1)))
    ensures var steps := Add(2) + [DelCas(0)];
      CanRun(s, steps) && LinkedAgain(After(s, steps))
  {
    AddOne(s, 2);
    var s1 := After(s, Add(2));
    OneStep(s1, DelCas(0));
    assert Next(s1, DelCas(0)).used == {};
    RunThen(s, Add(2), [DelCas(0)]);
  }
}
