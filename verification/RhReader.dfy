/**
 Whole runs of the hash table, and a reader that walks it without any lock: bucket by bucket from the
 current table to the newest. However its steps fall between those of the worker and of the inserters, it
 does not miss an object that is in the table, even when the entry it stands on is moved.
 */
module RhReader {
  import opened Common
  import opened Chains
  import opened RhModel
  import opened RhInvariant

  lemma StepKeeps(p: Params, s: Ht, v: View, step: Step)
    requires Inv(p, s, v) && Enabled(p, s, step)
    ensures Inv(p, Next(p, s, step), NextView(p, s, v, step))
  {
    match step
    case Attach(size) => AttachKeeps(p, s, v, size);
    case Enter => EnterKeeps(p, s, v);
    case Choose => ChooseKeeps(p, s, v);
    case Aim(path, e) => AimKeeps(p, s, v, path, e);
    case Publish => PublishKeeps(p, s, v);
    case Unlink => UnlinkKeeps(p, s, v);
    case Advance => AdvanceKeeps(p, s, v);
    case Retire => RetireKeeps(p, s, v);
    case Begin(i, o, t0) => BeginKeeps(p, s, v, i, o, t0);
    case Examine(i, found) => ExamineKeeps(p, s, v, i, found);
    case Link(i) => LinkKeeps(p, s, v, i);
    case GiveUp(i) => GiveUpKeeps(p, s, v, i);
  }

  /** A step that is taken inserts at most one object, and only when no object has its key. */
  function Inserts(s: Ht, step: Step): set<Obj> {
    match step
    case Link(i) => if i in s.inserters then {s.inserters[i].o} else {}
    case _ => {}
  }

  ghost predicate CanRun(p: Params, s: Ht, steps: seq<Step>)
    decreases steps
  {
    steps == [] || (Enabled(p, s, steps[0]) && CanRun(p, Next(p, s, steps[0]), steps[1..]))
  }

  function After(p: Params, s: Ht, steps: seq<Step>): Ht
    decreases steps
  {
    if steps == [] then s else After(p, Next(p, s, steps[0]), steps[1..])
  }

  // the objects for which insertion has returned success
  function Inserted(p: Params, s: Ht, steps: seq<Step>): set<Obj>
    decreases steps
  {
    if steps == [] then {} else Inserts(s, steps[0]) + Inserted(p, Next(p, s, steps[0]), steps[1..])
  }

  // Inv, under a name that proofs do not unfold: the recursion on `seal` does nothing else.
  ghost predicate Kept(p: Params, s: Ht, v: View, seal: nat)
    decreases seal, s
  {
    if seal > 0 then Kept(p, s, v, seal - 1) else Inv(p, s, v)
  }

  lemma KeptIs(p: Params, s: Ht, v: View)
    ensures Kept(p, s, v, SEAL) <==> Inv(p, s, v)
  {
    assert Kept(p, s, v, 3) <==> Kept(p, s, v, 2);
    assert Kept(p, s, v, 2) <==> Kept(p, s, v, 1);
    assert Kept(p, s, v, 1) <==> Kept(p, s, v, 0);
  }

  lemma StepIsKept(p: Params, s: Ht, v: View, step: Step)
    requires Kept(p, s, v, SEAL) && Enabled(p, s, step)
    ensures Kept(p, Next(p, s, step), NextView(p, s, v, step), SEAL)
    ensures NextView(p, s, v, step).loc.Keys == v.loc.Keys + Inserts(s, step)
  {
    KeptIs(p, s, v);
    KeptIs(p, Next(p, s, step), NextView(p, s, v, step));
    StepKeeps(p, s, v, step);
    StepInserts(p, s, v, step);
  }

  lemma {:induction false} RunKeeps(p: Params, s: Ht, v: View, steps: seq<Step>) returns (v': View)
    requires Kept(p, s, v, SEAL) && CanRun(p, s, steps)
    ensures Kept(p, After(p, s, steps), v', SEAL)
    ensures v'.loc.Keys == v.loc.Keys + Inserted(p, s, steps)
    decreases steps
  {
    if steps == [] {
      v' := v;
    } else {
      StepIsKept(p, s, v, steps[0]);
      v' := RunKeeps(p, Next(p, s, steps[0]), NextView(p, s, v, steps[0]), steps[1..]);
    }
  }

  lemma StepInserts(p: Params, s: Ht, v: View, step: Step)
    requires Inv(p, s, v) && Enabled(p, s, step)
    ensures NextView(p, s, v, step).loc.Keys == v.loc.Keys + Inserts(s, step)
  {
    if step.Publish? {
      assert s.mover.e in Chain(v, s.cur, s.rehash);
    } else if step.Link? {
      assert InserterOk(p, s, v, s.inserters[step.i]);
    }
  }

  // the bucket that an object may be in: its hash says so, and the cursor has not passed it
  ghost predicate Belongs(p: Params, s: Ht, t: nat, b: nat, o: Obj) {
    s.cur <= t < |s.sizes| && s.sizes[t] > 0 && b == p.hash(t, p.key(o)) % s.sizes[t] && (t == s.cur ==> s.rehash <= b)
  }

  /** What the table looks like: the chains of all its buckets, each followed from its head, hold exactly
      the objects of `objects`, each once, in the bucket of its hash, with distinct keys; and the buckets
      that the cursor has passed are empty. */
  ghost predicate Exact(p: Params, s: Ht, v: View, objects: set<Obj>) {
    && Linked(s, v) && (forall t: nat, b: nat :: NoDup(Chain(v, t, b)))
    && (forall t: nat, b: nat, o :: o in Chain(v, t, b) ==> o in objects && Belongs(p, s, t, b, o))
    && (forall o :: o in objects ==> exists t: nat, b: nat :: o in Chain(v, t, b))
    && (forall t: nat, b: nat, o, t': nat, b': nat :: o in Chain(v, t, b) && o in Chain(v, t', b') ==> t == t' && b == b')
    && (forall o, o' :: o in objects && o' in objects && p.key(o) == p.key(o') ==> o == o')
  }

  lemma InvIsExact(p: Params, s: Ht, v: View)
    requires Shape(s) && Linked(s, v) && Located(v) && Placed(p, s, v) && KeysUnique(p, v)
    ensures Exact(p, s, v, v.loc.Keys)
  {
    PlacesExact(p, s, v);
    OnceExact(p, v);
  }

  lemma PlacesExact(p: Params, s: Ht, v: View)
    requires Shape(s) && Located(v) && Placed(p, s, v)
    ensures forall t: nat, b: nat, o :: o in Chain(v, t, b) ==> o in v.loc.Keys && Belongs(p, s, t, b, o)
  {
    forall t: nat, b: nat, o | o in Chain(v, t, b)
      ensures o in v.loc.Keys && Belongs(p, s, t, b, o)
    {
      assert o in Chain(v, t, b) <==> o in v.loc && v.loc[o] == (t, b);
      assert InPlace(p, s, v, o);
    }
  }

  lemma OnceExact(p: Params, v: View)
    requires Located(v) && KeysUnique(p, v)
    ensures forall o :: o in v.loc.Keys ==> exists t: nat, b: nat :: o in Chain(v, t, b)
    ensures forall t: nat, b: nat, o, t': nat, b': nat :: o in Chain(v, t, b) && o in Chain(v, t', b') ==> t == t' && b == b'
  {
    forall o | o in v.loc.Keys
      ensures exists t: nat, b: nat :: o in Chain(v, t, b)
    {
      assert o in Chain(v, v.loc[o].0, v.loc[o].1);
    }
    forall t: nat, b: nat, o, t': nat, b': nat | o in Chain(v, t, b) && o in Chain(v, t', b')
      ensures t == t' && b == b'
    {
      assert o in v.loc && v.loc[o] == (t, b);
    }
  }

  /** After any run the union of all tables is exactly what was inserted: nothing lost, nothing doubled. */
  lemma AlwaysExact(p: Params, size: nat, steps: seq<Step>) returns (v: View)
    requires size > 0 && CanRun(p, Initial(size), steps)
    ensures Exact(p, After(p, Initial(size), steps), v, Inserted(p, Initial(size), steps))
  {
    var s0, v0 := Initial(size), View(map[], map[]);
    KeptIs(p, s0, v0);
    v := RunKeeps(p, s0, v0, steps);
    KeptIs(p, After(p, s0, steps), v);
    InvIsExact(p, After(p, s0, steps), v);
    assert v.loc.Keys == Inserted(p, s0, steps);
  }

  /** rhashtable_try_insert reports -EEXIST exactly for keys that are present: the last lookup of an
      insertion finds an object if and only if there is one with the key in any of the tables. */
  lemma InsertExact(p: Params, s: Ht, v: View, i: nat, found: Option<Obj>)
    requires Inv(p, s, v) && Enabled(p, s, Examine(i, found))
    requires found.Some? || s.inserters[i].t == Last(s)
    ensures found.Some? <==> exists o :: o in v.loc && p.key(o) == p.key(s.inserters[i].o)
  {
    LookupExact(p, s, v, i, found);
    assert InserterOk(p, s, v, s.inserters[i]);
    if found.None? {
      forall o | o in v.loc
        ensures p.key(o) != p.key(s.inserters[i].o)
      {
        assert InPlace(p, s, v, o);
      }
    }
  }

  /** When the object is linked there still is no other one with its key, though a table may have been
      attached and filled in the meantime. */
  lemma LinkExact(p: Params, s: Ht, v: View, i: nat)
    requires Inv(p, s, v) && Enabled(p, s, Link(i))
    ensures forall o :: o in v.loc ==> p.key(o) != p.key(s.inserters[i].o)
  {
    assert InserterOk(p, s, v, s.inserters[i]);
  }

  // ---- a reader without locks

  datatype Spot = AtTable | AtPtr(ptr: Ptr)

  /** A reader looking for the key of `x`: about to read the head of its bucket in table `t`, or at a place
      in a chain. */
  datatype Reader = Reader(x: Obj, t: nat, spot: Spot, found: bool)

  function StartReading(s: Ht, x: Obj): Reader {
    Reader(x, s.cur, AtTable, false)
  }

  /** One step of the reader. At the end of a chain, wherever that has led it, it goes on to the next table. */
  function Read(p: Params, s: Ht, r: Reader): Reader {
    if r.found || r.t >= |s.sizes| || s.sizes[r.t] == 0 then r
    else match r.spot
      case AtTable => r.(spot := AtPtr(Head(s, r.t, Hash(p, s, r.t, r.x))))
      case AtPtr(At(o)) => if p.key(o) == p.key(r.x) then r.(found := true) else r.(spot := AtPtr(Follow(s, o)))
      case AtPtr(Nulls) => if r.t < Last(s) then r.(t := r.t + 1, spot := AtTable) else r
  }

  // The reader is through with all tables and has not found its key.
  predicate Missed(s: Ht, r: Reader) {
    !r.found && r.t == Last(s) && r.spot == AtPtr(Nulls)
  }

  /** The object is still ahead in the chain that the reader is in. */
  ghost predicate Ahead(s: Ht, v: View, x: Obj, ptr: Ptr, k: nat)
    requires x in v.loc
  {
    var (t, b) := v.loc[x];
    k <= |Chain(v, t, b)| && x in Chain(v, t, b)[k..] && Seg(s.next, ptr, Chain(v, t, b)[k..], EndOf(s, t, b))
  }

  ghost predicate ReaderOk(s: Ht, v: View, r: Reader) {
    && r.x in v.loc
    && (!r.found ==>
         v.loc[r.x].0 > r.t
         || (v.loc[r.x].0 == r.t && (r.spot.AtPtr? ==> exists k: nat :: Ahead(s, v, r.x, r.spot.ptr, k))))
  }

  lemma ReadKeeps(p: Params, s: Ht, v: View, r: Reader)
    requires Shape(s) && Linked(s, v) && Located(v) && Placed(p, s, v) && ReaderOk(s, v, r)
    ensures ReaderOk(s, v, Read(p, s, r)) && !Missed(s, r)
  {
    assert InPlace(p, s, v, r.x);
    if !r.found && v.loc[r.x].0 == r.t {
      if r.spot.AtTable? {
        ReadHead(p, s, v, r);
      } else {
        var k: nat :| Ahead(s, v, r.x, r.spot.ptr, k);
        ReadEntry(p, s, v, r, k);
      }
    }
  }

  lemma ReadHead(p: Params, s: Ht, v: View, r: Reader)
    requires Linked(s, v) && Located(v) && r.x in v.loc
    ensures Ahead(s, v, r.x, Head(s, v.loc[r.x].0, v.loc[r.x].1), 0)
  {
    var (t, b) := v.loc[r.x];
    assert r.x in Chain(v, t, b) && Seg(s.next, Head(s, t, b), Chain(v, t, b), EndOf(s, t, b));
    assert Chain(v, t, b)[0..] == Chain(v, t, b);
  }

  lemma ReadEntry(p: Params, s: Ht, v: View, r: Reader, k: nat)
    requires r.x in v.loc && r.spot.AtPtr? && Ahead(s, v, r.x, r.spot.ptr, k)
    ensures r.spot.ptr.At?
    ensures p.key(r.spot.ptr.o) != p.key(r.x) ==> Ahead(s, v, r.x, Follow(s, r.spot.ptr.o), k + 1)
  {
    var (t, b) := v.loc[r.x];
    var rest := Chain(v, t, b)[k..];
    assert rest != [];
    assert Chain(v, t, b)[k + 1..] == rest[1..];
  }

  // ---- the reader between the steps of the others

  /** No step of the worker or of an inserter puts the object out of the reader's reach. */
  lemma ReaderKeeps(p: Params, s: Ht, v: View, r: Reader, step: Step)
    requires Inv(p, s, v) && Enabled(p, s, step) && ReaderOk(s, v, r)
    ensures ReaderOk(Next(p, s, step), NextView(p, s, v, step), r)
  {
    var (t, b) := v.loc[r.x];
    assert InPlace(p, s, v, r.x);
    if !r.found && t == r.t && r.spot.AtPtr? {
      var k: nat :| Ahead(s, v, r.x, r.spot.ptr, k);
      AheadKeeps(p, s, v, r.x, r.spot.ptr, step, k);
    } else if step.Publish? {
      MovesOn(p, s, v, r.x);
    }
  }

  // where an object goes when an entry is moved: nowhere, or to a later table
  lemma MovesOn(p: Params, s: Ht, v: View, x: Obj)
    requires Shape(s) && Located(v) && MoverOk(p, s, v) && s.mover.Aimed? && x in v.loc
    ensures var l := NextView(p, s, v, Publish).loc[x];
      if x == s.mover.e then v.loc[x] == (s.cur, s.rehash) && l.0 > s.cur else l == v.loc[x]
  {
    assert s.mover.e in Chain(v, s.cur, s.rehash);
  }

  /** What is ahead stays ahead, or moves to a later table. */
  lemma AheadKeeps(p: Params, s: Ht, v: View, x: Obj, ptr: Ptr, step: Step, k: nat)
    requires Shape(s) && Linked(s, v) && Located(v) && MoverOk(p, s, v) && InsertersOk(p, s, v)
    requires Enabled(p, s, step) && x in v.loc && Ahead(s, v, x, ptr, k)
    ensures var s', v' := Next(p, s, step), NextView(p, s, v, step);
      && x in v'.loc
      && if v'.loc[x] == v.loc[x] then exists k': nat :: Ahead(s', v', x, ptr, k') else v'.loc[x].0 > v.loc[x].0
  {
    var s', v' := Next(p, s, step), NextView(p, s, v, step);
    match step
    case Aim(path, e) =>
      TailFound(p, s, v, path, e);
      AheadAim(p, s, v, x, ptr, path, e, k);
    case Publish =>
      MovesOn(p, s, v, x);
      if x != s.mover.e {
        AheadPublish(p, s, v, x, ptr, k);
      }
    case Unlink => AheadUnlink(p, s, v, x, ptr, k);
    case Link(i) => AheadLink(p, s, v, x, ptr, i, k);
    case _ =>
      StillEnds(p, s, step, v.loc[x].0, v.loc[x].1);
      AheadSame(s, s', v, x, ptr, k);
  }

  // steps that write no pointer
  lemma StillEnds(p: Params, s: Ht, step: Step, t: nat, b: nat)
    requires Enabled(p, s, step) && !step.Aim? && !step.Publish? && !step.Unlink? && !step.Link?
    ensures var s' := Next(p, s, step); s'.next == s.next && EndOf(s', t, b) == EndOf(s, t, b)
  {
  }

  lemma AheadSame(s: Ht, s': Ht, v: View, x: Obj, ptr: Ptr, k: nat)
    requires x in v.loc && Ahead(s, v, x, ptr, k) && s'.next == s.next
    requires EndOf(s', v.loc[x].0, v.loc[x].1) == EndOf(s, v.loc[x].0, v.loc[x].1)
    ensures Ahead(s', v, x, ptr, k)
  {
  }

  lemma AheadAim(p: Params, s: Ht, v: View, x: Obj, ptr: Ptr, path: seq<Obj>, e: Obj, k: nat)
    requires Shape(s) && Located(v) && s.mover.Chosen? && s.mover.nt < |s.sizes| && Chain(v, s.cur, s.rehash) == path + [e]
    requires x in v.loc && Ahead(s, v, x, ptr, k)
    ensures Ahead(Next(p, s, Aim(path, e)), v, x, ptr, k)
  {
    var s' := Next(p, s, Aim(path, e));
    var (t, b) := v.loc[x];
    var c := Chain(v, t, b);
    if t == s.cur && b == s.rehash {
      assert c[k..][|c| - k - 1] == c[|c| - 1] == e;
      assert NoDup(c);
      SegTurn(s.next, ptr, c[k..], Nulls, e, s'.next[e]);
    } else {
      assert e == Chain(v, s.cur, s.rehash)[|path|];
      Elsewhere(v, e, s.cur, s.rehash, t, b);
      SegFrame(s.next, s'.next, ptr, c[k..], EndOf(s, t, b));
    }
  }

  lemma AheadUnlink(p: Params, s: Ht, v: View, x: Obj, ptr: Ptr, k: nat)
    requires Shape(s) && Located(v) && MoverOk(p, s, v) && s.mover.Published?
    requires x in v.loc && Ahead(s, v, x, ptr, k)
    ensures Ahead(Next(p, s, Unlink), v, x, ptr, k)
  {
    var s' := Next(p, s, Unlink);
    var (t, b) := v.loc[x];
    var c, d := Chain(v, t, b), Chain(v, s.cur, s.rehash);
    if d != [] {
      var q := d[|d| - 1];
      if t == s.cur && b == s.rehash {
        assert c[k..][|c| - k - 1] == q;
        assert NoDup(c);
        SegTurn(s.next, ptr, c[k..], EndOf(s, t, b), q, Nulls);
      } else {
        Elsewhere(v, q, s.cur, s.rehash, t, b);
        SegFrame(s.next, s'.next, ptr, c[k..], EndOf(s, t, b));
      }
    }
  }

  /** Another entry than the one that moves comes before it in the old chain or behind it in the new one. */
  lemma AheadPublish(p: Params, s: Ht, v: View, x: Obj, ptr: Ptr, k: nat)
    requires Shape(s) && MoverOk(p, s, v) && s.mover.Aimed? && x in v.loc && x != s.mover.e && Ahead(s, v, x, ptr, k)
    ensures exists k': nat :: Ahead(Next(p, s, Publish), NextView(p, s, v, Publish), x, ptr, k')
  {
    var s', v' := Next(p, s, Publish), NextView(p, s, v, Publish);
    var (t, b) := v.loc[x];
    var e, c := s.mover.e, Chain(v, t, b);
    if t == s.cur && b == s.rehash {
      AheadDrop(s, v, x, ptr, k);
      assert Ahead(s', v', x, ptr, k);
    } else if t == s.mover.nt && b == Hash(p, s, t, e) {
      assert ([e] + c)[k + 1..] == c[k..];
      assert Ahead(s', v', x, ptr, k + 1);
    } else {
      assert Ahead(s', v', x, ptr, k);
    }
  }

  // ahead of the last entry of the chain
  lemma AheadDrop(s: Ht, v: View, x: Obj, ptr: Ptr, k: nat)
    requires x in v.loc && Ahead(s, v, x, ptr, k)
    requires var (t, b) := v.loc[x]; var c := Chain(v, t, b); c != [] && x != c[|c| - 1]
    ensures var (t, b) := v.loc[x]; var c := Chain(v, t, b); var d := c[..|c| - 1];
      k <= |d| && x in d[k..] && Seg(s.next, ptr, d[k..], At(c[|c| - 1]))
  {
    var (t, b) := v.loc[x];
    var c := Chain(v, t, b);
    SegDrop(s.next, ptr, c[k..], EndOf(s, t, b));
    assert c[k..][..|c| - k - 1] == c[..|c| - 1][k..];
    assert c[k..] == c[..|c| - 1][k..] + [c[|c| - 1]];
  }

  lemma AheadLink(p: Params, s: Ht, v: View, x: Obj, ptr: Ptr, i: nat, k: nat)
    requires Shape(s) && MoverOk(p, s, v) && InsertersOk(p, s, v) && i in s.inserters && x in v.loc && Ahead(s, v, x, ptr, k)
    ensures var s', v' := Next(p, s, Link(i)), NextView(p, s, v, Link(i));
      x in v'.loc && v'.loc[x] == v.loc[x] && exists k': nat :: Ahead(s', v', x, ptr, k')
  {
    var s', v' := Next(p, s, Link(i)), NextView(p, s, v, Link(i));
    var (t, b) := v.loc[x];
    var ins, c := s.inserters[i], Chain(v, t, b);
    assert InserterOk(p, s, v, ins);
    LinkEnd(p, s, v, i, t, b);
    SegFrame(s.next, s'.next, ptr, c[k..], EndOf(s, t, b));
    if t == ins.t && b == Hash(p, s, t, ins.o) {
      assert ([ins.o] + c)[k + 1..] == c[k..];
      assert Ahead(s', v', x, ptr, k + 1);
    } else {
      assert Ahead(s', v', x, ptr, k);
    }
  }

  // ---- runs with a reader in them

  datatype Event = Other(step: Step) | ReadOne

  ghost predicate CanHappen(p: Params, s: Ht, events: seq<Event>)
    decreases events
  {
    events == [] ||
    match events[0]
    case ReadOne => CanHappen(p, s, events[1..])
    case Other(step) => Enabled(p, s, step) && CanHappen(p, Next(p, s, step), events[1..])
  }

  function Outcome(p: Params, s: Ht, r: Reader, events: seq<Event>): (Ht, Reader)
    decreases events
  {
    if events == [] then (s, r)
    else match events[0]
      case ReadOne => Outcome(p, s, Read(p, s, r), events[1..])
      case Other(step) => Outcome(p, Next(p, s, step), r, events[1..])
  }

  /** A reader that starts in the current table while `x` is inserted never comes to the end of the last
      table without having found its key, whatever happens between its steps. */
  lemma NeverMissed(p: Params, s: Ht, v: View, x: Obj, events: seq<Event>)
    requires Inv(p, s, v) && x in v.loc && CanHappen(p, s, events)
    ensures var (s', r') := Outcome(p, s, StartReading(s, x), events); !Missed(s', r')
  {
    KeptIs(p, s, v);
    assert InPlace(p, s, v, x);
    ReaderRun(p, s, v, StartReading(s, x), events);
  }

  lemma {:induction false} ReaderRun(p: Params, s: Ht, v: View, r: Reader, events: seq<Event>)
    requires Kept(p, s, v, SEAL) && ReaderOk(s, v, r) && CanHappen(p, s, events)
    ensures var (s', r') := Outcome(p, s, r, events); !Missed(s', r')
    decreases events
  {
    KeptIs(p, s, v);
    if events == [] {
      ReadKeeps(p, s, v, r);
    } else if events[0].ReadOne? {
      ReadKeeps(p, s, v, r);
      ReaderRun(p, s, v, Read(p, s, r), events[1..]);
    } else {
      var step := events[0].step;
      StepIsKept(p, s, v, step);
      ReaderKeeps(p, s, v, r, step);
      ReaderRun(p, Next(p, s, step), NextView(p, s, v, step), r, events[1..]);
    }
  }

  /** What it stands on when it has found something is an entry with the key. */
  lemma {:induction false} FoundIsRight(p: Params, s: Ht, x: Obj, events: seq<Event>)
    ensures var (_, r) := Outcome(p, s, StartReading(s, x), events);
      r.x == x && (r.found ==> r.spot.AtPtr? && r.spot.ptr.At? && p.key(r.spot.ptr.o) == p.key(x))
  {
    RightRun(p, s, StartReading(s, x), events);
  }

  predicate Right(p: Params, r: Reader) {
    r.found ==> r.spot.AtPtr? && r.spot.ptr.At? && p.key(r.spot.ptr.o) == p.key(r.x)
  }

  lemma {:induction false} RightRun(p: Params, s: Ht, r: Reader, events: seq<Event>)
    requires Right(p, r)
    ensures var (_, r') := Outcome(p, s, r, events); r'.x == r.x && Right(p, r')
    decreases |events|
  {
    if events != [] {
      match events[0]
      case ReadOne => RightRun(p, s, Read(p, s, r), events[1..]);
      case Other(step) => RightRun(p, Next(p, s, step), r, events[1..]);
    }
  }

  // ---- a reader that is left alone

  function Reads(p: Params, s: Ht, r: Reader, n: nat): Reader
    decreases n
  {
    if n == 0 then r else Reads(p, s, Read(p, s, r), n - 1)
  }

  lemma {:induction false} ReadsKeep(p: Params, s: Ht, v: View, r: Reader, n: nat)
    requires Shape(s) && Linked(s, v) && Located(v) && Placed(p, s, v) && ReaderOk(s, v, r)
    ensures ReaderOk(s, v, Reads(p, s, r, n))
    decreases n
  {
    if n > 0 {
      ReadKeeps(p, s, v, r);
      ReadsKeep(p, s, v, Read(p, s, r), n - 1);
    }
  }

  lemma {:induction false} ReadsMore(p: Params, s: Ht, r: Reader, m: nat, n: nat)
    ensures Reads(p, s, r, m + n) == Reads(p, s, Reads(p, s, r, m), n)
    decreases m
  {
    if m > 0 {
      ReadsMore(p, s, Read(p, s, r), m - 1, n);
    }
  }

  /** Every chain comes to an end, even while an entry of it is being moved. */
  lemma PathToEnd(p: Params, s: Ht, v: View, t: nat, b: nat) returns (c: seq<Obj>)
    requires Inv(p, s, v)
    ensures Seg(s.next, Head(s, t, b), c, Nulls)
  {
    c := Chain(v, t, b);
    assert Seg(s.next, Head(s, t, b), c, EndOf(s, t, b));
    if EndOf(s, t, b) != Nulls {
      var d := Onward(p, s, v);
      SegJoin(s.next, Head(s, t, b), c, EndOf(s, t, b), d);
      c := c + d;
    }
  }

  // the way on from the bucket that the worker is in
  lemma Onward(p: Params, s: Ht, v: View) returns (d: seq<Obj>)
    requires Inv(p, s, v)
    ensures Seg(s.next, EndOf(s, s.cur, s.rehash), d, Nulls)
  {
    match s.mover
    case Aimed(e, _, nt) =>
      d := Chain(v, nt, Hash(p, s, nt, e));
      assert EndOf(s, nt, Hash(p, s, nt, e)) == Nulls;
      assert Seg(s.next, Head(s, nt, Hash(p, s, nt, e)), d, Nulls);
    case Published(e, _) =>
      var (t, b) := v.loc[e];
      assert e in Chain(v, t, b) && Seg(s.next, Head(s, t, b), Chain(v, t, b), Nulls);
      var k := SegFrom(s.next, Head(s, t, b), Chain(v, t, b), Nulls, e);
      d := Chain(v, t, b)[k..];
    case _ => d := [];
  }

  lemma {:induction false} SegJoin(next: map<Obj, Ptr>, ptr: Ptr, c: seq<Obj>, mid: Ptr, d: seq<Obj>)
    requires Seg(next, ptr, c, mid) && Seg(next, mid, d, Nulls)
    ensures Seg(next, ptr, c + d, Nulls)
    decreases |c|
  {
    if c == [] {
      assert c + d == d;
    } else {
      SegJoin(next, next[c[0]], c[1..], mid, d);
      assert (c + d)[1..] == c[1..] + d;
    }
  }

  lemma {:induction false} SegFrom(next: map<Obj, Ptr>, ptr: Ptr, c: seq<Obj>, end: Ptr, o: Obj) returns (k: nat)
    requires Seg(next, ptr, c, end) && o in c
    ensures k < |c| && Seg(next, At(o), c[k..], end)
    decreases |c|
  {
    if c[0] == o {
      k := 0;
      assert c[0..] == c;
    } else {
      k := SegFrom(next, next[c[0]], c[1..], end, o);
      assert c[1..][k..] == c[k + 1..];
      k := k + 1;
    }
  }

  // down a chain to an entry with the key, or to the end
  lemma {:induction false} WalkDown(p: Params, s: Ht, r: Reader, c: seq<Obj>) returns (n: nat)
    requires r.t < |s.sizes| && s.sizes[r.t] > 0 && !r.found && r.spot.AtPtr? && Seg(s.next, r.spot.ptr, c, Nulls)
    ensures Reads(p, s, r, n).found || Reads(p, s, r, n) == r.(spot := AtPtr(Nulls))
    decreases |c|
  {
    if c == [] {
      n := 0;
    } else if p.key(c[0]) == p.key(r.x) {
      n := 1;
      assert Reads(p, s, r, 1) == Reads(p, s, Read(p, s, r), 0);
    } else {
      n := WalkDown(p, s, Read(p, s, r), c[1..]);
      n := n + 1;
    }
  }

  /** Left alone, a reader comes to an entry with the key of an inserted object, whatever the worker and the
      inserters were about to do. */
  lemma LookupFinds(p: Params, s: Ht, v: View, x: Obj) returns (n: nat)
    requires Inv(p, s, v) && x in v.loc
    ensures Reads(p, s, StartReading(s, x), n).found
  {
    assert InPlace(p, s, v, x);
    KeptIs(p, s, v);
    n := FindsFrom(p, s, v, StartReading(s, x));
  }

  lemma {:induction false} FindsFrom(p: Params, s: Ht, v: View, r: Reader) returns (n: nat)
    requires Kept(p, s, v, SEAL) && ReaderOk(s, v, r) && !r.found && r.spot.AtTable? && r.t < |s.sizes|
    ensures Reads(p, s, r, n).found
    decreases |s.sizes| - r.t
  {
    n := OneTable(p, s, v, r);
    var r' := Reads(p, s, r, n);
    if !r'.found {
      var k := FindsFrom(p, s, v, r');
      ReadsMore(p, s, r, n, k);
      n := n + k;
    }
  }

  lemma OneTable(p: Params, s: Ht, v: View, r: Reader) returns (n: nat)
    requires Kept(p, s, v, SEAL) && ReaderOk(s, v, r) && !r.found && r.spot.AtTable? && r.t < |s.sizes|
    ensures var r' := Reads(p, s, r, n);
      r'.found || (ReaderOk(s, v, r') && r'.t < |s.sizes| && r' == Reader(r.x, r.t + 1, AtTable, false))
  {
    KeptIs(p, s, v);
    n := ThroughTable(p, s, v, r);
    if !Reads(p, s, r, n).found {
      NextTable(p, s, v, r, n);
      n := n + 1;
    }
  }

  lemma NextTable(p: Params, s: Ht, v: View, r: Reader, n: nat)
    requires Shape(s) && Linked(s, v) && Located(v) && Placed(p, s, v) && ReaderOk(s, v, r)
    requires !r.found && r.t < |s.sizes| && Reads(p, s, r, n) == r.(spot := AtPtr(Nulls))
    ensures var r' := Reads(p, s, r, n + 1); ReaderOk(s, v, r') && r'.t < |s.sizes| && r' == Reader(r.x, r.t + 1, AtTable, false)
  {
    ReadsKeep(p, s, v, r, n);
    ReadKeeps(p, s, v, Reads(p, s, r, n));
    LastRead(p, s, r, n);
  }

  lemma ThroughTable(p: Params, s: Ht, v: View, r: Reader) returns (n: nat)
    requires Inv(p, s, v) && !r.found && r.spot.AtTable? && r.t < |s.sizes|
    ensures Reads(p, s, r, n).found || Reads(p, s, r, n) == r.(spot := AtPtr(Nulls))
  {
    var c := PathToEnd(p, s, v, r.t, Hash(p, s, r.t, r.x));
    var m := WalkDown(p, s, Read(p, s, r), c);
    n := m + 1;
  }

  lemma LastRead(p: Params, s: Ht, r: Reader, n: nat)
    ensures Reads(p, s, r, n + 1) == Read(p, s, Reads(p, s, r, n))
  {
    ReadsMore(p, s, r, n, 1);
    var q := Reads(p, s, r, n);
    assert Reads(p, s, q, 1) == Reads(p, s, Read(p, s, q), 0);
  }
}
