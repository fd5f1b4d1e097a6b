/**
 What every step of the hash table keeps: the chains of all tables together hold exactly the inserted
 objects, each once, each in the bucket its hash says, with no two keys equal; the buckets that the
 rehash cursor has passed are empty.
 */
module RhInvariant {
  import opened Common
  import opened Chains
  import opened RhModel

  /** The chains as sequences, and for every inserted object the table and bucket it is linked in. */
  datatype View = View(chains: map<(nat, nat), seq<Obj>>, loc: map<Obj, (nat, nat)>)

  function Chain(v: View, t: nat, b: nat): seq<Obj> {
    if (t, b) in v.chains then v.chains[(t, b)] else []
  }

  ghost predicate Shape(s: Ht) {
    && s.cur < |s.sizes| && s.rehash <= s.sizes[s.cur]
    && (forall t :: 0 <= t < |s.sizes| ==> s.sizes[t] > 0)
  }

  // Where a chain ends: the bucket that the worker is in may for a while run on into another one.
  function EndOf(s: Ht, t: nat, b: nat): Ptr {
    if t != s.cur || b != s.rehash then Nulls
    else match s.mover
      case Aimed(e, _, _) => Follow(s, e)
      case Published(e, _) => At(e)
      case _ => Nulls
  }

  ghost predicate Linked(s: Ht, v: View) {
    forall t: nat, b: nat :: Seg(s.next, Head(s, t, b), Chain(v, t, b), EndOf(s, t, b))
  }

  ghost predicate Located(v: View) {
    && (forall t: nat, b: nat :: NoDup(Chain(v, t, b)))
    && (forall t: nat, b: nat, o :: o in Chain(v, t, b) <==> o in v.loc && v.loc[o] == (t, b))
  }

  ghost predicate InPlace(p: Params, s: Ht, v: View, o: Obj)
    requires Shape(s) && o in v.loc
  {
    var (t, b) := v.loc[o];
    s.cur <= t < |s.sizes| && b == Hash(p, s, t, o) && (t == s.cur ==> s.rehash <= b) && o in s.next
  }

  ghost predicate Placed(p: Params, s: Ht, v: View)
    requires Shape(s)
  {
    forall o :: o in v.loc ==> InPlace(p, s, v, o)
  }

  ghost predicate KeysUnique(p: Params, v: View) {
    forall o, o' :: o in v.loc && o' in v.loc && p.key(o) == p.key(o') ==> o == o'
  }

  ghost predicate MoverOk(p: Params, s: Ht, v: View)
    requires Shape(s)
  {
    && (!s.mover.Out? ==> s.cur < Last(s) && s.rehash < s.sizes[s.cur] && !Locked(p, s, s.cur, s.rehash))
    && match s.mover
       case Out => true
       case Inside => true
       case Chosen(nt) => s.cur < nt <= Last(s)
       case Aimed(e, prev, nt) =>
         var c := Chain(v, s.cur, s.rehash);
         && s.cur < nt <= Last(s) && c != [] && c[|c| - 1] == e && prev == PrevOf(c[..|c| - 1])
         && e in s.next && s.next[e] == Head(s, nt, Hash(p, s, nt, e)) && !Locked(p, s, nt, Hash(p, s, nt, e))
       case Published(e, prev) =>
         prev == PrevOf(Chain(v, s.cur, s.rehash)) && e in v.loc && v.loc[e] != (s.cur, s.rehash)
  }

  /** An inserter is in the oldest table whose bucket for its key is not rehashed, and no object with its
      key is in the tables it has looked through. */
  ghost predicate InserterOk(p: Params, s: Ht, v: View, ins: Inserter)
    requires Shape(s)
  {
    && s.cur <= ins.t0 <= ins.t < |s.sizes| && ins.o !in v.loc && ins.o !in s.next
    && (if ins.t0 == s.cur then s.rehash <= Hash(p, s, s.cur, ins.o)
        else ins.t0 == s.cur + 1 && s.rehash > Hash(p, s, s.cur, ins.o))
    && (forall o :: o in v.loc && p.key(o) == p.key(ins.o) ==> v.loc[o].0 >= ins.t && !ins.ready)
  }

  ghost predicate InsertersOk(p: Params, s: Ht, v: View)
    requires Shape(s)
  {
    && (forall i :: i in s.inserters ==> InserterOk(p, s, v, s.inserters[i]))
    && (forall i, j :: i in s.inserters && j in s.inserters && i != j ==>
          s.inserters[i].o != s.inserters[j].o && Apart(p, s, s.inserters[i], s.inserters[j]))
  }

  // bucket locks exclude each other
  ghost predicate Apart(p: Params, s: Ht, x: Inserter, y: Inserter)
    requires Shape(s) && x.t0 < |s.sizes| && y.t0 < |s.sizes|
  {
    x.t0 == y.t0 ==> Hash(p, s, x.t0, x.o) != Hash(p, s, y.t0, y.o)
  }

  ghost predicate Inv(p: Params, s: Ht, v: View) {
    && Shape(s) && Linked(s, v) && Located(v) && Placed(p, s, v) && KeysUnique(p, v)
    && MoverOk(p, s, v) && InsertersOk(p, s, v)
  }

  /** What a step does to the chains. */
  function NextView(p: Params, s: Ht, v: View, step: Step): View {
    match step
    case Publish =>
      if s.mover.Aimed? && s.mover.nt < |s.sizes| && s.sizes[s.mover.nt] > 0 then
        var nt, e := s.mover.nt, s.mover.e;
        var b, src := Hash(p, s, nt, e), Chain(v, s.cur, s.rehash);
        View(v.chains[(s.cur, s.rehash) := if src == [] then [] else src[..|src| - 1]][(nt, b) := [e] + Chain(v, nt, b)],
             v.loc[e := (nt, b)])
      else v
    case Link(i) =>
      if i in s.inserters && s.inserters[i].t < |s.sizes| && s.sizes[s.inserters[i].t] > 0 then
        var ins := s.inserters[i];
        var b := Hash(p, s, ins.t, ins.o);
        View(v.chains[(ins.t, b) := [ins.o] + Chain(v, ins.t, b)], v.loc[ins.o := (ins.t, b)])
      else v
    case _ => v
  }

  lemma Elsewhere(v: View, o: Obj, t: nat, b: nat, t': nat, b': nat)
    requires Located(v) && o in Chain(v, t, b) && (t != t' || b != b')
    ensures o !in Chain(v, t', b')
  {
    assert o in v.loc && v.loc[o] == (t, b);
  }

  // ---- the steps, one by one

  lemma AttachKeeps(p: Params, s: Ht, v: View, size: nat)
    requires Inv(p, s, v) && size > 0
    ensures Inv(p, Next(p, s, Attach(size)), v)
  {
    var s' := Next(p, s, Attach(size));
    SameHashes(p, s, s');
    LockedSame(p, s, s');
    AttachPlaces(p, s, v, s');
  }

  lemma AttachPlaces(p: Params, s: Ht, v: View, s': Ht)
    requires Shape(s) && Shape(s') && Placed(p, s, v) && InsertersOk(p, s, v)
    requires s' == s.(sizes := s'.sizes) && s.sizes <= s'.sizes
    ensures Placed(p, s', v) && InsertersOk(p, s', v)
  {
    SameHashes(p, s, s');
    forall x | x in v.loc
      ensures InPlace(p, s', v, x)
    {
      assert InPlace(p, s, v, x);
    }
    AttachInserters(p, s, v, s');
  }

  lemma AttachInserters(p: Params, s: Ht, v: View, s': Ht)
    requires Shape(s) && Shape(s') && InsertersOk(p, s, v)
    requires s' == s.(sizes := s'.sizes) && s.sizes <= s'.sizes
    ensures InsertersOk(p, s', v)
  {
    SameHashes(p, s, s');
    forall i | i in s'.inserters
      ensures InserterOk(p, s', v, s'.inserters[i])
    {
      assert InserterOk(p, s, v, s.inserters[i]);
    }
    forall i, j | i in s'.inserters && j in s'.inserters && i != j
      ensures s'.inserters[i].o != s'.inserters[j].o && Apart(p, s', s'.inserters[i], s'.inserters[j])
    {
      assert InserterOk(p, s, v, s.inserters[i]) && InserterOk(p, s, v, s.inserters[j]);
      assert Apart(p, s, s.inserters[i], s.inserters[j]);
    }
  }

  // more tables do not change where objects belong in the tables there are
  lemma SameHashes(p: Params, s: Ht, s': Ht)
    requires Shape(s) && s.sizes <= s'.sizes
    ensures forall t: nat, o :: t < |s.sizes| ==> s'.sizes[t] > 0 && Hash(p, s', t, o) == Hash(p, s, t, o)
  {
  }

  predicate NoMoreLocks(x: Inserter, y: Inserter) {
    y.o == x.o && y.t0 == x.t0 && (y.ready ==> y == x)
  }

  lemma LockedSame(p: Params, s: Ht, s': Ht)
    requires Shape(s) && s.sizes <= s'.sizes
    requires forall i :: i in s'.inserters ==> i in s.inserters && NoMoreLocks(s.inserters[i], s'.inserters[i])
    ensures forall t: nat, b: nat :: t < |s.sizes| && Locked(p, s', t, b) ==> Locked(p, s, t, b)
  {
    forall t: nat, b: nat | t < |s.sizes| && Locked(p, s', t, b)
      ensures Locked(p, s, t, b)
    {
      var i :| i in s'.inserters && Holds(p, s', s'.inserters[i], t, b);
      assert Holds(p, s, s.inserters[i], t, b);
    }
  }

  lemma EnterKeeps(p: Params, s: Ht, v: View)
    requires Inv(p, s, v) && Enabled(p, s, Enter)
    ensures Inv(p, Next(p, s, Enter), v)
  {
    LockedSame(p, s, Next(p, s, Enter));
  }

  lemma ChooseKeeps(p: Params, s: Ht, v: View)
    requires Inv(p, s, v) && Enabled(p, s, Choose)
    ensures Inv(p, Next(p, s, Choose), v)
  {
    LockedSame(p, s, Next(p, s, Choose));
    SamePlaces(p, s, Next(p, s, Choose), v);
  }

  /** First the entry is linked to the chain that it is about to join; the old chain runs on into it. */
  lemma AimKeeps(p: Params, s: Ht, v: View, path: seq<Obj>, e: Obj)
    requires Inv(p, s, v) && Enabled(p, s, Aim(path, e))
    ensures Inv(p, Next(p, s, Aim(path, e)), v)
  {
    var s' := Next(p, s, Aim(path, e));
    TailFound(p, s, v, path, e);
    AimLinked(p, s, v, path, e);
    LockedSame(p, s, s');
    SamePlaces(p, s, s', v);
  }

  /** What the worker finds at the end of its walk is the last entry of the chain. */
  lemma TailFound(p: Params, s: Ht, v: View, path: seq<Obj>, e: Obj)
    requires Linked(s, v) && Located(v) && Enabled(p, s, Aim(path, e))
    ensures Chain(v, s.cur, s.rehash) == path + [e] && path + [e] != []
    ensures e in v.loc && v.loc[e] == (s.cur, s.rehash)
    ensures Shape(s) && Placed(p, s, v) ==> e in s.next
  {
    var c := Chain(v, s.cur, s.rehash);
    assert Seg(s.next, Head(s, s.cur, s.rehash), c, EndOf(s, s.cur, s.rehash));
    SegUnique(s.next, Head(s, s.cur, s.rehash), c, path + [e]);
    assert e == (path + [e])[|path|];
    assert e in c;
    if Shape(s) && Placed(p, s, v) {
      assert InPlace(p, s, v, e);
    }
  }

  lemma AimLinked(p: Params, s: Ht, v: View, path: seq<Obj>, e: Obj)
    requires Inv(p, s, v) && Enabled(p, s, Aim(path, e)) && Chain(v, s.cur, s.rehash) == path + [e]
    ensures Linked(Next(p, s, Aim(path, e)), v)
  {
    var s' := Next(p, s, Aim(path, e));
    var c := path + [e];
    assert e == c[|c| - 1];
    forall t: nat, b: nat
      ensures Seg(s'.next, Head(s', t, b), Chain(v, t, b), EndOf(s', t, b))
    {
      assert Seg(s.next, Head(s, t, b), Chain(v, t, b), EndOf(s, t, b));
      if t == s.cur && b == s.rehash {
        SegTurn(s.next, Head(s, t, b), c, Nulls, e, s'.next[e]);
      } else {
        Elsewhere(v, e, s.cur, s.rehash, t, b);
        SegFrame(s.next, s'.next, Head(s, t, b), Chain(v, t, b), EndOf(s, t, b));
      }
    }
  }

  /** Objects and inserters stay where they belong when only pointers change. */
  lemma SamePlaces(p: Params, s: Ht, s': Ht, v: View)
    requires Shape(s) && Placed(p, s, v) && InsertersOk(p, s, v)
    requires s'.sizes == s.sizes && s'.cur == s.cur && s'.rehash == s.rehash
    requires s'.inserters == s.inserters && s'.next.Keys == s.next.Keys
    ensures Placed(p, s', v) && InsertersOk(p, s', v)
  {
    forall o | o in v.loc
      ensures InPlace(p, s', v, o)
    {
      assert InPlace(p, s, v, o);
    }
    forall i | i in s'.inserters
      ensures InserterOk(p, s', v, s'.inserters[i])
    {
      assert InserterOk(p, s, v, s.inserters[i]);
    }
    forall i, j | i in s'.inserters && j in s'.inserters && i != j
      ensures s'.inserters[i].o != s'.inserters[j].o && Apart(p, s', s'.inserters[i], s'.inserters[j])
    {
      assert Apart(p, s, s.inserters[i], s.inserters[j]);
    }
  }

  /** Then it becomes the head of that chain, and is reachable in both. */
  lemma PublishKeeps(p: Params, s: Ht, v: View)
    requires Inv(p, s, v) && Enabled(p, s, Publish)
    ensures Inv(p, Next(p, s, Publish), NextView(p, s, v, Publish))
  {
    PublishLinked(p, s, v);
    PublishLocated(p, s, v);
    PublishMover(p, s, v);
    PublishPlaces(p, s, v);
  }

  lemma PublishMover(p: Params, s: Ht, v: View)
    requires Inv(p, s, v) && Enabled(p, s, Publish)
    ensures MoverOk(p, Next(p, s, Publish), NextView(p, s, v, Publish))
  {
    LockedSame(p, s, Next(p, s, Publish));
  }

  lemma PublishPlaces(p: Params, s: Ht, v: View)
    requires Shape(s) && Located(v) && Placed(p, s, v) && KeysUnique(p, v) && MoverOk(p, s, v) && InsertersOk(p, s, v)
    requires s.mover.Aimed?
    ensures var s', v' := Next(p, s, Publish), NextView(p, s, v, Publish);
      Placed(p, s', v') && KeysUnique(p, v') && InsertersOk(p, s', v')
  {
    var s', v' := Next(p, s, Publish), NextView(p, s, v, Publish);
    assert s.mover.e in Chain(v, s.cur, s.rehash);
    SamePlaces(p, s, s', v);
    MovedPlaces(p, s', v, v', s.mover.e);
  }

  lemma PublishLocated(p: Params, s: Ht, v: View)
    requires Inv(p, s, v) && Enabled(p, s, Publish)
    ensures Located(NextView(p, s, v, Publish))
  {
    var e, nt := s.mover.e, s.mover.nt;
    MovedLocated(v, NextView(p, s, v, Publish), s.cur, s.rehash, nt, Hash(p, s, nt, e), e);
  }

  lemma PublishLinked(p: Params, s: Ht, v: View)
    requires Inv(p, s, v) && Enabled(p, s, Publish)
    ensures Linked(Next(p, s, Publish), NextView(p, s, v, Publish))
  {
    var s', v' := Next(p, s, Publish), NextView(p, s, v, Publish);
    var e, nt := s.mover.e, s.mover.nt;
    var b', c := Hash(p, s, nt, e), Chain(v, s.cur, s.rehash);
    forall t: nat, b: nat
      ensures Seg(s'.next, Head(s', t, b), Chain(v', t, b), EndOf(s', t, b))
    {
      assert Seg(s.next, Head(s, t, b), Chain(v, t, b), EndOf(s, t, b));
      if t == s.cur && b == s.rehash {
        SegDrop(s.next, Head(s, t, b), c, EndOf(s, t, b));
      } else if t == nt && b == b' {
        assert Chain(v', t, b)[1..] == Chain(v, t, b);
      }
    }
  }

  // an object that moves to a later table is still in its place, and inserters have not missed it
  lemma MovedPlaces(p: Params, s: Ht, v: View, v': View, e: Obj)
    requires Shape(s) && Placed(p, s, v) && InsertersOk(p, s, v) && e in v.loc && e in s.next
    requires v'.loc.Keys == v.loc.Keys && v'.loc == v.loc[e := v'.loc[e]]
    requires var (t, b) := v'.loc[e]; v.loc[e].0 < t < |s.sizes| && b == Hash(p, s, t, e)
    ensures Placed(p, s, v') && InsertersOk(p, s, v')
  {
    forall o | o in v'.loc
      ensures InPlace(p, s, v', o)
    {
      assert InPlace(p, s, v, o) && InPlace(p, s, v, e);
    }
    forall i | i in s.inserters
      ensures InserterOk(p, s, v', s.inserters[i])
    {
      assert InserterOk(p, s, v, s.inserters[i]);
    }
  }

  lemma MovedLocated(v: View, v': View, t: nat, b: nat, nt: nat, nb: nat, e: Obj)
    requires Located(v) && t != nt
    requires Chain(v, t, b) != [] && e == Chain(v, t, b)[|Chain(v, t, b)| - 1]
    requires v' == View(v.chains[(t, b) := Chain(v, t, b)[..|Chain(v, t, b)| - 1]][(nt, nb) := [e] + Chain(v, nt, nb)],
                        v.loc[e := (nt, nb)])
    ensures Located(v') && e in v.loc && v.loc[e] == (t, b)
  {
    var c := Chain(v, t, b);
    var rest := c[..|c| - 1];
    assert c == rest + [e] && e in c && NoDup(c);
    assert e !in rest;
    assert e in Chain(v, nt, nb) <==> e in v.loc && v.loc[e] == (nt, nb);
    forall x: nat, y: nat
      ensures NoDup(Chain(v', x, y))
    {
      assert NoDup(Chain(v, x, y));
    }
    forall x: nat, y: nat, o
      ensures o in Chain(v', x, y) <==> o in v'.loc && v'.loc[o] == (x, y)
    {
      MovedMember(v, v', t, b, nt, nb, e, x, y, o);
    }
  }

  lemma MovedMember(v: View, v': View, t: nat, b: nat, nt: nat, nb: nat, e: Obj, x: nat, y: nat, o: Obj)
    requires Located(v) && t != nt && Chain(v, t, b) != [] && e in v.loc && v.loc[e] == (t, b)
    requires var c := Chain(v, t, b); e == c[|c| - 1] && e !in c[..|c| - 1]
    requires v' == View(v.chains[(t, b) := Chain(v, t, b)[..|Chain(v, t, b)| - 1]][(nt, nb) := [e] + Chain(v, nt, nb)],
                        v.loc[e := (nt, nb)])
    ensures o in Chain(v', x, y) <==> o in v'.loc && v'.loc[o] == (x, y)
  {
    var c := Chain(v, t, b);
    assert o in Chain(v, x, y) <==> o in v.loc && v.loc[o] == (x, y);
    assert c == c[..|c| - 1] + [e];
  }

  lemma LastLinked(p: Params, s: Ht, v: View, t: nat, b: nat)
    requires Shape(s) && Located(v) && Placed(p, s, v) && Chain(v, t, b) != []
    ensures Chain(v, t, b)[|Chain(v, t, b)| - 1] in s.next
  {
    var q := Chain(v, t, b)[|Chain(v, t, b)| - 1];
    assert q in Chain(v, t, b);
    assert InPlace(p, s, v, q);
  }

  /** Last, it is unlinked from the old chain. */
  lemma UnlinkKeeps(p: Params, s: Ht, v: View)
    requires Inv(p, s, v) && Enabled(p, s, Unlink)
    ensures Inv(p, Next(p, s, Unlink), v)
  {
    UnlinkLinked(p, s, v);
    UnlinkMover(p, s, v);
    UnlinkPlaces(p, s, v);
  }

  lemma UnlinkMover(p: Params, s: Ht, v: View)
    requires Shape(s) && MoverOk(p, s, v) && s.mover.Published?
    ensures MoverOk(p, Next(p, s, Unlink), v)
  {
    LockedSame(p, s, Next(p, s, Unlink));
  }

  lemma UnlinkPlaces(p: Params, s: Ht, v: View)
    requires Shape(s) && Located(v) && Placed(p, s, v) && MoverOk(p, s, v) && InsertersOk(p, s, v) && s.mover.Published?
    ensures Placed(p, Next(p, s, Unlink), v) && InsertersOk(p, Next(p, s, Unlink), v)
  {
    if Chain(v, s.cur, s.rehash) != [] {
      LastLinked(p, s, v, s.cur, s.rehash);
    }
    SamePlaces(p, s, Next(p, s, Unlink), v);
  }

  lemma UnlinkLinked(p: Params, s: Ht, v: View)
    requires Inv(p, s, v) && Enabled(p, s, Unlink)
    ensures Linked(Next(p, s, Unlink), v)
  {
    var s' := Next(p, s, Unlink);
    forall t: nat, b: nat
      ensures Seg(s'.next, Head(s', t, b), Chain(v, t, b), EndOf(s', t, b))
    {
      UnlinkSegment(p, s, v, t, b);
    }
  }

  lemma UnlinkSegment(p: Params, s: Ht, v: View, t: nat, b: nat)
    requires Shape(s) && Linked(s, v) && Located(v) && MoverOk(p, s, v) && s.mover.Published?
    ensures var s' := Next(p, s, Unlink); Seg(s'.next, Head(s', t, b), Chain(v, t, b), EndOf(s', t, b))
  {
    var c := Chain(v, s.cur, s.rehash);
    assert Seg(s.next, Head(s, t, b), Chain(v, t, b), EndOf(s, t, b));
    if c != [] {
      LastUnlinked(p, s, v, c[|c| - 1], t, b);
    }
  }

  lemma LastUnlinked(p: Params, s: Ht, v: View, q: Obj, t: nat, b: nat)
    requires Shape(s) && Located(v) && s.mover.Published? && s.mover.prev == Entry(q)
    requires var c := Chain(v, s.cur, s.rehash); c != [] && q == c[|c| - 1]
    requires Seg(s.next, Head(s, t, b), Chain(v, t, b), EndOf(s, t, b))
    ensures var s' := Next(p, s, Unlink); Seg(s'.next, Head(s', t, b), Chain(v, t, b), EndOf(s', t, b))
  {
    var s' := Next(p, s, Unlink);
    if t == s.cur && b == s.rehash {
      SegTurn(s.next, Head(s, t, b), Chain(v, t, b), EndOf(s, t, b), q, Nulls);
    } else {
      Elsewhere(v, q, s.cur, s.rehash, t, b);
      SegFrame(s.next, s'.next, Head(s, t, b), Chain(v, t, b), EndOf(s, t, b));
    }
  }

  lemma AdvanceKeeps(p: Params, s: Ht, v: View)
    requires Inv(p, s, v) && Enabled(p, s, Advance)
    ensures Inv(p, Next(p, s, Advance), v)
  {
    var s' := Next(p, s, Advance);
    LockedSame(p, s, s');
    assert Seg(s.next, Head(s, s.cur, s.rehash), Chain(v, s.cur, s.rehash), EndOf(s, s.cur, s.rehash));
    assert Chain(v, s.cur, s.rehash) == [];
    forall o | o in v.loc
      ensures InPlace(p, s', v, o)
    {
      assert InPlace(p, s, v, o);
      assert o in Chain(v, v.loc[o].0, v.loc[o].1);
    }
    forall i | i in s'.inserters
      ensures InserterOk(p, s', v, s'.inserters[i])
    {
      assert InserterOk(p, s, v, s.inserters[i]);
      assert !Holds(p, s, s.inserters[i], s.cur, s.rehash);
    }
  }

  /** The current table is empty, and the next one takes its place. */
  lemma RetireKeeps(p: Params, s: Ht, v: View)
    requires Inv(p, s, v) && Enabled(p, s, Retire)
    ensures Inv(p, Next(p, s, Retire), v)
  {
    var s' := Next(p, s, Retire);
    LockedSame(p, s, s');
    forall o | o in v.loc
      ensures InPlace(p, s', v, o)
    {
      assert InPlace(p, s, v, o);
    }
    forall i | i in s'.inserters
      ensures InserterOk(p, s', v, s'.inserters[i])
    {
      assert InserterOk(p, s, v, s.inserters[i]);
    }
  }

  lemma FewerInserters(p: Params, s: Ht, v: View, i: nat)
    requires Inv(p, s, v)
    ensures Inv(p, s.(inserters := s.inserters - {i}), v)
  {
    var s' := s.(inserters := s.inserters - {i});
    LockedSame(p, s, s');
    forall o | o in v.loc
      ensures InPlace(p, s', v, o)
    {
      assert InPlace(p, s, v, o);
    }
    forall j | j in s'.inserters
      ensures InserterOk(p, s', v, s'.inserters[j])
    {
      assert InserterOk(p, s, v, s.inserters[j]);
    }
    forall t: nat, b: nat
      ensures Seg(s'.next, Head(s', t, b), Chain(v, t, b), EndOf(s', t, b))
    {
      assert Seg(s.next, Head(s, t, b), Chain(v, t, b), EndOf(s, t, b));
    }
    forall j, k | j in s'.inserters && k in s'.inserters && j != k
      ensures s'.inserters[j].o != s'.inserters[k].o && Apart(p, s', s'.inserters[j], s'.inserters[k])
    {
      assert Apart(p, s, s.inserters[j], s.inserters[k]);
    }
  }

  lemma GiveUpKeeps(p: Params, s: Ht, v: View, i: nat)
    requires Inv(p, s, v)
    ensures Inv(p, Next(p, s, GiveUp(i)), v)
  {
    FewerInserters(p, s, v, i);
  }

  /** An inserter that begins in the right table has not missed any object with its key. */
  lemma BeginKeeps(p: Params, s: Ht, v: View, i: nat, o: Obj, t0: nat)
    requires Inv(p, s, v) && Enabled(p, s, Begin(i, o, t0))
    ensures Inv(p, Next(p, s, Begin(i, o, t0)), v)
  {
    var s' := Next(p, s, Begin(i, o, t0));
    BeginLocks(p, s, i, o, t0);
    assert MoverOk(p, s', v);
    SameTables(p, s, s', v);
    BeginInserters(p, s, v, i, o, t0);
  }

  lemma BeginInserters(p: Params, s: Ht, v: View, i: nat, o: Obj, t0: nat)
    requires Inv(p, s, v) && Enabled(p, s, Begin(i, o, t0))
    ensures InsertersOk(p, Next(p, s, Begin(i, o, t0)), v)
  {
    var s' := Next(p, s, Begin(i, o, t0));
    NothingMissed(p, s, v, o, t0);
    forall j | j in s'.inserters
      ensures InserterOk(p, s', v, s'.inserters[j])
    {
      if j != i {
        assert InserterOk(p, s, v, s.inserters[j]);
      }
    }
    forall j, k | j in s'.inserters && k in s'.inserters && j != k
      ensures s'.inserters[j].o != s'.inserters[k].o && Apart(p, s', s'.inserters[j], s'.inserters[k])
    {
      if j == i {
        NotHeld(p, s, k, t0, Hash(p, s, t0, o));
      } else if k == i {
        NotHeld(p, s, j, t0, Hash(p, s, t0, o));
      } else {
        assert Apart(p, s, s.inserters[j], s.inserters[k]);
      }
    }
  }

  lemma NotHeld(p: Params, s: Ht, i: nat, t: nat, b: nat)
    requires i in s.inserters && !Locked(p, s, t, b)
    ensures !Holds(p, s, s.inserters[i], t, b)
  {
  }

  lemma BeginLocks(p: Params, s: Ht, i: nat, o: Obj, t0: nat)
    requires Shape(s) && Enabled(p, s, Begin(i, o, t0))
    ensures var s' := Next(p, s, Begin(i, o, t0));
      forall t: nat, b: nat :: t < |s.sizes| && Locked(p, s', t, b) ==>
        Locked(p, s, t, b) || (t == t0 && b == Hash(p, s, t0, o))
  {
    var s' := Next(p, s, Begin(i, o, t0));
    forall t: nat, b: nat | t < |s.sizes| && Locked(p, s', t, b)
      ensures Locked(p, s, t, b) || (t == t0 && b == Hash(p, s, t0, o))
    {
      var j :| j in s'.inserters && Holds(p, s', s'.inserters[j], t, b);
      if j != i {
        assert Holds(p, s, s.inserters[j], t, b);
      }
    }
  }

  // Objects with the key of `o` are in table `t0` or later.
  lemma NothingMissed(p: Params, s: Ht, v: View, o: Obj, t0: nat)
    requires Inv(p, s, v) && s.cur <= t0 < |s.sizes| && o !in s.next
    requires if t0 == s.cur then s.rehash <= Hash(p, s, s.cur, o)
      else t0 == s.cur + 1 && s.rehash > Hash(p, s, s.cur, o)
    ensures o !in v.loc
    ensures forall x :: x in v.loc && p.key(x) == p.key(o) ==> v.loc[x].0 >= t0
  {
    forall x | x in v.loc
      ensures x != o && (p.key(x) == p.key(o) ==> v.loc[x].0 >= t0)
    {
      assert InPlace(p, s, v, x);
    }
  }

  // ---- rhashtable_lookup_one and rhashtable_insert_one

  lemma {:induction false} FirstMatchIs(p: Params, c: seq<Obj>, key: nat)
    ensures match FirstMatch(p, c, key)
      case Some(o) => o in c && p.key(o) == key
      case None => forall o :: o in c ==> p.key(o) != key
    decreases c
  {
    if c != [] {
      FirstMatchIs(p, c[1..], key);
    }
  }

  /** Looking a key up under the lock finds an object exactly if one with that key is in that table. */
  lemma LookupExact(p: Params, s: Ht, v: View, i: nat, found: Option<Obj>)
    requires Inv(p, s, v) && Enabled(p, s, Examine(i, found))
    ensures var ins := s.inserters[i];
      match found
      case Some(o) => o in v.loc && p.key(o) == p.key(ins.o)
      case None => forall o :: o in v.loc && v.loc[o].0 == ins.t ==> p.key(o) != p.key(ins.o)
  {
    var ins := s.inserters[i];
    assert InserterOk(p, s, v, ins);
    var b, key := Hash(p, s, ins.t, ins.o), p.key(ins.o);
    var c := Chain(v, ins.t, b);
    assert Seg(s.next, Head(s, ins.t, b), c, EndOf(s, ins.t, b));
    if ins.t == s.cur {
      assert Holds(p, s, ins, s.cur, b);
    }
    var c' :| Seg(s.next, Head(s, ins.t, b), c', Nulls) && FirstMatch(p, c', key) == found;
    SegUnique(s.next, Head(s, ins.t, b), c, c');
    FirstMatchIs(p, c, key);
    if found.Some? {
      assert found.value in Chain(v, ins.t, b);
    } else {
      forall o | o in v.loc && v.loc[o].0 == ins.t
        ensures p.key(o) != key
      {
        assert InPlace(p, s, v, o);
        assert o in Chain(v, v.loc[o].0, v.loc[o].1);
      }
    }
  }

  /** A lookup that finds the key ends the insertion with -EEXIST; one that does not goes on to the next
      table, or to the insertion. */
  lemma ExamineKeeps(p: Params, s: Ht, v: View, i: nat, found: Option<Obj>)
    requires Inv(p, s, v) && Enabled(p, s, Examine(i, found))
    ensures Inv(p, Next(p, s, Examine(i, found)), v)
  {
    var ins := s.inserters[i];
    LookupExact(p, s, v, i, found);
    assert InserterOk(p, s, v, ins);
    if found.Some? {
      FewerInserters(p, s, v, i);
    } else if ins.t < Last(s) {
      LookOn(p, s, Next(p, s, Examine(i, found)), v, i, ins.(t := ins.t + 1));
    } else {
      EndOfLook(p, s, v, i);
    }
  }

  lemma EndOfLook(p: Params, s: Ht, v: View, i: nat)
    requires Inv(p, s, v) && Enabled(p, s, Examine(i, None)) && s.inserters[i].t == Last(s)
    requires var ins := s.inserters[i];
      forall o :: o in v.loc && v.loc[o].0 == ins.t ==> p.key(o) != p.key(ins.o)
    ensures Inv(p, Next(p, s, Examine(i, None)), v)
  {
    assert InserterOk(p, s, v, s.inserters[i]);
    AbsentEverywhere(p, s, v, i);
    GetReady(p, s, Next(p, s, Examine(i, None)), v, i);
  }

  lemma AbsentEverywhere(p: Params, s: Ht, v: View, i: nat)
    requires Shape(s) && Placed(p, s, v) && i in s.inserters && InserterOk(p, s, v, s.inserters[i])
    requires var ins := s.inserters[i];
      ins.t == Last(s) && forall o :: o in v.loc && v.loc[o].0 == ins.t ==> p.key(o) != p.key(ins.o)
    ensures forall o :: o in v.loc ==> p.key(o) != p.key(s.inserters[i].o)
  {
    forall o | o in v.loc
      ensures p.key(o) != p.key(s.inserters[i].o)
    {
      assert InPlace(p, s, v, o);
    }
  }

  /** The last table has been looked through too: the inserter keeps the lock of its bucket there. */
  lemma GetReady(p: Params, s: Ht, s': Ht, v: View, i: nat)
    requires Inv(p, s, v) && Enabled(p, s, Examine(i, None))
    requires s' == s.(inserters := s.inserters[i := s.inserters[i].(ready := true)])
    requires forall o :: o in v.loc ==> p.key(o) != p.key(s.inserters[i].o)
    ensures Inv(p, s', v)
  {
    assert InserterOk(p, s, v, s.inserters[i]);
    ReadyMover(p, s, s', v, i);
    SameTables(p, s, s', v);
    OtherInserter(p, s, v, i, s.inserters[i].(ready := true));
  }

  lemma ReadyMover(p: Params, s: Ht, s': Ht, v: View, i: nat)
    requires Shape(s) && MoverOk(p, s, v) && Enabled(p, s, Examine(i, None)) && InserterOk(p, s, v, s.inserters[i])
    requires s' == s.(inserters := s.inserters[i := s.inserters[i].(ready := true)])
    ensures MoverOk(p, s', v)
  {
    var ins := s.inserters[i];
    ReadyLocks(p, s, s', i);
    if ins.t == s.cur {
      assert Holds(p, s, ins, s.cur, Hash(p, s, ins.t, ins.o));
    }
  }

  lemma ReadyLocks(p: Params, s: Ht, s': Ht, i: nat)
    requires Shape(s) && i in s.inserters && s.inserters[i].t < |s.sizes|
    requires s' == s.(inserters := s.inserters[i := s.inserters[i].(ready := true)])
    ensures var ins := s.inserters[i];
      forall t: nat, b: nat :: t < |s.sizes| && Locked(p, s', t, b) ==>
        Locked(p, s, t, b) || (t == ins.t && b == Hash(p, s, ins.t, ins.o))
  {
    var ins := s.inserters[i];
    forall t: nat, b: nat | t < |s.sizes| && Locked(p, s', t, b)
      ensures Locked(p, s, t, b) || (t == ins.t && b == Hash(p, s, ins.t, ins.o))
    {
      var j :| j in s'.inserters && Holds(p, s', s'.inserters[j], t, b);
      if j != i || t != ins.t {
        assert Holds(p, s, s.inserters[j], t, b);
      }
    }
  }

  lemma LookOn(p: Params, s: Ht, s': Ht, v: View, i: nat, ins': Inserter)
    requires Inv(p, s, v) && i in s.inserters && s.inserters[i].t < Last(s) && !s.inserters[i].ready
    requires ins' == s.inserters[i].(t := s.inserters[i].t + 1) && s' == s.(inserters := s.inserters[i := ins'])
    requires var ins := s.inserters[i];
      forall o :: o in v.loc && v.loc[o].0 == ins.t ==> p.key(o) != p.key(ins.o)
    ensures Inv(p, s', v)
  {
    assert InserterOk(p, s, v, s.inserters[i]);
    SameMover(p, s, s', v);
    SameTables(p, s, s', v);
    OtherInserter(p, s, v, i, ins');
  }

  lemma SameMover(p: Params, s: Ht, s': Ht, v: View)
    requires Shape(s) && MoverOk(p, s, v) && s' == s.(inserters := s'.inserters)
    requires forall i :: i in s'.inserters ==> i in s.inserters && NoMoreLocks(s.inserters[i], s'.inserters[i])
    ensures MoverOk(p, s', v)
  {
    LockedSame(p, s, s');
  }

  // where only inserters change, everything is linked and placed as before
  lemma SameTables(p: Params, s: Ht, s': Ht, v: View)
    requires Shape(s) && Linked(s, v) && Placed(p, s, v) && s' == s.(inserters := s'.inserters)
    ensures Linked(s', v) && Placed(p, s', v)
  {
    forall x | x in v.loc
      ensures InPlace(p, s', v, x)
    {
      assert InPlace(p, s, v, x);
    }
    forall t: nat, b: nat
      ensures Seg(s'.next, Head(s', t, b), Chain(v, t, b), EndOf(s', t, b))
    {
      assert Seg(s.next, Head(s, t, b), Chain(v, t, b), EndOf(s, t, b));
    }
  }

  // an inserter of the same object, under the same lock, takes the place of number i
  lemma OtherInserter(p: Params, s: Ht, v: View, i: nat, ins': Inserter)
    requires Shape(s) && InsertersOk(p, s, v) && i in s.inserters && InserterOk(p, s, v, ins')
    requires ins'.o == s.inserters[i].o && ins'.t0 == s.inserters[i].t0
    ensures InsertersOk(p, s.(inserters := s.inserters[i := ins']), v)
  {
    var s' := s.(inserters := s.inserters[i := ins']);
    forall j | j in s'.inserters
      ensures InserterOk(p, s', v, s'.inserters[j])
    {
      assert InserterOk(p, s, v, if j == i then ins' else s.inserters[j]);
    }
    forall j, k | j in s'.inserters && k in s'.inserters && j != k
      ensures s'.inserters[j].o != s'.inserters[k].o && Apart(p, s', s'.inserters[j], s'.inserters[k])
    {
      assert Apart(p, s, s.inserters[j], s.inserters[k]);
    }
  }

  /** The insertion itself: the object becomes the head of its bucket. */
  lemma LinkKeeps(p: Params, s: Ht, v: View, i: nat)
    requires Inv(p, s, v) && Enabled(p, s, Link(i))
    ensures Inv(p, Next(p, s, Link(i)), NextView(p, s, v, Link(i)))
  {
    assert InserterOk(p, s, v, s.inserters[i]);
    LinkLocated(p, s, v, i);
    LinkLinked(p, s, v, i);
    LinkPlaces(p, s, v, i);
    LinkKeys(p, s, v, i);
    LinkInserters(p, s, v, i);
    LinkMover(p, s, v, i);
  }

  lemma LinkLocated(p: Params, s: Ht, v: View, i: nat)
    requires Shape(s) && Located(v) && i in s.inserters && InserterOk(p, s, v, s.inserters[i])
    ensures Located(NextView(p, s, v, Link(i)))
  {
    var ins := s.inserters[i];
    OneMoreLocated(v, NextView(p, s, v, Link(i)), ins.t, Hash(p, s, ins.t, ins.o), ins.o);
  }

  lemma OneMoreLocated(v: View, v': View, t: nat, b: nat, o: Obj)
    requires Located(v) && o !in v.loc
    requires v' == View(v.chains[(t, b) := [o] + Chain(v, t, b)], v.loc[o := (t, b)])
    ensures Located(v')
  {
    forall x: nat, y: nat
      ensures NoDup(Chain(v', x, y))
    {
      assert NoDup(Chain(v, x, y)) && o !in Chain(v, x, y);
    }
    forall x: nat, y: nat, e
      ensures e in Chain(v', x, y) <==> e in v'.loc && v'.loc[e] == (x, y)
    {
      assert e in Chain(v, x, y) <==> e in v.loc && v.loc[e] == (x, y);
      assert o !in Chain(v, x, y);
    }
  }

  lemma LinkLinked(p: Params, s: Ht, v: View, i: nat)
    requires Inv(p, s, v) && Enabled(p, s, Link(i))
    ensures Linked(Next(p, s, Link(i)), NextView(p, s, v, Link(i)))
  {
    var s', v' := Next(p, s, Link(i)), NextView(p, s, v, Link(i));
    forall t: nat, b: nat
      ensures Seg(s'.next, Head(s', t, b), Chain(v', t, b), EndOf(s', t, b))
    {
      LinkSegment(p, s, v, i, t, b);
    }
  }

  lemma LinkSegment(p: Params, s: Ht, v: View, i: nat, t: nat, b: nat)
    requires Inv(p, s, v) && Enabled(p, s, Link(i))
    ensures var s', v' := Next(p, s, Link(i)), NextView(p, s, v, Link(i));
      Seg(s'.next, Head(s', t, b), Chain(v', t, b), EndOf(s', t, b))
  {
    var ins := s.inserters[i];
    assert Seg(s.next, Head(s, t, b), Chain(v, t, b), EndOf(s, t, b));
    LinkEnd(p, s, v, i, t, b);
    SegFrame(s.next, Next(p, s, Link(i)).next, Head(s, t, b), Chain(v, t, b), EndOf(s, t, b));
    if t == ins.t && b == Hash(p, s, ins.t, ins.o) {
      assert ([ins.o] + Chain(v, t, b))[1..] == Chain(v, t, b);
    }
  }

  // the end of a chain is not touched by an insertion
  lemma LinkEnd(p: Params, s: Ht, v: View, i: nat, t: nat, b: nat)
    requires Shape(s) && MoverOk(p, s, v) && InsertersOk(p, s, v) && i in s.inserters
    ensures EndOf(Next(p, s, Link(i)), t, b) == EndOf(s, t, b)
    ensures s.inserters[i].o !in s.next && s.inserters[i].t < |s.sizes|
  {
    var ins := s.inserters[i];
    assert InserterOk(p, s, v, ins);
  }

  lemma LinkPlaces(p: Params, s: Ht, v: View, i: nat)
    requires Shape(s) && Placed(p, s, v) && i in s.inserters && InserterOk(p, s, v, s.inserters[i])
    ensures Placed(p, Next(p, s, Link(i)), NextView(p, s, v, Link(i)))
  {
    var s', v' := Next(p, s, Link(i)), NextView(p, s, v, Link(i));
    forall x | x in v'.loc
      ensures InPlace(p, s', v', x)
    {
      if x != s.inserters[i].o {
        assert InPlace(p, s, v, x);
      }
    }
  }

  lemma LinkKeys(p: Params, s: Ht, v: View, i: nat)
    requires Shape(s) && KeysUnique(p, v) && i in s.inserters && InserterOk(p, s, v, s.inserters[i]) && s.inserters[i].ready
    ensures KeysUnique(p, NextView(p, s, v, Link(i)))
  {
  }

  lemma LinkInserters(p: Params, s: Ht, v: View, i: nat)
    requires Shape(s) && InsertersOk(p, s, v) && i in s.inserters
    ensures InsertersOk(p, Next(p, s, Link(i)), NextView(p, s, v, Link(i)))
  {
    var s', v' := Next(p, s, Link(i)), NextView(p, s, v, Link(i));
    var ins := s.inserters[i];
    assert InserterOk(p, s, v, ins);
    forall j | j in s'.inserters
      ensures InserterOk(p, s', v', s'.inserters[j])
    {
      assert InserterOk(p, s, v, s.inserters[j]) && Apart(p, s, s.inserters[j], ins);
      SameKeySameTable(p, s, v, s.inserters[j], ins);
    }
    forall j, k | j in s'.inserters && k in s'.inserters && j != k
      ensures s'.inserters[j].o != s'.inserters[k].o && Apart(p, s', s'.inserters[j], s'.inserters[k])
    {
      assert Apart(p, s, s.inserters[j], s.inserters[k]);
    }
  }

  /** Inserters of equal keys begin in the same table and need the same lock: there is only one. */
  lemma SameKeySameTable(p: Params, s: Ht, v: View, x: Inserter, y: Inserter)
    requires Shape(s) && InserterOk(p, s, v, x) && InserterOk(p, s, v, y) && Apart(p, s, x, y)
    ensures p.key(x.o) != p.key(y.o)
  {
  }

  lemma LinkMover(p: Params, s: Ht, v: View, i: nat)
    requires Shape(s) && MoverOk(p, s, v) && InsertersOk(p, s, v) && Enabled(p, s, Link(i))
    ensures MoverOk(p, Next(p, s, Link(i)), NextView(p, s, v, Link(i)))
  {
    var s' := Next(p, s, Link(i));
    var ins := s.inserters[i];
    assert InserterOk(p, s, v, ins);
    LockedSame(p, s, s');
    assert Holds(p, s, ins, ins.t, Hash(p, s, ins.t, ins.o));
  }
}
