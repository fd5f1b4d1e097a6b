/**
 The rehash worker of compat/rhashtable.c in place: rehashing a chain is a run of the step system, moves
 every entry of the bucket, newest last, and terminates.
 */
module RhWorker {
  import opened Common
  import opened Chains
  import opened RhModel
  import opened RhInvariant
  import opened RhReader

  // the table after the steps that move the entry `e`
  function Moved(p: Params, s: Ht, path: seq<Obj>, e: Obj): Ht {
    Next(p, Next(p, Next(p, Next(p, s, Choose), Aim(path, e)), Publish), Unlink)
  }

  lemma OneMove(p: Params, s: Ht, v: View, path: seq<Obj>, e: Obj) returns (v': View)
    requires Inv(p, s, v) && s.mover.Inside? && Enabled(p, Next(p, s, Choose), Aim(path, e))
    ensures Inv(p, Moved(p, s, path, e), v') && v'.loc.Keys == v.loc.Keys
    ensures s.cur < Last(s) && Chain(v, s.cur, s.rehash) == path + [e] && Chain(v', s.cur, s.rehash) == path
    ensures Last(s) < |s.sizes| && s.sizes[Last(s)] > 0
      && Chain(v', Last(s), Hash(p, s, Last(s), e)) == [e] + Chain(v, Last(s), Hash(p, s, Last(s), e))
  {
    var s0 := Next(p, s, Choose);
    ChooseKeeps(p, s, v);
    KeptIs(p, s0, v);
    TailFound(p, s0, v, path, e);
    v' := MoveKept(p, s0, v, path, e);
    KeptIs(p, Moved(p, s, path, e), v');
  }

  lemma MoveKept(p: Params, s: Ht, v: View, path: seq<Obj>, e: Obj) returns (v': View)
    requires Kept(p, s, v, SEAL) && Enabled(p, s, Aim(path, e)) && Chain(v, s.cur, s.rehash) == path + [e]
    ensures Kept(p, Next(p, Next(p, Next(p, s, Aim(path, e)), Publish), Unlink), v', SEAL) && v'.loc.Keys == v.loc.Keys
    ensures var nt := s.mover.nt; s.cur < nt ==>
      && Chain(v', s.cur, s.rehash) == path
      && Chain(v', nt, Hash(p, s, nt, e)) == [e] + Chain(v, nt, Hash(p, s, nt, e))
  {
    var s1 := Next(p, s, Aim(path, e));
    StepIsKept(p, s, v, Aim(path, e));
    StepIsKept(p, s1, v, Publish);
    v' := NextView(p, s1, v, Publish);
    StepIsKept(p, Next(p, s1, Publish), v', Unlink);
  }

  // the pointers that the steps write
  lemma MovedIs(p: Params, s: Ht, path: seq<Obj>, e: Obj)
    requires s.sizes != [] && s.sizes[Last(s)] > 0
    ensures var nt, h := Last(s), Hash(p, s, Last(s), e);
      var next, heads := s.next[e := Head(s, nt, h)], s.heads[(nt, h) := At(e)];
      Moved(p, s, path, e) ==
        match PrevOf(path)
        case Bucket => s.(next := next, heads := heads[(s.cur, s.rehash) := Nulls], mover := Inside)
        case Entry(o) => s.(next := next[o := Nulls], heads := heads, mover := Inside)
  {
  }

  class Table {
    var sizes: seq<nat>
    var cur: nat
    var rehash: nat
    var heads: map<(nat, nat), Ptr>
    var next: map<Obj, Ptr>

    constructor (size: nat)
      ensures State(Out) == Initial(size)
    {
      sizes, cur, rehash, heads, next := [size], 0, 0, map[], map[];
    }

    // the table, with the worker at a given point and no inserter about
    ghost function State(m: Mover): Ht
      reads this
    {
      Ht(sizes, cur, rehash, heads, next, m, map[])
    }

    function HeadOf(t: nat, b: nat): Ptr
      reads this
    {
      if (t, b) in heads then heads[(t, b)] else Nulls
    }

    /** The walk of rhashtable_rehash_one to the end of the chain. */
    method FindTail(ghost chain: seq<Obj>) returns (found: bool, entry: Obj, pprev: Prev, ghost path: seq<Obj>)
      requires Seg(next, HeadOf(cur, rehash), chain, Nulls)
      ensures found <==> chain != []
      ensures found ==> chain == path + [entry] && pprev == PrevOf(path)
    {
      var ptr := HeadOf(cur, rehash);
      found, entry, pprev, path := false, 0, Bucket, [];
      ghost var rest := chain;
      while ptr != Nulls
        invariant Seg(next, ptr, rest, Nulls)
        invariant if found then chain == path + [entry] + rest && pprev == PrevOf(path) else rest == chain && path == [] && pprev == Bucket
        decreases rest
      {
        if found {
          pprev := Entry(entry);
          path := path + [entry];
        }
        found, entry := true, ptr.o;
        ptr := next[entry];
        rest := rest[1..];
      }
    }

    /** rhashtable_rehash_one: links the last entry of the bucket at the cursor to the chain it belongs to in
        the newest table, publishes it there, and only then unlinks it. */
    method RehashOne(p: Params, ghost v: View) returns (done: bool, ghost v': View)
      requires Inv(p, State(Inside), v)
      modifies `heads, `next
      ensures Inv(p, State(Inside), v') && v'.loc.Keys == v.loc.Keys
      ensures done <==> old(Chain(v, cur, rehash)) == []
      ensures done ==> v' == v && heads == old(heads) && next == old(next)
      ensures !done ==> Chain(v', cur, rehash) == Chain(v, cur, rehash)[..|Chain(v, cur, rehash)| - 1]
      ensures !done ==> var e := Chain(v, cur, rehash)[|Chain(v, cur, rehash)| - 1];
        var h := Hash(p, State(Inside), Last(State(Inside)), e);
        Chain(v', Last(State(Inside)), h) == [e] + Chain(v, Last(State(Inside)), h)
    {
      ghost var s := State(Inside);
      assert Seg(next, HeadOf(cur, rehash), Chain(v, cur, rehash), EndOf(s, cur, rehash));
      var found, entry, pprev, path := FindTail(Chain(v, cur, rehash));
      done, v' := !found, v;
      if found {
        v' := OneMove(p, s, v, path, entry);
        MoveEntry(p, entry, pprev, path);
      }
    }

    method MoveEntry(p: Params, entry: Obj, pprev: Prev, ghost path: seq<Obj>)
      requires sizes != [] && sizes[|sizes| - 1] > 0 && pprev == PrevOf(path)
      modifies `heads, `next
      ensures State(Inside) == old(Moved(p, State(Inside), path, entry))
    {
      MovedIs(p, State(Inside), path, entry);
      var nt := |sizes| - 1;
      var h := p.hash(nt, p.key(entry)) % sizes[nt];
      next := next[entry := HeadOf(nt, h)];
      heads := heads[(nt, h) := At(entry)];
      match pprev {
        case Bucket => heads := heads[(cur, rehash) := Nulls];
        case Entry(o) => next := next[o := Nulls];
      }
    }

    /** rhashtable_rehash_chain: afterwards the bucket is empty, the cursor is behind it, and the table
        holds the same objects as before. */
    method RehashChain(p: Params, ghost v: View) returns (ghost v': View)
      requires Inv(p, State(Out), v) && cur < |sizes| - 1 && rehash < sizes[cur]
      modifies `heads, `next, `rehash
      ensures Inv(p, State(Out), v') && v'.loc.Keys == v.loc.Keys
      ensures rehash == old(rehash) + 1 && Chain(v', cur, old(rehash)) == []
    {
      v' := v;
      EnterKeeps(p, State(Out), v);
      var done := false;
      while !done
        invariant Inv(p, State(Inside), v') && v'.loc.Keys == v.loc.Keys && rehash == old(rehash)
        invariant done ==> Chain(v', cur, rehash) == []
        decreases !done, |Chain(v', cur, rehash)|
      {
        done, v' := RehashOne(p, v');
      }
      ghost var s := State(Inside);
      assert Seg(s.next, Head(s, s.cur, s.rehash), Chain(v', s.cur, s.rehash), EndOf(s, s.cur, s.rehash));
      ChooseKeeps(p, s, v');
      AdvanceKeeps(p, Next(p, s, Choose), v');
      rehash := rehash + 1;
      assert State(Out) == Next(p, Next(p, s, Choose), Advance);
    }

    /** rhashtable_rehash_table: moves every bucket and makes the next table the current one. */
    method RehashTable(p: Params, ghost v: View) returns (ghost v': View)
      requires Inv(p, State(Out), v) && cur < |sizes| - 1 && rehash == 0
      modifies `heads, `next, `rehash, `cur
      ensures Inv(p, State(Out), v') && v'.loc.Keys == v.loc.Keys && cur == old(cur) + 1 && rehash == 0
      ensures forall o :: o in v'.loc ==> v'.loc[o].0 >= cur
    {
      v' := v;
      while rehash < sizes[cur]
        invariant Inv(p, State(Out), v') && v'.loc.Keys == v.loc.Keys && rehash <= sizes[cur] && cur == old(cur)
        decreases sizes[cur] - rehash
      {
        v' := RehashChain(p, v');
      }
      RetireKeeps(p, State(Out), v');
      ghost var s := State(Out);
      cur, rehash := cur + 1, 0;
      assert State(Out) == Next(p, s, Retire);
      forall o | o in v'.loc
        ensures v'.loc[o].0 >= cur
      {
        assert InPlace(p, State(Out), v', o);
      }
    }
  }
}
