/**
 The resizable hash table of compat/rhashtable.c as a step system: table chains linked by pointers, one
 rehash worker that moves entries tail first, any number of inserters under bucket locks, new tables
 attached at any time. Hash functions, table sizes and the tests that trigger a rehash are arbitrary.
 */
module RhModel {
  import opened Common
  import opened Chains

  /** `key(o)` is the key of an object, `hash(t, k)` the hash of a key under the seed of table `t`. */
  datatype Params = Params(key: Obj -> nat, hash: (nat, nat) -> nat)

  // the location that pprev points to: a bucket head, or the next field of an entry
  datatype Prev = Bucket | Entry(o: Obj)

  /** Where the rehash worker is: outside of any bucket, holding the lock of the bucket at the cursor, having
      read which table is the newest one, after linking the entry `e` to the chain it is about to join there,
      or after publishing it. */
  datatype Mover = Out | Inside | Chosen(nt: nat) | Aimed(e: Obj, prev: Prev, nt: nat) | Published(e: Obj, prev: Prev)

  /** An inserter that holds the lock of its bucket in table `t0` and has looked the key up in vain in
      all tables from `t0` to just before `t`. When `ready`, it has done so in `t` too, holds the lock of its
      bucket there, and has seen that no table follows; one may be attached before it links its object. */
  datatype Inserter = Inserter(o: Obj, t0: nat, t: nat, ready: bool)

  /** `sizes` are the sizes of all tables ever attached, of which `cur` is ht->tbl and the last one the
      newest; `rehash` is the cursor of the current table. */
  datatype Ht = Ht(sizes: seq<nat>, cur: nat, rehash: nat, heads: map<(nat, nat), Ptr>, next: map<Obj, Ptr>,
                   mover: Mover, inserters: map<nat, Inserter>)

  function Last(s: Ht): int { |s.sizes| - 1 }

  function Hash(p: Params, s: Ht, t: nat, o: Obj): nat
    requires t < |s.sizes| && s.sizes[t] > 0
  {
    p.hash(t, p.key(o)) % s.sizes[t]
  }

  // the head of a bucket; buckets begin empty
  function Head(s: Ht, t: nat, b: nat): Ptr {
    if (t, b) in s.heads then s.heads[(t, b)] else Nulls
  }

  function Follow(s: Ht, o: Obj): Ptr {
    if o in s.next then s.next[o] else Nulls
  }

  ghost predicate Locked(p: Params, s: Ht, t: nat, b: nat) {
    exists i :: i in s.inserters && Holds(p, s, s.inserters[i], t, b)
  }

  ghost predicate Holds(p: Params, s: Ht, ins: Inserter, t: nat, b: nat) {
    (ins.t0 == t || (ins.ready && ins.t == t)) && t < |s.sizes| && s.sizes[t] > 0 && Hash(p, s, t, ins.o) == b
  }

  // ---- steps

  datatype Step =
    | Attach(size: nat)
    | Enter
    | Choose
    | Aim(path: seq<Obj>, e: Obj)
    | Publish
    | Unlink
    | Advance
    | Retire
    | Begin(i: nat, o: Obj, t0: nat)
    | Examine(i: nat, found: Option<Obj>)
    | Link(i: nat)
    | GiveUp(i: nat)

  /** Whether a step can be taken. The worker and the inserters respect the bucket locks; an inserter
      begins in the oldest table whose bucket for its key is not rehashed yet. */
  ghost predicate Enabled(p: Params, s: Ht, step: Step) {
    match step
    case Attach(size) => size > 0
    case Enter => s.mover.Out? && s.cur < Last(s) && s.rehash < s.sizes[s.cur] && !Locked(p, s, s.cur, s.rehash)
    case Choose => s.mover.Inside?
    // the walk needs no step of its own: nobody else writes to a chain whose bucket lock is held
    case Aim(path, e) =>
      && s.mover.Chosen? && Seg(s.next, Head(s, s.cur, s.rehash), path + [e], Nulls)
      && s.mover.nt < |s.sizes| && s.sizes[s.mover.nt] > 0 && !Locked(p, s, s.mover.nt, Hash(p, s, s.mover.nt, e))
    case Publish => s.mover.Aimed?
    case Unlink => s.mover.Published?
    case Advance => s.mover.Chosen? && Head(s, s.cur, s.rehash) == Nulls
    case Retire => s.mover.Out? && s.cur < Last(s) && s.rehash == s.sizes[s.cur]
    case Begin(i, o, t0) =>
      && i !in s.inserters && o !in s.next && (forall j :: j in s.inserters ==> s.inserters[j].o != o)
      && s.cur <= t0 <= Last(s) && s.sizes[t0] > 0 && s.sizes[s.cur] > 0
      && (if t0 == s.cur then s.rehash <= Hash(p, s, t0, o) && !MoverHolds(s, t0, Hash(p, s, t0, o))
          else t0 == s.cur + 1 && s.rehash > Hash(p, s, s.cur, o) && !MoverAims(p, s, t0, Hash(p, s, t0, o)))
      && !Locked(p, s, t0, Hash(p, s, t0, o))
    case Examine(i, found) =>
      && i in s.inserters
      && var ins := s.inserters[i];
         && !ins.ready && ins.t <= Last(s) && s.sizes[ins.t] > 0 && !MoverAims(p, s, ins.t, Hash(p, s, ins.t, ins.o))
         && (forall j :: j in s.inserters && j != i ==> !Holds(p, s, s.inserters[j], ins.t, Hash(p, s, ins.t, ins.o)))
         && Looks(p, s, Head(s, ins.t, Hash(p, s, ins.t, ins.o)), p.key(ins.o), found)
    case Link(i) => i in s.inserters && s.inserters[i].ready
    case GiveUp(i) => i in s.inserters
  }

  // the worker holds the lock of the bucket at the cursor
  predicate MoverHolds(s: Ht, t: nat, b: nat) {
    !s.mover.Out? && t == s.cur && b == s.rehash
  }

  // the worker holds the lock of the bucket that the entry is about to join
  predicate MoverAims(p: Params, s: Ht, t: nat, b: nat) {
    s.mover.Aimed? && t == s.mover.nt && t < |s.sizes| && s.sizes[t] > 0 && b == Hash(p, s, t, s.mover.e)
  }

  /** rhashtable_lookup_one: following the chain from `ptr` to its end, `found` is the first entry with
      the key. */
  ghost predicate Looks(p: Params, s: Ht, ptr: Ptr, key: nat, found: Option<Obj>) {
    exists chain :: Seg(s.next, ptr, chain, Nulls) && FirstMatch(p, chain, key) == found
  }

  function FirstMatch(p: Params, chain: seq<Obj>, key: nat): Option<Obj> {
    if chain == [] then None
    else if p.key(chain[0]) == key then Some(chain[0])
    else FirstMatch(p, chain[1..], key)
  }

  function PrevOf(path: seq<Obj>): Prev {
    if path == [] then Bucket else Entry(path[|path| - 1])
  }

  /** What a step does. */
  function Next(p: Params, s: Ht, step: Step): Ht {
    match step
    case Attach(size) => s.(sizes := s.sizes + [size])
    case Enter => s.(mover := Inside)
    case Choose => if s.sizes != [] then s.(mover := Chosen(Last(s))) else s
    case Aim(path, e) =>
      if s.mover.Chosen? && s.mover.nt < |s.sizes| && s.sizes[s.mover.nt] > 0 then
        var nt := s.mover.nt;
        s.(next := s.next[e := Head(s, nt, Hash(p, s, nt, e))], mover := Aimed(e, PrevOf(path), nt))
      else s
    case Publish =>
      if s.mover.Aimed? && s.mover.nt < |s.sizes| && s.sizes[s.mover.nt] > 0 then
        s.(heads := s.heads[(s.mover.nt, Hash(p, s, s.mover.nt, s.mover.e)) := At(s.mover.e)],
           mover := Published(s.mover.e, s.mover.prev))
      else s
    case Unlink =>
      if !s.mover.Published? then s
      else if s.mover.prev.Bucket? then s.(heads := s.heads[(s.cur, s.rehash) := Nulls], mover := Inside)
      else s.(next := s.next[s.mover.prev.o := Nulls], mover := Inside)
    case Advance => s.(rehash := s.rehash + 1, mover := Out)
    case Retire => s.(cur := s.cur + 1, rehash := 0)
    case Begin(i, o, t0) => s.(inserters := s.inserters[i := Inserter(o, t0, t0, false)])
    case Examine(i, found) =>
      if i !in s.inserters then s
      else
        var ins := s.inserters[i];
        if found.Some? then s.(inserters := s.inserters - {i})
        else if ins.t < Last(s) then s.(inserters := s.inserters[i := ins.(t := ins.t + 1)])
        else s.(inserters := s.inserters[i := ins.(ready := true)])
    case Link(i) =>
      if i !in s.inserters then s
      else
        var ins := s.inserters[i];
        if ins.t < |s.sizes| && s.sizes[ins.t] > 0 then
          var b := Hash(p, s, ins.t, ins.o);
          s.(next := s.next[ins.o := Head(s, ins.t, b)], heads := s.heads[(ins.t, b) := At(ins.o)],
             inserters := s.inserters - {i})
        else s
    case GiveUp(i) => s.(inserters := s.inserters - {i})
  }

  function Initial(size: nat): Ht {
    Ht([size], 0, 0, map[], map[], Out, map[])
  }
}
