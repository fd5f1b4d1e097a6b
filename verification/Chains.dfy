/**
 Singly linked chains of objects, as a map of next pointers: what it means that a pointer leads through a
 sequence of objects, and how that changes when one pointer is written.
 */
module Chains {
  import opened Common
  type Obj = nat

  // the end of a chain (NULL, or a nulls marker), or an object
  datatype Ptr = Nulls | At(o: Obj)

  /** `p` leads through the entries of `chain`, in order, to `end`. */
  ghost predicate Seg(next: map<Obj, Ptr>, p: Ptr, chain: seq<Obj>, end: Ptr)
    decreases chain
  {
    if chain == [] then p == end
    else p == At(chain[0]) && chain[0] in next && Seg(next, next[chain[0]], chain[1..], end)
  }

  lemma {:induction false} SegFrame(next: map<Obj, Ptr>, next': map<Obj, Ptr>, p: Ptr, c: seq<Obj>, end: Ptr)
    requires Seg(next, p, c, end)
    requires forall o :: o in c && o in next ==> o in next' && next'[o] == next[o]
    ensures Seg(next', p, c, end)
    decreases c
  {
    if c != [] {
      SegFrame(next, next', next[c[0]], c[1..], end);
    }
  }

  /** Redirecting the last entry redirects the whole segment. */
  lemma {:induction false} SegTurn(next: map<Obj, Ptr>, p: Ptr, c: seq<Obj>, end: Ptr, e: Obj, end': Ptr)
    requires Seg(next, p, c, end) && NoDup(c) && c != [] && e == c[|c| - 1]
    ensures Seg(next[e := end'], p, c, end')
    decreases c
  {
    if |c| > 1 {
      assert c[1..][|c| - 2] == e;
      SegTurn(next, next[c[0]], c[1..], end, e, end');
    } else {
      assert c[1..] == [];
    }
  }

  /** Without its last entry a segment ends at that entry. */
  lemma {:induction false} SegDrop(next: map<Obj, Ptr>, p: Ptr, c: seq<Obj>, end: Ptr)
    requires Seg(next, p, c, end) && c != []
    ensures Seg(next, p, c[..|c| - 1], At(c[|c| - 1])) && c[|c| - 1] in next && next[c[|c| - 1]] == end
    decreases c
  {
    if |c| > 1 {
      SegDrop(next, next[c[0]], c[1..], end);
      assert c[1..][..|c| - 2] == c[..|c| - 1][1..];
    } else {
      assert c[1..] == [];
    }
  }

  /** A chain that ends is the only one from its head. */
  lemma {:induction false} SegUnique(next: map<Obj, Ptr>, p: Ptr, c: seq<Obj>, c': seq<Obj>)
    requires Seg(next, p, c, Nulls) && Seg(next, p, c', Nulls)
    ensures c == c'
    decreases c
  {
    if c != [] && c' != [] {
      SegUnique(next, next[c[0]], c[1..], c'[1..]);
    }
  }
}
