/**
 Length and distance coding is exact: every symbol in range is a leaf of the decision tree, and it is a
 leaf in one place only. In particular each slot with its extra bits yields a distinct 32-bit distance
 and every distance is reached.
 */
module LzmaLeaves {
  import opened Arithmetic
  import opened Words
  import opened LzmaLayout
  import opened LzmaSymbols
  import opened LzmaRun
  import opened LzmaRoundTrip

  /** No symbol can be decoded along two different paths. */
  ghost predicate Unambiguous(t: Tree) {
    match t
    case Leaf(_) => true
    case Node(_, zero, one) =>
      && Unambiguous(zero) && Unambiguous(one)
      && forall o :: !(HasLeaf(zero, o) && HasLeaf(one, o))
  }

  // ---- bit trees

  lemma {:induction false} UnderDiv(symbol: nat, bits: nat, s: nat)
    ensures Under(symbol, bits, s) <==> s / Pow2(bits) == symbol
    decreases bits
  {
    if bits > 0 {
      var p := Pow2(bits - 1);
      UnderDiv(2 * symbol, bits - 1, s);
      UnderDiv(2 * symbol + 1, bits - 1, s);
      HalfDiv(s, p);
    }
  }

  lemma HalfDiv(s: nat, p: nat)
    requires p > 0
    ensures s / (2 * p) == s / p / 2
  {
    var q, r := s / p, s % p;
    assert s == q * p + r;
    var h, b := q / 2, q % 2;
    assert q * p == (2 * h + b) * p == h * (2 * p) + b * p;
    DivModIs(s, 2 * p, h, b * p + r);
  }

  lemma Product(x: nat, p: nat)
    ensures x >= 1 ==> x * p >= p
  {
  }

  lemma {:induction false} BitTreeHas(base: nat, symbol: nat, bits: nat, k: nat -> Tree, s: nat, o: Outcome)
    requires Under(symbol, bits, s) && HasLeaf(k(s), o)
    ensures HasLeaf(BitTree(base, symbol, bits, k), o)
    decreases bits
  {
    if bits > 0 {
      if Under(2 * symbol, bits - 1, s) {
        BitTreeHas(base, 2 * symbol, bits - 1, k, s, o);
      } else {
        BitTreeHas(base, 2 * symbol + 1, bits - 1, k, s, o);
      }
    }
  }

  lemma {:induction false} BitTreeLeaf(base: nat, symbol: nat, bits: nat, k: nat -> Tree, o: Outcome) returns (s: nat)
    requires HasLeaf(BitTree(base, symbol, bits, k), o)
    ensures Under(symbol, bits, s) && HasLeaf(k(s), o)
    decreases bits
  {
    if bits == 0 {
      s := symbol;
    } else if HasLeaf(BitTree(base, 2 * symbol, bits - 1, k), o) {
      s := BitTreeLeaf(base, 2 * symbol, bits - 1, k, o);
    } else {
      s := BitTreeLeaf(base, 2 * symbol + 1, bits - 1, k, o);
    }
  }

  // the subtrees of a bit tree are unambiguous and share no leaf
  ghost predicate Separate(symbol: nat, bits: nat, k: nat -> Tree) {
    && (forall s: nat :: Under(symbol, bits, s) ==> Unambiguous(k(s)))
    && (forall s: nat, s': nat, o :: Under(symbol, bits, s) && Under(symbol, bits, s') && s != s'
          ==> !(HasLeaf(k(s), o) && HasLeaf(k(s'), o)))
  }

  lemma {:induction false} BitTreeUnambiguous(base: nat, symbol: nat, bits: nat, k: nat -> Tree)
    requires Separate(symbol, bits, k)
    ensures Unambiguous(BitTree(base, symbol, bits, k))
    decreases bits
  {
    if bits == 0 {
      assert Under(symbol, 0, symbol);
    } else {
      BitTreeUnambiguous(base, 2 * symbol, bits - 1, k);
      BitTreeUnambiguous(base, 2 * symbol + 1, bits - 1, k);
      var zero, one := BitTree(base, 2 * symbol, bits - 1, k), BitTree(base, 2 * symbol + 1, bits - 1, k);
      forall o | HasLeaf(zero, o) && HasLeaf(one, o)
        ensures false
      {
        var s := BitTreeLeaf(base, 2 * symbol, bits - 1, k, o);
        var s' := BitTreeLeaf(base, 2 * symbol + 1, bits - 1, k, o);
        UnderDiv(2 * symbol, bits - 1, s);
        UnderDiv(2 * symbol + 1, bits - 1, s');
      }
    }
  }

  // ---- direct bits: the same shape, without probabilities

  lemma {:induction false} EvenTreeHas(dest: nat, left: nat, k: nat -> Tree, s: nat, o: Outcome)
    requires Under(dest, left, s) && HasLeaf(k(s), o)
    ensures HasLeaf(EvenTree(dest, left, k), o)
    decreases left
  {
    if left > 0 {
      if Under(2 * dest, left - 1, s) {
        EvenTreeHas(2 * dest, left - 1, k, s, o);
      } else {
        EvenTreeHas(2 * dest + 1, left - 1, k, s, o);
      }
    }
  }

  lemma {:induction false} EvenTreeLeaf(dest: nat, left: nat, k: nat -> Tree, o: Outcome) returns (s: nat)
    requires HasLeaf(EvenTree(dest, left, k), o)
    ensures Under(dest, left, s) && HasLeaf(k(s), o)
    decreases left
  {
    if left == 0 {
      s := dest;
    } else if HasLeaf(EvenTree(2 * dest, left - 1, k), o) {
      s := EvenTreeLeaf(2 * dest, left - 1, k, o);
    } else {
      s := EvenTreeLeaf(2 * dest + 1, left - 1, k, o);
    }
  }

  lemma {:induction false} EvenTreeUnambiguous(dest: nat, left: nat, k: nat -> Tree)
    requires Separate(dest, left, k)
    ensures Unambiguous(EvenTree(dest, left, k))
    decreases left
  {
    if left == 0 {
      assert Under(dest, 0, dest);
    } else {
      EvenTreeUnambiguous(2 * dest, left - 1, k);
      EvenTreeUnambiguous(2 * dest + 1, left - 1, k);
      var zero, one := EvenTree(2 * dest, left - 1, k), EvenTree(2 * dest + 1, left - 1, k);
      forall o | HasLeaf(zero, o) && HasLeaf(one, o)
        ensures false
      {
        var s := EvenTreeLeaf(2 * dest, left - 1, k, o);
        var s' := EvenTreeLeaf(2 * dest + 1, left - 1, k, o);
        UnderDiv(2 * dest, left - 1, s);
        UnderDiv(2 * dest + 1, left - 1, s');
      }
    }
  }

  lemma Doubling(h: nat, p: nat)
    ensures h * (2 * p) == (2 * h) * p
    ensures h * (2 * p) + p == (2 * h + 1) * p
  {
  }

  // ---- reversed bit trees with a distance at every leaf

  lemma {:induction false} ReverseTreeHas(base: int, symbol: nat, i: nat, n: nat, dest: nat, len: nat, r: nat)
    requires base + symbol >= 0 && i <= n && r < Pow2(n - i)
    ensures HasLeaf(ReverseTree(base, symbol, i, n, dest, MatchLeaf(len)), Match(len, dest + r * Pow2(i)))
    decreases n - i
  {
    if i < n {
      var h := r / 2;
      Doubling(h, Pow2(i));
      if r % 2 == 0 {
        ReverseTreeHas(base, 2 * symbol, i + 1, n, dest, len, h);
      } else {
        ReverseTreeHas(base, 2 * symbol + 1, i + 1, n, dest + Pow2(i), len, h);
      }
    }
  }

  lemma {:induction false} ReverseTreeLeaf(base: int, symbol: nat, i: nat, n: nat, dest: nat, len: nat, o: Outcome)
      returns (r: nat)
    requires base + symbol >= 0 && i <= n
    requires HasLeaf(ReverseTree(base, symbol, i, n, dest, MatchLeaf(len)), o)
    ensures r < Pow2(n - i) && o == Match(len, dest + r * Pow2(i))
    decreases n - i
  {
    if i == n {
      r := 0;
    } else if HasLeaf(ReverseTree(base, 2 * symbol, i + 1, n, dest, MatchLeaf(len)), o) {
      var h := ReverseTreeLeaf(base, 2 * symbol, i + 1, n, dest, len, o);
      r := 2 * h;
      Doubling(h, Pow2(i));
    } else {
      var h := ReverseTreeLeaf(base, 2 * symbol + 1, i + 1, n, dest + Pow2(i), len, o);
      r := 2 * h + 1;
      Doubling(h, Pow2(i));
    }
  }

  lemma OddEven(x: nat, y: nat, p: nat)
    requires p > 0
    ensures x * (2 * p) != p + y * (2 * p)
  {
    if x > y {
      Product(x - y, 2 * p);
      assert (x - y) * (2 * p) == x * (2 * p) - y * (2 * p);
    } else {
      assert (y - x) * (2 * p) == y * (2 * p) - x * (2 * p);
      assert (y - x) * (2 * p) >= 0;
    }
  }

  lemma {:induction false} ReverseTreeUnambiguous(base: int, symbol: nat, i: nat, n: nat, dest: nat, len: nat)
    requires base + symbol >= 0 && i <= n
    ensures Unambiguous(ReverseTree(base, symbol, i, n, dest, MatchLeaf(len)))
    decreases n - i
  {
    if i < n {
      var p := Pow2(i);
      ReverseTreeUnambiguous(base, 2 * symbol, i + 1, n, dest, len);
      ReverseTreeUnambiguous(base, 2 * symbol + 1, i + 1, n, dest + p, len);
      var zero := ReverseTree(base, 2 * symbol, i + 1, n, dest, MatchLeaf(len));
      var one := ReverseTree(base, 2 * symbol + 1, i + 1, n, dest + p, MatchLeaf(len));
      forall o | HasLeaf(zero, o) && HasLeaf(one, o)
        ensures false
      {
        var r := ReverseTreeLeaf(base, 2 * symbol, i + 1, n, dest, len, o);
        var r' := ReverseTreeLeaf(base, 2 * symbol + 1, i + 1, n, dest + p, len, o);
        OddEven(r, r', p);
      }
    }
  }

  // ---- slots

  /** The distances of a slot begin where those of the slot before end. */
  lemma SlotsTile(slot: nat)
    ensures SlotStart(slot) + Pow2(SlotExtra(slot)) == SlotStart(slot + 1)
  {
    SlotTable();
    if slot >= DIST_MODEL_START {
      var n := SlotExtra(slot);
      if slot % 2 == 0 {
        assert SlotExtra(slot + 1) == n && SlotTop(slot) == 2 && SlotTop(slot + 1) == 3;
      } else {
        assert SlotExtra(slot + 1) == n + 1 && SlotTop(slot) == 3 && SlotTop(slot + 1) == 2;
      }
    }
  }

  ghost predicate InSlot(slot: nat, dist: nat) {
    SlotStart(slot) <= dist < SlotStart(slot) + Pow2(SlotExtra(slot))
  }

  lemma SlotStartMono(s: nat, s': nat)
    requires s <= s'
    ensures SlotStart(s) <= SlotStart(s')
    decreases s'
  {
    if s < s' {
      SlotStartMono(s, s' - 1);
      SlotsTile(s' - 1);
    }
  }

  lemma SlotUnique(s: nat, s': nat, dist: nat)
    requires InSlot(s, dist) && InSlot(s', dist)
    ensures s == s'
  {
    SlotsTile(s);
    SlotsTile(s');
    if s < s' {
      SlotStartMono(s + 1, s');
    } else if s' < s {
      SlotStartMono(s' + 1, s);
    }
  }

  lemma SlotFrom(dist: nat, slots: nat) returns (slot: nat)
    requires dist < SlotStart(slots)
    ensures slot < slots && InSlot(slot, dist)
    decreases slots
  {
    if slots == 0 {
      assert false;
    } else if SlotStart(slots - 1) <= dist {
      SlotsTile(slots - 1);
      slot := slots - 1;
    } else {
      slot := SlotFrom(dist, slots - 1);
    }
  }

  lemma BigPow2()
    ensures Pow2(31) == 0x8000_0000
  {
    Pow2Add(16, 15);
    var x, y := Pow2(16), Pow2(15);
    assert x == 65536 && y == 32768;
  }

  lemma AllSlots()
    ensures SlotStart(64) == TWO32
  {
    BigPow2();
    assert SlotExtra(64) == 31 && SlotTop(64) == 2;
  }

  lemma AlignSplit(low: nat, left: nat, top: nat, dist: nat)
    requires top * Pow2(left + 4) <= dist < top * Pow2(left + 4) + Pow2(left + 4)
    ensures (dist / 16) / Pow2(left) == top
  {
    var p := Pow2(left);
    Pow2Add(left, 4);
    assert Pow2(4) == 16;
    assert top * (p * 16) == (top * p) * 16;
    assert top * p <= dist / 16 < top * p + p;
    DivModIs(dist / 16, p, top, dist / 16 - top * p);
  }

  lemma AlignRange(left: nat, top: nat, high: nat, r: nat)
    requires high / Pow2(left) == top && r < 16
    ensures top * Pow2(left + 4) <= high * 16 + r < top * Pow2(left + 4) + Pow2(left + 4)
  {
    var p := Pow2(left);
    Pow2Add(left, 4);
    assert Pow2(4) == 16;
    assert high == top * p + high % p;
    assert top * (p * 16) == (top * p) * 16;
  }

  /** The leaves below a slot are exactly its distances ... */
  lemma DistTreeLeaves(len: nat, slot: nat, o: Outcome)
    requires slot < 64
    ensures HasLeaf(DistTree(len, slot), o) <==> o.Match? && o.len == len && InSlot(slot, o.dist)
  {
    SlotTable();
    var n := SlotExtra(slot);
    if slot < DIST_MODEL_START {
    } else if slot < DIST_MODEL_END {
      SpecialCells(slot);
      if HasLeaf(DistTree(len, slot), o) {
        var r := ReverseTreeLeaf(SpecialBase(slot), 1, 0, n, SlotStart(slot), len, o);
      }
      if o.Match? && o.len == len && InSlot(slot, o.dist) {
        ReverseTreeHas(SpecialBase(slot), 1, 0, n, SlotStart(slot), len, o.dist - SlotStart(slot));
      }
    } else {
      DirectLeaves(len, slot, o);
    }
  }

  lemma DirectLeaves(len: nat, slot: nat, o: Outcome)
    requires DIST_MODEL_END <= slot < 64
    ensures HasLeaf(DistTree(len, slot), o) <==> o.Match? && o.len == len && InSlot(slot, o.dist)
  {
    if HasLeaf(DistTree(len, slot), o) {
      DirectLeafIs(len, slot, o);
    }
    if o.Match? && o.len == len && InSlot(slot, o.dist) {
      DirectHasLeaf(len, slot, o);
    }
  }

  lemma DirectLeafIs(len: nat, slot: nat, o: Outcome)
    requires DIST_MODEL_END <= slot < 64 && HasLeaf(DistTree(len, slot), o)
    ensures o.Match? && o.len == len && InSlot(slot, o.dist)
  {
    var left, top := SlotExtra(slot) - 4, SlotTop(slot);
    assert Pow2(0) == 1 && Pow2(4) == 16;
    var high := EvenTreeLeaf(top, left, AlignTree(len), o);
    var r := ReverseTreeLeaf(DIST_ALIGN, 1, 0, 4, high * 16, len, o);
    UnderDiv(top, left, high);
    AlignRange(left, top, high, r);
  }

  lemma DirectHasLeaf(len: nat, slot: nat, o: Outcome)
    requires DIST_MODEL_END <= slot < 64 && o.Match? && o.len == len && InSlot(slot, o.dist)
    ensures HasLeaf(DistTree(len, slot), o)
  {
    var left, top := SlotExtra(slot) - 4, SlotTop(slot);
    assert Pow2(0) == 1 && Pow2(4) == 16;
    AlignSplit(0, left, top, o.dist);
    UnderDiv(top, left, o.dist / 16);
    ReverseTreeHas(DIST_ALIGN, 1, 0, 4, o.dist / 16 * 16, len, o.dist % 16);
    EvenTreeHas(top, left, AlignTree(len), o.dist / 16, o);
  }

  /** ... each in one place. */
  lemma DistTreeUnambiguous(len: nat, slot: nat)
    requires slot < 64
    ensures Unambiguous(DistTree(len, slot))
  {
    if slot < DIST_MODEL_START {
    } else if slot < DIST_MODEL_END {
      SpecialCells(slot);
      ReverseTreeUnambiguous(SpecialBase(slot), 1, 0, SlotExtra(slot), SlotStart(slot), len);
    } else {
      var k := AlignTree(len);
      assert Pow2(0) == 1 && Pow2(4) == 16;
      forall s: nat
        ensures Unambiguous(k(s))
      {
        ReverseTreeUnambiguous(DIST_ALIGN, 1, 0, 4, s * 16, len);
      }
      forall s: nat, s': nat, o | s != s' && HasLeaf(k(s), o) && HasLeaf(k(s'), o)
        ensures false
      {
        var r := ReverseTreeLeaf(DIST_ALIGN, 1, 0, 4, s * 16, len, o);
        var r' := ReverseTreeLeaf(DIST_ALIGN, 1, 0, 4, s' * 16, len, o);
      }
      EvenTreeUnambiguous(SlotTop(slot), SlotExtra(slot) - 4, k);
    }
  }

  lemma SlotTreeLeaf(len: nat, o: Outcome)
    ensures HasLeaf(SlotTree(len), o) <==> o.Match? && o.len == len && o.dist < TWO32
  {
    if HasLeaf(SlotTree(len), o) {
      SlotLeafIs(len, o);
    }
    if o.Match? && o.len == len && o.dist < TWO32 {
      SlotHasLeaf(len, o);
    }
  }

  lemma SlotLeafIs(len: nat, o: Outcome)
    requires HasLeaf(SlotTree(len), o)
    ensures o.Match? && o.len == len && o.dist < TWO32
  {
    SixBits();
    AllSlots();
    var s := BitTreeLeaf(DIST_SLOT + DistState(len) * 64, 1, 6, AfterSlot(len), o);
    UnderRange(1, 0, 6, s);
    DistTreeLeaves(len, s - 64, o);
    SlotsTile(s - 64);
    SlotStartMono(s - 63, 64);
  }

  lemma SlotHasLeaf(len: nat, o: Outcome)
    requires o.Match? && o.len == len && o.dist < TWO32
    ensures HasLeaf(SlotTree(len), o)
  {
    SixBits();
    AllSlots();
    var slot := SlotFrom(o.dist, 64);
    DistTreeLeaves(len, slot, o);
    UnderDiv(1, 6, slot + 64);
    BitTreeHas(DIST_SLOT + DistState(len) * 64, 1, 6, AfterSlot(len), slot + 64, o);
  }

  lemma SixBits()
    ensures Pow2(0) == 1 && Pow2(1) == 2 && Pow2(6) == 64 && Pow2(7) == 128
  {
  }

  lemma SlotTreeUnambiguous(len: nat)
    ensures Unambiguous(SlotTree(len))
  {
    var k := AfterSlot(len);
    SixBits();
    forall s: nat | Under(1, 6, s)
      ensures 64 <= s < 128 && Unambiguous(k(s))
    {
      UnderRange(1, 0, 6, s);
      DistTreeUnambiguous(len, s - 64);
    }
    forall s: nat, s': nat, o | Under(1, 6, s) && Under(1, 6, s') && s != s' && HasLeaf(k(s), o) && HasLeaf(k(s'), o)
      ensures false
    {
      DistTreeLeaves(len, s - 64, o);
      DistTreeLeaves(len, s' - 64, o);
      SlotUnique(s - 64, s' - 64, o.dist);
    }
    BitTreeUnambiguous(DIST_SLOT + DistState(len) * 64, 1, 6, k);
  }

  // ---- lengths

  ghost predicate InSection(section: nat, len: nat) {
    SectionMin(section) <= len < SectionMin(section) + Pow2(SectionBits(section))
  }

  function OutLen(o: Outcome): nat {
    match o
    case Match(len, _) => len
    case LongRep(_, len) => len
    case _ => 0
  }

  ghost predicate AllLen(t: Tree, len: nat) {
    forall o :: HasLeaf(t, o) ==> OutLen(o) == len
  }

  // continuations whose leaves tell the length they were given
  ghost predicate TellsLen(k: nat -> Tree) {
    forall len: nat :: LenOk(len) ==> Unambiguous(k(len)) && AllLen(k(len), len)
  }

  lemma QuotientOne(s: nat, p: nat)
    requires p > 0
    ensures s / p == 1 <==> p <= s < 2 * p
  {
    if p <= s < 2 * p {
      DivModIs(s, p, 1, s - p);
    }
  }

  lemma SectionSymbol(section: nat, s: nat)
    requires section < 3
    ensures Under(1, SectionBits(section), s) <==> Pow2(SectionBits(section)) <= s < 2 * Pow2(SectionBits(section))
    ensures Under(1, SectionBits(section), s) ==> InSection(section, LenFrom(section, s)) && LenOk(LenFrom(section, s))
  {
    var p := Pow2(SectionBits(section));
    assert Pow2(3) == 8 && Pow2(8) == 256;
    UnderDiv(1, SectionBits(section), s);
    QuotientOne(s, p);
  }

  lemma SectionTreeLeaf(base: nat, posState: nat, section: nat, k: nat -> Tree, o: Outcome)
    requires section < 3 && TellsLen(k)
    ensures HasLeaf(SectionTree(base, posState, section, k), o) <==>
      InSection(section, OutLen(o)) && HasLeaf(k(OutLen(o)), o)
  {
    var n, f := SectionBits(section), LenOf(section, k);
    var b := base + SectionBase(section, posState);
    if HasLeaf(BitTree(b, 1, n, f), o) {
      var s := BitTreeLeaf(b, 1, n, f, o);
      SectionSymbol(section, s);
    }
    if InSection(section, OutLen(o)) && HasLeaf(k(OutLen(o)), o) {
      var s := OutLen(o) - SectionMin(section) + Pow2(n);
      SectionSymbol(section, s);
      BitTreeHas(b, 1, n, f, s, o);
    }
  }

  lemma SectionTreeUnambiguous(base: nat, posState: nat, section: nat, k: nat -> Tree)
    requires section < 3 && TellsLen(k)
    ensures Unambiguous(SectionTree(base, posState, section, k))
  {
    var n, f := SectionBits(section), LenOf(section, k);
    forall s: nat | Under(1, n, s)
      ensures Unambiguous(f(s))
    {
      SectionSymbol(section, s);
    }
    forall s: nat, s': nat, o | Under(1, n, s) && Under(1, n, s') && s != s' && HasLeaf(f(s), o) && HasLeaf(f(s'), o)
      ensures false
    {
      SectionSymbol(section, s);
      SectionSymbol(section, s');
    }
    BitTreeUnambiguous(base + SectionBase(section, posState), 1, n, f);
  }

  /** Lengths 2..273, each in one of the three sections. */
  lemma LenTreeLeaf(base: nat, posState: nat, k: nat -> Tree, o: Outcome)
    requires TellsLen(k)
    ensures HasLeaf(LenTree(base, posState, 0, k), o) <==> LenOk(OutLen(o)) && HasLeaf(k(OutLen(o)), o)
  {
    assert Pow2(3) == 8 && Pow2(8) == 256;
    SectionTreeLeaf(base, posState, 0, k, o);
    SectionTreeLeaf(base, posState, 1, k, o);
    SectionTreeLeaf(base, posState, 2, k, o);
    assert LenTree(base, posState, 2, k) == SectionTree(base, posState, 2, k);
    assert HasLeaf(LenTree(base, posState, 1, k), o) <==>
      HasLeaf(SectionTree(base, posState, 1, k), o) || HasLeaf(SectionTree(base, posState, 2, k), o);
  }

  lemma LenTreeUnambiguous(base: nat, posState: nat, k: nat -> Tree)
    requires TellsLen(k)
    ensures Unambiguous(LenTree(base, posState, 0, k))
  {
    assert Pow2(3) == 8 && Pow2(8) == 256;
    SectionTreeUnambiguous(base, posState, 0, k);
    SectionTreeUnambiguous(base, posState, 1, k);
    SectionTreeUnambiguous(base, posState, 2, k);
    var t0, t1, t2 := SectionTree(base, posState, 0, k), SectionTree(base, posState, 1, k), SectionTree(base, posState, 2, k);
    forall o
      ensures !(HasLeaf(t1, o) && HasLeaf(t2, o)) && !(HasLeaf(t0, o) && (HasLeaf(t1, o) || HasLeaf(t2, o)))
    {
      SectionTreeLeaf(base, posState, 0, k, o);
      SectionTreeLeaf(base, posState, 1, k, o);
      SectionTreeLeaf(base, posState, 2, k, o);
    }
    var rest := Node(Adaptive(base + 1), t1, t2);
    assert forall o :: HasLeaf(rest, o) <==> HasLeaf(t1, o) || HasLeaf(t2, o);
    NodeUnambiguous(Adaptive(base + 1), t1, t2);
    NodeUnambiguous(Adaptive(base), t0, rest);
    assert LenTree(base, posState, 2, k) == t2;
    assert LenTree(base, posState, 1, k) == rest;
  }

  // ---- whole symbols

  // the symbol that ends a literal, with the 1 in front of its eight bits
  function Marked(o: Outcome): nat {
    if o.Lit? then 256 + o.value else 0
  }

  lemma {:induction false} MatchedTreeLeaf(base: nat, symbol: nat, depth: nat, bits: nat, matchByte: nat, offset: nat, o: Outcome)
    requires Pow2(depth) <= symbol < Pow2(depth + 1) && depth + bits == 8
    ensures HasLeaf(MatchedTree(base, symbol, bits, matchByte, offset), o) <==> o.Lit? && Under(symbol, bits, Marked(o))
    decreases bits
  {
    if bits == 0 {
      EightBits();
    } else {
      var m := MatchBit(matchByte, offset);
      MatchedTreeLeaf(base, 2 * symbol, depth + 1, bits - 1, 2 * matchByte, if m == 0 then offset else 0, o);
      MatchedTreeLeaf(base, 2 * symbol + 1, depth + 1, bits - 1, 2 * matchByte, m, o);
    }
  }

  lemma {:induction false} MatchedTreeUnambiguous(base: nat, symbol: nat, depth: nat, bits: nat, matchByte: nat, offset: nat)
    requires Pow2(depth) <= symbol < Pow2(depth + 1) && depth + bits == 8
    ensures Unambiguous(MatchedTree(base, symbol, bits, matchByte, offset))
    decreases bits
  {
    if bits > 0 {
      var m := MatchBit(matchByte, offset);
      var o0 := if m == 0 then offset else 0;
      MatchedTreeUnambiguous(base, 2 * symbol, depth + 1, bits - 1, 2 * matchByte, o0);
      MatchedTreeUnambiguous(base, 2 * symbol + 1, depth + 1, bits - 1, 2 * matchByte, m);
      var zero := MatchedTree(base, 2 * symbol, bits - 1, 2 * matchByte, o0);
      var one := MatchedTree(base, 2 * symbol + 1, bits - 1, 2 * matchByte, m);
      forall o
        ensures !(HasLeaf(zero, o) && HasLeaf(one, o))
      {
        MatchedTreeDisjoint(base, symbol, depth, bits - 1, 2 * matchByte, o0, m, o);
      }
    }
  }

  lemma MatchedTreeDisjoint(base: nat, symbol: nat, depth: nat, bits: nat, matchByte: nat, o0: nat, o1: nat, o: Outcome)
    requires Pow2(depth) <= symbol < Pow2(depth + 1) && depth + bits == 7
    ensures !(HasLeaf(MatchedTree(base, 2 * symbol, bits, matchByte, o0), o)
           && HasLeaf(MatchedTree(base, 2 * symbol + 1, bits, matchByte, o1), o))
  {
    MatchedTreeLeaf(base, 2 * symbol, depth + 1, bits, matchByte, o0, o);
    MatchedTreeLeaf(base, 2 * symbol + 1, depth + 1, bits, matchByte, o1, o);
    UnderDiv(2 * symbol, bits, Marked(o));
    UnderDiv(2 * symbol + 1, bits, Marked(o));
  }

  lemma EightBits()
    ensures Pow2(0) == 1 && Pow2(1) == 2 && Pow2(8) == 256 && Pow2(9) == 512
  {
  }

  lemma LiteralTreeLeaves(env: Env, o: Outcome)
    ensures HasLeaf(LiteralTree(env), o) <==> o.Lit?
    ensures Unambiguous(LiteralTree(env))
  {
    EightBits();
    var v := if o.Lit? then o.value + 256 else 256;
    UnderDiv(1, 8, v);
    if StateIsLiteral(env.state) {
      var k := LitLeaves();
      if HasLeaf(LiteralTree(env), o) {
        var s := BitTreeLeaf(env.literal, 1, 8, k, o);
      }
      if o.Lit? {
        BitTreeHas(env.literal, 1, 8, k, v, o);
      }
      forall s: nat, s': nat, o' | Under(1, 8, s) && Under(1, 8, s') && s != s' && HasLeaf(k(s), o') && HasLeaf(k(s'), o')
        ensures false
      {
        UnderRange(1, 0, 8, s);
        UnderRange(1, 0, 8, s');
      }
      BitTreeUnambiguous(env.literal, 1, 8, k);
    } else {
      MatchedTreeLeaf(env.literal, 1, 0, 8, env.matchByte * 2, 0x100, o);
      MatchedTreeUnambiguous(env.literal, 1, 0, 8, env.matchByte * 2, 0x100);
    }
  }

  lemma MatchTreeLeaves(env: Env, o: Outcome)
    ensures HasLeaf(MatchTree(env), o) <==> o.Match? && OutcomeOk(o)
    ensures Unambiguous(MatchTree(env))
  {
    var k := SlotTrees();
    forall len: nat
      ensures Unambiguous(k(len))
    {
      SlotTreeUnambiguous(len);
    }
    forall len: nat, o'
      ensures HasLeaf(k(len), o') <==> o'.Match? && o'.len == len && o'.dist < TWO32
    {
      SlotTreeLeaf(len, o');
    }
    assert TellsLen(k);
    LenTreeLeaf(MATCH_LEN, env.posState, k, o);
    LenTreeUnambiguous(MATCH_LEN, env.posState, k);
  }

  lemma RepLenLeaves(env: Env, which: nat, o: Outcome)
    ensures HasLeaf(RepLenTree(env, which), o) <==> o.LongRep? && o.which == which && LenOk(o.len)
    ensures Unambiguous(RepLenTree(env, which))
  {
    assert TellsLen(RepLeaf(which));
    LenTreeLeaf(REP_LEN, env.posState, RepLeaf(which), o);
    LenTreeUnambiguous(REP_LEN, env.posState, RepLeaf(which));
  }

  lemma NodeUnambiguous(q: Query, zero: Tree, one: Tree)
    requires Unambiguous(zero) && Unambiguous(one)
    requires forall o :: !(HasLeaf(zero, o) && HasLeaf(one, o))
    ensures Unambiguous(Node(q, zero, one))
  {
  }

  lemma RepTreeLeaves(env: Env, o: Outcome)
    ensures HasLeaf(RepTree(env), o) <==> o == ShortRep || (o.LongRep? && OutcomeOk(o))
    ensures Unambiguous(RepTree(env))
  {
    var t0, t1, t2, t3 := RepLenTree(env, 0), RepLenTree(env, 1), RepLenTree(env, 2), RepLenTree(env, 3);
    forall o'
      ensures HasLeaf(t0, o') <==> o'.LongRep? && o'.which == 0 && LenOk(o'.len)
      ensures HasLeaf(t1, o') <==> o'.LongRep? && o'.which == 1 && LenOk(o'.len)
      ensures HasLeaf(t2, o') <==> o'.LongRep? && o'.which == 2 && LenOk(o'.len)
      ensures HasLeaf(t3, o') <==> o'.LongRep? && o'.which == 3 && LenOk(o'.len)
    {
      RepLenLeaves(env, 0, o');
      RepLenLeaves(env, 1, o');
      RepLenLeaves(env, 2, o');
      RepLenLeaves(env, 3, o');
    }
    RepLenLeaves(env, 0, o);
    RepLenLeaves(env, 1, o);
    RepLenLeaves(env, 2, o);
    RepLenLeaves(env, 3, o);
    var t := RepTree(env);
    var short, high := t.zero, t.one.one;
    assert forall o' :: HasLeaf(short, o') <==> o' == ShortRep || HasLeaf(t0, o');
    NodeUnambiguous(short.query, Leaf(ShortRep), t0);
    assert forall o' :: HasLeaf(high, o') <==> HasLeaf(t2, o') || HasLeaf(t3, o');
    NodeUnambiguous(high.query, t2, t3);
    assert forall o' :: HasLeaf(t.one, o') <==> HasLeaf(t1, o') || HasLeaf(high, o');
    NodeUnambiguous(t.one.query, t1, high);
    NodeUnambiguous(t.query, short, t.one);
  }

  /** The code is exact: the symbols that can be decoded are the literals, the short repeat, and the
      matches and repeats with lengths 2..273 and 32-bit distances, and each along one path only. */
  lemma SymbolTreeExact(env: Env, o: Outcome)
    ensures HasLeaf(SymbolTree(env), o) <==> OutcomeOk(o)
    ensures Unambiguous(SymbolTree(env))
  {
    forall o'
      ensures HasLeaf(LiteralTree(env), o') <==> o'.Lit?
      ensures HasLeaf(MatchTree(env), o') <==> o'.Match? && OutcomeOk(o')
      ensures HasLeaf(RepTree(env), o') <==> o' == ShortRep || (o'.LongRep? && OutcomeOk(o'))
    {
      LiteralTreeLeaves(env, o');
      MatchTreeLeaves(env, o');
      RepTreeLeaves(env, o');
    }
    LiteralTreeLeaves(env, o);
    MatchTreeLeaves(env, o);
    RepTreeLeaves(env, o);
    var t := SymbolTree(env);
    NodeUnambiguous(t.one.query, MatchTree(env), RepTree(env));
    assert forall o' :: HasLeaf(t.one, o') <==> HasLeaf(MatchTree(env), o') || HasLeaf(RepTree(env), o');
    NodeUnambiguous(t.query, LiteralTree(env), t.one);
  }
}
