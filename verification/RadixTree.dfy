/**
 Walking a radix tree in index order (compat/radix-tree.c and the iterator macros of include/linux/radix-tree.h),
 untagged: the search for the next chunk, the step inside a chunk, and the loop that visits every item.
 */
module RadixTree {
  import opened Arithmetic

  const WORD: int := 0x1_0000_0000_0000_0000 // unsigned long
  const MAP_SIZE: nat := 64
  const MAX_PATH: nat := 11 // levels of six bits that cover a word

  // what a slot holds: NULL, an item, or a node of the level below
  datatype Slot = Empty | Item(ptr: nat) | Node(slots: seq<Slot>)

  // `rnode` is the item with index 0 itself when the height is 0
  datatype Root = Root(rnode: Slot, height: nat)

  // a pointer to a slot: the root's own, or one of a node's
  datatype Cursor = Null | Direct | At(slots: seq<Slot>, offset: nat)

  /** How many indices a slot with `h` levels below it covers, 1 << (6 * h). */
  function Span(h: nat): (p: nat)
    ensures p >= 1
  {
    if h == 0 then 1 else MAP_SIZE * Span(h - 1)
  }

  predicate WellFormed(s: Slot, h: nat) {
    if h == 0 then !s.Node?
    else s.Empty? || (s.Node? && |s.slots| == MAP_SIZE && forall k :: 0 <= k < MAP_SIZE ==> WellFormed(s.slots[k], h - 1))
  }

  /** A tree of any height and with any holes; in the highest one only the indices of a word are used. */
  ghost predicate RootOk(root: Root) {
    && WellFormed(root.rnode, root.height) && root.height <= MAX_PATH
    && (root.height > 0 ==> root.rnode.Node?)
    && (root.height == MAX_PATH ==> forall k :: 16 <= k < MAP_SIZE ==> root.rnode.slots[k].Empty?)
  }

  /** There is an item at `k`, counted from the first index that `s` covers. */
  ghost predicate Populated(s: Slot, h: nat, k: nat)
    requires WellFormed(s, h) && k < Span(h)
  {
    if h == 0 then s.Item?
    else s.Node? && (Inside(k, h - 1); Populated(s.slots[k / Span(h - 1)], h - 1, k % Span(h - 1)))
  }

  /** What the tree maps: there is an item with index `i`. */
  ghost predicate Has(root: Root, i: int)
    requires RootOk(root)
  {
    0 <= i < WORD && i < Span(root.height) && Populated(root.rnode, root.height, i)
  }

  ghost predicate NoneIn(root: Root, lo: int, hi: int)
    requires RootOk(root)
  {
    forall i :: lo <= i < hi ==> !Has(root, i)
  }

  // ---- spans ----

  lemma Inside(k: nat, h: nat)
    requires k < Span(h + 1)
    ensures k / Span(h) < MAP_SIZE && k % Span(h) < Span(h)
  {
    var p := Span(h);
    assert k == k / p * p + k % p;
    if k / p >= MAP_SIZE {
      MulAtLeast(k / p - MAP_SIZE + 1, p);
    }
  }

  lemma Locate(k: nat, h: nat, o: nat)
    requires o * Span(h) <= k < (o + 1) * Span(h)
    ensures k / Span(h) == o && k % Span(h) == k - o * Span(h)
  {
    DivModIs(k, Span(h), o, k - o * Span(h));
  }

  /** Ten levels fill a sixteenth of the word, and every span up to there divides it. */
  ghost function Pieces(h: nat): (n: nat)
    requires h <= 10
  {
    16 * Span(10 - h)
  }

  lemma {:induction false} Divides(h: nat)
    requires h <= 10
    ensures Pieces(h) * Span(h) == WORD
  {
    if h == 0 {
      assert Span(10) == 0x1000_0000_0000_0000;
    } else {
      Divides(h - 1);
      var a := Span(10 - h);
      assert Span(10 - (h - 1)) == 64 * a;
      assert 16 * (64 * a) * Span(h - 1) == 16 * a * (64 * Span(h - 1));
    }
  }

  lemma SpanTop()
    ensures Span(10) == 0x1000_0000_0000_0000 && Span(11) == 4 * WORD
  {
    assert Span(10) == 0x1000_0000_0000_0000;
  }

  /** A block that begins in the word ends in it, below the highest level. */
  lemma BlockFits(q: nat, h: nat)
    requires h <= 10 && q * Span(h) < WORD
    ensures (q + 1) * Span(h) <= WORD
  {
    Divides(h);
    WholePieces(q, Pieces(h), Span(h));
  }

  lemma WholePieces(q: nat, n: nat, p: nat)
    requires q * p < n * p
    ensures (q + 1) * p <= n * p
  {
    if q >= n {
      MulAtLeast(q - n + 1, p);
      Distribute(q - n, n, p);
    } else {
      Distribute(n - q - 1, q + 1, p);
    }
  }

  // ---- where the search stands ----

  /** The tree and the node that covers its `q`-th block of the level say the same about an index. */
  ghost predicate Agrees(root: Root, node: Slot, h: nat, q: nat, k: nat)
    requires RootOk(root) && WellFormed(node, h) && k < Span(h)
  {
    Has(root, q * Span(h) + k) <==> q * Span(h) + k < WORD && Populated(node, h, k)
  }

  ghost predicate Covers(root: Root, node: Slot, h: nat, q: nat)
    requires RootOk(root)
  {
    WellFormed(node, h) && forall k: nat :: k < Span(h) ==> Agrees(root, node, h, q, k)
  }

  /** The search stands at the node for the `q`-th block of `level + 1`. */
  ghost predicate Here(root: Root, node: Slot, level: nat, q: nat) {
    RootOk(root) && level < root.height && node.Node? && Covers(root, node, level + 1, q)
  }

  lemma HereAtTop(root: Root)
    requires RootOk(root) && root.height > 0
    ensures Here(root, root.rnode, root.height - 1, 0)
  {
  }

  lemma SlotWellFormed(node: Slot, level: nat, o: nat)
    requires WellFormed(node, level + 1) && node.Node? && o < MAP_SIZE
    ensures |node.slots| == MAP_SIZE && WellFormed(node.slots[o], level)
  {
  }

  /** The slot for an index, from its position in the block. */
  lemma SlotSays(root: Root, node: Slot, level: nat, q: nat, o: nat, k: nat)
    requires Here(root, node, level, q) && o < MAP_SIZE && k < Span(level)
    ensures |node.slots| == MAP_SIZE && WellFormed(node.slots[o], level)
    ensures Agrees(root, node.slots[o], level, MAP_SIZE * q + o, k)
  {
    var p := Span(level);
    SlotWellFormed(node, level, o);
    Rebase(q, o, k, p);
    Locate(o * p + k, level, o);
    PopulatedBelow(node, level, o, k);
    assert Agrees(root, node, level + 1, q, o * p + k);
  }

  lemma Rebase(q: nat, o: nat, k: nat, p: nat)
    requires o < MAP_SIZE && k < p
    ensures o * p + k < MAP_SIZE * p
    ensures (MAP_SIZE * q + o) * p + k == q * (MAP_SIZE * p) + (o * p + k)
  {
    MulAtLeast(MAP_SIZE - o, p);
    Distribute(MAP_SIZE * q, o, p);
    Associate(q, MAP_SIZE, p);
  }

  lemma PopulatedBelow(node: Slot, level: nat, o: nat, k: nat)
    requires WellFormed(node, level + 1) && node.Node? && o < MAP_SIZE && k < Span(level)
    requires o * Span(level) + k < Span(level + 1)
    ensures |node.slots| == MAP_SIZE && WellFormed(node.slots[o], level)
    ensures Populated(node, level + 1, o * Span(level) + k) <==> Populated(node.slots[o], level, k)
  {
    SlotWellFormed(node, level, o);
    Distribute(o, 1, Span(level));
    Locate(o * Span(level) + k, level, o);
  }

  /** Going down one level. */
  lemma HereBelow(root: Root, node: Slot, level: nat, q: nat, o: nat)
    requires Here(root, node, level, q) && o < MAP_SIZE && level > 0
    ensures |node.slots| == MAP_SIZE
    ensures !node.slots[o].Empty? ==> Here(root, node.slots[o], level - 1, MAP_SIZE * q + o)
  {
    SlotWellFormed(node, level, o);
    var b := MAP_SIZE * q + o;
    forall k: nat | k < Span(level)
      ensures Agrees(root, node.slots[o], level, b, k)
    {
      SlotSays(root, node, level, q, o, k);
    }
  }

  /** Empty slots hold no index. */
  lemma HoleIsEmpty(root: Root, node: Slot, level: nat, q: nat, o: nat, o': nat)
    requires Here(root, node, level, q) && o <= o' <= MAP_SIZE && |node.slots| == MAP_SIZE
    requires forall j :: o <= j < o' ==> node.slots[j].Empty?
    ensures NoneIn(root, (MAP_SIZE * q + o) * Span(level), (MAP_SIZE * q + o') * Span(level))
  {
    var p := Span(level);
    forall i | (MAP_SIZE * q + o) * p <= i < (MAP_SIZE * q + o') * p
      ensures !Has(root, i)
    {
      var j, k := i / p, i % p;
      assert i == j * p + k;
      Within(j, MAP_SIZE * q + o, MAP_SIZE * q + o', p, k);
      SlotSays(root, node, level, q, j - MAP_SIZE * q, k);
      assert node.slots[j - MAP_SIZE * q].Empty?;
    }
  }

  lemma Within(j: int, o: nat, o': nat, p: nat, r: nat)
    requires o * p <= j * p + r < o' * p && r < p
    ensures o <= j < o'
  {
    if j < o {
      MulAtLeast(o - j, p);
      Distribute(o - j, j, p);
    }
    if j >= o' && j > o' {
      MulAtLeast(j - o', p);
      Distribute(j - o', o', p);
    }
  }

  // ---- the index arithmetic of the search ----

  /** index & ~((MAP_SIZE << shift) - 1), where the mask of the highest level wraps to all ones. */
  function ClearLow(index: nat, level: nat): (r: nat) {
    if Span(level + 1) < WORD then index - index % Span(level + 1) else 0
  }

  /** `index` is covered by slot `offset` of the `q`-th block. */
  ghost predicate Stands(index: int, level: nat, q: nat, offset: nat) {
    && 0 <= index < WORD && offset < MAP_SIZE
    && (MAP_SIZE * q + offset) * Span(level) <= index < (MAP_SIZE * q + offset + 1) * Span(level)
  }

  lemma StandsIs(index: nat, level: nat, q: nat, offset: nat)
    requires index < WORD && offset < MAP_SIZE
    ensures Stands(index, level, q, offset) <==> index / Span(level) == MAP_SIZE * q + offset
  {
    var p, b := Span(level), MAP_SIZE * q + offset;
    assert index == index / p * p + index % p;
    Distribute(b, 1, p);
    Distribute(index / p, 1, p);
    if Stands(index, level, q, offset) {
      DivModIs(index, p, b, index - b * p);
    }
  }

  lemma ClearLowIs(index: nat, level: nat, q: nat, offset: nat)
    requires Stands(index, level, q, offset)
    ensures ClearLow(index, level) == MAP_SIZE * q * Span(level)
  {
    StandsIs(index, level, q, offset);
    DivDiv(index, Span(level), q, offset);
    Associate(q, MAP_SIZE, Span(level));
    WholeBlocks(index, Span(level + 1), q);
  }

  lemma WholeBlocks(index: nat, p: nat, q: nat)
    requires p > 0 && index / p == q && index < WORD
    ensures index - index % p == q * p && (p >= WORD ==> q * p == 0)
  {
    assert index == index / p * p + index % p;
    MulAtLeast(q, p);
  }

  lemma StandsBelow(index: nat, level: nat, q: nat, offset: nat)
    requires Stands(index, level, q, offset) && level > 0
    ensures Stands(index, level - 1, MAP_SIZE * q + offset, index / Span(level - 1) % MAP_SIZE)
  {
    var p, b := Span(level - 1), MAP_SIZE * q + offset;
    StandsIs(index, level, q, offset);
    DivTwice(index, p);
    StandsIs(index, level - 1, b, index / p % MAP_SIZE);
  }

  lemma DivTwice(index: nat, p: nat)
    requires p > 0
    ensures index / (MAP_SIZE * p) == index / p / MAP_SIZE
  {
    var a := index / p;
    var b, o := a / MAP_SIZE, a % MAP_SIZE;
    assert index == a * p + index % p;
    Rebase(b, o, index % p, p);
    DivModIs(index, MAP_SIZE * p, b, o * p + index % p);
  }

  lemma DivDiv(index: nat, p: nat, q: nat, offset: nat)
    requires p > 0 && offset < MAP_SIZE && index / p == MAP_SIZE * q + offset
    ensures index / (MAP_SIZE * p) == q
  {
    DivTwice(index, p);
  }

  /** Past a hole that ends at slot `o`, or with the block when `o` is MAP_SIZE: the word is left exactly when
      the sum wraps to 0, and then no index is left. */
  lemma PastHole(root: Root, node: Slot, level: nat, q: nat, offset: nat, o: nat, index: nat)
    requires Here(root, node, level, q) && Stands(index, level, q, offset) && |node.slots| == MAP_SIZE
    requires offset < o <= MAP_SIZE && forall j :: offset <= j < o ==> node.slots[j].Empty?
    requires o < MAP_SIZE ==> !node.slots[o].Empty?
    requires level + 1 == MAX_PATH ==> q == 0 && node == root.rnode
    ensures var index' := (ClearLow(index, level) + o * Span(level)) % WORD;
      if index' == 0 then NoneIn(root, index, WORD)
      else index < index' && NoneIn(root, index, index') && index' == (MAP_SIZE * q + o) * Span(level)
  {
    var p := Span(level);
    ClearLowIs(index, level, q, offset);
    Distribute(MAP_SIZE * q, o, p);
    HoleIsEmpty(root, node, level, q, offset, o);
    MulAtLeast(o - offset, p);
    Distribute(MAP_SIZE * q + offset, o - offset, p);
    var sum := (MAP_SIZE * q + o) * p;
    EndOfHole(root, node, level, q, o, index);
    if sum < WORD {
    } else {
      assert sum % WORD == 0;
    }
  }

  /** The end of a hole is inside the word, or a multiple of it. */
  lemma EndOfHole(root: Root, node: Slot, level: nat, q: nat, o: nat, index: nat)
    requires Here(root, node, level, q) && o <= MAP_SIZE && MAP_SIZE * q * Span(level) < WORD
    requires |node.slots| == MAP_SIZE && (o < MAP_SIZE ==> !node.slots[o].Empty?)
    requires level + 1 == MAX_PATH ==> q == 0 && node == root.rnode
    ensures (MAP_SIZE * q + o) * Span(level) < WORD || (MAP_SIZE * q + o) * Span(level) % WORD == 0
  {
    if level + 1 == MAX_PATH {
      EndAtTop(o);
    } else {
      EndOfBlock(level, q, o);
    }
  }

  lemma EndAtTop(o: nat)
    requires o <= MAP_SIZE
    ensures o < 16 ==> o * Span(10) < WORD
    ensures o == MAP_SIZE ==> o * Span(10) % WORD == 0
  {
    SpanTop();
  }

  lemma EndOfBlock(level: nat, q: nat, o: nat)
    requires level < 10 && o <= MAP_SIZE && MAP_SIZE * q * Span(level) < WORD
    ensures (MAP_SIZE * q + o) * Span(level) <= WORD
  {
    var p := Span(level);
    Associate(q, MAP_SIZE, p);
    BlockFits(q, level + 1);
    UpTo(q, o, p);
  }

  lemma UpTo(q: nat, o: nat, p: nat)
    requires o <= MAP_SIZE
    ensures (MAP_SIZE * q + o) * p <= (q + 1) * (MAP_SIZE * p)
  {
    Distribute(MAP_SIZE * q + o, MAP_SIZE - o, p);
    Associate(q + 1, MAP_SIZE, p);
  }

  // ---- the search ----

  /** The search for `index` has come to the slot `offset` of `node`. */
  ghost predicate Search(root: Root, node: Slot, level: nat, q: nat, offset: nat, index: int) {
    && Here(root, node, level, q) && Stands(index, level, q, offset) && |node.slots| == MAP_SIZE
    && (level + 1 == MAX_PATH ==> q == 0 && node == root.rnode)
  }

  lemma SearchFromTop(root: Root, index: nat)
    requires RootOk(root) && root.height > 0 && index < WORD && index / Span(root.height - 1) < MAP_SIZE
    ensures Search(root, root.rnode, root.height - 1, 0, index / Span(root.height - 1), index)
  {
    HereAtTop(root);
    StandsIs(index, root.height - 1, 0, index / Span(root.height - 1));
    SlotWellFormed(root.rnode, root.height - 1, 0);
  }

  lemma SearchBelow(root: Root, node: Slot, level: nat, q: nat, offset: nat, index: nat)
    requires Search(root, node, level, q, offset, index) && level > 0 && !node.slots[offset].Empty?
    ensures Search(root, node.slots[offset], level - 1, MAP_SIZE * q + offset, index / Span(level - 1) % MAP_SIZE, index)
  {
    HereBelow(root, node, level, q, offset);
    StandsBelow(index, level, q, offset);
    SlotWellFormed(node.slots[offset], level - 1, 0);
  }

  lemma OutsideTree(root: Root, i: nat)
    requires RootOk(root) && root.height > 0 && i / Span(root.height - 1) >= MAP_SIZE
    ensures NoneIn(root, i, WORD)
  {
    var p := Span(root.height - 1);
    assert i == i / p * p + i % p;
    MulAtLeast(i / p - MAP_SIZE + 1, p);
    Distribute(i / p - MAP_SIZE, MAP_SIZE, p);
  }

  lemma StandsAtStart(index: nat, level: nat, q: nat, offset: nat)
    requires index == (MAP_SIZE * q + offset) * Span(level) && index < WORD && offset < MAP_SIZE
    ensures Stands(index, level, q, offset)
  {
    Distribute(MAP_SIZE * q + offset, 1, Span(level));
  }

  /** From an empty slot to the next one in use, and the index that goes with it: 0 when it leaves the word,
      MAP_SIZE when the node is left. */
  method SkipHole(root: Root, node: Slot, level: nat, ghost q: nat, offset: nat, index: nat)
    returns (o: nat, index': nat)
    requires Search(root, node, level, q, offset, index) && node.slots[offset].Empty?
    ensures offset < o <= MAP_SIZE && 0 <= index' < WORD
    ensures index' == 0 ==> NoneIn(root, index, WORD)
    ensures index' != 0 ==> index < index' && NoneIn(root, index, index')
    ensures index' != 0 && o < MAP_SIZE ==> Search(root, node, level, q, o, index') && !node.slots[o].Empty?
  {
    o := NextUsed(node.slots, offset);
    index' := (ClearLow(index, level) + o * Span(level)) % WORD;
    PastHole(root, node, level, q, offset, o, index);
    if index' != 0 && o < MAP_SIZE {
      StandsAtStart(index', level, q, o);
    }
  }

  method NextUsed(slots: seq<Slot>, offset: nat) returns (o: nat)
    requires |slots| == MAP_SIZE && offset < MAP_SIZE && slots[offset].Empty?
    ensures offset < o <= MAP_SIZE && forall j :: offset <= j < o ==> slots[j].Empty?
    ensures o < MAP_SIZE ==> !slots[o].Empty?
  {
    o := offset + 1;
    while o < MAP_SIZE && slots[o].Empty?
      invariant offset < o <= MAP_SIZE && forall j :: offset <= j < o ==> slots[j].Empty?
    {
      o := o + 1;
    }
  }

  // how one way down from the root ends
  datatype Descent = End | Again | Found(slots: seq<Slot>, offset: nat)

  /** Down from the root to the item with index `from` or, past holes, a later one; again from the root when
      the rest of a node is empty. */
  method Descend(root: Root, from: nat) returns (d: Descent, index: nat)
    requires RootOk(root) && root.rnode.Node? && from < WORD
    ensures d.End? ==> NoneIn(root, from, WORD)
    ensures !d.End? ==> from <= index < WORD && NoneIn(root, from, index) && (d.Again? ==> from < index)
    ensures d.Found? ==> Has(root, index) && LeafAt(root, d.slots, d.offset, index)
  {
    var level: nat, node := root.height - 1, root.rnode;
    index := from;
    var offset: nat := index / Span(level);
    if offset >= MAP_SIZE {
      OutsideTree(root, index);
      return End, index;
    }
    ghost var q: nat := 0;
    SearchFromTop(root, index);
    while true
      invariant Search(root, node, level, q, offset, index) && from <= index && NoneIn(root, from, index)
      decreases level
    {
      if node.slots[offset].Empty? {
        offset, index := SkipHole(root, node, level, q, offset, index);
        if index == 0 {
          return End, index;
        }
        if offset == MAP_SIZE {
          return Again, index;
        }
      }
      if level == 0 {
        LeafHere(root, node, q, offset, index);
        return Found(node.slots, offset), index;
      }
      SearchBelow(root, node, level, q, offset, index);
      node, q, level := node.slots[offset], MAP_SIZE * q + offset, level - 1;
      offset := index / Span(level) % MAP_SIZE;
    }
  }

  /** `slots` is the leaf node for the indices from `base` on. */
  ghost predicate Leaf(root: Root, slots: seq<Slot>, base: int)
    requires RootOk(root)
  {
    && |slots| == MAP_SIZE && 0 <= base && base + MAP_SIZE <= WORD && base % MAP_SIZE == 0
    && forall j :: 0 <= j < MAP_SIZE ==> (Has(root, base + j) <==> !slots[j].Empty?)
  }

  /** `slots` is a leaf node and its slot `offset` the one for the index. */
  ghost predicate LeafAt(root: Root, slots: seq<Slot>, offset: nat, index: int)
    requires RootOk(root)
  {
    offset < MAP_SIZE && Leaf(root, slots, index - offset)
  }

  lemma LeafHere(root: Root, node: Slot, q: nat, offset: nat, index: nat)
    requires Search(root, node, 0, q, offset, index) && !node.slots[offset].Empty?
    ensures Has(root, index) && LeafAt(root, node.slots, offset, index)
  {
    LeafIndex(index, q, offset);
    forall j | 0 <= j < MAP_SIZE
      ensures Has(root, index - offset + j) <==> !node.slots[j].Empty?
    {
      LeafSlotSays(root, node, q, offset, index, j);
    }
  }

  lemma LeafIndex(index: int, q: nat, offset: nat)
    requires Stands(index, 0, q, offset)
    ensures index == MAP_SIZE * q + offset && index % MAP_SIZE == offset && index - offset + MAP_SIZE <= WORD
  {
    assert Span(0) == 1;
  }

  lemma LeafSlotSays(root: Root, node: Slot, q: nat, offset: nat, index: nat, j: nat)
    requires Search(root, node, 0, q, offset, index) && j < MAP_SIZE
    ensures Has(root, index - offset + j) <==> !node.slots[j].Empty?
  {
    LeafIndex(index, q, offset);
    SlotSays(root, node, 0, q, j, 0);
  }

  /** The restart loop. */
  method FindItem(root: Root, from: nat) returns (d: Descent, index: nat)
    requires RootOk(root) && root.rnode.Node? && from < WORD
    ensures !d.Again?
    ensures d.End? ==> NoneIn(root, from, WORD)
    ensures d.Found? ==> from <= index && NoneIn(root, from, index)
    ensures d.Found? ==> index < WORD && Has(root, index) && LeafAt(root, d.slots, d.offset, index)
  {
    index, d := from, Again;
    while d.Again?
      invariant d.End? ==> NoneIn(root, from, WORD)
      invariant !d.End? ==> from <= index < WORD && NoneIn(root, from, index)
      invariant d.Found? ==> Has(root, index) && LeafAt(root, d.slots, d.offset, index)
      decreases d.Again?, WORD - index
    {
      d, index := Descend(root, index);
    }
  }

  /** Another slot of the same leaf. */
  lemma LeafNext(root: Root, slots: seq<Slot>, offset: nat, index: int, o: nat)
    requires RootOk(root) && LeafAt(root, slots, offset, index) && offset <= o < MAP_SIZE
    ensures LeafAt(root, slots, o, index + o - offset)
    ensures Has(root, index + o - offset) <==> !slots[o].Empty?
    ensures (forall j :: offset < j < o ==> slots[j].Empty?) ==> NoneIn(root, index + 1, index + o - offset)
  {
    if offset < o && forall j :: offset < j < o ==> slots[j].Empty? {
      LeafGap(root, slots, offset, index, o);
    }
    assert Has(root, index - offset + o) <==> !slots[o].Empty?;
  }

  /** Empty slots of a leaf. */
  lemma LeafGap(root: Root, slots: seq<Slot>, offset: nat, index: int, o: nat)
    requires RootOk(root) && LeafAt(root, slots, offset, index) && offset < o <= MAP_SIZE
    requires forall j :: offset < j < o ==> slots[j].Empty?
    ensures NoneIn(root, index + 1, index + o - offset)
  {
    forall i | index + 1 <= i < index + o - offset
      ensures !Has(root, i)
    {
      assert Has(root, index - offset + (i - index + offset)) <==> !slots[i - index + offset].Empty?;
    }
  }

  // ---- the iterator ----

  lemma Join(root: Root, a: int, b: int, c: int)
    requires RootOk(root) && NoneIn(root, a, b) && (NoneIn(root, b, c) || c <= b)
    ensures NoneIn(root, a, c)
  {
  }

  /** index + 1 of a word. */
  function Next(index: int): int {
    if index + 1 == WORD then 0 else index + 1
  }

  /** base + MAP_SIZE of a word. */
  function ChunkEnd(base: int): int {
    if base + MAP_SIZE == WORD then 0 else base + MAP_SIZE
  }

  lemma ChunkEndIs(index: int, offset: nat)
    requires offset < MAP_SIZE && (index - offset) % MAP_SIZE == 0 && offset <= index && index - offset + MAP_SIZE <= WORD
    ensures (index - index % MAP_SIZE + MAP_SIZE) % WORD == ChunkEnd(index - offset)
    ensures (ChunkEnd(index - offset) - index) % WORD == MAP_SIZE - offset
  {
    assert index % MAP_SIZE == offset;
  }

  class RadixTreeIter {
    var index: int // current index
    var nextIndex: int // one past the last index of the chunk, 0 when that is the end of the word

    predicate Ready()
      reads this
    {
      0 <= index < WORD && 0 <= nextIndex < WORD
    }

    /** The slot is the one for the current index, and the chunk ends where its node does. */
    ghost predicate InChunk(root: Root, slot: Cursor)
      requires RootOk(root)
      reads this
    {
      && Ready() && !slot.Null? && Has(root, index)
      && (slot.Direct? ==> root.rnode.Item? && index == 0 && nextIndex == 1)
      && (slot.At? ==> LeafAt(root, slot.slots, slot.offset, index)
                       && nextIndex == ChunkEnd(index - slot.offset))
    }

    /** radix_tree_iter_init */
    constructor (start: int)
      requires 0 <= start < WORD
      ensures Ready() && index == 0 && nextIndex == start
    {
      index, nextIndex := 0, start;
    }

    /** radix_tree_next_chunk: the least index from `nextIndex` on that has an item, or NULL if there is none or
        the last chunk ended with the word. */
    method NextChunk(root: Root) returns (slot: Cursor)
      requires RootOk(root) && Ready()
      modifies this
      ensures slot.Null? ==> index == old(index) && nextIndex == old(nextIndex)
      ensures slot.Null? ==> (nextIndex == 0 && index != 0) || NoneIn(root, nextIndex, WORD)
      ensures !slot.Null? ==> (old(nextIndex) == 0 ==> old(index) == 0)
      ensures !slot.Null? ==> InChunk(root, slot) && old(nextIndex) <= index && NoneIn(root, old(nextIndex), index)
    {
      if nextIndex == 0 && index != 0 {
        return Null;
      }
      if root.rnode.Item? && nextIndex == 0 {
        index, nextIndex := 0, 1;
        return Direct;
      }
      if !root.rnode.Node? {
        return Null;
      }
      var d, i := FindItem(root, nextIndex);
      if d.End? {
        return Null;
      }
      ChunkEndIs(i, d.offset);
      index, nextIndex := i, (i - i % MAP_SIZE + MAP_SIZE) % WORD;
      slot := At(d.slots, d.offset);
    }

    /** radix_tree_next_slot: the next item of the chunk, or NULL at its end. */
    method NextSlot(root: Root, slot: Cursor) returns (next: Cursor)
      requires RootOk(root) && InChunk(root, slot)
      modifies `index
      ensures next.Null? ==> Ready() && NoneIn(root, old(index) + 1, index + 1) && nextIndex == Next(index)
      ensures !next.Null? ==> InChunk(root, next) && old(index) < index && NoneIn(root, old(index) + 1, index)
    {
      if slot.Direct? {
        // the chunk of the root's own slot has size 1
        return Null;
      }
      ChunkEndIs(index, slot.offset);
      ghost var i := index;
      next := Scan(slot, (nextIndex - index) % WORD - 1);
      if next.Null? {
        LeafGap(root, slot.slots, slot.offset, i, MAP_SIZE);
      } else {
        LeafNext(root, slot.slots, slot.offset, i, next.offset);
      }
    }

    // the loop of radix_tree_next_slot
    method Scan(slot: Cursor, count: int) returns (next: Cursor)
      requires slot.At? && |slot.slots| == MAP_SIZE && slot.offset < MAP_SIZE && count == MAP_SIZE - 1 - slot.offset
      modifies `index
      ensures next == Null || (next.At? && next.slots == slot.slots && slot.offset < next.offset < MAP_SIZE)
      ensures var o := if next.At? then next.offset else MAP_SIZE;
        (forall j :: slot.offset < j < o ==> slot.slots[j].Empty?) && (o < MAP_SIZE ==> !slot.slots[o].Empty?)
      ensures index == old(index) + if next.At? then next.offset - slot.offset else count
    {
      next := slot;
      var size := count;
      while size > 0
        invariant next.At? && next.slots == slot.slots && slot.offset <= next.offset < MAP_SIZE
        invariant size == MAP_SIZE - 1 - next.offset && index == old(index) + next.offset - slot.offset
        invariant forall j :: slot.offset < j <= next.offset ==> slot.slots[j].Empty?
        decreases size
      {
        next, index, size := At(next.slots, next.offset + 1), index + 1, size - 1;
        if !next.slots[next.offset].Empty? {
          return;
        }
      }
      next := Null;
    }

    /** How the loop goes on: inside the chunk, or with the next one. */
    method Advance(root: Root, slot: Cursor) returns (next: Cursor)
      requires RootOk(root) && InChunk(root, slot)
      modifies this
      ensures next.Null? ==> NoneIn(root, old(index) + 1, WORD)
      ensures !next.Null? ==> InChunk(root, next) && old(index) < index && NoneIn(root, old(index) + 1, index)
    {
      ghost var i := index;
      next := NextSlot(root, slot);
      if next.Null? {
        ghost var last := index;
        next := NextChunk(root);
        Join(root, i + 1, last + 1, if next.Null? then WORD else index);
      }
    }
  }

  // ---- the loop over all items ----

  ghost predicate Ascending(s: seq<int>) {
    forall i, j :: 0 <= i < j < |s| ==> s[i] < s[j]
  }

  /** Exactly the items with indices from `start` on, up to `end`. */
  ghost predicate Visited(root: Root, visited: seq<int>, start: int, end: int)
    requires RootOk(root)
  {
    Ascending(visited) && forall i :: i in visited <==> start <= i < end && Has(root, i)
  }

  lemma VisitOne(root: Root, visited: seq<int>, start: int, index: int, end: int)
    requires RootOk(root) && Visited(root, visited, start, index)
    requires start <= index < end && Has(root, index) && NoneIn(root, index + 1, end)
    ensures Visited(root, visited + [index], start, end)
  {
    forall k | 0 <= k < |visited|
      ensures visited[k] < index
    {
      assert visited[k] in visited;
    }
  }

  /** radix_tree_for_each_slot: every item from `start` on is visited, once, in the order of the indices. */
  method ForEachSlot(root: Root, start: int) returns (visited: seq<int>)
    requires RootOk(root) && 0 <= start < WORD
    ensures Ascending(visited)
    ensures forall i :: i in visited <==> start <= i && Has(root, i)
  {
    var iter := new RadixTreeIter(start);
    visited := [];
    var slot := iter.NextChunk(root);
    ghost var end := if slot.Null? then WORD else iter.index;
    while !slot.Null?
      invariant Visited(root, visited, start, end)
      invariant slot.Null? ==> end == WORD
      invariant !slot.Null? ==> iter.InChunk(root, slot) && start <= iter.index == end
      decreases !slot.Null?, WORD - end
    {
      ghost var before, index := visited, iter.index;
      visited := visited + [iter.index];
      slot := iter.Advance(root, slot);
      end := if slot.Null? then WORD else iter.index;
      VisitOne(root, before, start, index, end);
    }
  }
}
