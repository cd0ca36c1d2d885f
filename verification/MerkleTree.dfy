/**
  Partial Merkle trees as values: the full tree of a transaction list, the
  depth-first encoding of a chosen subset, and its decoding (BIP 37, section
  "Partial Merkle branch format"). hash combines two node hashes; zero is the
  hash the program returns on failure.
 */
module MerkleTree {
  import opened Util

  type Hash = nat
  type Combine = (Hash, Hash) -> Hash

  // ----- the shape of the tree -----

  /** Number of nodes at a height of the tree over n leaves: each level has half as many, rounded up. */
  function Width(n: nat, h: nat): nat {
    if h == 0 then n else (Width(n, h - 1) + 1) / 2
  }

  /** The program computes the width in one expression. */
  lemma {:induction false} WidthClosed(n: nat, h: nat)
    ensures Width(n, h) == Up(n, Pow2(h)) == (n + Pow2(h) - 1) / Pow2(h)
  {
    if h > 0 {
      hide Pow2, Up;
      WidthClosed(n, h - 1);
      HalfOfUp(n, Pow2(h - 1));
      PowStep(h);
    }
    UpIs(n, Pow2(h));
  }

  /** n divided by a, rounded up. */
  function Up(n: nat, a: nat): nat
    requires a > 0
  {
    (n + a - 1) / a
  }

  lemma UpIs(n: nat, a: nat)
    requires a > 0
    ensures Up(n, a) == (n + a - 1) / a
  {
  }

  lemma HalfOfUp(n: nat, a: nat)
    requires a > 0
    ensures (Up(n, a) + 1) / 2 == Up(n, 2 * a)
  {
    HalfOfQuotient(n, a);
  }

  lemma PowStep(h: nat)
    requires h > 0
    ensures Pow2(h) == 2 * Pow2(h - 1)
  {
  }

  lemma HalfOfQuotient(n: nat, a: nat)
    requires a > 0
    ensures ((n + a - 1) / a + 1) / 2 == (n + 2 * a - 1) / (2 * a)
  {
    var w, r := (n + a - 1) / a, (n + a - 1) % a;
    var q, e := (w + 1) / 2, (w + 1) % 2;
    assert n + a - 1 == a * w + r;
    Expand(a, w, q, e);
    MulMono(0, e, a);
    MulMono(e, 1, a);
    DivIs(n + 2 * a - 1, 2 * a, q);
  }

  lemma Expand(a: nat, w: nat, q: nat, e: nat)
    requires w + 1 == 2 * q + e
    ensures a * w + a == 2 * a * q + a * e
  {
    assert a * (w + 1) == a * w + a;
    assert a * (2 * q + e) == a * (2 * q) + a * e;
  }

  lemma WidthBounds(n: nat, h: nat)
    ensures Pow2(h) * Width(n, h) < n + Pow2(h) <= Pow2(h) * Width(n, h) + Pow2(h)
  {
    hide Pow2, Width;
    WidthClosed(n, h);
    Quotient(n + Pow2(h) - 1, Pow2(h));
  }

  lemma Quotient(x: nat, a: nat)
    requires a > 0
    ensures a * (x / a) <= x < a * (x / a) + a
  {
  }

  /** A node exists exactly when its first leaf does. */
  lemma NodeExists(n: nat, h: nat, pos: nat)
    ensures pos < Width(n, h) <==> pos * Pow2(h) < n
  {
    hide Pow2, Width;
    var a, w := Pow2(h), Width(n, h);
    WidthBounds(n, h);
    if pos < w { MulMono(pos + 1, w, a); } else { MulMono(w, pos, a); }
    assert a * (pos + 1) == a * pos + a;
  }

  /** The least height with a single node. */
  function Height(n: nat, h: nat): (r: nat)
    ensures r >= h && Width(n, r) <= 1
    decreases Width(n, h)
  {
    if Width(n, h) > 1 then Height(n, h + 1) else h
  }

  lemma {:induction false} RootExists(n: nat, h: nat)
    requires Width(n, h) > 0
    ensures Width(n, Height(n, h)) == 1
    decreases Width(n, h)
  {
    if Width(n, h) > 1 { RootExists(n, h + 1); }
  }

  // ----- the tree as a value -----

  /** A node and what is below it; on the right edge a node may have a single child. */
  datatype Node = Leaf(index: nat) | One(child: Node) | Two(left: Node, right: Node)

  /** The node at a height and position of the tree over n leaves. */
  function Shape(n: nat, h: nat, pos: nat): Node
    requires pos < Width(n, h)
  {
    if h == 0 then Leaf(pos)
    else if 2 * pos + 1 < Width(n, h - 1) then Two(Shape(n, h - 1, 2 * pos), Shape(n, h - 1, 2 * pos + 1))
    else One(Shape(n, h - 1, 2 * pos))
  }

  /** All leaves are among the first n. */
  predicate Over(t: Node, n: nat) {
    match t
    case Leaf(i) => i < n
    case One(c) => Over(c, n)
    case Two(l, r) => Over(l, n) && Over(r, n)
  }

  /** All leaves are h levels down. */
  predicate Uniform(t: Node, h: nat) {
    match t
    case Leaf(_) => h == 0
    case One(c) => h > 0 && Uniform(c, h - 1)
    case Two(l, r) => h > 0 && Uniform(l, h - 1) && Uniform(r, h - 1)
  }

  lemma {:induction false} ShapeOver(n: nat, h: nat, pos: nat)
    requires pos < Width(n, h)
    ensures Over(Shape(n, h, pos), n) && Uniform(Shape(n, h, pos), h)
  {
    if h > 0 {
      ShapeOver(n, h - 1, 2 * pos);
      if 2 * pos + 1 < Width(n, h - 1) { ShapeOver(n, h - 1, 2 * pos + 1); }
    }
  }

  /** The part of a sequence over all leaves that lies below a node. */
  function Below<T>(t: Node, all: seq<T>): seq<T>
    requires Over(t, |all|)
  {
    match t
    case Leaf(i) => [all[i]]
    case One(c) => Below(c, all)
    case Two(l, r) => Below(l, all) + Below(r, all)
  }

  lemma {:induction false} BelowSameLength<T, U>(t: Node, a: seq<T>, b: seq<U>)
    requires |a| == |b| && Over(t, |a|)
    ensures |Below(t, a)| == |Below(t, b)| > 0
  {
    match t
    case Leaf(_) =>
    case One(c) => BelowSameLength(c, a, b);
    case Two(l, r) => BelowSameLength(l, a, b); BelowSameLength(r, a, b);
  }

  function First(n: nat, h: nat, pos: nat): nat { if pos * Pow2(h) < n then pos * Pow2(h) else n }

  /** The leaves below a node are the positions from pos << h up to (pos + 1) << h, cut off at the end. */
  lemma {:induction false} BelowRange<T>(all: seq<T>, h: nat, pos: nat)
    requires pos < Width(|all|, h)
    ensures Over(Shape(|all|, h, pos), |all|) && First(|all|, h, pos) <= First(|all|, h, pos + 1)
    ensures Below(Shape(|all|, h, pos), all) == all[First(|all|, h, pos)..First(|all|, h, pos + 1)]
  {
    hide First;
    var n := |all|;
    ShapeOver(n, h, pos);
    FirstOrder(n, h, pos);
    if h == 0 {
      FirstLeaf(n, pos);
    } else {
      FirstDoubled(n, h, pos);
      BelowRange(all, h - 1, 2 * pos);
      if 2 * pos + 1 < Width(n, h - 1) {
        BelowRange(all, h - 1, 2 * pos + 1);
      } else {
        FirstBeyond(n, h - 1, 2 * pos + 1);
        FirstBeyond(n, h - 1, 2 * pos + 2);
      }
    }
  }

  lemma FirstLeaf(n: nat, pos: nat)
    requires pos < n
    ensures First(n, 0, pos) == pos && First(n, 0, pos + 1) == pos + 1
  {
  }

  lemma FirstOrder(n: nat, h: nat, pos: nat)
    ensures First(n, h, pos) <= First(n, h, pos + 1) <= n
  {
    assert (pos + 1) * Pow2(h) == pos * Pow2(h) + Pow2(h);
  }

  lemma FirstBeyond(n: nat, h: nat, pos: nat)
    requires pos >= Width(n, h)
    ensures First(n, h, pos) == n
  {
    NodeExists(n, h, pos);
  }

  /** The leaves of a node are those of its children. */
  lemma FirstDoubled(n: nat, h: nat, pos: nat)
    requires h > 0
    ensures First(n, h, pos) == First(n, h - 1, 2 * pos) && First(n, h, pos + 1) == First(n, h - 1, 2 * pos + 2)
  {
    Doubled(h, pos);
  }

  lemma Doubled(h: nat, pos: nat)
    requires h > 0
    ensures (2 * pos) * Pow2(h - 1) == pos * Pow2(h)
    ensures (2 * pos + 1) * Pow2(h - 1) == pos * Pow2(h) + Pow2(h - 1)
    ensures (2 * pos + 1 + 1) * Pow2(h - 1) == (pos + 1) * Pow2(h)
  {
  }

  /** The whole tree. */
  function Tree(n: nat): (t: Node)
    requires n > 0
    ensures Over(t, n) && Uniform(t, Height(n, 0))
  {
    RootExists(n, 0);
    ShapeOver(n, Height(n, 0), 0);
    Shape(n, Height(n, 0), 0)
  }

  lemma BelowRoot<T>(all: seq<T>)
    requires all != []
    ensures Below(Tree(|all|), all) == all
  {
    RootExists(|all|, 0);
    BelowRange(all, Height(|all|, 0), 0);
    NodeExists(|all|, Height(|all|, 0), 1);
  }

  // ----- the full tree -----

  function CalcHash(hash: Combine, t: Node, txids: seq<Hash>): Hash
    requires Over(t, |txids|)
  {
    match t
    case Leaf(i) => txids[i]
    case One(c) => var left := CalcHash(hash, c, txids); hash(left, left)
    case Two(l, r) => hash(CalcHash(hash, l, txids), CalcHash(hash, r, txids))
  }

  function Root(hash: Combine, txids: seq<Hash>): Hash
    requires txids != []
  {
    CalcHash(hash, Tree(|txids|), txids)
  }

  // ----- the chosen transactions -----

  /** The elements the mask selects, in order. */
  function Select(txids: seq<Hash>, mask: seq<bool>): (r: seq<Hash>)
    requires |txids| == |mask|
    ensures |r| <= |txids|
  {
    if txids == [] then [] else (if mask[0] then [txids[0]] else []) + Select(txids[1..], mask[1..])
  }

  lemma {:induction false} SelectConcat(a: seq<Hash>, b: seq<Hash>, m: seq<bool>, k: seq<bool>)
    requires |a| == |m| && |b| == |k|
    ensures Select(a + b, m + k) == Select(a, m) + Select(b, k)
  {
    if a == [] {
      assert a + b == b && m + k == k;
    } else {
      SelectConcat(a[1..], b, m[1..], k);
      assert (a + b)[1..] == a[1..] + b && (m + k)[1..] == m[1..] + k;
      assert Select(a + b, m + k) == (if m[0] then [a[0]] else []) + (Select(a[1..], m[1..]) + Select(b, k));
    }
  }

  lemma SelectOne(x: Hash, f: bool)
    ensures Select([x], [f]) == (if f then [x] else []) && (true in [f]) == f
  {
  }

  lemma {:induction false} SelectNone(txids: seq<Hash>, mask: seq<bool>)
    requires |txids| == |mask|
    ensures (Select(txids, mask) == []) == (true !in mask)
  {
    if txids != [] {
      SelectNone(txids[1..], mask[1..]);
      assert mask == [mask[0]] + mask[1..];
    }
  }

  /** The chosen leaves below a node. */
  function Chosen(t: Node, txids: seq<Hash>, mask: seq<bool>): seq<Hash>
    requires |txids| == |mask| && Over(t, |txids|)
  {
    BelowSameLength(t, txids, mask);
    Select(Below(t, txids), Below(t, mask))
  }

  lemma ChosenTwo(l: Node, r: Node, txids: seq<Hash>, mask: seq<bool>)
    requires |txids| == |mask| && Over(Two(l, r), |txids|)
    ensures Chosen(Two(l, r), txids, mask) == Chosen(l, txids, mask) + Chosen(r, txids, mask)
  {
    BelowSameLength(l, txids, mask);
    BelowSameLength(r, txids, mask);
    SelectConcat(Below(l, txids), Below(r, txids), Below(l, mask), Below(r, mask));
  }

  lemma ChosenNone(t: Node, txids: seq<Hash>, mask: seq<bool>)
    requires |txids| == |mask| && Over(t, |txids|)
    ensures (Chosen(t, txids, mask) != []) == AnyBelow(t, mask)
  {
    BelowSameLength(t, txids, mask);
    SelectNone(Below(t, txids), Below(t, mask));
  }

  // ----- encoding -----

  datatype Encoded = Encoded(bits: seq<bool>, hashes: seq<Hash>)

  /** Some leaf below the node is chosen. */
  predicate AnyBelow(t: Node, mask: seq<bool>)
    requires Over(t, |mask|)
  {
    true in Below(t, mask)
  }

  function Build(hash: Combine, t: Node, txids: seq<Hash>, mask: seq<bool>): Encoded
    requires |txids| == |mask| && Over(t, |txids|)
  {
    if t.Leaf? || !AnyBelow(t, mask) then Encoded([AnyBelow(t, mask)], [CalcHash(hash, t, txids)])
    else
      match t
      case One(c) =>
        var left := Build(hash, c, txids, mask);
        Encoded([true] + left.bits, left.hashes)
      case Two(l, r) =>
        var left, right := Build(hash, l, txids, mask), Build(hash, r, txids, mask);
        Encoded([true] + left.bits + right.bits, left.hashes + right.hashes)
  }

  // ----- decoding -----

  /** Where the decoder is, whether it ran into bad data, and the matches so far. */
  datatype Cursor = Cursor(nBitsUsed: nat, nHashUsed: nat, fBad: bool, matches: seq<Hash>)

  function Extract(hash: Combine, t: Node, bits: seq<bool>, hashes: seq<Hash>, c: Cursor): (Hash, Cursor) {
    if c.nBitsUsed >= |bits| then (0, c.(fBad := true))
    else
      var f := bits[c.nBitsUsed];
      var c1 := c.(nBitsUsed := c.nBitsUsed + 1);
      if t.Leaf? || !f then
        if c1.nHashUsed >= |hashes| then (0, c1.(fBad := true))
        else
          var node := hashes[c1.nHashUsed];
          (node, Cursor(c1.nBitsUsed, c1.nHashUsed + 1, c1.fBad,
                        if t.Leaf? && f then c1.matches + [node] else c1.matches))
      else
        match t
        case One(child) =>
          var (left, c2) := Extract(hash, child, bits, hashes, c1);
          (hash(left, left), c2)
        case Two(l, r) =>
          var (left, c2) := Extract(hash, l, bits, hashes, c1);
          var (right, c3) := Extract(hash, r, bits, hashes, c2);
          (hash(left, right), c3)
  }

  const START := Cursor(0, 0, false, [])

  /** The decoder with all its checks: the root and the matches, zero on failure. */
  function ExtractMatches(hash: Combine, maxTx: nat, n: nat, bits: seq<bool>, hashes: seq<Hash>, fBad: bool)
    : (Hash, seq<Hash>)
  {
    if n == 0 || n > maxTx || |hashes| > n || |bits| < |hashes| then (0, [])
    else
      var (root, c) := Extract(hash, Tree(n), bits, hashes, START.(fBad := fBad));
      if c.fBad || (c.nBitsUsed + 7) / 8 != (|bits| + 7) / 8 || c.nHashUsed != |hashes| then (0, c.matches)
      else (root, c.matches)
  }

  // ----- the round trip -----

  /** Part of a sequence, starting at i. */
  ghost predicate At<T>(s: seq<T>, i: nat, part: seq<T>) {
    i + |part| <= |s| && forall k | 0 <= k < |part| :: s[i + k] == part[k]
  }

  lemma AtConcat<T>(s: seq<T>, i: nat, a: seq<T>, b: seq<T>)
    requires At(s, i, a + b)
    ensures At(s, i, a) && At(s, i + |a|, b)
  {
    forall k | 0 <= k < |a| ensures s[i + k] == a[k] { assert (a + b)[k] == a[k]; }
    forall k | 0 <= k < |b| ensures s[i + |a| + k] == b[k] { assert (a + b)[|a| + k] == b[k]; }
  }

  lemma AtBit(bits: seq<bool>, i: nat, f: bool, rest: seq<bool>)
    requires At(bits, i, [f] + rest)
    ensures i < |bits| && bits[i] == f && At(bits, i + 1, rest)
  {
    AtConcat(bits, i, [f], rest);
    assert bits[i + 0] == [f][0];
  }

  /**
    What decoding the encoding of a node must give: its hash, its chosen leaves, and
    exactly what was written used up.
   */
  function Decoded(hash: Combine, t: Node, txids: seq<Hash>, mask: seq<bool>, c: Cursor): (Hash, Cursor)
    requires |txids| == |mask| && Over(t, |txids|)
  {
    var e := Build(hash, t, txids, mask);
    (CalcHash(hash, t, txids),
     Cursor(c.nBitsUsed + |e.bits|, c.nHashUsed + |e.hashes|, c.fBad, c.matches + Chosen(t, txids, mask)))
  }

  lemma ChosenLeaf(hash: Combine, t: Node, txids: seq<Hash>, mask: seq<bool>)
    requires |txids| == |mask| && Over(t, |txids|) && (t.Leaf? || !AnyBelow(t, mask))
    ensures Chosen(t, txids, mask) == if t.Leaf? && AnyBelow(t, mask) then [CalcHash(hash, t, txids)] else []
  {
    ChosenNone(t, txids, mask);
    if t.Leaf? { SelectOne(txids[t.index], mask[t.index]); }
  }

  lemma ExtractLeaf(hash: Combine, t: Node, txids: seq<Hash>, mask: seq<bool>, bits: seq<bool>, hashes: seq<Hash>,
                    c: Cursor)
    requires |txids| == |mask| && Over(t, |txids|) && (t.Leaf? || !AnyBelow(t, mask))
    requires At(bits, c.nBitsUsed, [AnyBelow(t, mask)]) && At(hashes, c.nHashUsed, [CalcHash(hash, t, txids)])
    ensures Extract(hash, t, bits, hashes, c) == Decoded(hash, t, txids, mask, c)
  {
    var f, node := AnyBelow(t, mask), CalcHash(hash, t, txids);
    assert bits[c.nBitsUsed + 0] == [f][0] && hashes[c.nHashUsed + 0] == [node][0];
    var found := if t.Leaf? && f then [node] else [];
    ChosenLeaf(hash, t, txids, mask);
    assert Build(hash, t, txids, mask) == Encoded([f], [node]);
    assert c.matches + found == if t.Leaf? && f then c.matches + [node] else c.matches;
  }

  lemma BuildTwo(hash: Combine, l: Node, r: Node, txids: seq<Hash>, mask: seq<bool>)
    requires |txids| == |mask| && Over(Two(l, r), |txids|) && AnyBelow(Two(l, r), mask)
    ensures var left, right := Build(hash, l, txids, mask), Build(hash, r, txids, mask);
            Build(hash, Two(l, r), txids, mask) == Encoded([true] + left.bits + right.bits, left.hashes + right.hashes)
  {
    hide CalcHash, AnyBelow, Over;
  }

  lemma Associative<T>(a: seq<T>, b: seq<T>, c: seq<T>)
    ensures a + b + c == a + (b + c)
  {
  }

  /** The encodings of two children follow one another after the set bit of their parent. */
  lemma TwoAt(hash: Combine, l: Node, r: Node, txids: seq<Hash>, mask: seq<bool>, bits: seq<bool>, hashes: seq<Hash>,
              c: Cursor)
    requires |txids| == |mask| && Over(Two(l, r), |txids|) && AnyBelow(Two(l, r), mask)
    requires At(bits, c.nBitsUsed, Build(hash, Two(l, r), txids, mask).bits) &&
             At(hashes, c.nHashUsed, Build(hash, Two(l, r), txids, mask).hashes)
    ensures c.nBitsUsed < |bits| && bits[c.nBitsUsed]
    ensures var left, right := Build(hash, l, txids, mask), Build(hash, r, txids, mask);
            At(bits, c.nBitsUsed + 1, left.bits) && At(hashes, c.nHashUsed, left.hashes) &&
            At(bits, c.nBitsUsed + 1 + |left.bits|, right.bits) && At(hashes, c.nHashUsed + |left.hashes|, right.hashes)
  {
    hide At, Build;
    var left, right := Build(hash, l, txids, mask), Build(hash, r, txids, mask);
    BuildTwo(hash, l, r, txids, mask);
    Associative([true], left.bits, right.bits);
    AtBit(bits, c.nBitsUsed, true, left.bits + right.bits);
    AtConcat(bits, c.nBitsUsed + 1, left.bits, right.bits);
    AtConcat(hashes, c.nHashUsed, left.hashes, right.hashes);
  }

  lemma DecodedTwo(hash: Combine, l: Node, r: Node, txids: seq<Hash>, mask: seq<bool>, c: Cursor)
    requires |txids| == |mask| && Over(Two(l, r), |txids|) && AnyBelow(Two(l, r), mask)
    ensures var c1 := c.(nBitsUsed := c.nBitsUsed + 1);
            var (left, c2) := Decoded(hash, l, txids, mask, c1);
            var (right, c3) := Decoded(hash, r, txids, mask, c2);
            Decoded(hash, Two(l, r), txids, mask, c) == (hash(left, right), c3)
  {
    hide Chosen, AnyBelow, Build;
    BuildTwo(hash, l, r, txids, mask);
    ChosenTwo(l, r, txids, mask);
    var x, y := Chosen(l, txids, mask), Chosen(r, txids, mask);
    assert c.matches + (x + y) == c.matches + x + y;
  }

  /** A node above two decoded children is decoded. */
  lemma ExtractTwo(hash: Combine, l: Node, r: Node, txids: seq<Hash>, mask: seq<bool>, bits: seq<bool>,
                   hashes: seq<Hash>, c: Cursor)
    requires |txids| == |mask| && Over(Two(l, r), |txids|) && AnyBelow(Two(l, r), mask) && c.nBitsUsed < |bits| &&
             bits[c.nBitsUsed]
    requires var c1 := c.(nBitsUsed := c.nBitsUsed + 1);
             var c2 := Decoded(hash, l, txids, mask, c1).1;
             Extract(hash, l, bits, hashes, c1) == Decoded(hash, l, txids, mask, c1) &&
             Extract(hash, r, bits, hashes, c2) == Decoded(hash, r, txids, mask, c2)
    ensures Extract(hash, Two(l, r), bits, hashes, c) == Decoded(hash, Two(l, r), txids, mask, c)
  {
    hide Decoded, Build, Chosen, CalcHash;
    DecodedTwo(hash, l, r, txids, mask, c);
  }

  lemma ExtractOne(hash: Combine, child: Node, txids: seq<Hash>, mask: seq<bool>, bits: seq<bool>, hashes: seq<Hash>,
                   c: Cursor)
    requires |txids| == |mask| && Over(One(child), |txids|) && AnyBelow(One(child), mask) && c.nBitsUsed < |bits| &&
             bits[c.nBitsUsed]
    requires var c1 := c.(nBitsUsed := c.nBitsUsed + 1);
             Extract(hash, child, bits, hashes, c1) == Decoded(hash, child, txids, mask, c1)
    ensures Extract(hash, One(child), bits, hashes, c) == Decoded(hash, One(child), txids, mask, c)
  {
    hide Build, Chosen, CalcHash;
    DecodedOne(hash, child, txids, mask, c);
  }

  lemma DecodedOne(hash: Combine, child: Node, txids: seq<Hash>, mask: seq<bool>, c: Cursor)
    requires |txids| == |mask| && Over(One(child), |txids|) && AnyBelow(One(child), mask)
    ensures var (left, c2) := Decoded(hash, child, txids, mask, c.(nBitsUsed := c.nBitsUsed + 1));
            Decoded(hash, One(child), txids, mask, c) == (hash(left, left), c2)
  {
    assert Chosen(One(child), txids, mask) == Chosen(child, txids, mask);
  }

  lemma OneAt(hash: Combine, child: Node, txids: seq<Hash>, mask: seq<bool>, bits: seq<bool>, hashes: seq<Hash>,
              c: Cursor)
    requires |txids| == |mask| && Over(One(child), |txids|) && AnyBelow(One(child), mask)
    requires At(bits, c.nBitsUsed, Build(hash, One(child), txids, mask).bits) &&
             At(hashes, c.nHashUsed, Build(hash, One(child), txids, mask).hashes)
    ensures c.nBitsUsed < |bits| && bits[c.nBitsUsed]
    ensures At(bits, c.nBitsUsed + 1, Build(hash, child, txids, mask).bits) &&
            At(hashes, c.nHashUsed, Build(hash, child, txids, mask).hashes)
  {
    AtBit(bits, c.nBitsUsed, true, Build(hash, child, txids, mask).bits);
  }

  lemma LeafAt(hash: Combine, t: Node, txids: seq<Hash>, mask: seq<bool>, bits: seq<bool>, hashes: seq<Hash>, c: Cursor)
    requires |txids| == |mask| && Over(t, |txids|) && (t.Leaf? || !AnyBelow(t, mask))
    requires At(bits, c.nBitsUsed, Build(hash, t, txids, mask).bits) &&
             At(hashes, c.nHashUsed, Build(hash, t, txids, mask).hashes)
    ensures At(bits, c.nBitsUsed, [AnyBelow(t, mask)]) && At(hashes, c.nHashUsed, [CalcHash(hash, t, txids)])
  {
    hide At;
  }

  /** Decoding what was encoded for a node, anywhere in the bits and hashes. */
  lemma {:induction false} ExtractBuild(hash: Combine, t: Node, txids: seq<Hash>, mask: seq<bool>, bits: seq<bool>,
                                        hashes: seq<Hash>, c: Cursor)
    requires |txids| == |mask| && Over(t, |txids|)
    requires At(bits, c.nBitsUsed, Build(hash, t, txids, mask).bits) &&
             At(hashes, c.nHashUsed, Build(hash, t, txids, mask).hashes)
    ensures Extract(hash, t, bits, hashes, c) == Decoded(hash, t, txids, mask, c)
  {
    hide Extract, Build, At, Chosen, CalcHash;
    if t.Leaf? || !AnyBelow(t, mask) {
      LeafAt(hash, t, txids, mask, bits, hashes, c);
      ExtractLeaf(hash, t, txids, mask, bits, hashes, c);
    } else {
      var c1 := c.(nBitsUsed := c.nBitsUsed + 1);
      match t
      case One(child) =>
        OneAt(hash, child, txids, mask, bits, hashes, c);
        ExtractBuild(hash, child, txids, mask, bits, hashes, c1);
        ExtractOne(hash, child, txids, mask, bits, hashes, c);
      case Two(l, r) =>
        TwoAt(hash, l, r, txids, mask, bits, hashes, c);
        ExtractBuild(hash, l, txids, mask, bits, hashes, c1);
        ExtractBuild(hash, r, txids, mask, bits, hashes, Decoded(hash, l, txids, mask, c1).1);
        ExtractTwo(hash, l, r, txids, mask, bits, hashes, c);
    }
  }

  /** At most one hash per leaf below, at least one, and a bit for each. */
  lemma {:induction false} BuildSizes(hash: Combine, t: Node, txids: seq<Hash>, mask: seq<bool>)
    requires |txids| == |mask| && Over(t, |txids|)
    ensures var e := Build(hash, t, txids, mask); 1 <= |e.hashes| <= |Below(t, txids)| && |e.hashes| <= |e.bits|
  {
    BelowSameLength(t, txids, mask);
    if !t.Leaf? && AnyBelow(t, mask) {
      match t
      case One(c) => BuildSizes(hash, c, txids, mask);
      case Two(l, r) =>
        BuildSizes(hash, l, txids, mask);
        BuildSizes(hash, r, txids, mask);
    }
  }

  /** Nodes with a single child that the encoding goes below. */
  function Singles(t: Node, mask: seq<bool>): nat
    requires Over(t, |mask|)
  {
    if t.Leaf? || !AnyBelow(t, mask) then 0
    else
      match t
      case One(c) => 1 + Singles(c, mask)
      case Two(l, r) => Singles(l, mask) + Singles(r, mask)
  }

  /** Two bits for every hash but the last, and one more for every such node. */
  lemma {:induction false} BitsOfHashes(hash: Combine, t: Node, txids: seq<Hash>, mask: seq<bool>)
    requires |txids| == |mask| && Over(t, |txids|)
    ensures var e := Build(hash, t, txids, mask); |e.bits| == 2 * |e.hashes| - 1 + Singles(t, mask)
  {
    if !t.Leaf? && AnyBelow(t, mask) {
      match t
      case One(c) => BitsOfHashes(hash, c, txids, mask);
      case Two(l, r) =>
        BitsOfHashes(hash, l, txids, mask);
        BitsOfHashes(hash, r, txids, mask);
    }
  }

  /** 1 + x * h, unfolded level by level. */
  function FewHashes(x: nat, h: nat): nat { if h == 0 then 1 else FewHashes(x, h - 1) + x }

  lemma {:induction false} FewHashesClosed(x: nat, h: nat)
    ensures FewHashes(x, h) == 1 + x * h
  {
    if h > 0 {
      FewHashesClosed(x, h - 1);
      assert x * h == x * (h - 1) + x;
    }
  }

  lemma {:induction false} FewHashesSum(x: nat, y: nat, h: nat)
    ensures FewHashes(x, h) + FewHashes(y, h) == FewHashes(x + y, h) + 1
  {
    if h > 0 { FewHashesSum(x, y, h - 1); }
  }

  lemma {:induction false} BuildFewHashes(hash: Combine, t: Node, txids: seq<Hash>, mask: seq<bool>, h: nat)
    requires |txids| == |mask| && Over(t, |txids|) && Uniform(t, h)
    ensures |Build(hash, t, txids, mask).hashes| <= FewHashes(|Chosen(t, txids, mask)|, h)
    decreases t
  {
    var chosen := |Chosen(t, txids, mask)|;
    ChosenNone(t, txids, mask);
    if !t.Leaf? && AnyBelow(t, mask) {
      match t
      case One(c) => BuildFewHashes(hash, c, txids, mask, h - 1);
      case Two(l, r) =>
        ChosenTwo(l, r, txids, mask);
        BuildFewHashes(hash, l, txids, mask, h - 1);
        BuildFewHashes(hash, r, txids, mask, h - 1);
        FewHashesSum(|Chosen(l, txids, mask)|, |Chosen(r, txids, mask)|, h - 1);
    } else {
      FewHashesClosed(chosen, h);
      MulMono(0, h, chosen);
    }
  }

  /** The whole partial tree. */
  function BuildRoot(hash: Combine, txids: seq<Hash>, mask: seq<bool>): Encoded
    requires |txids| == |mask| && txids != []
  {
    Build(hash, Tree(|txids|), txids, mask)
  }

  /** The documented bound: at most 1 + matched * height hashes. */
  lemma FewHashesStored(hash: Combine, txids: seq<Hash>, mask: seq<bool>)
    requires |txids| == |mask| && txids != []
    ensures |BuildRoot(hash, txids, mask).hashes| <= 1 + |Select(txids, mask)| * Height(|txids|, 0)
  {
    BelowRoot(txids);
    BelowRoot(mask);
    BuildFewHashes(hash, Tree(|txids|), txids, mask, Height(|txids|, 0));
    FewHashesClosed(|Select(txids, mask)|, Height(|txids|, 0));
  }

  /**
    The documented bound on the flag bits, twice the hashes less one, holds exactly if the
    encoding goes below no node with a single child.
   */
  lemma FewBitsStored(hash: Combine, txids: seq<Hash>, mask: seq<bool>)
    requires |txids| == |mask| && txids != []
    ensures var e := BuildRoot(hash, txids, mask);
            |e.bits| <= 2 * |e.hashes| - 1 <==> Singles(Tree(|txids|), mask) == 0
  {
    BitsOfHashes(hash, Tree(|txids|), txids, mask);
  }

  /** Three transactions, all chosen, need six bits and three hashes. */
  lemma ThreeNeedSix(hash: Combine, txids: seq<Hash>)
    requires |txids| == 3
    ensures var e := BuildRoot(hash, txids, [true, true, true]); |e.bits| == 6 && |e.hashes| == 3
  {
    var l, r := Two(Leaf(0), Leaf(1)), One(Leaf(2));
    var mask := [true, true, true];
    assert Width(3, 1) == 2 && Width(3, 2) == 1 && Height(3, 0) == 2;
    assert Shape(3, 1, 0) == l && Shape(3, 1, 1) == r && Tree(3) == Two(l, r);
    assert Below(l, mask)[0] && Below(r, mask)[0] && Below(Two(l, r), mask)[0];
    assert Build(hash, r, txids, mask) == Encoded([true, true], [txids[2]]);
    assert Build(hash, l, txids, mask) == Encoded([true, true, true], [txids[0], txids[1]]);
  }

  /**
    A partial tree built for any non-empty list and any mask passes every
    check of the decoder, padding bits included, and gives back the full
    tree's root and exactly the chosen txids in order.
   */
  lemma RoundTrip(hash: Combine, maxTx: nat, txids: seq<Hash>, mask: seq<bool>, bits: seq<bool>)
    requires |txids| == |mask| && 0 < |txids| <= maxTx
    requires BuildRoot(hash, txids, mask).bits <= bits
    requires (|bits| + 7) / 8 == (|BuildRoot(hash, txids, mask).bits| + 7) / 8
    ensures ExtractMatches(hash, maxTx, |txids|, bits, BuildRoot(hash, txids, mask).hashes, false) ==
            (Root(hash, txids), Select(txids, mask))
  {
    var t, e := Tree(|txids|), BuildRoot(hash, txids, mask);
    BuildSizes(hash, t, txids, mask);
    BelowRoot(txids);
    BelowRoot(mask);
    assert At(e.hashes, 0, e.hashes) && At(bits, 0, e.bits);
    ExtractBuild(hash, t, txids, mask, bits, e.hashes, START);
    assert [] + Select(txids, mask) == Select(txids, mask);
  }

  // ----- soundness -----

  /** A hash that cannot be produced from two different pairs. */
  ghost predicate Injective(hash: Combine) {
    forall a, b, c, d :: hash(a, b) == hash(c, d) ==> a == c && b == d
  }

  lemma {:induction false} BadStays(hash: Combine, t: Node, bits: seq<bool>, hashes: seq<Hash>, c: Cursor)
    requires c.fBad
    ensures Extract(hash, t, bits, hashes, c).1.fBad
  {
    var c1 := c.(nBitsUsed := c.nBitsUsed + 1);
    match t
    case Leaf(_) =>
    case One(child) => BadStays(hash, child, bits, hashes, c1);
    case Two(l, r) =>
      BadStays(hash, l, bits, hashes, c1);
      BadStays(hash, r, bits, hashes, Extract(hash, l, bits, hashes, c1).1);
  }

  /** What is read without running out of data is read the same with more data behind. */
  lemma {:induction false} ExtractPrefix(hash: Combine, t: Node, bits: seq<bool>, hashes: seq<Hash>, c: Cursor,
                                         moreBits: seq<bool>, more: seq<Hash>)
    requires !Extract(hash, t, bits, hashes, c).1.fBad
    ensures Extract(hash, t, bits + moreBits, hashes + more, c) == Extract(hash, t, bits, hashes, c)
  {
    var c1 := c.(nBitsUsed := c.nBitsUsed + 1);
    if !t.Leaf? && bits[c.nBitsUsed] {
      match t
      case One(child) => ExtractPrefix(hash, child, bits, hashes, c1, moreBits, more);
      case Two(l, r) =>
        var c2 := Extract(hash, l, bits, hashes, c1).1;
        if c2.fBad { BadStays(hash, r, bits, hashes, c2); }
        ExtractPrefix(hash, l, bits, hashes, c1, moreBits, more);
        ExtractPrefix(hash, r, bits, hashes, c2, moreBits, more);
    }
  }

  /**
    A message that is accepted has nothing left over: with one more hash, or with flags
    for one more byte, it is not, and so with one less it was not.
   */
  lemma NothingLeftOver(hash: Combine, maxTx: nat, n: nat, bits: seq<bool>, hashes: seq<Hash>, fBad: bool,
                        moreBits: seq<bool>, more: seq<Hash>)
    requires ExtractMatches(hash, maxTx, n, bits, hashes, fBad).0 != 0
    ensures !fBad && 0 < n <= maxTx && |hashes| <= n && |hashes| <= |bits|
    ensures more != [] || (|bits| + |moreBits| + 7) / 8 > (|bits| + 7) / 8 ==>
              ExtractMatches(hash, maxTx, n, bits + moreBits, hashes + more, fBad).0 == 0
  {
    var t, c := Tree(n), START.(fBad := fBad);
    if fBad { BadStays(hash, t, bits, hashes, c); }
    ExtractPrefix(hash, t, bits, hashes, c, moreBits, more);
  }

  /** The decoder ended well at a node with the node's true hash. */
  ghost predicate Ended(hash: Combine, t: Node, txids: seq<Hash>, bits: seq<bool>, hashes: seq<Hash>, c: Cursor)
    requires Over(t, |txids|)
  {
    !Extract(hash, t, bits, hashes, c).1.fBad && Extract(hash, t, bits, hashes, c).0 == CalcHash(hash, t, txids)
  }

  lemma EndedTwo(hash: Combine, l: Node, r: Node, txids: seq<Hash>, bits: seq<bool>, hashes: seq<Hash>, c: Cursor)
    requires Injective(hash) && Over(Two(l, r), |txids|) && Ended(hash, Two(l, r), txids, bits, hashes, c)
    requires c.nBitsUsed < |bits| && bits[c.nBitsUsed]
    ensures var c1 := c.(nBitsUsed := c.nBitsUsed + 1);
            Ended(hash, l, txids, bits, hashes, c1) &&
            Ended(hash, r, txids, bits, hashes, Extract(hash, l, bits, hashes, c1).1)
  {
    var c1 := c.(nBitsUsed := c.nBitsUsed + 1);
    var (left, c2) := Extract(hash, l, bits, hashes, c1);
    if c2.fBad { BadStays(hash, r, bits, hashes, c2); }
    var right := Extract(hash, r, bits, hashes, c2).0;
    assert hash(left, right) == hash(CalcHash(hash, l, txids), CalcHash(hash, r, txids));
  }

  lemma EndedOne(hash: Combine, child: Node, txids: seq<Hash>, bits: seq<bool>, hashes: seq<Hash>, c: Cursor)
    requires Injective(hash) && Over(One(child), |txids|) && Ended(hash, One(child), txids, bits, hashes, c)
    requires c.nBitsUsed < |bits| && bits[c.nBitsUsed]
    ensures Ended(hash, child, txids, bits, hashes, c.(nBitsUsed := c.nBitsUsed + 1))
  {
    var left := Extract(hash, child, bits, hashes, c.(nBitsUsed := c.nBitsUsed + 1)).0;
    var proper := CalcHash(hash, child, txids);
    assert hash(left, left) == hash(proper, proper);
  }

  /**
    Whatever bits and hashes the decoder is given: if it ends well at a node
    with the node's true hash, the matches it added are chosen from the leaves
    below the node, in order.
   */
  lemma {:induction false} ExtractSound(hash: Combine, t: Node, txids: seq<Hash>, bits: seq<bool>, hashes: seq<Hash>,
                                        c: Cursor)
    returns (mask: seq<bool>)
    requires Injective(hash) && Over(t, |txids|) && Ended(hash, t, txids, bits, hashes, c)
    ensures |mask| == |Below(t, txids)|
    ensures Extract(hash, t, bits, hashes, c).1.matches == c.matches + Select(Below(t, txids), mask)
  {
    var f := bits[c.nBitsUsed];
    var c1 := c.(nBitsUsed := c.nBitsUsed + 1);
    if t.Leaf? || !f {
      mask := SoundLeaf(hash, t, txids, bits, hashes, c);
    } else {
      match t
      case One(child) =>
        EndedOne(hash, child, txids, bits, hashes, c);
        mask := ExtractSound(hash, child, txids, bits, hashes, c1);
      case Two(l, r) =>
        EndedTwo(hash, l, r, txids, bits, hashes, c);
        var m := ExtractSound(hash, l, txids, bits, hashes, c1);
        var k := ExtractSound(hash, r, txids, bits, hashes, Extract(hash, l, bits, hashes, c1).1);
        SelectConcat(Below(l, txids), Below(r, txids), m, k);
        Associate(c.matches, Select(Below(l, txids), m), Select(Below(r, txids), k));
        mask := m + k;
    }
  }

  lemma Associate<T>(a: seq<T>, b: seq<T>, c: seq<T>)
    ensures a + (b + c) == a + b + c
  {
  }

  lemma SoundLeaf(hash: Combine, t: Node, txids: seq<Hash>, bits: seq<bool>, hashes: seq<Hash>, c: Cursor)
    returns (mask: seq<bool>)
    requires Over(t, |txids|) && Ended(hash, t, txids, bits, hashes, c)
    requires c.nBitsUsed < |bits| && (t.Leaf? || !bits[c.nBitsUsed])
    ensures |mask| == |Below(t, txids)|
    ensures Extract(hash, t, bits, hashes, c).1.matches == c.matches + Select(Below(t, txids), mask)
  {
    mask := seq(|Below(t, txids)|, _ => t.Leaf? && bits[c.nBitsUsed]);
    SelectNone(Below(t, txids), mask);
    if t.Leaf? {
      assert mask == [bits[c.nBitsUsed]];
      SelectOne(txids[t.index], bits[c.nBitsUsed]);
    }
    assert c.matches + [] == c.matches;
  }

  /**
    No bits and hashes whatever make the decoder report a transaction that is
    not in the block: if it returns the block's real root, the matches are the
    block's txids under some mask.
   */
  lemma Soundness(hash: Combine, maxTx: nat, txids: seq<Hash>, bits: seq<bool>, hashes: seq<Hash>, fBad: bool)
    returns (mask: seq<bool>)
    requires Injective(hash) && txids != [] && Root(hash, txids) != 0
    requires ExtractMatches(hash, maxTx, |txids|, bits, hashes, fBad).0 == Root(hash, txids)
    ensures |mask| == |txids| && ExtractMatches(hash, maxTx, |txids|, bits, hashes, fBad).1 == Select(txids, mask)
  {
    mask := ExtractSound(hash, Tree(|txids|), txids, bits, hashes, START.(fBad := fBad));
    BelowRoot(txids);
    assert [] + Select(txids, mask) == Select(txids, mask);
  }
}
