/**
  CPartialMerkleTree: the object that builds, serializes and decodes partial
  Merkle trees, tied method by method to the values of MerkleTree.
 */
module PartialMerkleTree {
  import opened Bits
  import opened MerkleTree
  import opened Util

  lemma Regroup<T>(a: seq<T>, b: seq<T>, c: seq<T>, d: seq<T>)
    ensures a + b + c + d == a + (b + c + d)
    ensures a + b + c == a + (b + c)
    ensures b == [] ==> a + b + c + d == a + c + d == a + (c + d)
  {
  }

  /** The serialized form; flag bits are packed eight to a byte. */
  datatype Wire = Wire(nTransactions: nat, vHash: seq<Hash>, vBytes: seq<bv8>)

  class CPartialMerkleTree {
    const hash: Combine
    const maxTx: nat        // MAX_BLOCK_SIZE_CURRENT / 60
    var nTransactions: nat
    var vBits: seq<bool>
    var vHash: seq<Hash>
    var fBad: bool

    function CalcTreeWidth(height: nat): (w: nat)
      reads this
      ensures w == Width(nTransactions, height)
    {
      WidthClosed(nTransactions, height);
      (nTransactions + Pow2(height) - 1) / Pow2(height)
    }

    method TreeHeight() returns (nHeight: nat)
      ensures nHeight == Height(nTransactions, 0)
    {
      nHeight := 0;
      while CalcTreeWidth(nHeight) > 1
        invariant Height(nTransactions, 0) == Height(nTransactions, nHeight)
        decreases Width(nTransactions, nHeight)
      {
        nHeight := nHeight + 1;
      }
    }

    method HashOf(height: nat, pos: nat, vTxid: seq<Hash>) returns (r: Hash)
      requires nTransactions == |vTxid| && pos < Width(|vTxid|, height)
      ensures Over(Shape(|vTxid|, height, pos), |vTxid|) && r == CalcHash(hash, Shape(|vTxid|, height, pos), vTxid)
      decreases height
    {
      if height == 0 { return vTxid[pos]; }
      var left := HashOf(height - 1, 2 * pos, vTxid);
      var right := left;
      if 2 * pos + 1 < CalcTreeWidth(height - 1) { right := HashOf(height - 1, 2 * pos + 1, vTxid); }
      r := hash(left, right);
    }

    method ParentOfMatch(height: nat, pos: nat, vMatch: seq<bool>) returns (f: bool)
      requires nTransactions == |vMatch| && pos < Width(|vMatch|, height)
      ensures Over(Shape(|vMatch|, height, pos), |vMatch|) && f == AnyBelow(Shape(|vMatch|, height, pos), vMatch)
    {
      f := false;
      BelowRange(vMatch, height, pos);
      var p := pos * Pow2(height);
      ghost var lo := First(nTransactions, height, pos);
      NodeExists(nTransactions, height, pos);
      while p < (pos + 1) * Pow2(height) && p < nTransactions
        invariant lo <= p <= First(nTransactions, height, pos + 1)
        invariant f == (true in vMatch[lo..p])
      {
        assert vMatch[lo..p + 1] == vMatch[lo..p] + [vMatch[p]];
        f := f || vMatch[p];
        p := p + 1;
      }
    }

    method TraverseAndBuild(height: nat, pos: nat, vTxid: seq<Hash>, vMatch: seq<bool>)
      requires nTransactions == |vTxid| == |vMatch| && pos < Width(|vTxid|, height)
      modifies this`vBits, this`vHash
      ensures Over(Shape(|vTxid|, height, pos), |vTxid|)
      ensures var e := Build(hash, Shape(|vTxid|, height, pos), vTxid, vMatch);
              vBits == old(vBits) + e.bits && vHash == old(vHash) + e.hashes
      decreases height
    {
      hide CalcHash, AnyBelow;
      ShapeOver(nTransactions, height, pos);
      var fParentOfMatch := ParentOfMatch(height, pos, vMatch);
      vBits := vBits + [fParentOfMatch];
      if height == 0 || !fParentOfMatch {
        var h := HashOf(height, pos, vTxid);
        vHash := vHash + [h];
      } else {
        TraverseAndBuild(height - 1, 2 * pos, vTxid, vMatch);
        ghost var left := Build(hash, Shape(|vTxid|, height - 1, 2 * pos), vTxid, vMatch);
        ghost var right := Encoded([], []);
        if 2 * pos + 1 < CalcTreeWidth(height - 1) {
          TraverseAndBuild(height - 1, 2 * pos + 1, vTxid, vMatch);
          right := Build(hash, Shape(|vTxid|, height - 1, 2 * pos + 1), vTxid, vMatch);
        }
        Regroup(old(vBits), [true], left.bits, right.bits);
        Regroup(old(vHash), [], left.hashes, right.hashes);
      }
    }

    /** Builds the partial tree of a non-empty transaction list. */
    constructor (hash0: Combine, maxTx0: nat, vTxid: seq<Hash>, vMatch: seq<bool>)
      requires |vTxid| == |vMatch| && vTxid != []
      ensures hash == hash0 && maxTx == maxTx0 && nTransactions == |vTxid| && !fBad
      ensures vBits == BuildRoot(hash0, vTxid, vMatch).bits && vHash == BuildRoot(hash0, vTxid, vMatch).hashes
    {
      hash, maxTx := hash0, maxTx0;
      nTransactions, fBad, vBits, vHash := |vTxid|, false, [], [];
      new;
      var nHeight := TreeHeight();
      RootExists(nTransactions, 0);
      TraverseAndBuild(nHeight, 0, vTxid, vMatch);
    }

    constructor Empty(hash0: Combine, maxTx0: nat)
      ensures hash == hash0 && maxTx == maxTx0 && nTransactions == 0 && fBad && vBits == [] && vHash == []
    {
      hash, maxTx := hash0, maxTx0;
      nTransactions, fBad, vBits, vHash := 0, true, [], [];
    }

    method TraverseAndExtract(height: nat, pos: nat, nBitsIn: nat, nHashIn: nat, vMatchIn: seq<Hash>)
      returns (r: Hash, nBitsUsed: nat, nHashUsed: nat, vMatch: seq<Hash>)
      requires pos < Width(nTransactions, height)
      modifies this`fBad
      ensures (r, Cursor(nBitsUsed, nHashUsed, fBad, vMatch)) ==
              Extract(hash, Shape(nTransactions, height, pos), vBits, vHash,
                  Cursor(nBitsIn, nHashIn, old(fBad), vMatchIn))
      decreases height
    {
      nBitsUsed, nHashUsed, vMatch := nBitsIn, nHashIn, vMatchIn;
      if nBitsUsed >= |vBits| {
        fBad := true;
        return 0, nBitsUsed, nHashUsed, vMatch;
      }
      var fParentOfMatch := vBits[nBitsUsed];
      nBitsUsed := nBitsUsed + 1;
      if height == 0 || !fParentOfMatch {
        if nHashUsed >= |vHash| {
          fBad := true;
          return 0, nBitsUsed, nHashUsed, vMatch;
        }
        r := vHash[nHashUsed];
        nHashUsed := nHashUsed + 1;
        if height == 0 && fParentOfMatch { vMatch := vMatch + [r]; }
      } else {
        var left, right;
        left, nBitsUsed, nHashUsed, vMatch := TraverseAndExtract(height - 1, 2 * pos, nBitsUsed, nHashUsed, vMatch);
        if 2 * pos + 1 < CalcTreeWidth(height - 1) {
          right, nBitsUsed, nHashUsed, vMatch :=
              TraverseAndExtract(height - 1, 2 * pos + 1, nBitsUsed, nHashUsed, vMatch);
        } else {
          right := left;
        }
        r := hash(left, right);
      }
    }

    method ExtractMatches() returns (root: Hash, vMatch: seq<Hash>)
      modifies this`fBad
      ensures (root, vMatch) == MerkleTree.ExtractMatches(hash, maxTx, nTransactions, vBits, vHash, old(fBad))
    {
      vMatch := [];
      if nTransactions == 0 { return 0, vMatch; }
      if nTransactions > maxTx { return 0, vMatch; }
      if |vHash| > nTransactions { return 0, vMatch; }
      if |vBits| < |vHash| { return 0, vMatch; }
      var nHeight := TreeHeight();
      RootExists(nTransactions, 0);
      var hashMerkleRoot, nBitsUsed, nHashUsed;
      hashMerkleRoot, nBitsUsed, nHashUsed, vMatch := TraverseAndExtract(nHeight, 0, 0, 0, vMatch);
      if fBad { return 0, vMatch; }
      if (nBitsUsed + 7) / 8 != (|vBits| + 7) / 8 { return 0, vMatch; }
      if nHashUsed != |vHash| { return 0, vMatch; }
      root := hashMerkleRoot;
    }

    method Serialize() returns (w: Wire)
      ensures w == Wire(nTransactions, vHash, PackAll(vBits))
    {
      var vBytes := PackBits(vBits);
      w := Wire(nTransactions, vHash, vBytes);
    }

    method Unserialize(w: Wire)
      modifies this
      ensures nTransactions == w.nTransactions && vHash == w.vHash && vBits == UnpackAll(w.vBytes) && !fBad
    {
      nTransactions, vHash := w.nTransactions, w.vHash;
      vBits := UnpackBits(w.vBytes);
      fBad := false;
    }
  }

  /** Building, packing, unpacking and extracting gives the root and the chosen txids back. */
  lemma WireRoundTrip(hash: Combine, maxTx: nat, txids: seq<Hash>, mask: seq<bool>)
    requires |txids| == |mask| && 0 < |txids| <= maxTx
    ensures var e := BuildRoot(hash, txids, mask);
            MerkleTree.ExtractMatches(hash, maxTx, |txids|, UnpackAll(PackAll(e.bits)), e.hashes, false)
            == (Root(hash, txids), Select(txids, mask))
  {
    var bits := BuildRoot(hash, txids, mask).bits;
    var wire := UnpackAll(PackAll(bits));
    UnpackAllPackAll(bits);
    forall i | 0 <= i < |bits| ensures wire[i] == bits[i] { assert Flag(wire, i) == Flag(bits, i); }
    assert bits <= wire;
    RoundTrip(hash, maxTx, txids, mask, wire);
  }
}
