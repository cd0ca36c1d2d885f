/**
  Unspent outputs of one transaction (CCoins): clean-up, spending, and the
  compact serialization with its availability bitmask.
 */
module Coins {
  type TxId = nat
  type Script = seq<nat>

  /** nRounds is a memory-only annotation: it takes part in equality but is never written. */
  datatype TxOut = TxOut(nValue: int, scriptPubKey: Script, nRounds: int) {
    predicate IsNull() { nValue == -1 }
  }

  const NULL_OUT := TxOut(-1, [], -10)

  datatype Coins = Coins(fCoinBase: bool, fCoinStake: bool, vout: seq<TxOut>, nHeight: nat, nVersion: int) {
    predicate IsPruned() { forall i | 0 <= i < |vout| :: vout[i].IsNull() }

    /** No spent output at the end of the list. */
    predicate IsClean() { vout == [] || !vout[|vout| - 1].IsNull() }

    /** Output i exists and is not spent. */
    predicate Unspent(i: nat) { i < |vout| && !vout[i].IsNull() }
  }

  const EMPTY_COINS := Coins(false, false, [], 0, 0)

  // ----- clean-up -----

  function DropNullTail(vout: seq<TxOut>): (r: seq<TxOut>)
    ensures r <= vout
    ensures r == [] || !r[|r| - 1].IsNull()
    ensures forall i | |r| <= i < |vout| :: vout[i].IsNull()
  {
    if vout != [] && vout[|vout| - 1].IsNull() then DropNullTail(vout[..|vout| - 1]) else vout
  }

  function Cleaned(c: Coins): (r: Coins)
    ensures r.IsClean()
    ensures r.IsPruned() == c.IsPruned() == (r.vout == [])
    ensures forall i: nat :: r.Unspent(i) == c.Unspent(i)
    ensures r.vout <= c.vout
    ensures c.IsClean() ==> r == c
  {
    c.(vout := DropNullTail(c.vout))
  }

  method Cleanup(c: Coins) returns (r: Coins)
    ensures r == Cleaned(c)
  {
    r := c;
    while |r.vout| > 0 && r.vout[|r.vout| - 1].IsNull()
      invariant DropNullTail(r.vout) == DropNullTail(c.vout)
      invariant r == c.(vout := r.vout)
      decreases |r.vout|
    {
      r := r.(vout := r.vout[..|r.vout| - 1]);
    }
  }

  // ----- spending -----

  datatype TxInUndo = TxInUndo(txout: TxOut, fCoinBase: bool, fCoinStake: bool, nHeight: nat, nVersion: int)

  /**
    Spending takes exactly one unspent output away and hands it to the undo
    record; the undo record carries the metadata exactly when nothing is left.
   */
  method Spend(c: Coins, n: nat) returns (ok: bool, r: Coins, undo: TxInUndo)
    ensures ok == c.Unspent(n)
    ensures !ok ==> r == c
    ensures ok ==> r.IsClean() && undo.txout == c.vout[n]
    ensures ok ==> forall i: nat :: r.Unspent(i) == (c.Unspent(i) && i != n)
    ensures ok ==> |r.vout| <= |c.vout| && forall i | 0 <= i < |r.vout| && i != n :: r.vout[i] == c.vout[i]
    ensures ok && n < |r.vout| ==> r.vout[n] == TxOut(-1, [], -10)
    ensures ok ==> r == c.(vout := r.vout)
    ensures ok && r.vout == [] ==>
              (undo.fCoinBase, undo.fCoinStake, undo.nHeight, undo.nVersion) ==
                  (c.fCoinBase, c.fCoinStake, c.nHeight, c.nVersion)
    ensures ok && r.vout != [] ==>
              (undo.fCoinBase, undo.fCoinStake, undo.nHeight, undo.nVersion) == (false, false, 0, 0)
  {
    undo := TxInUndo(NULL_OUT, false, false, 0, 0);
    if n >= |c.vout| { return false, c, undo; }
    if c.vout[n].IsNull() { return false, c, undo; }
    undo := undo.(txout := c.vout[n]);
    var marked := c.(vout := c.vout[n := NULL_OUT]);
    assert forall i: nat :: marked.Unspent(i) == (c.Unspent(i) && i != n);
    r := Cleanup(marked);
    if |r.vout| == 0 {
      undo := undo.(fCoinBase := c.fCoinBase, fCoinStake := c.fCoinStake, nHeight := c.nHeight, nVersion := c.nVersion);
    }
    ok := true;
  }
}
