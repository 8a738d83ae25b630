/**
The rebuild of the unspent-output set: every block after genesis writes its outputs over whatever the
database held, and erases what it spends.
*/
module UtxoRebuild {
  datatype OutPoint = OutPoint(txid: int, n: nat)
  datatype TxOut = TxOut(value: int, script: seq<int>)
  datatype Tx = Tx(id: int, coinBase: bool, coinStake: bool, time: int, vin: seq<OutPoint>, vout: seq<TxOut>)
  datatype Block = Block(height: int, vtx: seq<Tx>)
  datatype Entry = Entry(value: int, height: int, script: seq<int>, coinBase: bool, coinStake: bool, time: int)

  type Db = map<OutPoint, Entry>

  /** A transaction with the height of its block. */
  datatype Placed = Placed(height: int, tx: Tx)

  datatype Slot = Absent | Present(entry: Entry)

  function Lookup(db: Db, p: OutPoint): Slot { if p in db then Present(db[p]) else Absent }

  predicate IsEmpty(o: TxOut) { o.value == 0 && o.script == [] }

  function EntryOf(t: Placed, n: nat): Entry
    requires n < |t.tx.vout|
  {
    var o := t.tx.vout[n];
    Entry(o.value, t.height, o.script, t.tx.coinBase, t.tx.coinStake, t.tx.time)
  }

  predicate Creates(t: Placed, p: OutPoint) {
    p.txid == t.tx.id && p.n < |t.tx.vout| && !IsEmpty(t.tx.vout[p.n])
  }

  predicate Spends(t: Placed, p: OutPoint) { !t.tx.coinBase && p in t.tx.vin }

  predicate Touches(t: Placed, p: OutPoint) { Creates(t, p) || Spends(t, p) }

  /** What one transaction does to one slot: it writes its outputs first and erases its inputs last. */
  function Applied(t: Placed, p: OutPoint, was: Slot): Slot {
    if Spends(t, p) then Absent
    else if Creates(t, p) then Present(EntryOf(t, p.n))
    else was
  }

  /** What a list of transactions does to one slot. */
  function Final(ts: seq<Placed>, p: OutPoint, was: Slot): Slot {
    if ts == [] then was else Applied(ts[|ts| - 1], p, Final(ts[..|ts| - 1], p, was))
  }

  /** All transactions after genesis, in the order of the loop. */
  function Placements(height: int, txs: seq<Tx>): seq<Placed> {
    if txs == [] then [] else Placements(height, txs[..|txs| - 1]) + [Placed(height, txs[|txs| - 1])]
  }

  function Flatten(chain: seq<Block>): seq<Placed> {
    if chain == [] then [] else
    var b := chain[|chain| - 1];
    Flatten(chain[..|chain| - 1]) + if b.height == 0 then [] else Placements(b.height, b.vtx)
  }

  // ---------------------------------------------------------------- the loop

  datatype Result = Done | ReadFailed(at: nat) | Interrupted(at: nat)

  class Rebuild {
    var db: Db

    constructor (db0: Db)
      ensures db == db0
    {
      db := db0;
    }

    method WriteOutputs(t: Placed)
      modifies this
      ensures forall p :: Lookup(db, p) == if Creates(t, p) then Present(EntryOf(t, p.n)) else Lookup(old(db), p)
    {
      var n := 0;
      while n < |t.tx.vout|
        invariant 0 <= n <= |t.tx.vout|
        invariant forall p :: Lookup(db, p)
                      == if Creates(t, p) && p.n < n then Present(EntryOf(t, p.n)) else Lookup(old(db), p)
      {
        if !IsEmpty(t.tx.vout[n]) {
          db := db[OutPoint(t.tx.id, n) := EntryOf(t, n)];
        }
        n := n + 1;
      }
    }

    method EraseInputs(t: Placed)
      modifies this
      ensures forall p :: Lookup(db, p) == if Spends(t, p) then Absent else Lookup(old(db), p)
    {
      if t.tx.coinBase {
        return;
      }
      var i := 0;
      while i < |t.tx.vin|
        invariant 0 <= i <= |t.tx.vin|
        invariant forall p :: Lookup(db, p) == if p in t.tx.vin[..i] then Absent else Lookup(old(db), p)
      {
        assert t.tx.vin[..i + 1] == t.tx.vin[..i] + [t.tx.vin[i]];
        db := db - {t.tx.vin[i]};
        i := i + 1;
      }
      assert t.tx.vin[..i] == t.tx.vin;
    }

    method ProcessTx(t: Placed)
      modifies this
      ensures forall p :: Lookup(db, p) == Applied(t, p, Lookup(old(db), p))
    {
      WriteOutputs(t);
      EraseInputs(t);
    }

    method ProcessBlock(b: Block)
      modifies this
      ensures forall p :: Lookup(db, p) == Final(Placements(b.height, b.vtx), p, Lookup(old(db), p))
    {
      var i := 0;
      assert b.vtx[..0] == [];
      while i < |b.vtx|
        invariant 0 <= i <= |b.vtx|
        invariant forall p :: Lookup(db, p) == Final(Placements(b.height, b.vtx[..i]), p, Lookup(old(db), p))
      {
        assert b.vtx[..i + 1][..i] == b.vtx[..i];
        ghost var was := db;
        var t := Placed(b.height, b.vtx[i]);
        ProcessTx(t);
        forall p ensures Lookup(db, p) == Final(Placements(b.height, b.vtx[..i + 1]), p, Lookup(old(db), p)) {
          FinalNext(Placements(b.height, b.vtx[..i]), t, p, Lookup(old(db), p));
        }
        i := i + 1;
      }
      assert b.vtx[..i] == b.vtx;
    }

    /** Over the blocks from genesis to the tip.  Genesis is not read; any other block that cannot be read ends it
        early, and so does a request to stop. */
    method Run(chain: seq<Block>, readable: nat -> bool, stop: nat -> bool) returns (r: Result)
      modifies this
      ensures
        var k := match r case Done => |chain| case ReadFailed(at) => at case Interrupted(at) => at;
        && k <= |chain|
        && Rebuilt(Flatten(chain[..k]), old(db), db)
        && (r.Done? <==>
              (forall i :: 0 <= i <= |chain| ==> !stop(i)) && forall i :: 0 <= i < |chain| ==> chain[i].height == 0 || readable(i))
        && (forall i :: 0 <= i < k ==> !stop(i) && (chain[i].height == 0 || readable(i)))
        && (r.Interrupted? ==> stop(k))
        && (r.ReadFailed? ==> k < |chain| && !stop(k) && chain[k].height != 0 && !readable(k))
    {
      var k := 0;
      assert chain[..0] == [];
      while k < |chain|
        invariant 0 <= k <= |chain|
        invariant Rebuilt(Flatten(chain[..k]), old(db), db)
        invariant forall i :: 0 <= i < k ==> !stop(i)
        invariant forall i :: 0 <= i < k ==> chain[i].height == 0 || readable(i)
      {
        if stop(k) {
          return Interrupted(k);
        }
        if chain[k].height != 0 && !readable(k) {
          return ReadFailed(k);
        }
        StepBlock(chain, k, old(db));
        k := k + 1;
      }
      assert chain[..k] == chain;
      if stop(k) {
        return Interrupted(k);
      }
      return Done;
    }

    method StepBlock(chain: seq<Block>, k: nat, ghost db0: Db)
      requires k < |chain| && Rebuilt(Flatten(chain[..k]), db0, db)
      modifies this
      ensures Rebuilt(Flatten(chain[..k + 1]), db0, db)
    {
      assert chain[..k + 1][..k] == chain[..k];
      var b := chain[k];
      if b.height == 0 {
        assert Flatten(chain[..k + 1]) == Flatten(chain[..k]);
        return;
      }
      ProcessBlock(b);
      forall p ensures Lookup(db, p) == Final(Flatten(chain[..k + 1]), p, Lookup(db0, p)) {
        FinalAppend(Flatten(chain[..k]), Placements(b.height, b.vtx), p, Lookup(db0, p));
      }
    }
  }

  lemma FinalNext(ts: seq<Placed>, t: Placed, p: OutPoint, was: Slot)
    ensures Final(ts + [t], p, was) == Applied(t, p, Final(ts, p, was))
  {
    assert (ts + [t])[..|ts|] == ts;
  }

  lemma {:induction false} FinalAppend(a: seq<Placed>, b: seq<Placed>, p: OutPoint, was: Slot)
    ensures Final(a + b, p, was) == Final(b, p, Final(a, p, was))
  {
    if b == [] {
      assert a + b == a;
    } else {
      var front, t := b[..|b| - 1], b[|b| - 1];
      FinalAppend(a, front, p, was);
      assert a + b == (a + front) + [t];
      FinalNext(a + front, t, p, was);
    }
  }

  // ---------------------------------------------------------------- any chain

  /** The last transaction that touches an outpoint decides its slot. */
  lemma {:induction false} LastTouchDecides(ts: seq<Placed>, p: OutPoint, was: Slot, k: nat)
    requires k < |ts| && Touches(ts[k], p) && forall j :: k < j < |ts| ==> !Touches(ts[j], p)
    ensures Final(ts, p, was) == if Spends(ts[k], p) then Absent else Present(EntryOf(ts[k], p.n))
  {
    if k < |ts| - 1 {
      LastTouchDecides(ts[..|ts| - 1], p, was, k);
    }
  }

  lemma {:induction false} UntouchedStays(ts: seq<Placed>, p: OutPoint, was: Slot)
    requires forall j :: 0 <= j < |ts| ==> !Touches(ts[j], p)
    ensures Final(ts, p, was) == was
  {
    if ts != [] {
      UntouchedStays(ts[..|ts| - 1], p, was);
    }
  }

  lemma {:induction false} LastTouch(ts: seq<Placed>, p: OutPoint) returns (k: int)
    ensures k < |ts| && (k < 0 ==> forall j :: 0 <= j < |ts| ==> !Touches(ts[j], p))
    ensures k >= 0 ==> Touches(ts[k], p) && forall j :: k < j < |ts| ==> !Touches(ts[j], p)
  {
    if ts == [] {
      k := -1;
    } else if Touches(ts[|ts| - 1], p) {
      k := |ts| - 1;
    } else {
      k := LastTouch(ts[..|ts| - 1], p);
    }
  }

  // ---------------------------------------------------------------- valid chains

  /** Identifiers are unique, and an input spends an earlier output that is not empty and not yet spent. */
  predicate ValidChain(ts: seq<Placed>) {
    && (forall i, j :: 0 <= i < j < |ts| ==> ts[i].tx.id != ts[j].tx.id)
    && (forall j, p :: 0 <= j < |ts| && p in ts[j].tx.vin && !ts[j].tx.coinBase ==>
          && (exists i :: 0 <= i < j && ts[i].tx.id == p.txid && p.n < |ts[i].tx.vout| && ts[i].tx.vout[p.n] != TxOut(0, []))
          && (forall i :: 0 <= i < j ==> ts[i].tx.coinBase || p !in ts[i].tx.vin))
  }

  ghost predicate Spent(ts: seq<Placed>, p: OutPoint) { exists j :: 0 <= j < |ts| && Spends(ts[j], p) }

  /** For an output that the chain creates: it is in the database, as the chain made it, if and only if
      it is never spent; what the database held before does not matter. */
  lemma {:induction false} CreatedIffUnspent(ts: seq<Placed>, p: OutPoint, was: Slot, i: nat)
    requires ValidChain(ts) && i < |ts| && Creates(ts[i], p)
    ensures Final(ts, p, was) == if Spent(ts, p) then Absent else Present(EntryOf(ts[i], p.n))
  {
    var k := LastTouch(ts, p);
    LastTouchDecides(ts, p, was, k);
    assert Creates(ts[k], p) ==> k == i;
    if Spent(ts, p) {
      var j :| 0 <= j < |ts| && Spends(ts[j], p);
      assert Touches(ts[j], p);
    }
  }

  ghost predicate Made(ts: seq<Placed>, p: OutPoint) { exists i :: 0 <= i < |ts| && Creates(ts[i], p) }

  /** The unspent outputs: those that some transaction creates and none spends, as they were created. */
  ghost predicate IsUtxoSet(ts: seq<Placed>, db: Db) {
    && (forall p :: p in db <==> Made(ts, p) && !Spent(ts, p))
    && (forall i, p :: 0 <= i < |ts| && Creates(ts[i], p) && p in db ==> db[p] == EntryOf(ts[i], p.n))
  }

  lemma SpentIsMade(ts: seq<Placed>, p: OutPoint)
    requires ValidChain(ts)
    ensures forall j :: 0 <= j < |ts| && Spends(ts[j], p) ==> Made(ts, p)
  {
    forall j | 0 <= j < |ts| && Spends(ts[j], p) ensures Made(ts, p) {
      var i :| 0 <= i < j && Creates(ts[i], p);
    }
  }

  lemma NotMadeNotTouched(ts: seq<Placed>, p: OutPoint)
    requires ValidChain(ts) && !Made(ts, p)
    ensures forall j :: 0 <= j < |ts| ==> !Touches(ts[j], p)
  {
    SpentIsMade(ts, p);
  }

  /** The entry of an output that some transaction makes and no input names: the six fields that are kept. */
  ghost predicate IsUnspent(ts: seq<Placed>, p: OutPoint, e: Entry) {
    && (exists i :: 0 <= i < |ts| && ts[i].tx.id == p.txid && p.n < |ts[i].tx.vout|
                    && var o := ts[i].tx.vout[p.n];
                       && (o.value != 0 || o.script != [])
                       && e.value == o.value && e.script == o.script && e.height == ts[i].height
                       && e.coinBase == ts[i].tx.coinBase && e.coinStake == ts[i].tx.coinStake && e.time == ts[i].tx.time)
    && (forall j :: 0 <= j < |ts| && !ts[j].tx.coinBase ==> p !in ts[j].tx.vin)
  }

  /** What the rebuild makes of a database. */
  ghost predicate Rebuilt(ts: seq<Placed>, db0: Db, db: Db) {
    forall p :: Lookup(db, p) == Final(ts, p, Lookup(db0, p))
  }

  lemma MadeSlot(ts: seq<Placed>, db0: Db, db: Db, p: OutPoint)
    requires ValidChain(ts) && Rebuilt(ts, db0, db) && Made(ts, p)
    ensures p in db <==> !Spent(ts, p)
    ensures forall i :: 0 <= i < |ts| && Creates(ts[i], p) && p in db ==> db[p] == EntryOf(ts[i], p.n)
  {
    assert Lookup(db, p) == Final(ts, p, Lookup(db0, p));
    forall i | 0 <= i < |ts| && Creates(ts[i], p)
      ensures Lookup(db, p) == if Spent(ts, p) then Absent else Present(EntryOf(ts[i], p.n))
    {
      CreatedIffUnspent(ts, p, Lookup(db0, p), i);
    }
  }

  lemma OtherSlot(ts: seq<Placed>, db0: Db, db: Db, p: OutPoint)
    requires ValidChain(ts) && Rebuilt(ts, db0, db) && !Made(ts, p)
    ensures p in db <==> p in db0
  {
    NotMadeNotTouched(ts, p);
    UntouchedStays(ts, p, Lookup(db0, p));
    assert Lookup(db, p) == Lookup(db0, p);
  }

  /** The database ends up as exactly the unspent outputs of the chain if and only if every entry it held
      before belongs to an outpoint that the chain creates. */
  lemma {:induction false} RebuildIsExact(ts: seq<Placed>, db0: Db, db: Db)
    requires ValidChain(ts) && Rebuilt(ts, db0, db)
    ensures IsUtxoSet(ts, db) <==> forall p <- db0 :: Made(ts, p)
  {
    if forall p <- db0 :: Made(ts, p) {
      forall p ensures p in db <==> Made(ts, p) && !Spent(ts, p) {
        if Made(ts, p) {
          MadeSlot(ts, db0, db, p);
        } else {
          OtherSlot(ts, db0, db, p);
        }
      }
      forall i, p | 0 <= i < |ts| && Creates(ts[i], p) && p in db ensures db[p] == EntryOf(ts[i], p.n) {
        MadeSlot(ts, db0, db, p);
      }
    }
    if IsUtxoSet(ts, db) {
      forall p | p in db0 ensures Made(ts, p) {
        if !Made(ts, p) {
          OtherSlot(ts, db0, db, p);
        }
      }
    }
  }

  /** No input of the chain is left, coinstakes included; only the inputs of a coinbase are passed over. */
  lemma SpentIsGone(ts: seq<Placed>, db0: Db, db: Db, j: nat, p: OutPoint)
    requires ValidChain(ts) && Rebuilt(ts, db0, db)
    requires j < |ts| && !ts[j].tx.coinBase && p in ts[j].tx.vin
    ensures p !in db
  {
    assert Spends(ts[j], p);
    SpentIsMade(ts, p);
    MadeSlot(ts, db0, db, p);
  }

  lemma UnspentIs(ts: seq<Placed>, p: OutPoint, e: Entry)
    ensures IsUnspent(ts, p, e) <==>
              !Spent(ts, p) && exists i :: 0 <= i < |ts| && Creates(ts[i], p) && e == EntryOf(ts[i], p.n)
  {
    if IsUnspent(ts, p, e) {
      var i :| 0 <= i < |ts| && ts[i].tx.id == p.txid && p.n < |ts[i].tx.vout|
        && (ts[i].tx.vout[p.n].value != 0 || ts[i].tx.vout[p.n].script != [])
        && e.value == ts[i].tx.vout[p.n].value && e.script == ts[i].tx.vout[p.n].script && e.height == ts[i].height
        && e.coinBase == ts[i].tx.coinBase && e.coinStake == ts[i].tx.coinStake && e.time == ts[i].tx.time;
      assert Creates(ts[i], p) && e == EntryOf(ts[i], p.n);
    }
    if !Spent(ts, p) {
      forall j | 0 <= j < |ts| && !ts[j].tx.coinBase ensures p !in ts[j].tx.vin {
        assert !Spends(ts[j], p);
      }
    }
  }

  /** Some transaction of the chain has this output, and it is not empty. */
  ghost predicate HasOutput(ts: seq<Placed>, p: OutPoint) {
    exists i :: 0 <= i < |ts| && ts[i].tx.id == p.txid && p.n < |ts[i].tx.vout| && ts[i].tx.vout[p.n] != TxOut(0, [])
  }

  ghost predicate HoldsExactly(ts: seq<Placed>, db: Db) {
    forall p, e :: p in db && db[p] == e <==> IsUnspent(ts, p, e)
  }

  /** The database holds the unspent outputs of the chain with their six fields, and nothing else, if and only if
      each entry it held before stands for an output of some transaction of the chain. */
  lemma {:induction false} RebuiltIsUnspent(ts: seq<Placed>, db0: Db, db: Db)
    requires ValidChain(ts) && Rebuilt(ts, db0, db)
    ensures HoldsExactly(ts, db) <==> forall p <- db0 :: HasOutput(ts, p)
  {
    RebuildIsExact(ts, db0, db);
    forall p ensures Made(ts, p) <==> HasOutput(ts, p) {
      MadeBy(ts, p);
    }
    ExactlySet(ts, db);
  }

  lemma ExactlySet(ts: seq<Placed>, db: Db)
    requires ValidChain(ts)
    ensures HoldsExactly(ts, db) <==> IsUtxoSet(ts, db)
  {
    if IsUtxoSet(ts, db) {
      forall p, e ensures p in db && db[p] == e <==> IsUnspent(ts, p, e) {
        HoldsUnspent(ts, db, p, e);
      }
    }
    if HoldsExactly(ts, db) {
      UnspentIsSet(ts, db);
    }
  }

  lemma MadeBy(ts: seq<Placed>, p: OutPoint)
    ensures Made(ts, p) <==> HasOutput(ts, p)
  {
    forall i | 0 <= i < |ts| && ts[i].tx.id == p.txid && p.n < |ts[i].tx.vout|
      ensures Creates(ts[i], p) <==> ts[i].tx.vout[p.n] != TxOut(0, [])
    {
    }
  }

  lemma HoldsUnspent(ts: seq<Placed>, db: Db, p: OutPoint, e: Entry)
    requires IsUtxoSet(ts, db)
    ensures p in db && db[p] == e <==> IsUnspent(ts, p, e)
  {
    UnspentIs(ts, p, e);
  }

  lemma UnspentIsSet(ts: seq<Placed>, db: Db)
    requires ValidChain(ts) && HoldsExactly(ts, db)
    ensures IsUtxoSet(ts, db)
  {
    forall p ensures p in db <==> Made(ts, p) && !Spent(ts, p) {
      HeldIsUnspent(ts, db, p);
    }
    forall i, p | 0 <= i < |ts| && Creates(ts[i], p) && p in db ensures db[p] == EntryOf(ts[i], p.n) {
      UnspentIs(ts, p, db[p]);
    }
  }

  lemma HeldIsUnspent(ts: seq<Placed>, db: Db, p: OutPoint)
    requires HoldsExactly(ts, db)
    ensures p in db <==> Made(ts, p) && !Spent(ts, p)
  {
    if p in db {
      UnspentIs(ts, p, db[p]);
    }
    if Made(ts, p) && !Spent(ts, p) {
      var i :| 0 <= i < |ts| && Creates(ts[i], p);
      UnspentIs(ts, p, EntryOf(ts[i], p.n));
    }
  }

  /** On any chain: what the last transaction does that makes or names an outpoint.  An input wins over an output
      of the same transaction. */
  lemma LastUseDecides(ts: seq<Placed>, p: OutPoint, db0: Db, db: Db, k: nat)
    requires Rebuilt(ts, db0, db) && k < |ts|
    requires forall j :: k < j < |ts| ==>
               && (ts[j].tx.coinBase || p !in ts[j].tx.vin)
               && (ts[j].tx.id != p.txid || p.n >= |ts[j].tx.vout| || ts[j].tx.vout[p.n] == TxOut(0, []))
    ensures !ts[k].tx.coinBase && p in ts[k].tx.vin ==> p !in db
    ensures
      var t := ts[k];
      (t.tx.coinBase || p !in t.tx.vin) && t.tx.id == p.txid && p.n < |t.tx.vout| && t.tx.vout[p.n] != TxOut(0, []) ==>
        p in db && db[p] == Entry(t.tx.vout[p.n].value, t.height, t.tx.vout[p.n].script, t.tx.coinBase, t.tx.coinStake, t.tx.time)
  {
    assert forall j :: k < j < |ts| ==> !Touches(ts[j], p);
    assert Lookup(db, p) == Final(ts, p, Lookup(db0, p));
    if Touches(ts[k], p) {
      LastTouchDecides(ts, p, Lookup(db0, p), k);
    }
  }

  lemma {:induction false} PlacementAt(height: int, txs: seq<Tx>, i: nat)
    requires i < |txs|
    ensures |Placements(height, txs)| == |txs| && Placements(height, txs)[i] == Placed(height, txs[i])
  {
    var last := |txs| - 1;
    if i < last {
      PlacementAt(height, txs[..last], i);
    } else if last > 0 {
      PlacementAt(height, txs[..last], 0);
    }
  }

  lemma {:induction false} FlattenPrefix(chain: seq<Block>, k: nat)
    requires k <= |chain|
    ensures Flatten(chain[..k]) <= Flatten(chain)
  {
    if k == |chain| {
      assert chain[..k] == chain;
    } else {
      FlattenPrefix(chain[..|chain| - 1], k);
      assert chain[..|chain| - 1][..k] == chain[..k];
    }
  }

  /** The order of the rebuild: block after block and transaction after transaction, each with the height of its
      block; only a block at height zero is left out. */
  lemma {:induction false} EveryTransactionPlaced(chain: seq<Block>, k: nat, i: nat)
    requires k < |chain| && i < |chain[k].vtx|
    ensures
      var at, next := |Flatten(chain[..k])|, |Flatten(chain[..k + 1])|;
      if chain[k].height == 0 then next == at
      else next == at + |chain[k].vtx| <= |Flatten(chain)| && Flatten(chain)[at + i] == Placed(chain[k].height, chain[k].vtx[i])
  {
    assert chain[..k + 1][..k] == chain[..k];
    FlattenPrefix(chain, k + 1);
    PlacementAt(chain[k].height, chain[k].vtx, i);
    if chain[k].height != 0 {
      var at := |Flatten(chain[..k])|;
      assert Flatten(chain[..k + 1])[at + i] == Placements(chain[k].height, chain[k].vtx)[i];
    }
  }

  /** A chain of one transaction, and a database that holds an output the chain knows nothing of: the stale
      entry survives the rebuild. */
  lemma StaleEntryStays(stale: Entry) returns (ts: seq<Placed>, db0: Db, db: Db)
    ensures ts == [Placed(1, Tx(1, true, false, 7, [], [TxOut(50, [1])]))] && db0 == map[OutPoint(2, 0) := stale]
    ensures ValidChain(ts) && Rebuilt(ts, db0, db)
    ensures OutPoint(2, 0) in db && !IsUtxoSet(ts, db)
  {
    var t := Placed(1, Tx(1, true, false, 7, [], [TxOut(50, [1])]));
    ts, db0 := [t], map[OutPoint(2, 0) := stale];
    db := db0[OutPoint(1, 0) := EntryOf(t, 0)];
    forall p ensures Lookup(db, p) == Final(ts, p, Lookup(db0, p)) {
      assert ts[..0] == [];
      assert Final(ts, p, Lookup(db0, p)) == Applied(t, p, Lookup(db0, p));
    }
    assert !Made(ts, OutPoint(2, 0));
  }
}
