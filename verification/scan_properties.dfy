/** What scanning a block does to the commitment tree, to the witnesses and to the
    wallet's view of each transaction. */
module ScanProperties {
  import opened Common
  import opened WeldingRig

  // ---------------------------------------------------------------------------
  // Witness bookkeeping

  lemma AdvancedTwice<C>(w2: Witness<C>, w1: Witness<C>, w0: Witness<C>, l1: seq<C>, l2: seq<C>)
    requires Advanced(w1, w0, l1) && Advanced(w2, w1, l2)
    ensures Advanced(w2, w0, l1 + l2)
  {
    assert w2.filled == w0.filled + l1 + l2;
  }

  lemma AllAdvancedTwice<C>(ws2: seq<Witness<C>>, ws1: seq<Witness<C>>, ws0: seq<Witness<C>>, l1: seq<C>, l2: seq<C>)
    requires AllAdvanced(ws1, ws0, l1) && AllAdvanced(ws2, ws1, l2)
    ensures AllAdvanced(ws2, ws0, l1 + l2)
  {
    forall j | 0 <= j < |ws2|
      ensures Advanced(ws2[j], ws0[j], l1 + l2)
    {
      AdvancedTwice(ws2[j], ws1[j], ws0[j], l1, l2);
    }
  }

  /** A witness in step with the tree stays in step when both receive the same leaves. */
  lemma AdvancedInSync<C>(ws: seq<Witness<C>>, ws0: seq<Witness<C>>, t0: Tree<C>, leaves: seq<C>)
    requires AllInSync(ws0, t0) && AllAdvanced(ws, ws0, leaves)
    ensures AllInSync(ws, Tree(t0.leaves + leaves))
  {
    forall j | 0 <= j < |ws|
      ensures InSync(ws[j], Tree(t0.leaves + leaves))
    {
      assert ws[j].snapshot + ws[j].filled == ws0[j].snapshot + ws0[j].filled + leaves;
    }
  }

  // ---------------------------------------------------------------------------
  // One output

  /** The leaf a single output contributes. */
  function LeafOf<K, C, E, N>(p: ScanPrimitives<K, C, E, N>, o: CompactOutput): seq<C> {
    if WellFormed(p, o) then [p.parseCmu(o.cmu).value] else []
  }

  /** Scanning one output keeps every witness it touches in step with the tree, and
      the witness it creates starts in step. */
  lemma ScanOutputKeepsSync<K, C, E, N>(
    p: ScanPrimitives<K, C, E, N>, index: nat, output: CompactOutput, ivks: seq<K>,
    spentFrom: set<nat>, tree: Tree<C>, existing: seq<Witness<C>>, newWitnesses: seq<Witness<C>>)
    requires AllInSync(existing, tree) && AllInSync(newWitnesses, tree)
    ensures var r: OutputScan<C, E, N> := ScanOutput(p, index, output, ivks, spentFrom, tree, existing, newWitnesses);
      && AllInSync(r.existing, r.tree)
      && AllInSync(r.newWitnesses, r.tree)
      && (r.found.Some? ==> InSync(r.found.value.1, r.tree))
  {
    var r: OutputScan<C, E, N> := ScanOutput(p, index, output, ivks, spentFrom, tree, existing, newWitnesses);
    if WellFormed(p, output) {
      AdvancedInSync(r.existing, existing, tree, LeafOf(p, output));
      AdvancedInSync(r.newWitnesses, newWitnesses, tree, LeafOf(p, output));
    }
  }

  // ---------------------------------------------------------------------------
  // The output loop of one transaction

  lemma LeavesUnfold<K, C, E, N>(p: ScanPrimitives<K, C, E, N>, outs: seq<CompactOutput>, i: nat)
    requires i < |outs|
    ensures Leaves(p, outs, i) == LeafOf(p, outs[i]) + Leaves(p, outs, i + 1)
  {
  }

  /** The step's effect on the tree and on the witnesses it was given. */
  lemma StepAdvances<K, C, E, N>(
    p: ScanPrimitives<K, C, E, N>, ivks: seq<K>, spentFrom: set<nat>, outs: seq<CompactOutput>,
    i: nat, acc: OutputsScan<C, E, N>)
    requires i < |outs|
    ensures var r := ScanOutputsStep(p, ivks, spentFrom, outs, i, acc);
      && r.tree.leaves == acc.tree.leaves + LeafOf(p, outs[i])
      && AllAdvanced(r.existing, acc.existing, LeafOf(p, outs[i]))
      && |r.witnesses| >= |acc.witnesses|
      && AllAdvanced(r.witnesses[..|acc.witnesses|], acc.witnesses, LeafOf(p, outs[i]))
  {
    var s: OutputScan<C, E, N> := ScanOutput(p, i, outs[i], ivks, spentFrom, acc.tree, acc.existing, acc.witnesses);
    var r := ScanOutputsStep(p, ivks, spentFrom, outs, i, acc);
    assert r.witnesses[..|acc.witnesses|] == s.newWitnesses;
    if !WellFormed(p, outs[i]) {
      assert forall j :: 0 <= j < |acc.existing| ==> Advanced(acc.existing[j], acc.existing[j], []);
      assert forall j :: 0 <= j < |acc.witnesses| ==> Advanced(acc.witnesses[j], acc.witnesses[j], []);
    }
  }

  /** Over a transaction's outputs, the tree receives exactly the commitments of the
      well-formed outputs, in order, and so does every witness handed in. */
  lemma {:induction false} ScanOutputsAdvance<K, C, E, N>(
    p: ScanPrimitives<K, C, E, N>, ivks: seq<K>, spentFrom: set<nat>, outs: seq<CompactOutput>,
    i: nat, acc: OutputsScan<C, E, N>)
    requires i <= |outs|
    ensures var r := ScanOutputs(p, ivks, spentFrom, outs, i, acc);
      && r.tree.leaves == acc.tree.leaves + Leaves(p, outs, i)
      && AllAdvanced(r.existing, acc.existing, Leaves(p, outs, i))
      && |r.witnesses| >= |acc.witnesses|
      && AllAdvanced(r.witnesses[..|acc.witnesses|], acc.witnesses, Leaves(p, outs, i))
    decreases |outs| - i
  {
    var r := ScanOutputs(p, ivks, spentFrom, outs, i, acc);
    if i == |outs| {
      assert acc.tree.leaves + [] == acc.tree.leaves;
      assert AllAdvanced(acc.existing, acc.existing, []);
      assert acc.witnesses[..|acc.witnesses|] == acc.witnesses;
      assert AllAdvanced(acc.witnesses, acc.witnesses, []);
    } else {
      var acc' := ScanOutputsStep(p, ivks, spentFrom, outs, i, acc);
      StepAdvances(p, ivks, spentFrom, outs, i, acc);
      ScanOutputsAdvance(p, ivks, spentFrom, outs, i + 1, acc');
      LeavesUnfold(p, outs, i);
      assert r.tree.leaves == acc.tree.leaves + LeafOf(p, outs[i]) + Leaves(p, outs, i + 1);
      AllAdvancedTwice(r.existing, acc'.existing, acc.existing, LeafOf(p, outs[i]), Leaves(p, outs, i + 1));
      var n := |acc.witnesses|;
      assert r.witnesses[..n] == r.witnesses[..|acc'.witnesses|][..n];
      AllAdvancedTwice(r.witnesses[..n], acc'.witnesses[..n], acc.witnesses, LeafOf(p, outs[i]), Leaves(p, outs, i + 1));
    }
  }

  /** The output loop keeps every witness, old or new, in step with the tree. */
  lemma {:induction false} ScanOutputsKeepSync<K, C, E, N>(
    p: ScanPrimitives<K, C, E, N>, ivks: seq<K>, spentFrom: set<nat>, outs: seq<CompactOutput>,
    i: nat, acc: OutputsScan<C, E, N>)
    requires i <= |outs|
    requires AllInSync(acc.existing, acc.tree) && AllInSync(acc.witnesses, acc.tree)
    ensures var r := ScanOutputs(p, ivks, spentFrom, outs, i, acc);
      AllInSync(r.existing, r.tree) && AllInSync(r.witnesses, r.tree)
    decreases |outs| - i
  {
    if i < |outs| {
      var s: OutputScan<C, E, N> := ScanOutput(p, i, outs[i], ivks, spentFrom, acc.tree, acc.existing, acc.witnesses);
      ScanOutputKeepsSync(p, i, outs[i], ivks, spentFrom, acc.tree, acc.existing, acc.witnesses);
      var acc' := ScanOutputsStep(p, ivks, spentFrom, outs, i, acc);
      assert AllInSync(acc'.witnesses, acc'.tree);
      ScanOutputsKeepSync(p, ivks, spentFrom, outs, i + 1, acc');
    }
  }

  /** Output `o`, returned with witness `w`, is the wallet's note in `outs[o.index]`:
      the output is well formed, `o.account` is the first account whose key decrypts
      it, `o.isChange` says whether that account spent in the transaction, and `w`
      tracks the output's commitment. */
  ghost predicate Attributed<K, C, E, N>(
    p: ScanPrimitives<K, C, E, N>, ivks: seq<K>, spentFrom: set<nat>, outs: seq<CompactOutput>,
    o: WalletShieldedOutput<C, E, N>, w: Witness<C>)
  {
    && o.index < |outs|
    && WellFormed(p, outs[o.index])
    && o.cmu == p.parseCmu(outs[o.index].cmu).value
    && o.epk == p.parseEpk(outs[o.index].epk).value
    && o.account < |ivks|
    && p.tryDecrypt(ivks[o.account], o.epk, o.cmu, outs[o.index].ciphertext) == Some(o.note)
    && (forall a :: 0 <= a < o.account ==> p.tryDecrypt(ivks[a], o.epk, o.cmu, outs[o.index].ciphertext).None?)
    && (o.isChange <==> o.account in spentFrom)
    && |w.snapshot| > 0 && w.snapshot[|w.snapshot| - 1] == o.cmu
  }

  /** The wallet outputs and witnesses found among `outs[..i]`: one per decryptable
      output, in output order, each witness beside its output. */
  ghost predicate FoundSoFar<K, C, E, N>(
    p: ScanPrimitives<K, C, E, N>, ivks: seq<K>, spentFrom: set<nat>, outs: seq<CompactOutput>,
    outputs: seq<WalletShieldedOutput<C, E, N>>, witnesses: seq<Witness<C>>, i: nat)
  {
    && |outputs| == |witnesses|
    && (forall k :: 0 <= k < |outputs| ==> outputs[k].index < i && Attributed(p, ivks, spentFrom, outs, outputs[k], witnesses[k]))
    && (forall k, l :: 0 <= k < l < |outputs| ==> outputs[k].index < outputs[l].index)
    && (forall j :: 0 <= j < i && j < |outs| && Decrypts(p, ivks, outs[j]) ==>
          exists k :: 0 <= k < |outputs| && outputs[k].index == j)
  }

  lemma StepFinds<K, C, E, N>(
    p: ScanPrimitives<K, C, E, N>, ivks: seq<K>, spentFrom: set<nat>, outs: seq<CompactOutput>,
    i: nat, acc: OutputsScan<C, E, N>)
    requires i < |outs|
    requires FoundSoFar(p, ivks, spentFrom, outs, acc.outputs, acc.witnesses, i)
    ensures var r := ScanOutputsStep(p, ivks, spentFrom, outs, i, acc);
      FoundSoFar(p, ivks, spentFrom, outs, r.outputs, r.witnesses, i + 1)
  {
    var s: OutputScan<C, E, N> := ScanOutput(p, i, outs[i], ivks, spentFrom, acc.tree, acc.existing, acc.witnesses);
    var r := ScanOutputsStep(p, ivks, spentFrom, outs, i, acc);
    forall k | 0 <= k < |acc.outputs|
      ensures Attributed(p, ivks, spentFrom, outs, r.outputs[k], r.witnesses[k])
    {
      assert r.outputs[k] == acc.outputs[k];
      assert r.witnesses[k].snapshot == acc.witnesses[k].snapshot;
    }
    if s.found.Some? {
      var n := |acc.outputs|;
      assert r.outputs[n] == s.found.value.0;
      assert r.witnesses[n] == s.found.value.1;
      assert Attributed(p, ivks, spentFrom, outs, r.outputs[n], r.witnesses[n]);
    }
    forall j | 0 <= j < i + 1 && j < |outs| && Decrypts(p, ivks, outs[j])
      ensures exists k :: 0 <= k < |r.outputs| && r.outputs[k].index == j
    {
      if j < i {
        var k :| 0 <= k < |acc.outputs| && acc.outputs[k].index == j;
        assert r.outputs[k] == acc.outputs[k];
      } else {
        assert r.outputs[|acc.outputs|].index == j;
      }
    }
  }

  lemma {:induction false} ScanOutputsFind<K, C, E, N>(
    p: ScanPrimitives<K, C, E, N>, ivks: seq<K>, spentFrom: set<nat>, outs: seq<CompactOutput>,
    i: nat, acc: OutputsScan<C, E, N>)
    requires i <= |outs|
    requires FoundSoFar(p, ivks, spentFrom, outs, acc.outputs, acc.witnesses, i)
    ensures var r := ScanOutputs(p, ivks, spentFrom, outs, i, acc);
      FoundSoFar(p, ivks, spentFrom, outs, r.outputs, r.witnesses, |outs|)
    decreases |outs| - i
  {
    if i < |outs| {
      StepFinds(p, ivks, spentFrom, outs, i, acc);
      ScanOutputsFind(p, ivks, spentFrom, outs, i + 1, ScanOutputsStep(p, ivks, spentFrom, outs, i, acc));
    }
  }

  // ---------------------------------------------------------------------------
  // One transaction

  /** Something in the transaction is the wallet's: a spend of a known nullifier, or
      an output one of its keys decrypts. */
  ghost predicate TxMatches<K, C, E, N>(
    p: ScanPrimitives<K, C, E, N>, ivks: seq<K>, nullifiers: seq<(Bytes, nat)>, tx: CompactTx)
  {
    || (exists i :: 0 <= i < |tx.spends| && FindAccount(nullifiers, tx.spends[i].nf).Some?)
    || (exists j :: 0 <= j < |tx.outputs| && Decrypts(p, ivks, tx.outputs[j]))
  }

  /** A spend is recorded exactly when its nullifier is in the table, so some spend is
      recorded exactly when some spend matches. */
  lemma MatchSpendsExactly(spends: seq<CompactSpend>, nullifiers: seq<(Bytes, nat)>)
    ensures var r := MatchSpends(spends, nullifiers, 0);
      && (forall i :: 0 <= i < |spends| ==>
            (FindAccount(nullifiers, spends[i].nf).Some? <==> exists k :: 0 <= k < |r| && r[k].index == i))
      && (|r| > 0 <==> exists i :: 0 <= i < |spends| && FindAccount(nullifiers, spends[i].nf).Some?)
  {
    var r := MatchSpends(spends, nullifiers, 0);
    forall i | 0 <= i < |spends| && FindAccount(nullifiers, spends[i].nf).Some?
      ensures exists k :: 0 <= k < |r| && r[k].index == i
    {
      MatchSpendsComplete(spends, nullifiers, 0, i);
    }
    if |r| > 0 {
      var i := r[0].index;
      assert 0 <= i < |spends| && FindAccount(nullifiers, spends[i].nf).Some?;
    }
  }

  /** Once every output is scanned, some wallet output was found exactly when some
      output decrypts. */
  lemma FoundExactly<K, C, E, N>(
    p: ScanPrimitives<K, C, E, N>, ivks: seq<K>, spentFrom: set<nat>, outs: seq<CompactOutput>,
    outputs: seq<WalletShieldedOutput<C, E, N>>, witnesses: seq<Witness<C>>)
    requires FoundSoFar(p, ivks, spentFrom, outs, outputs, witnesses, |outs|)
    ensures |outputs| > 0 <==> exists j :: 0 <= j < |outs| && Decrypts(p, ivks, outs[j])
  {
    if |outputs| > 0 {
      var j := outputs[0].index;
      assert Attributed(p, ivks, spentFrom, outs, outputs[0], witnesses[0]);
      assert 0 <= j < |outs| && Decrypts(p, ivks, outs[j]);
    }
  }

  /** Scanning one transaction gives the tree and the existing witnesses the
      commitments of its well-formed outputs, in order; it emits a `WalletTx`
      exactly when something matched, and fails only for a matched transaction
      whose hash is not 32 bytes long. */
  lemma ScanTxEmits<K, C, E, N>(
    p: ScanPrimitives<K, C, E, N>, ivks: seq<K>, nullifiers: seq<(Bytes, nat)>, tx: CompactTx,
    tree: Tree<C>, existing: seq<Witness<C>>)
    ensures var r: Result<TxScan<C, E, N>, ScanError> := ScanTx(p, ivks, nullifiers, tx, tree, existing);
      && (r.Failure? <==> TxMatches(p, ivks, nullifiers, tx) && |tx.hash| != 32)
      && (r.Success? ==>
            && r.value.tree.leaves == tree.leaves + Leaves(p, tx.outputs, 0)
            && AllAdvanced(r.value.existing, existing, Leaves(p, tx.outputs, 0))
            && (r.value.emitted.Some? <==> TxMatches(p, ivks, nullifiers, tx)))
  {
    var spends := MatchSpends(tx.spends, nullifiers, 0);
    var spentFrom := SpentFrom(spends);
    var acc0: OutputsScan<C, E, N> := OutputsScan(tree, existing, [], []);
    var s := ScanOutputs(p, ivks, spentFrom, tx.outputs, 0, acc0);
    ScanOutputsAdvance(p, ivks, spentFrom, tx.outputs, 0, acc0);
    ScanOutputsFind(p, ivks, spentFrom, tx.outputs, 0, acc0);
    MatchSpendsExactly(tx.spends, nullifiers);
    FoundExactly(p, ivks, spentFrom, tx.outputs, s.outputs, s.witnesses);
  }

  /** An emitted `WalletTx` counts all the transaction's spends and outputs, records
      exactly the spends of known nullifiers by position, and lists the wallet's
      outputs in order, each beside the witness created for it and flagged as change
      exactly when its account spent in the same transaction. */
  lemma ScanTxContents<K, C, E, N>(
    p: ScanPrimitives<K, C, E, N>, ivks: seq<K>, nullifiers: seq<(Bytes, nat)>, tx: CompactTx,
    tree: Tree<C>, existing: seq<Witness<C>>)
    ensures var r: Result<TxScan<C, E, N>, ScanError> := ScanTx(p, ivks, nullifiers, tx, tree, existing);
      r.Success? && r.value.emitted.Some? ==>
        var (wtx, ws) := r.value.emitted.value;
        && wtx.txid == tx.hash
        && wtx.numSpends == |tx.spends|
        && wtx.numOutputs == |tx.outputs|
        && (forall i :: 0 <= i < |tx.spends| ==>
              (FindAccount(nullifiers, tx.spends[i].nf).Some? <==>
               exists k :: 0 <= k < |wtx.shieldedSpends| && wtx.shieldedSpends[k].index == i))
        && FoundSoFar(p, ivks, SpentFrom(wtx.shieldedSpends), tx.outputs, wtx.shieldedOutputs, ws, |tx.outputs|)
  {
    var spends := MatchSpends(tx.spends, nullifiers, 0);
    var spentFrom := SpentFrom(spends);
    var acc0: OutputsScan<C, E, N> := OutputsScan(tree, existing, [], []);
    ScanOutputsFind(p, ivks, spentFrom, tx.outputs, 0, acc0);
    MatchSpendsExactly(tx.spends, nullifiers);
  }

  /** Scanning a transaction keeps the existing witnesses in step with the tree, and
      every witness it returns is in step with the tree it leaves behind. */
  lemma ScanTxKeepsSync<K, C, E, N>(
    p: ScanPrimitives<K, C, E, N>, ivks: seq<K>, nullifiers: seq<(Bytes, nat)>, tx: CompactTx,
    tree: Tree<C>, existing: seq<Witness<C>>)
    requires AllInSync(existing, tree)
    ensures var r: Result<TxScan<C, E, N>, ScanError> := ScanTx(p, ivks, nullifiers, tx, tree, existing);
      r.Success? ==>
        && AllInSync(r.value.existing, r.value.tree)
        && (r.value.emitted.Some? ==> AllInSync(r.value.emitted.value.1, r.value.tree))
  {
    var spentFrom := SpentFrom(MatchSpends(tx.spends, nullifiers, 0));
    var acc0: OutputsScan<C, E, N> := OutputsScan(tree, existing, [], []);
    ScanOutputsKeepSync(p, ivks, spentFrom, tx.outputs, 0, acc0);
  }

  // ---------------------------------------------------------------------------
  // A block

  /** The leaves a block's transactions from `i` on append, in order. */
  function BlockLeaves<K, C, E, N>(p: ScanPrimitives<K, C, E, N>, vtx: seq<CompactTx>, i: nat): seq<C>
    requires i <= |vtx|
    decreases |vtx| - i
  {
    if i == |vtx| then [] else Leaves(p, vtx[i].outputs, 0) + BlockLeaves(p, vtx, i + 1)
  }

  lemma {:induction false} ScanTxsAdvance<K, C, E, N>(
    p: ScanPrimitives<K, C, E, N>, ivks: seq<K>, nullifiers: seq<(Bytes, nat)>, vtx: seq<CompactTx>,
    i: nat, acc: BlockScan<C, E, N>)
    requires i <= |vtx|
    ensures var r := ScanTxs(p, ivks, nullifiers, vtx, i, acc);
      r.Success? ==>
        && r.value.tree.leaves == acc.tree.leaves + BlockLeaves(p, vtx, i)
        && AllAdvanced(r.value.existing, acc.existing, BlockLeaves(p, vtx, i))
    decreases |vtx| - i
  {
    var r := ScanTxs(p, ivks, nullifiers, vtx, i, acc);
    if i == |vtx| {
      assert acc.tree.leaves + [] == acc.tree.leaves;
      assert AllAdvanced(acc.existing, acc.existing, []);
    } else {
      var t: Result<TxScan<C, E, N>, ScanError> := ScanTx(p, ivks, nullifiers, vtx[i], acc.tree, acc.existing);
      ScanTxEmits(p, ivks, nullifiers, vtx[i], acc.tree, acc.existing);
      if t.Success? {
        var acc' := Record(acc.wtxs, t.value);
        ScanTxsAdvance(p, ivks, nullifiers, vtx, i + 1, acc');
        if r.Success? {
          assert r.value.tree.leaves == acc.tree.leaves + Leaves(p, vtx[i].outputs, 0) + BlockLeaves(p, vtx, i + 1);
          AllAdvancedTwice(r.value.existing, acc'.existing, acc.existing, Leaves(p, vtx[i].outputs, 0), BlockLeaves(p, vtx, i + 1));
        }
      }
    }
  }

  /** Scanning a block appends the commitments of its well-formed outputs to the
      tree in block, transaction and output order, gives every existing witness the
      same leaves, and so keeps an existing witness that was in step with the tree in
      step with it. */
  lemma ScanBlockAdvances<K, C, E, N>(
    p: ScanPrimitives<K, C, E, N>, block: CompactBlock, ivks: seq<K>, nullifiers: seq<(Bytes, nat)>,
    tree: Tree<C>, existing: seq<Witness<C>>)
    requires AllInSync(existing, tree)
    ensures var r: Result<BlockScan<C, E, N>, ScanError> := ScanBlock(p, block, ivks, nullifiers, tree, existing);
      r.Success? ==>
        && r.value.tree.leaves == tree.leaves + BlockLeaves(p, block.vtx, 0)
        && AllAdvanced(r.value.existing, existing, BlockLeaves(p, block.vtx, 0))
        && AllInSync(r.value.existing, r.value.tree)
  {
    var acc0: BlockScan<C, E, N> := BlockScan(tree, existing, []);
    ScanTxsAdvance(p, ivks, nullifiers, block.vtx, 0, acc0);
    var r: Result<BlockScan<C, E, N>, ScanError> := ScanBlock(p, block, ivks, nullifiers, tree, existing);
    if r.Success? {
      AdvancedInSync(r.value.existing, existing, tree, BlockLeaves(p, block.vtx, 0));
    }
  }

  function TxIds<C, E, N>(wtxs: seq<(WalletTx<C, E, N>, seq<Witness<C>>)>): seq<Bytes> {
    seq(|wtxs|, k requires 0 <= k < |wtxs| => wtxs[k].0.txid)
  }

  /** The hashes of the transactions in `vtx` that hold something of the wallet's,
      in block order. */
  ghost function MatchedHashes<K, C, E, N>(
    p: ScanPrimitives<K, C, E, N>, ivks: seq<K>, nullifiers: seq<(Bytes, nat)>, vtx: seq<CompactTx>)
    : seq<Bytes>
    decreases |vtx|
  {
    if |vtx| == 0 then []
    else
      MatchedHashes(p, ivks, nullifiers, vtx[..|vtx| - 1])
      + (if TxMatches(p, ivks, nullifiers, vtx[|vtx| - 1]) then [vtx[|vtx| - 1].hash] else [])
  }

  lemma MatchedHashesStep<K, C, E, N>(
    p: ScanPrimitives<K, C, E, N>, ivks: seq<K>, nullifiers: seq<(Bytes, nat)>, vtx: seq<CompactTx>, i: nat)
    requires i < |vtx|
    ensures MatchedHashes(p, ivks, nullifiers, vtx[..i + 1])
      == MatchedHashes(p, ivks, nullifiers, vtx[..i])
         + (if TxMatches(p, ivks, nullifiers, vtx[i]) then [vtx[i].hash] else [])
  {
    assert vtx[..i + 1][..i] == vtx[..i];
    assert vtx[..i + 1][i] == vtx[i];
  }

  /** Recording a scanned transaction adds its hash to the reported ids exactly when
      it holds something of the wallet's; the scan succeeds unless such a
      transaction has a hash that is not 32 bytes. */
  lemma RecordIds<K, C, E, N>(
    p: ScanPrimitives<K, C, E, N>, ivks: seq<K>, nullifiers: seq<(Bytes, nat)>, tx: CompactTx,
    acc: BlockScan<C, E, N>)
    ensures var t: Result<TxScan<C, E, N>, ScanError> := ScanTx(p, ivks, nullifiers, tx, acc.tree, acc.existing);
      && (t.Failure? <==> TxMatches(p, ivks, nullifiers, tx) && |tx.hash| != 32)
      && (t.Success? ==>
            TxIds(Record(acc.wtxs, t.value).wtxs)
            == TxIds(acc.wtxs) + (if TxMatches(p, ivks, nullifiers, tx) then [tx.hash] else []))
  {
    var t: Result<TxScan<C, E, N>, ScanError> := ScanTx(p, ivks, nullifiers, tx, acc.tree, acc.existing);
    ScanTxEmits(p, ivks, nullifiers, tx, acc.tree, acc.existing);
    ScanTxContents(p, ivks, nullifiers, tx, acc.tree, acc.existing);
    if t.Success? && t.value.emitted.Some? {
      assert TxIds(Record(acc.wtxs, t.value).wtxs) == TxIds(acc.wtxs) + [tx.hash];
    }
  }

  lemma {:induction false} ScanTxsOrder<K, C, E, N>(
    p: ScanPrimitives<K, C, E, N>, ivks: seq<K>, nullifiers: seq<(Bytes, nat)>, vtx: seq<CompactTx>,
    i: nat, acc: BlockScan<C, E, N>)
    requires i <= |vtx|
    requires TxIds(acc.wtxs) == MatchedHashes(p, ivks, nullifiers, vtx[..i])
    ensures var r := ScanTxs(p, ivks, nullifiers, vtx, i, acc);
      && (r.Failure? <==>
            exists k :: i <= k < |vtx| && TxMatches(p, ivks, nullifiers, vtx[k]) && |vtx[k].hash| != 32)
      && (r.Success? ==> TxIds(r.value.wtxs) == MatchedHashes(p, ivks, nullifiers, vtx))
    decreases |vtx| - i
  {
    if i == |vtx| {
      assert vtx[..i] == vtx;
    } else {
      var t: Result<TxScan<C, E, N>, ScanError> := ScanTx(p, ivks, nullifiers, vtx[i], acc.tree, acc.existing);
      RecordIds(p, ivks, nullifiers, vtx[i], acc);
      if t.Success? {
        MatchedHashesStep(p, ivks, nullifiers, vtx, i);
        ScanTxsOrder(p, ivks, nullifiers, vtx, i + 1, Record(acc.wtxs, t.value));
      }
    }
  }

  /** The reported transactions are exactly the block's transactions that hold
      something of the wallet's, in block order; the scan fails exactly when such a
      transaction has a hash that is not 32 bytes. */
  lemma ScanBlockOrder<K, C, E, N>(
    p: ScanPrimitives<K, C, E, N>, block: CompactBlock, ivks: seq<K>, nullifiers: seq<(Bytes, nat)>,
    tree: Tree<C>, existing: seq<Witness<C>>)
    ensures var r: Result<BlockScan<C, E, N>, ScanError> := ScanBlock(p, block, ivks, nullifiers, tree, existing);
      && (r.Failure? <==>
            exists k :: 0 <= k < |block.vtx| && TxMatches(p, ivks, nullifiers, block.vtx[k]) && |block.vtx[k].hash| != 32)
      && (r.Success? ==> TxIds(r.value.wtxs) == MatchedHashes(p, ivks, nullifiers, block.vtx))
  {
    var acc0: BlockScan<C, E, N> := BlockScan(tree, existing, []);
    assert TxIds(acc0.wtxs) == [];
    assert block.vtx[..0] == [];
    ScanTxsOrder(p, ivks, nullifiers, block.vtx, 0, acc0);
  }

  // ---------------------------------------------------------------------------
  // Witnesses created earlier in the block

  ghost predicate EmittedInSync<C, E, N>(wtxs: seq<(WalletTx<C, E, N>, seq<Witness<C>>)>, t: Tree<C>) {
    forall k :: 0 <= k < |wtxs| ==> AllInSync(wtxs[k].1, t)
  }

  lemma {:induction false} ScanTxsFixedKeepSync<K, C, E, N>(
    p: ScanPrimitives<K, C, E, N>, ivks: seq<K>, nullifiers: seq<(Bytes, nat)>, vtx: seq<CompactTx>,
    i: nat, acc: BlockScan<C, E, N>)
    requires i <= |vtx|
    requires AllInSync(acc.existing, acc.tree) && EmittedInSync(acc.wtxs, acc.tree)
    ensures var r := ScanTxsFixed(p, ivks, nullifiers, vtx, i, acc);
      r.Success? ==> AllInSync(r.value.existing, r.value.tree) && EmittedInSync(r.value.wtxs, r.value.tree)
    decreases |vtx| - i
  {
    if i < |vtx| {
      var t: Result<TxScan<C, E, N>, ScanError> := ScanTx(p, ivks, nullifiers, vtx[i], acc.tree, acc.existing);
      ScanTxEmits(p, ivks, nullifiers, vtx[i], acc.tree, acc.existing);
      ScanTxKeepsSync(p, ivks, nullifiers, vtx[i], acc.tree, acc.existing);
      if t.Success? {
        var leaves := Leaves(p, vtx[i].outputs, 0);
        var earlier := AdvanceEmitted(acc.wtxs, leaves);
        forall k | 0 <= k < |earlier|
          ensures AllInSync(earlier[k].1, t.value.tree)
        {
          AdvancedInSync(earlier[k].1, acc.wtxs[k].1, acc.tree, leaves);
        }
        var acc' := Record(earlier, t.value);
        assert EmittedInSync(acc'.wtxs, acc'.tree);
        ScanTxsFixedKeepSync(p, ivks, nullifiers, vtx, i + 1, acc');
      }
    }
  }

  /** With the correction, every witness the scan returns, for whichever transaction
      of the block, is in step with the final tree. */
  lemma ScanBlockFixedKeepsSync<K, C, E, N>(
    p: ScanPrimitives<K, C, E, N>, block: CompactBlock, ivks: seq<K>, nullifiers: seq<(Bytes, nat)>,
    tree: Tree<C>, existing: seq<Witness<C>>)
    requires AllInSync(existing, tree)
    ensures var r: Result<BlockScan<C, E, N>, ScanError> := ScanBlockFixed(p, block, ivks, nullifiers, tree, existing);
      r.Success? ==> AllInSync(r.value.existing, r.value.tree) && EmittedInSync(r.value.wtxs, r.value.tree)
  {
    ScanTxsFixedKeepSync(p, ivks, nullifiers, block.vtx, 0, BlockScan(tree, existing, []));
  }

  /** The two scans report the same transactions with the same number of witnesses. */
  ghost predicate SameReports<C, E, N>(a: seq<(WalletTx<C, E, N>, seq<Witness<C>>)>, b: seq<(WalletTx<C, E, N>, seq<Witness<C>>)>) {
    |a| == |b| && forall k :: 0 <= k < |a| ==> a[k].0 == b[k].0 && |a[k].1| == |b[k].1|
  }

  lemma {:induction false} ScanTxsFixedAgrees<K, C, E, N>(
    p: ScanPrimitives<K, C, E, N>, ivks: seq<K>, nullifiers: seq<(Bytes, nat)>, vtx: seq<CompactTx>,
    i: nat, acc: BlockScan<C, E, N>, accFixed: BlockScan<C, E, N>)
    requires i <= |vtx|
    requires acc.tree == accFixed.tree && acc.existing == accFixed.existing && SameReports(acc.wtxs, accFixed.wtxs)
    ensures var r := ScanTxs(p, ivks, nullifiers, vtx, i, acc);
      var rf := ScanTxsFixed(p, ivks, nullifiers, vtx, i, accFixed);
      && r.Success? == rf.Success?
      && (r.Success? ==>
            r.value.tree == rf.value.tree && r.value.existing == rf.value.existing && SameReports(r.value.wtxs, rf.value.wtxs))
    decreases |vtx| - i
  {
    if i < |vtx| {
      var t: Result<TxScan<C, E, N>, ScanError> := ScanTx(p, ivks, nullifiers, vtx[i], acc.tree, acc.existing);
      if t.Success? {
        var earlier := AdvanceEmitted(accFixed.wtxs, Leaves(p, vtx[i].outputs, 0));
        var acc' := Record(acc.wtxs, t.value);
        var fixed' := Record(earlier, t.value);
        assert SameReports(acc'.wtxs, fixed'.wtxs);
        ScanTxsFixedAgrees(p, ivks, nullifiers, vtx, i + 1, acc', fixed');
      }
    }
  }

  /** The correction changes nothing but the witnesses: both scans fail on the same
      blocks, leave the same tree and existing witnesses, and report the same
      transactions. */
  lemma ScanBlockFixedAgrees<K, C, E, N>(
    p: ScanPrimitives<K, C, E, N>, block: CompactBlock, ivks: seq<K>, nullifiers: seq<(Bytes, nat)>,
    tree: Tree<C>, existing: seq<Witness<C>>)
    ensures var r: Result<BlockScan<C, E, N>, ScanError> := ScanBlock(p, block, ivks, nullifiers, tree, existing);
      var rf: Result<BlockScan<C, E, N>, ScanError> := ScanBlockFixed(p, block, ivks, nullifiers, tree, existing);
      && r.Success? == rf.Success?
      && (r.Success? ==>
            r.value.tree == rf.value.tree && r.value.existing == rf.value.existing && SameReports(r.value.wtxs, rf.value.wtxs))
  {
    ScanTxsFixedAgrees(p, ivks, nullifiers, block.vtx, 0, BlockScan(tree, existing, []), BlockScan(tree, existing, []));
  }

  /** Primitives under which every commitment parses to its length, every ephemeral
      key parses, and the first viewing key decrypts everything. */
  function AcceptAll(): ScanPrimitives<int, int, int, int> {
    ScanPrimitives(
      (b: Bytes) => Some(|b|),
      (b: Bytes) => Some(0),
      (k: int, e: int, c: int, ct: Bytes) => Some(k))
  }

  /** A block of two transactions with one output each, both the wallet's. */
  function TwoPaymentBlock(): CompactBlock {
    CompactBlock([
      CompactTx(Zeros(32), [], [CompactOutput([1], [], [])]),
      CompactTx(Zeros(32), [], [CompactOutput([1, 2], [], [])])])
  }

  /** As written, the witness returned for the first transaction's note never
      receives the second transaction's commitment, so it no longer matches the
      tree the scan returns. */
  lemma ScanBlockLeavesEarlierWitnessBehind()
    ensures var r: Result<BlockScan<int, int, int>, ScanError> := ScanBlock(AcceptAll(), TwoPaymentBlock(), [0], [], Tree([]), []);
      && r.Success?
      && r.value.tree.leaves == [1, 2]
      && |r.value.wtxs| == 2
      && r.value.wtxs[0].1 == [Witness([1], [])]
      && !InSync(r.value.wtxs[0].1[0], r.value.tree)
  {
    var p := AcceptAll();
    var vtx := TwoPaymentBlock().vtx;
    var acc0: BlockScan<int, int, int> := BlockScan(Tree([]), [], []);
    var t0: Result<TxScan<int, int, int>, ScanError> := ScanTx(p, [0], [], vtx[0], Tree([]), []);
    var o0 := ScanOutputs(p, [0], {}, vtx[0].outputs, 0, OutputsScan(Tree([]), [], [], []));
    assert o0.tree == Tree([1]);
    assert o0.witnesses == [Witness([1], [])];
    assert t0.Success? && t0.value.tree == Tree([1]) && t0.value.emitted.Some?;
    var acc1 := Record([], t0.value);
    var o1 := ScanOutputs(p, [0], {}, vtx[1].outputs, 0, OutputsScan(Tree([1]), [], [], []));
    assert o1.tree == Tree([1, 2]);
    var t1: Result<TxScan<int, int, int>, ScanError> := ScanTx(p, [0], [], vtx[1], Tree([1]), []);
    assert t1.Success? && t1.value.tree == Tree([1, 2]) && t1.value.emitted.Some?;
    assert ScanTxs(p, [0], [], vtx, 0, acc0) == ScanTxs(p, [0], [], vtx, 1, acc1);
    assert [1] + [] != [1, 2];
  }

  /** With the correction, the same witness has received the second commitment. */
  lemma ScanBlockFixedAdvancesEarlierWitness()
    ensures var r: Result<BlockScan<int, int, int>, ScanError> := ScanBlockFixed(AcceptAll(), TwoPaymentBlock(), [0], [], Tree([]), []);
      && r.Success?
      && |r.value.wtxs| == 2
      && r.value.wtxs[0].1 == [Witness([1], [2])]
      && InSync(r.value.wtxs[0].1[0], r.value.tree)
  {
    var p := AcceptAll();
    var vtx := TwoPaymentBlock().vtx;
    var acc0: BlockScan<int, int, int> := BlockScan(Tree([]), [], []);
    var o0 := ScanOutputs(p, [0], {}, vtx[0].outputs, 0, OutputsScan(Tree([]), [], [], []));
    assert o0.tree == Tree([1]);
    assert o0.witnesses == [Witness([1], [])];
    var t0: Result<TxScan<int, int, int>, ScanError> := ScanTx(p, [0], [], vtx[0], Tree([]), []);
    assert t0.Success? && t0.value.tree == Tree([1]) && t0.value.emitted.Some?;
    var acc1 := Record([], t0.value);
    assert Leaves(p, vtx[1].outputs, 0) == [2];
    var o1 := ScanOutputs(p, [0], {}, vtx[1].outputs, 0, OutputsScan(Tree([1]), [], [], []));
    assert o1.tree == Tree([1, 2]);
    var t1: Result<TxScan<int, int, int>, ScanError> := ScanTx(p, [0], [], vtx[1], Tree([1]), []);
    assert t1.Success? && t1.value.tree == Tree([1, 2]) && t1.value.emitted.Some?;
    assert ScanTxsFixed(p, [0], [], vtx, 0, acc0) == ScanTxsFixed(p, [0], [], vtx, 1, acc1);
    var earlier := AdvanceEmitted(acc1.wtxs, [2]);
    assert earlier[0].1[0] == Witness([1], [2]);
    var acc2 := Record(earlier, t1.value);
    assert ScanTxsFixed(p, [0], [], vtx, 1, acc1) == Success(acc2);
    assert acc2.wtxs[0].1 == [Witness([1], [2])];
  }
}
