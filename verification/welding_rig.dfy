/** The compact-block scanner: matches a block's spends against the wallet's
    nullifiers, trial-decrypts its outputs under the wallet's incoming viewing keys,
    and keeps the note commitment tree and every tracked witness in step with the
    chain.

    The commitment tree is abstracted by its ordered leaf sequence (its root is a
    function of that sequence), and an incremental witness by the tree it was
    created from plus the leaves appended to it since. Parsing of commitments and
    ephemeral keys, and trial decryption, are opaque partial functions. */
module WeldingRig {
  import opened Common

  // ---------------------------------------------------------------------------
  // Compact block feed

  datatype CompactSpend = CompactSpend(nf: Bytes)

  datatype CompactOutput = CompactOutput(cmu: Bytes, epk: Bytes, ciphertext: Bytes)

  datatype CompactTx = CompactTx(hash: Bytes, spends: seq<CompactSpend>, outputs: seq<CompactOutput>)

  datatype CompactBlock = CompactBlock(vtx: seq<CompactTx>)

  // ---------------------------------------------------------------------------
  // Commitment tree and incremental witnesses

  /** The note commitment tree, as the ordered sequence of appended leaves. */
  datatype Tree<C> = Tree(leaves: seq<C>)

  /** An incremental witness: the tree it was created from (whose last leaf is the
      tracked note) and every leaf appended to it since. */
  datatype Witness<C> = Witness(snapshot: seq<C>, filled: seq<C>)

  function Append<C>(t: Tree<C>, leaf: C): Tree<C> {
    Tree(t.leaves + [leaf])
  }

  /** `IncrementalWitness::from_tree`: a witness for the tree's last leaf. */
  function FromTree<C>(t: Tree<C>): Witness<C> {
    Witness(t.leaves, [])
  }

  function AppendWitness<C>(w: Witness<C>, leaf: C): Witness<C> {
    w.(filled := w.filled + [leaf])
  }

  /** A witness computes the tree's root exactly when it has received every leaf the
      tree has, in the same order. */
  ghost predicate InSync<C>(w: Witness<C>, t: Tree<C>) {
    w.snapshot + w.filled == t.leaves
  }

  ghost predicate AllInSync<C>(ws: seq<Witness<C>>, t: Tree<C>) {
    forall j :: 0 <= j < |ws| ==> InSync(ws[j], t)
  }

  /** `w` is `w0` after receiving `leaves`, in order. */
  ghost predicate Advanced<C>(w: Witness<C>, w0: Witness<C>, leaves: seq<C>) {
    w.snapshot == w0.snapshot && w.filled == w0.filled + leaves
  }

  ghost predicate AllAdvanced<C>(ws: seq<Witness<C>>, ws0: seq<Witness<C>>, leaves: seq<C>) {
    |ws| == |ws0| && forall j :: 0 <= j < |ws| ==> Advanced(ws[j], ws0[j], leaves)
  }

  function AppendAll<C>(ws: seq<Witness<C>>, leaf: C): (r: seq<Witness<C>>)
    ensures AllAdvanced(r, ws, [leaf])
  {
    seq(|ws|, j requires 0 <= j < |ws| => AppendWitness(ws[j], leaf))
  }

  // ---------------------------------------------------------------------------
  // Primitives and wallet records

  /** The cryptography the scanner calls: reading a commitment (`FrRepr::read_le`
      then `Fr::from_repr`), reading an ephemeral key (`Point::read` then
      `as_prime_order`), and compact trial decryption under an incoming viewing key,
      which yields the note and its recipient. */
  datatype ScanPrimitives<!K, !C, !E, !N> = ScanPrimitives(
    parseCmu: Bytes -> Option<C>,
    parseEpk: Bytes -> Option<E>,
    tryDecrypt: (K, E, C, Bytes) -> Option<N>)

  datatype WalletShieldedSpend = WalletShieldedSpend(index: nat, nf: Bytes, account: nat)

  datatype WalletShieldedOutput<C, E, N> =
    WalletShieldedOutput(index: nat, cmu: C, epk: E, account: nat, note: N, isChange: bool)

  datatype WalletTx<C, E, N> = WalletTx(
    txid: Bytes32,
    numSpends: nat,
    numOutputs: nat,
    shieldedSpends: seq<WalletShieldedSpend>,
    shieldedOutputs: seq<WalletShieldedOutput<C, E, N>>)

  /** The only failure: `TxId::copy_from_slice` panics on a transaction hash that is
      not 32 bytes long, which is reached only for a transaction that is emitted. */
  datatype ScanError = TxIdLength(len: nat)

  /** An output the scanner appends to the tree: both its commitment and its
      ephemeral key parse. */
  predicate WellFormed<K, C, E, N>(p: ScanPrimitives<K, C, E, N>, o: CompactOutput) {
    p.parseCmu(o.cmu).Some? && p.parseEpk(o.epk).Some?
  }

  /** A well-formed output some viewing key decrypts. */
  ghost predicate Decrypts<K, C, E, N>(p: ScanPrimitives<K, C, E, N>, ivks: seq<K>, o: CompactOutput) {
    WellFormed(p, o)
    && exists a :: 0 <= a < |ivks|
         && p.tryDecrypt(ivks[a], p.parseEpk(o.epk).value, p.parseCmu(o.cmu).value, o.ciphertext).Some?
  }

  // ---------------------------------------------------------------------------
  // Trial decryption

  /** Tries the viewing keys from `start` on, in account order, and stops at the
      first one that decrypts. */
  function TrialDecrypt<K, C, E, N>(p: ScanPrimitives<K, C, E, N>, ivks: seq<K>, epk: E, cmu: C, ct: Bytes, start: nat)
    : (r: Option<(nat, N)>)
    requires start <= |ivks|
    decreases |ivks| - start
    ensures r.Some? ==>
      && start <= r.value.0 < |ivks|
      && p.tryDecrypt(ivks[r.value.0], epk, cmu, ct) == Some(r.value.1)
      && forall a :: start <= a < r.value.0 ==> p.tryDecrypt(ivks[a], epk, cmu, ct).None?
    ensures r.None? <==> forall a :: start <= a < |ivks| ==> p.tryDecrypt(ivks[a], epk, cmu, ct).None?
  {
    if start == |ivks| then None
    else match p.tryDecrypt(ivks[start], epk, cmu, ct)
      case Some(n) => Some((start, n))
      case None => TrialDecrypt(p, ivks, epk, cmu, ct, start + 1)
  }

  // ---------------------------------------------------------------------------
  // scan_output

  datatype OutputScan<C, E, N> = OutputScan(
    tree: Tree<C>,
    existing: seq<Witness<C>>,
    newWitnesses: seq<Witness<C>>,
    found: Option<(WalletShieldedOutput<C, E, N>, Witness<C>)>)

  /** Scans one compact output. A malformed output is skipped before anything is
      touched; otherwise its commitment is appended to every existing witness, every
      witness created earlier in this transaction and the tree, and only then is the
      output trial-decrypted. */
  function ScanOutput<K, C, E, N>(
    p: ScanPrimitives<K, C, E, N>, index: nat, output: CompactOutput, ivks: seq<K>,
    spentFrom: set<nat>, tree: Tree<C>, existing: seq<Witness<C>>, newWitnesses: seq<Witness<C>>)
    : (r: OutputScan<C, E, N>)
    ensures !WellFormed(p, output) ==> r == OutputScan(tree, existing, newWitnesses, None)
    ensures WellFormed(p, output) ==>
      var cmu := p.parseCmu(output.cmu).value;
      && r.tree.leaves == tree.leaves + [cmu]
      && AllAdvanced(r.existing, existing, [cmu])
      && AllAdvanced(r.newWitnesses, newWitnesses, [cmu])
    ensures r.found.Some? <==> Decrypts(p, ivks, output)
    ensures r.found.Some? ==>
      var (o, w) := r.found.value;
      var epk := p.parseEpk(output.epk).value;
      && o.index == index
      && o.cmu == p.parseCmu(output.cmu).value
      && o.epk == epk
      && o.account < |ivks|
      && p.tryDecrypt(ivks[o.account], epk, o.cmu, output.ciphertext) == Some(o.note)
      && (forall a :: 0 <= a < o.account ==> p.tryDecrypt(ivks[a], epk, o.cmu, output.ciphertext).None?)
      && (o.isChange <==> o.account in spentFrom)
      && w == FromTree(r.tree)
  {
    match (p.parseCmu(output.cmu), p.parseEpk(output.epk))
    case (Some(cmu), Some(epk)) =>
      var existing' := AppendAll(existing, cmu);
      var newWitnesses' := AppendAll(newWitnesses, cmu);
      var tree' := Append(tree, cmu);
      var found := match TrialDecrypt(p, ivks, epk, cmu, output.ciphertext, 0)
        case None => None
        case Some((account, note)) =>
          var isChange := account in spentFrom;
          Some((WalletShieldedOutput(index, cmu, epk, account, note, isChange), FromTree(tree')));
      OutputScan(tree', existing', newWitnesses', found)
    case _ => OutputScan(tree, existing, newWitnesses, None)
  }

  // ---------------------------------------------------------------------------
  // Spend matching

  /** The account of the first nullifier-table entry equal to `nf`. */
  function FindAccount(nullifiers: seq<(Bytes, nat)>, nf: Bytes): (r: Option<nat>)
    ensures r.None? <==> forall j :: 0 <= j < |nullifiers| ==> nullifiers[j].0 != nf
    ensures r.Some? ==> exists j :: 0 <= j < |nullifiers| && FirstMatch(nullifiers, nf, j) && nullifiers[j].1 == r.value
  {
    if |nullifiers| == 0 then None
    else if nullifiers[0].0 == nf then
      assert FirstMatch(nullifiers, nf, 0);
      Some(nullifiers[0].1)
    else
      var r := FindAccount(nullifiers[1..], nf);
      assert r.Some? ==> exists j :: 0 <= j < |nullifiers| && FirstMatch(nullifiers, nf, j) && nullifiers[j].1 == r.value by {
        if r.Some? {
          var j :| 0 <= j < |nullifiers| - 1 && FirstMatch(nullifiers[1..], nf, j) && nullifiers[1..][j].1 == r.value;
          assert FirstMatch(nullifiers, nf, j + 1);
        }
      }
      r
  }

  /** Entry `j` is the first entry of the table whose nullifier is `nf`. */
  ghost predicate FirstMatch(nullifiers: seq<(Bytes, nat)>, nf: Bytes, j: int)
    requires 0 <= j < |nullifiers|
  {
    nullifiers[j].0 == nf && forall k :: 0 <= k < j ==> nullifiers[k].0 != nf
  }

  /** Spends are kept in order, each with its position among all the transaction's
      spends. */
  ghost predicate IncreasingSpendIndices(ss: seq<WalletShieldedSpend>) {
    forall k, l :: 0 <= k < l < |ss| ==> ss[k].index < ss[l].index
  }

  /** Records, in order, every spend from `start` on whose nullifier is in the table. */
  function MatchSpends(spends: seq<CompactSpend>, nullifiers: seq<(Bytes, nat)>, start: nat)
    : (r: seq<WalletShieldedSpend>)
    requires start <= |spends|
    decreases |spends| - start
    ensures IncreasingSpendIndices(r)
    ensures forall k :: 0 <= k < |r| ==>
      && start <= r[k].index < |spends|
      && r[k].nf == spends[r[k].index].nf
      && FindAccount(nullifiers, r[k].nf) == Some(r[k].account)
  {
    if start == |spends| then []
    else
      var rest := MatchSpends(spends, nullifiers, start + 1);
      match FindAccount(nullifiers, spends[start].nf)
      case None => rest
      case Some(account) =>
        [WalletShieldedSpend(start, spends[start].nf, account)] + rest
  }

  /** Every spend whose nullifier is in the table is recorded. */
  lemma {:induction false} MatchSpendsComplete(spends: seq<CompactSpend>, nullifiers: seq<(Bytes, nat)>, start: nat, i: nat)
    requires start <= i < |spends|
    requires FindAccount(nullifiers, spends[i].nf).Some?
    ensures exists k :: 0 <= k < |MatchSpends(spends, nullifiers, start)| && MatchSpends(spends, nullifiers, start)[k].index == i
    decreases i - start
  {
    var r := MatchSpends(spends, nullifiers, start);
    var rest := MatchSpends(spends, nullifiers, start + 1);
    var found := FindAccount(nullifiers, spends[start].nf);
    if found.Some? {
      assert r == [WalletShieldedSpend(start, spends[start].nf, found.value)] + rest;
      if i == start {
        assert r[0].index == i;
      } else {
        MatchSpendsComplete(spends, nullifiers, start + 1, i);
        var k :| 0 <= k < |rest| && rest[k].index == i;
        assert r[k + 1] == rest[k];
      }
    } else {
      assert r == rest;
      MatchSpendsComplete(spends, nullifiers, start + 1, i);
    }
  }

  /** The accounts that spent a note in a transaction. */
  function SpentFrom(spends: seq<WalletShieldedSpend>): (r: set<nat>)
    ensures forall a :: a in r <==> exists k :: 0 <= k < |spends| && spends[k].account == a
  {
    set k | 0 <= k < |spends| :: spends[k].account
  }

  // ---------------------------------------------------------------------------
  // The per-transaction output loop

  datatype OutputsScan<C, E, N> = OutputsScan(
    tree: Tree<C>,
    existing: seq<Witness<C>>,
    outputs: seq<WalletShieldedOutput<C, E, N>>,
    witnesses: seq<Witness<C>>)

  /** The commitments of the well-formed outputs from `i` on, in order: the leaves a
      transaction appends. */
  function Leaves<K, C, E, N>(p: ScanPrimitives<K, C, E, N>, outs: seq<CompactOutput>, i: nat): seq<C>
    requires i <= |outs|
    decreases |outs| - i
  {
    if i == |outs| then []
    else (if WellFormed(p, outs[i]) then [p.parseCmu(outs[i].cmu).value] else []) + Leaves(p, outs, i + 1)
  }

  /** One iteration of the output loop: scan output `i` and, on a match, push the
      wallet output and its new witness. */
  function ScanOutputsStep<K, C, E, N>(
    p: ScanPrimitives<K, C, E, N>, ivks: seq<K>, spentFrom: set<nat>, outs: seq<CompactOutput>,
    i: nat, acc: OutputsScan<C, E, N>)
    : OutputsScan<C, E, N>
    requires i < |outs|
  {
    var s := ScanOutput(p, i, outs[i], ivks, spentFrom, acc.tree, acc.existing, acc.witnesses);
    match s.found
    case None => OutputsScan(s.tree, s.existing, acc.outputs, s.newWitnesses)
    case Some((o, w)) => OutputsScan(s.tree, s.existing, acc.outputs + [o], s.newWitnesses + [w])
  }

  /** Scans the outputs from `i` on, threading the tree, the existing witnesses and
      this transaction's new witnesses through `ScanOutput`. */
  function ScanOutputs<K, C, E, N>(
    p: ScanPrimitives<K, C, E, N>, ivks: seq<K>, spentFrom: set<nat>, outs: seq<CompactOutput>,
    i: nat, acc: OutputsScan<C, E, N>)
    : OutputsScan<C, E, N>
    requires i <= |outs|
    decreases |outs| - i
  {
    if i == |outs| then acc
    else ScanOutputs(p, ivks, spentFrom, outs, i + 1, ScanOutputsStep(p, ivks, spentFrom, outs, i, acc))
  }

  // ---------------------------------------------------------------------------
  // scan_block

  datatype TxScan<C, E, N> = TxScan(
    tree: Tree<C>,
    existing: seq<Witness<C>>,
    emitted: Option<(WalletTx<C, E, N>, seq<Witness<C>>)>)

  /** One iteration of `scan_block`'s loop: match spends, scan outputs with a fresh
      list of new witnesses, and emit a `WalletTx` if anything matched. */
  function ScanTx<K, C, E, N>(
    p: ScanPrimitives<K, C, E, N>, ivks: seq<K>, nullifiers: seq<(Bytes, nat)>, tx: CompactTx,
    tree: Tree<C>, existing: seq<Witness<C>>)
    : Result<TxScan<C, E, N>, ScanError>
  {
    var spends := MatchSpends(tx.spends, nullifiers, 0);
    var spentFrom := SpentFrom(spends);
    var s := ScanOutputs(p, ivks, spentFrom, tx.outputs, 0, OutputsScan(tree, existing, [], []));
    if |spends| == 0 && |s.outputs| == 0 then
      Success(TxScan(s.tree, s.existing, None))
    else if |tx.hash| != 32 then
      Failure(TxIdLength(|tx.hash|))
    else
      var wtx := WalletTx(tx.hash, |tx.spends|, |tx.outputs|, spends, s.outputs);
      Success(TxScan(s.tree, s.existing, Some((wtx, s.witnesses))))
  }

  datatype BlockScan<C, E, N> = BlockScan(
    tree: Tree<C>,
    existing: seq<Witness<C>>,
    wtxs: seq<(WalletTx<C, E, N>, seq<Witness<C>>)>)

  /** Scans the transactions from `i` on. */
  function ScanTxs<K, C, E, N>(
    p: ScanPrimitives<K, C, E, N>, ivks: seq<K>, nullifiers: seq<(Bytes, nat)>, vtx: seq<CompactTx>,
    i: nat, acc: BlockScan<C, E, N>)
    : Result<BlockScan<C, E, N>, ScanError>
    requires i <= |vtx|
    decreases |vtx| - i
  {
    if i == |vtx| then Success(acc)
    else
      var t :- ScanTx(p, ivks, nullifiers, vtx[i], acc.tree, acc.existing);
      ScanTxs(p, ivks, nullifiers, vtx, i + 1, Record(acc.wtxs, t))
  }

  /** The block state after a transaction: its tree and existing witnesses, and its
      `WalletTx` pushed when it was emitted. */
  function Record<C, E, N>(wtxs: seq<(WalletTx<C, E, N>, seq<Witness<C>>)>, t: TxScan<C, E, N>): BlockScan<C, E, N> {
    BlockScan(t.tree, t.existing, if t.emitted.Some? then wtxs + [t.emitted.value] else wtxs)
  }

  /** `scan_block`, as written: witnesses returned for an earlier transaction of
      the block are not advanced by the outputs of later ones. */
  function ScanBlock<K, C, E, N>(
    p: ScanPrimitives<K, C, E, N>, block: CompactBlock, ivks: seq<K>, nullifiers: seq<(Bytes, nat)>,
    tree: Tree<C>, existing: seq<Witness<C>>)
    : Result<BlockScan<C, E, N>, ScanError>
  {
    ScanTxs(p, ivks, nullifiers, block.vtx, 0, BlockScan(tree, existing, []))
  }

  // ---------------------------------------------------------------------------
  // scan_block, with witnesses from earlier transactions advanced

  function AdvanceBy<C>(w: Witness<C>, leaves: seq<C>): Witness<C> {
    w.(filled := w.filled + leaves)
  }

  /** Gives every witness already returned for an earlier transaction of the block
      the leaves appended by a later one. */
  function AdvanceEmitted<C, E, N>(wtxs: seq<(WalletTx<C, E, N>, seq<Witness<C>>)>, leaves: seq<C>)
    : (r: seq<(WalletTx<C, E, N>, seq<Witness<C>>)>)
    ensures |r| == |wtxs|
    ensures forall k :: 0 <= k < |r| ==> r[k].0 == wtxs[k].0 && AllAdvanced(r[k].1, wtxs[k].1, leaves)
  {
    seq(|wtxs|, k requires 0 <= k < |wtxs| =>
      (wtxs[k].0, seq(|wtxs[k].1|, j requires 0 <= j < |wtxs[k].1| => AdvanceBy(wtxs[k].1[j], leaves))))
  }

  function ScanTxsFixed<K, C, E, N>(
    p: ScanPrimitives<K, C, E, N>, ivks: seq<K>, nullifiers: seq<(Bytes, nat)>, vtx: seq<CompactTx>,
    i: nat, acc: BlockScan<C, E, N>)
    : Result<BlockScan<C, E, N>, ScanError>
    requires i <= |vtx|
    decreases |vtx| - i
  {
    if i == |vtx| then Success(acc)
    else
      var t :- ScanTx(p, ivks, nullifiers, vtx[i], acc.tree, acc.existing);
      ScanTxsFixed(p, ivks, nullifiers, vtx, i + 1, Record(AdvanceEmitted(acc.wtxs, Leaves(p, vtx[i].outputs, 0)), t))
  }

  /** `scan_block` as its documentation intends: every witness created earlier in the
      block, not only earlier in the same transaction, receives each later leaf. */
  function ScanBlockFixed<K, C, E, N>(
    p: ScanPrimitives<K, C, E, N>, block: CompactBlock, ivks: seq<K>, nullifiers: seq<(Bytes, nat)>,
    tree: Tree<C>, existing: seq<Witness<C>>)
    : Result<BlockScan<C, E, N>, ScanError>
  {
    ScanTxsFixed(p, ivks, nullifiers, block.vtx, 0, BlockScan(tree, existing, []))
  }
}
