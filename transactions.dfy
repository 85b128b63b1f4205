/**
 * Confirmation tracking of submitted transactions
 * (src/state/transactions/updater.tsx): the adaptive rule that decides whether
 * a pending transaction's receipt is due for a lookup at the current block,
 * and the per-block cycle that looks receipts up and updates the store of
 * pending transactions.
 */
module Transactions {
  import opened Wrappers

  type Hash = string

  /** A chain id; 0 stands for both `0` and `undefined`, which the cycle treats alike. */
  type ChainId = int

  /** The eight fields of a receipt that the store keeps. */
  datatype SerializableReceipt = SerializableReceipt(
    blockHash: string,
    blockNumber: int,
    contractAddress: string,
    from: string,
    status: Option<int>,
    to: string,
    transactionHash: Hash,
    transactionIndex: int)

  /** A receipt as the node returns it: the kept fields and others that are dropped. */
  datatype NodeReceipt = NodeReceipt(
    blockHash: string,
    blockNumber: int,
    contractAddress: string,
    from: string,
    status: Option<int>,
    to: string,
    transactionHash: Hash,
    transactionIndex: int,
    gasUsed: int,
    confirmations: int,
    logs: seq<string>)

  /** What the cycle reads of a stored transaction. */
  datatype TransactionDetails = TransactionDetails(
    addedTime: int,
    lastCheckedBlockNumber: Option<int>,
    receipt: Option<SerializableReceipt>)

  /** How `library.getTransactionReceipt(hash)` settles. */
  datatype Lookup = Found(receipt: NodeReceipt) | NotFound | Failed(error: string)

  /** The two actions the cycle dispatches. */
  datatype Action =
    | FinalizeTransaction(chainId: ChainId, hash: Hash, receipt: SerializableReceipt)
    | CheckedTransaction(chainId: ChainId, hash: Hash, blockNumber: int)

  datatype ToastType = Success | Danger

  /** A notification; its id, derived from the clock, is not modelled. */
  datatype Toast = Toast(title: string, description: string, kind: ToastType, actionText: string, url: string)

  const ExplorerTxUrl := "https://testnet.bscscan.com/tx/"

  /** JavaScript truthiness of an optional block number. */
  predicate Truthy(n: Option<int>)
  {
    n.Some? && n.value != 0
  }

  // ---------------------------------------------------------------------------
  // The decision rule

  /**
   * How many blocks must have passed since the last check, by the time a
   * transaction has been pending (in milliseconds): every block for the first
   * five minutes, every third block up to an hour, every tenth block after that.
   */
  function RequiredBlocks(elapsedMs: int): (n: nat)
    ensures n == 1 || n == 3 || n == 10
  {
    if elapsedMs > 3_600_000 then 10
    else if elapsedMs > 300_000 then 3
    else 1
  }

  /**
   * `shouldCheck(currentBlock, tx)` with the clock reading `now` (milliseconds)
   * passed in. The minutes pending are a real quotient, as in the source.
   */
  function ShouldCheck(currentBlock: int, tx: TransactionDetails, now: int): (due: bool)
    ensures due <==> (tx.receipt.None? && (!Truthy(tx.lastCheckedBlockNumber)
      || currentBlock - tx.lastCheckedBlockNumber.value >= RequiredBlocks(now - tx.addedTime)))
  {
    if tx.receipt.Some? then false
    else if !Truthy(tx.lastCheckedBlockNumber) then true
    else
      var blocksSinceCheck := currentBlock - tx.lastCheckedBlockNumber.value;
      if blocksSinceCheck < 1 then false
      else
        var minutesPending := (now - tx.addedTime) as real / 1000.0 / 60.0;
        if minutesPending > 60.0 then blocksSinceCheck > 9
        else if minutesPending > 5.0 then blocksSinceCheck > 2
        else true
  }

  /** A transaction with a receipt is never due again, at any block and any time. */
  lemma FinalizedNeverDue(tx: TransactionDetails, currentBlock: int, now: int)
    requires tx.receipt.Some?
    ensures !ShouldCheck(currentBlock, tx, now)
  {
  }

  /** A transaction without a receipt that was never checked is due at once. */
  lemma UncheckedIsDue(tx: TransactionDetails, currentBlock: int, now: int)
    requires tx.receipt.None? && !Truthy(tx.lastCheckedBlockNumber)
    ensures ShouldCheck(currentBlock, tx, now)
  {
  }

  /** No new block since the last check means not due, whatever the age. */
  lemma NoNewBlockNotDue(tx: TransactionDetails, currentBlock: int, now: int)
    requires Truthy(tx.lastCheckedBlockNumber)
    requires currentBlock - tx.lastCheckedBlockNumber.value < 1
    ensures !ShouldCheck(currentBlock, tx, now)
  {
  }

  /** The three tiers, for a checked transaction without a receipt. */
  lemma Tiers(tx: TransactionDetails, currentBlock: int, now: int)
    requires tx.receipt.None? && Truthy(tx.lastCheckedBlockNumber)
    ensures var blocksSinceCheck := currentBlock - tx.lastCheckedBlockNumber.value;
      && (now - tx.addedTime > 3_600_000 ==> (ShouldCheck(currentBlock, tx, now) <==> blocksSinceCheck >= 10))
      && (300_000 < now - tx.addedTime <= 3_600_000 ==> (ShouldCheck(currentBlock, tx, now) <==> blocksSinceCheck >= 3))
      && (now - tx.addedTime <= 300_000 ==> (ShouldCheck(currentBlock, tx, now) <==> blocksSinceCheck >= 1))
  {
  }

  /** Once due at some block, a transaction stays due at every later block (same clock reading). */
  lemma DueIsMonotoneInBlock(tx: TransactionDetails, block: int, later: int, now: int)
    requires block <= later
    requires ShouldCheck(block, tx, now)
    ensures ShouldCheck(later, tx, now)
  {
  }

  /** The cadence at the boundaries: 70, 6 and 2 minutes pending. */
  lemma CadenceExamples(addedTime: int)
    ensures var tx := TransactionDetails(addedTime, Some(100), None);
      && ShouldCheck(110, tx, addedTime + 70 * 60_000)
      && !ShouldCheck(109, tx, addedTime + 70 * 60_000)
      && ShouldCheck(103, tx, addedTime + 6 * 60_000)
      && !ShouldCheck(102, tx, addedTime + 6 * 60_000)
      && ShouldCheck(101, tx, addedTime + 2 * 60_000)
  {
  }

  // ---------------------------------------------------------------------------
  // One lookup

  /** The receipt as stored: the eight copied fields. */
  function Serialize(r: NodeReceipt): (s: SerializableReceipt)
    ensures s.blockHash == r.blockHash && s.blockNumber == r.blockNumber
    ensures s.contractAddress == r.contractAddress && s.from == r.from
    ensures s.status == r.status && s.to == r.to
    ensures s.transactionHash == r.transactionHash && s.transactionIndex == r.transactionIndex
  {
    SerializableReceipt(r.blockHash, r.blockNumber, r.contractAddress, r.from,
      r.status, r.to, r.transactionHash, r.transactionIndex)
  }

  /** The action a settled lookup dispatches, if any. */
  function ActionFor(chainId: ChainId, hash: Hash, currentBlock: int, lookup: Lookup): (a: Option<Action>)
    ensures a.None? <==> lookup.Failed?
    ensures lookup.NotFound? ==> a == Some(CheckedTransaction(chainId, hash, currentBlock))
    ensures lookup.Found? ==> (a.Some? && a.value.FinalizeTransaction?
      && a.value.chainId == chainId && a.value.hash == hash
      && var (kept, got) := (a.value.receipt, lookup.receipt);
        && kept.blockHash == got.blockHash && kept.blockNumber == got.blockNumber
        && kept.contractAddress == got.contractAddress && kept.from == got.from
        && kept.status == got.status && kept.to == got.to
        && kept.transactionHash == got.transactionHash && kept.transactionIndex == got.transactionIndex)
  {
    match lookup
    case Found(receipt) => Some(FinalizeTransaction(chainId, hash, Serialize(receipt)))
    case NotFound => Some(CheckedTransaction(chainId, hash, currentBlock))
    case Failed(_) => None
  }

  /** The toast raised for a found receipt: success exactly when the status is 1. */
  function ToastFor(receipt: NodeReceipt): (t: Toast)
    ensures t.kind == Success <==> receipt.status == Some(1)
    ensures t.url == ExplorerTxUrl + receipt.transactionHash
  {
    Toast("Transaction", "Transaction receipt",
      if receipt.status == Some(1) then Success else Danger,
      "View transaction", ExplorerTxUrl + receipt.transactionHash)
  }

  /**
   * The store's update for one action on one transaction: finalizing attaches
   * the receipt, a check records the block number.
   */
  function Reduce(tx: TransactionDetails, a: Action): TransactionDetails
  {
    match a
    case FinalizeTransaction(_, _, receipt) => tx.(receipt := Some(receipt))
    case CheckedTransaction(_, _, blockNumber) => tx.(lastCheckedBlockNumber := Some(blockNumber))
  }

  /** A transaction after its lookup settled and the resulting action, if any, was applied. */
  function Settled(tx: TransactionDetails, chainId: ChainId, hash: Hash, currentBlock: int, lookup: Lookup)
    : TransactionDetails
  {
    match ActionFor(chainId, hash, currentBlock, lookup)
    case None => tx
    case Some(a) => Reduce(tx, a)
  }

  /**
   * One chain's transactions after a cycle at `currentBlock`: each due
   * transaction is settled by its own lookup, the others stay as they are.
   */
  function Settle(txs: map<Hash, TransactionDetails>, chainId: ChainId, currentBlock: int, now: int,
                  lookup: Hash -> Lookup): (r: map<Hash, TransactionDetails>)
    ensures r.Keys == txs.Keys
    ensures forall h :: h in txs && txs[h].receipt.Some? ==> r[h] == txs[h]
    ensures forall h :: h in txs && lookup(h).Failed? ==> r[h] == txs[h]
    ensures forall h :: h in txs && !ShouldCheck(currentBlock, txs[h], now) ==> r[h] == txs[h]
    ensures forall h :: (h in txs && ShouldCheck(currentBlock, txs[h], now) && lookup(h).Found?
      ==> r[h] == txs[h].(receipt := Some(Serialize(lookup(h).receipt))))
    ensures forall h :: (h in txs && ShouldCheck(currentBlock, txs[h], now) && lookup(h).NotFound?
      ==> r[h] == txs[h].(lastCheckedBlockNumber := Some(currentBlock)))
  {
    map h | h in txs :: if ShouldCheck(currentBlock, txs[h], now) then Settled(txs[h], chainId, h, currentBlock, lookup(h)) else txs[h]
  }

  /** A finalized transaction stays finalized, and a cycle attaches receipts only to due transactions. */
  lemma SettleKeepsFinalized(txs: map<Hash, TransactionDetails>, chainId: ChainId, currentBlock: int, now: int,
                             lookup: Hash -> Lookup, h: Hash)
    requires h in txs
    ensures var after := Settle(txs, chainId, currentBlock, now, lookup)[h];
      && (txs[h].receipt.Some? ==> after.receipt == txs[h].receipt)
      && (after.receipt.Some? && txs[h].receipt.None? ==> ShouldCheck(currentBlock, txs[h], now) && lookup(h).Found?)
  {
  }

  /**
   * The block number of the last check only moves forward: a due, checked
   * transaction's last checked block lies before the current block.
   */
  lemma SettleAdvancesLastChecked(txs: map<Hash, TransactionDetails>, chainId: ChainId, currentBlock: int, now: int,
                                  lookup: Hash -> Lookup, h: Hash)
    requires h in txs && Truthy(txs[h].lastCheckedBlockNumber)
    ensures var after := Settle(txs, chainId, currentBlock, now, lookup)[h];
      after.lastCheckedBlockNumber.Some? && after.lastCheckedBlockNumber.value >= txs[h].lastCheckedBlockNumber.value
  {
  }

  /** A transaction's outcome depends only on its own lookup: lookups of distinct hashes do not interfere. */
  lemma SettleIsPerTransaction(txs: map<Hash, TransactionDetails>, chainId: ChainId, currentBlock: int, now: int,
                               lookup: Hash -> Lookup, other: Hash -> Lookup, h: Hash)
    requires h in txs && lookup(h) == other(h)
    ensures Settle(txs, chainId, currentBlock, now, lookup)[h] == Settle(txs, chainId, currentBlock, now, other)[h]
  {
  }

  /** The toasts raised by the lookups of `order`, in that order: one per found receipt. */
  function ToastsFor(order: seq<Hash>, lookup: Hash -> Lookup): (ts: seq<Toast>)
    ensures |ts| <= |order|
    decreases |order|
  {
    if order == [] then []
    else
      var last := order[|order| - 1];
      ToastsFor(order[..|order| - 1], lookup)
        + (if lookup(last).Found? then [ToastFor(lookup(last).receipt)] else [])
  }

  // ---------------------------------------------------------------------------
  // The cycle

  /** A chain's transactions while a cycle is under way: those in `done` are settled. */
  ghost function PartlySettled(txs: map<Hash, TransactionDetails>, done: set<Hash>, chainId: ChainId,
                               currentBlock: int, lookup: Hash -> Lookup): map<Hash, TransactionDetails>
  {
    map h | h in txs :: if h in done then Settled(txs[h], chainId, h, currentBlock, lookup(h)) else txs[h]
  }

  /** `Object.keys(transactions).filter(hash => shouldCheck(currentBlock, transactions[hash]))` as a set. */
  function DueHashes(txs: map<Hash, TransactionDetails>, currentBlock: int, now: int): (due: set<Hash>)
    ensures forall h :: h in due <==> h in txs && ShouldCheck(currentBlock, txs[h], now)
  {
    set h | h in txs && ShouldCheck(currentBlock, txs[h], now)
  }

  lemma PartlySettledNone(txs: map<Hash, TransactionDetails>, chainId: ChainId, currentBlock: int,
                          lookup: Hash -> Lookup)
    ensures PartlySettled(txs, {}, chainId, currentBlock, lookup) == txs
  {
  }

  lemma PartlySettledStep(txs: map<Hash, TransactionDetails>, done: set<Hash>, hash: Hash, chainId: ChainId,
                          currentBlock: int, lookup: Hash -> Lookup)
    requires hash in txs
    ensures PartlySettled(txs, done + {hash}, chainId, currentBlock, lookup)
         == PartlySettled(txs, done, chainId, currentBlock, lookup)[hash := Settled(txs[hash], chainId, hash, currentBlock, lookup(hash))]
  {
  }

  lemma PartlySettledAll(txs: map<Hash, TransactionDetails>, chainId: ChainId, currentBlock: int, now: int,
                         lookup: Hash -> Lookup)
    ensures PartlySettled(txs, DueHashes(txs, currentBlock, now), chainId, currentBlock, lookup)
         == Settle(txs, chainId, currentBlock, now, lookup)
  {
  }

  /**
   * The pending-transaction store, per chain, and the toasts raised so far.
   * `OnNewBlock` is the effect `Updater` runs whenever the chain, the provider,
   * the transactions or the current block change.
   */
  class TransactionStore {
    var state: map<ChainId, map<Hash, TransactionDetails>>
    var toasts: seq<Toast>

    constructor (initial: map<ChainId, map<Hash, TransactionDetails>>)
      ensures state == initial && toasts == []
    {
      state := initial;
      toasts := [];
    }

    /** `state[chainId] ?? {}`: the transactions tracked on that chain, none for an unknown chain. */
    function Pending(chainId: ChainId): (txs: map<Hash, TransactionDetails>)
      reads this
      ensures forall h :: h in txs <==> chainId in state && h in state[chainId]
      ensures forall h :: h in txs ==> txs[h] == state[chainId][h]
    {
      if chainId in state then state[chainId] else map[]
    }

    /**
     * The settlement of one lookup (the callback of `getTransactionReceipt`):
     * the action it yields, if any, is applied to the transaction, and a found
     * receipt raises a toast.
     */
    method Handle(chainId: ChainId, hash: Hash, currentBlock: int, outcome: Lookup)
      requires chainId in state && hash in state[chainId]
      modifies this
      ensures state == old(state)[chainId := old(state)[chainId][hash :=
        Settled(old(state)[chainId][hash], chainId, hash, currentBlock, outcome)]]
      ensures toasts == old(toasts) + (if outcome.Found? then [ToastFor(outcome.receipt)] else [])
    {
      var action := ActionFor(chainId, hash, currentBlock, outcome);
      if action.Some? {
        state := state[chainId := state[chainId][hash := Reduce(state[chainId][hash], action.value)]];
      } else {
        assert state[chainId] == state[chainId][hash := state[chainId][hash]];
      }
      if outcome.Found? {
        toasts := toasts + [ToastFor(outcome.receipt)];
      }
    }

    /**
     * The `forEach` over the due hashes: each is looked up once, in an
     * unspecified order `order`, and its settlement is applied.
     */
    method LookUpAll(chainId: ChainId, transactions: map<Hash, TransactionDetails>, due: set<Hash>,
                     currentBlock: int, lookup: Hash -> Lookup)
      returns (ghost order: seq<Hash>)
      requires chainId in state && state[chainId] == transactions && due <= transactions.Keys
      modifies this
      ensures forall h :: h in order <==> h in due
      ensures forall i, j :: 0 <= i < j < |order| ==> order[i] != order[j]
      ensures state == old(state)[chainId := PartlySettled(transactions, due, chainId, currentBlock, lookup)]
      ensures toasts == old(toasts) + ToastsFor(order, lookup)
    {
      order := [];
      var remaining := due;
      PartlySettledNone(transactions, chainId, currentBlock, lookup);
      assert due - remaining == {};
      assert state == state[chainId := state[chainId]];
      while remaining != {}
        invariant remaining <= due
        invariant forall h :: h in order <==> h in due && h !in remaining
        invariant forall i, j :: 0 <= i < j < |order| ==> order[i] != order[j]
        invariant state == old(state)[chainId := PartlySettled(transactions, due - remaining, chainId, currentBlock, lookup)]
        invariant toasts == old(toasts) + ToastsFor(order, lookup)
        decreases remaining
      {
        var hash :| hash in remaining;
        ghost var before := order;
        assert state[chainId][hash] == transactions[hash];
        Handle(chainId, hash, currentBlock, lookup(hash));
        PartlySettledStep(transactions, due - remaining, hash, chainId, currentBlock, lookup);
        assert due - (remaining - {hash}) == (due - remaining) + {hash};
        remaining := remaining - {hash};
        order := order + [hash];
        assert order[..|order| - 1] == before;
      }
      assert due - remaining == due;
    }

    /**
     * One cycle. Nothing happens unless the chain id, the provider and the
     * current block are all truthy. Otherwise every transaction of the chain for
     * which `ShouldCheck` holds is looked up once (in the unspecified order
     * `order`), the chain's transactions become `Settle(...)` and one toast is
     * raised per found receipt. Other chains are untouched.
     */
    method OnNewBlock(chainId: ChainId, hasLibrary: bool, currentBlock: int, now: int, lookup: Hash -> Lookup)
      returns (ghost order: seq<Hash>)
      modifies this
      ensures !(chainId != 0 && hasLibrary && currentBlock != 0)
        ==> state == old(state) && toasts == old(toasts) && order == []
      ensures chainId != 0 && hasLibrary && currentBlock != 0 ==>
        && (forall h :: h in order <==> h in old(Pending(chainId)) && ShouldCheck(currentBlock, old(Pending(chainId))[h], now))
        && (forall i, j :: 0 <= i < j < |order| ==> order[i] != order[j])
        && state == (if chainId in old(state)
                     then old(state)[chainId := Settle(old(state)[chainId], chainId, currentBlock, now, lookup)]
                     else old(state))
        && toasts == old(toasts) + ToastsFor(order, lookup)
    {
      order := [];
      if chainId == 0 || !hasLibrary || currentBlock == 0 {
        return;
      }
      var transactions := Pending(chainId);
      var due := DueHashes(transactions, currentBlock, now);
      if chainId in state {
        order := LookUpAll(chainId, transactions, due, currentBlock, lookup);
        PartlySettledAll(transactions, chainId, currentBlock, now, lookup);
      }
    }
  }
}
