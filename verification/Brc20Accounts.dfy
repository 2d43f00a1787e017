/** What a replay comes to for every account and every transaction, told from the operations alone. */
module Brc20Accounts {
  import opened Common
  import opened Brc20Ledger

  // ---------- the account of an address ----------

  /** The address has minted the tick. */
  predicate Opened(txs: seq<Transaction>, tick: string, address: string) {
    txs != [] &&
    (Opened(txs[..|txs| - 1], tick, address)
     || (ValidMint(txs[..|txs| - 1], txs[|txs| - 1], tick) && txs[|txs| - 1].address == address))
  }

  /** What an address can still reserve: all it was granted but what it has reserved. */
  function Spendable(failed: seq<string>, txs: seq<Transaction>, tick: string, address: string): int
    decreases |txs|, 1
  {
    Granted(txs, tick, address) - Reserved(failed, txs, tick, address)
  }

  /** The transaction after `txs` is a transfer that goes through: it has not failed before, and its address has enough. */
  predicate Accepted(failed: seq<string>, txs: seq<Transaction>, tx: Transaction)
    decreases |txs|, 2
  {
    && tx.op.Transfer? && !Recorded(failed, txs, tx.txid) && Opened(txs, tx.op.tick, tx.address)
    && tx.op.amt <= Spendable(failed, txs, tx.op.tick, tx.address)
  }

  /** It fails: a mint that is not valid, or a transfer that has not failed before and does not go through. */
  predicate Fails(failed: seq<string>, txs: seq<Transaction>, tx: Transaction)
    decreases |txs|, 3
  {
    match tx.op
    case Mint(tick, _) => !ValidMint(txs, tx, tick)
    case Transfer(_, _) => !Recorded(failed, txs, tx.txid) && !Accepted(failed, txs, tx)
    case _ => false
  }

  /** The transaction is among the failures, from an earlier run or from this one. */
  predicate Recorded(failed: seq<string>, txs: seq<Transaction>, txid: string)
    decreases |txs|, 0
  {
    if txs == [] then FailKey(txid) in failed
    else
      var init, tx := txs[..|txs| - 1], txs[|txs| - 1];
      Recorded(failed, init, txid) || (tx.txid == txid && Fails(failed, init, tx))
  }

  /** The sum of the amounts of an address's transfers that went through. */
  function Reserved(failed: seq<string>, txs: seq<Transaction>, tick: string, address: string): int
    decreases |txs|, 0
  {
    if txs == [] then 0
    else
      var init, tx := txs[..|txs| - 1], txs[|txs| - 1];
      Reserved(failed, init, tick, address) + (if tx.op.Transfer? && Reserves(failed, init, tx, tick, address) then tx.op.amt else 0)
  }

  /** The transaction is a transfer of this account, and goes through. */
  predicate Reserves(failed: seq<string>, txs: seq<Transaction>, tx: Transaction, tick: string, address: string)
    decreases |txs|, 4
  {
    tx.op.Transfer? && tx.op.tick == tick && tx.address == address && Accepted(failed, txs, tx)
  }

  /** The transaction that last changed the account. */
  function LastId(failed: seq<string>, txs: seq<Transaction>, tick: string, address: string): string {
    if txs == [] then ""
    else
      var init, tx := txs[..|txs| - 1], txs[|txs| - 1];
      if (ValidMint(init, tx, tick) && tx.address == address) || Reserves(failed, init, tx, tick, address) then tx.id
      else LastId(failed, init, tick, address)
  }

  /** A row is the account of its address: what the mints granted, what the transfers reserved, and the rest. */
  predicate IsAccount(row: Balance, failed: seq<string>, txs: seq<Transaction>) {
    && Opened(txs, row.tick, row.address)
    && row.overall == Granted(txs, row.tick, row.address)
    && row.transferable == Reserved(failed, txs, row.tick, row.address)
    && row.available == Spendable(failed, txs, row.tick, row.address)
    && row.id == LastId(failed, txs, row.tick, row.address)
  }

  // ---------- one transaction ----------

  /** The part of an account that is not known from what is granted. */
  predicate Tracks(row: Balance, failed: seq<string>, txs: seq<Transaction>) {
    && Opened(txs, row.tick, row.address)
    && row.transferable == Reserved(failed, txs, row.tick, row.address)
    && row.id == LastId(failed, txs, row.tick, row.address)
  }

  predicate AllTrack(rows: seq<Balance>, failed: seq<string>, txs: seq<Transaction>) {
    forall k :: 0 <= k < |rows| ==> Tracks(rows[k], failed, txs)
  }

  ghost predicate NoneMissing(rows: seq<Balance>, txs: seq<Transaction>) {
    forall tick, address :: Opened(txs, tick, address) ==> HasEntry(rows, tick, address)
  }

  /** The failure table holds exactly the transactions that are recorded. */
  ghost predicate FailuresAgree(keys: seq<string>, failed: seq<string>, txs: seq<Transaction>) {
    forall txid :: FailKey(txid) in keys <==> Recorded(failed, txs, txid)
  }

  ghost predicate Follows(ledger: Ledger, failed: seq<string>, txs: seq<Transaction>) {
    && AllTrack(ledger.balances, failed, txs) && NoneMissing(ledger.balances, txs)
    && FailuresAgree(ledger.failed, failed, txs)
  }

  lemma FailKeyInjective(a: string, b: string)
    requires FailKey(a) == FailKey(b)
    ensures a == b
  {
    assert FailKey(a)[..|a|] == a && FailKey(b)[..|b|] == b;
  }

  lemma {:induction false} UnopenedIsEmpty(failed: seq<string>, txs: seq<Transaction>, tick: string, address: string)
    requires !Opened(txs, tick, address)
    ensures Granted(txs, tick, address) == 0 && Reserved(failed, txs, tick, address) == 0
    decreases |txs|
  {
    if txs != [] {
      var init, tx := txs[..|txs| - 1], txs[|txs| - 1];
      UnopenedIsEmpty(failed, init, tick, address);
      assert Accepted(failed, init, tx) ==> tx.op.Transfer? && Opened(init, tx.op.tick, tx.address);
    }
  }

  lemma AppendLast(txs: seq<Transaction>, tx: Transaction)
    ensures (txs + [tx])[..|txs + [tx]| - 1] == txs && (txs + [tx])[|txs + [tx]| - 1] == tx
  {}

  /** A transaction that neither mints nor reserves leaves every account as it was. */
  lemma StaysTracked(row: Balance, failed: seq<string>, txs: seq<Transaction>, tx: Transaction)
    requires Tracks(row, failed, txs)
    requires !(ValidMint(txs, tx, row.tick) && tx.address == row.address)
    requires !Reserves(failed, txs, tx, row.tick, row.address)
    ensures Tracks(row, failed, txs + [tx])
  {
    AppendLast(txs, tx);
  }

  lemma OpenedNext(txs: seq<Transaction>, tx: Transaction, tick: string, address: string)
    ensures Opened(txs + [tx], tick, address) <==>
            Opened(txs, tick, address) || (ValidMint(txs, tx, tick) && tx.address == address)
  {
    AppendLast(txs, tx);
  }

  lemma RecordedNext(failed: seq<string>, txs: seq<Transaction>, tx: Transaction, txid: string)
    ensures Recorded(failed, txs + [tx], txid) <==> Recorded(failed, txs, txid) || (tx.txid == txid && Fails(failed, txs, tx))
  {
    AppendLast(txs, tx);
  }

  /** The failures after a transaction that fails, once or again, and after one that does not. */
  lemma FailuresNext(keys: seq<string>, after: seq<string>, failed: seq<string>, txs: seq<Transaction>, tx: Transaction)
    requires FailuresAgree(keys, failed, txs)
    requires forall key :: key in after <==> key in keys || (Fails(failed, txs, tx) && key == FailKey(tx.txid))
    ensures FailuresAgree(after, failed, txs + [tx])
  {
    forall txid ensures FailKey(txid) in after <==> Recorded(failed, txs + [tx], txid) {
      RecordedNext(failed, txs, tx, txid);
      if FailKey(txid) == FailKey(tx.txid) {
        FailKeyInjective(txid, tx.txid);
      }
    }
  }

  lemma MintIsValid(ledger: Ledger, txs: seq<Transaction>, tx: Transaction, tick: string)
    requires CoinAgrees(ledger.coins, txs, tick)
    ensures Minting(ledger, tx, tick) <==> ValidMint(txs, tx, tick)
  {}

  /** A mint credits its own account and leaves what is reserved, there and everywhere. */
  lemma MintTracks(ledger: Ledger, failed: seq<string>, txs: seq<Transaction>, tx: Transaction, minted: I32)
    requires Follows(ledger, failed, txs) && tx.op.Mint? && ValidMint(txs, tx, tx.op.tick)
    ensures var rows := CreditOrOpen(ledger.balances, tx.op.tick, tx.address, minted, tx.id);
            AllTrack(rows, failed, txs + [tx]) && NoneMissing(rows, txs + [tx])
  {
    var before, tick := ledger.balances, tx.op.tick;
    var rows := CreditOrOpen(before, tick, tx.address, minted, tx.id);
    CreditShape(before, tick, tx.address, minted, tx.id);
    AppendLast(txs, tx);
    forall k | 0 <= k < |rows| ensures Tracks(rows[k], failed, txs + [tx]) {
      if k < |before| {
        assert Tracks(before[k], failed, txs);
      } else {
        NewRowTracks(before, failed, txs, tx);
      }
    }
    forall t, a | Opened(txs + [tx], t, a) ensures HasEntry(rows, t, a) {
      CreditedEntry(before, tick, tx.address, minted, tx.id, t, a);
      OpenedNext(txs, tx, t, a);
    }
  }

  lemma NewRowTracks(rows: seq<Balance>, failed: seq<string>, txs: seq<Transaction>, tx: Transaction)
    requires NoneMissing(rows, txs) && tx.op.Mint? && ValidMint(txs, tx, tx.op.tick) && !HasEntry(rows, tx.op.tick, tx.address)
    ensures Opened(txs + [tx], tx.op.tick, tx.address)
    ensures Reserved(failed, txs + [tx], tx.op.tick, tx.address) == 0
    ensures LastId(failed, txs + [tx], tx.op.tick, tx.address) == tx.id
  {
    AppendLast(txs, tx);
    UnopenedIsEmpty(failed, txs, tx.op.tick, tx.address);
  }

  lemma CreditedEntry(rows: seq<Balance>, tick: string, address: string, amt: I32, id: string, t: string, a: string)
    ensures HasEntry(CreditOrOpen(rows, tick, address, amt, id), t, a) <==>
            HasEntry(rows, t, a) || (t == tick && a == address)
  {
    var after := CreditOrOpen(rows, tick, address, amt, id);
    CreditShape(rows, tick, address, amt, id);
    forall i | 0 <= i < |rows| ensures Owns(after[i], t, a) == Owns(rows[i], t, a) {}
    if HasEntry(rows, t, a) {
      var i :| 0 <= i < |rows| && Owns(rows[i], t, a);
      assert Owns(after[i], t, a);
    } else if t == tick && a == address {
      assert Owns(after[|rows|], t, a);
    }
  }

  lemma MintFollows(ledger: Ledger, failed: seq<string>, txs: seq<Transaction>, tx: Transaction)
    requires Follows(ledger, failed, txs) && tx.op.Mint? && CoinAgrees(ledger.coins, txs, tx.op.tick)
    ensures Follows(Apply(ledger, tx), failed, txs + [tx])
  {
    MintIsValid(ledger, txs, tx, tx.op.tick);
    FailuresNext(ledger.failed, Apply(ledger, tx).failed, failed, txs, tx);
    if Minting(ledger, tx, tx.op.tick) {
      MintTracks(ledger, failed, txs, tx, Minted(FindCoin(ledger.coins, tx.op.tick).value, tx.op.amt));
    } else {
      UnchangedTrack(ledger.balances, failed, txs, tx);
    }
  }

  /** A transaction that changes no balance. */
  lemma UnchangedTrack(rows: seq<Balance>, failed: seq<string>, txs: seq<Transaction>, tx: Transaction)
    requires AllTrack(rows, failed, txs) && NoneMissing(rows, txs)
    requires forall tick :: !ValidMint(txs, tx, tick)
    requires !Accepted(failed, txs, tx)
    ensures AllTrack(rows, failed, txs + [tx]) && NoneMissing(rows, txs + [tx])
  {
    forall k | 0 <= k < |rows| ensures Tracks(rows[k], failed, txs + [tx]) {
      StaysTracked(rows[k], failed, txs, tx);
    }
    forall t, a | Opened(txs + [tx], t, a) ensures HasEntry(rows, t, a) {
      OpenedNext(txs, tx, t, a);
    }
  }

  // ---------- transfers ----------

  predicate AllGranted(rows: seq<Balance>, txs: seq<Transaction>) {
    forall k :: 0 <= k < |rows| ==> rows[k].overall == Granted(txs, rows[k].tick, rows[k].address)
  }

  /** The row says what the account can spend. */
  lemma RowSpendable(row: Balance, failed: seq<string>, txs: seq<Transaction>)
    requires Tracks(row, failed, txs) && ExactRow(row) && row.overall == Granted(txs, row.tick, row.address)
    ensures IsAccount(row, failed, txs)
  {}

  lemma ReservedTrack(rows: seq<Balance>, failed: seq<string>, txs: seq<Transaction>, tx: Transaction, k: nat, row: Balance)
    requires AllTrack(rows, failed, txs) && NoneMissing(rows, txs) && UniqueEntries(rows)
    requires tx.op.Transfer? && k < |rows| && Owns(rows[k], tx.op.tick, tx.address) && Accepted(failed, txs, tx)
    requires Owns(row, tx.op.tick, tx.address) && row.id == tx.id
    requires row.transferable == rows[k].transferable + tx.op.amt
    ensures AllTrack(rows[k := row], failed, txs + [tx]) && NoneMissing(rows[k := row], txs + [tx])
  {
    OneOwner(rows, tx.op.tick, tx.address, k);
    AppendLast(txs, tx);
    var after := rows[k := row];
    forall i | 0 <= i < |after| ensures Tracks(after[i], failed, txs + [tx]) {
      assert Tracks(rows[i], failed, txs);
      if i != k {
        StaysTracked(rows[i], failed, txs, tx);
      }
    }
    forall t, a | Opened(txs + [tx], t, a) ensures HasEntry(after, t, a) {
      OpenedNext(txs, tx, t, a);
      var i :| 0 <= i < |rows| && Owns(rows[i], t, a);
      assert Owns(after[i], t, a);
    }
  }

  lemma TransferFollows(ledger: Ledger, failed: seq<string>, txs: seq<Transaction>, tx: Transaction)
    requires Follows(ledger, failed, txs) && tx.op.Transfer? && NonNegative(tx.op)
    requires WellKept(ledger) && ExactRows(ledger.balances) && AllGranted(ledger.balances, txs)
    ensures Follows(Apply(ledger, tx), failed, txs + [tx])
  {
    var rows, tick := ledger.balances, tx.op.tick;
    if FailKey(tx.txid) in ledger.failed {
      assert Recorded(failed, txs, tx.txid);
      FailuresNext(ledger.failed, ledger.failed, failed, txs, tx);
      UnchangedTrack(rows, failed, txs, tx);
    } else if HasEntry(rows, tick, tx.address) {
      var k :| 0 <= k < |rows| && Owns(rows[k], tick, tx.address);
      assert Tracks(rows[k], failed, txs) && ExactRow(rows[k]);
      RowSpendable(rows[k], failed, txs);
      TransferMovesOrFails(ledger, tx, k);
      FailuresNext(ledger.failed, Apply(ledger, tx).failed, failed, txs, tx);
      if rows[k].available >= tx.op.amt {
        ReservedTrack(rows, failed, txs, tx, k, Apply(ledger, tx).balances[k]);
        assert Apply(ledger, tx).balances == rows[k := Apply(ledger, tx).balances[k]];
      } else {
        UnchangedTrack(rows, failed, txs, tx);
      }
    } else {
      TransferWithoutEntryFails(ledger, tx);
      FailuresNext(ledger.failed, Apply(ledger, tx).failed, failed, txs, tx);
      UnchangedTrack(rows, failed, txs, tx);
    }
  }

  // ---------- the whole replay ----------

  lemma ReplayGranted(failed: seq<string>, txs: seq<Transaction>)
    requires AllNonNegative(txs)
    ensures AllGranted(Replay(failed, txs).balances, txs)
  {
    var rows := Replay(failed, txs).balances;
    ReplayWellKept(failed, txs);
    forall k | 0 <= k < |rows| ensures rows[k].overall == Granted(txs, rows[k].tick, rows[k].address) {
      HeldIs(rows, k);
      HeldIsGranted(failed, txs, rows[k].tick, rows[k].address);
    }
  }

  lemma StepFollows(failed: seq<string>, txs: seq<Transaction>, tx: Transaction)
    requires AllNonNegative(txs) && NonNegative(tx.op) && Follows(Replay(failed, txs), failed, txs)
    ensures Follows(Apply(Replay(failed, txs), tx), failed, txs + [tx])
  {
    var ledger := Replay(failed, txs);
    match tx.op {
      case Mint(tick, _) =>
        SupplyIsConserved(failed, txs, tick);
        MintFollows(ledger, failed, txs, tx);
      case Transfer(_, _) =>
        ReplayWellKept(failed, txs);
        SupplyIsExact(failed, txs);
        ReplayGranted(failed, txs);
        TransferFollows(ledger, failed, txs, tx);
      case _ =>
        FailuresNext(ledger.failed, ledger.failed, failed, txs, tx);
        UnchangedTrack(ledger.balances, failed, txs, tx);
    }
  }

  lemma {:induction false} ReplayFollows(failed: seq<string>, txs: seq<Transaction>)
    requires AllNonNegative(txs)
    ensures Follows(Replay(failed, txs), failed, txs)
    decreases |txs|
  {
    if txs != [] {
      var init, tx := txs[..|txs| - 1], txs[|txs| - 1];
      assert txs == init + [tx];
      ReplayFollows(failed, init);
      StepFollows(failed, init, tx);
    }
  }

  /** With non-negative amounts an address has an entry exactly if it has minted the tick, and every row is its account:
      overall what its mints were granted, transferable what its accepted transfers reserved, available the rest, and
      the id of the transaction that last changed it. */
  lemma RowsAreAccounts(failed: seq<string>, txs: seq<Transaction>)
    requires AllNonNegative(txs)
    ensures forall row :: row in Replay(failed, txs).balances ==> IsAccount(row, failed, txs)
    ensures forall tick, address :: HasEntry(Replay(failed, txs).balances, tick, address) <==> Opened(txs, tick, address)
  {
    var rows := Replay(failed, txs).balances;
    ReplayFollows(failed, txs);
    ReplayGranted(failed, txs);
    SupplyIsExact(failed, txs);
    forall k | 0 <= k < |rows| ensures IsAccount(rows[k], failed, txs) {
      RowSpendable(rows[k], failed, txs);
    }
    forall tick, address ensures HasEntry(rows, tick, address) <==> Opened(txs, tick, address) {
      if HasEntry(rows, tick, address) {
        var k :| 0 <= k < |rows| && Owns(rows[k], tick, address);
        assert IsAccount(rows[k], failed, txs);
      }
    }
  }

  /** And the failure table holds exactly the transactions that fail: the invalid mints, and the transfers of more than
      an address has left, each counted from its first failure on. */
  lemma FailuresAreExact(failed: seq<string>, txs: seq<Transaction>, txid: string)
    requires AllNonNegative(txs)
    ensures txid + "i0" in Replay(failed, txs).failed <==> Recorded(failed, txs, txid)
  {
    ReplayFollows(failed, txs);
    assert FailKey(txid) == txid + "i0";
  }

  // ---------- coins ----------

  /** The transaction that first deployed the tick. */
  function DeployId(txs: seq<Transaction>, tick: string): string {
    if txs == [] then ""
    else
      var init, tx := txs[..|txs| - 1], txs[|txs| - 1];
      if FirstDeploy(init, tick).None? && tx.op.Deploy? && tx.op.tick == tick then tx.id else DeployId(init, tick)
  }

  lemma AppliedCoin(ledger: Ledger, tx: Transaction, tick: string)
    ensures var found, after := FindCoin(ledger.coins, tick), FindCoin(Apply(ledger, tx).coins, tick);
            if found.Some? then after.Some? && after.value.id == found.value.id
            else if Deploying(ledger, tx, tick) then after == Some(Coin(tick, tx.op.max, tx.op.limit, tx.id))
            else after.None?
  {
    match tx.op {
      case Deploy(t, max, limit) => FindAppended(ledger.coins, Coin(t, max, limit, tx.id), tick);
      case Mint(t, amt) =>
        if Minting(ledger, tx, t) {
          DebitFinds(ledger.coins, t, Minted(FindCoin(ledger.coins, t).value, amt), tick);
        }
      case _ =>
    }
  }

  /** Whatever the amounts, a coin is the first deployment of its tick: its limit, and its transaction; later ones change
      nothing. */
  lemma {:induction false} CoinsAreDeployments(failed: seq<string>, txs: seq<Transaction>, tick: string)
    ensures var coin, first := FindCoin(Replay(failed, txs).coins, tick), FirstDeploy(txs, tick);
            && (coin.Some? <==> first.Some?)
            && (coin.Some? ==> coin.value.limit == first.value.limit && coin.value.id == DeployId(txs, tick))
    decreases |txs|
  {
    SupplyIsConserved(failed, txs, tick);
    if txs != [] {
      var init, tx := txs[..|txs| - 1], txs[|txs| - 1];
      CoinsAreDeployments(failed, init, tick);
      AppliedCoin(Replay(failed, init), tx, tick);
    }
  }
}
