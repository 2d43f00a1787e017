/** Replay of BRC-20 operations on the coin, balance and failure tables: what each operation does, and what holds after
    any sequence of them. */
module Brc20Ledger {
  import opened Common

  // ---------- 32-bit columns ----------

  const MODULUS: int := 0x1_0000_0000

  type I32 = x: int | -0x8000_0000 <= x < 0x8000_0000

  /** Two's complement wrap-around of the sum or difference of two columns. */
  function Wrap(x: int): (w: I32)
    requires -MODULUS <= x < MODULUS
    ensures -0x8000_0000 <= x < 0x8000_0000 ==> w == x
    ensures w == x || w == x - MODULUS || w == x + MODULUS
  {
    if x >= 0x8000_0000 then x - MODULUS else if x < -0x8000_0000 then x + MODULUS else x
  }

  predicate Congruent(a: int, b: int) {
    (a - b) % MODULUS == 0
  }

  // ---------- tables and operations ----------

  datatype Coin = Coin(tick: string, left: I32, limit: I32, id: string)

  datatype Balance =
    Balance(tick: string, address: string, overall: I32, available: I32, transferable: I32, id: string)

  datatype Operation =
    | Deploy(tick: string, max: I32, limit: I32)
    | Mint(tick: string, amt: I32)
    | Transfer(tick: string, amt: I32)
    | Other

  datatype Transaction = Transaction(address: string, id: string, txid: string, op: Operation)

  datatype Ledger = Ledger(coins: seq<Coin>, balances: seq<Balance>, failed: seq<string>)

  // ---------- the operations ----------

  function FindCoin(coins: seq<Coin>, tick: string): Option<Coin> {
    if coins == [] then None
    else
      var found := FindCoin(coins[..|coins| - 1], tick);
      if found.Some? then found
      else if coins[|coins| - 1].tick == tick then Some(coins[|coins| - 1]) else None
  }

  function FailKey(txid: string): string {
    txid + "i0"
  }

  predicate Owns(row: Balance, tick: string, address: string) {
    row.tick == tick && row.address == address
  }

  function Debit(coin: Coin, tick: string, amt: I32): Coin {
    if coin.tick == tick then coin.(left := Wrap(coin.left - amt)) else coin
  }

  function DebitAll(coins: seq<Coin>, tick: string, amt: I32): seq<Coin> {
    if coins == [] then []
    else DebitAll(coins[..|coins| - 1], tick, amt) + [Debit(coins[|coins| - 1], tick, amt)]
  }

  function Credit(row: Balance, tick: string, address: string, amt: I32, id: string): Balance {
    if Owns(row, tick, address) then
      row.(overall := Wrap(row.overall + amt), available := Wrap(row.available + amt), id := id)
    else row
  }

  function CreditAll(rows: seq<Balance>, tick: string, address: string, amt: I32, id: string): seq<Balance> {
    if rows == [] then []
    else CreditAll(rows[..|rows| - 1], tick, address, amt, id) + [Credit(rows[|rows| - 1], tick, address, amt, id)]
  }

  predicate HasEntry(rows: seq<Balance>, tick: string, address: string) {
    exists i :: 0 <= i < |rows| && Owns(rows[i], tick, address)
  }

  function CreditOrOpen(rows: seq<Balance>, tick: string, address: string, amt: I32, id: string): seq<Balance> {
    CreditAll(rows, tick, address, amt, id)
    + (if HasEntry(rows, tick, address) then [] else [Balance(tick, address, amt, amt, 0, id)])
  }

  /** Moves an amount from available to transferable, if there is enough. */
  function Reserve(row: Balance, tick: string, address: string, amt: I32, id: string): Balance {
    if Owns(row, tick, address) && row.available >= amt then
      row.(available := Wrap(row.available - amt), transferable := Wrap(row.transferable + amt), id := id)
    else row
  }

  function ReserveAll(rows: seq<Balance>, tick: string, address: string, amt: I32, id: string): seq<Balance> {
    if rows == [] then []
    else ReserveAll(rows[..|rows| - 1], tick, address, amt, id) + [Reserve(rows[|rows| - 1], tick, address, amt, id)]
  }

  /** One failure for every entry with too little available. */
  function Shortfalls(rows: seq<Balance>, tick: string, address: string, amt: I32, txid: string): seq<string> {
    if rows == [] then []
    else
      Shortfalls(rows[..|rows| - 1], tick, address, amt, txid)
      + (if Owns(rows[|rows| - 1], tick, address) && rows[|rows| - 1].available < amt then [FailKey(txid)] else [])
  }

  function ApplyDeploy(ledger: Ledger, tx: Transaction): Ledger
    requires tx.op.Deploy?
  {
    if FindCoin(ledger.coins, tx.op.tick).Some? then ledger
    else ledger.(coins := ledger.coins + [Coin(tx.op.tick, tx.op.max, tx.op.limit, tx.id)])
  }

  function RecordFailure(ledger: Ledger, txid: string): Ledger {
    if FailKey(txid) in ledger.failed then ledger else ledger.(failed := ledger.failed + [FailKey(txid)])
  }

  function Minted(coin: Coin, amt: I32): I32 {
    if coin.left >= amt then amt else coin.left
  }

  function Settle(ledger: Ledger, tick: string, address: string, amt: I32, id: string): Ledger {
    ledger.(coins := DebitAll(ledger.coins, tick, amt),
            balances := CreditOrOpen(ledger.balances, tick, address, amt, id))
  }

  function ApplyMint(ledger: Ledger, tx: Transaction): Ledger
    requires tx.op.Mint?
  {
    var coin := FindCoin(ledger.coins, tx.op.tick);
    if coin.None? || coin.value.limit < tx.op.amt then RecordFailure(ledger, tx.txid)
    else
      Settle(ledger, tx.op.tick, tx.address, Minted(coin.value, tx.op.amt), tx.id)
  }

  /** The balance table after a transfer, and the failures it writes. */
  function ApplyEntry(ledger: Ledger, tick: string, address: string, amt: I32, txid: string, id: string): Ledger {
    ledger.(balances := ReserveAll(ledger.balances, tick, address, amt, id),
            failed := ledger.failed + Shortfalls(ledger.balances, tick, address, amt, txid)
                      + (if HasEntry(ledger.balances, tick, address) then [] else [FailKey(txid)]))
  }

  function ApplyTransfer(ledger: Ledger, tx: Transaction): Ledger
    requires tx.op.Transfer?
  {
    if FailKey(tx.txid) in ledger.failed then ledger
    else ApplyEntry(ledger, tx.op.tick, tx.address, tx.op.amt, tx.txid, tx.id)
  }

  function Apply(ledger: Ledger, tx: Transaction): Ledger {
    match tx.op
    case Deploy(_, _, _) => ApplyDeploy(ledger, tx)
    case Mint(_, _) => ApplyMint(ledger, tx)
    case Transfer(_, _) => ApplyTransfer(ledger, tx)
    case Other => ledger
  }

  /** The tables after a replay; the failure table is the only one that is not emptied at its start. */
  function Replay(failed: seq<string>, txs: seq<Transaction>): Ledger {
    if txs == [] then Ledger([], [], failed)
    else Apply(Replay(failed, txs[..|txs| - 1]), txs[|txs| - 1])
  }

  // ---------- the same from the operations alone ----------

  /** The first deployment of a tick. */
  function FirstDeploy(txs: seq<Transaction>, tick: string): Option<Operation>
    ensures FirstDeploy(txs, tick).Some? ==> FirstDeploy(txs, tick).value.Deploy?
  {
    if txs == [] then None
    else
      var first := FirstDeploy(txs[..|txs| - 1], tick);
      var op := txs[|txs| - 1].op;
      if first.Some? then first else if op.Deploy? && op.tick == tick then Some(op) else None
  }

  function MaxSupply(txs: seq<Transaction>, tick: string): I32 {
    var first := FirstDeploy(txs, tick);
    if first.Some? then first.value.max else 0
  }

  /** The transaction after `txs` mints the tick within the limit set by its first deployment. */
  predicate ValidMint(txs: seq<Transaction>, tx: Transaction, tick: string) {
    && tx.op.Mint? && tx.op.tick == tick
    && FirstDeploy(txs, tick).Some? && tx.op.amt <= FirstDeploy(txs, tick).value.limit
  }

  /** The sum of the amounts of all valid mints of a tick. */
  function Claimed(txs: seq<Transaction>, tick: string): int {
    if txs == [] then 0
    else
      var init, tx := txs[..|txs| - 1], txs[|txs| - 1];
      Claimed(init, tick) + (if ValidMint(init, tx, tick) then tx.op.amt else 0)
  }

  function SupplyLeft(coins: seq<Coin>, tick: string): I32 {
    var coin := FindCoin(coins, tick);
    if coin.Some? then coin.value.left else 0
  }

  function TotalOverall(rows: seq<Balance>, tick: string): int {
    if rows == [] then 0
    else
      TotalOverall(rows[..|rows| - 1], tick)
      + (if rows[|rows| - 1].tick == tick then rows[|rows| - 1].overall else 0)
  }

  // ---------- the coin table ----------

  predicate UniqueCoins(coins: seq<Coin>) {
    forall i, j :: 0 <= i < j < |coins| ==> coins[i].tick != coins[j].tick
  }

  predicate UniqueEntries(rows: seq<Balance>) {
    forall i, j :: 0 <= i < j < |rows| ==> !Owns(rows[i], rows[j].tick, rows[j].address)
  }

  lemma {:induction false} FindCoinIn(coins: seq<Coin>, tick: string)
    ensures FindCoin(coins, tick).None? ==> forall i :: 0 <= i < |coins| ==> coins[i].tick != tick
    ensures FindCoin(coins, tick).Some? ==> FindCoin(coins, tick).value in coins && FindCoin(coins, tick).value.tick == tick
    decreases |coins|
  {
    if coins != [] {
      var init := coins[..|coins| - 1];
      FindCoinIn(init, tick);
      assert coins == init + [coins[|coins| - 1]];
    }
  }

  lemma {:induction false} DebitShape(coins: seq<Coin>, tick: string, amt: I32)
    ensures |DebitAll(coins, tick, amt)| == |coins|
    ensures forall i :: 0 <= i < |coins| ==> DebitAll(coins, tick, amt)[i] == Debit(coins[i], tick, amt)
    decreases |coins|
  {
    if coins != [] {
      DebitShape(coins[..|coins| - 1], tick, amt);
    }
  }

  /** Debiting changes what is left of one tick, by the amount, and finds the same coin otherwise. */
  lemma {:induction false} DebitFinds(coins: seq<Coin>, tick: string, amt: I32, other: string)
    ensures var found := FindCoin(coins, other);
            FindCoin(DebitAll(coins, tick, amt), other) == if found.None? then None else Some(Debit(found.value, tick, amt))
    decreases |coins|
  {
    if coins != [] {
      var init, last := coins[..|coins| - 1], coins[|coins| - 1];
      DebitFinds(init, tick, amt, other);
      var debited := DebitAll(init, tick, amt);
      assert (debited + [Debit(last, tick, amt)])[..|debited|] == debited;
    }
  }

  lemma FindAppended(coins: seq<Coin>, coin: Coin, tick: string)
    ensures FindCoin(coins + [coin], tick) ==
            if FindCoin(coins, tick).Some? then FindCoin(coins, tick)
            else if coin.tick == tick then Some(coin) else None
  {
    assert (coins + [coin])[..|coins|] == coins;
  }

  // ---------- the balance table ----------

  lemma {:induction false} CreditShape(rows: seq<Balance>, tick: string, address: string, amt: I32, id: string)
    ensures |CreditAll(rows, tick, address, amt, id)| == |rows|
    ensures forall i :: 0 <= i < |rows| ==>
              CreditAll(rows, tick, address, amt, id)[i] == Credit(rows[i], tick, address, amt, id)
    decreases |rows|
  {
    if rows != [] {
      CreditShape(rows[..|rows| - 1], tick, address, amt, id);
    }
  }

  lemma {:induction false} ReserveShape(rows: seq<Balance>, tick: string, address: string, amt: I32, id: string)
    ensures |ReserveAll(rows, tick, address, amt, id)| == |rows|
    ensures forall i :: 0 <= i < |rows| ==>
              ReserveAll(rows, tick, address, amt, id)[i] == Reserve(rows[i], tick, address, amt, id)
    decreases |rows|
  {
    if rows != [] {
      ReserveShape(rows[..|rows| - 1], tick, address, amt, id);
    }
  }

  lemma {:induction false} ReserveTotal(rows: seq<Balance>, tick: string, address: string, amt: I32, id: string, t: string)
    ensures TotalOverall(ReserveAll(rows, tick, address, amt, id), t) == TotalOverall(rows, t)
    decreases |rows|
  {
    if rows != [] {
      var init, last := rows[..|rows| - 1], rows[|rows| - 1];
      ReserveTotal(init, tick, address, amt, id, t);
      var after := ReserveAll(init, tick, address, amt, id);
      assert (after + [Reserve(last, tick, address, amt, id)])[..|after|] == after;
    }
  }

  lemma {:induction false} CreditElsewhere(rows: seq<Balance>, tick: string, address: string, amt: I32, id: string)
    requires !HasEntry(rows, tick, address)
    ensures CreditAll(rows, tick, address, amt, id) == rows
    decreases |rows|
  {
    if rows != [] {
      var init := rows[..|rows| - 1];
      assert forall i :: 0 <= i < |init| ==> init[i] == rows[i];
      CreditElsewhere(init, tick, address, amt, id);
      assert init + [rows[|rows| - 1]] == rows;
    }
  }

  lemma OneOwner(rows: seq<Balance>, tick: string, address: string, k: nat)
    requires UniqueEntries(rows) && k < |rows| && Owns(rows[k], tick, address)
    ensures forall i :: 0 <= i < |rows| && i != k ==> !Owns(rows[i], tick, address)
  {
    forall i | 0 <= i < |rows| && i != k ensures !Owns(rows[i], tick, address) {
      assert i < k ==> !Owns(rows[i], rows[k].tick, rows[k].address);
      assert k < i ==> !Owns(rows[k], rows[i].tick, rows[i].address);
    }
  }

  /** Replacing one row changes the total of its tick by the change of the row. */
  lemma {:induction false} TotalChangesAt(rows: seq<Balance>, after: seq<Balance>, k: nat, t: string)
    requires |after| == |rows| && k < |rows| && after[k].tick == rows[k].tick
    requires forall i :: 0 <= i < |rows| && i != k ==> after[i] == rows[i]
    ensures TotalOverall(after, t) ==
            TotalOverall(rows, t) + (if t == rows[k].tick then after[k].overall - rows[k].overall else 0)
    decreases |rows|
  {
    if k < |rows| - 1 {
      TotalChangesAt(rows[..|rows| - 1], after[..|rows| - 1], k, t);
    } else {
      assert rows[..k] == after[..k];
    }
  }

  /** Crediting changes only the one entry. */
  lemma CreditChangesAt(rows: seq<Balance>, tick: string, address: string, amt: I32, id: string, k: nat)
    requires UniqueEntries(rows) && k < |rows| && Owns(rows[k], tick, address)
    ensures var after := CreditAll(rows, tick, address, amt, id);
            && |after| == |rows| && after[k] == Credit(rows[k], tick, address, amt, id)
            && forall i :: 0 <= i < |rows| && i != k ==> after[i] == rows[i]
  {
    CreditShape(rows, tick, address, amt, id);
    OneOwner(rows, tick, address, k);
  }

  lemma OpenTotal(rows: seq<Balance>, row: Balance, t: string)
    ensures TotalOverall(rows + [row], t) == TotalOverall(rows, t) + (if t == row.tick then row.overall else 0)
  {
    assert (rows + [row])[..|rows|] == rows;
  }

  /** The overall balance of an entry, zero if there is none. */
  ghost function Held(rows: seq<Balance>, tick: string, address: string): I32 {
    if HasEntry(rows, tick, address) then
      var k :| 0 <= k < |rows| && Owns(rows[k], tick, address);
      rows[k].overall
    else 0
  }

  lemma HeldEntryTotal(rows: seq<Balance>, tick: string, address: string, amt: I32, id: string, k: nat, t: string)
    requires UniqueEntries(rows) && k < |rows| && Owns(rows[k], tick, address)
    ensures TotalOverall(CreditOrOpen(rows, tick, address, amt, id), t) ==
            TotalOverall(rows, t) + (if t == tick then Wrap(rows[k].overall + amt) - rows[k].overall else 0)
  {
    var after := CreditAll(rows, tick, address, amt, id);
    CreditChangesAt(rows, tick, address, amt, id, k);
    TotalChangesAt(rows, after, k, t);
    assert CreditOrOpen(rows, tick, address, amt, id) == after + [] == after;
  }

  lemma NewEntryTotal(rows: seq<Balance>, tick: string, address: string, amt: I32, id: string, t: string)
    requires !HasEntry(rows, tick, address)
    ensures TotalOverall(CreditOrOpen(rows, tick, address, amt, id), t) ==
            TotalOverall(rows, t) + (if t == tick then amt else 0)
  {
    CreditElsewhere(rows, tick, address, amt, id);
    OpenTotal(rows, Balance(tick, address, amt, amt, 0, id), t);
  }

  lemma CreditOrOpenTotal(rows: seq<Balance>, tick: string, address: string, amt: I32, id: string, t: string)
    requires UniqueEntries(rows)
    ensures TotalOverall(CreditOrOpen(rows, tick, address, amt, id), t) ==
            TotalOverall(rows, t)
            + (if t == tick then Wrap(Held(rows, tick, address) + amt) - Held(rows, tick, address) else 0)
  {
    if HasEntry(rows, tick, address) {
      var k :| 0 <= k < |rows| && Owns(rows[k], tick, address) && rows[k].overall == Held(rows, tick, address);
      HeldEntryTotal(rows, tick, address, amt, id, k, t);
    } else {
      NewEntryTotal(rows, tick, address, amt, id, t);
    }
  }

  lemma CreditKeepsUnique(rows: seq<Balance>, tick: string, address: string, amt: I32, id: string)
    requires UniqueEntries(rows)
    ensures UniqueEntries(CreditOrOpen(rows, tick, address, amt, id))
  {
    CreditShape(rows, tick, address, amt, id);
    var after := CreditOrOpen(rows, tick, address, amt, id);
    forall i, j | 0 <= i < j < |after| ensures !Owns(after[i], after[j].tick, after[j].address) {
      if j < |rows| {
        assert !Owns(rows[i], rows[j].tick, rows[j].address);
      } else {
        assert !Owns(rows[i], tick, address);
      }
    }
  }

  lemma ReserveKeepsUnique(rows: seq<Balance>, tick: string, address: string, amt: I32, id: string)
    requires UniqueEntries(rows)
    ensures UniqueEntries(ReserveAll(rows, tick, address, amt, id))
  {
    ReserveShape(rows, tick, address, amt, id);
    var after := ReserveAll(rows, tick, address, amt, id);
    forall i, j | 0 <= i < j < |after| ensures !Owns(after[i], after[j].tick, after[j].address) {
      assert !Owns(rows[i], rows[j].tick, rows[j].address);
    }
  }

  // ---------- any operations: conservation up to wrap-around ----------

  /** The coin table holds exactly the ticks deployed so far, with the limit of the first deployment. */
  predicate CoinAgrees(coins: seq<Coin>, txs: seq<Transaction>, tick: string) {
    var coin, first := FindCoin(coins, tick), FirstDeploy(txs, tick);
    (coin.Some? <==> first.Some?) && (coin.Some? ==> coin.value.limit == first.value.limit)
  }

  predicate SplitsOverall(row: Balance) {
    Congruent(row.overall, row.available + row.transferable)
  }

  predicate AddsUp(ledger: Ledger, tick: string, max: I32) {
    Congruent(SupplyLeft(ledger.coins, tick) + TotalOverall(ledger.balances, tick), max)
  }

  predicate SupplyConserved(ledger: Ledger, txs: seq<Transaction>, tick: string) {
    AddsUp(ledger, tick, MaxSupply(txs, tick))
  }

  predicate WellKept(ledger: Ledger) {
    UniqueCoins(ledger.coins) && UniqueEntries(ledger.balances) && AllSplit(ledger.balances)
  }

  lemma WrapAddsToBoth(whole: I32, part: I32, other: I32, amt: I32)
    requires Congruent(whole, part + other)
    ensures Congruent(Wrap(whole + amt), Wrap(part + amt) + other)
  {}

  lemma WrapMovesBetween(whole: I32, part: I32, other: I32, amt: I32)
    requires Congruent(whole, part + other)
    ensures Congruent(whole, Wrap(part - amt) + Wrap(other + amt))
  {}

  lemma CreditSplits(row: Balance, tick: string, address: string, amt: I32, id: string)
    requires SplitsOverall(row)
    ensures SplitsOverall(Credit(row, tick, address, amt, id))
  {
    WrapAddsToBoth(row.overall, row.available, row.transferable, amt);
  }

  lemma ReserveSplits(row: Balance, tick: string, address: string, amt: I32, id: string)
    requires SplitsOverall(row)
    ensures SplitsOverall(Reserve(row, tick, address, amt, id))
  {
    WrapMovesBetween(row.overall, row.available, row.transferable, amt);
  }

  predicate AllSplit(rows: seq<Balance>) {
    forall i :: 0 <= i < |rows| ==> SplitsOverall(rows[i])
  }

  lemma CreditKeepsSplit(rows: seq<Balance>, tick: string, address: string, amt: I32, id: string)
    requires AllSplit(rows)
    ensures AllSplit(CreditOrOpen(rows, tick, address, amt, id))
  {
    CreditShape(rows, tick, address, amt, id);
    forall i | 0 <= i < |rows| ensures SplitsOverall(Credit(rows[i], tick, address, amt, id)) {
      CreditSplits(rows[i], tick, address, amt, id);
    }
  }

  lemma ReserveKeepsSplit(rows: seq<Balance>, tick: string, address: string, amt: I32, id: string)
    requires AllSplit(rows)
    ensures AllSplit(ReserveAll(rows, tick, address, amt, id))
  {
    ReserveShape(rows, tick, address, amt, id);
    forall i | 0 <= i < |rows| ensures SplitsOverall(Reserve(rows[i], tick, address, amt, id)) {
      ReserveSplits(rows[i], tick, address, amt, id);
    }
  }

  lemma DebitKeepsUnique(coins: seq<Coin>, tick: string, amt: I32)
    requires UniqueCoins(coins)
    ensures UniqueCoins(DebitAll(coins, tick, amt))
  {
    DebitShape(coins, tick, amt);
  }

  lemma MintKeepsWellKept(ledger: Ledger, tx: Transaction)
    requires WellKept(ledger) && tx.op.Mint?
    ensures WellKept(ApplyMint(ledger, tx))
  {
    var coin := FindCoin(ledger.coins, tx.op.tick);
    if coin.Some? && tx.op.amt <= coin.value.limit {
      var minted := Minted(coin.value, tx.op.amt);
      DebitKeepsUnique(ledger.coins, tx.op.tick, minted);
      CreditKeepsUnique(ledger.balances, tx.op.tick, tx.address, minted, tx.id);
      CreditKeepsSplit(ledger.balances, tx.op.tick, tx.address, minted, tx.id);
    }
  }

  lemma TransferKeepsWellKept(ledger: Ledger, tx: Transaction)
    requires WellKept(ledger) && tx.op.Transfer?
    ensures WellKept(ApplyTransfer(ledger, tx))
  {
    ReserveKeepsUnique(ledger.balances, tx.op.tick, tx.address, tx.op.amt, tx.id);
    ReserveKeepsSplit(ledger.balances, tx.op.tick, tx.address, tx.op.amt, tx.id);
  }

  lemma DeployKeepsWellKept(ledger: Ledger, tx: Transaction)
    requires WellKept(ledger) && tx.op.Deploy?
    ensures WellKept(ApplyDeploy(ledger, tx))
  {
    FindCoinIn(ledger.coins, tx.op.tick);
  }

  /** After any replay, whatever the amounts: ticks and entries are unique, and overall splits into its parts. */
  lemma {:induction false} ReplayWellKept(failed: seq<string>, txs: seq<Transaction>)
    ensures WellKept(Replay(failed, txs))
    decreases |txs|
  {
    if txs != [] {
      var before, tx := Replay(failed, txs[..|txs| - 1]), txs[|txs| - 1];
      ReplayWellKept(failed, txs[..|txs| - 1]);
      match tx.op {
        case Deploy(_, _, _) => DeployKeepsWellKept(before, tx);
        case Mint(_, _) => MintKeepsWellKept(before, tx);
        case Transfer(_, _) => TransferKeepsWellKept(before, tx);
        case Other =>
      }
    }
  }

  /** The operation is accepted as a mint of the tick. */
  predicate Minting(ledger: Ledger, tx: Transaction, tick: string) {
    && tx.op.Mint? && tx.op.tick == tick
    && FindCoin(ledger.coins, tick).Some? && tx.op.amt <= FindCoin(ledger.coins, tick).value.limit
  }

  /** From one ledger to the other the coin has been debited, and one balance credited, with an amount. */
  predicate Settled(before: Ledger, after: Ledger, tick: string, coin: Coin, amt: I32, held: I32) {
    && FindCoin(before.coins, tick) == Some(coin) && FindCoin(after.coins, tick) == Some(Debit(coin, tick, amt))
    && TotalOverall(after.balances, tick) == TotalOverall(before.balances, tick) + Wrap(held + amt) - held
  }

  lemma SettleEffect(ledger: Ledger, tick: string, address: string, amt: I32, id: string, coin: Coin)
    requires UniqueEntries(ledger.balances) && FindCoin(ledger.coins, tick) == Some(coin)
    ensures Settled(ledger, Settle(ledger, tick, address, amt, id), tick, coin, amt, Held(ledger.balances, tick, address))
  {
    DebitFinds(ledger.coins, tick, amt, tick);
    CreditOrOpenTotal(ledger.balances, tick, address, amt, id, tick);
  }

  lemma MintEffect(ledger: Ledger, tx: Transaction, tick: string)
    requires UniqueEntries(ledger.balances) && Minting(ledger, tx, tick)
    ensures var coin := FindCoin(ledger.coins, tick).value;
            && Settled(ledger, Apply(ledger, tx), tick, coin, Minted(coin, tx.op.amt),
                       Held(ledger.balances, tick, tx.address))
            && coin.tick == tick
  {
    var coin := FindCoin(ledger.coins, tick).value;
    FindCoinIn(ledger.coins, tick);
    SettleEffect(ledger, tick, tx.address, Minted(coin, tx.op.amt), tx.id, coin);
    assert Apply(ledger, tx) == Settle(ledger, tick, tx.address, Minted(coin, tx.op.amt), tx.id);
  }

  /** The operation adds the tick to the coin table. */
  predicate Deploying(ledger: Ledger, tx: Transaction, tick: string) {
    tx.op.Deploy? && tx.op.tick == tick && FindCoin(ledger.coins, tick).None?
  }

  lemma OtherEffect(ledger: Ledger, tx: Transaction, tick: string)
    requires UniqueEntries(ledger.balances) && !Minting(ledger, tx, tick)
    ensures FindCoin(Apply(ledger, tx).coins, tick) ==
            if Deploying(ledger, tx, tick) then Some(Coin(tick, tx.op.max, tx.op.limit, tx.id))
            else FindCoin(ledger.coins, tick)
    ensures TotalOverall(Apply(ledger, tx).balances, tick) == TotalOverall(ledger.balances, tick)
  {
    match tx.op {
      case Deploy(_, _, _) =>
        FindAppended(ledger.coins, Coin(tx.op.tick, tx.op.max, tx.op.limit, tx.id), tick);
      case Mint(_, amt) =>
        FindCoinIn(ledger.coins, tick);
        if Minting(ledger, tx, tx.op.tick) {
          var minted := Minted(FindCoin(ledger.coins, tx.op.tick).value, amt);
          DebitFinds(ledger.coins, tx.op.tick, minted, tick);
          CreditOrOpenTotal(ledger.balances, tx.op.tick, tx.address, minted, tx.id, tick);
        }
      case Transfer(_, amt) =>
        ReserveTotal(ledger.balances, tx.op.tick, tx.address, amt, tx.id, tick);
      case Other =>
    }
  }

  lemma FirstDeployNext(txs: seq<Transaction>, tx: Transaction, tick: string)
    ensures FirstDeploy(txs + [tx], tick) ==
            if FirstDeploy(txs, tick).Some? then FirstDeploy(txs, tick)
            else if tx.op.Deploy? && tx.op.tick == tick then Some(tx.op) else None
  {
    assert (txs + [tx])[..|txs|] == txs;
  }

  /** From one ledger to the other an amount has left the supply for the balances, of which it joined one. */
  predicate Moved(before: Ledger, after: Ledger, tick: string, amt: I32, held: I32) {
    && SupplyLeft(after.coins, tick) == Wrap(SupplyLeft(before.coins, tick) - amt)
    && TotalOverall(after.balances, tick) == TotalOverall(before.balances, tick) + Wrap(held + amt) - held
  }

  lemma DebitedMoves(before: Ledger, after: Ledger, tick: string, coin: Coin, amt: I32, held: I32)
    requires Settled(before, after, tick, coin, amt, held) && coin.tick == tick
    ensures Moved(before, after, tick, amt, held)
  {}

  lemma MintMoves(ledger: Ledger, tx: Transaction, tick: string, minted: I32, held: I32)
    requires UniqueEntries(ledger.balances) && Minting(ledger, tx, tick)
    requires minted == Minted(FindCoin(ledger.coins, tick).value, tx.op.amt)
    requires held == Held(ledger.balances, tick, tx.address)
    ensures Moved(ledger, Apply(ledger, tx), tick, minted, held)
  {
    MintEffect(ledger, tx, tick);
    DebitedMoves(ledger, Apply(ledger, tx), tick, FindCoin(ledger.coins, tick).value, minted, held);
  }

  lemma MovedAddsUp(before: Ledger, after: Ledger, tick: string, max: I32, amt: I32, held: I32)
    requires AddsUp(before, tick, max) && Moved(before, after, tick, amt, held)
    ensures AddsUp(after, tick, max)
  {
    WrapMoves(SupplyLeft(before.coins, tick), TotalOverall(before.balances, tick), held, amt, max,
              SupplyLeft(after.coins, tick), TotalOverall(after.balances, tick));
  }

  lemma MintConserves(ledger: Ledger, tx: Transaction, tick: string, max: I32)
    requires UniqueEntries(ledger.balances) && Minting(ledger, tx, tick) && AddsUp(ledger, tick, max)
    ensures AddsUp(Apply(ledger, tx), tick, max)
  {
    var minted, held := Minted(FindCoin(ledger.coins, tick).value, tx.op.amt), Held(ledger.balances, tick, tx.address);
    MintMoves(ledger, tx, tick, minted, held);
    MovedAddsUp(ledger, Apply(ledger, tx), tick, max, minted, held);
  }

  /** A deployment adds to the supply left what it adds to the maximum, and any other operation nothing to either. */
  lemma ShiftAddsUp(before: Ledger, after: Ledger, tick: string, max: I32, newMax: I32)
    requires AddsUp(before, tick, max)
    requires SupplyLeft(after.coins, tick) - newMax == SupplyLeft(before.coins, tick) - max
    requires TotalOverall(after.balances, tick) == TotalOverall(before.balances, tick)
    ensures AddsUp(after, tick, newMax)
  {
    var left, total := SupplyLeft(before.coins, tick), TotalOverall(before.balances, tick);
    assert SupplyLeft(after.coins, tick) + TotalOverall(after.balances, tick) - newMax == left + total - max;
  }

  lemma CoinAgreesNext(ledger: Ledger, txs: seq<Transaction>, tx: Transaction, tick: string)
    requires UniqueEntries(ledger.balances) && CoinAgrees(ledger.coins, txs, tick)
    ensures CoinAgrees(Apply(ledger, tx).coins, txs + [tx], tick)
    ensures !Minting(ledger, tx, tick) ==>
              && SupplyLeft(Apply(ledger, tx).coins, tick) - MaxSupply(txs + [tx], tick) ==
                 SupplyLeft(ledger.coins, tick) - MaxSupply(txs, tick)
              && TotalOverall(Apply(ledger, tx).balances, tick) == TotalOverall(ledger.balances, tick)
    ensures Minting(ledger, tx, tick) ==> MaxSupply(txs + [tx], tick) == MaxSupply(txs, tick)
  {
    FirstDeployNext(txs, tx, tick);
    if Minting(ledger, tx, tick) {
      MintEffect(ledger, tx, tick);
    } else {
      OtherEffect(ledger, tx, tick);
    }
  }

  lemma ApplyConserves(ledger: Ledger, txs: seq<Transaction>, tx: Transaction, tick: string)
    requires UniqueEntries(ledger.balances) && CoinAgrees(ledger.coins, txs, tick) && SupplyConserved(ledger, txs, tick)
    ensures CoinAgrees(Apply(ledger, tx).coins, txs + [tx], tick)
    ensures SupplyConserved(Apply(ledger, tx), txs + [tx], tick)
  {
    CoinAgreesNext(ledger, txs, tx, tick);
    var max, newMax := MaxSupply(txs, tick), MaxSupply(txs + [tx], tick);
    if Minting(ledger, tx, tick) {
      MintConserves(ledger, tx, tick, max);
    } else {
      ShiftAddsUp(ledger, Apply(ledger, tx), tick, max, newMax);
    }
  }

  /** Moving an amount from one number to a part of another keeps their sum, modulo 2^32. */
  lemma WrapMoves(left: I32, total: int, held: I32, amt: I32, max: I32, newLeft: I32, newTotal: int)
    requires Congruent(left + total, max)
    requires newLeft == Wrap(left - amt) && newTotal == total + Wrap(held + amt) - held
    ensures Congruent(newLeft + newTotal, max)
  {}

  /** After any replay, whatever the amounts: the deployed ticks are those of the coin table, and modulo 2^32 the supply
      left and the balances of a tick add up to the maximum of its first deployment. */
  lemma {:induction false} SupplyIsConserved(failed: seq<string>, txs: seq<Transaction>, tick: string)
    ensures CoinAgrees(Replay(failed, txs).coins, txs, tick)
    ensures SupplyConserved(Replay(failed, txs), txs, tick)
    decreases |txs|
  {
    if txs != [] {
      var init, tx := txs[..|txs| - 1], txs[|txs| - 1];
      SupplyIsConserved(failed, init, tick);
      ReplayWellKept(failed, init);
      ApplyConserves(Replay(failed, init), init, tx, tick);
      assert init + [tx] == txs;
    }
  }

  // ---------- non-negative operations: exact, and within bounds ----------

  predicate NonNegative(op: Operation) {
    match op
    case Deploy(_, max, _) => max >= 0
    case Mint(_, amt) => amt >= 0
    case Transfer(_, amt) => amt >= 0
    case Other => true
  }

  predicate AllNonNegative(txs: seq<Transaction>) {
    forall i :: 0 <= i < |txs| ==> NonNegative(txs[i].op)
  }

  predicate ExactRow(row: Balance) {
    0 <= row.available && 0 <= row.transferable && row.overall == row.available + row.transferable
  }

  predicate ExactRows(rows: seq<Balance>) {
    forall i :: 0 <= i < |rows| ==> ExactRow(rows[i])
  }

  predicate ExactSupply(ledger: Ledger, txs: seq<Transaction>, tick: string) {
    && SupplyLeft(ledger.coins, tick) >= 0
    && SupplyLeft(ledger.coins, tick) + TotalOverall(ledger.balances, tick) == MaxSupply(txs, tick)
  }

  lemma {:induction false} RowWithinTotal(rows: seq<Balance>, k: nat)
    requires ExactRows(rows) && k < |rows|
    ensures 0 <= rows[k].overall <= TotalOverall(rows, rows[k].tick)
    decreases |rows|
  {
    var init := rows[..|rows| - 1];
    assert ExactRows(init) by {
      forall i | 0 <= i < |init| ensures ExactRow(init[i]) {
        assert init[i] == rows[i];
      }
    }
    TotalNonNegative(init, rows[k].tick);
    assert ExactRow(rows[|rows| - 1]);
    if k < |init| {
      RowWithinTotal(init, k);
    }
  }

  lemma {:induction false} TotalNonNegative(rows: seq<Balance>, tick: string)
    requires ExactRows(rows)
    ensures TotalOverall(rows, tick) >= 0
    decreases |rows|
  {
    if rows != [] {
      var init := rows[..|rows| - 1];
      assert ExactRow(rows[|rows| - 1]);
      assert forall i :: 0 <= i < |init| ==> init[i] == rows[i];
      TotalNonNegative(init, tick);
    }
  }

  lemma HeldWithinTotal(rows: seq<Balance>, tick: string, address: string)
    requires ExactRows(rows)
    ensures 0 <= Held(rows, tick, address) <= TotalOverall(rows, tick)
  {
    TotalNonNegative(rows, tick);
    if HasEntry(rows, tick, address) {
      var k :| 0 <= k < |rows| && Owns(rows[k], tick, address) && rows[k].overall == Held(rows, tick, address);
      RowWithinTotal(rows, k);
    }
  }

  lemma CreditKeepsExact(rows: seq<Balance>, tick: string, address: string, amt: I32, id: string)
    requires ExactRows(rows) && amt >= 0 && TotalOverall(rows, tick) + amt < 0x8000_0000
    ensures ExactRows(CreditOrOpen(rows, tick, address, amt, id))
  {
    CreditShape(rows, tick, address, amt, id);
    forall i | 0 <= i < |rows| ensures ExactRow(Credit(rows[i], tick, address, amt, id)) {
      RowWithinTotal(rows, i);
      assert ExactRow(rows[i]);
    }
  }

  lemma ReserveKeepsExact(rows: seq<Balance>, tick: string, address: string, amt: I32, id: string)
    requires ExactRows(rows) && amt >= 0
    ensures ExactRows(ReserveAll(rows, tick, address, amt, id))
  {
    ReserveShape(rows, tick, address, amt, id);
    forall i | 0 <= i < |rows| ensures ExactRow(Reserve(rows[i], tick, address, amt, id)) {
      assert ExactRow(rows[i]);
    }
  }

  lemma ApplyKeepsExactRows(ledger: Ledger, txs: seq<Transaction>, tx: Transaction)
    requires ExactRows(ledger.balances) && NonNegative(tx.op)
    requires forall tick :: ExactSupply(ledger, txs, tick)
    ensures ExactRows(Apply(ledger, tx).balances)
  {
    match tx.op {
      case Mint(tick, amt) =>
        var coin := FindCoin(ledger.coins, tick);
        assert ExactSupply(ledger, txs, tick);
        if coin.Some? && amt <= coin.value.limit {
          CreditKeepsExact(ledger.balances, tick, tx.address, Minted(coin.value, amt), tx.id);
        }
      case Transfer(tick, amt) => ReserveKeepsExact(ledger.balances, tick, tx.address, amt, tx.id);
      case _ =>
    }
  }

  lemma MintKeepsExactSupply(ledger: Ledger, tx: Transaction, tick: string, max: I32)
    requires UniqueEntries(ledger.balances) && ExactRows(ledger.balances) && NonNegative(tx.op)
    requires Minting(ledger, tx, tick) && SupplyLeft(ledger.coins, tick) >= 0
    requires SupplyLeft(ledger.coins, tick) + TotalOverall(ledger.balances, tick) == max
    ensures var coin, after := FindCoin(ledger.coins, tick).value, Apply(ledger, tx);
            && SupplyLeft(after.coins, tick) == coin.left - Minted(coin, tx.op.amt)
            && SupplyLeft(after.coins, tick) >= 0
            && SupplyLeft(after.coins, tick) + TotalOverall(after.balances, tick) == max
  {
    var coin, held := FindCoin(ledger.coins, tick).value, Held(ledger.balances, tick, tx.address);
    var minted := Minted(coin, tx.op.amt);
    HeldWithinTotal(ledger.balances, tick, tx.address);
    assert 0 <= minted <= coin.left && 0 <= held + minted <= max;
    assert Wrap(coin.left - minted) == coin.left - minted && Wrap(held + minted) == held + minted;
    MintEffect(ledger, tx, tick);
  }

  lemma ApplyKeepsExactSupply(ledger: Ledger, txs: seq<Transaction>, tx: Transaction, tick: string)
    requires UniqueEntries(ledger.balances) && ExactRows(ledger.balances) && NonNegative(tx.op)
    requires ExactSupply(ledger, txs, tick) && CoinAgrees(ledger.coins, txs, tick)
    ensures ExactSupply(Apply(ledger, tx), txs + [tx], tick)
  {
    FirstDeployNext(txs, tx, tick);
    if Minting(ledger, tx, tick) {
      MintKeepsExactSupply(ledger, tx, tick, MaxSupply(txs, tick));
    } else {
      OtherEffect(ledger, tx, tick);
    }
  }

  /** With non-negative amounts the supply left and the balances of a tick add up to its maximum exactly, and no column
      leaves the range from zero to that maximum. */
  lemma {:induction false} SupplyIsExact(failed: seq<string>, txs: seq<Transaction>)
    requires AllNonNegative(txs)
    ensures ExactRows(Replay(failed, txs).balances)
    ensures forall tick :: ExactSupply(Replay(failed, txs), txs, tick)
    decreases |txs|
  {
    if txs != [] {
      var init, tx := txs[..|txs| - 1], txs[|txs| - 1];
      var before := Replay(failed, init);
      SupplyIsExact(failed, init);
      ReplayWellKept(failed, init);
      ApplyKeepsExactRows(before, init, tx);
      forall tick ensures ExactSupply(Replay(failed, txs), txs, tick) {
        SupplyIsConserved(failed, init, tick);
        ApplyKeepsExactSupply(before, init, tx, tick);
        assert init + [tx] == txs;
      }
    }
  }

  lemma RowWithinBounds(failed: seq<string>, txs: seq<Transaction>, k: nat)
    requires AllNonNegative(txs) && k < |Replay(failed, txs).balances|
    ensures var row := Replay(failed, txs).balances[k];
            && 0 <= row.available <= row.overall <= MaxSupply(txs, row.tick)
            && 0 <= row.transferable <= row.overall
            && row.overall + SupplyLeft(Replay(failed, txs).coins, row.tick) <= MaxSupply(txs, row.tick)
  {
    var ledger := Replay(failed, txs);
    SupplyIsExact(failed, txs);
    assert ExactSupply(ledger, txs, ledger.balances[k].tick) && ExactRow(ledger.balances[k]);
    RowWithinTotal(ledger.balances, k);
  }

  lemma SupplyWithinBounds(failed: seq<string>, txs: seq<Transaction>, tick: string)
    requires AllNonNegative(txs)
    ensures 0 <= SupplyLeft(Replay(failed, txs).coins, tick) <= MaxSupply(txs, tick)
  {
    SupplyIsExact(failed, txs);
    assert ExactSupply(Replay(failed, txs), txs, tick);
    TotalNonNegative(Replay(failed, txs).balances, tick);
  }

  /** No column of either table leaves the range from zero to the maximum of its tick. */
  lemma ColumnsWithinBounds(failed: seq<string>, txs: seq<Transaction>)
    requires AllNonNegative(txs)
    ensures forall tick :: 0 <= SupplyLeft(Replay(failed, txs).coins, tick) <= MaxSupply(txs, tick)
    ensures forall row :: row in Replay(failed, txs).balances ==>
              && 0 <= row.available <= row.overall <= MaxSupply(txs, row.tick)
              && 0 <= row.transferable <= row.overall
  {
    forall tick ensures 0 <= SupplyLeft(Replay(failed, txs).coins, tick) <= MaxSupply(txs, tick) {
      SupplyWithinBounds(failed, txs, tick);
    }
    forall row | row in Replay(failed, txs).balances
      ensures 0 <= row.available <= row.overall <= MaxSupply(txs, row.tick) && 0 <= row.transferable <= row.overall
    {
      var k :| 0 <= k < |Replay(failed, txs).balances| && Replay(failed, txs).balances[k] == row;
      RowWithinBounds(failed, txs, k);
    }
  }

  /** The next operation's arithmetic on the coin of its tick stays within bounds. */
  predicate CoinStaysInRange(ledger: Ledger, tx: Transaction, max: I32)
    requires tx.op.Mint?
  {
    var coin := FindCoin(ledger.coins, tx.op.tick);
    coin.Some? ==>
      && 0 <= Minted(coin.value, tx.op.amt) <= max
      && 0 <= coin.value.left - Minted(coin.value, tx.op.amt) <= max
  }

  /** And so does its arithmetic on a row of the sender. */
  predicate RowStaysInRange(ledger: Ledger, tx: Transaction, row: Balance, max: I32)
    requires tx.op.Mint? || tx.op.Transfer?
  {
    var coin := FindCoin(ledger.coins, tx.op.tick);
    && (tx.op.Mint? && coin.Some? ==>
          && 0 <= row.overall + Minted(coin.value, tx.op.amt) <= max
          && 0 <= row.available + Minted(coin.value, tx.op.amt) <= max)
    && (tx.op.Transfer? && row.available >= tx.op.amt ==>
          0 <= row.available - tx.op.amt && row.transferable + tx.op.amt <= row.overall)
  }

  /** No addition or subtraction of the next operation wraps around either, whether or not the address has an entry. */
  lemma NothingWraps(failed: seq<string>, txs: seq<Transaction>, tx: Transaction)
    requires AllNonNegative(txs) && NonNegative(tx.op)
    ensures tx.op.Mint? ==> CoinStaysInRange(Replay(failed, txs), tx, MaxSupply(txs, tx.op.tick))
    ensures tx.op.Mint? || tx.op.Transfer? ==>
              forall row :: row in Replay(failed, txs).balances && Owns(row, tx.op.tick, tx.address) ==>
                              RowStaysInRange(Replay(failed, txs), tx, row, MaxSupply(txs, tx.op.tick))
  {
    var ledger := Replay(failed, txs);
    if tx.op.Mint? || tx.op.Transfer? {
      SupplyWithinBounds(failed, txs, tx.op.tick);
      forall row | row in ledger.balances && Owns(row, tx.op.tick, tx.address)
        ensures RowStaysInRange(ledger, tx, row, MaxSupply(txs, tx.op.tick))
      {
        SupplyIsExact(failed, txs);
        var k :| 0 <= k < |ledger.balances| && ledger.balances[k] == row;
        assert ExactRow(ledger.balances[k]);
        RowWithinBounds(failed, txs, k);
      }
    }
  }

  /** First come, first served: what is left is the maximum less the valid claims, and never less than zero. */
  lemma {:induction false} SupplyLeftIsUnclaimed(failed: seq<string>, txs: seq<Transaction>, tick: string)
    requires AllNonNegative(txs)
    ensures var unclaimed := MaxSupply(txs, tick) - Claimed(txs, tick);
            SupplyLeft(Replay(failed, txs).coins, tick) == if unclaimed >= 0 then unclaimed else 0
    decreases |txs|
  {
    if txs != [] {
      var init, tx := txs[..|txs| - 1], txs[|txs| - 1];
      var before := Replay(failed, init);
      SupplyLeftIsUnclaimed(failed, init, tick);
      SupplyIsConserved(failed, init, tick);
      SupplyIsExact(failed, init);
      ReplayWellKept(failed, init);
      assert ExactSupply(before, init, tick);
      if Minting(before, tx, tick) {
        assert NonNegative(tx.op) && ValidMint(init, tx, tick);
        MintKeepsExactSupply(before, tx, tick, MaxSupply(init, tick));
      } else {
        assert !ValidMint(init, tx, tick);
        OtherEffect(before, tx, tick);
        if FirstDeploy(init, tick).None? {
          ClaimsFollowDeployment(init, tick);
        }
      }
    }
  }

  lemma {:induction false} ClaimsFollowDeployment(txs: seq<Transaction>, tick: string)
    requires FirstDeploy(txs, tick).None?
    ensures Claimed(txs, tick) == 0
    decreases |txs|
  {
    if txs != [] {
      ClaimsFollowDeployment(txs[..|txs| - 1], tick);
    }
  }

  /** So the balances of a tick add up to the claims, capped by the maximum. */
  lemma TotalIsClaimedUpToMax(failed: seq<string>, txs: seq<Transaction>, tick: string)
    requires AllNonNegative(txs)
    ensures TotalOverall(Replay(failed, txs).balances, tick) ==
            if Claimed(txs, tick) <= MaxSupply(txs, tick) then Claimed(txs, tick) else MaxSupply(txs, tick)
  {
    SupplyIsExact(failed, txs);
    assert ExactSupply(Replay(failed, txs), txs, tick);
    SupplyLeftIsUnclaimed(failed, txs, tick);
  }

  // ---------- who holds what, and which operations fail ----------

  function Unclaimed(txs: seq<Transaction>, tick: string): int {
    if Claimed(txs, tick) <= MaxSupply(txs, tick) then MaxSupply(txs, tick) - Claimed(txs, tick) else 0
  }

  /** What the valid mints of an address are granted: each its amount, or the rest if less is unclaimed. */
  function Granted(txs: seq<Transaction>, tick: string, address: string): int {
    if txs == [] then 0
    else
      var init, tx := txs[..|txs| - 1], txs[|txs| - 1];
      Granted(init, tick, address)
      + (if ValidMint(init, tx, tick) && tx.address == address then
           (if tx.op.amt <= Unclaimed(init, tick) then tx.op.amt else Unclaimed(init, tick))
         else 0)
  }

  lemma HeldIs(rows: seq<Balance>, k: nat)
    requires UniqueEntries(rows) && k < |rows|
    ensures Held(rows, rows[k].tick, rows[k].address) == rows[k].overall
  {
    assert Owns(rows[k], rows[k].tick, rows[k].address);
    OneOwner(rows, rows[k].tick, rows[k].address, k);
  }

  /** Row by row the same entries with the same overall balances. */
  lemma HeldAlike(rows: seq<Balance>, after: seq<Balance>, tick: string, address: string)
    requires UniqueEntries(rows) && UniqueEntries(after) && |rows| <= |after|
    requires forall i :: 0 <= i < |rows| ==> after[i].tick == rows[i].tick && after[i].address == rows[i].address
    requires forall i :: 0 <= i < |rows| && Owns(rows[i], tick, address) ==> after[i].overall == rows[i].overall
    requires forall i :: |rows| <= i < |after| ==> !Owns(after[i], tick, address)
    ensures Held(after, tick, address) == Held(rows, tick, address)
  {
    if HasEntry(rows, tick, address) {
      var k :| 0 <= k < |rows| && Owns(rows[k], tick, address);
      HeldIs(rows, k);
      HeldIs(after, k);
    } else {
      assert forall i :: 0 <= i < |rows| ==> !Owns(rows[i], tick, address);
      assert !HasEntry(after, tick, address);
    }
  }

  lemma HeldAfterCredit(rows: seq<Balance>, tick: string, address: string, amt: I32, id: string, t: string, a: string)
    requires UniqueEntries(rows)
    ensures Held(CreditOrOpen(rows, tick, address, amt, id), t, a) ==
            if t == tick && a == address then Wrap(Held(rows, t, a) + amt) else Held(rows, t, a)
  {
    var after := CreditOrOpen(rows, tick, address, amt, id);
    CreditShape(rows, tick, address, amt, id);
    CreditKeepsUnique(rows, tick, address, amt, id);
    if t != tick || a != address {
      HeldAlike(rows, after, t, a);
    } else if HasEntry(rows, tick, address) {
      var k :| 0 <= k < |rows| && Owns(rows[k], tick, address);
      HeldIs(rows, k);
      HeldIs(after, k);
    } else {
      HeldIs(after, |rows|);
    }
  }

  lemma HeldAfterReserve(rows: seq<Balance>, tick: string, address: string, amt: I32, id: string, t: string, a: string)
    requires UniqueEntries(rows)
    ensures Held(ReserveAll(rows, tick, address, amt, id), t, a) == Held(rows, t, a)
  {
    ReserveShape(rows, tick, address, amt, id);
    ReserveKeepsUnique(rows, tick, address, amt, id);
    HeldAlike(rows, ReserveAll(rows, tick, address, amt, id), t, a);
  }

  lemma HeldAfterMint(ledger: Ledger, tx: Transaction, tick: string, address: string)
    requires UniqueEntries(ledger.balances) && ExactRows(ledger.balances) && NonNegative(tx.op)
    requires Minting(ledger, tx, tick) && SupplyLeft(ledger.coins, tick) >= 0
    requires SupplyLeft(ledger.coins, tick) + TotalOverall(ledger.balances, tick) < 0x8000_0000
    ensures Held(Apply(ledger, tx).balances, tick, address) == Held(ledger.balances, tick, address)
              + (if tx.address == address then Minted(FindCoin(ledger.coins, tick).value, tx.op.amt) else 0)
  {
    var minted := Minted(FindCoin(ledger.coins, tick).value, tx.op.amt);
    HeldAfterCredit(ledger.balances, tick, tx.address, minted, tx.id, tick, address);
    HeldWithinTotal(ledger.balances, tick, address);
  }

  lemma HeldAfterOther(ledger: Ledger, tx: Transaction, tick: string, address: string)
    requires UniqueEntries(ledger.balances) && !Minting(ledger, tx, tick)
    ensures Held(Apply(ledger, tx).balances, tick, address) == Held(ledger.balances, tick, address)
  {
    if tx.op.Transfer? {
      HeldAfterReserve(ledger.balances, tx.op.tick, tx.address, tx.op.amt, tx.id, tick, address);
    } else if tx.op.Mint? && Minting(ledger, tx, tx.op.tick) {
      var minted := Minted(FindCoin(ledger.coins, tx.op.tick).value, tx.op.amt);
      HeldAfterCredit(ledger.balances, tx.op.tick, tx.address, minted, tx.id, tick, address);
    }
  }

  /** The overall balance of every address is what its own valid mints were granted. */
  lemma {:induction false} HeldIsGranted(failed: seq<string>, txs: seq<Transaction>, tick: string, address: string)
    requires AllNonNegative(txs)
    ensures Held(Replay(failed, txs).balances, tick, address) == Granted(txs, tick, address)
    decreases |txs|
  {
    if txs != [] {
      var init, tx := txs[..|txs| - 1], txs[|txs| - 1];
      var before := Replay(failed, init);
      HeldIsGranted(failed, init, tick, address);
      ReplayWellKept(failed, init);
      SupplyIsConserved(failed, init, tick);
      SupplyIsExact(failed, init);
      SupplyLeftIsUnclaimed(failed, init, tick);
      assert ExactSupply(before, init, tick) && NonNegative(tx.op);
      if Minting(before, tx, tick) {
        HeldAfterMint(before, tx, tick, address);
        assert ValidMint(init, tx, tick);
      } else {
        HeldAfterOther(before, tx, tick, address);
        assert !ValidMint(init, tx, tick);
      }
    }
  }

  lemma {:induction false} NoShortfall(rows: seq<Balance>, tick: string, address: string, amt: I32, txid: string)
    requires forall i :: 0 <= i < |rows| ==> !Owns(rows[i], tick, address)
    ensures Shortfalls(rows, tick, address, amt, txid) == []
    decreases |rows|
  {
    if rows != [] {
      NoShortfall(rows[..|rows| - 1], tick, address, amt, txid);
    }
  }

  lemma {:induction false} OneShortfall(rows: seq<Balance>, tick: string, address: string, amt: I32, txid: string, k: nat)
    requires k < |rows| && Owns(rows[k], tick, address)
    requires forall i :: 0 <= i < |rows| && i != k ==> !Owns(rows[i], tick, address)
    ensures Shortfalls(rows, tick, address, amt, txid) == if rows[k].available < amt then [FailKey(txid)] else []
    decreases |rows|
  {
    var init := rows[..|rows| - 1];
    if k < |init| {
      OneShortfall(init, tick, address, amt, txid, k);
    } else {
      NoShortfall(init, tick, address, amt, txid);
    }
  }

  /** With one entry for the address, only that entry can change. */
  lemma ReserveOne(rows: seq<Balance>, tick: string, address: string, amt: I32, id: string, k: nat)
    requires UniqueEntries(rows) && k < |rows| && Owns(rows[k], tick, address)
    ensures ReserveAll(rows, tick, address, amt, id) == rows[k := Reserve(rows[k], tick, address, amt, id)]
  {
    ReserveShape(rows, tick, address, amt, id);
    OneOwner(rows, tick, address, k);
  }

  /** A transfer that has not failed before either moves the amount within the sender's one entry, or moves nothing and
      is recorded as failed, once. */
  lemma TransferMovesOrFails(ledger: Ledger, tx: Transaction, k: nat)
    requires WellKept(ledger) && tx.op.Transfer? && FailKey(tx.txid) !in ledger.failed
    requires k < |ledger.balances| && Owns(ledger.balances[k], tx.op.tick, tx.address)
    ensures var row, amt := ledger.balances[k], tx.op.amt;
            Apply(ledger, tx) ==
              if row.available >= amt then
                ledger.(balances := ledger.balances[k := row.(available := Wrap(row.available - amt),
                                                              transferable := Wrap(row.transferable + amt),
                                                              id := tx.id)])
              else ledger.(failed := ledger.failed + [FailKey(tx.txid)])
  {
    var rows, tick, amt := ledger.balances, tx.op.tick, tx.op.amt;
    ReserveOne(rows, tick, tx.address, amt, tx.id, k);
    OneOwner(rows, tick, tx.address, k);
    OneShortfall(rows, tick, tx.address, amt, tx.txid, k);
    var more := Shortfalls(rows, tick, tx.address, amt, tx.txid);
    assert ledger.failed + more + [] == ledger.failed + more;
    assert more == [] ==> ledger.failed + more == ledger.failed;
    assert rows[k := rows[k]] == rows;
  }

  /** Without an entry the transfer fails and changes no balance. */
  lemma TransferWithoutEntryFails(ledger: Ledger, tx: Transaction)
    requires tx.op.Transfer? && FailKey(tx.txid) !in ledger.failed
    requires !HasEntry(ledger.balances, tx.op.tick, tx.address)
    ensures Apply(ledger, tx) == ledger.(failed := ledger.failed + [FailKey(tx.txid)])
  {
    var rows := ledger.balances;
    ReserveShape(rows, tx.op.tick, tx.address, tx.op.amt, tx.id);
    NoShortfall(rows, tx.op.tick, tx.address, tx.op.amt, tx.txid);
    assert ReserveAll(rows, tx.op.tick, tx.address, tx.op.amt, tx.id) == rows;
    assert ledger.failed + [] + [FailKey(tx.txid)] == ledger.failed + [FailKey(tx.txid)];
  }

  /** A mint the replay does not accept changes no coin and no balance, and its transaction counts as failed. */
  lemma RefusedMintFails(failed: seq<string>, txs: seq<Transaction>, tx: Transaction)
    requires tx.op.Mint? && !ValidMint(txs, tx, tx.op.tick)
    ensures var before, after := Replay(failed, txs), Replay(failed, txs + [tx]);
            after.coins == before.coins && after.balances == before.balances && FailKey(tx.txid) in after.failed
  {
    SupplyIsConserved(failed, txs, tx.op.tick);
    assert (txs + [tx])[..|txs|] == txs;
  }
}
