/** The BRC-20 tables as the replay rewrites them, row by row. */
module Brc20Tables {
  import opened Common
  import opened Brc20Ledger

  class Tables {
    var coins: seq<Coin>
    var balances: seq<Balance>
    var failed: seq<string>

    function State(): Ledger
      reads this
    {
      Ledger(coins, balances, failed)
    }

    /** Empties the coin and balance tables; the failures of earlier runs stay. */
    constructor (failures: seq<string>)
      ensures State() == Replay(failures, [])
    {
      coins, balances, failed := [], [], failures;
    }

    method TickExists(tick: string) returns (found: bool)
      ensures found <==> FindCoin(coins, tick).Some?
    {
      assert coins[..|coins|] == coins;
      for i := 0 to |coins|
        invariant FindCoin(coins[..i], tick) == None
      {
        assert coins[..i + 1][..i] == coins[..i];
        if coins[i].tick == tick {
          FindIn(coins, i + 1, tick);
          return true;
        }
      }
      return false;
    }

    method ReadCoin(tick: string) returns (coin: Option<Coin>)
      ensures coin == FindCoin(coins, tick)
    {
      assert coins[..|coins|] == coins;
      for i := 0 to |coins|
        invariant FindCoin(coins[..i], tick) == None
      {
        assert coins[..i + 1][..i] == coins[..i];
        if coins[i].tick == tick {
          FindIn(coins, i + 1, tick);
          return Some(coins[i]);
        }
      }
      return None;
    }

    method HasFailed(txid: string) returns (found: bool)
      ensures found <==> FailKey(txid) in failed
    {
      for i := 0 to |failed|
        invariant FailKey(txid) !in failed[..i]
      {
        if failed[i] == FailKey(txid) {
          return true;
        }
        assert failed[..i + 1] == failed[..i] + [failed[i]];
      }
      assert failed[..|failed|] == failed;
      return false;
    }

    method WriteFailure(txid: string)
      modifies this`failed
      ensures failed == old(failed) + [FailKey(txid)]
    {
      failed := failed + [FailKey(txid)];
    }

    method WriteCoin(tick: string, max: I32, limit: I32, id: string)
      modifies this`coins
      ensures coins == old(coins) + [Coin(tick, max, limit, id)]
    {
      coins := coins + [Coin(tick, max, limit, id)];
    }

    method UpdateCoin(tick: string, amt: I32)
      modifies this`coins
      ensures coins == DebitAll(old(coins), tick, amt)
    {
      var temp: seq<Coin> := [];
      for i := 0 to |coins|
        invariant coins == old(coins)
        invariant temp == DebitAll(coins[..i], tick, amt)
      {
        var row := coins[i];
        if row.tick == tick {
          row := row.(left := Wrap(row.left - amt));
        }
        assert coins[..i + 1][..i] == coins[..i];
        temp := temp + [row];
      }
      assert coins[..|coins|] == coins;
      coins := temp;
    }

    method UpdateBalance(tick: string, address: string, amt: I32, id: string)
      modifies this`balances
      ensures balances == CreditOrOpen(old(balances), tick, address, amt, id)
    {
      var temp: seq<Balance> := [];
      var entryExists := false;
      for i := 0 to |balances|
        invariant balances == old(balances)
        invariant temp == CreditAll(balances[..i], tick, address, amt, id)
        invariant entryExists <==> HasEntry(balances[..i], tick, address)
      {
        var row := balances[i];
        HasEntryNext(balances, i, tick, address);
        if row.tick == tick && row.address == address {
          entryExists := true;
          row := row.(overall := Wrap(row.overall + amt), available := Wrap(row.available + amt), id := id);
        }
        assert balances[..i + 1][..i] == balances[..i];
        temp := temp + [row];
      }
      if !entryExists {
        temp := temp + [Balance(tick, address, amt, amt, 0, id)];
      }
      assert balances[..|balances|] == balances;
      balances := temp;
    }

    /** Reserves an amount for transfer; too little available, or no entry at all, is a failure. */
    method ProcessEntry(tick: string, address: string, amt: I32, txid: string, id: string)
      modifies this`balances, this`failed
      ensures State() == ApplyEntry(old(State()), tick, address, amt, txid, id)
    {
      var temp: seq<Balance> := [];
      var entryExists := false;
      for i := 0 to |balances|
        invariant balances == old(balances)
        invariant temp == ReserveAll(balances[..i], tick, address, amt, id)
        invariant failed == old(failed) + Shortfalls(balances[..i], tick, address, amt, txid)
        invariant entryExists <==> HasEntry(balances[..i], tick, address)
      {
        var row := balances[i];
        HasEntryNext(balances, i, tick, address);
        assert balances[..i + 1][..i] == balances[..i];
        if row.tick == tick && row.address == address {
          entryExists := true;
          if row.available < amt {
            WriteFailure(txid);
          } else {
            row := row.(available := Wrap(row.available - amt), transferable := Wrap(row.transferable + amt), id := id);
          }
        }
        temp := temp + [row];
      }
      assert balances[..|balances|] == balances;
      if !entryExists {
        WriteFailure(txid);
      }
      balances := temp;
    }

    method ProcessDeploy(tx: Transaction)
      requires tx.op.Deploy?
      modifies this
      ensures State() == ApplyDeploy(old(State()), tx)
    {
      var deployed := TickExists(tx.op.tick);
      if !deployed {
        WriteCoin(tx.op.tick, tx.op.max, tx.op.limit, tx.id);
      }
    }

    method ProcessMint(tx: Transaction)
      requires tx.op.Mint?
      modifies this
      ensures State() == ApplyMint(old(State()), tx)
    {
      var tick, amt := tx.op.tick, tx.op.amt;
      var deployed := TickExists(tick);
      var hasFailed := HasFailed(tx.txid);
      if !deployed && !hasFailed {
        WriteFailure(tx.txid);
      } else if !deployed && hasFailed {
        return;
      } else {
        var coin := ReadCoin(tick);
        var left, limit := coin.value.left, coin.value.limit;
        if limit < amt && !hasFailed {
          WriteFailure(tx.txid);
        }
        hasFailed := HasFailed(tx.txid);
        if limit < amt && hasFailed {
          return;
        }
        if left >= amt && limit >= amt {
          UpdateCoin(tick, amt);
          UpdateBalance(tick, tx.address, amt, tx.id);
        }
        if left < amt && limit >= amt {
          UpdateCoin(tick, left);
          UpdateBalance(tick, tx.address, left, tx.id);
        }
      }
    }

    method ProcessTransfer(tx: Transaction)
      requires tx.op.Transfer?
      modifies this
      ensures State() == ApplyTransfer(old(State()), tx)
    {
      var hasFailed := HasFailed(tx.txid);
      if hasFailed {
        return;
      }
      ProcessEntry(tx.op.tick, tx.address, tx.op.amt, tx.txid, tx.id);
    }
  }

  /** The driver: a replay from empty coin and balance tables. */
  method ProcessTransactions(failures: seq<string>, txs: seq<Transaction>) returns (tables: Tables)
    ensures fresh(tables)
    ensures tables.State() == Replay(failures, txs)
  {
    tables := new Tables(failures);
    for i := 0 to |txs|
      invariant fresh(tables)
      invariant tables.State() == Replay(failures, txs[..i])
    {
      assert txs[..i + 1][..i] == txs[..i];
      match txs[i].op {
        case Deploy(_, _, _) => tables.ProcessDeploy(txs[i]);
        case Mint(_, _) => tables.ProcessMint(txs[i]);
        case Transfer(_, _) => tables.ProcessTransfer(txs[i]);
        case Other =>
      }
    }
    assert txs[..|txs|] == txs;
  }

  /** What a prefix finds, the whole table finds. */
  lemma {:induction false} FindIn(coins: seq<Coin>, n: nat, tick: string)
    requires n <= |coins| && FindCoin(coins[..n], tick).Some?
    ensures FindCoin(coins, tick) == FindCoin(coins[..n], tick)
    decreases |coins|
  {
    if n < |coins| {
      var init := coins[..|coins| - 1];
      assert init[..n] == coins[..n];
      FindIn(init, n, tick);
    } else {
      assert coins[..n] == coins;
    }
  }

  lemma HasEntryNext(rows: seq<Balance>, i: nat, tick: string, address: string)
    requires i < |rows|
    ensures HasEntry(rows[..i + 1], tick, address) <==> HasEntry(rows[..i], tick, address) || Owns(rows[i], tick, address)
  {
    var before, after := rows[..i], rows[..i + 1];
    assert after[i] == rows[i] && forall k :: 0 <= k < i ==> after[k] == before[k];
  }
}
