/** Keyset pagination: the indexer's queries by cursor, order and limit. */
module Pagination {
  import opened Common

  const I64_LIMIT: int := 0x8000_0000_0000_0000

  /** The two columns a query orders by. */
  datatype Key = Key(txOrder: int, index: int)

  /** A row with its key columns; `content` stands for the other columns. */
  datatype Row<T> = Row(key: Key, content: T)

  datatype QueryError = NotFound

  // ---------- columns and cursors ----------

  function AsI64(x: int): int {
    if x < I64_LIMIT then x else x - 2 * I64_LIMIT
  }

  function AsU64(x: int): int {
    if x < 0 then x + 2 * I64_LIMIT else x
  }

  /** The identifier of a row that a client gets, and sends back as a cursor. */
  function CursorOf<T>(row: Row<T>): Key {
    Key(AsU64(row.key.txOrder), AsU64(row.key.index))
  }

  // ---------- one query ----------

  predicate Less(a: Key, b: Key) {
    a.txOrder < b.txOrder || (a.txOrder == b.txOrder && a.index < b.index)
  }

  /** `a` comes before `b` in the output. */
  predicate Precedes(a: Key, b: Key, descending: bool) {
    if descending then Less(b, a) else Less(a, b)
  }

  /** The rows that satisfy a condition, in table order. */
  function Select<T>(rows: seq<Row<T>>, p: Row<T> -> bool): seq<Row<T>> {
    if rows == [] then []
    else (if p(rows[0]) then [rows[0]] else []) + Select(rows[1..], p)
  }

  function Insert<T>(row: Row<T>, sorted: seq<Row<T>>, descending: bool): seq<Row<T>> {
    if sorted == [] || !Precedes(sorted[0].key, row.key, descending) then [row] + sorted
    else [sorted[0]] + Insert(row, sorted[1..], descending)
  }

  function Sort<T>(rows: seq<Row<T>>, descending: bool): seq<Row<T>> {
    if rows == [] then [] else Insert(rows[0], Sort(rows[1..], descending), descending)
  }

  function Take<T>(rows: seq<T>, limit: nat): seq<T> {
    if |rows| <= limit then rows else rows[..limit]
  }

  /** The row condition of the cursor clause. */
  function Beyond<T>(start: Key, descending: bool): Row<T> -> bool {
    (row: Row<T>) => Precedes(start, row.key, descending)
  }

  function Both<T>(p: Row<T> -> bool, q: Row<T> -> bool): Row<T> -> bool {
    (row: Row<T>) => p(row) && q(row)
  }

  /** Where a query starts. Without a cursor the descending start is read from the table: one transaction past the
      largest key. */
  function StartKey<T>(table: seq<Row<T>>, cursor: Option<Key>, descending: bool): Result<Key, QueryError> {
    if cursor.Some? then Ok(Key(AsI64(cursor.value.txOrder), AsI64(cursor.value.index)))
    else if !descending then Ok(Key(-1, 0))
    else
      var largest := Sort(table, true);
      if largest == [] then Err(NotFound)
      else Ok(Key(largest[0].key.txOrder + 1, largest[0].key.index))
  }

  function Query<T>(table: seq<Row<T>>, filter: Row<T> -> bool, cursor: Option<Key>, limit: nat, descending: bool)
    : Result<seq<Row<T>>, QueryError>
  {
    var start :- StartKey(table, cursor, descending);
    Ok(Take(Sort(Select(table, Both(filter, Beyond(start, descending))), descending), limit))
  }

  // ---------- sorting ----------

  predicate ValidTable<T>(table: seq<Row<T>>) {
    && (forall i :: 0 <= i < |table| ==>
          0 <= table[i].key.txOrder < I64_LIMIT - 1 && 0 <= table[i].key.index < I64_LIMIT)
    && forall i, j :: 0 <= i < j < |table| ==> table[i].key != table[j].key
  }

  predicate Distinct<T>(rows: seq<Row<T>>) {
    forall i, j :: 0 <= i < j < |rows| ==> rows[i].key != rows[j].key
  }

  predicate Ordered<T>(rows: seq<Row<T>>, descending: bool) {
    forall i, j :: 0 <= i < j < |rows| ==> Precedes(rows[i].key, rows[j].key, descending)
  }

  lemma {:induction false} InsertAdds<T>(row: Row<T>, sorted: seq<Row<T>>, descending: bool)
    ensures multiset(Insert(row, sorted, descending)) == multiset(sorted) + multiset{row}
    decreases |sorted|
  {
    if sorted != [] && Precedes(sorted[0].key, row.key, descending) {
      InsertAdds(row, sorted[1..], descending);
      assert sorted == [sorted[0]] + sorted[1..];
    }
  }

  lemma PrependOrders<T>(first: Row<T>, rest: seq<Row<T>>, descending: bool)
    requires Ordered(rest, descending) && forall i :: 0 <= i < |rest| ==> Precedes(first.key, rest[i].key, descending)
    ensures Ordered([first] + rest, descending)
  {}

  /** Before an ordered sequence comes what comes before its first row. */
  lemma FirstComesFirst<T>(row: Row<T>, sorted: seq<Row<T>>, descending: bool)
    requires Ordered(sorted, descending) && sorted != [] && Precedes(row.key, sorted[0].key, descending)
    ensures forall i :: 0 <= i < |sorted| ==> Precedes(row.key, sorted[i].key, descending)
  {
    forall i | 0 < i < |sorted| ensures Precedes(row.key, sorted[i].key, descending) {
      assert Precedes(sorted[0].key, sorted[i].key, descending);
    }
  }

  lemma {:induction false} InsertOrders<T>(row: Row<T>, sorted: seq<Row<T>>, descending: bool)
    requires Ordered(sorted, descending) && forall i :: 0 <= i < |sorted| ==> sorted[i].key != row.key
    ensures Ordered(Insert(row, sorted, descending), descending)
    ensures multiset(Insert(row, sorted, descending)) == multiset(sorted) + multiset{row}
    decreases |sorted|
  {
    InsertAdds(row, sorted, descending);
    if sorted != [] && Precedes(sorted[0].key, row.key, descending) {
      var rest := sorted[1..];
      InsertOrders(row, rest, descending);
      var after := Insert(row, rest, descending);
      forall i | 0 <= i < |after| ensures Precedes(sorted[0].key, after[i].key, descending) {
        assert after[i] in multiset(after);
        assert after[i] in rest || after[i] == row;
      }
      PrependOrders(sorted[0], after, descending);
    } else if sorted != [] {
      FirstComesFirst(row, sorted, descending);
      PrependOrders(row, sorted, descending);
    }
  }

  lemma {:induction false} SortOrders<T>(rows: seq<Row<T>>, descending: bool)
    requires Distinct(rows)
    ensures Ordered(Sort(rows, descending), descending) && multiset(Sort(rows, descending)) == multiset(rows)
    decreases |rows|
  {
    if rows != [] {
      var rest := rows[1..];
      SortOrders(rest, descending);
      var sorted := Sort(rest, descending);
      assert rows == [rows[0]] + rest;
      forall i | 0 <= i < |sorted| ensures sorted[i].key != rows[0].key {
        assert sorted[i] in multiset(sorted);
        assert sorted[i] in rest;
      }
      InsertOrders(rows[0], sorted, descending);
    }
  }

  predicate SameRows<T(==)>(a: seq<Row<T>>, b: seq<Row<T>>) {
    (forall i :: 0 <= i < |a| ==> a[i] in b) && (forall j :: 0 <= j < |b| ==> b[j] in a)
  }

  lemma FirstRowsAgree<T>(a: seq<Row<T>>, b: seq<Row<T>>, descending: bool)
    requires Ordered(a, descending) && Ordered(b, descending) && SameRows(a, b) && a != [] && b != []
    ensures a[0] == b[0]
  {
    var i :| 0 <= i < |b| && b[i] == a[0];
    var j :| 0 <= j < |a| && a[j] == b[0];
    assert i > 0 ==> Precedes(b[0].key, b[i].key, descending);
    assert j > 0 ==> Precedes(a[0].key, a[j].key, descending);
  }

  lemma TailRowsIn<T>(a: seq<Row<T>>, b: seq<Row<T>>, descending: bool)
    requires Ordered(a, descending) && SameRows(a, b) && a != [] && b != [] && a[0] == b[0]
    ensures forall i :: 0 <= i < |a[1..]| ==> a[1..][i] in b[1..]
  {
    forall i | 0 <= i < |a[1..]| ensures a[1..][i] in b[1..] {
      assert a[i + 1] in b && Precedes(a[0].key, a[i + 1].key, descending);
      var k :| 0 <= k < |b| && b[k] == a[i + 1];
      assert b[1..][k - 1] == b[k];
    }
  }

  lemma EmptyTogether<T>(a: seq<Row<T>>, b: seq<Row<T>>)
    requires SameRows(a, b)
    ensures a == [] <==> b == []
  {
    assert a != [] ==> a[0] in b;
    assert b != [] ==> b[0] in a;
  }

  /** An ordered sequence is determined by its rows. */
  lemma {:induction false} OrderedUnique<T>(a: seq<Row<T>>, b: seq<Row<T>>, descending: bool)
    requires Ordered(a, descending) && Ordered(b, descending) && SameRows(a, b)
    ensures a == b
    decreases |a|
  {
    EmptyTogether(a, b);
    if a != [] {
      FirstRowsAgree(a, b, descending);
      TailRowsIn(a, b, descending);
      TailRowsIn(b, a, descending);
      OrderedUnique(a[1..], b[1..], descending);
      assert a == [a[0]] + a[1..] && b == [b[0]] + b[1..];
    }
  }

  // ---------- selecting ----------

  lemma {:induction false} SelectCounts<T>(rows: seq<Row<T>>, p: Row<T> -> bool, row: Row<T>)
    ensures multiset(Select(rows, p))[row] == if p(row) then multiset(rows)[row] else 0
    decreases |rows|
  {
    if rows != [] {
      SelectCounts(rows[1..], p, row);
      assert rows == [rows[0]] + rows[1..];
    }
  }

  lemma {:induction false} SelectIsIn<T>(rows: seq<Row<T>>, p: Row<T> -> bool, row: Row<T>)
    ensures row in Select(rows, p) <==> row in rows && p(row)
  {
    SelectCounts(rows, p, row);
    assert row in Select(rows, p) <==> row in multiset(Select(rows, p));
    assert row in rows <==> row in multiset(rows);
  }

  lemma {:induction false} SelectDistinct<T>(rows: seq<Row<T>>, p: Row<T> -> bool)
    requires Distinct(rows)
    ensures Distinct(Select(rows, p))
    decreases |rows|
  {
    if rows != [] {
      var rest := Select(rows[1..], p);
      SelectDistinct(rows[1..], p);
      forall i | 0 <= i < |rest| ensures rest[i].key != rows[0].key {
        SelectIsIn(rows[1..], p, rest[i]);
        var j :| 0 <= j < |rows[1..]| && rows[1..][j] == rest[i];
        assert rows[j + 1] == rest[i];
      }
    }
  }

  lemma {:induction false} SelectAll<T>(rows: seq<Row<T>>, p: Row<T> -> bool)
    requires forall i :: 0 <= i < |rows| ==> p(rows[i])
    ensures Select(rows, p) == rows
    decreases |rows|
  {
    if rows != [] {
      SelectAll(rows[1..], p);
    }
  }

  lemma {:induction false} SelectSuffix<T>(before: seq<Row<T>>, after: seq<Row<T>>, p: Row<T> -> bool)
    requires forall i :: 0 <= i < |before| ==> !p(before[i])
    requires forall i :: 0 <= i < |after| ==> p(after[i])
    ensures Select(before + after, p) == after
    decreases |before|
  {
    if before == [] {
      assert before + after == after;
      SelectAll(after, p);
    } else {
      assert (before + after)[0] == before[0] && (before + after)[1..] == before[1..] + after;
      SelectSuffix(before[1..], after, p);
    }
  }

  lemma BeyondFrom<T>(sorted: seq<Row<T>>, n: nat, descending: bool, i: nat)
    requires Ordered(sorted, descending) && 0 < n <= |sorted| && i < |sorted|
    ensures Beyond(sorted[n - 1].key, descending)(sorted[i]) <==> i >= n
  {
    assert i < n - 1 ==> Precedes(sorted[i].key, sorted[n - 1].key, descending);
    assert i >= n ==> Precedes(sorted[n - 1].key, sorted[i].key, descending);
  }

  /** Past the row before `n`, an ordered sequence continues with everything from `n` on. */
  lemma SuffixIsBeyond<T>(sorted: seq<Row<T>>, n: nat, descending: bool)
    requires Ordered(sorted, descending) && 0 < n <= |sorted|
    ensures Select(sorted, Beyond(sorted[n - 1].key, descending)) == sorted[n..]
  {
    var p := Beyond<T>(sorted[n - 1].key, descending);
    var before, after := sorted[..n], sorted[n..];
    forall i | 0 <= i < |before| ensures !p(before[i]) {
      BeyondFrom(sorted, n, descending, i);
    }
    forall i | 0 <= i < |after| ensures p(after[i]) {
      BeyondFrom(sorted, n, descending, n + i);
    }
    assert before + after == sorted;
    SelectSuffix(before, after, p);
  }

  // ---------- the rest of a scan ----------

  /** The filtered rows beyond a key, in order: what a scan from that key has to return. */
  function Rest<T>(table: seq<Row<T>>, filter: Row<T> -> bool, start: Key, descending: bool): seq<Row<T>> {
    Sort(Select(table, Both(filter, Beyond(start, descending))), descending)
  }

  lemma SortedRows<T>(rows: seq<Row<T>>, p: Row<T> -> bool, descending: bool)
    requires Distinct(rows)
    ensures Ordered(Sort(Select(rows, p), descending), descending)
    ensures multiset(Sort(Select(rows, p), descending)) == multiset(Select(rows, p))
  {
    SelectDistinct(rows, p);
    SortOrders(Select(rows, p), descending);
  }

  lemma RestMembers<T>(table: seq<Row<T>>, filter: Row<T> -> bool, start: Key, descending: bool, row: Row<T>)
    requires Distinct(table)
    ensures row in Rest(table, filter, start, descending) <==>
            row in table && filter(row) && Precedes(start, row.key, descending)
  {
    var p := Both(filter, Beyond(start, descending));
    SortedRows(table, p, descending);
    assert row in Rest(table, filter, start, descending) <==> row in multiset(Select(table, p));
    SelectIsIn(table, p, row);
  }

  lemma RestSplits<T>(table: seq<Row<T>>, filter: Row<T> -> bool, start: Key, n: nat, descending: bool, row: Row<T>)
    requires Distinct(table) && 0 < n <= |Rest(table, filter, start, descending)|
    requires Ordered(Rest(table, filter, start, descending), descending)
    ensures var all := Rest(table, filter, start, descending);
            row in Rest(table, filter, all[n - 1].key, descending) <==> row in all[n..]
  {
    var all := Rest(table, filter, start, descending);
    var key := all[n - 1].key;
    RestMembers(table, filter, start, descending, all[n - 1]);
    RestMembers(table, filter, start, descending, row);
    RestMembers(table, filter, key, descending, row);
    SuffixIsBeyond(all, n, descending);
    SelectIsIn(all, Beyond(key, descending), row);
  }

  lemma OrderedSuffix<T>(sorted: seq<Row<T>>, n: nat, descending: bool)
    requires Ordered(sorted, descending) && n <= |sorted|
    ensures Ordered(sorted[n..], descending)
  {}

  /** Restarting after the first `n` rows of a scan gives the others. */
  lemma RestOfRest<T>(table: seq<Row<T>>, filter: Row<T> -> bool, start: Key, n: nat, descending: bool)
    requires Distinct(table) && 0 < n <= |Rest(table, filter, start, descending)|
    ensures var all := Rest(table, filter, start, descending);
            Rest(table, filter, all[n - 1].key, descending) == all[n..]
  {
    var all := Rest(table, filter, start, descending);
    var again, suffix := Rest(table, filter, all[n - 1].key, descending), all[n..];
    SortedRows(table, Both(filter, Beyond(start, descending)), descending);
    SortedRows(table, Both(filter, Beyond(all[n - 1].key, descending)), descending);
    OrderedSuffix(all, n, descending);
    forall i | 0 <= i < |again| ensures again[i] in suffix {
      RestSplits(table, filter, start, n, descending, again[i]);
    }
    forall j | 0 <= j < |suffix| ensures suffix[j] in again {
      RestSplits(table, filter, start, n, descending, suffix[j]);
    }
    OrderedUnique(again, suffix, descending);
  }

  /** A row's cursor, sent back, is read as the row's key. */
  lemma CursorReturns<T>(table: seq<Row<T>>, row: Row<T>, descending: bool)
    requires -I64_LIMIT <= row.key.txOrder < I64_LIMIT && -I64_LIMIT <= row.key.index < I64_LIMIT
    ensures StartKey(table, Some(CursorOf(row)), descending) == Ok(row.key)
  {}

  // ---------- the whole scan ----------

  function RestOf<T>(table: seq<Row<T>>, filter: Row<T> -> bool, cursor: Option<Key>, descending: bool): seq<Row<T>> {
    var start := StartKey(table, cursor, descending);
    if start.Err? then [] else Rest(table, filter, start.value, descending)
  }

  function NextCursor<T>(page: seq<Row<T>>): Option<Key>
    requires page != []
  {
    Some(CursorOf(page[|page| - 1]))
  }

  /** The cursor of a row of the scan starts the rest of it. */
  lemma ContinuesAt<T>(table: seq<Row<T>>, filter: Row<T> -> bool, start: Key, n: nat, descending: bool)
    requires ValidTable(table) && 0 < n <= |Rest(table, filter, start, descending)|
    ensures var all := Rest(table, filter, start, descending);
            var cursor := Some(CursorOf(all[n - 1]));
            StartKey(table, cursor, descending).Ok? && RestOf(table, filter, cursor, descending) == all[n..]
  {
    var row := Rest(table, filter, start, descending)[n - 1];
    RestMembers(table, filter, start, descending, row);
    CursorReturns(table, row, descending);
    RestOfRest(table, filter, start, n, descending);
  }

  /** A page is the start of what is left, and the cursor of its last row leaves the remainder. */
  lemma PageAdvances<T>(table: seq<Row<T>>, filter: Row<T> -> bool, cursor: Option<Key>, limit: nat, descending: bool)
    requires ValidTable(table) && limit >= 1
    requires Query(table, filter, cursor, limit, descending).Ok?
    ensures var page := Query(table, filter, cursor, limit, descending).value;
            var all := RestOf(table, filter, cursor, descending);
            if page == [] then all == []
            else
              && StartKey(table, NextCursor(page), descending).Ok?
              && all == page + RestOf(table, filter, NextCursor(page), descending)
  {
    var start := StartKey(table, cursor, descending).value;
    var all := Rest(table, filter, start, descending);
    var page := Take(all, limit);
    if page != [] {
      ContinuesAt(table, filter, start, |page|, descending);
      assert page[|page| - 1] == all[|page| - 1] && all == page + all[|page|..];
    }
  }

  /** A page is as long as the limit, or as what is left. */
  lemma PageSize<T>(table: seq<Row<T>>, filter: Row<T> -> bool, cursor: Option<Key>, limit: nat, descending: bool)
    requires Query(table, filter, cursor, limit, descending).Ok?
    ensures var (page, all) := (Query(table, filter, cursor, limit, descending).value,
                                RestOf(table, filter, cursor, descending));
            |page| == if |all| < limit then |all| else limit
  {}

  /** Page after page, each from the cursor of the row before it, until a page is empty. */
  function Drain<T>(table: seq<Row<T>>, filter: Row<T> -> bool, cursor: Option<Key>, limit: nat, descending: bool)
    : Result<seq<Row<T>>, QueryError>
    requires ValidTable(table) && limit >= 1
    decreases |RestOf(table, filter, cursor, descending)|
  {
    var page :- Query(table, filter, cursor, limit, descending);
    if page == [] then Ok([])
    else
      PageAdvances(table, filter, cursor, limit, descending);
      var others :- Drain(table, filter, NextCursor(page), limit, descending);
      Ok(page + others)
  }

  lemma DrainEnds<T>(table: seq<Row<T>>, filter: Row<T> -> bool, cursor: Option<Key>, limit: nat, descending: bool)
    requires ValidTable(table) && limit >= 1 && Query(table, filter, cursor, limit, descending) == Ok([])
    ensures Drain(table, filter, cursor, limit, descending) == Ok([])
  {}

  lemma DrainNext<T>(table: seq<Row<T>>, filter: Row<T> -> bool, cursor: Option<Key>, limit: nat, descending: bool,
                     page: seq<Row<T>>, others: seq<Row<T>>)
    requires ValidTable(table) && limit >= 1 && page != []
    requires Query(table, filter, cursor, limit, descending) == Ok(page)
    requires Drain(table, filter, NextCursor(page), limit, descending) == Ok(others)
    ensures Drain(table, filter, cursor, limit, descending) == Ok(page + others)
  {}

  /** From any cursor, whether or not its row exists, the pages together are exactly the rows beyond it. */
  lemma {:induction false} DrainFromCursor<T>(table: seq<Row<T>>, filter: Row<T> -> bool, cursor: Option<Key>,
                                              limit: nat, descending: bool)
    requires ValidTable(table) && limit >= 1
    requires StartKey(table, cursor, descending).Ok?
    ensures Drain(table, filter, cursor, limit, descending) == Ok(RestOf(table, filter, cursor, descending))
    decreases |RestOf(table, filter, cursor, descending)|
  {
    var page := Query(table, filter, cursor, limit, descending).value;
    PageAdvances(table, filter, cursor, limit, descending);
    if page == [] {
      DrainEnds(table, filter, cursor, limit, descending);
    } else {
      var next := NextCursor(page);
      DrainFromCursor(table, filter, next, limit, descending);
      DrainNext(table, filter, cursor, limit, descending, page, RestOf(table, filter, next, descending));
    }
  }

  /** Every row of the table lies beyond the start of a scan without a cursor. */
  lemma StartIsOutside<T>(table: seq<Row<T>>, descending: bool)
    requires ValidTable(table) && (descending ==> table != [])
    ensures StartKey(table, None, descending).Ok?
    ensures forall row :: row in table ==> Precedes(StartKey(table, None, descending).value, row.key, descending)
  {
    if descending {
      var sorted := Sort(table, true);
      SortOrders(table, true);
      assert |multiset(sorted)| == |multiset(table)|;
      forall row | row in table ensures row.key.txOrder <= sorted[0].key.txOrder {
        assert row in multiset(sorted);
        var i :| 0 <= i < |sorted| && sorted[i] == row;
        assert i > 0 ==> Precedes(sorted[0].key, sorted[i].key, true);
      }
    }
  }

  lemma {:induction false} SelectAlike<T>(rows: seq<Row<T>>, p: Row<T> -> bool, q: Row<T> -> bool)
    requires forall row :: row in rows ==> p(row) == q(row)
    ensures Select(rows, p) == Select(rows, q)
    decreases |rows|
  {
    if rows != [] {
      assert rows[0] in rows && forall row :: row in rows[1..] ==> row in rows;
      SelectAlike(rows[1..], p, q);
    }
  }

  /** A scan without a cursor returns the filtered table, sorted; only a descending scan of an empty table fails. */
  lemma DrainIsComplete<T>(table: seq<Row<T>>, filter: Row<T> -> bool, limit: nat, descending: bool)
    requires ValidTable(table) && limit >= 1
    ensures Drain(table, filter, None, limit, descending) ==
            if descending && table == [] then Err(NotFound) else Ok(Sort(Select(table, filter), descending))
  {
    if !descending || table != [] {
      StartIsOutside(table, descending);
      var start := StartKey(table, None, descending).value;
      DrainFromCursor(table, filter, None, limit, descending);
      SelectAlike(table, filter, Both(filter, Beyond(start, descending)));
    }
  }

  /** By the first column, and by the second among rows that agree in the first. */
  predicate ByColumns(a: Key, b: Key, descending: bool) {
    if a.txOrder == b.txOrder then (if descending then a.index > b.index else a.index < b.index)
    else if descending then a.txOrder > b.txOrder else a.txOrder < b.txOrder
  }

  /** The pages from a cursor hold exactly the rows of the filtered table whose columns lie beyond it. */
  lemma DrainFromCursorHolds<T>(table: seq<Row<T>>, filter: Row<T> -> bool, cursor: Key, limit: nat, descending: bool,
                                row: Row<T>)
    requires ValidTable(table) && limit >= 1 && 0 <= cursor.txOrder < I64_LIMIT && 0 <= cursor.index < I64_LIMIT
    ensures Drain(table, filter, Some(cursor), limit, descending).Ok?
    ensures row in Drain(table, filter, Some(cursor), limit, descending).value <==>
            row in table && filter(row) && ByColumns(cursor, row.key, descending)
  {
    DrainFromCursor(table, filter, Some(cursor), limit, descending);
    RestMembers(table, filter, cursor, descending, row);
  }

  /** The sorted filtered table holds every row that satisfies the filter as often as the table does, and is in order of
      its columns. */
  lemma SortedSelection<T>(table: seq<Row<T>>, filter: Row<T> -> bool, descending: bool, row: Row<T>)
    requires Distinct(table)
    ensures Ordered(Sort(Select(table, filter), descending), descending)
    ensures var sorted := Sort(Select(table, filter), descending);
            forall i, j :: 0 <= i < j < |sorted| ==> ByColumns(sorted[i].key, sorted[j].key, descending)
    ensures multiset(Sort(Select(table, filter), descending))[row] ==
            if filter(row) && row in table then 1 else 0
  {
    SortedRows(table, filter, descending);
    SelectCounts(table, filter, row);
    DistinctCountsOnce(table, row);
  }

  lemma {:induction false} DistinctCountsOnce<T>(rows: seq<Row<T>>, row: Row<T>)
    requires Distinct(rows)
    ensures multiset(rows)[row] == if row in rows then 1 else 0
    decreases |rows|
  {
    if rows != [] {
      DistinctCountsOnce(rows[1..], row);
      assert rows == [rows[0]] + rows[1..];
    }
  }

  function Reverse<T>(rows: seq<T>): seq<T> {
    if rows == [] then [] else Reverse(rows[1..]) + [rows[0]]
  }

  lemma {:induction false} ReverseMirrors<T>(rows: seq<Row<T>>, descending: bool)
    requires Ordered(rows, descending)
    ensures Ordered(Reverse(rows), !descending) && multiset(Reverse(rows)) == multiset(rows)
    decreases |rows|
  {
    if rows != [] {
      var rest := rows[1..];
      ReverseMirrors(rest, descending);
      assert rows == [rows[0]] + rest;
      forall i | 0 <= i < |Reverse(rest)| ensures Precedes(Reverse(rest)[i].key, rows[0].key, !descending) {
        assert Reverse(rest)[i] in multiset(Reverse(rest));
        assert Reverse(rest)[i] in rest;
      }
    }
  }

  lemma SameMultisetSameRows<T>(a: seq<Row<T>>, b: seq<Row<T>>)
    requires multiset(a) == multiset(b)
    ensures SameRows(a, b)
  {
    forall i | 0 <= i < |a| ensures a[i] in b {
      assert a[i] in multiset(a);
    }
    forall j | 0 <= j < |b| ensures b[j] in a {
      assert b[j] in multiset(b);
    }
  }

  /** Sorting the other way round is reversing. */
  lemma SortMirrors<T>(table: seq<Row<T>>, filter: Row<T> -> bool)
    requires Distinct(table)
    ensures Sort(Select(table, filter), false) == Reverse(Sort(Select(table, filter), true))
  {
    var up, down := Sort(Select(table, filter), false), Sort(Select(table, filter), true);
    SortedRows(table, filter, true);
    SortedRows(table, filter, false);
    ReverseMirrors(down, true);
    SameMultisetSameRows(up, Reverse(down));
    OrderedUnique(up, Reverse(down), false);
  }

  /** Ascending pages together are the descending ones in reverse. */
  lemma AscendingIsReverse<T>(table: seq<Row<T>>, filter: Row<T> -> bool, limit: nat, otherLimit: nat)
    requires ValidTable(table) && table != [] && limit >= 1 && otherLimit >= 1
    ensures Drain(table, filter, None, limit, false).Ok? && Drain(table, filter, None, otherLimit, true).Ok?
    ensures Drain(table, filter, None, limit, false).value == Reverse(Drain(table, filter, None, otherLimit, true).value)
  {
    DrainIsComplete(table, filter, limit, false);
    DrainIsComplete(table, filter, otherLimit, true);
    SortMirrors(table, filter);
  }

  /** Transactions are ordered by their first column alone: with one row per transaction the same clause. */
  lemma TransactionClause(start: int, txOrder: int, descending: bool)
    ensures Precedes(Key(start, 0), Key(txOrder, 0), descending) <==> if descending then txOrder < start else txOrder > start
  {}
}
