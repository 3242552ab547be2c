/**
 * `upsert_batch` of scripts/fetch_stock.py: each normalised quote becomes one
 * eight-column row (symbol, fetched_at, open, high, low, close, volume, raw), the
 * rows are inserted together, and the transaction is committed.
 */
module Store {
  import opened Wrappers
  import opened Decimals
  import opened Calendar
  import opened Quotes

  /** One SQL parameter value as the database driver sends it; Python `None` is NULL. */
  datatype SqlValue =
    | Null
    | Text(text: string)
    | TimestampTz(at: Timestamp)
    | Numeric(number: Decimal)
    | BigInt(integer: int)
    | Jsonb(document: Json)

  type Row = seq<SqlValue>

  /** The column list of the INSERT statement, in order. */
  const Columns: seq<string> := ["symbol", "fetched_at", "open", "high", "low", "close", "volume", "raw"]

  predicate NumericOrNull(v: SqlValue) { v.Null? || v.Numeric? }

  predicate BigIntOrNull(v: SqlValue) { v.Null? || v.BigInt? }

  /** A row of the target table: one value per column, each of that column's type. */
  predicate WellTyped(r: Row) {
    |r| == |Columns|
    && r[0].Text? && r[1].TimestampTz?
    && NumericOrNull(r[2]) && NumericOrNull(r[3]) && NumericOrNull(r[4]) && NumericOrNull(r[5])
    && BigIntOrNull(r[6]) && r[7].Jsonb?
  }

  function NumericParam(v: Option<Decimal>): SqlValue {
    match v
    case None => Null
    case Some(d) => Numeric(d)
  }

  function BigIntParam(v: Option<int>): SqlValue {
    match v
    case None => Null
    case Some(i) => BigInt(i)
  }

  /** The tuple `upsert_batch` builds for one quote, the raw payload wrapped as JSON. */
  function RowOf(q: Quote): (r: Row)
    ensures WellTyped(r)
    ensures DecodeRow(r) == Some(q)
  {
    [Text(q.symbol), TimestampTz(q.fetchedAt),
     NumericParam(q.open), NumericParam(q.high), NumericParam(q.low), NumericParam(q.close),
     BigIntParam(q.volume), Jsonb(q.raw)]
  }

  function NumericValue(v: SqlValue): Option<Decimal>
    requires NumericOrNull(v)
  {
    if v.Null? then None else Some(v.number)
  }

  function BigIntValue(v: SqlValue): Option<int>
    requires BigIntOrNull(v)
  {
    if v.Null? then None else Some(v.integer)
  }

  /** Reading a stored row back: the quote it holds, if it has the table's shape. */
  function DecodeRow(r: Row): (q: Option<Quote>)
    ensures q.Some? <==> WellTyped(r)
    ensures q.Some? ==> q.value.symbol == r[0].text && q.value.raw == r[7].document
  {
    if !WellTyped(r) then None
    else
      Some(Quote(r[0].text, r[1].at,
        NumericValue(r[2]), NumericValue(r[3]), NumericValue(r[4]), NumericValue(r[5]),
        BigIntValue(r[6]), r[7].document))
  }

  /** Every row of the table's shape is the row of the quote it holds. */
  lemma RowOfDecodeRow(r: Row)
    requires WellTyped(r)
    ensures RowOf(DecodeRow(r).value) == r
  {
    var q := DecodeRow(r).value;
    assert RowOf(q)[2] == r[2] && RowOf(q)[3] == r[3] && RowOf(q)[4] == r[4];
    assert RowOf(q)[5] == r[5] && RowOf(q)[6] == r[6];
  }

  /** Different quotes give different rows: nothing of a quote is lost on the way in. */
  lemma RowOfInjective(p: Quote, q: Quote)
    requires RowOf(p) == RowOf(q)
    ensures p == q
  {
    assert DecodeRow(RowOf(p)) == Some(p);
  }

  /** The `values` list: one row per quote, in the order the quotes were collected. */
  function Values(quotes: seq<Quote>): (rows: seq<Row>)
    ensures |rows| == |quotes|
    ensures forall k :: 0 <= k < |rows| ==> WellTyped(rows[k]) && DecodeRow(rows[k]) == Some(quotes[k])
  {
    seq(|quotes|, k requires 0 <= k < |quotes| => RowOf(quotes[k]))
  }

  /** Inserting two batches one after the other gives the rows of the joined batch. */
  lemma ValuesConcat(a: seq<Quote>, b: seq<Quote>)
    ensures Values(a + b) == Values(a) + Values(b)
  {
    assert forall k :: 0 <= k < |a| + |b| ==> (a + b)[k] == if k < |a| then a[k] else b[k - |a|];
  }

  /**
   * The Postgres connection: committed rows of the target table, the rows inserted in
   * the open transaction, and whether the server refuses the insert (a missing table,
   * a type mismatch, a lost connection — all one error to the caller).
   */
  class Database {
    var table: seq<Row>
    var pending: seq<Row>
    var connected: bool
    var commits: nat
    const rejectsWrites: bool

    /** Every row, committed or not, has the table's shape. */
    predicate Valid()
      reads this
    {
      (forall r :: r in table ==> WellTyped(r)) && (forall r :: r in pending ==> WellTyped(r))
    }

    constructor (existing: seq<Row>, rejects: bool)
      requires forall r :: r in existing ==> WellTyped(r)
      ensures Valid()
      ensures table == existing && pending == [] && !connected && commits == 0
      ensures rejectsWrites == rejects
    {
      table := existing;
      pending := [];
      connected := false;
      commits := 0;
      rejectsWrites := rejects;
    }

    /** `psycopg2.connect`: opens a session with an empty transaction. */
    method Connect()
      requires !connected && Valid()
      modifies this
      ensures Valid()
      ensures connected && pending == []
      ensures table == old(table) && commits == old(commits)
    {
      connected := true;
      pending := [];
    }

    /** `execute_values`: inserts the rows into the open transaction, or fails as a whole. */
    method ExecuteValues(values: seq<Row>) returns (ok: bool)
      requires connected && Valid()
      requires forall r :: r in values ==> WellTyped(r)
      modifies this
      ensures Valid()
      ensures ok == !rejectsWrites
      ensures pending == if ok then old(pending) + values else old(pending)
      ensures table == old(table) && connected && commits == old(commits)
    {
      if rejectsWrites {
        ok := false;
      } else {
        pending := pending + values;
        ok := true;
      }
    }

    /** `conn.commit()`: the rows of the transaction become part of the table. */
    method Commit()
      requires connected && Valid()
      modifies this
      ensures Valid()
      ensures table == old(table) + old(pending) && pending == []
      ensures connected && commits == old(commits) + 1
    {
      table := table + pending;
      pending := [];
      commits := commits + 1;
    }

    /** `conn.close()`: ends the session; an uncommitted transaction is discarded. */
    method Close()
      requires connected && Valid()
      modifies this
      ensures Valid()
      ensures !connected && pending == []
      ensures table == old(table) && commits == old(commits)
    {
      connected := false;
      pending := [];
    }
  }

  /**
   * `upsert_batch`: nothing at all for an empty batch; otherwise the batch is inserted
   * and committed, in order and without de-duplication. `ok == false` is the exception
   * that leaves the function before the commit.
   */
  method UpsertBatch(db: Database, quotes: seq<Quote>) returns (ok: bool)
    requires db.connected && db.Valid()
    modifies db
    ensures db.Valid() && db.connected
    ensures ok <==> quotes == [] || !db.rejectsWrites
    ensures quotes == [] ==> db.table == old(db.table) && db.pending == old(db.pending) && db.commits == old(db.commits)
    ensures quotes != [] && ok ==>
      db.table == old(db.table) + old(db.pending) + Values(quotes)
      && db.pending == [] && db.commits == old(db.commits) + 1
    ensures !ok ==> db.table == old(db.table) && db.pending == old(db.pending) && db.commits == old(db.commits)
  {
    if quotes == [] {
      return true;
    }
    var values := Values(quotes);
    assert forall r :: r in values ==> WellTyped(r);
    ok := db.ExecuteValues(values);
    if ok {
      db.Commit();
    }
  }
}
