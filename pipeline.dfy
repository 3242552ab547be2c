/**
 * The body of `main` in scripts/fetch_stock.py after the guards: one request per
 * symbol, a polite pause after every symbol that yielded a quote, then one batch
 * insert of the collected quotes, whose failure is reported and swallowed.
 */
module Pipeline {
  import opened Wrappers
  import opened Calendar
  import opened Quotes
  import opened Symbols
  import opened Store

  /** What `fetch_alpha` does for one request: an HTTP error status, any other failure
      (connection, timeout, a body that is not JSON), or the decoded JSON body. */
  datatype FetchOutcome = HttpError | OtherError | Fetched(payload: Json)

  /** The network, as seen by the n-th request of a run for a given symbol. */
  type Transport = (nat, string) -> FetchOutcome

  /** `now_utc()` as read while handling the n-th symbol. */
  type Clock = nat -> Timestamp

  /** What the run does to the outside world, in order. */
  datatype Event = Requested(symbol: string) | Slept(seconds: nat)

  /** The pause after each successful symbol, for Alpha Vantage's rate limit. */
  const PoliteDelay: nat := 12

  /** One iteration of the loop: the quote appended, or nothing when the request or the
      extraction raised. */
  function Attempt(symbol: string, outcome: FetchOutcome, now: Timestamp): (r: Option<Quote>)
    ensures r.Some? <==> outcome.Fetched? && Extract(symbol, outcome.payload, now).Success?
    ensures r.Some? ==> r.value.symbol == symbol && r.value.raw == outcome.payload
    ensures r.Some? ==> r.value == Extract(symbol, outcome.payload, now).value
  {
    match outcome
    case Fetched(data) =>
      (match Extract(symbol, data, now)
       case Success(q) => Some(q)
       case Failure(_) => None)
    case _ => None
  }

  /** The outcome of every iteration of the loop, by position in the symbol list. */
  function Outcomes(symbols: seq<string>, transport: Transport, clock: Clock): (r: seq<Option<Quote>>)
    ensures |r| == |symbols|
    ensures forall i :: 0 <= i < |r| && r[i].Some? ==> r[i].value.symbol == symbols[i]
  {
    var r := seq(|symbols|, i requires 0 <= i < |symbols| => Attempt(symbols[i], transport(i, symbols[i]), clock(i)));
    forall i | 0 <= i < |r| && r[i].Some? ensures r[i].value.symbol == symbols[i] {
      assert r[i] == Attempt(symbols[i], transport(i, symbols[i]), clock(i));
    }
    r
  }

  /** The outcome at position i is that of the i-th request, handled at the i-th time. */
  lemma OutcomeAt(symbols: seq<string>, transport: Transport, clock: Clock, i: nat)
    requires i < |symbols|
    ensures Outcomes(symbols, transport, clock)[i] == Attempt(symbols[i], transport(i, symbols[i]), clock(i))
  {
  }

  /** `rows_to_insert` after the iterations with these outcomes: the quotes, in order. */
  function Kept(outcomes: seq<Option<Quote>>): (r: seq<Quote>)
    ensures |r| <= |outcomes|
    ensures forall q :: q in r ==> Some(q) in outcomes
  {
    if outcomes == [] then []
    else
      var n := |outcomes| - 1;
      var before := Kept(outcomes[..n]);
      assert forall o :: o in outcomes[..n] ==> o in outcomes;
      before + (if outcomes[n].Some? then [outcomes[n].value] else [])
  }

  lemma {:induction false} KeptConcat(a: seq<Option<Quote>>, b: seq<Option<Quote>>)
    ensures Kept(a + b) == Kept(a) + Kept(b)
    decreases |b|
  {
    if b == [] {
      assert a + b == a;
    } else {
      var n := |b| - 1;
      assert (a + b)[..|a + b| - 1] == a + b[..n];
      KeptConcat(a, b[..n]);
    }
  }

  /** One iteration keeps its quote, if it has one. */
  lemma KeptOne(o: Option<Quote>)
    ensures Kept([o]) == if o.Some? then [o.value] else []
  {
    assert [o][1..] == [];
  }

  /** `rows_to_insert` at the end of the loop. */
  function Collected(symbols: seq<string>, transport: Transport, clock: Clock): (r: seq<Quote>)
    ensures |r| <= |symbols|
    ensures forall q :: q in r ==> q.symbol in symbols
  {
    var outcomes := Outcomes(symbols, transport, clock);
    var r := Kept(outcomes);
    forall q | q in r ensures q.symbol in symbols {
      var i :| 0 <= i < |outcomes| && outcomes[i] == Some(q);
    }
    r
  }

  /** The events of one iteration: the request, then the pause if it kept a quote. */
  function Step(symbol: string, outcome: Option<Quote>): seq<Event> {
    [Requested(symbol)] + (if outcome.Some? then [Slept(PoliteDelay)] else [])
  }

  /** The events of the iterations with these outcomes: each symbol's request, followed
      by a pause when that iteration kept a quote; every pause comes straight after a
      request. */
  function Trace(symbols: seq<string>, outcomes: seq<Option<Quote>>): (r: seq<Event>)
    requires |outcomes| == |symbols|
    ensures |symbols| <= |r| <= 2 * |symbols|
    ensures forall k :: 0 <= k < |r| && r[k].Slept? ==> 0 < k && r[k - 1].Requested? && r[k].seconds == PoliteDelay
    ensures symbols != [] ==> r[0].Requested?
  {
    if symbols == [] then []
    else
      var n := |symbols| - 1;
      Trace(symbols[..n], outcomes[..n]) + Step(symbols[n], outcomes[n])
  }

  /** Replacing one iteration's outcome changes only that iteration's part of the batch. */
  lemma KeptSplice(a: seq<Option<Quote>>, j: nat, o: Option<Quote>)
    requires j < |a|
    ensures Kept(a[..j] + [o] + a[j + 1..]) == Kept(a[..j]) + Kept([o]) + Kept(a[j + 1..])
  {
    KeptConcat(a[..j] + [o], a[j + 1..]);
    KeptConcat(a[..j], [o]);
  }

  /** Transports that differ only in the j-th response give outcomes that differ only
      at position j. */
  lemma OutcomesDifferAt(symbols: seq<string>, j: nat, t: Transport, u: Transport, clock: Clock)
    requires j < |symbols|
    requires forall i :: 0 <= i < |symbols| && i != j ==> t(i, symbols[i]) == u(i, symbols[i])
    ensures var a := Outcomes(symbols, t, clock);
      Outcomes(symbols, u, clock) == a[..j] + [Outcomes(symbols, u, clock)[j]] + a[j + 1..]
  {
    var a := Outcomes(symbols, t, clock);
    var b := Outcomes(symbols, u, clock);
    var c := a[..j] + [b[j]] + a[j + 1..];
    assert |b| == |c|;
    forall i | 0 <= i < |b| ensures b[i] == c[i] {
      OutcomeAt(symbols, u, clock, i);
      if i != j {
        OutcomeAt(symbols, t, clock, i);
        assert c[i] == a[i];
      }
    }
  }

  /** A failure is contained: when the j-th request or extraction fails instead, exactly
      that symbol's quote is missing from the batch and every other quote is still
      there, in the same order. */
  lemma FailureContained(symbols: seq<string>, j: nat, t: Transport, u: Transport, clock: Clock)
    requires j < |symbols|
    requires forall i :: 0 <= i < |symbols| && i != j ==> t(i, symbols[i]) == u(i, symbols[i])
    requires Attempt(symbols[j], u(j, symbols[j]), clock(j)).None?
    ensures var a := Outcomes(symbols, t, clock);
      Collected(symbols, t, clock) == Kept(a[..j]) + Kept([a[j]]) + Kept(a[j + 1..])
      && Collected(symbols, u, clock) == Kept(a[..j]) + Kept(a[j + 1..])
  {
    OutcomesDifferAt(symbols, j, t, u, clock);
    OutcomeAt(symbols, u, clock, j);
    KeptWithout(Outcomes(symbols, t, clock), Outcomes(symbols, u, clock), j);
  }

  /** Replacing the j-th outcome by a failure drops exactly that outcome's quote. */
  lemma KeptWithout(a: seq<Option<Quote>>, b: seq<Option<Quote>>, j: nat)
    requires j < |a| && b == a[..j] + [None] + a[j + 1..]
    ensures Kept(a) == Kept(a[..j]) + Kept([a[j]]) + Kept(a[j + 1..])
    ensures Kept(b) == Kept(a[..j]) + Kept(a[j + 1..])
  {
    assert a == a[..j] + [a[j]] + a[j + 1..];
    KeptSplice(a, j, a[j]);
    KeptSplice(a, j, None);
    KeptOne(None);
    assert Kept(a[..j]) + [] == Kept(a[..j]);
  }

  /** When every iteration keeps a quote, the batch holds them all, in order. */
  lemma {:induction false} KeptAll(outcomes: seq<Option<Quote>>)
    requires forall i :: 0 <= i < |outcomes| ==> outcomes[i].Some?
    ensures |Kept(outcomes)| == |outcomes|
    ensures forall k :: 0 <= k < |outcomes| ==> Kept(outcomes)[k] == outcomes[k].value
  {
    if outcomes != [] {
      var n := |outcomes| - 1;
      assert outcomes == outcomes[..n] + [outcomes[n]];
      KeptConcat(outcomes[..n], [outcomes[n]]);
      KeptOne(outcomes[n]);
      KeptAll(outcomes[..n]);
    }
  }

  /** When every request and extraction succeeds, the batch holds one quote per symbol,
      in the order of the symbol list. */
  lemma AllSucceed(symbols: seq<string>, transport: Transport, clock: Clock)
    requires forall i :: 0 <= i < |symbols| ==> Attempt(symbols[i], transport(i, symbols[i]), clock(i)).Some?
    ensures |Collected(symbols, transport, clock)| == |symbols|
    ensures forall k :: 0 <= k < |symbols| ==>
      Collected(symbols, transport, clock)[k] == Attempt(symbols[k], transport(k, symbols[k]), clock(k)).value
      && Collected(symbols, transport, clock)[k].symbol == symbols[k]
  {
    var outcomes := Outcomes(symbols, transport, clock);
    forall i | 0 <= i < |symbols| ensures outcomes[i].Some? {
      OutcomeAt(symbols, transport, clock, i);
    }
    KeptAll(outcomes);
    forall k | 0 <= k < |symbols|
      ensures Collected(symbols, transport, clock)[k] == Attempt(symbols[k], transport(k, symbols[k]), clock(k)).value
    {
      OutcomeAt(symbols, transport, clock, k);
    }
  }

  /** The symbols requested, in order. */
  function Requests(events: seq<Event>): (r: seq<string>)
    ensures |r| <= |events|
  {
    if events == [] then []
    else
      var last := events[|events| - 1];
      Requests(events[..|events| - 1]) + (if last.Requested? then [last.symbol] else [])
  }

  /** The number of pauses. */
  function Pauses(events: seq<Event>): (r: nat)
    ensures r <= |events|
  {
    if events == [] then 0
    else
      var last := events[|events| - 1];
      Pauses(events[..|events| - 1]) + (if last.Slept? then 1 else 0)
  }

  lemma {:induction false} RequestsConcat(a: seq<Event>, b: seq<Event>)
    ensures Requests(a + b) == Requests(a) + Requests(b)
    ensures Pauses(a + b) == Pauses(a) + Pauses(b)
    decreases |b|
  {
    if b == [] {
      assert a + b == a;
    } else {
      var b' := b[..|b| - 1];
      assert (a + b)[..|a + b| - 1] == a + b';
      RequestsConcat(a, b');
    }
  }

  /** The last iteration adds one request, and a pause exactly when it kept a quote. */
  lemma TraceStep(symbols: seq<string>, outcomes: seq<Option<Quote>>)
    requires |outcomes| == |symbols| && symbols != []
    ensures var n := |symbols| - 1;
      Requests(Trace(symbols, outcomes)) == Requests(Trace(symbols[..n], outcomes[..n])) + [symbols[n]]
      && Pauses(Trace(symbols, outcomes)) == Pauses(Trace(symbols[..n], outcomes[..n])) + |Kept([outcomes[n]])|
  {
    var n := |symbols| - 1;
    var head := Trace(symbols[..n], outcomes[..n]);
    assert Trace(symbols, outcomes) == head + Step(symbols[n], outcomes[n]);
    RequestsConcat(head, Step(symbols[n], outcomes[n]));
    StepCounts(symbols[n], outcomes[n]);
  }

  /** One iteration requests its symbol, and pauses once if it kept a quote. */
  lemma StepCounts(symbol: string, outcome: Option<Quote>)
    ensures Requests(Step(symbol, outcome)) == [symbol]
    ensures Pauses(Step(symbol, outcome)) == |Kept([outcome])|
  {
    var tail := if outcome.Some? then [Slept(PoliteDelay)] else [];
    RequestsConcat([Requested(symbol)], tail);
    assert [Requested(symbol)][..0] == [];
    if outcome.Some? {
      assert tail[..0] == [];
    }
    KeptOne(outcome);
  }

  /** Every symbol is requested exactly once, in order, whatever fails. */
  lemma {:induction false} TraceRequests(symbols: seq<string>, outcomes: seq<Option<Quote>>)
    requires |outcomes| == |symbols|
    ensures Requests(Trace(symbols, outcomes)) == symbols
  {
    if symbols != [] {
      var n := |symbols| - 1;
      var before := symbols[..n];
      TraceRequests(before, outcomes[..n]);
      TraceStep(symbols, outcomes);
      assert symbols == before + [symbols[n]];
    }
  }

  /** There is one pause per collected quote. */
  lemma {:induction false} TracePauses(symbols: seq<string>, outcomes: seq<Option<Quote>>)
    requires |outcomes| == |symbols|
    ensures Pauses(Trace(symbols, outcomes)) == |Kept(outcomes)|
  {
    if symbols != [] {
      var n := |symbols| - 1;
      var before := outcomes[..n];
      TracePauses(symbols[..n], before);
      TraceStep(symbols, outcomes);
      assert outcomes == before + [outcomes[n]];
      KeptConcat(before, [outcomes[n]]);
    }
  }

  /** Every symbol is requested exactly once, in order, whatever fails, and there is
      one pause per collected quote. */
  lemma TraceRequestsEverySymbol(symbols: seq<string>, outcomes: seq<Option<Quote>>)
    requires |outcomes| == |symbols|
    ensures Requests(Trace(symbols, outcomes)) == symbols
    ensures Pauses(Trace(symbols, outcomes)) == |Kept(outcomes)|
  {
    TraceRequests(symbols, outcomes);
    TracePauses(symbols, outcomes);
  }

  /** The run ends on a pause exactly when the last symbol yielded a quote: the source
      sleeps after the last success too, and never after a failure. */
  lemma TraceEndsWithPause(symbols: seq<string>, outcomes: seq<Option<Quote>>)
    requires |outcomes| == |symbols| && symbols != []
    ensures var r := Trace(symbols, outcomes);
      r[|r| - 1].Slept? <==> outcomes[|outcomes| - 1].Some?
  {
  }

  /** One more iteration of the loop: its quote joins the batch and its events join the
      record. */
  lemma LoopStep(symbols: seq<string>, outcomes: seq<Option<Quote>>, i: nat)
    requires |outcomes| == |symbols| && i < |symbols|
    ensures Kept(outcomes[..i + 1]) == Kept(outcomes[..i]) + (if outcomes[i].Some? then [outcomes[i].value] else [])
    ensures Trace(symbols[..i + 1], outcomes[..i + 1]) == Trace(symbols[..i], outcomes[..i]) + Step(symbols[i], outcomes[i])
  {
    assert outcomes[..i + 1] == outcomes[..i] + [outcomes[i]];
    KeptConcat(outcomes[..i], [outcomes[i]]);
    KeptOne(outcomes[i]);
    assert symbols[..i + 1][..i] == symbols[..i];
    assert outcomes[..i + 1][..i] == outcomes[..i];
  }

  /** The process that runs the script: it performs requests and pauses and keeps the
      record of both. */
  class Host {
    var events: seq<Event>

    constructor ()
      ensures events == []
    {
      events := [];
    }

    /** `fetch_alpha(symbol)` as the n-th request of the run. */
    method Fetch(transport: Transport, n: nat, symbol: string) returns (outcome: FetchOutcome)
      modifies this
      ensures outcome == transport(n, symbol)
      ensures events == old(events) + [Requested(symbol)]
    {
      outcome := transport(n, symbol);
      events := events + [Requested(symbol)];
    }

    /** `time.sleep(seconds)`. */
    method Sleep(seconds: nat)
      modifies this
      ensures events == old(events) + [Slept(seconds)]
    {
      events := events + [Slept(seconds)];
    }
  }

  /** What `main` writes to the table for a batch: nothing when the batch is empty or
      the insert is refused. */
  function Written(quotes: seq<Quote>, rejects: bool): seq<Row> {
    if quotes == [] || rejects then [] else Values(quotes)
  }

  /** One iteration of the loop of `main`: request the i-th symbol, extract its quote,
      and pause if there is one; a request or extraction that raises is reported (not
      modelled) and the symbol is skipped. */
  method Visit(symbols: seq<string>, i: nat, transport: Transport, clock: Clock, host: Host)
    returns (quote: Option<Quote>)
    requires i < |symbols|
    modifies host
    ensures quote == Outcomes(symbols, transport, clock)[i]
    ensures host.events == old(host.events) + Step(symbols[i], quote)
  {
    var symbol := symbols[i];
    var outcome := host.Fetch(transport, i, symbol);
    quote := Attempt(symbol, outcome, clock(i));
    OutcomeAt(symbols, transport, clock, i);
    if quote.Some? {
      host.Sleep(PoliteDelay);
      AppendAssoc(old(host.events), [Requested(symbol)], [Slept(PoliteDelay)]);
    } else {
      assert [Requested(symbol)] + [] == [Requested(symbol)];
    }
  }

  /** The loop of `main`: every symbol is visited once, in order, and the quotes that
      were extracted are collected in that order. */
  method FetchAll(symbols: seq<string>, transport: Transport, clock: Clock, host: Host) returns (rows: seq<Quote>)
    modifies host
    ensures rows == Collected(symbols, transport, clock)
    ensures host.events == old(host.events) + Trace(symbols, Outcomes(symbols, transport, clock))
  {
    ghost var outcomes := Outcomes(symbols, transport, clock);
    rows := [];
    var i := 0;
    while i < |symbols|
      invariant 0 <= i <= |symbols|
      invariant rows == Kept(outcomes[..i])
      invariant host.events == old(host.events) + Trace(symbols[..i], outcomes[..i])
    {
      var quote := Visit(symbols, i, transport, clock, host);
      if quote.Some? {
        rows := rows + [quote.value];
      }
      LoopStep(symbols, outcomes, i);
      AppendAssoc(old(host.events), Trace(symbols[..i], outcomes[..i]), Step(symbols[i], quote));
      i := i + 1;
    }
    assert symbols[..i] == symbols && outcomes[..i] == outcomes;
  }

  /**
   * `main` after `parse_args`: exit status 1 on a failed guard, before any request or
   * connection; otherwise connect, run the loop over the symbols, insert the collected
   * batch, close the connection and exit 0 — also when the insert failed.
   */
  method Run(cfg: Config, transport: Transport, clock: Clock, host: Host, db: Database) returns (status: nat)
    requires !db.connected && db.Valid()
    modifies host, db
    ensures Preflight(cfg).Failure? ==> status == 1 && unchanged(host) && unchanged(db)
    ensures Preflight(cfg).Success? ==>
      var symbols := Preflight(cfg).value;
      var rows := Collected(symbols, transport, clock);
      status == 0
      && host.events == old(host.events) + Trace(symbols, Outcomes(symbols, transport, clock))
      && db.table == old(db.table) + Written(rows, db.rejectsWrites)
      && db.commits == old(db.commits) + (if Written(rows, db.rejectsWrites) == [] then 0 else 1)
      && !db.connected && db.pending == [] && db.Valid()
  {
    var pre := Preflight(cfg);
    if pre.Failure? {
      return 1;
    }
    Session(pre.value, transport, clock, host, db);
    status := 0;
  }

  /** The part of `main` between the guards and the exit: one connection, the loop, one
      batch insert, and the connection closed in every case. */
  method Session(symbols: seq<string>, transport: Transport, clock: Clock, host: Host, db: Database)
    requires !db.connected && db.Valid()
    modifies host, db
    ensures host.events == old(host.events) + Trace(symbols, Outcomes(symbols, transport, clock))
    ensures var w := Written(Collected(symbols, transport, clock), db.rejectsWrites);
      db.table == old(db.table) + w
      && db.commits == old(db.commits) + (if w == [] then 0 else 1)
      && !db.connected && db.pending == [] && db.Valid()
  {
    db.Connect();
    var rows := FetchAll(symbols, transport, clock, host);
    ghost var committed := db.table;
    var ok := UpsertBatch(db, rows);
    assert committed + [] == committed;
    db.Close();
  }
}
