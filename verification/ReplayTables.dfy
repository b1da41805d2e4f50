/** The tables a replay reads and writes: the rows it copies, the cursor that
    remembers how far it got, and the effect of one batch's transaction. */
module ReplayTables {
  import opened Numbers

  /** A row of `historical_events`, keyed in `contract_events` by its event id. */
  datatype Row = Row(eventId: nat, body: string)

  /** What a replay is asked to copy. The source has one block range per job. */
  datatype Job = Job(contractId: string, ledger: nat)

  /** The static source: each job's rows ordered by block height and event id. */
  datatype Source = Source(rowsOf: Job -> seq<Row>, batchSize: nat)

  ghost predicate ValidSource(src: Source) { src.batchSize >= 1 }

  /** A row of `replay_cursors`. */
  datatype Cursor = Cursor(job: Job, total: nat, offset: nat, completed: bool)

  /** `LIMIT limit OFFSET offset` on the ordered source. */
  function Page(rows: seq<Row>, offset: nat, limit: nat): (page: seq<Row>)
    ensures offset >= |rows| ==> page == []
    ensures offset < |rows| ==> |page| == Min(limit, |rows| - offset) && page == rows[offset..offset + |page|]
  {
    if offset >= |rows| then [] else rows[offset..offset + Min(limit, |rows| - offset)]
  }

  /** `INSERT ... ON CONFLICT (event_id) DO NOTHING`, row by row. */
  function InsertIgnore(target: map<nat, Row>, rows: seq<Row>): map<nat, Row>
    decreases |rows|
  {
    if rows == [] then target
    else InsertIgnore(if rows[0].eventId in target then target else target[rows[0].eventId := rows[0]], rows[1..])
  }

  /** Every one of the first `n` source rows is present in the target. */
  ghost predicate Copied(target: map<nat, Row>, rows: seq<Row>, n: nat) {
    forall i :: 0 <= i < n && i < |rows| ==> rows[i].eventId in target
  }

  /** The target only gained rows, all of them among `rows`; nothing was overwritten. */
  ghost predicate Gained(before: map<nat, Row>, after: map<nat, Row>, rows: seq<Row>) {
    && (forall k :: k in before ==> k in after && after[k] == before[k])
    && (forall k :: k in after && k !in before ==> after[k].eventId == k && after[k] in rows)
  }

  lemma {:induction false} InsertIgnoreGains(target: map<nat, Row>, rows: seq<Row>)
    ensures Gained(target, InsertIgnore(target, rows), rows)
    ensures forall r :: r in rows ==> r.eventId in InsertIgnore(target, rows)
    decreases |rows|
  {
    if rows != [] {
      var next := if rows[0].eventId in target then target else target[rows[0].eventId := rows[0]];
      InsertIgnoreGains(next, rows[1..]);
      assert rows == [rows[0]] + rows[1..];
    }
  }

  /** A batch that starts at or below the copied prefix extends that prefix. */
  lemma BatchExtendsPrefix(target: map<nat, Row>, rows: seq<Row>, offset: nat, start: nat, page: seq<Row>)
    requires start <= offset && start + |page| <= |rows| && page == rows[start..start + |page|]
    requires Copied(target, rows, offset)
    ensures Copied(InsertIgnore(target, page), rows, Max(offset, start + |page|))
  {
    InsertIgnoreGains(target, page);
    forall i | 0 <= i < Max(offset, start + |page|) && i < |rows|
      ensures rows[i].eventId in InsertIgnore(target, page)
    {
      if i >= offset {
        assert page[i - start] == rows[i];
      }
    }
  }

  lemma CopiedGrows(before: map<nat, Row>, after: map<nat, Row>, gained: seq<Row>, rows: seq<Row>, n: nat)
    requires Copied(before, rows, n) && Gained(before, after, gained)
    ensures Copied(after, rows, n)
  {
  }

  // ----- Batches -----

  /** A committed batch of a cursor: rows `start` up to `start + length` of its source. */
  datatype Batch = Batch(start: nat, length: nat)

  /** Batches that follow one another without gap or overlap from row 0 to row `n`. */
  ghost predicate Tiles(bs: seq<Batch>, n: nat) {
    if bs == [] then n == 0
    else
      var last := bs[|bs| - 1];
      last.length > 0 && last.start + last.length == n && Tiles(bs[..|bs| - 1], last.start)
  }

  /** Every row below `n` lies in exactly one of the batches that tile it. */
  lemma {:induction false} TilesOnce(bs: seq<Batch>, n: nat, i: nat) returns (k: nat)
    requires Tiles(bs, n) && i < n
    ensures k < |bs| && bs[k].start <= i < bs[k].start + bs[k].length
    ensures forall j :: 0 <= j < |bs| && bs[j].start <= i < bs[j].start + bs[j].length ==> j == k
    decreases |bs|
  {
    var m := |bs| - 1;
    TilesBelow(bs[..m], bs[m].start);
    if i >= bs[m].start {
      k := m;
    } else {
      k := TilesOnce(bs[..m], bs[m].start, i);
    }
  }

  lemma {:induction false} TilesBelow(bs: seq<Batch>, n: nat)
    requires Tiles(bs, n)
    ensures forall j :: 0 <= j < |bs| ==> bs[j].start + bs[j].length <= n
    decreases |bs|
  {
    if bs != [] {
      var m := |bs| - 1;
      TilesBelow(bs[..m], bs[m].start);
    }
  }

  /** A batch transaction that was applied, and its cursor's durable offset at that moment. */
  datatype Applied = Applied(batch: Batch, durable: nat)

  function Batches(history: seq<Applied>): seq<Batch> {
    seq(|history|, i requires 0 <= i < |history| => history[i].batch)
  }

  /** The offset that a history of GREATEST updates leaves. */
  function Reached(history: seq<Applied>): nat {
    if history == [] then 0
    else
      var last := history[|history| - 1].batch;
      Max(Reached(history[..|history| - 1]), last.start + last.length)
  }

  /** What the database records: non-empty batches, none starting beyond the offset then durable. */
  ghost predicate Recorded(history: seq<Applied>) {
    forall k :: 0 <= k < |history| ==>
      && history[k].batch.length > 0 && history[k].durable == Reached(history[..k])
      && history[k].batch.start <= history[k].durable
  }

  /** Every applied batch started where the cursor durably stood. */
  ghost predicate Sequential(history: seq<Applied>) {
    forall k :: 0 <= k < |history| ==> history[k].batch.start == history[k].durable
  }

  lemma RecordedPrefix(history: seq<Applied>)
    requires Recorded(history) && history != []
    ensures Recorded(history[..|history| - 1])
  {
    var front := history[..|history| - 1];
    forall k | 0 <= k < |front| ensures front[k].durable == Reached(front[..k]) {
      assert front[..k] == history[..k];
    }
  }

  lemma ReachedAppend(history: seq<Applied>, x: Applied)
    ensures Reached(history + [x]) == Max(Reached(history), x.batch.start + x.batch.length)
  {
    var longer := history + [x];
    assert longer[..|longer| - 1] == history && longer[|longer| - 1] == x;
  }

  lemma RecordedAppend(history: seq<Applied>, batch: Batch)
    requires Recorded(history) && batch.length > 0 && batch.start <= Reached(history)
    ensures Recorded(history + [Applied(batch, Reached(history))])
    ensures Reached(history + [Applied(batch, Reached(history))]) == Max(Reached(history), batch.start + batch.length)
  {
    hide Reached;
    var last := Applied(batch, Reached(history));
    var longer := history + [last];
    ReachedAppend(history, last);
    forall k | 0 <= k < |longer|
      ensures longer[k].batch.length > 0 && longer[k].durable == Reached(longer[..k])
      ensures longer[k].batch.start <= longer[k].durable
    {
      if k < |history| {
        assert longer[k] == history[k] && longer[..k] == history[..k];
      } else {
        assert longer[k] == last && longer[..k] == history;
      }
    }
  }

  lemma TilesUnfold(history: seq<Applied>, n: nat)
    requires history != []
    ensures var m := |history| - 1; var last := history[m].batch;
      Tiles(Batches(history), n) <==> last.length > 0 && last.start + last.length == n && Tiles(Batches(history[..m]), last.start)
  {
    var m := |history| - 1;
    assert Batches(history)[..m] == Batches(history[..m]);
  }

  lemma {:induction false} TilesReach(history: seq<Applied>, n: nat)
    requires Tiles(Batches(history), n)
    ensures n == Reached(history)
  {
    if history != [] {
      var m := |history| - 1;
      TilesUnfold(history, n);
      TilesReach(history[..m], history[m].batch.start);
    }
  }

  lemma SequentialPrefix(history: seq<Applied>)
    requires history != []
    ensures var m := |history| - 1;
      Sequential(history) <==> Sequential(history[..m]) && history[m].batch.start == history[m].durable
  {
    var m := |history| - 1;
    assert forall k :: 0 <= k < m ==> history[..m][k] == history[k];
  }

  /** The batches applied to a cursor tile its rows if and only if each started at the durable offset. */
  lemma {:induction false} TilesIffSequential(history: seq<Applied>)
    requires Recorded(history)
    ensures Tiles(Batches(history), Reached(history)) <==> Sequential(history)
  {
    hide Tiles, Sequential, Batches;
    if history == [] {
      NothingTiles();
    } else {
      var m := |history| - 1;
      var last := history[m];
      RecordedPrefix(history);
      TilesIffSequential(history[..m]);
      TilesUnfold(history, Reached(history));
      SequentialPrefix(history);
      if Tiles(Batches(history[..m]), last.batch.start) {
        TilesReach(history[..m], last.batch.start);
      }
    }
  }

  lemma NothingTiles()
    ensures Tiles(Batches([]), Reached([])) && Sequential([])
  {
  }
}
