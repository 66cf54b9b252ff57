/** The analytics indexer: a window of blocks per run, events inserted or ignored by their id, the
    cursor written last. */
module Indexer {
  import opened Wrappers

  datatype LogEvent = LogEvent(txHash: string, logIndex: int, data: string)

  /** Row id: transaction hash and log index. */
  datatype Key = Key(txHash: string, logIndex: int)

  type Table = map<Key, LogEvent>

  /** Block number `b` holds the events `chain[b]`. */
  type Chain = seq<seq<LogEvent>>

  const MAX_BLOCKS := 2000

  function KeyOf(e: LogEvent): Key {
    Key(e.txHash, e.logIndex)
  }

  /** INSERT OR IGNORE. */
  function Inserted(table: Table, e: LogEvent): Table {
    if KeyOf(e) in table then table else table[KeyOf(e) := e]
  }

  function InsertAll(table: Table, events: seq<LogEvent>): Table
    decreases |events|
  {
    if |events| == 0 then table else InsertAll(Inserted(table, events[0]), events[1..])
  }

  /** The events of blocks `from` to `upTo`, in block order. */
  function EventsIn(chain: Chain, from: int, upTo: int): seq<LogEvent>
    requires 0 <= from && upTo < |chain|
    decreases upTo - from + 1
  {
    if from > upTo then [] else chain[from] + EventsIn(chain, from + 1, upTo)
  }

  /** Where a run starts from: the stored cursor, or the block before the start block. */
  function CursorOr(cursor: Option<int>, start: nat): int {
    if cursor.Some? then cursor.value else start - 1
  }

  /** The last block of a run's window. */
  function WindowEnd(from: int, head: int): int {
    if from > head then head
    else if from + MAX_BLOCKS - 1 < head then from + MAX_BLOCKS - 1
    else head
  }

  /** The table and cursor after one run that nothing interrupts. */
  function IndexRun(chain: Chain, table: Table, cursor: Option<int>, start: nat): (Table, Option<int>)
    requires |chain| > 0 && CursorOr(cursor, start) >= -1
  {
    var from, head := CursorOr(cursor, start) + 1, |chain| - 1;
    var to := WindowEnd(from, head);
    if from <= to then (InsertAll(table, EventsIn(chain, from, to)), Some(to))
    else if cursor.None? then (table, Some(head))
    else (table, cursor)
  }

  // ---------- what the table holds ----------

  ghost predicate OnChain(chain: Chain, e: LogEvent) {
    exists b, i :: 0 <= b < |chain| && 0 <= i < |chain[b]| && chain[b][i] == e
  }

  /** No two log entries of the chain share transaction hash and log index. */
  ghost predicate UniqueIds(chain: Chain) {
    forall d, e :: OnChain(chain, d) && OnChain(chain, e) && d.txHash == e.txHash && d.logIndex == e.logIndex ==> d == e
  }

  ghost predicate Stored(table: Table, e: LogEvent) {
    KeyOf(e) in table && table[KeyOf(e)] == e
  }

  /** Every row is an on-chain event under its own id. */
  ghost predicate TableSound(chain: Chain, table: Table) {
    forall k :: k in table ==> KeyOf(table[k]) == k && OnChain(chain, table[k])
  }

  lemma {:induction false} EventsAre(chain: Chain, from: int, upTo: int, e: LogEvent)
    requires 0 <= from && upTo < |chain|
    ensures e in EventsIn(chain, from, upTo) <==> (exists b :: from <= b <= upTo && e in chain[b])
    decreases upTo - from + 1
  {
    if from <= upTo {
      EventsAre(chain, from + 1, upTo, e);
    }
  }

  lemma {:induction false} FetchIsTheWindow(chain: Chain, from: int, upTo: int)
    requires 0 <= from && upTo < |chain|
    ensures forall e :: e in EventsIn(chain, from, upTo) ==> OnChain(chain, e)
    ensures forall b, i :: from <= b <= upTo && 0 <= i < |chain[b]| ==> chain[b][i] in EventsIn(chain, from, upTo)
  {
    forall e | e in EventsIn(chain, from, upTo) ensures OnChain(chain, e) {
      EventsAre(chain, from, upTo, e);
      var b :| from <= b <= upTo && e in chain[b];
      var i :| 0 <= i < |chain[b]| && chain[b][i] == e;
    }
    forall b, i | from <= b <= upTo && 0 <= i < |chain[b]| ensures chain[b][i] in EventsIn(chain, from, upTo) {
      EventsAre(chain, from, upTo, chain[b][i]);
    }
  }

  /** Inserting an on-chain event stores it, and disturbs no other row. */
  lemma {:induction false} InsertStores(chain: Chain, table: Table, e: LogEvent)
    requires UniqueIds(chain) && TableSound(chain, table) && OnChain(chain, e)
    ensures TableSound(chain, Inserted(table, e)) && Stored(Inserted(table, e), e)
    ensures forall d :: Stored(table, d) ==> Stored(Inserted(table, e), d)
  {
    if KeyOf(e) in table {
      assert OnChain(chain, table[KeyOf(e)]);
    }
  }

  lemma {:induction false} InsertAllStores(chain: Chain, table: Table, events: seq<LogEvent>)
    requires UniqueIds(chain) && TableSound(chain, table) && forall e :: e in events ==> OnChain(chain, e)
    ensures TableSound(chain, InsertAll(table, events))
    ensures forall e :: e in events || Stored(table, e) ==> Stored(InsertAll(table, events), e)
    decreases |events|
  {
    hide UniqueIds, TableSound, OnChain, Stored, Inserted;
    if |events| > 0 {
      assert events[0] in events;
      InsertStores(chain, table, events[0]);
      assert forall e :: e in events[1..] ==> e in events;
      InsertAllStores(chain, Inserted(table, events[0]), events[1..]);
      assert events == [events[0]] + events[1..];
    }
  }

  /** The events that have no row yet. */
  ghost function Missing(table: Table, events: seq<LogEvent>): set<LogEvent> {
    set e | e in events && !Stored(table, e)
  }

  /** On a chain whose ids are unique every missing event gets a row of its own. */
  lemma {:induction false} EveryMissingCounts(chain: Chain, table: Table, events: seq<LogEvent>)
    requires UniqueIds(chain) && TableSound(chain, table) && forall e :: e in events ==> OnChain(chain, e)
    ensures |InsertAll(table, events)| == |table| + |Missing(table, events)|
    decreases |events|
  {
    if |events| > 0 {
      hide UniqueIds, TableSound, OnChain, InsertAll;
      var e, rest := events[0], events[1..];
      assert e in events && events == [e] + rest;
      InsertStores(chain, table, e);
      EveryMissingCounts(chain, Inserted(table, e), rest);
      OneMissing(chain, table, e, rest);
      assert InsertAll(table, events) == InsertAll(Inserted(table, e), rest) by { InsertsHead(table, events); }
    }
  }

  lemma {:induction false} InsertsHead(table: Table, events: seq<LogEvent>)
    requires |events| > 0
    ensures InsertAll(table, events) == InsertAll(Inserted(table, events[0]), events[1..])
  {
  }

  /** An id that is taken is taken by the event itself. */
  lemma {:induction false} TakenByItself(chain: Chain, table: Table, e: LogEvent)
    requires UniqueIds(chain) && TableSound(chain, table) && OnChain(chain, e)
    ensures KeyOf(e) in table <==> Stored(table, e)
  {
    hide OnChain;
    if KeyOf(e) in table {
      assert OnChain(chain, table[KeyOf(e)]);
    }
  }

  lemma {:induction false} OthersAsBefore(chain: Chain, table: Table, e: LogEvent, d: LogEvent)
    requires UniqueIds(chain) && OnChain(chain, e) && OnChain(chain, d) && d != e && KeyOf(e) !in table
    ensures Stored(Inserted(table, e), d) <==> Stored(table, d)
  {
    hide OnChain;
    assert KeyOf(d) != KeyOf(e);
  }

  lemma {:induction false} OneMissing(chain: Chain, table: Table, e: LogEvent, rest: seq<LogEvent>)
    requires UniqueIds(chain) && TableSound(chain, table) && OnChain(chain, e) && forall d :: d in rest ==> OnChain(chain, d)
    ensures |Inserted(table, e)| + |Missing(Inserted(table, e), rest)| == |table| + |Missing(table, [e] + rest)|
  {
    var table' := Inserted(table, e);
    TakenByItself(chain, table, e);
    if KeyOf(e) !in table {
      forall d | d in rest && d != e ensures Stored(table', d) <==> Stored(table, d) { OthersAsBefore(chain, table, e, d); }
    }
    hide UniqueIds, TableSound, OnChain;
    OneMore(table, e, rest);
  }

  lemma {:induction false} OneMore(table: Table, e: LogEvent, rest: seq<LogEvent>)
    requires KeyOf(e) in table <==> Stored(table, e)
    requires KeyOf(e) !in table ==> forall d :: d in rest && d != e ==> (Stored(Inserted(table, e), d) <==> Stored(table, d))
    ensures |Inserted(table, e)| + |Missing(Inserted(table, e), rest)| == |table| + |Missing(table, [e] + rest)|
  {
    var table' := Inserted(table, e);
    if KeyOf(e) in table {
      assert Missing(table, [e] + rest) == Missing(table', rest);
    } else {
      assert table'.Keys == table.Keys + {KeyOf(e)};
      assert Stored(table', e);
      hide Stored, Inserted;
      assert Missing(table, [e] + rest) == Missing(table', rest) + {e};
    }
  }

  class Analytics {
    var table: Table
    var cursor: Option<int>

    constructor ()
      ensures table == map[] && cursor == None
    {
      table, cursor := map[], None;
    }

    method IndexProtocolEvents(chain: Chain, fromBlock: int, toBlock: int) returns (inserted: int)
      requires 0 <= fromBlock && toBlock < |chain|
      modifies this`table
      ensures table == InsertAll(old(table), EventsIn(chain, fromBlock, toBlock))
      ensures inserted == |table| - |old(table)|
      ensures UniqueIds(chain) && TableSound(chain, old(table)) ==>
        && inserted == |Missing(old(table), EventsIn(chain, fromBlock, toBlock))|
        && TableSound(chain, table)
        && forall b, i :: fromBlock <= b <= toBlock && 0 <= i < |chain[b]| ==>
             var e := chain[b][i]; Key(e.txHash, e.logIndex) in table && table[Key(e.txHash, e.logIndex)] == e
    {
      hide UniqueIds, TableSound, OnChain, Missing;
      if UniqueIds(chain) && TableSound(chain, table) {
        FetchIsTheWindow(chain, fromBlock, toBlock);
        InsertAllStores(chain, table, EventsIn(chain, fromBlock, toBlock));
        EveryMissingCounts(chain, table, EventsIn(chain, fromBlock, toBlock));
      }
      var rows := EventsIn(chain, fromBlock, toBlock);
      inserted := 0;
      for i := 0 to |rows|
        invariant InsertAll(table, rows[i..]) == InsertAll(old(table), rows)
        invariant inserted == |table| - |old(table)|
      {
        assert rows[i..][0] == rows[i] && rows[i..][1..] == rows[i + 1..];
        if KeyOf(rows[i]) !in table {
          table := table[KeyOf(rows[i]) := rows[i]];
          inserted := inserted + 1;
        }
      }
    }

    /** One run. With blocks left to index the cursor moves by the smaller of 2000 and what is left. */
    method RunIndexer(chain: Chain, startBlock: nat) returns (indexedBlocks: int)
      requires |chain| > 0 && CursorOr(cursor, startBlock) >= -1
      modifies this
      ensures (table, cursor) == IndexRun(chain, old(table), old(cursor), startBlock)
      ensures var before, head := CursorOr(old(cursor), startBlock), |chain| - 1;
              && indexedBlocks == (if head <= before then 0 else if head - before < MAX_BLOCKS then head - before else MAX_BLOCKS)
              && (before < head ==> cursor == Some(before + indexedBlocks))
    {
      var latestBlock := |chain| - 1;
      var fromBlock := CursorOr(cursor, startBlock) + 1;
      var toBlock := WindowEnd(fromBlock, latestBlock);
      indexedBlocks := 0;
      if fromBlock <= toBlock {
        var indexedEvents := IndexProtocolEvents(chain, fromBlock, toBlock);
        indexedBlocks := toBlock - fromBlock + 1;
        cursor := Some(toBlock);
      } else if cursor.None? {
        cursor := Some(latestBlock);
      }
    }
  }
}
