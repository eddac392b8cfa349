/** core/storage/compaction/executor.go: merging several tables into one that keeps a single row per entity. */
module Compaction {
  import opened Prelude
  import opened SSTableFormat
  import opened SSTableWriter
  import opened SSTableReader
  import opened SSTableRoundTrip

  // Unix nanoseconds of 2000-01-01 and 2100-01-01, UTC
  const MIN_TIMESTAMP := 946684800_000000000
  const MAX_TIMESTAMP := 4102444800_000000000

  /** The first eight data bytes, when they are a plausible time. */
  function ExtractTimestamp(row: Row): int {
    if |row.data| < 8 then 0
    else
      var timestamp := ToI64(U64At(row.data[0..8]));
      if MIN_TIMESTAMP <= timestamp <= MAX_TIMESTAMP then timestamp else 0
  }

  /** a ranks strictly above b: a later timestamp, or the same timestamp and more data. */
  predicate Beats(a: Row, b: Row) {
    || ExtractTimestamp(a) > ExtractTimestamp(b)
    || (ExtractTimestamp(a) == ExtractTimestamp(b) && |a.data| > |b.data|)
  }

  function Better(best: Row, next: Row): Row {
    if Beats(next, best) then next else best
  }

  function Best(rows: seq<Row>): Row
    requires rows != []
  {
    var n := |rows| - 1;
    if n == 0 then rows[0] else Better(Best(rows[..n]), rows[n])
  }

  method SelectBestRow(rows: seq<Row>) returns (best: Option<Row>)
    ensures best == if rows == [] then None else Some(Best(rows))
  {
    if |rows| == 0 {
      return None;
    }
    if |rows| == 1 {
      return Some(rows[0]);
    }
    var bestRow := rows[0];
    var bestTimestamp := ExtractTimestamp(bestRow);
    assert rows[..1][0] == rows[0];
    for i := 1 to |rows|
      invariant bestRow == Best(rows[..i]) && bestTimestamp == ExtractTimestamp(bestRow)
    {
      hide ExtractTimestamp;
      assert rows[..i + 1][..i] == rows[..i];
      var timestamp := ExtractTimestamp(rows[i]);
      if timestamp > bestTimestamp {
        bestRow := rows[i];
        bestTimestamp := timestamp;
      } else if timestamp == bestTimestamp {
        if |rows[i].data| > |bestRow.data| {
          bestRow := rows[i];
        }
      }
    }
    assert rows[..|rows|] == rows;
    return Some(bestRow);
  }

  ghost predicate IsFirstMaximal(rows: seq<Row>, i: int) {
    && 0 <= i < |rows|
    && (forall j :: 0 <= j < |rows| ==> !Beats(rows[j], rows[i]))
    && (forall j :: 0 <= j < i ==> Beats(rows[i], rows[j]))
  }

  /** The selected row is the first of those that nothing ranks above. */
  lemma {:induction false} BestIsFirstMaximal(rows: seq<Row>)
    requires rows != []
    ensures exists i :: 0 <= i < |rows| && IsFirstMaximal(rows, i) && Best(rows) == rows[i]
  {
    hide Beats, IsFirstMaximal;
    var n := |rows| - 1;
    if n == 0 {
      FirstMaximalOne(rows);
    } else {
      var init := rows[..n];
      BestIsFirstMaximal(init);
      var i :| 0 <= i < |init| && IsFirstMaximal(init, i) && Best(init) == init[i];
      FirstMaximalNext(init, rows[n], i);
      assert rows == init + [rows[n]];
    }
  }

  lemma FirstMaximalOne(rows: seq<Row>)
    requires |rows| == 1
    ensures IsFirstMaximal(rows, 0)
  {
  }

  lemma {:induction false} FirstMaximalNext(rows: seq<Row>, next: Row, i: int)
    requires IsFirstMaximal(rows, i)
    ensures IsFirstMaximal(rows + [next], if Beats(next, rows[i]) then |rows| else i) && 0 <= i < |rows|
  {
    hide Beats;
    var more := rows + [next];
    forall j | 0 <= j < |rows|
      ensures !Beats(more[j], more[i])
      ensures Beats(next, rows[i]) ==> Beats(next, more[j]) && !Beats(more[j], next)
    {
      RankOrder(next, rows[i], rows[j]);
    }
    RankOrder(next, next, next);
  }

  lemma {:induction false} RankOrder(a: Row, b: Row, c: Row)
    ensures Beats(a, b) && !Beats(c, b) ==> Beats(a, c)
    ensures Beats(a, b) ==> !Beats(b, a)
    ensures Beats(a, c) ==> !Beats(c, a)
    ensures !Beats(a, a)
  {
    hide ExtractTimestamp;
  }

  lemma {:induction false} BestAppend(a: seq<Row>, b: seq<Row>)
    requires a != [] && b != []
    ensures Best(a + b) == Better(Best(a), Best(b))
  {
    hide ExtractTimestamp;
    var n := |b| - 1;
    assert (a + b)[..|a + b| - 1] == a + b[..n];
    if n == 0 {
      assert a + b[..n] == a;
    } else {
      BestAppend(a, b[..n]);
    }
  }

  // ----- merging -----

  /** An entity's rows from all readers, the last reader first; None when one of them cannot be read. */
  function Gather(crc: Checksum, readers: seq<Reader>, id: Bytes): Option<seq<Row>> {
    if readers == [] then Some([])
    else
      var n := |readers| - 1;
      var last :- GetRows(crc, readers[n], id);
      var rest :- Gather(crc, readers[..n], id);
      Some(last + rest)
  }

  function MergeIDs(crc: Checksum, readers: seq<Reader>, ids: seq<Bytes>): Option<seq<Row>> {
    if ids == [] then Some([])
    else
      var n := |ids| - 1;
      var before :- MergeIDs(crc, readers, ids[..n]);
      var rows :- Gather(crc, readers, ids[n]);
      Some(before + (if rows == [] then [] else [Best(rows)]))
  }

  ghost function AllIDs(readers: seq<Reader>): set<Bytes> {
    set r, id | r in readers && id in IDs(r.index) :: id
  }

  /** Writes the merged rows; false when some entity's rows cannot be read. */
  method StreamMergeAndDeduplicate(crc: Checksum, readers: seq<Reader>, writer: Writer) returns (ok: bool)
    requires writer.Valid()
    modifies writer
    ensures writer.Valid()
    ensures var merged := MergeIDs(crc, readers, Listing(AllIDs(readers)));
            ok == merged.Some? && (ok ==> writer.rows == old(writer.rows) + merged.value)
  {
    hide Writer.Valid, MergeIDs, Gather, Listing, AllIDs, Best;
    var all := CollectIDs(readers);
    var sortedEntityIDs := SortStrings(all);
    MergeNone(crc, readers, sortedEntityIDs);
    assert writer.rows + [] == writer.rows;
    for i := 0 to |sortedEntityIDs|
      invariant writer.Valid()
      invariant MergeIDs(crc, readers, sortedEntityIDs[..i]).Some?
      invariant writer.rows == old(writer.rows) + MergeIDs(crc, readers, sortedEntityIDs[..i]).value
    {
      MergeNext(crc, readers, sortedEntityIDs, i);
      ghost var before := MergeIDs(crc, readers, sortedEntityIDs[..i]).value;
      var allRows := GatherRows(crc, readers, sortedEntityIDs[i]);
      if allRows == None {
        MergeFails(crc, readers, sortedEntityIDs, i + 1);
        return false;
      }
      if |allRows.value| > 0 {
        var bestRow := SelectBestRow(allRows.value);
        writer.WriteRow(bestRow.value);
        assert old(writer.rows) + before + [bestRow.value] == old(writer.rows) + (before + [bestRow.value]);
      }
      assert before + [] == before;
    }
    assert sortedEntityIDs[..|sortedEntityIDs|] == sortedEntityIDs;
    return true;
  }

  method CollectIDs(readers: seq<Reader>) returns (all: set<Bytes>)
    ensures all == AllIDs(readers)
  {
    hide IDs;
    all := {};
    for i := 0 to |readers|
      invariant all == AllIDs(readers[..i])
    {
      var ids := readers[i].GetAllEntityIDs();
      assert readers[..i + 1] == readers[..i] + [readers[i]];
      all := all + (set id | id in ids);
    }
    assert readers[..|readers|] == readers;
  }

  method GatherRows(crc: Checksum, readers: seq<Reader>, id: Bytes) returns (allRows: Option<seq<Row>>)
    ensures allRows == Gather(crc, readers, id)
  {
    var acc: seq<Row> := [];
    var i := |readers|;
    assert readers[..i] == readers;
    assert Prefixed([], Gather(crc, readers, id)) == Gather(crc, readers, id) by {
      if Gather(crc, readers, id).Some? {
        assert [] + Gather(crc, readers, id).value == Gather(crc, readers, id).value;
      }
    }
    while i > 0
      invariant 0 <= i <= |readers|
      invariant Gather(crc, readers, id) == Prefixed(acc, Gather(crc, readers[..i], id))
    {
      hide GetRows;
      i := i - 1;
      GatherStep(crc, readers, i, id, acc);
      var rows := readers[i].Get(crc, id);
      if rows == None {
        return None;
      }
      acc := acc + rows.value;
    }
    assert acc + [] == acc;
    return Some(acc);
  }

  function Prefixed(xs: seq<Row>, r: Option<seq<Row>>): Option<seq<Row>> {
    if r == None then None else Some(xs + r.value)
  }

  lemma {:induction false} GatherStep(crc: Checksum, readers: seq<Reader>, i: nat, id: Bytes, acc: seq<Row>)
    requires i < |readers|
    ensures var rows := GetRows(crc, readers[i], id);
            Prefixed(acc, Gather(crc, readers[..i + 1], id))
              == if rows == None then None else Prefixed(acc + rows.value, Gather(crc, readers[..i], id))
  {
    hide GetRows;
    assert readers[..i + 1][..i] == readers[..i];
    var rows, rest := GetRows(crc, readers[i], id), Gather(crc, readers[..i], id);
    if rows.Some? && rest.Some? {
      assert acc + (rows.value + rest.value) == acc + rows.value + rest.value;
    }
  }

  lemma MergeNone(crc: Checksum, readers: seq<Reader>, ids: seq<Bytes>)
    ensures MergeIDs(crc, readers, ids[..0]) == Some([])
  {
  }

  lemma {:induction false} MergeNext(crc: Checksum, readers: seq<Reader>, ids: seq<Bytes>, i: nat)
    requires i < |ids| && MergeIDs(crc, readers, ids[..i]).Some?
    ensures var rows := Gather(crc, readers, ids[i]);
            MergeIDs(crc, readers, ids[..i + 1])
              == if rows == None then None
                 else Some(MergeIDs(crc, readers, ids[..i]).value + (if rows.value == [] then [] else [Best(rows.value)]))
  {
    hide Gather, Best;
    assert ids[..i + 1][..i] == ids[..i];
  }

  lemma {:induction false} MergeFails(crc: Checksum, readers: seq<Reader>, ids: seq<Bytes>, i: nat)
    requires i <= |ids| && MergeIDs(crc, readers, ids[..i]) == None
    ensures MergeIDs(crc, readers, ids) == None
    decreases |ids| - i
  {
    hide Gather, Best;
    if i == |ids| {
      assert ids[..i] == ids;
    } else {
      assert ids[..i + 1][..i] == ids[..i];
      MergeFails(crc, readers, ids, i + 1);
    }
  }

  // ----- what a merge of written tables is -----

  function Collect(tables: seq<seq<Row>>, id: Bytes): seq<Row> {
    if tables == [] then []
    else
      var n := |tables| - 1;
      RowsOf(tables[n], id) + Collect(tables[..n], id)
  }

  /** The best of an entity's rows, if it has any. */
  function Survivor(tables: seq<seq<Row>>, id: Bytes): seq<Row> {
    var rows := Collect(tables, id);
    if id == [] || rows == [] then [] else [Best(rows)]
  }

  ghost function NamedIDs(tables: seq<seq<Row>>): set<Bytes> {
    set t, r | t in tables && r in t && r.entityID != [] :: r.entityID
  }

  function Bests(tables: seq<seq<Row>>, ids: seq<Bytes>): seq<Row> {
    if ids == [] then []
    else
      var n := |ids| - 1;
      var rows := Collect(tables, ids[n]);
      Bests(tables, ids[..n]) + (if rows == [] then [] else [Best(rows)])
  }

  /** One row per named entity of the tables, ascending. */
  ghost function Merged(tables: seq<seq<Row>>): seq<Row> {
    Bests(tables, Listing(NamedIDs(tables)))
  }

  /** The reader is the opened image of these rows. */
  ghost predicate ReadsTable(crc: Checksum, r: Reader, rows: seq<Row>) {
    SortedRows(rows) && Storable(crc, rows) && OpenTable(TableBytes(crc, rows)) == Opened(r)
  }

  ghost predicate ReadTables(crc: Checksum, readers: seq<Reader>, tables: seq<seq<Row>>) {
    |readers| == |tables| && forall i :: 0 <= i < |tables| ==> ReadsTable(crc, readers[i], tables[i])
  }

  lemma {:induction false} LastTable(crc: Checksum, readers: seq<Reader>, tables: seq<seq<Row>>)
    requires ReadTables(crc, readers, tables) && tables != []
    ensures |readers| == |tables| && ReadTables(crc, readers[..|readers| - 1], tables[..|tables| - 1])
    ensures ReadsTable(crc, readers[|readers| - 1], tables[|tables| - 1])
  {
    hide ReadsTable;
  }

  lemma {:induction false} LastRows(crc: Checksum, r: Reader, rows: seq<Row>, id: Bytes)
    requires ReadsTable(crc, r, rows) && id != []
    ensures GetRows(crc, r, id) == Some(RowsOf(rows, id))
  {
    hide GetRows, RowsOf, OpenTable, TableBytes, Storable, SortedRows;
    TableReadsBack(crc, rows);
  }

  lemma {:induction false} GatherCollects(crc: Checksum, readers: seq<Reader>, tables: seq<seq<Row>>, id: Bytes)
    requires ReadTables(crc, readers, tables) && id != []
    ensures Gather(crc, readers, id) == Some(Collect(tables, id))
  {
    hide GetRows, RowsOf, ReadsTable;
    if tables != [] {
      hide ReadTables;
      var n := |tables| - 1;
      LastTable(crc, readers, tables);
      LastRows(crc, readers[n], tables[n], id);
      GatherCollects(crc, readers[..n], tables[..n], id);
    }
  }

  lemma {:induction false} MergeIDsIsBests(crc: Checksum, readers: seq<Reader>, tables: seq<seq<Row>>, ids: seq<Bytes>)
    requires ReadTables(crc, readers, tables) && [] !in ids
    ensures MergeIDs(crc, readers, ids) == Some(Bests(tables, ids))
  {
    hide Gather, Collect, Best, ReadTables;
    if ids != [] {
      var n := |ids| - 1;
      assert ids[n] in ids;
      MergeIDsIsBests(crc, readers, tables, ids[..n]);
      GatherCollects(crc, readers, tables, ids[n]);
    }
  }

  lemma {:induction false} TablesIDs(crc: Checksum, readers: seq<Reader>, tables: seq<seq<Row>>)
    requires ReadTables(crc, readers, tables)
    ensures AllIDs(readers) == NamedIDs(tables)
  {
    hide IDs, ReadsTable;
    forall id
      ensures id in AllIDs(readers) <==> id in NamedIDs(tables)
    {
      forall i | 0 <= i < |tables|
        ensures id in IDs(readers[i].index) <==> id in IndexedIDs(tables[i])
      {
        TableIDs(crc, readers[i], tables[i], id);
      }
      if r :| r in readers && id in IDs(r.index) {
        var i :| 0 <= i < |readers| && readers[i] == r;
        assert tables[i] in tables && id in IndexedIDs(tables[i]);
      }
      if t, r :| t in tables && r in t && r.entityID == id && id != [] {
        var i :| 0 <= i < |tables| && tables[i] == t;
        assert id in IndexedIDs(tables[i]) && readers[i] in readers;
      }
    }
  }

  lemma {:induction false} TableIDs(crc: Checksum, r: Reader, rows: seq<Row>, id: Bytes)
    requires ReadsTable(crc, r, rows)
    ensures id in IDs(r.index) <==> id in IndexedIDs(rows)
  {
    hide IDs, IndexedIDs, Listing, GetRows, OpenTable, TableBytes, SortedRows, Storable;
    TableReadsBack(crc, rows);
    assert id in IDs(r.index) <==> id in Elements(IDs(r.index));
  }

  /** Merging tables the writer produced always succeeds and yields one row per named entity, ascending. */
  lemma {:induction false} MergeIsMerged(crc: Checksum, readers: seq<Reader>, tables: seq<seq<Row>>)
    requires ReadTables(crc, readers, tables)
    ensures MergeIDs(crc, readers, Listing(AllIDs(readers))) == Some(Merged(tables))
  {
    hide MergeIDs, Bests, Listing, ReadTables;
    TablesIDs(crc, readers, tables);
    var ids := Listing(NamedIDs(tables));
    assert [] in ids ==> [] in Elements(ids);
    MergeIDsIsBests(crc, readers, tables, ids);
  }

  // ----- the merged table -----

  lemma {:induction false} CollectIs(tables: seq<seq<Row>>, id: Bytes)
    ensures Collect(tables, id) != [] <==> exists t, r :: t in tables && r in t && r.entityID == id
    ensures forall r :: r in Collect(tables, id) ==> r.entityID == id
  {
    hide RowsOf;
    if tables != [] {
      var n := |tables| - 1;
      CollectIs(tables[..n], id);
      RowsOfNonempty(tables[n], id);
      RowsOfIs(tables[n], id);
      assert tables[n] in tables && forall t :: t in tables <==> t in tables[..n] || t == tables[n];
    }
  }

  lemma {:induction false} RowsOfIs(rows: seq<Row>, id: Bytes)
    ensures forall r :: r in RowsOf(rows, id) ==> r.entityID == id && r in rows
  {
    if rows != [] {
      RowsOfIs(rows[..|rows| - 1], id);
    }
  }

  lemma {:induction false} BestIn(rows: seq<Row>)
    requires rows != []
    ensures Best(rows) in rows
  {
    hide Beats;
    var n := |rows| - 1;
    if n > 0 {
      BestIn(rows[..n]);
    }
  }

  /** Row i of the merge belongs to id i and is the best of that entity's rows. */
  lemma {:induction false} BestsAre(tables: seq<seq<Row>>, ids: seq<Bytes>)
    requires forall id :: id in ids ==> Collect(tables, id) != []
    ensures |Bests(tables, ids)| == |ids|
    ensures forall i :: 0 <= i < |ids| ==> Bests(tables, ids)[i] == Best(Collect(tables, ids[i])) && Bests(tables, ids)[i].entityID == ids[i]
  {
    hide Collect, Best;
    if ids != [] {
      var n := |ids| - 1;
      BestsAre(tables, ids[..n]);
      var rows := Collect(tables, ids[n]);
      BestIn(rows);
      CollectIs(tables, ids[n]);
    }
  }

  lemma {:induction false} NamedCollect(tables: seq<seq<Row>>, id: Bytes)
    ensures id in NamedIDs(tables) <==> id != [] && Collect(tables, id) != []
  {
    hide Collect;
    CollectIs(tables, id);
    if id in NamedIDs(tables) {
      var t, r :| t in tables && r in t && r.entityID == id;
    }
  }

  /** The merged table is sorted, names exactly the inputs' named entities, and holds for each of them the one row that
      ranks first among all its rows, those of the last table coming first. */
  lemma {:induction false} MergedIs(tables: seq<seq<Row>>)
    ensures SortedRows(Merged(tables))
    ensures IndexedIDs(Merged(tables)) == NamedIDs(tables)
    ensures forall id :: RowsOf(Merged(tables), id) == Survivor(tables, id)
  {
    hide Listing, Collect, Best, Bests, RowsOf, Less, NamedIDs;
    var ids := Listing(NamedIDs(tables));
    var rows := Merged(tables);
    forall id
      ensures id in ids <==> id != [] && Collect(tables, id) != []
      ensures id in ids <==> id in NamedIDs(tables)
    {
      assert id in ids <==> id in Elements(ids);
      NamedCollect(tables, id);
    }
    BestsAre(tables, ids);
    SingleRows(rows, ids);
    forall id
      ensures RowsOf(rows, id) == Survivor(tables, id)
    {
      if id in ids {
        var i :| 0 <= i < |ids| && ids[i] == id;
        assert RowsOf(rows, ids[i]) == [rows[i]];
      }
    }
  }

  lemma {:induction false} SingleRows(rows: seq<Row>, ids: seq<Bytes>)
    requires |rows| == |ids| && Ascending(ids) && [] !in ids && forall i :: 0 <= i < |ids| ==> rows[i].entityID == ids[i]
    ensures SortedRows(rows)
    ensures IndexedIDs(rows) == Elements(ids)
    ensures forall i :: 0 <= i < |ids| ==> RowsOf(rows, ids[i]) == [rows[i]]
    ensures forall id :: id !in ids ==> RowsOf(rows, id) == []
  {
    hide Less, RowsOf;
    forall i, j | 0 <= i < j < |rows|
      ensures !Less(rows[j].entityID, rows[i].entityID) && ids[i] != ids[j]
    {
      LessAsymmetric(ids[i], ids[j]);
    }
    SingleIDs(rows, ids);
    forall i | 0 <= i < |ids|
      ensures RowsOf(rows, ids[i]) == [rows[i]]
    {
      RowsOfOne(rows, i);
    }
    forall id | id !in ids
      ensures RowsOf(rows, id) == []
    {
      RowsOfNone(rows, id);
    }
  }

  lemma {:induction false} RowsOfNone(rows: seq<Row>, id: Bytes)
    requires forall i :: 0 <= i < |rows| ==> rows[i].entityID != id
    ensures RowsOf(rows, id) == []
  {
    if rows != [] {
      RowsOfNone(rows[..|rows| - 1], id);
    }
  }

  lemma {:induction false} RowsOfOne(rows: seq<Row>, i: nat)
    requires i < |rows| && forall j :: 0 <= j < |rows| && j != i ==> rows[j].entityID != rows[i].entityID
    ensures RowsOf(rows, rows[i].entityID) == [rows[i]]
  {
    var n := |rows| - 1;
    if i == n {
      RowsOfNone(rows[..n], rows[i].entityID);
    } else {
      RowsOfOne(rows[..n], i);
    }
  }

  lemma SingleIDs(rows: seq<Row>, ids: seq<Bytes>)
    requires |rows| == |ids| && [] !in ids && forall i :: 0 <= i < |ids| ==> rows[i].entityID == ids[i]
    ensures IndexedIDs(rows) == Elements(ids)
  {
    forall id
      ensures id in IndexedIDs(rows) <==> id in Elements(ids)
    {
      if id in ids {
        var i :| 0 <= i < |ids| && ids[i] == id;
        assert rows[i] in rows;
      }
    }
  }

  /** Compacting tables the writer produced: the output image opens and reads back as exactly one row per named entity. */
  lemma {:induction false} CompactedReadsBack(crc: Checksum, tables: seq<seq<Row>>)
    requires Storable(crc, Merged(tables))
    ensures OpenTable(TableBytes(crc, Merged(tables))).Opened?
    ensures var r := OpenTable(TableBytes(crc, Merged(tables))).reader;
            && r.RowCount() == |NamedIDs(tables)|
            && IDs(r.index) == Listing(NamedIDs(tables))
            && forall id :: GetRows(crc, r, id) == Some(Survivor(tables, id))
  {
    hide Merged, Storable, OpenTable, TableBytes, GetRows, IDs, Listing, Collect, Best, NamedIDs, RowsOf, IndexedIDs, SortedRows;
    MergedIs(tables);
    MergedSize(tables);
    TableReadsBack(crc, Merged(tables));
  }

  lemma {:induction false} MergedSize(tables: seq<seq<Row>>)
    ensures |Merged(tables)| == |NamedIDs(tables)|
  {
    hide Listing, Collect, Best, Bests, NamedIDs;
    var ids := Listing(NamedIDs(tables));
    forall id | id in ids
      ensures Collect(tables, id) != []
    {
      assert id in Elements(ids);
      NamedCollect(tables, id);
    }
    BestsAre(tables, ids);
  }

  // ----- compacting in stages -----

  lemma {:induction false} CollectAppend(a: seq<seq<Row>>, b: seq<seq<Row>>, id: Bytes)
    ensures Collect(a + b, id) == Collect(b, id) + Collect(a, id)
  {
    hide RowsOf;
    if b == [] {
      assert a + b == a;
    } else {
      var n := |b| - 1;
      assert (a + b)[..|a + b| - 1] == a + b[..n];
      CollectAppend(a, b[..n], id);
    }
  }

  /** Replacing a block of rows by its best one does not change the best of the whole. */
  lemma {:induction false} BestOfBlock(c: seq<Row>, b: seq<Row>, a: seq<Row>)
    requires b != []
    ensures Best(c + b + a) == Best(c + [Best(b)] + a)
  {
    hide Best, Beats;
    BestOne(Best(b));
    var x, y := c + b, c + [Best(b)];
    assert Best(x) == Best(y) by {
      if c == [] {
        assert x == b && y == [Best(b)];
      } else {
        BestAppend(c, b);
        BestAppend(c, [Best(b)]);
      }
    }
    if a == [] {
      assert x + a == x && y + a == y;
    } else {
      BestAppend(x, a);
      BestAppend(y, a);
    }
  }

  lemma BestOne(r: Row)
    ensures Best([r]) == r
  {
  }

  /** Compacting any contiguous block of tables first, and the rest together with its result later, gives the same
      table as compacting everything at once. */
  lemma {:induction false} StagedCompaction(a: seq<seq<Row>>, b: seq<seq<Row>>, c: seq<seq<Row>>)
    ensures Merged(a + [Merged(b)] + c) == Merged(a + b + c)
  {
    hide Collect, Best, Bests, Listing, NamedIDs, Merged, SortedRows;
    var m := a + [Merged(b)] + c;
    var all := a + b + c;
    MergedIs(b);
    forall id: Bytes | id != []
      ensures Collect(m, id) != [] <==> Collect(all, id) != []
      ensures Collect(all, id) != [] ==> Best(Collect(m, id)) == Best(Collect(all, id))
    {
      StagedCollect(a, b, c, id);
    }
    forall id
      ensures id in NamedIDs(m) <==> id in NamedIDs(all)
    {
      NamedCollect(m, id);
      NamedCollect(all, id);
    }
    assert NamedIDs(m) == NamedIDs(all);
    SameBests(m, all);
  }

  lemma {:induction false} StagedCollect(a: seq<seq<Row>>, b: seq<seq<Row>>, c: seq<seq<Row>>, id: Bytes)
    requires RowsOf(Merged(b), id) == Survivor(b, id)
    requires id != []
    ensures var m, all := Collect(a + [Merged(b)] + c, id), Collect(a + b + c, id);
            (m != [] <==> all != []) && (all != [] ==> Best(m) == Best(all))
  {
    hide Best, Merged, NamedIDs, RowsOf;
    CollectAppend(a + [Merged(b)], c, id);
    CollectAppend(a, [Merged(b)], id);
    CollectAppend(a + b, c, id);
    CollectAppend(a, b, id);
    NamedCollect(b, id);
    CollectOne(Merged(b), id);
    var x, y, z := Collect(c, id), Collect(b, id), Collect(a, id);
    hide Collect;
    if y != [] {
      BestOfBlock(x, y, z);
      Regroup(x, y, z);
      Regroup(x, [Best(y)], z);
    }
  }

  lemma Regroup(x: seq<Row>, y: seq<Row>, z: seq<Row>)
    ensures x + (y + z) == x + y + z
  {
  }

  lemma CollectOne(rows: seq<Row>, id: Bytes)
    ensures Collect([rows], id) == RowsOf(rows, id)
  {
    assert Collect([rows], id) == RowsOf(rows, id) + Collect([], id);
  }

  lemma {:induction false} SameBests(a: seq<seq<Row>>, b: seq<seq<Row>>)
    requires NamedIDs(a) == NamedIDs(b)
    requires forall id: Bytes :: id != [] && Collect(b, id) != [] ==> Collect(a, id) != [] && Best(Collect(a, id)) == Best(Collect(b, id))
    ensures Merged(a) == Merged(b)
  {
    hide Collect, Best, Bests, Listing, NamedIDs;
    var ids := Listing(NamedIDs(a));
    forall id | id in ids
      ensures id != [] && Collect(a, id) != [] && Collect(b, id) != []
    {
      assert id in Elements(ids);
      NamedCollect(a, id);
      NamedCollect(b, id);
    }
    BestsAre(a, ids);
    BestsAre(b, ids);
  }

  // ----- the whole compaction -----

  datatype Outcome = Compacted(file: Bytes) | Failed | PanickedReading

  ghost predicate ImagesOf(crc: Checksum, inputs: seq<Bytes>, tables: seq<seq<Row>>) {
    && |inputs| == |tables|
    && forall i :: 0 <= i < |tables| ==> SortedRows(tables[i]) && Storable(crc, tables[i]) && inputs[i] == TableBytes(crc, tables[i])
  }

  ghost predicate AllOpen(inputs: seq<Bytes>) {
    forall i :: 0 <= i < |inputs| ==> OpenTable(inputs[i]).Opened?
  }

  function ReaderOf(d: Bytes): Reader
    requires OpenTable(d).Opened?
  {
    OpenTable(d).reader
  }

  ghost function Opens(inputs: seq<Bytes>): seq<Reader>
    requires AllOpen(inputs)
  {
    seq(|inputs|, i requires 0 <= i < |inputs| => ReaderOf(inputs[i]))
  }

  /** The rows to write for whatever bytes the opened inputs hold; None when some entity's rows cannot be read. */
  ghost function MergedRows(crc: Checksum, inputs: seq<Bytes>): Option<seq<Row>>
    requires AllOpen(inputs)
  {
    MergeIDs(crc, Opens(inputs), Listing(AllIDs(Opens(inputs))))
  }

  /** Compact, on file contents: the first input that does not open decides; else a row that cannot be read fails it;
      else the output is the image of the merged rows. From images of sorted tables it is the image of their merge. */
  method Compact(crc: Checksum, inputs: seq<Bytes>) returns (r: Outcome)
    ensures inputs == [] ==> r == Failed
    ensures forall i :: 0 <= i < |inputs| && AllOpen(inputs[..i]) && !OpenTable(inputs[i]).Opened? ==>
        r == if OpenTable(inputs[i]).Rejected? then Failed else PanickedReading
    ensures inputs != [] && AllOpen(inputs) ==>
        r == if MergedRows(crc, inputs) == None then Failed else Compacted(TableBytes(crc, MergedRows(crc, inputs).value))
    ensures forall tables :: inputs != [] && ImagesOf(crc, inputs, tables) ==> r == Compacted(TableBytes(crc, Merged(tables)))
  {
    hide OpenTable, TableBytes, SortedRows, MergeIDs, Merged, Listing, AllIDs, FlatMap, EncHeader, ImagesOf;
    if |inputs| == 0 {
      return Failed;
    }
    var readers: seq<Reader> := [];
    for i := 0 to |inputs|
      invariant |readers| == i && forall j :: 0 <= j < i ==> OpenTable(inputs[j]) == Opened(readers[j])
    {
      var outcome := Reader.NewReader(inputs[i]);
      if !outcome.Opened? {
        ImagesOpen(crc, inputs);
        return if outcome == Rejected then Failed else PanickedReading;
      }
      readers := readers + [outcome.reader];
    }
    assert AllOpen(inputs) && readers == Opens(inputs);
    var writer := new Writer(crc);
    writer.WriteHeader();
    var ok := StreamMergeAndDeduplicate(crc, readers, writer);
    ImagesMergeAll(crc, inputs);
    if !ok {
      return Failed;
    }
    assert writer.rows == MergedRows(crc, inputs).value;
    MergedRowsSorted(crc, readers, Listing(AllIDs(readers)));
    ghost var sorted := writer.WriteIndex();
    return Compacted(writer.sink);
  }

  /** Images of tables open, so an input that does not open is none. */
  lemma {:induction false} ImagesOpen(crc: Checksum, inputs: seq<Bytes>)
    ensures (exists tables :: ImagesOf(crc, inputs, tables)) ==> AllOpen(inputs)
  {
    hide OpenTable, TableBytes, SortedRows, Storable;
    if tables :| ImagesOf(crc, inputs, tables) {
      forall i | 0 <= i < |inputs|
        ensures OpenTable(inputs[i]).Opened?
      {
        TableReadsBack(crc, tables[i]);
      }
    }
  }

  lemma {:induction false} ImagesMergeAll(crc: Checksum, inputs: seq<Bytes>)
    requires AllOpen(inputs)
    ensures forall tables :: ImagesOf(crc, inputs, tables) ==> MergedRows(crc, inputs) == Some(Merged(tables))
  {
    hide OpenTable, Merged, MergeIDs, Listing, AllIDs, ImagesOf;
    forall tables | ImagesOf(crc, inputs, tables)
      ensures MergedRows(crc, inputs) == Some(Merged(tables))
    {
      ImagesMerge(crc, inputs, tables, Opens(inputs));
    }
  }

  lemma {:induction false} GatheredID(crc: Checksum, readers: seq<Reader>, id: Bytes)
    ensures Gather(crc, readers, id).Some? ==> forall row :: row in Gather(crc, readers, id).value ==> row.entityID == id
  {
    hide GetRows;
    if readers != [] {
      var n := |readers| - 1;
      RowsCarryID(crc, readers[n], id);
      GatheredID(crc, readers[..n], id);
    }
  }

  /** Whatever the readers hold, one row at most per listed id, in the order of the ids. */
  lemma {:induction false} MergedRowsSorted(crc: Checksum, readers: seq<Reader>, ids: seq<Bytes>)
    requires Ascending(ids)
    ensures var merged := MergeIDs(crc, readers, ids);
            merged.Some? ==> SortedRows(merged.value) && forall row :: row in merged.value ==> row.entityID in ids
  {
    hide Gather, Best, Less;
    if ids != [] {
      var n := |ids| - 1;
      assert ids == ids[..n] + [ids[n]];
      MergedRowsSorted(crc, readers, ids[..n]);
      GatheredID(crc, readers, ids[n]);
      var before, rows := MergeIDs(crc, readers, ids[..n]), Gather(crc, readers, ids[n]);
      if before.Some? && rows.Some? && rows.value != [] {
        BestIn(rows.value);
        SortedSnoc(before.value, Best(rows.value), ids, n);
      }
    }
  }

  lemma {:induction false} SortedSnoc(rows: seq<Row>, row: Row, ids: seq<Bytes>, n: nat)
    requires Ascending(ids) && n < |ids| && row.entityID == ids[n]
    requires SortedRows(rows) && forall x :: x in rows ==> x.entityID in ids[..n]
    ensures SortedRows(rows + [row])
  {
    hide Less;
    forall i | 0 <= i < |rows|
      ensures !Less(row.entityID, rows[i].entityID)
    {
      assert rows[i] in rows;
      var k :| 0 <= k < n && ids[k] == rows[i].entityID;
      LessAsymmetric(ids[k], ids[n]);
    }
  }

  lemma {:induction false} ImagesMerge(crc: Checksum, inputs: seq<Bytes>, tables: seq<seq<Row>>, readers: seq<Reader>)
    requires ImagesOf(crc, inputs, tables) && |readers| == |inputs|
    requires forall j :: 0 <= j < |inputs| ==> OpenTable(inputs[j]) == Opened(readers[j])
    ensures MergeIDs(crc, readers, Listing(AllIDs(readers))) == Some(Merged(tables))
  {
    hide OpenTable, TableBytes, SortedRows, Storable, MergeIDs, Merged, Listing, AllIDs;
    MergeIsMerged(crc, readers, tables);
  }
}
