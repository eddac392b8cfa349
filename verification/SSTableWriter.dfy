/** core/storage/sstable/writer.go: a sequential writer that indexes the first row of every run of equal ids. */
module SSTableWriter {
  import opened Prelude
  import opened SSTableFormat

  /** A maximal run of consecutive rows with the same entity id. */
  datatype Group = Group(entityID: Bytes, rows: seq<Row>)

  function GroupsOf(rows: seq<Row>): (gs: seq<Group>)
    ensures rows != [] ==> gs != [] && gs[|gs| - 1].entityID == rows[|rows| - 1].entityID
    ensures rows == [] ==> gs == []
  {
    if rows == [] then []
    else
      var row := rows[|rows| - 1];
      AddRow(GroupsOf(rows[..|rows| - 1]), row)
  }

  function AddRow(gs: seq<Group>, row: Row): (r: seq<Group>)
    ensures r != [] && r[|r| - 1].entityID == row.entityID
  {
    if gs != [] && gs[|gs| - 1].entityID == row.entityID
    then gs[..|gs| - 1] + [Group(row.entityID, gs[|gs| - 1].rows + [row])]
    else gs + [Group(row.entityID, [row])]
  }

  lemma GroupsOfSnoc(rows: seq<Row>, row: Row)
    ensures GroupsOf(rows + [row]) == AddRow(GroupsOf(rows), row)
  {
    assert (rows + [row])[..|rows|] == rows;
  }

  function EncGroup(crc: Checksum, g: Group): Bytes {
    FlatMap(RowEncoder(crc), g.rows)
  }

  function GroupEncoder(crc: Checksum): Group -> Bytes {
    (g: Group) => EncGroup(crc, g)
  }

  /** The offset of group i in a file whose first group starts at base. */
  function OffsetAt(crc: Checksum, base: nat, gs: seq<Group>, i: nat): nat
    requires i <= |gs|
  {
    base + |FlatMap(GroupEncoder(crc), gs[..i])|
  }

  /** The index entries of all groups; an empty id is never indexed. */
  function Entries(crc: Checksum, base: nat, gs: seq<Group>): seq<IndexEntry> {
    if gs == [] then []
    else
      var n := |gs| - 1;
      var before := Entries(crc, base, gs[..n]);
      if gs[n].entityID == [] then before
      else before + [IndexEntry(gs[n].entityID, Int64(OffsetAt(crc, base, gs, n)))]
  }

  predicate EntryLess(a: IndexEntry, b: IndexEntry) {
    Less(a.entityID, b.entityID)
  }

  /** The rows' bytes do not depend on how they are grouped. */
  lemma {:induction false} GroupsCoverRows(crc: Checksum, rows: seq<Row>)
    ensures FlatMap(GroupEncoder(crc), GroupsOf(rows)) == FlatMap(RowEncoder(crc), rows)
  {
    if rows != [] {
      var n := |rows| - 1;
      GroupsCoverRows(crc, rows[..n]);
      assert rows == rows[..n] + [rows[n]];
      FlatMapSnoc(RowEncoder(crc), rows[..n], rows[n]);
      AddRowBytes(crc, GroupsOf(rows[..n]), rows[n]);
    }
  }

  lemma {:induction false} AddRowBytes(crc: Checksum, gs: seq<Group>, row: Row)
    ensures FlatMap(GroupEncoder(crc), AddRow(gs, row)) == FlatMap(GroupEncoder(crc), gs) + EncRow(crc, row)
  {
    hide FlatMap, EncRow;
    var f := GroupEncoder(crc);
    if gs != [] && gs[|gs| - 1].entityID == row.entityID {
      var n := |gs| - 1;
      var g := Group(row.entityID, gs[n].rows + [row]);
      assert gs == gs[..n] + [gs[n]];
      FlatMapSnoc(f, gs[..n], gs[n]);
      FlatMapSnoc(f, gs[..n], g);
      FlatMapSnoc(RowEncoder(crc), gs[n].rows, row);
      assert FlatMap(f, gs[..n]) + f(g) == FlatMap(f, gs[..n]) + f(gs[n]) + EncRow(crc, row);
    } else {
      var g := Group(row.entityID, [row]);
      FlatMapSnoc(f, gs, g);
      OneRow(crc, row);
    }
  }

  lemma OneRow(crc: Checksum, row: Row)
    ensures FlatMap(RowEncoder(crc), [row]) == EncRow(crc, row)
  {
    assert FlatMap(RowEncoder(crc), [row]) == RowEncoder(crc)(row) + FlatMap(RowEncoder(crc), []);
  }

  /** The bytes of a closed table whose index needed no reordering. */
  function TableBytes(crc: Checksum, rows: seq<Row>): Bytes {
    var body := EncHeader() + FlatMap(RowEncoder(crc), rows);
    body + IndexAndFooter(|body|, Entries(crc, HEADER_SIZE, GroupsOf(rows)), |rows|)
  }

  function IndexAndFooter(indexOffset: nat, index: seq<IndexEntry>, rowCount: nat): Bytes {
    var indexBytes := FlatMap(EncEntry, index);
    indexBytes + EncFooter(Footer(Int64(indexOffset), Int64(|indexBytes|), Int64(rowCount)))
  }

  /** The entry of the entity being written, not yet in the index. */
  function Pending(currentEntity: Bytes, start: nat): seq<IndexEntry> {
    if currentEntity == [] then [] else [IndexEntry(currentEntity, Int64(start))]
  }

  class Writer {
    const crc: Checksum
    var sink: Bytes              // what the underlying io.Writer has received
    var offset: nat
    var index: seq<IndexEntry>
    var currentEntity: Bytes
    var entityStartOffset: nat
    var rowCount: nat
    ghost var rows: seq<Row>     // the rows written so far

    constructor (crc: Checksum)
      ensures this.crc == crc && sink == [] && offset == 0 && index == [] && currentEntity == []
      ensures entityStartOffset == 0 && rowCount == 0 && rows == []
    {
      this.crc := crc;
      sink, offset, index, currentEntity := [], 0, [], [];
      entityStartOffset, rowCount, rows := 0, 0, [];
    }

    /** The writer has emitted the header and exactly these rows. */
    ghost predicate Valid()
      reads this
    {
      && sink == EncHeader() + FlatMap(RowEncoder(crc), rows)
      && offset == |sink| && rowCount == |rows|
      && currentEntity == (if rows == [] then [] else rows[|rows| - 1].entityID)
      && index + Pending(currentEntity, entityStartOffset) == Entries(crc, HEADER_SIZE, GroupsOf(rows))
    }

    method WriteHeader()
      requires sink == [] && offset == 0 && index == [] && currentEntity == [] && rowCount == 0 && rows == []
      modifies this
      ensures Valid() && rows == []
    {
      var data := EncHeader();
      sink := sink + data;
      offset := |data|;
      assert EncHeader() + FlatMap(RowEncoder(crc), []) == EncHeader();
    }

    method WriteRow(row: Row)
      requires Valid()
      modifies this
      ensures Valid() && rows == old(rows) + [row]
    {
      hide EncRow, EncHeader, FlatMap, GroupsOf, Entries, Pending, RowEncoder;
      PendingStep(crc, rows, row, index, currentEntity, entityStartOffset);
      ImageGrows(crc, rows, row);
      if row.entityID != currentEntity {
        if currentEntity != [] {
          index := index + [IndexEntry(currentEntity, Int64(entityStartOffset))];
        }
        currentEntity := row.entityID;
        entityStartOffset := offset;
      }
      var rowData := EncRow(crc, row);
      sink := sink + rowData;
      offset := offset + |rowData|;
      rowCount := rowCount + 1;
      rows := rows + [row];
    }

    /** Close: the index, sorted by entity id in whatever order among equal ids, then the footer. */
    method WriteIndex() returns (ghost sorted: seq<IndexEntry>)
      requires Valid()
      modifies this
      ensures multiset(sorted) == multiset(Entries(crc, HEADER_SIZE, GroupsOf(rows))) && SortedBy(EntryLess, sorted)
      ensures sink == old(sink) + IndexAndFooter(|old(sink)|, sorted, |rows|) && rows == old(rows)
      ensures SortedRows(rows) ==> sink == TableBytes(crc, rows)
    {
      hide EncHeader, FlatMap, GroupsOf, Entries, EntryLess, EncEntry, EncFooter, Int64, SortedRows;
      ghost var entries := Entries(crc, HEADER_SIZE, GroupsOf(rows));
      if currentEntity != [] {
        index := index + [IndexEntry(currentEntity, Int64(entityStartOffset))];
      }
      assert index + [] == index;
      assert index == entries;
      EntryOrder();
      index := Sort(index, EntryLess);
      sorted := index;
      if SortedRows(rows) {
        EntriesAscend(crc, HEADER_SIZE, rows);
        SortUnique(EntryLess, entries, sorted);
      }
      var indexOffset := offset;
      WriteEntries();
      var indexSize := offset - indexOffset;
      var footerData := EncFooter(Footer(Int64(indexOffset), Int64(indexSize), Int64(rowCount)));
      assert old(sink) + FlatMap(EncEntry, sorted) + footerData == old(sink) + (FlatMap(EncEntry, sorted) + footerData);
      sink := sink + footerData;
    }

    /** The loop of WriteIndex over the index entries. */
    method WriteEntries()
      requires offset == |sink|
      modifies this`sink, this`offset
      ensures sink == old(sink) + FlatMap(EncEntry, index) && offset == |sink|
    {
      hide FlatMap, EncEntry;
      FlatMapWhole(EncEntry, index);
      assert sink + FlatMap(EncEntry, index[..0]) == sink;
      for i := 0 to |index|
        invariant sink == old(sink) + FlatMap(EncEntry, index[..i]) && offset == |sink|
      {
        var entryData := EncEntry(index[i]);
        FlatMapSplit(EncEntry, index, i);
        assert old(sink) + FlatMap(EncEntry, index[..i]) + entryData == old(sink) + (FlatMap(EncEntry, index[..i]) + entryData);
        sink := sink + entryData;
        offset := offset + |entryData|;
      }
    }
  }

  /** The bookkeeping of WriteRow: the entry in progress moves to the index when another id starts. */
  lemma {:induction false} PendingStep(crc: Checksum, rows: seq<Row>, row: Row, index: seq<IndexEntry>, current: Bytes,
          start: nat)
    requires current == if rows == [] then [] else rows[|rows| - 1].entityID
    requires index + Pending(current, start) == Entries(crc, HEADER_SIZE, GroupsOf(rows))
    ensures var entries := Entries(crc, HEADER_SIZE, GroupsOf(rows + [row]));
            var offset := HEADER_SIZE + |FlatMap(RowEncoder(crc), rows)|;
            && (row.entityID == current ==> index + Pending(current, start) == entries)
            && (row.entityID != current && current != [] ==>
                  index + [IndexEntry(current, Int64(start))] + Pending(row.entityID, offset) == entries)
            && (row.entityID != current && current == [] ==> index + Pending(row.entityID, offset) == entries)
  {
    hide GroupsOf, Entries, FlatMap, Int64;
    EntriesStep(crc, HEADER_SIZE, rows, row);
    assert index + [] == index;
    var entries := Entries(crc, HEADER_SIZE, GroupsOf(rows));
    assert entries + [] == entries;
  }

  lemma EntryOrder()
    ensures WeakOrder(EntryLess)
  {
    LessIsStrictOrder();
  }

  /** What writing one more row does to the index entries. */
  lemma {:induction false} EntriesStep(crc: Checksum, base: nat, rows: seq<Row>, row: Row)
    ensures var last := if rows == [] then [] else rows[|rows| - 1].entityID;
            Entries(crc, base, GroupsOf(rows + [row])) == Entries(crc, base, GroupsOf(rows))
              + (if row.entityID == [] || row.entityID == last then []
                 else [IndexEntry(row.entityID, Int64(base + |FlatMap(RowEncoder(crc), rows)|))])
  {
    hide FlatMap, Int64, GroupsOf;
    var gs := GroupsOf(rows);
    GroupsOfSnoc(rows, row);
    GroupsCoverRows(crc, rows);
    if rows != [] && gs[|gs| - 1].entityID == row.entityID {
      var n := |gs| - 1;
      var g := Group(row.entityID, gs[n].rows + [row]);
      assert (gs[..n] + [g])[..n] == gs[..n];
      assert forall s: seq<IndexEntry> :: s + [] == s;
    } else {
      var g := Group(row.entityID, [row]);
      assert (gs + [g])[..|gs|] == gs;
      assert forall s: seq<IndexEntry> :: s + [] == s;
    }
  }

  // ----- sorted input -----

  ghost predicate SortedRows(rows: seq<Row>) {
    forall i, j :: 0 <= i < j < |rows| ==> !Less(rows[j].entityID, rows[i].entityID)
  }

  ghost predicate AscendingGroups(gs: seq<Group>) {
    forall i, j :: 0 <= i < j < |gs| ==> Less(gs[i].entityID, gs[j].entityID)
  }

  ghost predicate GoodGroups(gs: seq<Group>) {
    forall g :: g in gs ==> g.rows != [] && forall r :: r in g.rows ==> r.entityID == g.entityID
  }

  lemma {:induction false} SortedRowsGroup(rows: seq<Row>)
    requires SortedRows(rows)
    ensures AscendingGroups(GroupsOf(rows)) && GoodGroups(GroupsOf(rows))
  {
    if rows != [] {
      var n := |rows| - 1;
      assert forall i :: 0 <= i < n ==> rows[..n][i] == rows[i];
      SortedRowsGroup(rows[..n]);
      AddRowKeeps(GroupsOf(rows[..n]), rows[n], if n == 0 then rows[n] else rows[n - 1]);
    }
  }

  lemma {:induction false} AddRowKeeps(gs: seq<Group>, row: Row, last: Row)
    requires AscendingGroups(gs) && GoodGroups(gs)
    requires gs != [] ==> gs[|gs| - 1].entityID == last.entityID && !Less(row.entityID, last.entityID)
    ensures AscendingGroups(AddRow(gs, row)) && GoodGroups(AddRow(gs, row))
  {
    hide Less;
    var r := AddRow(gs, row);
    if gs != [] && gs[|gs| - 1].entityID == row.entityID {
      assert forall i :: 0 <= i < |gs| ==> r[i].entityID == gs[i].entityID;
      assert forall g :: g in r ==> g in gs || g == r[|gs| - 1];
      assert gs[|gs| - 1] in gs;
    } else if gs != [] {
      LessTotal(row.entityID, last.entityID);
      forall i | 0 <= i < |gs|
        ensures Less(gs[i].entityID, row.entityID)
      {
        if i < |gs| - 1 {
          LessTransitive(gs[i].entityID, last.entityID, row.entityID);
        }
      }
    }
  }

  ghost predicate EntriesOf(index: seq<IndexEntry>, gs: seq<Group>) {
    && (forall i, j :: 0 <= i < j < |index| ==> EntryLess(index[i], index[j]))
    && (forall e :: e in index ==> exists g :: g in gs && g.entityID == e.entityID)
  }

  lemma EntriesAscend(crc: Checksum, base: nat, rows: seq<Row>)
    requires SortedRows(rows)
    ensures EntriesOf(Entries(crc, base, GroupsOf(rows)), GroupsOf(rows))
  {
    SortedRowsGroup(rows);
    GroupEntriesAscend(crc, base, GroupsOf(rows));
  }

  lemma {:induction false} GroupEntriesAscend(crc: Checksum, base: nat, gs: seq<Group>)
    requires AscendingGroups(gs)
    ensures EntriesOf(Entries(crc, base, gs), gs)
  {
    hide Less, Int64, OffsetAt;
    if gs != [] {
      var n := |gs| - 1;
      var before := Entries(crc, base, gs[..n]);
      GroupEntriesAscend(crc, base, gs[..n]);
      assert gs[n] in gs && forall g :: g in gs[..n] ==> g in gs;
      forall e | e in before
        ensures Less(e.entityID, gs[n].entityID)
      {
        var g :| g in gs[..n] && g.entityID == e.entityID;
      }
    }
  }

  lemma {:induction false} ImageGrows(crc: Checksum, rows: seq<Row>, row: Row)
    ensures EncHeader() + FlatMap(RowEncoder(crc), rows + [row]) == EncHeader() + FlatMap(RowEncoder(crc), rows) + EncRow(crc, row)
  {
    hide EncRow, EncHeader, FlatMap;
    FlatMapSnoc(RowEncoder(crc), rows, row);
    AppendAssociates(EncHeader(), FlatMap(RowEncoder(crc), rows), EncRow(crc, row));
  }
}
