/** What the reader finds in a file image the writer produced from sorted rows. */
module SSTableRoundTrip {
  import opened Prelude
  import opened SSTableFormat
  import opened SSTableWriter
  import opened SSTableReader

  /** The rows of one entity, in write order. */
  function RowsOf(rows: seq<Row>, id: Bytes): seq<Row> {
    if rows == [] then []
    else
      var n := |rows| - 1;
      RowsOf(rows[..n], id) + (if rows[n].entityID == id then [rows[n]] else [])
  }

  ghost function IndexedIDs(rows: seq<Row>): set<Bytes> {
    set r | r in rows && r.entityID != [] :: r.entityID
  }

  /** The rows can be represented: 32-bit lengths and a file shorter than 2^63 bytes. */
  ghost predicate Storable(crc: Checksum, rows: seq<Row>) {
    (forall r :: r in rows ==> FitsRow(r)) && |TableBytes(crc, rows)| < TWO63
  }

  /** For any rows in entity order: the image opens, counts the rows, lists every non-empty id once in ascending
      order, and returns for each non-empty id exactly its rows in write order, and nothing for any other id. */
  lemma {:induction false} TableReadsBack(crc: Checksum, rows: seq<Row>)
    requires SortedRows(rows) && Storable(crc, rows)
    ensures OpenTable(TableBytes(crc, rows)).Opened?
    ensures var r := OpenTable(TableBytes(crc, rows)).reader;
            && r.RowCount() == |rows|
            && IDs(r.index) == Listing(IndexedIDs(rows))
            && forall id :: GetRows(crc, r, id) == Some(if id == [] then [] else RowsOf(rows, id))
  {
    hide FlatMap, Entries, GroupsOf, EncHeader, IndexAndFooter, HeaderOk, OpenTable, GetRows, RowsOf, Listing, IndexedIDs, Int64;
    var p, gs := NamedGroups(crc, rows);
    ManyRowsFit(crc, rows);
    assert TableBytes(crc, rows) == Image(crc, p, gs, |rows|);
    ImageReadsBack(crc, p, gs, |rows|);
    NamedGroupsCover(gs, rows);
  }

  /** The groups with a non-empty id, and everything before the first of them. */
  lemma {:induction false} NamedGroups(crc: Checksum, rows: seq<Row>) returns (p: Bytes, gs: seq<Group>)
    requires SortedRows(rows) && forall r :: r in rows ==> FitsRow(r)
    ensures HeaderOk(p) && AscendingGroups(gs) && GoodGroups(gs) && GroupsFit(gs)
    ensures p + FlatMap(GroupEncoder(crc), gs) == EncHeader() + FlatMap(RowEncoder(crc), rows)
    ensures Entries(crc, |p|, gs) == Entries(crc, HEADER_SIZE, GroupsOf(rows))
    ensures forall id :: id != [] ==> GroupRows(gs, id) == RowsOf(rows, id)
  {
    hide FlatMap, Entries, GroupsOf, EncHeader, HeaderOk, RowsOf, GroupRows, EncGroup, FitsRow;
    gs := GroupsOf(rows);
    p := EncHeader();
    SortedRowsGroup(rows);
    GroupsCoverRows(crc, rows);
    GroupsKeepRows(rows);
    HeaderAccepted([]);
    assert EncHeader() + [] == EncHeader();
    GroupRowsFit(gs, rows);
    if gs != [] && gs[0].entityID == [] {
      SkipEmptyGroup(crc, gs);
      HeaderExtends(EncHeader(), EncGroup(crc, gs[0]));
      p := p + EncGroup(crc, gs[0]);
      assert EncHeader() + FlatMap(GroupEncoder(crc), gs) == p + FlatMap(GroupEncoder(crc), gs[1..]);
      forall id: Bytes | id != []
        ensures GroupRows(gs[1..], id) == RowsOf(rows, id)
      {
        GroupRowsTail(gs, id);
      }
      NoEmptyGroup(gs);
      gs := gs[1..];
    } else {
      NoEmptyGroup(gs);
    }
  }

  // ----- an image made of any prefix with a good header, groups, their index and a footer -----

  ghost predicate GroupsFit(gs: seq<Group>) {
    forall g :: g in gs ==> g.entityID != [] && |g.entityID| < TWO32 && forall r :: r in g.rows ==> FitsRow(r)
  }

  function Image(crc: Checksum, p: Bytes, gs: seq<Group>, rowCount: nat): Bytes {
    var body := p + FlatMap(GroupEncoder(crc), gs);
    body + IndexAndFooter(|body|, Entries(crc, |p|, gs), rowCount)
  }

  function GroupRows(gs: seq<Group>, id: Bytes): seq<Row> {
    if gs == [] then []
    else
      var n := |gs| - 1;
      GroupRows(gs[..n], id) + (if gs[n].entityID == id then gs[n].rows else [])
  }

  function GroupIDs(gs: seq<Group>): (ids: seq<Bytes>)
    ensures |ids| == |gs| && forall i :: 0 <= i < |gs| ==> ids[i] == gs[i].entityID
  {
    if gs == [] then [] else GroupIDs(gs[..|gs| - 1]) + [gs[|gs| - 1].entityID]
  }

  lemma {:induction false} ImageReadsBack(crc: Checksum, p: Bytes, gs: seq<Group>, rowCount: nat)
    requires HeaderOk(p) && AscendingGroups(gs) && GoodGroups(gs) && GroupsFit(gs)
    requires |Image(crc, p, gs, rowCount)| < TWO63 && rowCount < TWO63
    ensures OpenTable(Image(crc, p, gs, rowCount)).Opened?
    ensures var r := OpenTable(Image(crc, p, gs, rowCount)).reader;
            && r.RowCount() == rowCount
            && IDs(r.index) == GroupIDs(gs)
            && forall id :: GetRows(crc, r, id) == Some(GroupRows(gs, id))
  {
    hide FlatMap, Entries, IndexAndFooter, HeaderOk, OpenTable, GetRows, GroupRows, AscendingGroups, GoodGroups, GroupsFit, IDs, GroupIDs;
    var d := Image(crc, p, gs, rowCount);
    ImageOpens(crc, p, gs, rowCount);
    EntriesAre(crc, |p|, gs);
    var r := OpenTable(d).reader;
    assert IDs(r.index) == GroupIDs(gs) by {
      assert forall i :: 0 <= i < |gs| ==> IDs(r.index)[i] == r.index[i].entityID;
    }
    forall id
      ensures GetRows(crc, r, id) == Some(GroupRows(gs, id))
    {
      ImageGet(crc, p, gs, rowCount, id);
    }
  }

  lemma Int64Small(n: nat)
    requires n < TWO63
    ensures Int64(n) == n
  {
  }

  lemma {:induction false} ImageOpens(crc: Checksum, p: Bytes, gs: seq<Group>, rowCount: nat)
    requires HeaderOk(p) && GroupsFit(gs)
    requires |Image(crc, p, gs, rowCount)| < TWO63 && rowCount < TWO63
    ensures var body := p + FlatMap(GroupEncoder(crc), gs);
            var index := Entries(crc, |p|, gs);
            OpenTable(Image(crc, p, gs, rowCount))
              == Opened(Reader(Image(crc, p, gs, rowCount), Footer(|body|, |FlatMap(EncEntry, index)|, rowCount), index))
  {
    hide FlatMap, Entries, GroupsFit, HeaderOk, DecFooter, EncFooter, Int64, LoadIndex;
    var d := Image(crc, p, gs, rowCount);
    var body := p + FlatMap(GroupEncoder(crc), gs);
    var index := Entries(crc, |p|, gs);
    var indexBytes := FlatMap(EncEntry, index);
    var footer := Footer(|body|, |indexBytes|, rowCount);
    Int64Small(|body|);
    Int64Small(|indexBytes|);
    Int64Small(rowCount);
    assert d == body + indexBytes + EncFooter(footer);
    assert d == p + d[|p|..];
    HeaderExtends(p, d[|p|..]);
    HeaderFirst(d);
    FooterRoundTrip(footer);
    EntriesFit(crc, |p|, gs);
    IndexLoads(index);
    Opens(d, body, indexBytes, footer, index);
  }

  lemma {:induction false} Opens(d: Bytes, body: Bytes, indexBytes: Bytes, footer: Footer, index: seq<IndexEntry>)
    requires d == body + indexBytes + EncFooter(footer) && |d| < TWO63 && |d| >= HEADER_SIZE + FOOTER_SIZE
    requires HeaderOk(d[..HEADER_SIZE])
    requires footer.indexOffset == |body| && footer.indexSize == |indexBytes|
    requires DecFooter(EncFooter(footer)) == footer && LoadIndex(indexBytes) == Some(index)
    ensures OpenTable(d) == Opened(Reader(d, footer, index))
  {
    hide DecFooter, EncFooter, LoadIndex;
    assert |d| >= HEADER_SIZE + FOOTER_SIZE;
    assert d[|d| - FOOTER_SIZE..] == EncFooter(footer);
    assert d[|body|..|body| + |indexBytes|] == indexBytes;
  }

  lemma HeaderExtends(p: Bytes, tail: Bytes)
    requires HeaderOk(p)
    ensures HeaderOk(p + tail) && |p| >= HEADER_SIZE
  {
    assert (p + tail)[..4] == p[..4] && (p + tail)[4..6] == p[4..6];
  }

  lemma HeaderFirst(d: Bytes)
    requires HeaderOk(d)
    ensures HeaderOk(d[..HEADER_SIZE])
  {
    assert d[..HEADER_SIZE][..4] == d[..4] && d[..HEADER_SIZE][4..6] == d[4..6];
  }

  lemma {:induction false} EntriesFit(crc: Checksum, base: nat, gs: seq<Group>)
    requires GroupsFit(gs)
    ensures forall e :: e in Entries(crc, base, gs) ==> |e.entityID| < TWO32
  {
    hide OffsetAt, Int64;
    if gs != [] {
      EntriesFit(crc, base, gs[..|gs| - 1]);
    }
  }

  lemma {:induction false} IndexLoads(index: seq<IndexEntry>)
    requires forall e :: e in index ==> |e.entityID| < TWO32
    ensures LoadIndex(FlatMap(EncEntry, index)) == Some(index)
  {
    if index != [] {
      hide ParseEntry, EncEntry;
      var rest := FlatMap(EncEntry, index[1..]);
      EntryRoundTrip(index[0], rest);
      IndexLoads(index[1..]);
      assert index == [index[0]] + index[1..];
      assert |EncEntry(index[0]) + rest| > 0;
    }
  }

  lemma {:induction false} EntriesAre(crc: Checksum, base: nat, gs: seq<Group>)
    requires GroupsFit(gs)
    ensures var index := Entries(crc, base, gs);
            && |index| == |gs|
            && forall i :: 0 <= i < |gs| ==> index[i] == IndexEntry(gs[i].entityID, Int64(OffsetAt(crc, base, gs, i)))
  {
    if gs != [] {
      hide Int64, OffsetAt;
      var n := |gs| - 1;
      EntriesAre(crc, base, gs[..n]);
      assert gs[n] in gs;
      forall i | 0 <= i < n
        ensures OffsetAt(crc, base, gs[..n], i) == OffsetAt(crc, base, gs, i)
      {
        SameOffset(crc, base, gs, n, i);
      }
    }
  }

  lemma {:induction false} SameOffset(crc: Checksum, base: nat, gs: seq<Group>, n: nat, i: nat)
    requires i <= n <= |gs|
    ensures OffsetAt(crc, base, gs[..n], i) == OffsetAt(crc, base, gs, i)
  {
    hide FlatMap;
    assert gs[..n][..i] == gs[..i];
  }

  // ----- reading one entity -----

  lemma {:induction false} ImageGet(crc: Checksum, p: Bytes, gs: seq<Group>, rowCount: nat, id: Bytes)
    requires HeaderOk(p) && AscendingGroups(gs) && GoodGroups(gs) && GroupsFit(gs)
    requires |Image(crc, p, gs, rowCount)| < TWO63 && rowCount < TWO63
    ensures OpenTable(Image(crc, p, gs, rowCount)).Opened?
    ensures GetRows(crc, OpenTable(Image(crc, p, gs, rowCount)).reader, id) == Some(GroupRows(gs, id))
  {
    hide FlatMap, Entries, IndexAndFooter, HeaderOk, OpenTable, GroupRows, ReadRun, GroupsFit, Image;
    ImageOpens(crc, p, gs, rowCount);
    EntriesAre(crc, |p|, gs);
    var r := OpenTable(Image(crc, p, gs, rowCount)).reader;
    IndexSearch(r.index, gs, id);
    var k := SearchFrom(AtLeast(r.index, id), 0, |r.index|);
    GroupRowsAt(gs, k, id);
    if k < |gs| && gs[k].entityID == id {
      GroupReads(crc, p, gs, rowCount, k);
    }
  }

  lemma {:induction false} IndexSearch(index: seq<IndexEntry>, gs: seq<Group>, id: Bytes)
    requires AscendingGroups(gs) && |index| == |gs|
    requires forall i :: 0 <= i < |gs| ==> index[i].entityID == gs[i].entityID
    ensures var k := SearchFrom(AtLeast(index, id), 0, |index|);
            (forall i :: 0 <= i < k ==> gs[i].entityID != id)
            && (k < |gs| && gs[k].entityID != id ==> forall i :: 0 <= i < |gs| ==> gs[i].entityID != id)
  {
    LessIsStrictOrder();
    hide Less, SearchFrom;
    var f := AtLeast(index, id);
    forall a, b | 0 <= a < b < |index| && f(a)
      ensures f(b)
    {
      assert Less(gs[a].entityID, gs[b].entityID);
    }
    SearchFinds(f, 0, |index|);
    var k := SearchFrom(f, 0, |index|);
    forall i | 0 <= i < k
      ensures gs[i].entityID != id
    {
      assert !f(i);
    }
    if k < |gs| && gs[k].entityID != id {
      assert f(k);
      forall i | k < i < |gs|
        ensures gs[i].entityID != id
      {
        assert Less(gs[k].entityID, gs[i].entityID);
      }
    }
  }

  lemma {:induction false} GroupRowsAt(gs: seq<Group>, k: nat, id: Bytes)
    requires AscendingGroups(gs)
    requires forall i :: 0 <= i < k && i < |gs| ==> gs[i].entityID != id
    requires k < |gs| && gs[k].entityID != id ==> forall i :: 0 <= i < |gs| ==> gs[i].entityID != id
    ensures GroupRows(gs, id) == if k < |gs| && gs[k].entityID == id then gs[k].rows else []
  {
    if gs != [] {
      var n := |gs| - 1;
      assert forall i :: 0 <= i < n ==> gs[..n][i] == gs[i];
      if k < n && gs[k].entityID == id {
        assert Less(gs[k].entityID, gs[n].entityID);
        LessAsymmetric(gs[k].entityID, gs[n].entityID);
      }
      GroupRowsAt(gs[..n], if k <= n then k else n, id);
    }
  }

  lemma {:induction false} GroupReads(crc: Checksum, p: Bytes, gs: seq<Group>, rowCount: nat, k: nat)
    requires GoodGroups(gs) && GroupsFit(gs) && k < |gs|
    requires |Image(crc, p, gs, rowCount)| < TWO63
    ensures var next := if k + 1 < |gs| then Int64(OffsetAt(crc, |p|, gs, k + 1)) else |p + FlatMap(GroupEncoder(crc), gs)|;
            ReadRun(crc, Image(crc, p, gs, rowCount), Int64(OffsetAt(crc, |p|, gs, k)), next, gs[k].entityID) == Some(gs[k].rows)
  {
    hide FlatMap, ReadRun, GoodGroups, GroupsFit, Entries, Int64, FitsRow;
    var f := GroupEncoder(crc);
    var d := Image(crc, p, gs, rowCount);
    FlatMapSplit(f, gs, k);
    assert gs == gs[..k + 1] + gs[k + 1..];
    FlatMapAppend(f, gs[..k + 1], gs[k + 1..]);
    FlatMapWhole(f, gs);
    var start := OffsetAt(crc, |p|, gs, k);
    Int64Small(start);
    Int64Small(OffsetAt(crc, |p|, gs, k + 1));
    var rest := d[start + |f(gs[k])|..];
    assert d[start..] == f(gs[k]) + rest;
    assert k + 1 == |gs| ==> gs[..k + 1] == gs;
    GroupFacts(gs, k);
    RunReads(crc, d, start, start + |f(gs[k])|, gs[k].rows, rest, gs[k].entityID);
  }

  lemma GroupFacts(gs: seq<Group>, k: nat)
    requires GoodGroups(gs) && GroupsFit(gs) && k < |gs|
    ensures forall r :: r in gs[k].rows ==> r.entityID == gs[k].entityID && FitsRow(r)
  {
    assert gs[k] in gs;
  }

  lemma {:induction false} RunReads(crc: Checksum, d: Bytes, start: nat, end: nat, rows: seq<Row>, rest: Bytes,
          id: Bytes)
    requires start <= |d| && d[start..] == FlatMap(RowEncoder(crc), rows) + rest
    requires end == start + |FlatMap(RowEncoder(crc), rows)|
    requires forall r :: r in rows ==> r.entityID == id && FitsRow(r)
    ensures ReadRun(crc, d, start, end, id) == Some(rows)
    decreases |rows|
  {
    hide EncRow, ReadRun, ReadRowSpec, FitsRow, FlatMap;
    if rows == [] {
      RunNone(crc, d, start, end, id);
    } else {
      var bytes, more := EncRow(crc, rows[0]), FlatMap(RowEncoder(crc), rows[1..]);
      assert rows[0] in rows && rows == [rows[0]] + rows[1..];
      FlatMapAppend(RowEncoder(crc), [rows[0]], rows[1..]);
      OneRow(crc, rows[0]);
      assert FlatMap(RowEncoder(crc), rows) == bytes + more;
      Assoc(d[start..], bytes, more, rest);
      FirstRowReads(crc, d, start, rows[0], more + rest);
      RunReads(crc, d, start + |bytes|, end, rows[1..], rest, id);
      RunFirst(crc, d, start, end, id);
    }
  }

  lemma {:induction false} RunNone(crc: Checksum, d: Bytes, start: nat, end: nat, id: Bytes)
    requires end == start + |FlatMap(RowEncoder(crc), [])|
    ensures ReadRun(crc, d, start, end, id) == Some([])
  {
    hide ReadRowSpec;
  }

  lemma Assoc(d: Bytes, a: Bytes, b: Bytes, c: Bytes)
    requires d == a + b + c
    ensures d == a + (b + c)
  {
  }

  lemma {:induction false} RunFirst(crc: Checksum, d: Bytes, start: int, end: int, id: Bytes)
    requires start < end && ReadRowSpec(crc, d, start).Some?
    requires ReadRowSpec(crc, d, start).value.0.entityID == id
    requires ReadRun(crc, d, ReadRowSpec(crc, d, start).value.1, end, id).Some?
    ensures ReadRun(crc, d, start, end, id)
         == Some([ReadRowSpec(crc, d, start).value.0] + ReadRun(crc, d, ReadRowSpec(crc, d, start).value.1, end, id).value)
  {
    hide ReadRowSpec;
  }

  lemma {:induction false} FirstRowReads(crc: Checksum, d: Bytes, start: nat, row: Row, rest: Bytes)
    requires start <= |d| && d[start..] == EncRow(crc, row) + rest && FitsRow(row)
    ensures start + |EncRow(crc, row)| <= |d| && d[start + |EncRow(crc, row)|..] == rest
    ensures ReadRowSpec(crc, d, start) == Some((row, start + |EncRow(crc, row)|))
  {
    hide EncRow, ParseRow, FitsRow;
    RowRoundTrip(crc, row, rest);
    assert d[start..][|EncRow(crc, row)|..] == d[start + |EncRow(crc, row)|..];
  }

  // ----- from groups back to rows -----

  lemma {:induction false} GroupsKeepRows(rows: seq<Row>)
    ensures forall id :: RowsOf(rows, id) == GroupRows(GroupsOf(rows), id)
    ensures forall g, r :: g in GroupsOf(rows) && r in g.rows ==> r in rows
  {
    if rows != [] {
      var n := |rows| - 1;
      var gs := GroupsOf(rows[..n]);
      GroupsKeepRows(rows[..n]);
      forall id
        ensures RowsOf(rows, id) == GroupRows(GroupsOf(rows), id)
      {
        assert RowsOf(rows[..n], id) == GroupRows(gs, id);
        AddRowRows(gs, rows[n], id);
      }
      AddRowMembers(rows[..n], gs, rows[n]);
      assert rows == rows[..n] + [rows[n]];
    }
  }

  lemma AddRowRows(gs: seq<Group>, row: Row, id: Bytes)
    ensures GroupRows(AddRow(gs, row), id) == GroupRows(gs, id) + (if row.entityID == id then [row] else [])
  {
    var r := AddRow(gs, row);
    if gs != [] && gs[|gs| - 1].entityID == row.entityID {
      assert r[..|gs| - 1] == gs[..|gs| - 1];
    } else {
      assert r[..|gs|] == gs;
    }
  }

  lemma AddRowMembers(rows: seq<Row>, gs: seq<Group>, row: Row)
    requires forall g, r :: g in gs && r in g.rows ==> r in rows
    ensures forall g, r :: g in AddRow(gs, row) && r in g.rows ==> r in rows + [row]
  {
    var more := AddRow(gs, row);
    assert forall g :: g in more ==> g in gs || g == more[|more| - 1];
    assert row in rows + [row];
  }

  lemma GroupRowsFit(gs: seq<Group>, rows: seq<Row>)
    requires GoodGroups(gs) && forall g, r :: g in gs && r in g.rows ==> r in rows
    requires forall r :: r in rows ==> FitsRow(r)
    ensures forall g :: g in gs ==> |g.entityID| < TWO32 && forall r :: r in g.rows ==> FitsRow(r)
  {
    forall g | g in gs
      ensures |g.entityID| < TWO32
    {
      var r := g.rows[0];
      assert r in g.rows && r in rows;
    }
  }

  lemma {:induction false} GroupRowsTail(gs: seq<Group>, id: Bytes)
    requires gs != [] && gs[0].entityID != id
    ensures GroupRows(gs[1..], id) == GroupRows(gs, id)
  {
    var n := |gs| - 1;
    if n > 0 {
      GroupRowsTail(gs[..n], id);
      assert gs[1..][..n - 1] == gs[..n][1..];
    }
  }

  lemma {:induction false} SkipEmptyGroup(crc: Checksum, gs: seq<Group>)
    requires gs != [] && gs[0].entityID == []
    ensures Entries(crc, HEADER_SIZE, gs) == Entries(crc, HEADER_SIZE + |EncGroup(crc, gs[0])|, gs[1..])
    ensures FlatMap(GroupEncoder(crc), gs) == EncGroup(crc, gs[0]) + FlatMap(GroupEncoder(crc), gs[1..])
  {
    hide EncGroup;
    SkipEmptyEntries(crc, gs);
  }

  lemma {:induction false} SkipEmptyEntries(crc: Checksum, gs: seq<Group>)
    requires gs != [] && gs[0].entityID == []
    ensures Entries(crc, HEADER_SIZE, gs) == Entries(crc, HEADER_SIZE + |EncGroup(crc, gs[0])|, gs[1..])
  {
    hide EncGroup, Int64;
    var n := |gs| - 1;
    if n == 0 {
      assert gs[..n] == [];
    } else {
      SkipEmptyEntries(crc, gs[..n]);
      assert gs[1..][..n - 1] == gs[..n][1..];
      assert FlatMap(GroupEncoder(crc), gs[..n]) == EncGroup(crc, gs[0]) + FlatMap(GroupEncoder(crc), gs[..n][1..]);
    }
  }

  lemma {:induction false} ManyRowsFit(crc: Checksum, rows: seq<Row>)
    requires |TableBytes(crc, rows)| < TWO63
    ensures |rows| < TWO63
  {
    hide EncRow, Entries, GroupsOf, EncHeader;
    RowsTakeSpace(crc, rows);
  }

  lemma {:induction false} RowsTakeSpace(crc: Checksum, rows: seq<Row>)
    ensures |rows| <= |FlatMap(RowEncoder(crc), rows)|
  {
    if rows != [] {
      RowsTakeSpace(crc, rows[1..]);
    }
  }

  lemma NoEmptyGroup(gs: seq<Group>)
    requires AscendingGroups(gs)
    ensures forall i :: 0 < i < |gs| ==> gs[i].entityID != []
  {
    forall i | 0 < i < |gs|
      ensures gs[i].entityID != []
    {
      assert Less(gs[0].entityID, gs[i].entityID);
    }
  }

  lemma {:induction false} NamedGroupsCover(gs: seq<Group>, rows: seq<Row>)
    requires AscendingGroups(gs) && GoodGroups(gs) && GroupsFit(gs)
    requires forall id :: id != [] ==> GroupRows(gs, id) == RowsOf(rows, id)
    ensures GroupIDs(gs) == Listing(IndexedIDs(rows))
    ensures forall id :: GroupRows(gs, id) == if id == [] then [] else RowsOf(rows, id)
  {
    hide Listing, Less, GroupRows, RowsOf;
    var ids := GroupIDs(gs);
    forall id
      ensures id in Elements(ids) <==> id in IndexedIDs(rows)
      ensures id == [] ==> GroupRows(gs, id) == []
    {
      GroupRowsNonempty(gs, id);
      RowsOfNonempty(rows, id);
      assert id in Elements(ids) ==> id != [];
    }
    AscendingUnique(ids, Listing(IndexedIDs(rows)));
  }

  lemma {:induction false} GroupRowsNonempty(gs: seq<Group>, id: Bytes)
    requires GoodGroups(gs)
    ensures GroupRows(gs, id) != [] <==> id in Elements(GroupIDs(gs))
  {
    if gs != [] {
      var n := |gs| - 1;
      GroupRowsNonempty(gs[..n], id);
      assert gs[n] in gs;
      assert id in GroupIDs(gs) <==> id in GroupIDs(gs[..n]) || id == gs[n].entityID;
    }
  }

  lemma {:induction false} RowsOfNonempty(rows: seq<Row>, id: Bytes)
    ensures RowsOf(rows, id) != [] <==> exists r :: r in rows && r.entityID == id
  {
    if rows != [] {
      var n := |rows| - 1;
      RowsOfNonempty(rows[..n], id);
      assert rows == rows[..n] + [rows[n]];
      assert rows[n] in rows;
      assert forall r :: r in rows <==> r in rows[..n] || r == rows[n];
    }
  }
}
