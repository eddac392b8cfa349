/** core/storage/sstable/reader.go: opening a file image, binary search in its index, and reading runs of rows. */
module SSTableReader {
  import opened Prelude
  import opened SSTableFormat
  import opened SSTableWriter

  /** NewReader's outcomes; slicing past the end after an int64 wrap-around would panic. */
  datatype OpenResult = Opened(reader: Reader) | Rejected | Panicked

  datatype Reader = Reader(data: Bytes, footer: Footer, index: seq<IndexEntry>) {

    static method NewReader(data: Bytes) returns (r: OpenResult)
      ensures r == OpenTable(data)
    {
      if |data| < HEADER_SIZE + FOOTER_SIZE || !HeaderOk(data[0..HEADER_SIZE]) {
        return Rejected;
      }
      var footerStart := |data| - FOOTER_SIZE;
      var footer := DecFooter(data[footerStart..]);
      if footer.indexOffset < 0 || footer.indexOffset >= |data| {
        return Rejected;
      }
      var indexEnd := AddInt64(footer.indexOffset, footer.indexSize);
      if footer.indexSize < 0 || indexEnd > |data| {
        return Rejected;
      }
      if indexEnd < footer.indexOffset {
        return Panicked;
      }
      var index := LoadIndexLoop(data[footer.indexOffset..indexEnd]);
      if index == None {
        return Rejected;
      }
      return Opened(Reader(data, footer, index.value));
    }

    static method LoadIndexLoop(indexData: Bytes) returns (r: Option<seq<IndexEntry>>)
      ensures r == LoadIndex(indexData)
    {
      var index: seq<IndexEntry> := [];
      var offset: nat := 0;
      assert indexData[0..] == indexData;
      assert Prepend([], LoadIndex(indexData)) == LoadIndex(indexData) by {
        if LoadIndex(indexData).Some? {
          assert [] + LoadIndex(indexData).value == LoadIndex(indexData).value;
        }
      }
      while offset < |indexData|
        invariant offset <= |indexData|
        invariant LoadIndex(indexData) == Prepend(index, LoadIndex(indexData[offset..]))
        decreases |indexData| - offset
      {
        hide ParseEntry;
        var entry, next := DecodeIndexEntry(indexData, offset);
        PrependStep(index, indexData[offset..]);
        if entry == None {
          return None;
        }
        offset := next;
        index := index + [entry.value];
      }
      assert index + [] == index;
      return Some(index);
    }

    static method DecodeIndexEntry(data: Bytes, offset: nat) returns (r: Option<IndexEntry>, next: nat)
      requires offset <= |data|
      ensures match ParseEntry(data[offset..])
              case None => r == None
              case Some((e, rest)) => r == Some(e) && offset < next <= |data| && rest == data[next..]
    {
      hide ParseStr, ParseU64;
      var id, rowOffset;
      id, next := ReadStr(data, offset);
      if id == None { return None, next; }
      rowOffset, next := ReadU64(data, next);
      if rowOffset == None { return None, next; }
      return Some(IndexEntry(id.value, ToI64(rowOffset.value))), next;
    }

    /** All rows of an entity, or None when a row of its run cannot be read. */
    method Get(crc: Checksum, entityID: Bytes) returns (rows: Option<seq<Row>>)
      ensures rows == GetRows(crc, this, entityID)
    {
      hide ReadRun, ReadRowSpec, AtLeast, SearchFrom;
      var idx := Search(|index|, AtLeast(index, entityID));
      if idx >= |index| || index[idx].entityID != entityID {
        return Some([]);
      }
      var offset := index[idx].offset;
      var endOffset := if idx + 1 < |index| then index[idx + 1].offset else footer.indexOffset;
      var acc: seq<Row> := [];
      var currentOffset: int := offset;
      PrependNothing(ReadRun(crc, data, offset, endOffset, entityID));
      while currentOffset < endOffset
        invariant ReadRun(crc, data, offset, endOffset, entityID) == PrependRows(acc, ReadRun(crc, data, currentOffset, endOffset, entityID))
        decreases endOffset - currentOffset
      {
        hide PrependRows;
        var row, nextOffset := ReadRowAt(crc, currentOffset);
        RunStep(crc, data, currentOffset, endOffset, entityID, acc);
        if row == None {
          return None;
        }
        if row.value.entityID != entityID {
          return Some(acc);
        }
        acc := acc + [row.value];
        currentOffset := nextOffset;
      }
      RunEnds(crc, data, currentOffset, endOffset, entityID, acc);
      return Some(acc);
    }

    method ReadRowAt(crc: Checksum, offset: int) returns (row: Option<Row>, nextOffset: int)
      ensures match ReadRowSpec(crc, data, offset)
              case None => row == None
              case Some((r, next)) => row == Some(r) && nextOffset == next
    {
      hide ParseStr, ParseU32, RowBody;
      nextOffset := 0;
      if offset < 0 || offset >= |data| { return None, 0; }
      var d := data[offset..];
      if |d| < 1 + 4 { return None, 0; }
      var rowType := d[0];
      var id, rowData, sum; var currentOffset: nat;
      id, currentOffset := ReadStr(d, 1);
      if id == None { return None, 0; }
      rowData, currentOffset := ReadStr(d, currentOffset);
      if rowData == None { return None, 0; }
      sum, currentOffset := ReadU32(d, currentOffset);
      if sum == None { return None, 0; }
      var r := Row(rowType, id.value, rowData.value);
      if sum.value != crc(RowBody(r)) { return None, 0; }
      return Some(r), offset + currentOffset;
    }

    method GetAllEntityIDs() returns (ids: seq<Bytes>)
      ensures ids == IDs(index)
    {
      ids := [];
      for i := 0 to |index|
        invariant ids == IDs(index[..i])
      {
        assert index[..i + 1][..i] == index[..i];
        ids := ids + [index[i].entityID];
      }
      assert index[..|index|] == index;
    }

    function RowCount(): I64 {
      footer.rowCount
    }
  }

  // ----- what the loops compute -----

  function AddInt64(a: I64, b: I64): I64 {
    if a + b >= TWO63 then a + b - TWO64 else if a + b < -TWO63 then a + b + TWO64 else a + b
  }

  function OpenTable(d: Bytes): OpenResult {
    if |d| < HEADER_SIZE + FOOTER_SIZE || !HeaderOk(d[..HEADER_SIZE]) then Rejected
    else
      var footer := DecFooter(d[|d| - FOOTER_SIZE..]);
      var end := AddInt64(footer.indexOffset, footer.indexSize);
      if footer.indexOffset < 0 || footer.indexOffset >= |d| || footer.indexSize < 0 || end > |d| then Rejected
      else if end < footer.indexOffset then Panicked
      else
        match LoadIndex(d[footer.indexOffset..end])
        case None => Rejected
        case Some(index) => Opened(Reader(d, footer, index))
  }

  /** Opening a file panics exactly when its header passes and its footer points into the file with an index size whose
      end exceeds the 64-bit range: the sum wraps to a negative number, which passes the bounds checks. */
  lemma {:induction false} PanicsExactly(d: Bytes)
    ensures OpenTable(d).Panicked? <==>
              && |d| >= HEADER_SIZE + FOOTER_SIZE && HeaderOk(d[..HEADER_SIZE])
              && var footer := DecFooter(d[|d| - FOOTER_SIZE..]);
                 0 <= footer.indexOffset < |d| && footer.indexSize >= TWO63 - footer.indexOffset
  {
    hide HeaderOk, DecFooter, LoadIndex;
  }

  /** Forty bytes that panic: a header and a footer, and an index size one short of 2^63. */
  lemma {:induction false} PanickingFile()
    ensures OpenTable(EncHeader() + EncFooter(Footer(HEADER_SIZE, TWO63 - 1, 0))).Panicked?
  {
    hide HeaderOk, DecFooter, EncHeader, EncFooter, LoadIndex;
    var f := Footer(HEADER_SIZE, TWO63 - 1, 0);
    var d := EncHeader() + EncFooter(f);
    HeaderAccepted([]);
    assert d[..HEADER_SIZE] == EncHeader() + [] && d[|d| - FOOTER_SIZE..] == EncFooter(f);
    FooterRoundTrip(f);
    PanicsExactly(d);
  }

  function LoadIndex(d: Bytes): Option<seq<IndexEntry>> {
    if d == [] then Some([])
    else
      var (e, rest) :- ParseEntry(d);
      Prepend([e], LoadIndex(rest))
  }

  function Prepend(xs: seq<IndexEntry>, r: Option<seq<IndexEntry>>): Option<seq<IndexEntry>> {
    if r == None then None else Some(xs + r.value)
  }

  lemma PrependStep(xs: seq<IndexEntry>, d: Bytes)
    requires d != []
    ensures match ParseEntry(d)
            case None => Prepend(xs, LoadIndex(d)) == None
            case Some((e, rest)) => Prepend(xs, LoadIndex(d)) == Prepend(xs + [e], LoadIndex(rest))
  {
    if ParseEntry(d).Some? {
      var (e, rest) := ParseEntry(d).value;
      if LoadIndex(rest).Some? {
        assert xs + ([e] + LoadIndex(rest).value) == xs + [e] + LoadIndex(rest).value;
      }
    }
  }

  function AtLeast(index: seq<IndexEntry>, id: Bytes): int -> bool {
    i => 0 <= i < |index| && !Less(index[i].entityID, id)
  }

  function ReadRowSpec(crc: Checksum, data: Bytes, offset: int): (r: Option<(Row, int)>)
    ensures r.Some? ==> r.value.1 > offset
  {
    if offset < 0 || offset >= |data| then None
    else
      var (row, rest) :- ParseRow(crc, data[offset..]);
      Some((row, |data| - |rest|))
  }

  /** The rows from offset up to end, stopping early at another entity's row. */
  function ReadRun(crc: Checksum, data: Bytes, offset: int, end: int, id: Bytes): Option<seq<Row>>
    decreases end - offset
  {
    if offset >= end then Some([])
    else
      var (row, next) :- ReadRowSpec(crc, data, offset);
      if row.entityID != id then Some([])
      else PrependRows([row], ReadRun(crc, data, next, end, id))
  }

  function PrependRows(xs: seq<Row>, r: Option<seq<Row>>): Option<seq<Row>> {
    if r == None then None else Some(xs + r.value)
  }

  lemma PrependNothing(r: Option<seq<Row>>)
    ensures PrependRows([], r) == r
  {
    if r.Some? {
      assert [] + r.value == r.value;
    }
  }

  lemma RunEnds(crc: Checksum, data: Bytes, offset: int, end: int, id: Bytes, acc: seq<Row>)
    requires offset >= end
    ensures PrependRows(acc, ReadRun(crc, data, offset, end, id)) == Some(acc)
  {
    assert acc + [] == acc;
  }

  lemma {:induction false} RunStep(crc: Checksum, data: Bytes, offset: int, end: int, id: Bytes, acc: seq<Row>)
    requires offset < end
    ensures var whole := PrependRows(acc, ReadRun(crc, data, offset, end, id));
            match ReadRowSpec(crc, data, offset)
            case None => whole == None
            case Some((row, next)) =>
              if row.entityID != id then whole == Some(acc)
              else whole == PrependRows(acc + [row], ReadRun(crc, data, next, end, id))
  {
    hide ReadRowSpec;
    assert acc + [] == acc;
    if ReadRowSpec(crc, data, offset).Some? {
      var (row, next) := ReadRowSpec(crc, data, offset).value;
      var r := ReadRun(crc, data, next, end, id);
      if r.Some? {
        assert acc + ([row] + r.value) == acc + [row] + r.value;
      }
    }
  }

  function GetRows(crc: Checksum, r: Reader, id: Bytes): Option<seq<Row>> {
    var k := SearchFrom(AtLeast(r.index, id), 0, |r.index|);
    if k >= |r.index| || r.index[k].entityID != id then Some([])
    else ReadRun(crc, r.data, r.index[k].offset, if k + 1 < |r.index| then r.index[k + 1].offset else r.footer.indexOffset, id)
  }

  lemma {:induction false} RunOfID(crc: Checksum, data: Bytes, offset: int, end: int, id: Bytes)
    ensures var r := ReadRun(crc, data, offset, end, id); r.Some? ==> forall row :: row in r.value ==> row.entityID == id
    decreases end - offset
  {
    hide ReadRowSpec;
    if offset < end && ReadRowSpec(crc, data, offset).Some? {
      RunOfID(crc, data, ReadRowSpec(crc, data, offset).value.1, end, id);
    }
  }

  /** Whatever bytes a table holds, the rows read for an id carry that id. */
  lemma {:induction false} RowsCarryID(crc: Checksum, r: Reader, id: Bytes)
    ensures GetRows(crc, r, id).Some? ==> forall row :: row in GetRows(crc, r, id).value ==> row.entityID == id
  {
    hide ReadRun, SearchFrom, AtLeast;
    var k := SearchFrom(AtLeast(r.index, id), 0, |r.index|);
    if k < |r.index| {
      RunOfID(crc, r.data, r.index[k].offset, if k + 1 < |r.index| then r.index[k + 1].offset else r.footer.indexOffset,
        id);
    }
  }

  function IDs(index: seq<IndexEntry>): (ids: seq<Bytes>)
    ensures |ids| == |index| && forall i :: 0 <= i < |ids| ==> ids[i] == index[i].entityID
  {
    if index == [] then [] else IDs(index[..|index| - 1]) + [index[|index| - 1].entityID]
  }
}
