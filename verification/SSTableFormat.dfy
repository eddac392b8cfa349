/** core/storage/sstable/format.go: the byte layout of headers, rows, index entries and footers. */
module SSTableFormat {
  import opened Prelude

  const MAGIC: U32 := 0x53535442
  const VERSION := 1
  const HEADER_SIZE := 16
  const FOOTER_SIZE := 24

  // The row's CRC32 field lives in the encoding only; the checksum is a parameter of everything below.
  datatype Row = Row(rowType: byte, entityID: Bytes, data: Bytes)
  datatype Footer = Footer(indexOffset: I64, indexSize: I64, rowCount: I64)
  datatype IndexEntry = IndexEntry(entityID: Bytes, offset: I64)

  type Checksum = Bytes -> U32

  /** int64(n) for a count that Go keeps in an int64. */
  function Int64(n: nat): I64 {
    ToI64(n % TWO64)
  }

  // ----- header -----

  function EncHeader(): (b: Bytes)
    ensures |b| == HEADER_SIZE
  {
    EncU32(MAGIC) + LE(VERSION, 2) + LE(0, 2) + EncU64(HEADER_SIZE)
  }

  /** DecodeHeader accepts exactly the data that starts with the magic number and the version. */
  predicate HeaderOk(d: Bytes) {
    && |d| >= HEADER_SIZE
    && U32At(d[..4]) == MAGIC
    && UnLE(d[4..6]) == VERSION
  }

  lemma {:induction false} HeaderAccepted(tail: Bytes)
    ensures HeaderOk(EncHeader() + tail)
  {
    hide LE, EncU32, EncU64, U32At;
    var t2 := LE(0, 2) + EncU64(HEADER_SIZE) + tail;
    var t1 := LE(VERSION, 2) + t2;
    var d := EncHeader() + tail;
    assert d == EncU32(MAGIC) + t1;
    U32RoundTrip(MAGIC, t1);
    VersionRoundTrip();
    assert d[4..6] == t1[..2] == LE(VERSION, 2);
  }

  lemma VersionRoundTrip()
    ensures UnLE(LE(VERSION, 2)) == VERSION
  {
    assert Pow256(2) == 65536;
    LERoundTrip(VERSION, 2);
  }

  // ----- footer -----

  function EncFooter(f: Footer): (b: Bytes)
    ensures |b| == FOOTER_SIZE
  {
    EncU64(ToU64(f.indexOffset)) + (EncU64(ToU64(f.indexSize)) + EncU64(ToU64(f.rowCount)))
  }

  function DecFooter(d: Bytes): Footer
    requires |d| == FOOTER_SIZE
  {
    Footer(ToI64(U64At(d[0..8])), ToI64(U64At(d[8..16])), ToI64(U64At(d[16..24])))
  }

  lemma {:induction false} FooterRoundTrip(f: Footer)
    ensures DecFooter(EncFooter(f)) == f
  {
    hide EncU64, U64At;
    var a, b, c := ToU64(f.indexOffset), ToU64(f.indexSize), ToU64(f.rowCount);
    var d := EncFooter(f);
    U64RoundTrip(a, EncU64(b) + EncU64(c));
    U64RoundTrip(b, EncU64(c));
    U64RoundTrip(c, []);
    assert d[0..8] == d[..8];
    assert d[8..16] == (EncU64(b) + EncU64(c))[..8];
    assert d[16..24] == (EncU64(c) + [])[..8];
  }

  // ----- index entries -----

  function EncEntry(e: IndexEntry): (b: Bytes)
    ensures |b| == 12 + |e.entityID|
  {
    EncStr(e.entityID) + EncU64(ToU64(e.offset))
  }

  function ParseEntry(d: Bytes): (r: Option<(IndexEntry, Bytes)>)
    ensures r.Some? ==> 12 + |r.value.0.entityID| + |r.value.1| == |d|
  {
    var (id, d1) :- ParseStr(d);
    var (offset, d2) :- ParseU64(d1);
    Some((IndexEntry(id, ToI64(offset)), d2))
  }

  /** An index entry reads back exactly when its id's length fits. */
  lemma {:induction false} EntryRoundTrip(e: IndexEntry, tail: Bytes)
    ensures ParseEntry(EncEntry(e) + tail) == Some((e, tail)) <==> |e.entityID| < TWO32
  {
    hide EncStr, ParseStr, EncU64, ParseU64;
    if |e.entityID| < TWO32 {
      StrRoundTrip(e.entityID, EncU64(ToU64(e.offset)) + tail);
      ParseU64RoundTrip(ToU64(e.offset), tail);
      assert EncEntry(e) + tail == EncStr(e.entityID) + (EncU64(ToU64(e.offset)) + tail);
    }
  }

  // ----- rows -----

  /** What the checksum covers: everything but the checksum. */
  function RowBody(r: Row): (b: Bytes)
    ensures |b| == 9 + |r.entityID| + |r.data|
  {
    [r.rowType] + (EncStr(r.entityID) + EncStr(r.data))
  }

  function EncRow(crc: Checksum, r: Row): (b: Bytes)
    ensures |b| == 13 + |r.entityID| + |r.data|
  {
    RowBody(r) + EncU32(crc(RowBody(r)))
  }

  function RowEncoder(crc: Checksum): Row -> Bytes {
    (r: Row) => EncRow(crc, r)
  }

  /** Decodes one row; None when the data is too short or the checksum does not match. */
  function ParseRow(crc: Checksum, d: Bytes): (r: Option<(Row, Bytes)>)
    ensures r.Some? ==> 13 + |r.value.0.entityID| + |r.value.0.data| + |r.value.1| == |d|
  {
    if |d| < 5 then None
    else
      var (id, d1) :- ParseStr(d[1..]);
      var (data, d2) :- ParseStr(d1);
      var (sum, d3) :- ParseU32(d2);
      var row := Row(d[0], id, data);
      if sum != crc(RowBody(row)) then None else Some((row, d3))
  }

  predicate FitsRow(r: Row) {
    |r.entityID| < TWO32 && |r.data| < TWO32
  }

  /** Whatever the checksum function, a row reads back from its encoding exactly when its lengths fit. */
  lemma {:induction false} RowRoundTrip(crc: Checksum, r: Row, tail: Bytes)
    ensures ParseRow(crc, EncRow(crc, r) + tail) == Some((r, tail)) <==> FitsRow(r)
  {
    if FitsRow(r) {
      hide EncStr, ParseStr, EncU32, ParseU32;
      var t2 := EncU32(crc(RowBody(r))) + tail;
      var t1 := EncStr(r.data) + t2;
      var d := EncRow(crc, r) + tail;
      assert d == [r.rowType] + (EncStr(r.entityID) + t1);
      assert d[1..] == EncStr(r.entityID) + t1;
      StrRoundTrip(r.entityID, t1);
      StrRoundTrip(r.data, t2);
      ParseU32RoundTrip(crc(RowBody(r)), tail);
    } else {
      hide EncRow, RowBody;
    }
  }
}
