/** The byte formats of core/storage told from the bytes: what exactly is accepted, and what it then says. */
module ByteLaws {
  import opened Prelude
  import opened SSTableFormat
  import opened SSTableReader
  import opened SSTableRoundTrip
  import opened Compaction
  import Wal

  // ----- strings and integers -----

  /** The order of Go strings: a proper prefix comes first, and otherwise the first differing byte decides. */
  lemma {:induction false} LessMeans(a: Bytes, b: Bytes)
    ensures Less(a, b) <==>
              || (|a| < |b| && a == b[..|a|])
              || exists i :: 0 <= i < |a| && i < |b| && a[..i] == b[..i] && a[i] < b[i]
  {
    if a != [] && b != [] && a[0] == b[0] {
      LessMeans(a[1..], b[1..]);
      assert a == [a[0]] + a[1..] && b == [b[0]] + b[1..];
      assert |a| < |b| ==> (a == b[..|a|] <==> a[1..] == b[1..][..|a[1..]|]) by {
        if |a| < |b| {
          assert b[..|a|] == [b[0]] + b[1..][..|a[1..]|];
        }
      }
      forall i | 0 < i < |a| && i < |b|
        ensures a[..i] == b[..i] <==> a[1..][..i - 1] == b[1..][..i - 1]
        ensures a[i] == a[1..][i - 1] && b[i] == b[1..][i - 1]
      {
        assert a[..i] == [a[0]] + a[1..][..i - 1] && b[..i] == [b[0]] + b[1..][..i - 1];
      }
      if i :| 0 <= i < |a| && i < |b| && a[..i] == b[..i] && a[i] < b[i] {
        assert a[1..][..i - 1] == b[1..][..i - 1] && a[1..][i - 1] < b[1..][i - 1];
      }
      if i :| 0 <= i < |a[1..]| && i < |b[1..]| && a[1..][..i] == b[1..][..i] && a[1..][i] < b[1..][i] {
        assert a[..i + 1] == b[..i + 1] && a[i + 1] < b[i + 1];
      }
    } else if a != [] && b != [] {
      assert a[..0] == b[..0];
      forall i | 0 < i < |a| && i < |b|
        ensures a[..i] != b[..i]
      {
        assert a[..i][0] == a[0] && b[..i][0] == b[0];
      }
      if |a| < |b| {
        assert b[..|a|][0] == b[0];
      }
    }
  }

  /** Integers are written least significant byte first, 32-bit ones modulo 2^32. */
  lemma {:induction false} LittleEndian(n: nat)
    ensures EncU32(n) == [n % 0x100, n / 0x100 % 0x100, n / 0x1_0000 % 0x100, n / 0x100_0000 % 0x100]
  {
    assert LE(n / 0x100_0000, 1) == [n / 0x100_0000 % 0x100] + LE(n / 0x100_0000 / 0x100, 0);
    assert LE(n / 0x1_0000, 2) == [n / 0x1_0000 % 0x100] + LE(n / 0x100_0000, 1);
    assert LE(n / 0x100, 3) == [n / 0x100 % 0x100] + LE(n / 0x1_0000, 2);
  }

  /** 64-bit ones as their low and then their high half. */
  lemma {:induction false} LittleEndian64(n: U64)
    ensures EncU64(n) == EncU32(n) + EncU32(n / TWO32)
  {
    LESplits(n, 4, 4);
    DropsFour(n);
  }

  /** n without its j low bytes. */
  function Dropped(n: nat, j: nat): nat {
    if j == 0 then n else Dropped(n / 256, j - 1)
  }

  lemma DropsFour(n: nat)
    ensures Dropped(n, 4) == n / TWO32
  {
    var a := n / 256;
    var b := a / 256;
    var c := b / 256;
    assert Dropped(c, 1) == Dropped(c / 256, 0) == c / 256;
    assert Dropped(b, 2) == Dropped(c, 1) && Dropped(a, 3) == Dropped(b, 2) && Dropped(n, 4) == Dropped(a, 3);
  }

  lemma {:induction false} LESplits(n: nat, j: nat, k: nat)
    ensures LE(n, j + k) == LE(n, j) + LE(Dropped(n, j), k)
  {
    if j > 0 {
      LESplits(n / 256, j - 1, k);
    }
  }

  lemma {:induction false} U32Parsed(d: Bytes)
    requires ParseU32(d).Some?
    ensures d == EncU32(ParseU32(d).value.0) + ParseU32(d).value.1
  {
    LEInverse(d[..4]);
  }

  // ----- rows and log entries -----

  /** Only bytes that encode a row are read as one: the stored checksum is that of the row. */
  lemma {:induction false} RowParsed(crc: Checksum, d: Bytes)
    requires ParseRow(crc, d).Some?
    ensures var (r, rest) := ParseRow(crc, d).value; d == EncRow(crc, r) + rest && FitsRow(r)
  {
    hide EncStr, ParseStr, EncU32, ParseU32;
    var (id, d1) := ParseStr(d[1..]).value;
    var (data, d2) := ParseStr(d1).value;
    StrParsed(d[1..]);
    StrParsed(d1);
    U32Parsed(d2);
    assert d == [d[0]] + d[1..];
  }

  /** Only bytes that frame a payload are read as a log entry. */
  lemma {:induction false} EntryParsed(crc: Checksum, d: Bytes)
    requires Wal.ReadEntry(crc, d).Entry?
    ensures var e := Wal.ReadEntry(crc, d); d == Wal.Frame(crc, e.data) + e.rest && |e.data| < TWO32
  {
    hide EncU32, ParseU32;
    var (length, d1) := ParseU32(d).value;
    var (sum, d2) := ParseU32(d1).value;
    U32Parsed(d);
    U32Parsed(d1);
    assert d2 == d2[..length] + d2[length..];
  }

  // ----- table files -----

  // "BTSS", the magic number in little-endian order, and version 1
  const START: Bytes := [0x42, 0x54, 0x53, 0x53, 1, 0]

  lemma {:induction false} StartMeans(d: Bytes)
    ensures HeaderOk(d) <==> |d| >= 16 && d[..6] == START
  {
    if |d| >= 16 {
      LEInverse(d[..4]);
      LEInverse(d[4..6]);
      LittleEndian(MAGIC);
      assert LE(VERSION, 2) == [1, 0] by {
        assert LE(1, 2) == [1] + LE(0, 1);
      }
      assert d[..6] == d[..4] + d[4..6] && START == START[..4] + START[4..6];
      assert START[..4] == EncU32(MAGIC) && START[4..6] == LE(VERSION, 2);
      VersionRoundTrip();
      U32RoundTrip(MAGIC, []);
      assert EncU32(MAGIC) + [] == EncU32(MAGIC) && EncU32(MAGIC)[..4] == EncU32(MAGIC);
    }
  }

  /** An index section loads exactly when it consists of the encodings of some entries. */
  lemma {:induction false} IndexParsed(d: Bytes)
    requires LoadIndex(d).Some?
    ensures d == FlatMap(EncEntry, LoadIndex(d).value) && forall e :: e in LoadIndex(d).value ==> |e.entityID| < TWO32
    decreases |d|
  {
    if d != [] {
      hide ParseEntry, EncEntry;
      var (e, rest) := ParseEntry(d).value;
      EntryDecoded(d);
      IndexParsed(rest);
      var tail := LoadIndex(rest).value;
      assert LoadIndex(d).value == [e] + tail;
      FlatMapUnfold(EncEntry, [e] + tail);
      assert ([e] + tail)[1..] == tail;
    }
  }

  lemma {:induction false} EntryDecoded(d: Bytes)
    requires ParseEntry(d).Some?
    ensures var (e, rest) := ParseEntry(d).value; d == EncEntry(e) + rest && |e.entityID| < TWO32
  {
    hide EncStr, ParseStr, EncU64, ParseU64;
    var (id, d1) := ParseStr(d).value;
    StrParsed(d);
    U64Parsed(d1);
  }

  ghost predicate IsIndex(d: Bytes, index: seq<IndexEntry>) {
    d == FlatMap(EncEntry, index) && forall e :: e in index ==> |e.entityID| < TWO32
  }

  /** A file opens exactly when it starts with the magic number and the version and its footer points, within the file, at
      the encodings of some index entries; the reader then holds those. */
  lemma {:induction false} OpensExactly(d: Bytes, index: seq<IndexEntry>)
    ensures (OpenTable(d).Opened? && OpenTable(d).reader.index == index) <==>
              && |d| >= 40 && d[..6] == START
              && var f := DecFooter(d[|d| - 24..]);
                 && 0 <= f.indexOffset < |d| && 0 <= f.indexSize < TWO63 - f.indexOffset
                 && f.indexOffset + f.indexSize <= |d|
                 && IsIndex(d[f.indexOffset..f.indexOffset + f.indexSize], index)
  {
    hide DecFooter, LoadIndex, HeaderOk, EncEntry, FlatMap;
    if |d| >= 40 {
      StartMeans(d[..HEADER_SIZE]);
      assert d[..HEADER_SIZE][..6] == d[..6];
      var f := DecFooter(d[|d| - 24..]);
      if 0 <= f.indexOffset < |d| && 0 <= f.indexSize < TWO63 - f.indexOffset && f.indexOffset + f.indexSize <= |d| {
        var section := d[f.indexOffset..f.indexOffset + f.indexSize];
        LoadsExactly(section, index);
      }
    }
  }

  lemma {:induction false} LoadsExactly(d: Bytes, index: seq<IndexEntry>)
    ensures LoadIndex(d) == Some(index) <==> IsIndex(d, index)
  {
    hide LoadIndex, FlatMap, EncEntry;
    if LoadIndex(d).Some? {
      IndexParsed(d);
    }
    if IsIndex(d, index) {
      IndexLoads(index);
    }
  }

  // ----- the time a compaction reads -----

  /** The first eight data bytes count as a time exactly when they are one between 2000 and 2100. */
  lemma {:induction false} TimeRead(row: Row, t: U64, rest: Bytes)
    requires row.data == EncU64(t) + rest
    ensures ExtractTimestamp(row) == if 946684800_000000000 <= t <= 4102444800_000000000 then t else 0
  {
    hide EncU64, U64At;
    U64RoundTrip(t, rest);
    assert row.data[0..8] == row.data[..8];
  }

  /** Of two rows whose data starts with a plausible time the later one survives, wherever it stands. */
  lemma {:induction false} LaterTimeSurvives(r: Row, s: Row, t: U64, u: U64, x: Bytes, y: Bytes)
    requires r.data == EncU64(t) + x && s.data == EncU64(u) + y && t > u
    requires 946684800_000000000 <= u && t <= 4102444800_000000000
    ensures Best([r, s]) == r && Best([s, r]) == r
  {
    hide ExtractTimestamp;
    TimeRead(r, t, x);
    TimeRead(s, u, y);
    assert [r, s][..1] == [r] && [s, r][..1] == [s];
  }
}
