/** The store refines a plain map: over every run of puts, flushes and crashes with replay, a range scan returns
    exactly the last-put entity of every id in range. */
module StorageTheory {
  import opened Prelude
  import opened EntityCodec
  import opened Memtables
  import opened SSTableFormat
  import opened SSTableWriter
  import opened SSTableReader
  import opened SSTableRoundTrip
  import opened Storage
  import opened TableNames
  import Wal
  import WalTheory

  /** The reference: the last entity put under an id. */
  function LastPut(es: seq<Entity>, id: Bytes): Option<Entity> {
    if es == [] then None
    else if es[|es| - 1].entityID == id then Some(es[|es| - 1])
    else LastPut(es[..|es| - 1], id)
  }

  function IDsOf(es: seq<Entity>): set<Bytes> {
    set e | e in es :: e.entityID
  }

  /** What a map of last-put entities answers to a range query. */
  function Expected(puts: seq<Entity>, q: Range): Found {
    map id | id in IDsOf(puts) && InRange(id, q.start, q.end) && LastPut(puts, id).Some? && Visible(LastPut(puts, id).value, q.tenant)
      :: LastPut(puts, id).value
  }

  // ----- what the code assumes of entities and clocks -----

  /** A named entity whose encoded lengths fit their 32-bit fields. */
  ghost predicate Admissible(e: Entity) {
    e.entityID != [] && Fits(e) && forall b :: Encodes(b, e) ==> |b| < TWO32
  }

  lemma {:induction false} Decodes(b: Bytes, e: Entity)
    requires Encodes(b, e) && Fits(e)
    ensures ParseEntity(b) == Some((e, []))
  {
    hide EncEntity, ParseEntity, Fits;
    var listed :| ListsChunks(listed, e.chunks) && b == EncEntity(e, listed);
    EntityRoundTrip(e, listed, []);
    assert b + [] == b;
  }

  // ----- the invariant -----

  datatype TableInfo = TableInfo(seqNo: nat, rows: seq<Row>, ents: seq<Entity>)

  ghost predicate GoodTable(t: TableInfo) {
    RowsFor(t.rows, t.ents) && SortedRows(t.rows) && forall e :: e in t.ents ==> Admissible(e)
  }

  ghost predicate GoodDir(cfg: Config, dir: map<Bytes, Bytes>, tables: seq<TableInfo>) {
    && (forall i, j :: 0 <= i < j < |tables| ==> SortsBefore(tables[i].seqNo, tables[j].seqNo))
    && (forall t :: t in tables ==> GoodTable(t) && TableName(t.seqNo) in dir && dir[TableName(t.seqNo)] == TableBytes(cfg.crc, t.rows))
    && (forall name :: name in dir ==> exists t :: t in tables && TableName(t.seqNo) == name)
  }

  ghost predicate GoodMem(m: MemState) {
    Keyed(m) && forall id :: id in m.data ==> m.data[id] != [] && forall e :: e in m.data[id] ==> Admissible(e)
  }

  ghost predicate GoodWal(cfg: Config, w: Wal.WalState, puts: seq<Entity>) {
    exists payloads ::
      && WalTheory.HoldsLog(cfg.crc, cfg.maxFileSize, w, payloads)
      && |payloads| == |puts|
      && forall i :: 0 <= i < |puts| ==> Encodes(payloads[i], puts[i])
  }

  /** The newest entity of an id among the memtable and the tables from number k on. */
  function Newest(m: MemState, tables: seq<TableInfo>, k: nat, id: Bytes): Option<Entity>
    requires k <= |tables|
    requires forall id :: id in m.data ==> m.data[id] != []
    decreases k, |tables|
  {
    if id in m.data then Some(m.data[id][|m.data[id]| - 1]) else NewestTable(tables[k..], id)
  }

  function NewestTable(tables: seq<TableInfo>, id: Bytes): Option<Entity> {
    if tables == [] then None
    else
      var n := |tables| - 1;
      if LastPut(tables[n].ents, id).Some? then LastPut(tables[n].ents, id) else NewestTable(tables[..n], id)
  }

  ghost predicate Covers(m: MemState, tables: seq<TableInfo>, puts: seq<Entity>)
    requires forall id :: id in m.data ==> m.data[id] != []
  {
    && (forall id :: Newest(m, tables, 0, id) == LastPut(puts, id))
    && (forall t, e :: t in tables && e in t.ents ==> e in puts)
    && (forall id, e :: id in m.data && e in m.data[id] ==> e in puts)
  }

  /** The write-ahead log holds all puts; memtable and tables together hold the last put of every id. */
  ghost predicate Good(cfg: Config, s: Store, puts: seq<Entity>, tables: seq<TableInfo>) {
    && s.wal.fileSequence in s.wal.files
    && GoodWal(cfg, s.wal, puts) && GoodMem(s.mem) && GoodDir(cfg, s.dir, tables) && Covers(s.mem, tables, puts)
    && forall e :: e in puts ==> Admissible(e)
  }

  lemma {:induction false} LastPutIs(es: seq<Entity>, id: Bytes)
    ensures LastPut(es, id).Some? <==> id in IDsOf(es)
    ensures LastPut(es, id).Some? ==> LastPut(es, id).value in es && LastPut(es, id).value.entityID == id
  {
    if es != [] {
      var n := |es| - 1;
      LastPutIs(es[..n], id);
      assert es[n] in es;
      assert forall e :: e in es <==> e in es[..n] || e == es[n];
    }
  }

  lemma LastPutSnoc(es: seq<Entity>, e: Entity, id: Bytes)
    ensures LastPut(es + [e], id) == if e.entityID == id then Some(e) else LastPut(es, id)
  {
    assert (es + [e])[..|es|] == es;
  }

  lemma {:induction false} LastPutAppend(es: seq<Entity>, fs: seq<Entity>, id: Bytes)
    ensures LastPut(es + fs, id) == if LastPut(fs, id).Some? then LastPut(fs, id) else LastPut(es, id)
  {
    if fs == [] {
      assert es + fs == es;
    } else {
      var n := |fs| - 1;
      LastPutAppend(es, fs[..n], id);
      assert es + fs == (es + fs[..n]) + [fs[n]] && fs == fs[..n] + [fs[n]];
      LastPutSnoc(es + fs[..n], fs[n], id);
    }
  }

  // ----- the scan of a good store -----

  /** The last row of an id in a table is the encoding of the entity last put there. */
  lemma {:induction false} LastRow(rows: seq<Row>, es: seq<Entity>, id: Bytes)
    requires RowsFor(rows, es)
    ensures RowsOf(rows, id) != [] <==> LastPut(es, id).Some?
    ensures RowsOf(rows, id) != [] ==> Encodes(RowsOf(rows, id)[|RowsOf(rows, id)| - 1].data, LastPut(es, id).value)
  {
    hide Encodes;
    if rows != [] {
      hide RowFor;
      var n := |rows| - 1;
      RowForIs(rows[n], es[n]);
      FewerRows(rows, es);
      LastRow(rows[..n], es[..n], id);
      hide RowsFor;
      var before := RowsOf(rows[..n], id);
      assert RowsOf(rows, id) == before + (if rows[n].entityID == id then [rows[n]] else []);
      assert before + [] == before;
    }
  }

  lemma FewerRows(rows: seq<Row>, es: seq<Entity>)
    requires RowsFor(rows, es) && rows != []
    ensures RowsFor(rows[..|rows| - 1], es[..|es| - 1])
  {
  }

  lemma {:induction false} RowForIs(r: Row, e: Entity)
    requires RowFor(r, e)
    ensures r.entityID == e.entityID && Encodes(r.data, e)
  {
  }

  lemma {:induction false} GoodTableReads(cfg: Config, t: TableInfo)
    requires GoodTable(t) && |TableBytes(cfg.crc, t.rows)| < TWO63
    ensures OpenTable(TableBytes(cfg.crc, t.rows)).Opened?
    ensures var r := OpenTable(TableBytes(cfg.crc, t.rows)).reader;
            && IDs(r.index) == Listing(IndexedIDs(t.rows))
            && (forall id :: id != [] ==> GetRows(cfg.crc, r, id) == Some(RowsOf(t.rows, id)))
            && forall id :: id in IndexedIDs(t.rows) <==> LastPut(t.ents, id).Some?
  {
    hide Listing, GetRows, OpenTable, TableBytes, Encodes, RowsOf, LastPut;
    forall r | r in t.rows
      ensures FitsRow(r)
    {
      var i :| 0 <= i < |t.rows| && t.rows[i] == r;
      assert t.ents[i] in t.ents && RowFor(r, t.ents[i]);
    }
    TableReadsBack(cfg.crc, t.rows);
    forall id
      ensures id in IndexedIDs(t.rows) <==> LastPut(t.ents, id).Some?
    {
      RowsOfNonempty(t.rows, id);
      LastRow(t.rows, t.ents, id);
      LastPutIs(t.ents, id);
    }
  }

  lemma {:induction false} ScanOneID(cfg: Config, t: TableInfo, r: Reader, id: Bytes, q: Range, found: Found)
    requires GoodTable(t) && LastPut(t.ents, id).Some?
    requires GetRows(cfg.crc, r, id) == Some(RowsOf(t.rows, id))
    ensures ScanID(cfg, r, id, q, found)
         == if !InRange(id, q.start, q.end) || id in found || !Visible(LastPut(t.ents, id).value, q.tenant) then found
            else found[id := LastPut(t.ents, id).value]
  {
    hide GetRows, RowsOf, LastPut, Encodes, ParseEntity, InRange, Fits;
    LastRow(t.rows, t.ents, id);
    LastPutIs(t.ents, id);
    var rows := RowsOf(t.rows, id);
    Decodes(rows[|rows| - 1].data, LastPut(t.ents, id).value);
  }

  /** What one table adds to the entities found in newer data. */
  ghost predicate Adds(before: Found, after: Found, ids: seq<Bytes>, t: TableInfo, q: Range)
    requires forall id :: id in ids ==> LastPut(t.ents, id).Some?
  {
    forall id ::
      && (id in after <==>
            (id in before || (id in ids && InRange(id, q.start, q.end) && Visible(LastPut(t.ents, id).value, q.tenant))))
      && (id in after ==> after[id] == if id in before then before[id] else LastPut(t.ents, id).value)
  }

  lemma {:induction false} ScanManyIDs(cfg: Config, t: TableInfo, r: Reader, ids: seq<Bytes>, q: Range, found: Found)
    requires GoodTable(t)
    requires forall id :: id in ids ==> LastPut(t.ents, id).Some? && GetRows(cfg.crc, r, id) == Some(RowsOf(t.rows, id))
    ensures Adds(found, ScanIDs(cfg, r, ids, q, found), ids, t, q)
  {
    hide GetRows, RowsOf, LastPut, GoodTable, InRange, Visible, ScanID;
    if ids != [] {
      var n := |ids| - 1;
      ScanManyIDs(cfg, t, r, ids[..n], q, found);
      assert ids[n] in ids && forall id :: id in ids <==> id in ids[..n] || id == ids[n];
      ScanOneID(cfg, t, r, ids[n], q, ScanIDs(cfg, r, ids[..n], q, found));
    }
  }

  lemma {:induction false} ScanGoodFile(cfg: Config, t: TableInfo, q: Range, found: Found)
    requires GoodTable(t) && |TableBytes(cfg.crc, t.rows)| < TWO63
    ensures !OpenTable(TableBytes(cfg.crc, t.rows)).Panicked?
    ensures var after := ScanFile(cfg, TableBytes(cfg.crc, t.rows), q, found);
            forall id ::
              && (id in after <==>
                    (id in found || (LastPut(t.ents, id).Some? && InRange(id, q.start, q.end) && Visible(LastPut(t.ents, id).value, q.tenant))))
              && (id in after ==> after[id] == if id in found then found[id] else LastPut(t.ents, id).value)
  {
    hide GetRows, RowsOf, LastPut, GoodTable, InRange, Visible, ScanIDs, OpenTable, TableBytes, IndexedIDs;
    GoodTableReads(cfg, t);
    var r := OpenTable(TableBytes(cfg.crc, t.rows)).reader;
    var ids := Listing(IndexedIDs(t.rows));
    forall id
      ensures id in ids <==> LastPut(t.ents, id).Some?
      ensures id in ids ==> id != []
    {
      assert id in ids <==> id in Elements(ids);
      if id in ids {
        NamedIDs(t.rows, id);
      }
    }
    ScanManyIDs(cfg, t, r, ids, q, found);
  }

  lemma NamedIDs(rows: seq<Row>, id: Bytes)
    requires id in IndexedIDs(rows)
    ensures id != []
  {
  }

  /** An id never changes its tenant. */
  ghost predicate OneTenant(puts: seq<Entity>) {
    forall d, e :: d in puts && e in puts && d.entityID == e.entityID ==> d.tenantID == e.tenantID
  }

  lemma {:induction false} NewestFromFront(t: TableInfo, rest: seq<TableInfo>, id: Bytes)
    ensures NewestTable([t] + rest, id) == if NewestTable(rest, id).Some? then NewestTable(rest, id) else LastPut(t.ents, id)
  {
    hide LastPut;
    if rest == [] {
      assert ([t] + rest)[..0] == [];
    } else {
      var n := |rest| - 1;
      assert ([t] + rest)[..n + 1] == [t] + rest[..n];
      NewestFromFront(t, rest[..n], id);
    }
  }

  /** A version that a query's tenant may see. */
  function Seen(e: Option<Entity>, tenant: Bytes): Option<Entity> {
    if e.Some? && Visible(e.value, tenant) then e else None
  }

  /** The newest version of an id that the tenant may see, of the last ones in the tables. */
  function NewestSeen(tables: seq<TableInfo>, id: Bytes, tenant: Bytes): Option<Entity> {
    if tables == [] then None
    else if NewestSeen(tables[1..], id, tenant).Some? then NewestSeen(tables[1..], id, tenant)
    else Seen(LastPut(tables[0].ents, id), tenant)
  }

  function LastInMem(m: MemState, id: Bytes): Option<Entity> {
    if id in m.data && m.data[id] != [] then Some(m.data[id][|m.data[id]| - 1]) else None
  }

  /** What a scan finds of an id in the memtable and the tables from number k on. */
  function SeenFrom(m: MemState, tables: seq<TableInfo>, k: nat, id: Bytes, tenant: Bytes): Option<Entity>
    requires k <= |tables|
  {
    if Seen(LastInMem(m, id), tenant).Some? then Seen(LastInMem(m, id), tenant) else NewestSeen(tables[k..], id, tenant)
  }

  ghost predicate Shows(found: Found, m: MemState, tables: seq<TableInfo>, k: nat, q: Range)
    requires k <= |tables|
  {
    forall id :: ShowsAt(found, SeenFrom(m, tables, k, id, q.tenant), id, q)
  }

  ghost predicate ShowsAt(found: Found, seen: Option<Entity>, id: Bytes, q: Range) {
    && (id in found <==> InRange(id, q.start, q.end) && seen.Some?)
    && (id in found ==> found[id] == seen.value)
  }

  lemma ScanMemShows(m: MemState, tables: seq<TableInfo>, q: Range)
    ensures Shows(ScanMem(m, q), m, tables, |tables|, q)
  {
    assert tables[|tables|..] == [];
  }

  lemma {:induction false} SeenStep(m: MemState, tables: seq<TableInfo>, k: nat, id: Bytes, tenant: Bytes)
    requires k < |tables|
    ensures SeenFrom(m, tables, k, id, tenant)
         == if SeenFrom(m, tables, k + 1, id, tenant).Some? then SeenFrom(m, tables, k + 1, id, tenant)
            else Seen(LastPut(tables[k].ents, id), tenant)
  {
    hide LastPut, Seen;
    assert tables[k..][1..] == tables[k + 1..];
  }

  lemma {:induction false} ScanFileShows(cfg: Config, m: MemState, tables: seq<TableInfo>, k: nat, q: Range,
          found: Found)
    requires k < |tables| && GoodTable(tables[k]) && |TableBytes(cfg.crc, tables[k].rows)| < TWO63
    requires Shows(found, m, tables, k + 1, q)
    ensures Shows(ScanFile(cfg, TableBytes(cfg.crc, tables[k].rows), q, found), m, tables, k, q)
  {
    hide LastPut, SeenFrom, ScanFile, TableBytes, InRange, GoodTable;
    ScanGoodFile(cfg, tables[k], q, found);
    var after := ScanFile(cfg, TableBytes(cfg.crc, tables[k].rows), q, found);
    forall id
      ensures ShowsAt(after, SeenFrom(m, tables, k, id, q.tenant), id, q)
    {
      SeenStep(m, tables, k, id, q.tenant);
      assert ShowsAt(found, SeenFrom(m, tables, k + 1, id, q.tenant), id, q);
    }
  }

  lemma MemNonempty(m: MemState)
    requires GoodMem(m)
    ensures forall id :: id in m.data ==> m.data[id] != []
  {
  }

  /** The table files in ascending name order are the tables in age order. */
  function Names(tables: seq<TableInfo>): (names: seq<Bytes>)
    ensures |names| == |tables| && forall i :: 0 <= i < |tables| ==> names[i] == TableName(tables[i].seqNo)
  {
    if tables == [] then [] else Names(tables[..|tables| - 1]) + [TableName(tables[|tables| - 1].seqNo)]
  }

  lemma {:induction false} NamesListed(cfg: Config, dir: map<Bytes, Bytes>, tables: seq<TableInfo>)
    requires GoodDir(cfg, dir, tables)
    ensures Names(tables) == Listing(dir.Keys)
  {
    hide Less, Listing, Names;
    NamesAscend(cfg, dir, tables);
    forall x
      ensures x in Elements(Names(tables)) <==> x in dir.Keys
    {
      NameInDir(cfg, dir, tables, x);
    }
    AscendingUnique(Names(tables), Listing(dir.Keys));
  }

  lemma {:induction false} NamesAscend(cfg: Config, dir: map<Bytes, Bytes>, tables: seq<TableInfo>)
    requires GoodDir(cfg, dir, tables)
    ensures Ascending(Names(tables))
  {
    hide Less, SortsBefore, TableName, GoodTable, TableBytes, Names;
    var names := Names(tables);
    forall i, j | 0 <= i < j < |names|
      ensures Less(names[i], names[j])
    {
      NameOrder(tables[i].seqNo, tables[j].seqNo);
    }
  }

  lemma {:induction false} NameInDir(cfg: Config, dir: map<Bytes, Bytes>, tables: seq<TableInfo>, x: Bytes)
    requires GoodDir(cfg, dir, tables)
    ensures x in Elements(Names(tables)) <==> x in dir
  {
    hide Less, SortsBefore, TableName, GoodTable, TableBytes, Names;
    var names := Names(tables);
    if x in names {
      var i :| 0 <= i < |names| && names[i] == x;
      assert tables[i] in tables;
    }
    if x in dir {
      var t :| t in tables && TableName(t.seqNo) == x;
      var i :| 0 <= i < |tables| && tables[i] == t;
      assert names[i] == x;
    }
  }

  ghost predicate SmallFiles(dir: map<Bytes, Bytes>) {
    forall name :: name in dir ==> |dir[name]| < TWO63
  }

  lemma {:induction false} TableListed(cfg: Config, dir: map<Bytes, Bytes>, tables: seq<TableInfo>, k: nat)
    requires GoodDir(cfg, dir, tables) && SmallFiles(dir) && k < |tables|
    ensures var name := TableName(tables[k].seqNo);
            name in dir && dir[name] == TableBytes(cfg.crc, tables[k].rows) && |dir[name]| < TWO63 && GoodTable(tables[k])
  {
    hide TableName, TableBytes, GoodTable;
    assert tables[k] in tables;
  }

  lemma {:induction false} ScanFilesShow(cfg: Config, s: Store, tables: seq<TableInfo>, names: seq<Bytes>, k: nat,
          q: Range)
    requires GoodDir(cfg, s.dir, tables) && SmallFiles(s.dir)
    requires k + |names| == |tables| && forall i :: 0 <= i < |names| ==> names[i] == TableName(tables[|tables| - 1 - i].seqNo)
    ensures forall n :: n in names ==> n in s.dir
    ensures Shows(ScanFiles(cfg, s.dir, names, q, ScanMem(s.mem, q)), s.mem, tables, k, q)
    decreases |names|
  {
    hide ScanFile, ScanMem, Shows, TableBytes, TableName, GoodTable, GoodDir, SmallFiles;
    if names == [] {
      ScanMemShows(s.mem, tables, q);
    } else {
      var n := |names| - 1;
      TableListed(cfg, s.dir, tables, k);
      assert names[n] == TableName(tables[k].seqNo);
      ScanFilesShow(cfg, s, tables, names[..n], k + 1, q);
      ScanFileShows(cfg, s.mem, tables, k, q, ScanFiles(cfg, s.dir, names[..n], q, ScanMem(s.mem, q)));
    }
  }

  lemma {:induction false} ScanShows(cfg: Config, s: Store, tables: seq<TableInfo>, q: Range)
    requires GoodDir(cfg, s.dir, tables) && SmallFiles(s.dir)
    ensures Shows(Scan(cfg, s, q), s.mem, tables, 0, q)
  {
    hide ScanFiles, ScanMem, Listing, GoodDir, SmallFiles, Shows, Names, TableName;
    NamesListed(cfg, s.dir, tables);
    ScanFilesShow(cfg, s, tables, Reversed(Listing(s.dir.Keys)), 0, q);
  }

  /** The entities of each table. */
  function EntsOf(tables: seq<TableInfo>): (lists: seq<seq<Entity>>)
    ensures |lists| == |tables| && forall i :: 0 <= i < |tables| ==> lists[i] == tables[i].ents
  {
    seq(|tables|, i requires 0 <= i < |tables| => tables[i].ents)
  }

  /** No table, as a list of its entities, still shows the tenant an id that was last put for another tenant. */
  ghost predicate NoGhosts(lists: seq<seq<Entity>>, puts: seq<Entity>, q: Range) {
    forall id, es :: es in lists && InRange(id, q.start, q.end) && Seen(LastPut(es, id), q.tenant).Some? ==>
        Seen(LastPut(puts, id), q.tenant).Some?
  }

  lemma {:induction false} NewestSeenIs(tables: seq<TableInfo>, id: Bytes, tenant: Bytes)
    ensures NewestSeen(tables, id, tenant).Some? <==> exists t :: t in tables && Seen(LastPut(t.ents, id), tenant).Some?
  {
    hide LastPut, Seen;
    if tables != [] {
      NewestSeenIs(tables[1..], id, tenant);
      assert tables == [tables[0]] + tables[1..];
      assert tables[0] in tables;
      assert forall t :: t in tables <==> t == tables[0] || t in tables[1..];
    }
  }

  /** When the newest version may be seen, it is the newest that may be seen. */
  lemma {:induction false} NewestIsSeen(tables: seq<TableInfo>, id: Bytes, tenant: Bytes)
    requires NewestTable(tables, id).Some? && Visible(NewestTable(tables, id).value, tenant)
    ensures NewestSeen(tables, id, tenant) == NewestTable(tables, id)
  {
    hide LastPut, Visible;
    NewestFromFront(tables[0], tables[1..], id);
    assert tables == [tables[0]] + tables[1..];
    if NewestTable(tables[1..], id).Some? {
      NewestIsSeen(tables[1..], id, tenant);
    } else {
      NothingNewer(tables[1..], id, tenant);
    }
  }

  lemma {:induction false} NothingNewer(tables: seq<TableInfo>, id: Bytes, tenant: Bytes)
    requires NewestTable(tables, id) == None
    ensures NewestSeen(tables, id, tenant) == None
  {
    hide LastPut;
    if tables != [] {
      NewestFromFront(tables[0], tables[1..], id);
      assert tables == [tables[0]] + tables[1..];
      NothingNewer(tables[1..], id, tenant);
    }
  }

  /** What is seen of one id is its last put, unless that belongs to another tenant. */
  lemma {:induction false} SeenIsLast(m: MemState, tables: seq<TableInfo>, puts: seq<Entity>, id: Bytes, tenant: Bytes)
    requires (forall id :: id in m.data ==> m.data[id] != []) && Newest(m, tables, 0, id) == LastPut(puts, id)
    ensures Seen(LastPut(puts, id), tenant).Some? ==> SeenFrom(m, tables, 0, id, tenant) == LastPut(puts, id)
    ensures !Seen(LastPut(puts, id), tenant).Some? ==>
        (SeenFrom(m, tables, 0, id, tenant).Some? <==> exists t :: t in tables && Seen(LastPut(t.ents, id), tenant).Some?)
  {
    hide LastPut, NewestTable, NewestSeen, Visible;
    assert tables[0..] == tables;
    NewestSeenIs(tables, id, tenant);
    if id !in m.data && NewestTable(tables, id).Some? && Visible(NewestTable(tables, id).value, tenant) {
      NewestIsSeen(tables, id, tenant);
    }
  }

  lemma {:induction false} ExpectedIs(puts: seq<Entity>, q: Range, id: Bytes)
    ensures ShowsAt(Expected(puts, q), Seen(LastPut(puts, id), q.tenant), id, q)
  {
    hide LastPut, InRange, Visible, IDsOf;
    LastPutIs(puts, id);
  }

  /** On a good store a scan returns exactly the last-put entity of every id in range that the tenant may see, if and only
      if no table holds an older version for the tenant of an id that was last put for another. */
  lemma {:induction false} ScanExactly(cfg: Config, s: Store, puts: seq<Entity>, tables: seq<TableInfo>, q: Range)
    requires GoodMem(s.mem) && GoodDir(cfg, s.dir, tables) && Covers(s.mem, tables, puts) && SmallFiles(s.dir)
    ensures Scan(cfg, s, q) == Expected(puts, q) <==> NoGhosts(EntsOf(tables), puts, q)
  {
    hide Scan, Expected, GoodDir, GoodMem, Covers, SmallFiles, LastPut, SeenFrom, InRange, Seen;
    var found, expected := Scan(cfg, s, q), Expected(puts, q);
    ScanShows(cfg, s, tables, q);
    forall id
      ensures ShowsAt(found, SeenFrom(s.mem, tables, 0, id, q.tenant), id, q)
      ensures ShowsAt(expected, Seen(LastPut(puts, id), q.tenant), id, q)
      ensures (id in found <==> id in expected) && (id in found ==> found[id] == expected[id])
          <==> NoGhostAt(tables, puts, q, id)
    {
      ExpectedIs(puts, q, id);
      CoversAt(s.mem, tables, puts, id);
      SeenIsLast(s.mem, tables, puts, id, q.tenant);
      SeenLast(puts, id, q.tenant);
    }
    if forall id :: NoGhostAt(tables, puts, q, id) {
      assert found == expected;
    }
    GhostsApart(tables, puts, q);
  }

  /** NoGhosts for one id. */
  ghost predicate NoGhostAt(tables: seq<TableInfo>, puts: seq<Entity>, q: Range, id: Bytes) {
    InRange(id, q.start, q.end) && (exists t :: t in tables && Seen(LastPut(t.ents, id), q.tenant).Some?) ==>
      Seen(LastPut(puts, id), q.tenant).Some?
  }

  lemma {:induction false} GhostsApart(tables: seq<TableInfo>, puts: seq<Entity>, q: Range)
    ensures NoGhosts(EntsOf(tables), puts, q) <==> forall id :: NoGhostAt(tables, puts, q, id)
  {
    hide LastPut, InRange, Seen;
    var lists := EntsOf(tables);
    if forall id :: NoGhostAt(tables, puts, q, id) {
      forall id, es | es in lists && InRange(id, q.start, q.end) && Seen(LastPut(es, id), q.tenant).Some?
        ensures Seen(LastPut(puts, id), q.tenant).Some?
      {
        var i :| 0 <= i < |lists| && lists[i] == es;
        assert tables[i] in tables;
        assert NoGhostAt(tables, puts, q, id);
      }
    }
    if NoGhosts(lists, puts, q) {
      forall id, t | t in tables && InRange(id, q.start, q.end) && Seen(LastPut(t.ents, id), q.tenant).Some?
        ensures Seen(LastPut(puts, id), q.tenant).Some?
      {
        var i :| 0 <= i < |tables| && tables[i] == t;
        assert lists[i] in lists;
      }
    }
  }

  lemma SeenLast(puts: seq<Entity>, id: Bytes, tenant: Bytes)
    ensures Seen(LastPut(puts, id), tenant).Some? ==> Seen(LastPut(puts, id), tenant) == LastPut(puts, id)
  {
  }

  lemma CoversAt(m: MemState, tables: seq<TableInfo>, puts: seq<Entity>, id: Bytes)
    requires GoodMem(m) && Covers(m, tables, puts)
    ensures (forall id :: id in m.data ==> m.data[id] != []) && Newest(m, tables, 0, id) == LastPut(puts, id)
  {
  }

  /** Without a tenant, or when no id ever changes its tenant, there are no such ids. */
  lemma {:induction false} OneTenantNoGhosts(m: MemState, tables: seq<TableInfo>, puts: seq<Entity>, q: Range)
    requires GoodMem(m) && Covers(m, tables, puts) && (q.tenant == [] || OneTenant(puts))
    ensures NoGhosts(EntsOf(tables), puts, q)
  {
    hide LastPut, InRange, Newest;
    forall id, es | es in EntsOf(tables) && InRange(id, q.start, q.end) && Seen(LastPut(es, id), q.tenant).Some?
      ensures Seen(LastPut(puts, id), q.tenant).Some?
    {
      var i :| 0 <= i < |tables| && EntsOf(tables)[i] == es;
      assert tables[i] in tables;
      LastPutIs(es, id);
      LastPutIs(puts, id);
      assert LastPut(es, id).value in puts;
    }
  }

  /** On a good store, a scan returns exactly the last-put entity of every id in range (and, when no id ever changes
      its tenant, of every id of the queried tenant), and no file makes the reader panic. */
  lemma {:induction false} GoodScan(cfg: Config, s: Store, puts: seq<Entity>, tables: seq<TableInfo>, q: Range)
    requires Good(cfg, s, puts, tables) && SmallFiles(s.dir)
    requires q.tenant == [] || OneTenant(puts)
    ensures !Panics(s.dir) && Scan(cfg, s, q) == Expected(puts, q)
  {
    hide Scan, Expected, Panics, GoodDir, GoodMem, GoodWal, Covers, OneTenant, SmallFiles;
    CoveredScan(cfg, s, puts, tables, q);
  }

  /** The log plays no part in a scan. */
  lemma {:induction false} CoveredScan(cfg: Config, s: Store, puts: seq<Entity>, tables: seq<TableInfo>, q: Range)
    requires GoodMem(s.mem) && GoodDir(cfg, s.dir, tables) && Covers(s.mem, tables, puts) && SmallFiles(s.dir)
    requires q.tenant == [] || OneTenant(puts)
    ensures !Panics(s.dir) && Scan(cfg, s, q) == Expected(puts, q)
  {
    hide Scan, Expected, Panics, GoodDir, GoodMem, Covers, OneTenant, SmallFiles, NoGhosts;
    ScanExactly(cfg, s, puts, tables, q);
    OneTenantNoGhosts(s.mem, tables, puts, q);
    NoPanic(cfg, s.dir, tables);
  }

  lemma {:induction false} NoPanic(cfg: Config, dir: map<Bytes, Bytes>, tables: seq<TableInfo>)
    requires GoodDir(cfg, dir, tables) && SmallFiles(dir)
    ensures !Panics(dir)
  {
    hide OpenTable, TableBytes, TableName, GoodTable;
    forall name | name in dir
      ensures !OpenTable(dir[name]).Panicked?
    {
      var t :| t in tables && TableName(t.seqNo) == name;
      ScanGoodFile(cfg, t, Range([], [], []), map[]);
    }
  }
}
