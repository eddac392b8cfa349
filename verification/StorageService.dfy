/** cmd/allidbd/storage_service.go: the service object; every method performs exactly one step of the store. */
module Services {
  import opened Prelude
  import opened EntityCodec
  import opened Entities
  import opened Memtables
  import opened SSTableFormat
  import opened SSTableWriter
  import opened SSTableReader
  import opened Storage
  import opened StorageTheory
  import opened StorageRuns
  import Wal

  /** A tenant violation is an error, or a panic when the guard fails hard. */
  datatype Outcome = Stored | Refused | Panicking

  ghost predicate MemShape(m: MemState) {
    Keyed(m) && forall id :: id in m.data ==> m.data[id] != []
  }

  class StorageService {
    const cfg: Config
    const wal: Wal.WAL
    const memtable: Memtable
    const failHard: bool
    var dir: map<Bytes, Bytes>   // the sstable directory: file name to contents

    /** Start-up: opens the log, replays it into a fresh memtable, and serves the directory found on disk. */
    constructor (cfg: Config, failHard: bool, walFiles: map<nat, Bytes>, dir: map<Bytes, Bytes>)
      ensures Shape() && this.cfg == cfg && this.failHard == failHard
      ensures forall s: Store :: s.wal.files == walFiles && s.dir == dir ==> CrashStep(cfg, s, State())
    {
      this.cfg, this.failHard, this.dir := cfg, failHard, dir;
      wal := new Wal.WAL(cfg.crc, cfg.maxFileSize, walFiles);
      memtable := new Memtable(cfg.maxMemSize);
      new;
      hide Rebuild, MemShape, Wal.Reopen, Wal.ReplayDir;
      var payloads, _ := wal.Replay(AcceptAll());
      EmptyShape();
      RestoreMemtable(memtable, payloads);
      ReopenKeepsOpen(cfg, walFiles);
    }

    /** The replay callback, applied to the payloads one after the other until one does not decode. */
    static method RestoreMemtable(memtable: Memtable, payloads: seq<Bytes>)
      requires MemShape(memtable.State())
      modifies memtable
      ensures memtable.State() == Rebuild(old(memtable.State()), payloads) && MemShape(memtable.State())
    {
      var i := 0;
      ghost var start := memtable.State();
      assert payloads[0..] == payloads;
      while i < |payloads|
        invariant 0 <= i <= |payloads| && MemShape(memtable.State())
        invariant Rebuild(start, payloads) == Rebuild(memtable.State(), payloads[i..])
      {
        hide ParseEntity, MemShape, MemPut;
        assert payloads[i..][1..] == payloads[i + 1..];
        var ent := new UnifiedEntity([], [], [], 0);
        var ok := ent.FromBytes(payloads[i]);
        if !ok {
          return;
        }
        MemPutShape(memtable.State(), ent.Value());
        memtable.Put(ent.Value());
        i := i + 1;
      }
    }

    function State(): Store
      reads this, wal, memtable
    {
      Store(wal.State(), memtable.State(), dir)
    }

    /** What holds of every service object, whatever was stored in it. */
    ghost predicate Shape()
      reads this, wal, memtable
    {
      && wal.crc == cfg.crc && wal.maxFileSize == cfg.maxFileSize && wal.fileSequence in wal.files
      && memtable.maxSize == DefaultedSize(cfg.maxMemSize)
      && MemShape(memtable.State())
    }

    /** An empty context tenant means that the context carries none. */
    method PutEntity(contextTenant: Bytes, ent: UnifiedEntity, clock: nat) returns (r: Outcome)
      requires Shape()
      modifies this, wal, memtable
      ensures Shape()
      ensures r == Stored <==> contextTenant != [] && old(ent.Value()).tenantID == contextTenant
      ensures r == Stored ==> PutStep(cfg, old(State()), State(), old(ent.Value()), clock)
      ensures r != Stored ==> State() == old(State()) && (r == Panicking <==> failHard)
    {
      if contextTenant == [] || ent.tenantID != contextTenant {
        return if failHard then Panicking else Refused;
      }
      hide EncEntity, ListsChunks, MemPut, Wal.AppendTo, MemShape, FlushStep;
      ghost var e, before := ent.Value(), State();
      var b; ghost var listed;
      b, listed := ent.ToBytes();
      assert Encodes(b, e);
      AppendKeepsOpen(cfg, wal.State(), b);
      wal.WriteEntry(b);
      MemPutShape(memtable.State(), e);
      memtable.Put(ent.Value());
      ghost var logged := State();
      assert LogStep(cfg, before, logged, e);
      var full := memtable.ShouldFlush();
      if full {
        FlushMemtable(clock);
      }
      return Stored;
    }

    method FlushMemtable(clock: nat)
      requires Shape()
      modifies this, memtable
      ensures Shape() && FlushStep(cfg, old(State()), State(), clock)
    {
      hide InOrder, Listing, TableBytes, MemShape, RowsFor;
      EmptyShape();
      if |memtable.data| == 0 {
        memtable.Reset();
        return;
      }
      var file; ghost var rows;
      file, rows := BuildTable();
      dir := dir[TableName(clock) := file];
      memtable.Reset();
    }

    /** The file image of the memtable's rows, sorted by entity id. */
    method BuildTable() returns (file: Bytes, ghost rows: seq<Row>)
      requires Shape()
      ensures RowsFor(rows, InOrder(memtable.data, Listing(memtable.data.Keys)))
      ensures file == TableBytes(cfg.crc, rows)
    {
      hide InOrder, Listing, TableBytes, RowsFor, EncHeader, FlatMap, SortedRows;
      var data := memtable.data;
      var writer := new Writer(cfg.crc);
      writer.WriteHeader();
      var entityIDs := SortStrings(data.Keys);
      assert forall id :: id in entityIDs ==> id in Elements(entityIDs);
      WriteAll(writer, data, entityIDs);
      FlushSorted(memtable.State(), entityIDs, writer.rows);
      ghost var sorted := writer.WriteIndex();
      file, rows := writer.sink, writer.rows;
    }

    /** The loops of FlushMemtable over the sorted ids and their rows. */
    method WriteAll(writer: Writer, data: map<Bytes, seq<Entity>>, entityIDs: seq<Bytes>)
      requires writer.Valid() && writer.rows == []
      requires (forall id :: id in entityIDs ==> id in data)
      requires forall id, e :: id in data && e in data[id] ==> e.entityID == id
      modifies writer
      ensures writer.Valid() && RowsFor(writer.rows, InOrder(data, entityIDs))
    {
      hide Writer.Valid, RowFor;
      assert InOrder(data, entityIDs[..0]) == [];
      for i := 0 to |entityIDs|
        invariant writer.Valid() && RowsFor(writer.rows, InOrder(data, entityIDs[..i]))
      {
        var rows := data[entityIDs[i]];
        ghost var done := InOrder(data, entityIDs[..i]);
        assert done + rows[..0] == done;
        for j := 0 to |rows|
          invariant writer.Valid() && RowsFor(writer.rows, done + rows[..j])
        {
          hide InOrder;
          assert rows[j] in data[entityIDs[i]];
          assert done + rows[..j + 1] == done + rows[..j] + [rows[j]];
          WriteEntity(writer, entityIDs[i], rows[j], done + rows[..j]);
        }
        assert rows[..|rows|] == rows;
        assert entityIDs[..i + 1][..i] == entityIDs[..i];
      }
      assert entityIDs[..|entityIDs|] == entityIDs;
    }

    method WriteEntity(writer: Writer, id: Bytes, e: Entity, ghost done: seq<Entity>)
      requires writer.Valid() && RowsFor(writer.rows, done) && e.entityID == id
      modifies writer
      ensures writer.Valid() && RowsFor(writer.rows, done + [e])
    {
      hide Writer.Valid, EncEntity, ListsChunks;
      var ent := new UnifiedEntity.Of(e);
      var b; ghost var listed;
      b, listed := ent.ToBytes();
      assert Encodes(b, e);
      writer.WriteRow(Row(ROW_TYPE_META, id, b));
    }

    /** None when a damaged table file makes the reader panic. */
    method RangeScan(q: Range) returns (r: Option<Found>)
      requires Shape()
      ensures r == if Panics(dir) then None else Some(Scan(cfg, State(), q))
    {
      hide Scan, Panics, OpenTable, ScanFiles, ScanMem, Listing;
      var result := ScanMemtable(q);
      var files := SortedFiles();
      assert forall n :: n in files ==> n in Elements(files);
      r := ScanAll(files, q, result);
      ScanUnfolds(cfg, State(), q, files);
    }

    /** The loop of RangeScan over the table files. */
    method ScanAll(files: seq<Bytes>, q: Range, found: Found) returns (r: Option<Found>)
      requires Shape() && forall n :: n in files ==> n in dir
      ensures r == if exists n :: n in files && OpenTable(dir[n]).Panicked? then None else Some(ScanFiles(cfg, dir, files, q, found))
    {
      hide ScanFile, OpenTable;
      var result := found;
      assert files[..0] == [];
      for i := 0 to |files|
        invariant result == ScanFiles(cfg, dir, files[..i], q, found)
        invariant forall j :: 0 <= j < i ==> !OpenTable(dir[files[j]]).Panicked?
      {
        var readable, more := ScanTable(dir[files[i]], q, result);
        if !readable {
          assert files[i] in files;
          return None;
        }
        result := more;
        assert files[..i + 1][..i] == files[..i];
      }
      assert files[..|files|] == files;
      return Some(result);
    }

    method ScanMemtable(q: Range) returns (result: Found)
      requires Shape()
      ensures result == ScanMem(memtable.State(), q)
    {
      hide InRange, Wanted, MemShape;
      result := map[];
      var todo := memtable.data.Keys;
      while todo != {}
        invariant todo <= memtable.data.Keys
        invariant Scanned(memtable.data, todo, q, result)
        decreases |todo|
      {
        var key :| key in todo;
        ghost var before := result;
        if InRange(key, q.start, q.end) {
          var rows := memtable.Get(key);
          if |rows| > 0 && Visible(rows[|rows| - 1], q.tenant) {
            result := result[key := rows[|rows| - 1]];
          }
        }
        ScannedStep(memtable.data, todo, q, before, key);
        todo := todo - {key};
      }
    }

    /** The table files by descending name. */
    method SortedFiles() returns (files: seq<Bytes>)
      ensures files == Reversed(Listing(dir.Keys))
    {
      hide Less, Listing;
      var unsorted := SortStrings(dir.Keys);
      var later := (a: Bytes, b: Bytes) => Less(b, a);
      LessIsStrictOrder();
      files := Sort(unsorted, later);
      ReversedPermutation(unsorted);
      SortUnique(later, Reversed(unsorted), files);
    }

    method ScanTable(file: Bytes, q: Range, found: Found) returns (ok: bool, result: Found)
      requires Shape()
      ensures ok == !OpenTable(file).Panicked?
      ensures ok ==> result == ScanFile(cfg, file, q, found)
    {
      hide OpenTable, ScanID;
      result := found;
      var outcome := Reader.NewReader(file);
      if outcome == Panicked {
        return false, result;
      }
      if outcome == Rejected {
        return true, result;
      }
      var reader := outcome.reader;
      var ids := reader.GetAllEntityIDs();
      assert ids[..0] == [];
      for i := 0 to |ids|
        invariant result == ScanIDs(cfg, reader, ids[..i], q, found)
      {
        assert ids[..i + 1][..i] == ids[..i];
        result := ScanEntry(reader, ids[i], q, result);
      }
      assert ids[..|ids|] == ids;
      return true, result;
    }

    method ScanEntry(reader: Reader, id: Bytes, q: Range, found: Found) returns (result: Found)
      ensures result == ScanID(cfg, reader, id, q, found)
    {
      hide ParseEntity, InRange, GetRows;
      if !InRange(id, q.start, q.end) || id in found {
        return found;
      }
      var rows := reader.Get(cfg.crc, id);
      if rows == None || |rows.value| == 0 {
        return found;
      }
      var row := rows.value[|rows.value| - 1];
      var ent := new UnifiedEntity([], [], [], 0);
      var ok := ent.FromBytes(row.data);
      if !ok || !Visible(ent.Value(), q.tenant) {
        return found;
      }
      return found[id := ent.Value()];
    }
  }

  lemma {:induction false} ScanUnfolds(cfg: Config, s: Store, q: Range, files: seq<Bytes>)
    requires files == Reversed(Listing(s.dir.Keys)) && forall n :: n in files ==> n in s.dir
    ensures Scan(cfg, s, q) == ScanFiles(cfg, s.dir, files, q, ScanMem(s.mem, q))
    ensures Panics(s.dir) <==> exists n :: n in files && OpenTable(s.dir[n]).Panicked?
  {
    hide ScanFiles, ScanMem, Listing, OpenTable;
    forall n
      ensures n in files <==> n in s.dir
    {
      assert n in files <==> n in Elements(files);
    }
  }

  lemma {:induction false} ReopenKeepsOpen(cfg: Config, files: map<nat, Bytes>)
    ensures var w := Wal.Reopen(cfg.maxFileSize, files); w.fileSequence in w.files
  {
  }

  /** The memtable ids outside todo have been scanned. */
  ghost predicate Scanned(data: map<Bytes, seq<Entity>>, todo: set<Bytes>, q: Range, result: Found) {
    forall id ::
      && (id in result <==> (id in data && id !in todo && Wanted(data[id], id, q)))
      && (id in result ==> data[id] != [] && result[id] == data[id][|data[id]| - 1])
  }

  lemma {:induction false} ScannedStep(data: map<Bytes, seq<Entity>>, todo: set<Bytes>, q: Range, result: Found,
          key: Bytes)
    requires key in todo && key in data && Scanned(data, todo, q, result)
    ensures var rows := data[key];
            var next := if InRange(key, q.start, q.end) && rows != [] && Visible(rows[|rows| - 1], q.tenant)
                        then result[key := rows[|rows| - 1]] else result;
            Scanned(data, todo - {key}, q, next)
  {
    hide InRange, Visible;
  }

  lemma MemPutShape(m: MemState, e: Entity)
    requires MemShape(m)
    ensures MemShape(MemPut(m, e))
  {
  }

  lemma EmptyShape()
    ensures MemShape(EMPTY_MEM)
  {
  }

  lemma AppendKeepsOpen(cfg: Config, w: Wal.WalState, b: Bytes)
    requires w.fileSequence in w.files
    ensures var t := Wal.AppendTo(cfg.crc, cfg.maxFileSize, w, b); t.fileSequence in t.files
  {
  }

  lemma {:induction false} FlushSorted(m: MemState, ids: seq<Bytes>, rows: seq<Row>)
    requires MemShape(m) && ids == Listing(m.data.Keys)
    requires (forall id :: id in ids ==> id in m.data) && RowsFor(rows, InOrder(m.data, ids))
    ensures SortedRows(rows)
  {
    hide Less, Listing, InOrder, Encodes, LastPut;
    InOrderIs(m.data, ids);
    var es := InOrder(m.data, ids);
    forall i, j | 0 <= i < j < |rows|
      ensures !Less(rows[j].entityID, rows[i].entityID)
    {
      assert RowFor(rows[i], es[i]) && RowFor(rows[j], es[j]);
    }
  }

  lemma {:induction false} ReversedPermutation(s: seq<Bytes>)
    ensures multiset(Reversed(s)) == multiset(s)
  {
    if s != [] {
      var n := |s| - 1;
      ReversedPermutation(s[..n]);
      assert s == s[..n] + [s[n]];
    }
  }
}
