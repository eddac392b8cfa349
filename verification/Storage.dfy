/** cmd/allidbd/storage_service.go and the start-up code of cmd/allidbd/main.go: the write-ahead log, memtable and
    sorted tables as one store, its steps, and its range scan. */
module Storage {
  import opened Prelude
  import opened EntityCodec
  import opened Entities
  import opened Memtables
  import opened SSTableFormat
  import opened SSTableWriter
  import opened SSTableReader
  import Wal

  const ROW_TYPE_META: byte := 4

  // What survives a crash is wal.files and dir; the rest is in memory.
  datatype Store = Store(wal: Wal.WalState, mem: MemState, dir: map<Bytes, Bytes>)

  datatype Config = Config(crc: Bytes -> U32, maxFileSize: int, maxMemSize: int)

  // ----- file names -----

  function Decimal(n: nat): (d: Bytes)
    ensures |d| > 0
  {
    if n < 10 then [48 + n] else Decimal(n / 10) + [48 + n % 10]
  }

  // "sstable-" and ".sst"
  const PREFIX: Bytes := [115, 115, 116, 97, 98, 108, 101, 45]
  const SUFFIX: Bytes := [46, 115, 115, 116]

  function TableName(seqNo: nat): Bytes {
    PREFIX + Decimal(seqNo) + SUFFIX
  }

  // ----- the steps -----

  /** b is an encoding of e, with each chunk's metadata in some order. */
  ghost predicate Encodes(b: Bytes, e: Entity) {
    exists listed :: ListsChunks(listed, e.chunks) && b == EncEntity(e, listed)
  }

  ghost predicate RowFor(r: Row, e: Entity) {
    r.rowType == ROW_TYPE_META && r.entityID == e.entityID && Encodes(r.data, e)
  }

  ghost predicate RowsFor(rows: seq<Row>, es: seq<Entity>) {
    |rows| == |es| && forall i :: 0 <= i < |es| ==> RowFor(rows[i], es[i])
  }

  /** All memtable rows, by ascending id and per id in arrival order. */
  function InOrder(data: map<Bytes, seq<Entity>>, ids: seq<Bytes>): seq<Entity>
    requires forall id :: id in ids ==> id in data
  {
    if ids == [] then [] else InOrder(data, ids[..|ids| - 1]) + data[ids[|ids| - 1]]
  }

  ghost predicate Keyed(m: MemState) {
    forall id :: id in m.data ==> forall e :: e in m.data[id] ==> e.entityID == id
  }

  ghost predicate FlushStep(cfg: Config, s: Store, t: Store, clock: nat) {
    if s.mem.data == map[] then t == s.(mem := EMPTY_MEM)
    else exists rows ::
        && RowsFor(rows, InOrder(s.mem.data, Listing(s.mem.data.Keys)))
        && t == s.(mem := EMPTY_MEM, dir := s.dir[TableName(clock) := TableBytes(cfg.crc, rows)])
  }

  ghost predicate LogStep(cfg: Config, s: Store, t: Store, e: Entity)
    requires s.wal.fileSequence in s.wal.files
  {
    exists b :: Encodes(b, e)
      && t == s.(wal := Wal.AppendTo(cfg.crc, cfg.maxFileSize, s.wal, b), mem := MemPut(s.mem, e))
  }

  ghost predicate PutStep(cfg: Config, s: Store, t: Store, e: Entity, clock: nat)
    requires s.wal.fileSequence in s.wal.files
  {
    exists m: Store ::
      && LogStep(cfg, s, m, e)
      && if m.mem.size >= DefaultedSize(cfg.maxMemSize) then FlushStep(cfg, m, t, clock) else t == m
  }

  function AcceptAll(): Bytes -> bool {
    (d: Bytes) => true
  }

  /** The memtable rebuilt from replayed payloads, up to the first that does not decode. */
  ghost function Restore(payloads: seq<Bytes>): MemState {
    Rebuild(EMPTY_MEM, payloads)
  }

  ghost function Rebuild(m: MemState, payloads: seq<Bytes>): MemState
    decreases |payloads|
  {
    if payloads == [] then m
    else
      match ParseEntity(payloads[0])
      case None => m
      case Some((e, _)) => Rebuild(MemPut(m, e), payloads[1..])
  }

  /** A crash at any point between operations, and the restart after it. */
  ghost predicate CrashStep(cfg: Config, s: Store, t: Store) {
    && t.wal == Wal.Reopen(cfg.maxFileSize, s.wal.files)
    && t.dir == s.dir
    && t.mem == Restore(Wal.ReplayDir(cfg.crc, AcceptAll(), t.wal.files, Wal.Beyond(t.wal.files.Keys)).delivered)
  }

  // ----- the range scan -----

  predicate InRange(key: Bytes, start: Bytes, end: Bytes) {
    (start == [] || !Less(key, start)) && (end == [] || Less(key, end))
  }

  predicate Visible(e: Entity, tenant: Bytes) {
    tenant == [] || e.tenantID == tenant
  }

  datatype Range = Range(start: Bytes, end: Bytes, tenant: Bytes)

  type Found = map<Bytes, Entity>

  predicate Wanted(rows: seq<Entity>, key: Bytes, q: Range) {
    InRange(key, q.start, q.end) && rows != [] && Visible(rows[|rows| - 1], q.tenant)
  }

  function ScanMem(m: MemState, q: Range): Found {
    map id | id in m.data && Wanted(m.data[id], id, q) :: m.data[id][|m.data[id]| - 1]
  }

  /** One id of one table: only ids not found in newer data are looked up; unreadable rows are skipped. */
  ghost function ScanID(cfg: Config, r: Reader, id: Bytes, q: Range, found: Found): Found {
    if !InRange(id, q.start, q.end) || id in found then found
    else
      match GetRows(cfg.crc, r, id)
      case None => found
      case Some(rows) =>
        if rows == [] then found
        else
          match ParseEntity(rows[|rows| - 1].data)
          case None => found
          case Some((e, _)) => if Visible(e, q.tenant) then found[id := e] else found
  }

  ghost function ScanIDs(cfg: Config, r: Reader, ids: seq<Bytes>, q: Range, found: Found): Found {
    if ids == [] then found
    else ScanID(cfg, r, ids[|ids| - 1], q, ScanIDs(cfg, r, ids[..|ids| - 1], q, found))
  }

  ghost function ScanFile(cfg: Config, file: Bytes, q: Range, found: Found): Found {
    match OpenTable(file)
    case Opened(r) => ScanIDs(cfg, r, IDs(r.index), q, found)
    case Rejected => found
    case Panicked => found
  }

  ghost function ScanFiles(cfg: Config, dir: map<Bytes, Bytes>, names: seq<Bytes>, q: Range, found: Found): Found
    requires forall n :: n in names ==> n in dir
  {
    if names == [] then found
    else ScanFile(cfg, dir[names[|names| - 1]], q, ScanFiles(cfg, dir, names[..|names| - 1], q, found))
  }

  /** The memtable first, then the tables by descending file name. */
  ghost function Scan(cfg: Config, s: Store, q: Range): Found {
    ScanFiles(cfg, s.dir, Reversed(Listing(s.dir.Keys)), q, ScanMem(s.mem, q))
  }

  ghost function Reversed(s: seq<Bytes>): (r: seq<Bytes>)
    ensures |r| == |s| && forall i :: 0 <= i < |s| ==> r[i] == s[|s| - 1 - i]
    ensures Elements(r) == Elements(s)
  {
    if s == [] then []
    else
      var r := Reversed(s[..|s| - 1]);
      assert s == s[..|s| - 1] + [s[|s| - 1]];
      assert forall x :: x in r <==> x in Elements(r);
      [s[|s| - 1]] + r
  }

  /** Opening some file makes the reader panic rather than return an error; PanicsExactly says which files do. */
  ghost predicate Panics(dir: map<Bytes, Bytes>) {
    exists name :: name in dir && OpenTable(dir[name]).Panicked?
  }
}
