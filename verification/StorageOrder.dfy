/** Which flush numbers the store's scans can stand: exactly those whose file names sort in the order of the flushes. */
module StorageOrder {
  import opened Prelude
  import opened EntityCodec
  import opened Memtables
  import opened SSTableFormat
  import opened SSTableWriter
  import opened SSTableReader
  import opened Storage
  import opened StorageTheory
  import opened StorageRuns
  import opened TableNames
  import Wal

  const EVERYTHING := Range([], [], [])

  /** The run ends in a store whose scans are those of the map of last puts. */
  ghost predicate Refines(cfg: Config, s: Store, puts: seq<Entity>) {
    !Panics(s.dir) && forall q: Range :: q.tenant == [] || OneTenant(puts) ==> Scan(cfg, s, q) == Expected(puts, q)
  }

  /** A run of admissible puts that gives its tables these numbers, with every file below 2^63 bytes. */
  ghost predicate RunWith(cfg: Config, states: seq<Store>, ops: seq<Op>, clocks: seq<nat>) {
    && Run(cfg, states, ops) && Admitted(ops)
    && FlushClocks(cfg, states, ops) == clocks
    && SmallFiles(states[|ops|].dir)
  }

  ghost predicate AlwaysRefines(cfg: Config, clocks: seq<nat>) {
    forall states: seq<Store>, ops: seq<Op> :: RunWith(cfg, states, ops, clocks) ==> Refines(cfg, states[|ops|], PutsOf(ops))
  }

  // ----- small entities and their tables -----

  function Plain(id: byte, created: I64): Entity {
    Entity([id], [], [], [], [], [], [], 0, created, 0)
  }

  predicate IsPlain(e: Entity) {
    |e.entityID| == 1 && e == Plain(e.entityID[0], e.createdAt)
  }

  function RowOf(e: Entity): Row {
    Row(ROW_TYPE_META, e.entityID, EncEntity(e, []))
  }

  function FileOf(cfg: Config, e: Entity): Bytes {
    TableBytes(cfg.crc, [RowOf(e)])
  }

  lemma {:induction false} PlainLists(e: Entity)
    requires IsPlain(e)
    ensures |EncLists(e, [])| == 16
  {
  }

  lemma {:induction false} PlainFits(e: Entity)
    requires IsPlain(e)
    ensures |EncEntity(e, [])| < 100 && Encodes(EncEntity(e, []), e) && Admissible(e)
  {
    hide EncLists;
    PlainLists(e);
    assert |EncHead(e)| == 13;
    assert ListsChunks([], e.chunks);
    forall b | Encodes(b, e)
      ensures b == EncEntity(e, [])
    {
      var listed :| ListsChunks(listed, e.chunks) && b == EncEntity(e, listed);
      assert listed == [];
    }
  }

  lemma {:induction false} PlainRows(cfg: Config, e: Entity)
    requires IsPlain(e)
    ensures |FlatMap(RowEncoder(cfg.crc), [RowOf(e)])| < 200
    ensures |FlatMap(EncEntry, Entries(cfg.crc, HEADER_SIZE, GroupsOf([RowOf(e)])))| < 200
  {
    hide EncRow, EncEntity, EncEntry;
    PlainFits(e);
    var row := RowOf(e);
    OneRow(cfg.crc, row);
    assert GroupsOf([row]) == [Group(row.entityID, [row])] by {
      assert [row][..0] == [];
    }
    var gs := GroupsOf([row]);
    var entry := IndexEntry(row.entityID, Int64(OffsetAt(cfg.crc, HEADER_SIZE, gs, 0)));
    assert gs[..0] == [];
    assert Entries(cfg.crc, HEADER_SIZE, gs) == [entry];
    FlatMapUnfold(EncEntry, [entry]);
    assert [entry][1..] == [];
  }

  lemma {:induction false} PlainTable(cfg: Config, e: Entity, seqNo: nat)
    requires IsPlain(e)
    ensures GoodTable(TableInfo(seqNo, [RowOf(e)], [e])) && |FileOf(cfg, e)| < TWO63
  {
    hide FlatMap, EncEntity, Entries, Encodes, Admissible;
    PlainFits(e);
    PlainRows(cfg, e);
  }

  // ----- a run with given flush numbers, one entity a table -----

  function DirOf(cfg: Config, clocks: seq<nat>, es: seq<Entity>): map<Bytes, Bytes>
    requires |clocks| == |es|
  {
    if es == [] then map[]
    else
      var n := |es| - 1;
      DirOf(cfg, clocks[..n], es[..n])[TableName(clocks[n]) := FileOf(cfg, es[n])]
  }

  /** A put and a flush write one table, whether or not the put itself fills the memtable. */
  lemma {:induction false} OneFlush(cfg: Config, s: Store, e: Entity, clock: nat) returns (m: Store, t: Store)
    requires s.mem == EMPTY_MEM && s.wal.fileSequence in s.wal.files && IsPlain(e)
    ensures Step(cfg, s, PutOp(e, clock), m) && Step(cfg, m, FlushOp(clock), t)
    ensures NewClock(cfg, s, PutOp(e, clock)) + NewClock(cfg, m, FlushOp(clock)) == [clock]
    ensures t.mem == EMPTY_MEM && t.wal.fileSequence in t.wal.files
    ensures t.dir == s.dir[TableName(clock) := FileOf(cfg, e)]
  {
    hide EncEntity, Encodes, TableBytes, TableName, FlushStep, Wal.AppendTo, RowSize;
    PlainFits(e);
    var b := EncEntity(e, []);
    var logged := s.(wal := Wal.AppendTo(cfg.crc, cfg.maxFileSize, s.wal, b), mem := MemPut(s.mem, e));
    OpenAfterAppend(cfg, s.wal, b);
    assert LogStep(cfg, s, logged, e);
    t := logged.(mem := EMPTY_MEM, dir := s.dir[TableName(clock) := FileOf(cfg, e)]);
    FlushOne(cfg, logged, t, e, clock);
    if MemPut(s.mem, e).size >= DefaultedSize(cfg.maxMemSize) {
      m := t;
      FlushEmpty(cfg, t, clock);
    } else {
      m := logged;
    }
  }

  lemma OpenAfterAppend(cfg: Config, w: Wal.WalState, b: Bytes)
    requires w.fileSequence in w.files
    ensures var v := Wal.AppendTo(cfg.crc, cfg.maxFileSize, w, b); v.fileSequence in v.files
  {
  }

  lemma FlushEmpty(cfg: Config, s: Store, clock: nat)
    requires s.mem == EMPTY_MEM
    ensures FlushStep(cfg, s, s, clock)
  {
  }

  lemma {:induction false} FlushOne(cfg: Config, s: Store, t: Store, e: Entity, clock: nat)
    requires s.mem == MemPut(EMPTY_MEM, e) && IsPlain(e)
    requires t == s.(mem := EMPTY_MEM, dir := s.dir[TableName(clock) := FileOf(cfg, e)])
    ensures FlushStep(cfg, s, t, clock) && s.mem.data != map[]
  {
    hide EncEntity, Encodes, TableBytes, TableName, RowSize, Listing;
    PlainFits(e);
    assert e.entityID in s.mem.data;
    assert EMPTY_MEM.data == map[] && [] + [e] == [e];
    assert s.mem.data == map[e.entityID := [e]];
    var ids := Listing(s.mem.data.Keys);
    OnlyOne(ids, e.entityID);
    assert [e.entityID][..0] == [];
    assert InOrder(s.mem.data, ids) == [e];
    assert RowsFor([RowOf(e)], [e]);
  }

  lemma OnlyOne(ids: seq<Bytes>, id: Bytes)
    requires Ascending(ids) && Elements(ids) == {id}
    ensures ids == [id]
  {
    AscendingUnique(ids, [id]);
  }

  ghost predicate EndsIn(states: seq<Store>, ops: seq<Op>, dir: map<Bytes, Bytes>) {
    && |states| == |ops| + 1
    && states[|ops|].mem == EMPTY_MEM && states[|ops|].dir == dir
    && states[|ops|].wal.fileSequence in states[|ops|].wal.files
  }

  lemma {:induction false} PlainRun(cfg: Config, clocks: seq<nat>, es: seq<Entity>) returns (states: seq<Store>,
          ops: seq<Op>)
    requires |clocks| == |es| && forall e :: e in es ==> IsPlain(e)
    ensures Run(cfg, states, ops) && Admitted(ops) && EndsIn(states, ops, DirOf(cfg, clocks, es))
    ensures PutsOf(ops) == es && FlushClocks(cfg, states, ops) == clocks
    decreases |es|
  {
    hide Step, IsPlain, TableName, FileOf, Admitted, Run, PutsOf, FlushClocks;
    if es == [] {
      states, ops := [InitialStore(cfg)], [];
      NothingRun(cfg);
    } else {
      var n := |es| - 1;
      assert forall e :: e in es[..n] ==> e in es;
      var states', ops' := PlainRun(cfg, clocks[..n], es[..n]);
      assert es[n] in es;
      states, ops := PlainStep(cfg, states', ops', DirOf(cfg, clocks[..n], es[..n]), es[n], clocks[n]);
      assert es == es[..n] + [es[n]] && clocks == clocks[..n] + [clocks[n]];
    }
  }

  lemma {:induction false} PlainStep(cfg: Config, states: seq<Store>, ops: seq<Op>, dir: map<Bytes, Bytes>, e: Entity,
          clock: nat) returns (states': seq<Store>, ops': seq<Op>)
    requires Run(cfg, states, ops) && Admitted(ops) && EndsIn(states, ops, dir) && IsPlain(e)
    ensures Run(cfg, states', ops') && Admitted(ops') && EndsIn(states', ops', dir[TableName(clock) := FileOf(cfg, e)])
    ensures PutsOf(ops') == PutsOf(ops) + [e]
    ensures FlushClocks(cfg, states', ops') == FlushClocks(cfg, states, ops) + [clock]
  {
    hide Step, IsPlain, Admissible, NewClock, TableName, FileOf, Admitted, Run, PutsOf, FlushClocks;
    var m, t := OneFlush(cfg, states[|ops|], e, clock);
    var states1, ops1 := Extended(cfg, states, ops, PutOp(e, clock), m);
    PlainAdmitted(ops, e, clock);
    states', ops' := Extended(cfg, states1, ops1, FlushOp(clock), t);
  }

  lemma NothingRun(cfg: Config)
    ensures Run(cfg, [InitialStore(cfg)], []) && Admitted([]) && EndsIn([InitialStore(cfg)], [], map[])
    ensures PutsOf([]) == [] && FlushClocks(cfg, [InitialStore(cfg)], []) == []
  {
  }

  lemma {:induction false} PlainAdmitted(ops: seq<Op>, e: Entity, clock: nat)
    requires Admitted(ops) && IsPlain(e)
    ensures Admitted(ops + [PutOp(e, clock)] + [FlushOp(clock)])
  {
    hide Admissible;
    PlainFits(e);
  }

  lemma {:induction false} Extended(cfg: Config, states: seq<Store>, ops: seq<Op>, op: Op, t: Store)
          returns (states': seq<Store>, ops': seq<Op>)
    requires Run(cfg, states, ops) && Step(cfg, states[|ops|], op, t)
    ensures states' == states + [t] && ops' == ops + [op] && Run(cfg, states', ops')
    ensures PutsOf(ops') == PutsOf(ops) + (if op.PutOp? then [op.e] else [])
    ensures FlushClocks(cfg, states', ops') == FlushClocks(cfg, states, ops) + NewClock(cfg, states[|ops|], op)
  {
    hide Step, NewClock;
    states', ops' := states + [t], ops + [op];
    assert ops'[..|ops|] == ops && states'[..|ops| + 1] == states;
    forall i | 0 <= i < |ops'|
      ensures Step(cfg, states'[i], ops'[i], states'[i + 1])
    {
      assert i < |ops| ==> Step(cfg, states[i], ops[i], states[i + 1]);
    }
  }

  // ----- what its directory holds -----

  ghost predicate NoLater(clocks: seq<nat>, k: nat)
    requires k < |clocks|
  {
    forall l :: k < l < |clocks| ==> TableName(clocks[l]) != TableName(clocks[k])
  }

  /** Under each name the last table written there. */
  lemma {:induction false} DirHolds(cfg: Config, clocks: seq<nat>, es: seq<Entity>)
    requires |clocks| == |es|
    ensures forall name :: name in DirOf(cfg, clocks, es) ==>
        exists k :: 0 <= k < |es| && NoLater(clocks, k) && TableName(clocks[k]) == name
    ensures forall k :: 0 <= k < |es| && NoLater(clocks, k) ==>
        TableName(clocks[k]) in DirOf(cfg, clocks, es) && DirOf(cfg, clocks, es)[TableName(clocks[k])] == FileOf(cfg, es[k])
  {
    hide TableName, FileOf, DirOf, NoLater;
    forall name | name in DirOf(cfg, clocks, es)
      ensures exists k :: 0 <= k < |es| && NoLater(clocks, k) && TableName(clocks[k]) == name
    {
      var k := DirName(cfg, clocks, es, name);
    }
    forall k | 0 <= k < |es| && NoLater(clocks, k)
      ensures TableName(clocks[k]) in DirOf(cfg, clocks, es)
      ensures DirOf(cfg, clocks, es)[TableName(clocks[k])] == FileOf(cfg, es[k])
    {
      DirTable(cfg, clocks, es, k);
    }
  }

  lemma {:induction false} DirName(cfg: Config, clocks: seq<nat>, es: seq<Entity>, name: Bytes) returns (k: nat)
    requires |clocks| == |es| && name in DirOf(cfg, clocks, es)
    ensures k < |es| && NoLater(clocks, k) && TableName(clocks[k]) == name
  {
    hide TableName, FileOf;
    k := |es| - 1;
    if name != TableName(clocks[k]) {
      k := DirName(cfg, clocks[..k], es[..k], name);
    }
  }

  lemma {:induction false} DirTable(cfg: Config, clocks: seq<nat>, es: seq<Entity>, k: nat)
    requires |clocks| == |es| && k < |es| && NoLater(clocks, k)
    ensures TableName(clocks[k]) in DirOf(cfg, clocks, es)
    ensures DirOf(cfg, clocks, es)[TableName(clocks[k])] == FileOf(cfg, es[k])
  {
    hide TableName, FileOf;
    var n := |es| - 1;
    if k < n {
      DirTable(cfg, clocks[..n], es[..n], k);
    }
  }

  lemma {:induction false} PlainFiles(cfg: Config, clocks: seq<nat>, es: seq<Entity>)
    requires |clocks| == |es| && forall e :: e in es ==> IsPlain(e)
    ensures SmallFiles(DirOf(cfg, clocks, es))
  {
    hide TableName, FileOf, IsPlain, NoLater;
    DirHolds(cfg, clocks, es);
    var dir := DirOf(cfg, clocks, es);
    forall name | name in dir
      ensures |dir[name]| < TWO63
    {
      var k :| 0 <= k < |es| && NoLater(clocks, k) && TableName(clocks[k]) == name;
      assert es[k] in es;
      PlainTable(cfg, es[k], 0);
    }
  }

  // ----- scanning it -----

  /** One file of one plain entity. */
  lemma {:induction false} ScanPlain(cfg: Config, e: Entity, found: Found)
    requires IsPlain(e)
    ensures ScanFile(cfg, FileOf(cfg, e), EVERYTHING, found)
         == if e.entityID in found then found else found[e.entityID := e]
  {
    hide ScanFile, TableBytes, RowOf, GoodTable, EncEntity;
    PlainTable(cfg, e, 0);
    var t := TableInfo(0, [RowOf(e)], [e]);
    ScanGoodFile(cfg, t, EVERYTHING, found);
    var after := ScanFile(cfg, FileOf(cfg, e), EVERYTHING, found);
    assert [e][..0] == [];
    forall id
      ensures LastPut([e], id) == if id == e.entityID then Some(e) else None
    {
    }
  }

  /** No table holds the id: the scan does not find it. */
  lemma {:induction false} ScanMisses(cfg: Config, dir: map<Bytes, Bytes>, names: seq<Bytes>, id: Bytes)
    requires forall n :: n in names ==> n in dir && exists e :: IsPlain(e) && e.entityID != id && dir[n] == FileOf(cfg, e)
    ensures id !in ScanFiles(cfg, dir, names, EVERYTHING, map[])
  {
    hide ScanFile, FileOf, IsPlain;
    if names != [] {
      var n := |names| - 1;
      assert names[n] in names;
      assert forall x :: x in names[..n] ==> x in names;
      ScanMisses(cfg, dir, names[..n], id);
      var e :| IsPlain(e) && e.entityID != id && dir[names[n]] == FileOf(cfg, e);
      ScanPlain(cfg, e, ScanFiles(cfg, dir, names[..n], EVERYTHING, map[]));
    }
  }

  /** Names p and q hold two versions of an entity, old and e, and other names other entities. */
  ghost predicate TwoVersions(cfg: Config, dir: map<Bytes, Bytes>, p: Bytes, old': Entity, q: Bytes, e: Entity) {
    && IsPlain(old') && IsPlain(e) && old'.entityID == e.entityID
    && p in dir && dir[p] == FileOf(cfg, old')
    && q in dir && dir[q] == FileOf(cfg, e)
    && forall n :: n in dir && n != p && n != q ==>
         exists f :: IsPlain(f) && f.entityID != e.entityID && dir[n] == FileOf(cfg, f)
  }

  ghost predicate Descending(names: seq<Bytes>) {
    forall i, j :: 0 <= i < j < |names| ==> Less(names[j], names[i])
  }

  /** The version under the larger name is read first and kept. */
  lemma {:induction false} ScanFindsLarger(cfg: Config, dir: map<Bytes, Bytes>, names: seq<Bytes>, p: Bytes,
          old': Entity, q: Bytes, e: Entity)
    requires TwoVersions(cfg, dir, p, old', q, e) && (forall n :: n in names ==> n in dir)
    requires Descending(names) && Less(q, p) && (q in names ==> p in names)
    ensures var found := ScanFiles(cfg, dir, names, EVERYTHING, map[]);
            && (p in names ==> e.entityID in found)
            && (e.entityID in found ==> found[e.entityID] == old')
  {
    hide ScanFile, FileOf, IsPlain, Less;
    if names != [] {
      var n := |names| - 1;
      var name := names[n];
      assert names == names[..n] + [name];
      assert forall x :: x in names[..n] ==> x in names;
      LargerFirst(names, p, q);
      ScanFindsLarger(cfg, dir, names[..n], p, old', q, e);
      var before := ScanFiles(cfg, dir, names[..n], EVERYTHING, map[]);
      if name == p {
        ScanPlain(cfg, old', before);
      } else if name == q {
        ScanPlain(cfg, e, before);
      } else {
        assert name in dir;
        var f :| IsPlain(f) && f.entityID != e.entityID && dir[name] == FileOf(cfg, f);
        ScanPlain(cfg, f, before);
      }
    }
  }

  lemma {:induction false} LargerFirst(names: seq<Bytes>, p: Bytes, q: Bytes)
    requires names != [] && Descending(names) && Less(q, p) && (q in names ==> p in names)
    ensures var n := |names| - 1; (q in names[..n] ==> p in names[..n]) && (names[n] == q ==> p in names[..n])
    ensures Descending(names[..|names| - 1])
  {
    hide Less;
    var n := |names| - 1;
    assert names == names[..n] + [names[n]];
    LessAsymmetric(q, p);
    assert forall i :: 0 <= i < n ==> Less(names[n], names[i]);
  }

  lemma {:induction false} ReversedDescends(s: seq<Bytes>)
    requires Ascending(s)
    ensures Descending(Reversed(s))
  {
    hide Less, Reversed;
  }

  // ----- numbers out of order -----

  /** Table i gets version 0 of the entity [1], table j its version 1, and every other table another entity. */
  function Versions(n: nat, i: nat, j: nat): (es: seq<Entity>)
    ensures |es| == n && forall e :: e in es ==> IsPlain(e)
    ensures forall k :: 0 <= k < n ==> es[k] == if k == i then Plain(1, 0) else if k == j then Plain(1, 1) else Plain(2, 0)
  {
    if n == 0 then []
    else Versions(n - 1, i, j) + [if n - 1 == i then Plain(1, 0) else if n - 1 == j then Plain(1, 1) else Plain(2, 0)]
  }

  /** A scan after this run misses an entity: a later table took the name of the one that held it. */
  lemma {:induction false} LostRun(cfg: Config, clocks: seq<nat>, i: nat, j: nat) returns (states: seq<Store>,
          ops: seq<Op>)
    requires i < j < |clocks| && TableName(clocks[i]) == TableName(clocks[j])
    ensures RunWith(cfg, states, ops, clocks)
    ensures Plain(1, 0) in PutsOf(ops) && Plain(1, 0).entityID !in Scan(cfg, states[|ops|], EVERYTHING).Keys
  {
    hide Run, Admitted, FlushClocks, PutsOf, SmallFiles, TableName, FileOf, DirOf, ScanFiles, Listing;
    var es := Versions(|clocks|, i, i);
    assert es[i] in es;
    states, ops := PlainRun(cfg, clocks, es);
    PlainFiles(cfg, clocks, es);
    DirHolds(cfg, clocks, es);
    var dir := DirOf(cfg, clocks, es);
    var names := Reversed(Listing(dir.Keys));
    assert IsPlain(Plain(2, 0));
    forall n | n in names
      ensures n in dir && dir[n] == FileOf(cfg, Plain(2, 0))
    {
      assert n in Elements(names);
      var k :| 0 <= k < |es| && NoLater(clocks, k) && TableName(clocks[k]) == n;
      assert k != i;
    }
    ScanMisses(cfg, dir, names, [1]);
    assert ScanMem(EMPTY_MEM, EVERYTHING) == map[];
  }

  /** A scan after this run returns a stale entity: the later table's name sorts before that of the earlier. */
  lemma {:induction false} StaleRun(cfg: Config, clocks: seq<nat>, i: nat, j: nat) returns (states: seq<Store>,
          ops: seq<Op>)
    requires i < j < |clocks| && Less(TableName(clocks[j]), TableName(clocks[i]))
    requires forall k, l :: 0 <= k < l < |clocks| ==> TableName(clocks[k]) != TableName(clocks[l])
    ensures RunWith(cfg, states, ops, clocks)
    ensures LastPut(PutsOf(ops), [1]) == Some(Plain(1, 1))
    ensures var found := Scan(cfg, states[|ops|], EVERYTHING); [1] in found && found[[1]] == Plain(1, 0)
  {
    hide Run, Admitted, FlushClocks, PutsOf, SmallFiles, TableName, FileOf, DirOf, ScanFiles, Listing, LastPut, Less;
    var es := Versions(|clocks|, i, j);
    states, ops := PlainRun(cfg, clocks, es);
    PlainFiles(cfg, clocks, es);
    LastOf(es, j);
    VersionsApart(cfg, clocks, es, i, j);
    var dir := DirOf(cfg, clocks, es);
    var names := Reversed(Listing(dir.Keys));
    ReversedDescends(Listing(dir.Keys));
    forall n
      ensures n in names <==> n in dir
    {
      assert n in Elements(names) <==> n in dir.Keys;
    }
    ScanFindsLarger(cfg, dir, names, TableName(clocks[i]), Plain(1, 0), TableName(clocks[j]), Plain(1, 1));
    assert ScanMem(EMPTY_MEM, EVERYTHING) == map[];
  }

  /** So it happens whenever two flushes straddle a power of ten. */
  lemma {:induction false} StaleAtNewDigit(cfg: Config, w: nat) returns (states: seq<Store>, ops: seq<Op>)
    requires w >= 1
    ensures RunWith(cfg, states, ops, [Pow10(w) - 1, Pow10(w)])
    ensures LastPut(PutsOf(ops), [1]) == Some(Plain(1, 1))
    ensures var found := Scan(cfg, states[|ops|], EVERYTHING); [1] in found && found[[1]] == Plain(1, 0)
  {
    hide TableName, Pow10, Less, Scan, LastPut, RunWith, PutsOf;
    DigitGained(w);
    LessAsymmetric(TableName(Pow10(w)), TableName(Pow10(w) - 1));
    states, ops := StaleRun(cfg, [Pow10(w) - 1, Pow10(w)], 0, 1);
  }

  lemma {:induction false} LastOf(es: seq<Entity>, j: nat)
    requires j < |es| && forall k :: j < k < |es| ==> es[k].entityID != es[j].entityID
    ensures LastPut(es, es[j].entityID) == Some(es[j])
  {
    if j < |es| - 1 {
      LastOf(es[..|es| - 1], j);
    }
  }

  lemma {:induction false} VersionsApart(cfg: Config, clocks: seq<nat>, es: seq<Entity>, i: nat, j: nat)
    requires |clocks| == |es| && i < j < |es|
    requires forall k, l :: 0 <= k < l < |clocks| ==> TableName(clocks[k]) != TableName(clocks[l])
    requires forall k :: 0 <= k < |es| ==> es[k] == if k == i then Plain(1, 0) else if k == j then Plain(1, 1) else Plain(2, 0)
    ensures TwoVersions(cfg, DirOf(cfg, clocks, es), TableName(clocks[i]), Plain(1, 0), TableName(clocks[j]), Plain(1, 1))
  {
    hide TableName, FileOf, DirOf;
    DirHolds(cfg, clocks, es);
    assert NoLater(clocks, i) && NoLater(clocks, j);
    var dir := DirOf(cfg, clocks, es);
    forall n | n in dir && n != TableName(clocks[i]) && n != TableName(clocks[j])
      ensures IsPlain(Plain(2, 0)) && Plain(2, 0).entityID != [1] && dir[n] == FileOf(cfg, Plain(2, 0))
    {
      var k :| 0 <= k < |es| && NoLater(clocks, k) && TableName(clocks[k]) == n;
    }
  }

  /** Some run with these numbers ends in a store that does not refine the map of last puts. */
  lemma {:induction false} OutOfOrder(cfg: Config, clocks: seq<nat>)
    requires !InNameOrder(clocks)
    ensures !AlwaysRefines(cfg, clocks)
  {
    hide PutsOf, FlushClocks, Admitted, SmallFiles, TableName, Scan, Less, SortsBefore, Expected, Panics;
    var states, ops;
    if i, j :| 0 <= i < j < |clocks| && TableName(clocks[i]) == TableName(clocks[j]) {
      states, ops := LostRun(cfg, clocks, i, j);
      MustShow(PutsOf(ops), Plain(1, 0));
    } else {
      var i, j :| 0 <= i < j < |clocks| && !SortsBefore(clocks[i], clocks[j]);
      NameOrder(clocks[i], clocks[j]);
      LessTotal(TableName(clocks[i]), TableName(clocks[j]));
      states, ops := StaleRun(cfg, clocks, i, j);
      MustShowLast(PutsOf(ops), Plain(1, 1));
    }
    assert !Refines(cfg, states[|ops|], PutsOf(ops)) by {
      assert Scan(cfg, states[|ops|], EVERYTHING) != Expected(PutsOf(ops), EVERYTHING);
    }
  }

  lemma {:induction false} MustShow(puts: seq<Entity>, e: Entity)
    requires e in puts
    ensures e.entityID in Expected(puts, EVERYTHING)
  {
    hide LastPut;
    LastPutIs(puts, e.entityID);
  }

  lemma {:induction false} MustShowLast(puts: seq<Entity>, e: Entity)
    requires LastPut(puts, e.entityID) == Some(e)
    ensures e.entityID in Expected(puts, EVERYTHING) && Expected(puts, EVERYTHING)[e.entityID] == e
  {
    hide LastPut;
    LastPutIs(puts, e.entityID);
  }

  /** The store refines the map of last puts over all runs with these flush numbers exactly when each number's file
      name sorts after the names of all before it. */
  lemma {:induction false} FlushOrderExactly(cfg: Config, clocks: seq<nat>)
    ensures AlwaysRefines(cfg, clocks) <==> InNameOrder(clocks)
  {
    if InNameOrder(clocks) {
      InOrderRefines(cfg, clocks);
    } else {
      OutOfOrder(cfg, clocks);
    }
  }

  lemma {:induction false} InOrderRefines(cfg: Config, clocks: seq<nat>)
    requires InNameOrder(clocks)
    ensures AlwaysRefines(cfg, clocks)
  {
    hide Admitted, FlushClocks, PutsOf, SmallFiles, Scan, Expected, Panics, InNameOrder, OneTenant;
    forall states: seq<Store>, ops: seq<Op> | RunWith(cfg, states, ops, clocks)
      ensures Refines(cfg, states[|ops|], PutsOf(ops))
    {
      RunRefinesMap(cfg, states, ops, EVERYTHING);
      forall q: Range | q.tenant == [] || OneTenant(PutsOf(ops))
        ensures Scan(cfg, states[|ops|], q) == Expected(PutsOf(ops), q)
      {
        RunRefinesMap(cfg, states, ops, q);
      }
    }
  }
}
