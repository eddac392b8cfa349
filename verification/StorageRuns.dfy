/** Every step of the store keeps its invariant, so every run refines the plain map of last puts. */
module StorageRuns {
  import opened Prelude
  import opened EntityCodec
  import opened Memtables
  import opened SSTableFormat
  import opened SSTableWriter
  import opened Storage
  import opened StorageTheory
  import opened TableNames
  import Wal
  import WalTheory

  // ----- put -----

  lemma {:induction false} LogStepKeeps(cfg: Config, s: Store, t: Store, puts: seq<Entity>, tables: seq<TableInfo>,
          e: Entity)
    requires Good(cfg, s, puts, tables) && LogStep(cfg, s, t, e) && Admissible(e)
    ensures Good(cfg, t, puts + [e], tables)
  {
    hide Encodes, GoodWal, GoodMem, GoodDir, Covers, Admissible, MemPut;
    var b :| Encodes(b, e) && t == s.(wal := Wal.AppendTo(cfg.crc, cfg.maxFileSize, s.wal, b), mem := MemPut(s.mem, e));
    GoodWalAppend(cfg, s.wal, puts, b, e);
    MemPutKeeps(s.mem, e);
    CoversPut(s.mem, tables, puts, e);
  }

  lemma {:induction false} GoodWalAppend(cfg: Config, w: Wal.WalState, puts: seq<Entity>, b: Bytes, e: Entity)
    requires w.fileSequence in w.files && GoodWal(cfg, w, puts) && Encodes(b, e)
    ensures GoodWal(cfg, Wal.AppendTo(cfg.crc, cfg.maxFileSize, w, b), puts + [e])
  {
    hide Encodes, WalTheory.HoldsLog, Wal.AppendTo;
    var payloads :| WalTheory.HoldsLog(cfg.crc, cfg.maxFileSize, w, payloads) && |payloads| == |puts|
      && forall i :: 0 <= i < |puts| ==> Encodes(payloads[i], puts[i]);
    WalTheory.StepHolds(cfg.crc, cfg.maxFileSize, w, payloads, WalTheory.Append(b));
    var more := payloads + [b];
    assert forall i :: 0 <= i < |puts + [e]| ==> Encodes(more[i], (puts + [e])[i]);
  }

  lemma {:induction false} MemPutKeeps(m: MemState, e: Entity)
    requires GoodMem(m) && Admissible(e)
    ensures GoodMem(MemPut(m, e))
  {
    hide Admissible;
  }

  lemma {:induction false} CoversPut(m: MemState, tables: seq<TableInfo>, puts: seq<Entity>, e: Entity)
    requires GoodMem(m) && GoodMem(MemPut(m, e)) && Covers(m, tables, puts)
    ensures Covers(MemPut(m, e), tables, puts + [e])
  {
    hide LastPut, NewestTable, GoodMem;
    MemNonempty(m);
    MemNonempty(MemPut(m, e));
    forall id
      ensures Newest(MemPut(m, e), tables, 0, id) == LastPut(puts + [e], id)
    {
      LastPutSnoc(puts, e, id);
      assert Newest(m, tables, 0, id) == LastPut(puts, id);
    }
  }

  // ----- flush -----

  /** The clock's number sorts after every table so far. */
  ghost predicate ClockOk(tables: seq<TableInfo>, clock: nat) {
    forall t :: t in tables ==> SortsBefore(t.seqNo, clock)
  }

  lemma {:induction false} FlushStepKeeps(cfg: Config, s: Store, t: Store, puts: seq<Entity>, tables: seq<TableInfo>,
          clock: nat) returns (more: seq<TableInfo>)
    requires Good(cfg, s, puts, tables) && FlushStep(cfg, s, t, clock)
    requires s.mem.data != map[] ==> ClockOk(tables, clock)
    ensures Good(cfg, t, puts, more)
    ensures forall x :: x in more ==> x in tables || (s.mem.data != map[] && x.seqNo == clock)
    ensures EntsOf(more) == EntsOf(tables) + Tabled(s.mem)
  {
    hide GoodWal, GoodMem, GoodDir, Covers, Admissible, ClockOk, Listing, TableBytes, InOrder, RowsFor;
    EmptyMemGood();
    if s.mem.data == map[] {
      more := tables;
      FlushNothing(s.mem, tables, puts);
    } else {
      var ents := InOrder(s.mem.data, Listing(s.mem.data.Keys));
      var rows :| RowsFor(rows, ents)
        && t == s.(mem := EMPTY_MEM, dir := s.dir[TableName(clock) := TableBytes(cfg.crc, rows)]);
      var table := TableInfo(clock, rows, ents);
      FlushedTableGood(s.mem, table);
      GoodDirAdd(cfg, s.dir, tables, table);
      CoversFlush(s.mem, tables, puts, table);
      more := tables + [table];
      assert EntsOf(more) == EntsOf(tables) + [ents];
    }
  }

  /** The table that a flush writes, if any: the memtable's entities by id and then in order of arrival. */
  ghost function Tabled(m: MemState): seq<seq<Entity>> {
    if m.data == map[] then [] else [InOrder(m.data, Listing(m.data.Keys))]
  }

  lemma EmptyMemGood()
    ensures GoodMem(EMPTY_MEM)
  {
  }

  lemma FlushNothing(m: MemState, tables: seq<TableInfo>, puts: seq<Entity>)
    requires GoodMem(m) && Covers(m, tables, puts) && m.data == map[]
    ensures Covers(EMPTY_MEM, tables, puts)
  {
    forall id
      ensures Newest(EMPTY_MEM, tables, 0, id) == LastPut(puts, id)
    {
      assert Newest(m, tables, 0, id) == LastPut(puts, id);
    }
  }

  /** Before a further group of entities with a later id, the order and the last entities are known. */
  lemma {:induction false} GroupFollows(before: seq<Entity>, group: seq<Entity>, ids: seq<Bytes>, id: Bytes)
    requires forall i, j :: 0 <= i < j < |before| ==> !Less(before[j].entityID, before[i].entityID)
    requires (forall e :: e in before ==> e.entityID in ids) && forall e :: e in group ==> e.entityID == id
    requires forall k :: k in ids ==> Less(k, id)
    ensures var all := before + group; forall i, j :: 0 <= i < j < |all| ==> !Less(all[j].entityID, all[i].entityID)
  {
    hide Less;
    var all := before + group;
    NotLessSelf(id);
    forall i, j | 0 <= i < j < |all|
      ensures !Less(all[j].entityID, all[i].entityID)
    {
      if j >= |before| {
        assert all[j] in group;
        if i < |before| {
          assert before[i] in before;
          LessAsymmetric(before[i].entityID, id);
        } else {
          assert all[i] in group;
        }
      }
    }
  }

  lemma {:induction false} EarlierIDs(ids: seq<Bytes>)
    requires Ascending(ids) && ids != []
    ensures var n := |ids| - 1;
            (forall k :: k in ids[..n] ==> Less(k, ids[n])) && ids[n] !in ids[..n] && forall k :: k in ids <==> k in ids[..n] || k == ids[n]
  {
    hide Less;
    var n := |ids| - 1;
    assert ids == ids[..n] + [ids[n]];
    forall k | k in ids[..n]
      ensures Less(k, ids[n]) && k != ids[n]
    {
      var i :| 0 <= i < n && ids[i] == k;
      LessAsymmetric(k, ids[n]);
    }
  }

  /** The entities in flush order: sorted by id, and the last one of an id is the memtable's last. */
  lemma {:induction false} InOrderIs(data: map<Bytes, seq<Entity>>, ids: seq<Bytes>)
    requires forall id :: id in ids ==> id in data
    requires forall id :: id in data ==> data[id] != [] && forall e :: e in data[id] ==> e.entityID == id
    requires Ascending(ids)
    ensures var es := InOrder(data, ids);
            && (forall i, j :: 0 <= i < j < |es| ==> !Less(es[j].entityID, es[i].entityID))
            && (forall e :: e in es ==> e.entityID in ids && e in data[e.entityID])
            && forall id :: LastPut(es, id) == if id in ids then Some(data[id][|data[id]| - 1]) else None
  {
    if ids != [] {
      hide Less, LastPut;
      var n := |ids| - 1;
      var before: seq<Entity>, group: seq<Entity> := InOrder(data, ids[..n]), data[ids[n]];
      InOrderIs(data, ids[..n]);
      EarlierIDs(ids);
      GroupFollows(before, group, ids[..n], ids[n]);
      forall id
        ensures LastPut(before + group, id) == if id in ids then Some(data[id][|data[id]| - 1]) else None
      {
        LastPutAppend(before, group, id);
        GroupLast(group, ids[n], id);
      }
    }
  }

  lemma NotLessSelf(a: Bytes)
    ensures !Less(a, a)
  {
    if Less(a, a) {
      LessAsymmetric(a, a);
    }
  }

  lemma {:induction false} GroupLast(group: seq<Entity>, key: Bytes, id: Bytes)
    requires group != [] && forall e :: e in group ==> e.entityID == key
    ensures LastPut(group, id) == if id == key then Some(group[|group| - 1]) else None
  {
    assert group[|group| - 1] in group;
    if id != key {
      LastPutIs(group, id);
    }
  }

  lemma {:induction false} FlushedTableGood(m: MemState, t: TableInfo)
    requires GoodMem(m) && t.ents == InOrder(m.data, Listing(m.data.Keys)) && RowsFor(t.rows, t.ents)
    ensures GoodTable(t)
    ensures forall id :: LastPut(t.ents, id) == if id in m.data then Some(m.data[id][|m.data[id]| - 1]) else None
    ensures forall e :: e in t.ents ==> e.entityID in m.data && e in m.data[e.entityID]
  {
    hide Listing, InOrder, LastPut, Less, Encodes, Admissible;
    var ids := Listing(m.data.Keys);
    forall id
      ensures id in ids <==> id in m.data
    {
      assert id in ids <==> id in Elements(ids);
    }
    InOrderIs(m.data, ids);
    forall i, j | 0 <= i < j < |t.rows|
      ensures !Less(t.rows[j].entityID, t.rows[i].entityID)
    {
      assert RowFor(t.rows[i], t.ents[i]) && RowFor(t.rows[j], t.ents[j]);
    }
  }

  lemma {:induction false} GoodDirAdd(cfg: Config, dir: map<Bytes, Bytes>, tables: seq<TableInfo>, t: TableInfo)
    requires GoodDir(cfg, dir, tables) && GoodTable(t) && ClockOk(tables, t.seqNo)
    ensures GoodDir(cfg, dir[TableName(t.seqNo) := TableBytes(cfg.crc, t.rows)], tables + [t])
  {
    hide GoodTable, TableBytes, TableName, SortsBefore, Less;
    var name := TableName(t.seqNo);
    var more, after := tables + [t], dir[name := TableBytes(cfg.crc, t.rows)];
    forall x | x in more
      ensures GoodTable(x) && TableName(x.seqNo) in after && after[TableName(x.seqNo)] == TableBytes(cfg.crc, x.rows)
    {
      if x in tables {
        NameOrder(x.seqNo, t.seqNo);
        LessAsymmetric(TableName(x.seqNo), name);
      }
    }
    forall n | n in after
      ensures exists x :: x in more && TableName(x.seqNo) == n
    {
      if n == name {
        assert t in more;
      } else {
        var x :| x in tables && TableName(x.seqNo) == n;
        assert x in more;
      }
    }
    forall i, j | 0 <= i < j < |more|
      ensures SortsBefore(more[i].seqNo, more[j].seqNo)
    {
      if j == |tables| {
        assert tables[i] in tables;
      }
    }
  }

  lemma {:induction false} CoversFlush(m: MemState, tables: seq<TableInfo>, puts: seq<Entity>, t: TableInfo)
    requires GoodMem(m) && Covers(m, tables, puts)
    requires forall id :: LastPut(t.ents, id) == if id in m.data then Some(m.data[id][|m.data[id]| - 1]) else None
    requires forall e :: e in t.ents ==> e.entityID in m.data && e in m.data[e.entityID]
    ensures Covers(EMPTY_MEM, tables + [t], puts)
  {
    hide LastPut, GoodMem;
    MemNonempty(m);
    var more := tables + [t];
    assert more[0..] == more && tables[0..] == tables && more[..|tables|] == tables;
    forall id
      ensures Newest(EMPTY_MEM, more, 0, id) == LastPut(puts, id)
    {
      assert Newest(m, tables, 0, id) == LastPut(puts, id);
    }
  }

  // ----- crash and replay -----

  /** The memtable that replaying all puts builds. */
  function MemOf(m: MemState, es: seq<Entity>): MemState
    decreases |es|
  {
    if es == [] then m else MemOf(MemPut(m, es[0]), es[1..])
  }

  lemma {:induction false} RebuildDecodes(m: MemState, payloads: seq<Bytes>, es: seq<Entity>)
    requires |payloads| == |es| && forall i :: 0 <= i < |es| ==> Encodes(payloads[i], es[i]) && Fits(es[i])
    ensures Rebuild(m, payloads) == MemOf(m, es)
    decreases |es|
  {
    if es != [] {
      hide Encodes, ParseEntity, Fits, MemPut;
      Decodes(payloads[0], es[0]);
      RebuildDecodes(MemPut(m, es[0]), payloads[1..], es[1..]);
    }
  }

  /** A memtable holds exactly what was put into it. */
  ghost predicate MemHolds(m: MemState, es: seq<Entity>) {
    && GoodMem(m)
    && (forall id :: (id in m.data <==> LastPut(es, id).Some?))
    && (forall id :: id in m.data ==> m.data[id][|m.data[id]| - 1] == LastPut(es, id).value)
    && forall id, e :: id in m.data && e in m.data[id] ==> e in es
  }

  lemma {:induction false} MemPutHolds(m: MemState, es: seq<Entity>, e: Entity)
    requires MemHolds(m, es) && Admissible(e)
    ensures MemHolds(MemPut(m, e), es + [e])
  {
    hide LastPut, Admissible;
    MemPutKeeps(m, e);
    forall id
      ensures LastPut(es + [e], id) == if e.entityID == id then Some(e) else LastPut(es, id)
    {
      LastPutSnoc(es, e, id);
    }
  }

  lemma {:induction false} MemOfIs(m: MemState, before: seq<Entity>, es: seq<Entity>)
    requires MemHolds(m, before) && forall e :: e in es ==> Admissible(e)
    ensures MemHolds(MemOf(m, es), before + es)
    decreases |es|
  {
    hide MemHolds, Admissible, MemPut;
    if es == [] {
      assert before + es == before;
    } else {
      MemPutHolds(m, before, es[0]);
      MemOfIs(MemPut(m, es[0]), before + [es[0]], es[1..]);
      assert before + [es[0]] + es[1..] == before + es;
    }
  }

  lemma {:induction false} CrashStepKeeps(cfg: Config, s: Store, t: Store, puts: seq<Entity>, tables: seq<TableInfo>)
    requires Good(cfg, s, puts, tables) && CrashStep(cfg, s, t)
    ensures Good(cfg, t, puts, tables)
  {
    hide GoodDir, Covers, GoodMem, Encodes, Wal.Reopen, Wal.ReplayDir, Wal.Beyond, WalTheory.HoldsLog, Admissible, Restore;
    var payloads :| WalTheory.HoldsLog(cfg.crc, cfg.maxFileSize, s.wal, payloads) && |payloads| == |puts|
      && forall i :: 0 <= i < |puts| ==> Encodes(payloads[i], puts[i]);
    WalTheory.StepHolds(cfg.crc, cfg.maxFileSize, s.wal, payloads, WalTheory.CloseAndReopen);
    assert payloads + [] == payloads;
    PayloadsFit(payloads, puts);
    WalTheory.LogReplays(cfg.crc, cfg.maxFileSize, AcceptAll(), t.wal, payloads);
    WalTheory.DeliverAll(AcceptAll(), payloads);
    LastIsOpen(cfg, t.wal, payloads);
    CrashMem(s.mem, t.mem, payloads, puts, tables);
  }

  lemma {:induction false} LastIsOpen(cfg: Config, w: Wal.WalState, log: seq<Bytes>)
    requires WalTheory.HoldsLog(cfg.crc, cfg.maxFileSize, w, log)
    ensures w.fileSequence in w.files
  {
    hide FlatMap;
  }

  lemma {:induction false} PayloadsFit(payloads: seq<Bytes>, puts: seq<Entity>)
    requires |payloads| == |puts| && forall i :: 0 <= i < |puts| ==> Encodes(payloads[i], puts[i])
    requires forall e :: e in puts ==> Admissible(e)
    ensures WalTheory.AllFit(payloads)
  {
    hide Encodes, Fits;
    forall p | p in payloads
      ensures |p| < TWO32
    {
      var i :| 0 <= i < |payloads| && payloads[i] == p;
      assert puts[i] in puts;
    }
  }

  lemma {:induction false} CrashMem(before: MemState, after: MemState, payloads: seq<Bytes>, puts: seq<Entity>,
          tables: seq<TableInfo>)
    requires GoodMem(before) && Covers(before, tables, puts) && after == Restore(payloads)
    requires |payloads| == |puts| && forall i :: 0 <= i < |puts| ==> Encodes(payloads[i], puts[i])
    requires forall e :: e in puts ==> Admissible(e)
    ensures GoodMem(after) && Covers(after, tables, puts)
  {
    hide Encodes, Fits, MemHolds, GoodMem, Covers, MemOf, Rebuild;
    forall i | 0 <= i < |puts|
      ensures Fits(puts[i])
    {
      assert puts[i] in puts;
    }
    RebuildDecodes(EMPTY_MEM, payloads, puts);
    NothingPut();
    MemOfIs(EMPTY_MEM, [], puts);
    assert [] + puts == puts;
    RestoredCovers(before, after, puts, tables);
  }

  lemma {:induction false} RestoredCovers(before: MemState, after: MemState, puts: seq<Entity>, tables: seq<TableInfo>)
    requires GoodMem(before) && Covers(before, tables, puts) && MemHolds(after, puts)
    ensures GoodMem(after) && Covers(after, tables, puts)
  {
    hide LastPut, NewestTable, Admissible;
    forall id
      ensures Newest(after, tables, 0, id) == LastPut(puts, id)
    {
      assert Newest(before, tables, 0, id) == LastPut(puts, id);
    }
  }

  lemma NothingPut()
    ensures MemHolds(EMPTY_MEM, [])
  {
  }

  // ----- runs -----

  /** clock is what the clock reads should the operation flush. */
  datatype Op = PutOp(e: Entity, clock: nat) | FlushOp(clock: nat) | CrashOp

  ghost function InitialStore(cfg: Config): Store {
    Store(Wal.Reopen(cfg.maxFileSize, map[]), EMPTY_MEM, map[])
  }

  ghost predicate Step(cfg: Config, s: Store, op: Op, t: Store) {
    match op
    case PutOp(e, clock) => s.wal.fileSequence in s.wal.files && PutStep(cfg, s, t, e, clock)
    case FlushOp(clock) => FlushStep(cfg, s, t, clock)
    case CrashOp => CrashStep(cfg, s, t)
  }

  ghost predicate Run(cfg: Config, states: seq<Store>, ops: seq<Op>) {
    && |states| == |ops| + 1
    && states[0] == InitialStore(cfg)
    && forall i :: 0 <= i < |ops| ==> Step(cfg, states[i], ops[i], states[i + 1])
  }

  function PutsOf(ops: seq<Op>): seq<Entity> {
    if ops == [] then []
    else
      var n := |ops| - 1;
      PutsOf(ops[..n]) + (if ops[n].PutOp? then [ops[n].e] else [])
  }

  /** The operation writes a table: the memtable holds something, and a put makes it reach its limit. */
  predicate Flushes(cfg: Config, s: Store, op: Op) {
    match op
    case PutOp(e, _) => MemPut(s.mem, e).size >= DefaultedSize(cfg.maxMemSize)
    case FlushOp(_) => s.mem.data != map[]
    case CrashOp => false
  }

  function NewClock(cfg: Config, s: Store, op: Op): seq<nat> {
    if Flushes(cfg, s, op) then [op.clock] else []
  }

  /** The numbers given to tables, in order. */
  function FlushClocks(cfg: Config, states: seq<Store>, ops: seq<Op>): seq<nat>
    requires |states| == |ops| + 1
  {
    if ops == [] then []
    else
      var n := |ops| - 1;
      FlushClocks(cfg, states[..n + 1], ops[..n]) + NewClock(cfg, states[n], ops[n])
  }

  /** The entities of the table that the operation writes, if it writes one. */
  ghost function NewTable(cfg: Config, s: Store, op: Op): seq<seq<Entity>> {
    if !Flushes(cfg, s, op) then [] else Tabled(if op.PutOp? then MemPut(s.mem, op.e) else s.mem)
  }

  /** The entities of the tables written, in order. */
  ghost function FlushedTables(cfg: Config, states: seq<Store>, ops: seq<Op>): seq<seq<Entity>>
    requires |states| == |ops| + 1
  {
    if ops == [] then []
    else
      var n := |ops| - 1;
      FlushedTables(cfg, states[..n + 1], ops[..n]) + NewTable(cfg, states[n], ops[n])
  }

  /** Each number sorts, as a file name, after all before it. */
  ghost predicate InNameOrder(clocks: seq<nat>) {
    forall i, j :: 0 <= i < j < |clocks| ==> SortsBefore(clocks[i], clocks[j])
  }

  /** Named entities whose encodings fit. */
  ghost predicate Admitted(ops: seq<Op>) {
    forall op :: op in ops && op.PutOp? ==> Admissible(op.e)
  }

  /** Every table carries a number drawn by a flush. */
  ghost predicate Dated(tables: seq<TableInfo>, clocks: seq<nat>) {
    forall t :: t in tables ==> t.seqNo in clocks
  }

  lemma {:induction false} RunGood(cfg: Config, states: seq<Store>, ops: seq<Op>) returns (tables: seq<TableInfo>)
    requires Run(cfg, states, ops) && Admitted(ops) && InNameOrder(FlushClocks(cfg, states, ops))
    ensures Good(cfg, states[|ops|], PutsOf(ops), tables) && Dated(tables, FlushClocks(cfg, states, ops))
    ensures EntsOf(tables) == FlushedTables(cfg, states, ops)
    decreases |ops|
  {
    hide Good, Step, Dated, InNameOrder, Admissible, Flushes, NewTable;
    if ops == [] {
      tables := [];
      InitialGood(cfg);
      NotDated();
    } else {
      var n := |ops| - 1;
      assert forall op :: op in ops[..n] ==> op in ops;
      var clocks := FlushClocks(cfg, states[..n + 1], ops[..n]);
      EarlierClocks(clocks, NewClock(cfg, states[n], ops[n]));
      var before := RunGood(cfg, states[..n + 1], ops[..n]);
      assert ops[n] in ops;
      NextClock(cfg, states[n], ops[n], clocks, before);
      tables := StepKeeps(cfg, states[n], ops[n], states[n + 1], PutsOf(ops[..n]), before);
      DatedNext(before, tables, clocks, NewClock(cfg, states[n], ops[n]));
    }
  }

  lemma EarlierClocks(clocks: seq<nat>, more: seq<nat>)
    requires InNameOrder(clocks + more)
    ensures InNameOrder(clocks)
  {
    assert forall i :: 0 <= i < |clocks| ==> clocks[i] == (clocks + more)[i];
  }

  lemma InitialGood(cfg: Config)
    ensures Good(cfg, InitialStore(cfg), [], [])
  {
    WalTheory.EmptyHolds(cfg.crc, cfg.maxFileSize);
    var payloads: seq<Bytes> := [];
    assert WalTheory.HoldsLog(cfg.crc, cfg.maxFileSize, InitialStore(cfg).wal, payloads);
    assert GoodWal(cfg, InitialStore(cfg).wal, []);
    var none: seq<TableInfo> := [];
    assert none[0..] == none;
  }

  lemma NotDated()
    ensures Dated([], [])
  {
  }

  lemma {:induction false} NextClock(cfg: Config, s: Store, op: Op, clocks: seq<nat>, tables: seq<TableInfo>)
    requires Dated(tables, clocks) && InNameOrder(clocks + NewClock(cfg, s, op))
    ensures Flushes(cfg, s, op) ==> ClockOk(tables, op.clock)
  {
    hide SortsBefore;
    if Flushes(cfg, s, op) {
      forall t | t in tables
        ensures SortsBefore(t.seqNo, op.clock)
      {
        var i :| 0 <= i < |clocks| && clocks[i] == t.seqNo;
        assert (clocks + [op.clock])[i] == t.seqNo && (clocks + [op.clock])[|clocks|] == op.clock;
      }
    }
  }

  lemma {:induction false} DatedNext(before: seq<TableInfo>, tables: seq<TableInfo>, clocks: seq<nat>, more: seq<nat>)
    requires Dated(before, clocks) && forall t :: t in tables ==> t in before || t.seqNo in more
    ensures Dated(tables, clocks + more)
  {
  }

  lemma {:induction false} LogStepMem(cfg: Config, s: Store, m: Store, e: Entity)
    requires s.wal.fileSequence in s.wal.files && LogStep(cfg, s, m, e)
    ensures m.mem == MemPut(s.mem, e) && m.mem.data != map[]
  {
    hide Encodes, RowSize;
    assert e.entityID in m.mem.data;
  }

  /** Every step keeps the invariant. */
  lemma {:induction false} StepKeeps(cfg: Config, s: Store, op: Op, t: Store, puts: seq<Entity>, tables: seq<TableInfo>)
          returns (more: seq<TableInfo>)
    requires Good(cfg, s, puts, tables) && Step(cfg, s, op, t)
    requires op.PutOp? ==> Admissible(op.e)
    requires Flushes(cfg, s, op) ==> ClockOk(tables, op.clock)
    ensures Good(cfg, t, puts + (if op.PutOp? then [op.e] else []), more)
    ensures forall x :: x in more ==> x in tables || (Flushes(cfg, s, op) && x.seqNo == op.clock)
    ensures EntsOf(more) == EntsOf(tables) + NewTable(cfg, s, op)
  {
    hide Good, FlushStep, CrashStep, LogStep, ClockOk, Admissible, EntsOf, InOrder, Listing;
    more := tables;
    assert puts + [] == puts && EntsOf(tables) + [] == EntsOf(tables);
    match op {
      case PutOp(e, clock) =>
        var m: Store :| LogStep(cfg, s, m, e) && if m.mem.size >= DefaultedSize(cfg.maxMemSize) then FlushStep(cfg, m, t, clock) else t == m;
        LogStepKeeps(cfg, s, m, puts, tables, e);
        LogStepMem(cfg, s, m, e);
        if m.mem.size >= DefaultedSize(cfg.maxMemSize) {
          more := FlushStepKeeps(cfg, m, t, puts + [e], tables, clock);
        }
      case FlushOp(clock) =>
        more := FlushStepKeeps(cfg, s, t, puts, tables, clock);
      case CrashOp =>
        CrashStepKeeps(cfg, s, t, puts, tables);
    }
  }

  /** After any run no scan panics, and a scan of any range returns exactly the last-put entities there that the tenant
      may see, if and only if no flush wrote an older version for the tenant of an id last put for another. */
  lemma {:induction false} RunScansExactly(cfg: Config, states: seq<Store>, ops: seq<Op>, q: Range)
    requires Run(cfg, states, ops) && Admitted(ops) && InNameOrder(FlushClocks(cfg, states, ops))
    requires SmallFiles(states[|ops|].dir)
    ensures !Panics(states[|ops|].dir)
    ensures Scan(cfg, states[|ops|], q) == Expected(PutsOf(ops), q) <==>
            NoGhosts(FlushedTables(cfg, states, ops), PutsOf(ops), q)
  {
    hide Run, Admitted, InNameOrder, FlushClocks, Scan, Expected, Dated, SmallFiles, Panics, PutsOf, NoGhosts;
    hide GoodWal, GoodMem, GoodDir, Covers, Admissible, FlushedTables;
    RunShape(cfg, states, ops);
    var tables := RunGood(cfg, states, ops);
    ScanExactly(cfg, states[|ops|], PutsOf(ops), tables, q);
    NoPanic(cfg, states[|ops|].dir, tables);
  }

  /** In particular without a tenant, or when no id ever changes its tenant, it is the scan of the map of last puts. */
  lemma {:induction false} RunRefinesMap(cfg: Config, states: seq<Store>, ops: seq<Op>, q: Range)
    requires Run(cfg, states, ops) && Admitted(ops) && InNameOrder(FlushClocks(cfg, states, ops))
    requires SmallFiles(states[|ops|].dir)
    requires q.tenant == [] || OneTenant(PutsOf(ops))
    ensures !Panics(states[|ops|].dir)
    ensures Scan(cfg, states[|ops|], q) == Expected(PutsOf(ops), q)
  {
    hide Run, Admitted, InNameOrder, FlushClocks, Scan, Expected, SmallFiles, Panics, OneTenant, PutsOf, NoGhosts;
    hide GoodWal, GoodMem, GoodDir, Covers, Admissible, Dated, FlushedTables;
    RunShape(cfg, states, ops);
    RunScansExactly(cfg, states, ops, q);
    var tables := RunGood(cfg, states, ops);
    OneTenantNoGhosts(states[|ops|].mem, tables, PutsOf(ops), q);
  }

  lemma RunShape(cfg: Config, states: seq<Store>, ops: seq<Op>)
    requires Run(cfg, states, ops)
    ensures |states| == |ops| + 1
  {
  }
}
