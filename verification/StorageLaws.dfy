/** What the scans of cmd/allidbd/storage_service.go mean for a caller, in terms of the order of ids and of the puts alone,
    and what damaged data does to them. */
module StorageLaws {
  import opened Prelude
  import opened EntityCodec
  import opened Memtables
  import opened SSTableFormat
  import opened SSTableReader
  import opened Storage
  import opened StorageTheory
  import opened StorageRuns
  import Wal
  import WalTheory

  // ----- what was put -----

  /** Some put of the entity has no later put of its id. */
  ghost predicate IsLastPut(puts: seq<Entity>, e: Entity) {
    exists i :: 0 <= i < |puts| && puts[i] == e && forall j :: i < j < |puts| ==> puts[j].entityID != e.entityID
  }

  lemma {:induction false} LastPutMeans(puts: seq<Entity>, id: Bytes, e: Entity)
    ensures LastPut(puts, id) == Some(e) <==> e.entityID == id && IsLastPut(puts, e)
  {
    if puts != [] {
      var n := |puts| - 1;
      LastPutMeans(puts[..n], id, e);
      if puts[n].entityID == id {
        assert IsLastPut(puts, puts[n]);
      } else if IsLastPut(puts[..n], e) && e.entityID == id {
        var i :| 0 <= i < n && puts[..n][i] == e && forall j :: i < j < n ==> puts[..n][j].entityID != e.entityID;
        assert puts[i] == e && forall j :: i < j < |puts| ==> puts[j].entityID != e.entityID;
      }
      if IsLastPut(puts, e) && e.entityID == id && puts[n].entityID != id {
        var i :| 0 <= i < |puts| && puts[i] == e && forall j :: i < j < |puts| ==> puts[j].entityID != e.entityID;
        assert puts[..n][i] == e;
      }
    }
  }

  // ----- what a scan returns -----

  /** After any run in name order a scan returns an entity exactly when it is the last put of its id, the id is not below a
      nonempty start and is below a nonempty end, and the entity belongs to the tenant, if one is given. */
  lemma {:induction false} RunScanMeans(cfg: Config, states: seq<Store>, ops: seq<Op>, q: Range, id: Bytes, e: Entity)
    requires Run(cfg, states, ops) && Admitted(ops) && InNameOrder(FlushClocks(cfg, states, ops))
    requires SmallFiles(states[|ops|].dir) && (q.tenant == [] || OneTenant(PutsOf(ops)))
    ensures var found := Scan(cfg, states[|ops|], q);
            (id in found && found[id] == e) <==>
              && e.entityID == id && IsLastPut(PutsOf(ops), e)
              && (q.start == [] || !Less(id, q.start)) && (q.end == [] || Less(id, q.end))
              && (q.tenant == [] || e.tenantID == q.tenant)
  {
    hide Run, Admitted, InNameOrder, FlushClocks, Scan, SmallFiles, Panics, PutsOf, OneTenant, LastPut, IsLastPut;
    RunShape(cfg, states, ops);
    RunRefinesMap(cfg, states, ops, q);
    LastPutMeans(PutsOf(ops), id, e);
    LastPutIs(PutsOf(ops), id);
  }

  ghost predicate Disjoint(a: Found, b: Found) {
    forall id :: !(id in a && id in b)
  }

  /** Cutting a range anywhere cuts its scan in two: an entity at the cut belongs to the second part alone. */
  lemma {:induction false} RunScansPartition(cfg: Config, states: seq<Store>, ops: seq<Op>, q: Range, mid: Bytes)
    requires Run(cfg, states, ops) && Admitted(ops) && InNameOrder(FlushClocks(cfg, states, ops))
    requires SmallFiles(states[|ops|].dir) && (q.tenant == [] || OneTenant(PutsOf(ops)))
    requires mid != [] && !Less(mid, q.start) && (q.end == [] || !Less(q.end, mid))
    ensures var low, high := Scan(cfg, states[|ops|], q.(end := mid)), Scan(cfg, states[|ops|], q.(start := mid));
            Disjoint(low, high) && Scan(cfg, states[|ops|], q) == low + high && mid !in low
  {
    hide Run, Admitted, InNameOrder, FlushClocks, Scan, SmallFiles, PutsOf, OneTenant, IsLastPut, Less;
    RunShape(cfg, states, ops);
    var s := states[|ops|];
    var all, low, high := Scan(cfg, s, q), Scan(cfg, s, q.(end := mid)), Scan(cfg, s, q.(start := mid));
    forall id
      ensures !(id in low && id in high)
      ensures id in all <==> id in low || id in high
      ensures id in low ==> id in all && all[id] == low[id]
      ensures id in high ==> id in all && all[id] == high[id]
    {
      CutAt(id, q.start, mid, q.end);
      if id in all {
        RunScanMeans(cfg, states, ops, q, id, all[id]);
        RunScanMeans(cfg, states, ops, q.(end := mid), id, all[id]);
        RunScanMeans(cfg, states, ops, q.(start := mid), id, all[id]);
      }
      if id in low {
        RunScanMeans(cfg, states, ops, q, id, low[id]);
        RunScanMeans(cfg, states, ops, q.(end := mid), id, low[id]);
        RunScanMeans(cfg, states, ops, q.(start := mid), id, low[id]);
      }
      if id in high {
        RunScanMeans(cfg, states, ops, q, id, high[id]);
        RunScanMeans(cfg, states, ops, q.(end := mid), id, high[id]);
        RunScanMeans(cfg, states, ops, q.(start := mid), id, high[id]);
      }
    }
    assert all == low + high;
    if mid in low {
      NotLessSelf(mid);
      RunScanMeans(cfg, states, ops, q.(end := mid), mid, low[mid]);
      assert false;
    }
  }

  /** Of the two parts of a range exactly one holds an id of the whole. */
  lemma {:induction false} CutAt(id: Bytes, start: Bytes, mid: Bytes, end: Bytes)
    requires !Less(mid, start) && (end == [] || !Less(end, mid))
    ensures Less(id, mid) && end != [] ==> Less(id, end)
    ensures !Less(id, mid) && start != [] ==> !Less(id, start)
  {
    hide Less;
    if Less(id, mid) && end != [] {
      LessTotal(mid, end);
      if Less(mid, end) {
        LessTransitive(id, mid, end);
      }
    }
    if Less(id, start) {
      LessTotal(start, mid);
      if Less(start, mid) {
        LessTransitive(id, start, mid);
      }
    }
  }

  // ----- any store, whatever its files hold -----

  ghost predicate WithinRange(found: Found, q: Range) {
    forall id :: id in found ==>
      && (q.start == [] || !Less(id, q.start)) && (q.end == [] || Less(id, q.end))
      && (q.tenant == [] || found[id].tenantID == q.tenant)
  }

  /** Whatever the files hold, a scan returns nothing outside its range and nothing of another tenant. */
  lemma {:induction false} ScanStaysWithin(cfg: Config, s: Store, q: Range)
    ensures WithinRange(Scan(cfg, s, q), q)
  {
    hide Less, Listing, ScanFiles;
    assert forall n :: n in Reversed(Listing(s.dir.Keys)) ==> n in Elements(Reversed(Listing(s.dir.Keys)));
    FilesStayWithin(cfg, s.dir, Reversed(Listing(s.dir.Keys)), q, ScanMem(s.mem, q));
  }

  lemma {:induction false} FilesStayWithin(cfg: Config, dir: map<Bytes, Bytes>, names: seq<Bytes>, q: Range,
          found: Found)
    requires WithinRange(found, q) && forall n :: n in names ==> n in dir
    ensures WithinRange(ScanFiles(cfg, dir, names, q, found), q)
  {
    hide Less, WithinRange, ScanIDs, OpenTable;
    if names != [] {
      var n := |names| - 1;
      FilesStayWithin(cfg, dir, names[..n], q, found);
      var before := ScanFiles(cfg, dir, names[..n], q, found);
      match OpenTable(dir[names[n]]) {
        case Opened(r) => IDsStayWithin(cfg, r, IDs(r.index), q, before);
        case Rejected =>
        case Panicked =>
      }
    }
  }

  lemma {:induction false} IDsStayWithin(cfg: Config, r: Reader, ids: seq<Bytes>, q: Range, found: Found)
    requires WithinRange(found, q)
    ensures WithinRange(ScanIDs(cfg, r, ids, q, found), q)
  {
    hide Less, WithinRange, ScanID;
    if ids != [] {
      var n := |ids| - 1;
      IDsStayWithin(cfg, r, ids[..n], q, found);
      IDStaysWithin(cfg, r, ids[n], q, ScanIDs(cfg, r, ids[..n], q, found));
    }
  }

  lemma {:induction false} IDStaysWithin(cfg: Config, r: Reader, id: Bytes, q: Range, found: Found)
    requires WithinRange(found, q)
    ensures WithinRange(ScanID(cfg, r, id, q, found), q)
  {
    hide Less, GetRows, ParseEntity;
  }

  predicate Readable(d: Bytes) {
    OpenTable(d).Opened?
  }

  /** Files that do not open are passed over: the scan is that of the other files. */
  lemma {:induction false} UnreadableFilesSkipped(cfg: Config, dir: map<Bytes, Bytes>, names: seq<Bytes>, q: Range,
          found: Found)
    requires forall n :: n in names ==> n in dir
    ensures var readable := Keep(n => n in dir && Readable(dir[n]), names);
            && (forall n :: n in readable ==> n in dir)
            && ScanFiles(cfg, dir, names, q, found) == ScanFiles(cfg, dir, readable, q, found)
  {
    hide OpenTable, ScanIDs, Keep;
    var p := n => n in dir && Readable(dir[n]);
    KeepHolds(p, names);
    if names == [] {
      KeepNothing(p, names);
    } else {
      var t, x := names[..|names| - 1], names[|names| - 1];
      Snoc(names);
      KeepSnoc(p, t, x);
      UnreadableFilesSkipped(cfg, dir, t, q, found);
      if p(x) {
        assert (Keep(p, t) + [x])[..|Keep(p, t)|] == Keep(p, t);
      }
    }
  }

  /** A payload that does not decode ends the replay into the memtable: nothing after it is restored. */
  lemma {:induction false} RestoreStops(m: MemState, before: seq<Bytes>, bad: Bytes, after: seq<Bytes>)
    requires ParseEntity(bad) == None
    ensures Rebuild(m, before + [bad] + after) == Rebuild(m, before)
    decreases |before|
  {
    hide ParseEntity, MemPut;
    if before == [] {
      assert before + [bad] + after == [bad] + after;
    } else {
      assert (before + [bad] + after)[1..] == before[1..] + [bad] + after;
      match ParseEntity(before[0]) {
        case None =>
        case Some((e, _)) => RestoreStops(MemPut(m, e), before[1..], bad, after);
      }
    }
  }

  // ----- when a put flushes -----

  /** What the memtable was filled from: the puts since the last flush, and after a crash all puts that were logged. */
  function Pending(cfg: Config, states: seq<Store>, ops: seq<Op>): seq<Entity>
    requires |states| == |ops| + 1
  {
    if ops == [] then []
    else
      var n := |ops| - 1;
      match ops[n]
      case PutOp(e, _) => if Flushes(cfg, states[n], ops[n]) then [] else Pending(cfg, states[..n + 1], ops[..n]) + [e]
      case FlushOp(_) => []
      case CrashOp => PutsOf(ops[..n])
  }

  function TotalSize(es: seq<Entity>): nat {
    if es == [] then 0 else TotalSize(es[..|es| - 1]) + RowSize(es[|es| - 1])
  }

  lemma {:induction false} MemOfSnoc(m: MemState, es: seq<Entity>, e: Entity)
    ensures MemOf(m, es + [e]) == MemPut(MemOf(m, es), e)
    decreases |es|
  {
    hide MemPut;
    if es == [] {
      assert es + [e] == [e] && [e][1..] == [];
      assert MemOf(m, [e]) == MemOf(MemPut(m, e), []);
    } else {
      assert (es + [e])[1..] == es[1..] + [e];
      MemOfSnoc(MemPut(m, es[0]), es[1..], e);
    }
  }

  lemma {:induction false} MemOfSize(es: seq<Entity>)
    ensures MemOf(EMPTY_MEM, es).size == TotalSize(es)
  {
    if es != [] {
      hide RowSize, MemOf;
      var t, e := es[..|es| - 1], es[|es| - 1];
      assert es == t + [e];
      MemOfSnoc(EMPTY_MEM, t, e);
      MemOfSize(t);
    }
  }

  /** A crash rebuilds the memtable from all logged puts. */
  lemma {:induction false} CrashMemIs(cfg: Config, s: Store, t: Store, puts: seq<Entity>, tables: seq<TableInfo>)
    requires Good(cfg, s, puts, tables) && CrashStep(cfg, s, t)
    ensures t.mem == MemOf(EMPTY_MEM, puts)
  {
    hide GoodDir, Covers, GoodMem, Encodes, Wal.Reopen, Wal.ReplayDir, Wal.Beyond, WalTheory.HoldsLog, Fits, MemOf, Rebuild;
    var payloads :| WalTheory.HoldsLog(cfg.crc, cfg.maxFileSize, s.wal, payloads) && |payloads| == |puts|
      && forall i :: 0 <= i < |puts| ==> Encodes(payloads[i], puts[i]);
    WalTheory.StepHolds(cfg.crc, cfg.maxFileSize, s.wal, payloads, WalTheory.CloseAndReopen);
    assert payloads + [] == payloads;
    PayloadsFit(payloads, puts);
    WalTheory.LogReplays(cfg.crc, cfg.maxFileSize, AcceptAll(), t.wal, payloads);
    WalTheory.DeliverAll(AcceptAll(), payloads);
    forall i | 0 <= i < |puts|
      ensures Fits(puts[i])
    {
      assert puts[i] in puts;
    }
    RebuildDecodes(EMPTY_MEM, payloads, puts);
  }

  lemma {:induction false} RunMem(cfg: Config, states: seq<Store>, ops: seq<Op>)
    requires Run(cfg, states, ops) && Admitted(ops) && InNameOrder(FlushClocks(cfg, states, ops))
    ensures states[|ops|].mem == MemOf(EMPTY_MEM, Pending(cfg, states, ops))
    decreases |ops|
  {
    hide Good, Step, InNameOrder, Admissible, MemOf, Flushes;
    if ops == [] {
      StartsEmpty(cfg);
    } else {
      var n := |ops| - 1;
      assert forall op :: op in ops[..n] ==> op in ops;
      EarlierClocks(FlushClocks(cfg, states[..n + 1], ops[..n]), NewClock(cfg, states[n], ops[n]));
      RunMem(cfg, states[..n + 1], ops[..n]);
      var tables := RunGood(cfg, states[..n + 1], ops[..n]);
      assert Step(cfg, states[n], ops[n], states[n + 1]);
      StepMem(cfg, states[n], ops[n], states[n + 1], PutsOf(ops[..n]), tables, Pending(cfg, states[..n + 1], ops[..n]));
    }
  }

  lemma StartsEmpty(cfg: Config)
    ensures InitialStore(cfg).mem == MemOf(EMPTY_MEM, [])
  {
  }

  lemma {:induction false} StepMem(cfg: Config, s: Store, op: Op, t: Store, puts: seq<Entity>, tables: seq<TableInfo>,
          pending: seq<Entity>)
    requires Good(cfg, s, puts, tables) && Step(cfg, s, op, t) && s.mem == MemOf(EMPTY_MEM, pending)
    ensures t.mem == MemOf(EMPTY_MEM,
              match op
              case PutOp(e, _) => if Flushes(cfg, s, op) then [] else pending + [e]
              case FlushOp(_) => []
              case CrashOp => puts)
  {
    hide Good, LogStep, CrashStep, MemPut, InOrder, Listing;
    assert MemOf(EMPTY_MEM, []) == EMPTY_MEM;
    hide MemOf;
    match op {
      case PutOp(e, clock) =>
        var m: Store :| LogStep(cfg, s, m, e) && if m.mem.size >= DefaultedSize(cfg.maxMemSize) then FlushStep(cfg, m, t, clock) else t == m;
        LogStepMem(cfg, s, m, e);
        MemOfSnoc(EMPTY_MEM, pending, e);
      case FlushOp(clock) =>
      case CrashOp => CrashMemIs(cfg, s, t, puts, tables);
    }
  }

  /** A put writes a table exactly when the estimated sizes of the pending entities and its own reach the limit. */
  lemma {:induction false} PutFlushesExactly(cfg: Config, states: seq<Store>, ops: seq<Op>, e: Entity, clock: nat)
    requires Run(cfg, states, ops) && Admitted(ops) && InNameOrder(FlushClocks(cfg, states, ops))
    ensures Flushes(cfg, states[|ops|], PutOp(e, clock)) <==>
            TotalSize(Pending(cfg, states, ops)) + RowSize(e) >= if cfg.maxMemSize <= 0 then 67108864 else cfg.maxMemSize
  {
    hide Admitted, InNameOrder, FlushClocks, Pending, MemOf, RowSize, TotalSize;
    RunMem(cfg, states, ops);
    MemOfSize(Pending(cfg, states, ops));
  }
}
