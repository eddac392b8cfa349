/** A crash in the middle of a put: the log append of core/storage/wal/wal.go stops at any byte, and the start-up code of
    cmd/allidbd/main.go reopens the log and replays what is there. */
module TornPut {
  import opened Prelude
  import opened EntityCodec
  import opened Memtables
  import opened Storage
  import opened StorageTheory
  import opened StorageRuns
  import opened Wal
  import opened WalTheory

  /** The log's files when the first n bytes of the frame of b have reached the disk. */
  ghost predicate CutAppend(cfg: Config, w: WalState, b: Bytes, n: nat, files: map<nat, Bytes>)
    requires w.fileSequence in w.files
  {
    var t := AppendTo(cfg.crc, cfg.maxFileSize, w, b);
    var whole := t.files[t.fileSequence];
    n <= 8 + |b| <= |whole| && files == t.files[t.fileSequence := whole[..|whole| - 8 - |b| + n]]
  }

  // ----- what the log delivers -----

  /** Bytes short of the last frame leave all frames before it. */
  lemma {:induction false} CompleteBefore(crc: Checksum, ps: seq<Bytes>, b: Bytes, n: nat)
    requires n < 8 + |b|
    ensures Complete(ps + [b], |FlatMap(Framer(crc), ps)| + n) == |ps|
    ensures |FlatMap(Framer(crc), ps + [b])| == |FlatMap(Framer(crc), ps)| + 8 + |b|
  {
    hide Frame, FlatMap;
    OneFrame(crc, b);
    FlatMapSnoc(Framer(crc), ps, b);
    if ps == [] {
      assert ps + [b] == [b];
    } else {
      FirstFrame(crc, ps);
      CompleteBefore(crc, ps[1..], b, n);
      assert (ps + [b])[1..] == ps[1..] + [b];
    }
  }

  /** The frames of the file the append goes to, before it. */
  function LastFrames(frames: map<nat, seq<Bytes>>, rotated: bool, last: nat): seq<Bytes>
    requires last in frames
  {
    if rotated then [] else frames[last]
  }

  lemma {:induction false} CutDelivers(cfg: Config, w: WalState, payloads: seq<Bytes>, b: Bytes, n: nat,
          files: map<nat, Bytes>) returns (last: nat)
    requires HoldsLog(cfg.crc, cfg.maxFileSize, w, payloads) && AllFit(payloads + [b])
    requires w.fileSequence in w.files && CutAppend(cfg, w, b, n, files) && n < 8 + |b|
    ensures IsMax(last, files.Keys)
    ensures ReplayDir(cfg.crc, AcceptAll(), files, last + 1) == Replayed(payloads, n == 0)
  {
    hide AppendTo, Log, FlatMap, ReplayDir, Complete, AllFit, FramesAfterAppend, LastFrames;
    var frames :| Holds(cfg.crc, cfg.maxFileSize, w, frames) && Log(frames, w.fileSequence + 1) == payloads;
    var t := AppendTo(cfg.crc, cfg.maxFileSize, w, b);
    last := t.fileSequence;
    AppendHolds(cfg.crc, cfg.maxFileSize, w, frames, b);
    hide Holds;
    var rotated := last != w.fileSequence;
    var more := FramesAfterAppend(frames, rotated, w.fileSequence, b);
    var old' := LastFrames(frames, rotated, w.fileSequence);
    assert last in more && more[last] == old' + [b] && Log(more, last) + old' == payloads by {
      AppendSequence(cfg, w, b);
      LastLogged(frames, more, rotated, w.fileSequence, last, b, payloads);
    }
    CutLast(cfg, t, more, last, old', b, n, files);
  }

  lemma {:induction false} LastLogged(frames: map<nat, seq<Bytes>>, more: map<nat, seq<Bytes>>, rotated: bool,
          was: nat, last: nat, b: Bytes, payloads: seq<Bytes>)
    requires was in frames && more == FramesAfterAppend(frames, rotated, was, b)
    requires last == if rotated then was + 1 else was
    requires Log(more, last + 1) == payloads + [b]
    ensures last in more && more[last] == LastFrames(frames, rotated, was) + [b]
    ensures Log(more, last) + LastFrames(frames, rotated, was) == payloads
  {
    var old' := LastFrames(frames, rotated, was);
    assert more[last] == old' + [b];
    LogLast(more, last);
    hide Log;
    assert Log(more, last) + (old' + [b]) == (Log(more, last) + old') + [b];
    SnocSame(Log(more, last) + old', payloads, b);
  }

  lemma {:induction false} CutLast(cfg: Config, t: WalState, more: map<nat, seq<Bytes>>, last: nat,
          frames: seq<Bytes>, b: Bytes, n: nat, files: map<nat, Bytes>)
    requires Holds(cfg.crc, cfg.maxFileSize, t, more) && last == t.fileSequence && last in more && last in t.files
    requires more[last] == frames + [b] && AllFit(Log(more, last) + frames + [b]) && n < 8 + |b| <= |t.files[last]|
    requires files == t.files[last := t.files[last][..|t.files[last]| - 8 - |b| + n]]
    ensures IsMax(last, files.Keys)
    ensures ReplayDir(cfg.crc, AcceptAll(), files, last + 1) == Replayed(Log(more, last) + frames, n == 0)
  {
    hide Log, FlatMap, ReplayDir, Complete, AllFit;
    CompleteBefore(cfg.crc, frames, b, n);
    assert t.files[last] == FlatMap(Framer(cfg.crc), more[last]) && IsMax(last, t.files.Keys);
    assert files.Keys == t.files.Keys;
    hide Holds;
    LogLast(more, last);
    assert Log(more, last) + (frames + [b]) == Log(more, last) + frames + [b];
    TornTailReplays(cfg.crc, cfg.maxFileSize, AcceptAll(), t, more, |FlatMap(Framer(cfg.crc), frames)| + n);
    assert (frames + [b])[..|frames|] == frames;
  }

  lemma SnocSame(x: seq<Bytes>, y: seq<Bytes>, b: Bytes)
    requires x + [b] == y + [b]
    ensures x == y
  {
    assert (x + [b])[..|x|] == x && (y + [b])[..|y|] == y;
  }

  lemma AppendSequence(cfg: Config, w: WalState, b: Bytes)
    requires w.fileSequence in w.files
    ensures var t := AppendTo(cfg.crc, cfg.maxFileSize, w, b); t.fileSequence == w.fileSequence || t.fileSequence == w.fileSequence + 1
  {
  }

  lemma LogLast(frames: map<nat, seq<Bytes>>, last: nat)
    requires last in frames
    ensures Log(frames, last + 1) == Log(frames, last) + frames[last]
  {
  }

  /** Reopening may start a new file, which adds nothing to the replay. */
  lemma {:induction false} ReopenDelivers(crc: Checksum, maxFileSize: int, accept: Bytes -> bool,
          files: map<nat, Bytes>, last: nat)
    requires IsMax(last, files.Keys)
    ensures var t := Reopen(maxFileSize, files);
            ReplayDir(crc, accept, t.files, Beyond(t.files.Keys)).delivered == ReplayDir(crc, accept, files, last + 1).delivered
  {
    hide ReplayDir, ReplayFile;
    var t := Reopen(maxFileSize, files);
    MaxUnique(last, MaxKey(files.Keys), files.Keys);
    if t.fileSequence == last {
      assert t.files == files;
    } else {
      assert last + 1 !in files && t.files == files[last + 1 := []];
      assert IsMax(last + 1, t.files.Keys);
      MaxUnique(last + 1, MaxKey(t.files.Keys), t.files.Keys);
      SameBelow(crc, accept, files, t.files, last + 1);
      EmptyFileLast(crc, accept, t.files, last + 2);
    }
  }

  lemma {:induction false} EmptyFileLast(crc: Checksum, accept: Bytes -> bool, files: map<nat, Bytes>, n: nat)
    requires n >= 1 && n - 1 in files && files[n - 1] == []
    ensures ReplayDir(crc, accept, files, n).delivered == ReplayDir(crc, accept, files, n - 1).delivered
  {
    CutNothing(crc, accept, []);
  }

  // ----- the store -----

  /** A crash after any number of bytes of the put's log record: the restarted store answers every scan as if the put had
      never begun, or, when the whole record is on disk, as if it had completed. */
  lemma {:induction false} TornPutRecovers(cfg: Config, s: Store, t: Store, puts: seq<Entity>, tables: seq<TableInfo>,
          e: Entity, b: Bytes, n: nat, files: map<nat, Bytes>, q: Range)
    requires Good(cfg, s, puts, tables) && SmallFiles(s.dir) && Admissible(e) && Encodes(b, e)
    requires CutAppend(cfg, s.wal, b, n, files) && CrashStep(cfg, s.(wal := s.wal.(files := files)), t)
    requires q.tenant == [] || OneTenant(puts + [e])
    ensures !Panics(t.dir)
    ensures Scan(cfg, t, q) == Expected(if n == 8 + |b| then puts + [e] else puts, q)
  {
    hide GoodWal, GoodDir, GoodMem, Covers, Admissible, Encodes, CutAppend, CrashStep, SmallFiles, Scan, Expected, Panics, OneTenant;
    CrashDir(cfg, s.(wal := s.wal.(files := files)), t);
    AtMostTheRecord(cfg, s.wal, b, n, files);
    if n == 8 + |b| {
      var logged := s.(wal := AppendTo(cfg.crc, cfg.maxFileSize, s.wal, b), mem := MemPut(s.mem, e));
      WholeRecord(cfg, s, t, e, b, files, logged);
      LogStepKeeps(cfg, s, logged, puts, tables, e);
      CrashStepKeeps(cfg, logged, t, puts + [e], tables);
      GoodScan(cfg, t, puts + [e], tables, q);
    } else {
      CutRecord(cfg, s, t, puts, tables, e, b, n, files);
      FewerPuts(puts, e);
      CoveredScan(cfg, t, puts, tables, q);
    }
  }

  lemma AtMostTheRecord(cfg: Config, w: WalState, b: Bytes, n: nat, files: map<nat, Bytes>)
    requires w.fileSequence in w.files && CutAppend(cfg, w, b, n, files)
    ensures n <= 8 + |b|
  {
  }

  lemma CrashDir(cfg: Config, s: Store, t: Store)
    requires CrashStep(cfg, s, t)
    ensures t.dir == s.dir
  {
  }

  lemma FewerPuts(puts: seq<Entity>, e: Entity)
    ensures OneTenant(puts + [e]) ==> OneTenant(puts)
  {
  }

  lemma {:induction false} WholeRecord(cfg: Config, s: Store, t: Store, e: Entity, b: Bytes, files: map<nat, Bytes>,
          logged: Store)
    requires s.wal.fileSequence in s.wal.files && CutAppend(cfg, s.wal, b, 8 + |b|, files) && Encodes(b, e)
    requires CrashStep(cfg, s.(wal := s.wal.(files := files)), t)
    requires logged == s.(wal := AppendTo(cfg.crc, cfg.maxFileSize, s.wal, b), mem := MemPut(s.mem, e))
    ensures LogStep(cfg, s, logged, e) && CrashStep(cfg, logged, t)
  {
    hide Encodes, Restore, ReplayDir, Reopen, Beyond;
    var a := AppendTo(cfg.crc, cfg.maxFileSize, s.wal, b);
    var whole := a.files[a.fileSequence];
    assert whole[..|whole|] == whole;
    assert files == a.files;
  }

  lemma {:induction false} CutRecord(cfg: Config, s: Store, t: Store, puts: seq<Entity>, tables: seq<TableInfo>,
          e: Entity, b: Bytes, n: nat, files: map<nat, Bytes>)
    requires Good(cfg, s, puts, tables) && Admissible(e) && Encodes(b, e)
    requires CutAppend(cfg, s.wal, b, n, files) && n < 8 + |b|
    requires CrashStep(cfg, s.(wal := s.wal.(files := files)), t)
    ensures GoodMem(t.mem) && GoodDir(cfg, t.dir, tables) && Covers(t.mem, tables, puts)
  {
    hide GoodDir, Covers, GoodMem, Encodes, Reopen, ReplayDir, Beyond, HoldsLog, Fits, Restore, CutAppend, AllFit;
    var payloads :| HoldsLog(cfg.crc, cfg.maxFileSize, s.wal, payloads) && |payloads| == |puts|
      && forall i :: 0 <= i < |puts| ==> Encodes(payloads[i], puts[i]);
    PayloadsFit(payloads, puts);
    assert AllFit(payloads + [b]) by {
      OneMoreFits(payloads, b);
    }
    var last := CutDelivers(cfg, s.wal, payloads, b, n, files);
    ReopenDelivers(cfg.crc, cfg.maxFileSize, AcceptAll(), files, last);
    CrashMem(s.mem, t.mem, payloads, puts, tables);
  }

  lemma OneMoreFits(payloads: seq<Bytes>, b: Bytes)
    requires AllFit(payloads) && |b| < TWO32
    ensures AllFit(payloads + [b])
  {
  }

  /** So after any run, a put torn at any byte either happened or did not. */
  lemma {:induction false} TornPutIsAtomic(cfg: Config, states: seq<Store>, ops: seq<Op>, t: Store, e: Entity, b: Bytes,
          n: nat, files: map<nat, Bytes>, q: Range)
    requires Run(cfg, states, ops) && Admitted(ops) && InNameOrder(FlushClocks(cfg, states, ops))
    requires Admissible(e) && Encodes(b, e) && SmallFiles(states[|ops|].dir)
    requires var s := states[|ops|];
             s.wal.fileSequence in s.wal.files && CutAppend(cfg, s.wal, b, n, files) && CrashStep(cfg, s.(wal := s.wal.(files := files)), t)
    requires q.tenant == [] || OneTenant(PutsOf(ops) + [e])
    ensures !Panics(t.dir)
    ensures Scan(cfg, t, q) == Expected(if n == 8 + |b| then PutsOf(ops) + [e] else PutsOf(ops), q)
  {
    hide Good, Run, Admitted, InNameOrder, FlushClocks, Scan, Expected, Dated, SmallFiles, Panics, OneTenant, PutsOf, CutAppend, CrashStep, Admissible, Encodes;
    RunShape(cfg, states, ops);
    var tables := RunGood(cfg, states, ops);
    TornPutRecovers(cfg, states[|ops|], t, PutsOf(ops), tables, e, b, n, files, q);
  }
}
