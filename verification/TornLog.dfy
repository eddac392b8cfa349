/** The log after a restart on a torn record: core/storage/wal/wal.go reopens the last file, torn or not, and later
    records are appended behind the torn bytes or in new files. */
module TornLog {
  import opened Prelude
  import opened Storage
  import opened Wal
  import opened WalTheory
  import opened TornPut

  // ----- a file with a torn record inside -----

  /** Whole frames are delivered, and then whatever the remaining bytes read as. */
  lemma {:induction false} FramesThenRest(crc: Checksum, accept: Bytes -> bool, ps: seq<Bytes>, rest: Bytes)
    requires AllFit(ps) && forall p :: p in ps ==> accept(p)
    ensures ReplayFile(crc, accept, FlatMap(Framer(crc), ps) + rest) == Then(ps, ReplayFile(crc, accept, rest))
  {
    hide Frame, ReadEntry, FlatMap;
    if ps == [] {
      OneFrame(crc, []);
      assert FlatMap(Framer(crc), ps) + rest == rest;
      assert Then([], ReplayFile(crc, accept, rest)) == ReplayFile(crc, accept, rest);
    } else {
      assert ps[0] in ps;
      FirstFrame(crc, ps);
      var more := FlatMap(Framer(crc), ps[1..]) + rest;
      assert FlatMap(Framer(crc), ps) + rest == Frame(crc, ps[0]) + more;
      FrameReads(crc, ps[0], more);
      FramesThenRest(crc, accept, ps[1..], rest);
      assert [ps[0]] + (ps[1..] + ReplayFile(crc, accept, rest).delivered) == ps + ReplayFile(crc, accept, rest).delivered;
    }
  }

  /** A file that reads without error is as long as the frames of what it delivers. */
  lemma {:induction false} CleanSize(crc: Checksum, accept: Bytes -> bool, d: Bytes)
    requires ReplayFile(crc, accept, d).clean
    ensures |d| == |FlatMap(Framer(crc), ReplayFile(crc, accept, d).delivered)|
    decreases |d|
  {
    hide Frame, ReadEntry, FlatMap;
    match ReadEntry(crc, d) {
      case EndOfFile =>
        EmptyEnds(crc, d);
        OneFrame(crc, []);
      case Corrupt =>
      case Entry(data, rest) =>
        CleanSize(crc, accept, rest);
        var tail := ReplayFile(crc, accept, rest).delivered;
        assert ReplayFile(crc, accept, d).delivered == [data] + tail;
        FirstFrame(crc, [data] + tail);
    }
  }

  lemma EmptyEnds(crc: Checksum, d: Bytes)
    ensures ReadEntry(crc, d) == EndOfFile ==> d == []
  {
  }

  // ----- the directory -----

  /** File last holds before, then the torn bytes, then what was appended behind them; all other files whole frames. */
  ghost predicate Mended(crc: Checksum, files: map<nat, Bytes>, frames: map<nat, seq<Bytes>>, last: nat,
          before: seq<Bytes>, torn: Bytes) {
    && files.Keys == frames.Keys && last in frames
    && files[last] == FlatMap(Framer(crc), before) + torn + FlatMap(Framer(crc), frames[last])
    && forall k :: k in frames && k != last ==> files[k] == FlatMap(Framer(crc), frames[k])
  }

  /** The state after the restart and further operations that appended cs. */
  ghost predicate Continued(crc: Checksum, w: WalState, frames: map<nat, seq<Bytes>>, last: nat,
          before: seq<Bytes>, torn: Bytes, earlier: seq<Bytes>, cs: seq<Bytes>, fullThen: bool) {
    && Mended(crc, w.files, frames, last, before, torn) && IsMax(w.fileSequence, w.files.Keys)
    && Log(frames, last) == earlier && Log(frames, w.fileSequence + 1) == earlier + cs
    && (fullThen ==> last < w.fileSequence && frames[last] == [])
  }

  lemma {:induction false} AppendContinues(crc: Checksum, maxFileSize: int, w: WalState, frames: map<nat, seq<Bytes>>,
          last: nat, before: seq<Bytes>, torn: Bytes, earlier: seq<Bytes>, cs: seq<Bytes>, fullThen: bool, data: Bytes)
          returns (more: map<nat, seq<Bytes>>)
    requires w.fileSequence in w.files
    requires Continued(crc, w, frames, last, before, torn, earlier, cs, fullThen)
    ensures Continued(crc, AppendTo(crc, maxFileSize, w, data), more, last, before, torn, earlier,
              cs + [data], fullThen)
  {
    hide Log, AppendTo, Mended, FramesAfterAppend;
    var t := AppendTo(crc, maxFileSize, w, data);
    var rotated := t.fileSequence != w.fileSequence;
    MendedKeys(crc, w.files, frames, last, before, torn);
    more := FramesAfterAppend(frames, rotated, w.fileSequence, data);
    AppendMended(crc, maxFileSize, w, frames, last, before, torn, data);
    AppendNext(crc, maxFileSize, w, data);
    LogGrows(frames, rotated, w.fileSequence, data);
    EarlierSame(frames, rotated, w.fileSequence, last, data);
    assert earlier + cs + [data] == earlier + (cs + [data]);
  }

  lemma AppendNext(crc: Checksum, maxFileSize: int, w: WalState, data: Bytes)
    requires w.fileSequence in w.files
    ensures var t := AppendTo(crc, maxFileSize, w, data);
            t.fileSequence == w.fileSequence || t.fileSequence == w.fileSequence + 1
  {
  }

  lemma MendedKeys(crc: Checksum, files: map<nat, Bytes>, frames: map<nat, seq<Bytes>>, last: nat, before: seq<Bytes>,
          torn: Bytes)
    requires Mended(crc, files, frames, last, before, torn)
    ensures files.Keys == frames.Keys && last in frames
  {
  }

  lemma {:induction false} EarlierSame(frames: map<nat, seq<Bytes>>, rotated: bool, current: nat, last: nat,
          data: Bytes)
    requires current in frames && last in frames && last <= current
    ensures var more := FramesAfterAppend(frames, rotated, current, data);
            && Log(more, last) == Log(frames, last) && last in more
            && (last < current ==> more[last] == frames[last])
  {
    LogIgnores(frames, FramesAfterAppend(frames, rotated, current, data), last);
  }

  lemma {:induction false} AppendMended(crc: Checksum, maxFileSize: int, w: WalState, frames: map<nat, seq<Bytes>>,
          last: nat, before: seq<Bytes>, torn: Bytes, data: Bytes)
    requires Mended(crc, w.files, frames, last, before, torn) && IsMax(w.fileSequence, w.files.Keys)
    ensures var t := AppendTo(crc, maxFileSize, w, data);
            var more := FramesAfterAppend(frames, t.fileSequence != w.fileSequence, w.fileSequence, data);
            Mended(crc, t.files, more, last, before, torn) && IsMax(t.fileSequence, t.files.Keys)
  {
    hide Frame, FlatMap;
    var t := AppendTo(crc, maxFileSize, w, data);
    var current := w.fileSequence;
    OneFrame(crc, data);
    assert current + 1 !in frames;
    if t.fileSequence == current {
      FlatMapSnoc(Framer(crc), frames[current], data);
      var x, y := FlatMap(Framer(crc), before) + torn, FlatMap(Framer(crc), frames[current]);
      assert x + (y + Frame(crc, data)) == x + y + Frame(crc, data);
    }
  }

  lemma {:induction false} ReopenContinues(crc: Checksum, maxFileSize: int, w: WalState, frames: map<nat, seq<Bytes>>,
          last: nat, before: seq<Bytes>, torn: Bytes, earlier: seq<Bytes>, cs: seq<Bytes>, fullThen: bool)
          returns (more: map<nat, seq<Bytes>>)
    requires Continued(crc, w, frames, last, before, torn, earlier, cs, fullThen)
    ensures Continued(crc, Reopen(maxFileSize, w.files), more, last, before, torn, earlier, cs, fullThen)
    ensures |w.files[last]| >= maxFileSize && w.fileSequence == last && frames[last] == [] ==>
        Continued(crc, Reopen(maxFileSize, w.files), more, last, before, torn, earlier, cs, true)
  {
    hide FlatMap, Log;
    var t := Reopen(maxFileSize, w.files);
    var current := w.fileSequence;
    MaxUnique(current, MaxKey(w.files.Keys), w.files.Keys);
    more := frames;
    if t.fileSequence != current {
      assert current + 1 !in w.files;
      more := frames[current + 1 := []];
      OneFrame(crc, []);
      LogIgnores(frames, more, current + 1);
      LogIgnores(frames, more, last);
      LogLast(more, current + 1);
      assert Log(frames, current + 1) + [] == Log(frames, current + 1);
    }
  }

  /** Any operations after the restart. */
  lemma {:induction false} RunContinues(crc: Checksum, maxFileSize: int, files: map<nat, Bytes>,
          frames: map<nat, seq<Bytes>>, last: nat, before: seq<Bytes>, torn: Bytes, ops: seq<WalOp>)
          returns (more: map<nat, seq<Bytes>>)
    requires Mended(crc, files, frames, last, before, torn) && IsMax(last, files.Keys) && frames[last] == []
    ensures Continued(crc, RunFrom(crc, maxFileSize, files, ops), more, last, before, torn,
              Log(frames, last), Appended(ops), |files[last]| >= maxFileSize)
    decreases |ops|
  {
    hide Mended, Continued, Log, AppendTo, Reopen;
    var full := |files[last]| >= maxFileSize;
    if ops == [] {
      var w := WalState(files, 0, last);
      StartContinues(crc, w, frames, last, before, torn);
      more := ReopenContinues(crc, maxFileSize, w, frames, last, before, torn, Log(frames, last), [], false);
    } else {
      var n := |ops| - 1;
      var w := RunFrom(crc, maxFileSize, files, ops[..n]);
      var held := RunContinues(crc, maxFileSize, files, frames, last, before, torn, ops[..n]);
      match ops[n] {
        case Append(data) =>
          more := AppendContinues(crc, maxFileSize, w, held, last, before, torn, Log(frames, last), Appended(ops[..n]),
            full, data);
        case CloseAndReopen =>
          more := ReopenContinues(crc, maxFileSize, w, held, last, before, torn, Log(frames, last), Appended(ops[..n]),
            full);
          assert Appended(ops[..n]) + [] == Appended(ops[..n]);
      }
    }
  }

  lemma {:induction false} StartContinues(crc: Checksum, w: WalState, frames: map<nat, seq<Bytes>>,
          last: nat, before: seq<Bytes>, torn: Bytes)
    requires Mended(crc, w.files, frames, last, before, torn) && w.fileSequence == last && IsMax(last, w.files.Keys)
    requires frames[last] == []
    ensures Continued(crc, w, frames, last, before, torn, Log(frames, last), [], false)
  {
    hide Mended, Log;
    MendedKeys(crc, w.files, frames, last, before, torn);
    LogLast(frames, last);
  }

  // ----- its replay -----

  /** Getting past the rest of a file, or not. */
  function Past(ps: seq<Bytes>, rest: Replayed, tail: seq<Bytes>): Replayed {
    if rest.clean then Replayed(ps + rest.delivered + tail, true) else Replayed(ps + rest.delivered, false)
  }

  lemma {:induction false} LogPrefix(frames: map<nat, seq<Bytes>>, m: nat, n: nat)
    requires m <= n
    ensures Log(frames, m) <= Log(frames, n)
    decreases n
  {
    if m < n {
      LogPrefix(frames, m, n - 1);
    }
  }

  lemma PastNext(ps: seq<Bytes>, rest: Replayed, tail: seq<Bytes>, more: seq<Bytes>)
    ensures Past(ps, rest, tail + more)
         == if rest.clean then Then(Past(ps, rest, tail).delivered, Replayed(more, true)) else Past(ps, rest, tail)
    ensures Past(ps, rest, tail).clean == rest.clean
  {
    assert ps + rest.delivered + (tail + more) == ps + rest.delivered + tail + more;
  }

  lemma {:induction false} MendedReplays(crc: Checksum, files: map<nat, Bytes>, frames: map<nat, seq<Bytes>>, last: nat,
          before: seq<Bytes>, torn: Bytes, n: nat)
    requires Mended(crc, files, frames, last, before, torn) && AllFit(Log(frames, n)) && AllFit(before) && last < n
    ensures |Log(frames, last + 1)| <= |Log(frames, n)|
    ensures ReplayDir(crc, AcceptAll(), files, n)
         == Past(Log(frames, last) + before,
              ReplayFile(crc, AcceptAll(), torn + FlatMap(Framer(crc), frames[last])),
              Log(frames, n)[|Log(frames, last + 1)|..])
    decreases n
  {
    hide FlatMap, ReplayFile, Past, Mended, Log, AllFit, ReplayDir;
    LogPrefix(frames, last + 1, n);
    MendedKeys(crc, files, frames, last, before, torn);
    var rest := ReplayFile(crc, AcceptAll(), torn + FlatMap(Framer(crc), frames[last]));
    var ps, k := Log(frames, last) + before, |Log(frames, last + 1)|;
    if n == last + 1 {
      LastReplays(crc, files, frames, last, before, torn);
      NothingPast(ps, rest);
    } else {
      LogPrefix(frames, last + 1, n - 1);
      FitsBefore(frames, n - 1);
      MendedReplays(crc, files, frames, last, before, torn, n - 1);
      NextFile(crc, files, frames, last, before, torn, n - 1);
      var more := if n - 1 in frames then frames[n - 1] else [];
      LogNext(frames, n - 1);
      assert Log(frames, n)[k..] == Log(frames, n - 1)[k..] + more;
      PastNext(ps, rest, Log(frames, n - 1)[k..], more);
    }
  }

  lemma NothingPast(ps: seq<Bytes>, rest: Replayed)
    ensures Past(ps, rest, []) == Replayed(ps + rest.delivered, rest.clean)
  {
    assert ps + rest.delivered + [] == ps + rest.delivered;
  }

  lemma LogNext(frames: map<nat, seq<Bytes>>, n: nat)
    ensures Log(frames, n + 1) == Log(frames, n) + (if n in frames then frames[n] else [])
  {
  }

  lemma FitsBefore(frames: map<nat, seq<Bytes>>, n: nat)
    requires AllFit(Log(frames, n + 1))
    ensures AllFit(Log(frames, n)) && (n in frames ==> AllFit(frames[n]))
  {
    assert forall p :: p in Log(frames, n) ==> p in Log(frames, n + 1);
    assert n in frames ==> forall p :: p in frames[n] ==> p in Log(frames, n + 1);
  }

  /** One more file of whole frames. */
  lemma {:induction false} NextFile(crc: Checksum, files: map<nat, Bytes>, frames: map<nat, seq<Bytes>>, last: nat,
          before: seq<Bytes>, torn: Bytes, n: nat)
    requires Mended(crc, files, frames, last, before, torn) && n != last && (n in frames ==> AllFit(frames[n]))
    ensures var r := ReplayDir(crc, AcceptAll(), files, n);
            ReplayDir(crc, AcceptAll(), files, n + 1)
              == if r.clean then Then(r.delivered, Replayed(if n in frames then frames[n] else [], true)) else r
  {
    hide FlatMap, ReplayFile;
    var r := ReplayDir(crc, AcceptAll(), files, n);
    if n in frames {
      FileReplays(crc, AcceptAll(), frames[n]);
      DeliverAll(AcceptAll(), frames[n]);
    } else {
      assert r.delivered + [] == r.delivered;
    }
  }

  lemma {:induction false} LastReplays(crc: Checksum, files: map<nat, Bytes>, frames: map<nat, seq<Bytes>>, last: nat,
          before: seq<Bytes>, torn: Bytes)
    requires Mended(crc, files, frames, last, before, torn) && AllFit(Log(frames, last + 1)) && AllFit(before)
    ensures var rest := ReplayFile(crc, AcceptAll(), torn + FlatMap(Framer(crc), frames[last]));
            ReplayDir(crc, AcceptAll(), files, last + 1) == Replayed(Log(frames, last) + before + rest.delivered, rest.clean)
  {
    hide FlatMap, ReplayFile, Log, AllFit;
    var more := FlatMap(Framer(crc), frames[last]);
    FitsBefore(frames, last);
    WholeBelow(crc, files, frames, last, before, torn, last);
    var whole := FlatMap(Framer(crc), before);
    assert files[last] == whole + torn + more;
    hide Mended;
    assert whole + torn + more == whole + (torn + more);
    FramesThenRest(crc, AcceptAll(), before, torn + more);
    var rest := ReplayFile(crc, AcceptAll(), torn + more);
    assert Log(frames, last) + (before + rest.delivered) == Log(frames, last) + before + rest.delivered;
  }

  lemma {:induction false} WholeBelow(crc: Checksum, files: map<nat, Bytes>, frames: map<nat, seq<Bytes>>, last: nat,
          before: seq<Bytes>, torn: Bytes, n: nat)
    requires Mended(crc, files, frames, last, before, torn) && n <= last && AllFit(Log(frames, n))
    ensures ReplayDir(crc, AcceptAll(), files, n) == Replayed(Log(frames, n), true)
  {
    hide FlatMap, ReplayFile, Mended, AllFit;
    if n > 0 {
      FitsBefore(frames, n - 1);
      WholeBelow(crc, files, frames, last, before, torn, n - 1);
      NextFile(crc, files, frames, last, before, torn, n - 1);
      LogNext(frames, n - 1);
    }
  }

  // ----- after a torn append -----

  /** The files that a torn append leaves. */
  lemma {:induction false} CutMended(cfg: Config, w: WalState, payloads: seq<Bytes>, b: Bytes, n: nat,
          files: map<nat, Bytes>) returns (frames: map<nat, seq<Bytes>>, last: nat, before: seq<Bytes>)
    requires HoldsLog(cfg.crc, cfg.maxFileSize, w, payloads)
    requires w.fileSequence in w.files && CutAppend(cfg, w, b, n, files)
    ensures last == AppendTo(cfg.crc, cfg.maxFileSize, w, b).fileSequence && IsMax(last, files.Keys)
    ensures Mended(cfg.crc, files, frames, last, before, Frame(cfg.crc, b)[..n]) && frames[last] == []
    ensures Log(frames, last) + before == payloads
  {
    hide AppendTo, Log, FlatMap, FramesAfterAppend, LastFrames, Frame;
    var was :| Holds(cfg.crc, cfg.maxFileSize, w, was) && Log(was, w.fileSequence + 1) == payloads;
    var t := AppendTo(cfg.crc, cfg.maxFileSize, w, b);
    last := t.fileSequence;
    AppendHolds(cfg.crc, cfg.maxFileSize, w, was, b);
    var rotated := last != w.fileSequence;
    var more := FramesAfterAppend(was, rotated, w.fileSequence, b);
    AppendSequence(cfg, w, b);
    LastLogged(was, more, rotated, w.fileSequence, last, b, payloads);
    before := LastFrames(was, rotated, w.fileSequence);
    frames := more[last := []];
    LogIgnores(more, frames, last);
    CutFile(cfg.crc, before, b, n);
  }

  lemma {:induction false} CutFile(crc: Checksum, before: seq<Bytes>, b: Bytes, n: nat)
    requires n <= 8 + |b|
    ensures var whole := FlatMap(Framer(crc), before + [b]);
            && |whole| == |FlatMap(Framer(crc), before)| + 8 + |b|
            && whole[..|whole| - 8 - |b| + n] == FlatMap(Framer(crc), before) + Frame(crc, b)[..n] + FlatMap(Framer(crc), [])
  {
    hide FlatMap, Frame;
    OneFrame(crc, b);
    FlatMapSnoc(Framer(crc), before, b);
  }

  lemma {:induction false} SplitAppended(frames: map<nat, seq<Bytes>>, last: nat, n: nat, cs: seq<Bytes>)
    requires last in frames && last < n && Log(frames, n) == Log(frames, last) + cs
    ensures var j := |frames[last]|;
            j <= |cs| && cs[..j] == frames[last] && |Log(frames, last + 1)| <= |Log(frames, n)|
            && cs[j..] == Log(frames, n)[|Log(frames, last + 1)|..]
  {
    hide Log;
    LogLast(frames, last);
    LogPrefix(frames, last + 1, n);
    var j, k := |frames[last]|, |Log(frames, last)|;
    assert Log(frames, n)[k..] == cs;
    assert Log(frames, n)[k..k + j] == Log(frames, last + 1)[k..] == frames[last];
    assert Log(frames, n)[k + j..] == cs[j..];
  }

  /** After a torn append, a restart and any appends, rotations and further restarts, replay delivers the entries before
      the torn one, then what the torn bytes and the j records appended behind them read as, and gets to the records in
      later files exactly when that reads without error. A file that was full at the restart gets no records. */
  lemma {:induction false} TornRunReplays(cfg: Config, w: WalState, payloads: seq<Bytes>, b: Bytes, n: nat,
          files: map<nat, Bytes>, ops: seq<WalOp>) returns (j: nat)
    requires HoldsLog(cfg.crc, cfg.maxFileSize, w, payloads) && AllFit(payloads) && AllFit(Appended(ops))
    requires w.fileSequence in w.files && CutAppend(cfg, w, b, n, files)
    ensures var cs, t := Appended(ops), RunFrom(cfg.crc, cfg.maxFileSize, files, ops);
            && j <= |cs|
            && ReplayDir(cfg.crc, AcceptAll(), t.files, Beyond(t.files.Keys))
                 == Past(payloads, ReplayFile(cfg.crc, AcceptAll(), Frame(cfg.crc, b)[..n] + FlatMap(Framer(cfg.crc), cs[..j])), cs[j..])
    ensures var last := AppendTo(cfg.crc, cfg.maxFileSize, w, b).fileSequence;
            last in files && (|files[last]| >= cfg.maxFileSize ==> j == 0)
  {
    hide HoldsLog, CutAppend, Mended, FlatMap, Frame, ReplayFile, ReplayDir, AllFit, Log, RunFrom, Appended, AppendTo, Past;
    hide Beyond;
    AtMostTheRecord(cfg, w, b, n, files);
    var frames0, last, before := CutMended(cfg, w, payloads, b, n, files);
    MendedKeys(cfg.crc, files, frames0, last, before, Frame(cfg.crc, b)[..n]);
    var t := RunFrom(cfg.crc, cfg.maxFileSize, files, ops);
    var frames := RunContinues(cfg.crc, cfg.maxFileSize, files, frames0, last, before, Frame(cfg.crc, b)[..n], ops);
    MendedKeys(cfg.crc, t.files, frames, last, before, Frame(cfg.crc, b)[..n]);
    BeyondLast(t);
    SplitAppended(frames, last, t.fileSequence + 1, Appended(ops));
    j := |frames[last]|;
    FitTogether(Log(frames, last), before, payloads, Appended(ops));
    MendedReplays(cfg.crc, t.files, frames, last, before, Frame(cfg.crc, b)[..n], t.fileSequence + 1);
  }

  lemma BeyondLast(t: WalState)
    requires IsMax(t.fileSequence, t.files.Keys)
    ensures Beyond(t.files.Keys) == t.fileSequence + 1
  {
    MaxUnique(t.fileSequence, MaxKey(t.files.Keys), t.files.Keys);
  }

  lemma FitTogether(earlier: seq<Bytes>, before: seq<Bytes>, payloads: seq<Bytes>, cs: seq<Bytes>)
    requires earlier + before == payloads && AllFit(payloads) && AllFit(cs)
    ensures AllFit(before) && AllFit(earlier + cs)
  {
    assert forall p :: p in earlier || p in before ==> p in earlier + before;
  }

  /** Torn bytes in front of whole records never read as just those records. */
  lemma {:induction false} NotJustTheRest(crc: Checksum, torn: Bytes, ps: seq<Bytes>)
    requires AllFit(ps)
    ensures ReplayFile(crc, AcceptAll(), torn + FlatMap(Framer(crc), ps)) == Replayed(ps, true) <==> torn == []
  {
    hide FlatMap, ReplayFile, AllFit;
    var rest := FlatMap(Framer(crc), ps);
    if torn == [] {
      assert torn + rest == rest;
      FileReplays(crc, AcceptAll(), ps);
      DeliverAll(AcceptAll(), ps);
    } else if ReplayFile(crc, AcceptAll(), torn + rest) == Replayed(ps, true) {
      CleanSize(crc, AcceptAll(), torn + rest);
      assert false;
    }
  }

  /** Nor as the torn record and those records, short of all its bytes. */
  lemma {:induction false} NotTheTornOne(crc: Checksum, b: Bytes, n: nat, ps: seq<Bytes>)
    requires AllFit([b] + ps) && n <= 8 + |b|
    ensures var r := ReplayFile(crc, AcceptAll(), Frame(crc, b)[..n] + FlatMap(Framer(crc), ps));
            r == Replayed([b] + ps, true) <==> n == 8 + |b|
  {
    hide FlatMap, ReplayFile, AllFit, Frame;
    var torn, rest := Frame(crc, b)[..n], FlatMap(Framer(crc), ps);
    FirstFrame(crc, [b] + ps);
    assert ([b] + ps)[1..] == ps;
    if n == 8 + |b| {
      assert torn == Frame(crc, b);
      FileReplays(crc, AcceptAll(), [b] + ps);
      DeliverAll(AcceptAll(), [b] + ps);
    } else if ReplayFile(crc, AcceptAll(), torn + rest) == Replayed([b] + ps, true) {
      CleanSize(crc, AcceptAll(), torn + rest);
      assert false;
    }
  }

  /** Whatever happens after the restart, replay delivers exactly the entries that were written, without error, if and
      only if the torn append left none of its bytes; and with the torn one among them if and only if it left all. */
  lemma {:induction false} TornRunExactly(cfg: Config, w: WalState, payloads: seq<Bytes>, b: Bytes, n: nat,
          files: map<nat, Bytes>, ops: seq<WalOp>)
    requires HoldsLog(cfg.crc, cfg.maxFileSize, w, payloads) && AllFit(payloads + [b]) && AllFit(Appended(ops))
    requires w.fileSequence in w.files && CutAppend(cfg, w, b, n, files)
    ensures var t := RunFrom(cfg.crc, cfg.maxFileSize, files, ops);
            var r := ReplayDir(cfg.crc, AcceptAll(), t.files, Beyond(t.files.Keys));
            && (r == Replayed(payloads + Appended(ops), true) <==> n == 0)
            && (r == Replayed(payloads + ([b] + Appended(ops)), true) <==> n == 8 + |b|)
  {
    hide HoldsLog, CutAppend, FlatMap, Frame, ReplayFile, ReplayDir, AllFit, RunFrom, Appended, AppendTo, Beyond, Past;
    FitsWith(payloads, b);
    var j := TornRunReplays(cfg, w, payloads, b, n, files, ops);
    AtMostTheRecord(cfg, w, b, n, files);
    RestExactly(cfg.crc, payloads, b, n, Appended(ops), j);
  }

  lemma {:induction false} RestExactly(crc: Checksum, payloads: seq<Bytes>, b: Bytes, n: nat, cs: seq<Bytes>, j: nat)
    requires AllFit(cs) && |b| < TWO32 && n <= 8 + |b| && j <= |cs|
    ensures var rest := ReplayFile(crc, AcceptAll(), Frame(crc, b)[..n] + FlatMap(Framer(crc), cs[..j]));
            var r := Past(payloads, rest, cs[j..]);
            && (r == Replayed(payloads + cs, true) <==> n == 0)
            && (r == Replayed(payloads + ([b] + cs), true) <==> n == 8 + |b|)
  {
    hide FlatMap, Frame, ReplayFile, AllFit, Past;
    var torn := Frame(crc, b)[..n];
    var rest := ReplayFile(crc, AcceptAll(), torn + FlatMap(Framer(crc), cs[..j]));
    FirstFit(cs, j, b);
    assert torn == [] <==> n == 0;
    NotJustTheRest(crc, torn, cs[..j]);
    NotTheTornOne(crc, b, n, cs[..j]);
    PastExactly(payloads, rest, cs[..j], cs[j..]);
    PastExactly(payloads, rest, [b] + cs[..j], cs[j..]);
    assert cs[..j] + cs[j..] == cs && ([b] + cs[..j]) + cs[j..] == [b] + cs;
  }

  lemma FirstFit(cs: seq<Bytes>, j: nat, b: Bytes)
    requires AllFit(cs) && j <= |cs| && |b| < TWO32
    ensures AllFit(cs[..j]) && AllFit([b] + cs[..j])
  {
  }

  lemma {:induction false} PastExactly(ps: seq<Bytes>, rest: Replayed, front: seq<Bytes>, tail: seq<Bytes>)
    ensures Past(ps, rest, tail) == Replayed(ps + (front + tail), true) <==> rest == Replayed(front, true)
  {
    if rest == Replayed(front, true) {
      assert ps + front + tail == ps + (front + tail);
    }
    if Past(ps, rest, tail) == Replayed(ps + (front + tail), true) {
      assert ps + rest.delivered + tail == ps + (rest.delivered + tail);
      SameAfter(ps, rest.delivered + tail, front + tail);
      SameBefore(rest.delivered, front, tail);
    }
  }

  lemma SameAfter(p: seq<Bytes>, x: seq<Bytes>, y: seq<Bytes>)
    requires p + x == p + y
    ensures x == y
  {
    assert (p + x)[|p|..] == x && (p + y)[|p|..] == y;
  }

  lemma SameBefore(x: seq<Bytes>, y: seq<Bytes>, t: seq<Bytes>)
    requires x + t == y + t
    ensures x == y
  {
    assert |x| == |y| && (x + t)[..|x|] == x && (y + t)[..|y|] == y;
  }

  /** When the torn file was full at the restart, all later records are lost with it: they are delivered exactly when
      nothing of the torn one is left. */
  lemma {:induction false} FullFileExactly(cfg: Config, w: WalState, payloads: seq<Bytes>, b: Bytes, n: nat,
          files: map<nat, Bytes>, ops: seq<WalOp>)
    requires HoldsLog(cfg.crc, cfg.maxFileSize, w, payloads) && AllFit(payloads + [b]) && AllFit(Appended(ops))
    requires w.fileSequence in w.files && CutAppend(cfg, w, b, n, files) && n < 8 + |b|
    requires var last := AppendTo(cfg.crc, cfg.maxFileSize, w, b).fileSequence;
             last in files && |files[last]| >= cfg.maxFileSize
    ensures var t := RunFrom(cfg.crc, cfg.maxFileSize, files, ops);
            ReplayDir(cfg.crc, AcceptAll(), t.files, Beyond(t.files.Keys))
              == if n == 0 then Replayed(payloads + Appended(ops), true) else Replayed(payloads, false)
  {
    hide HoldsLog, CutAppend, FlatMap, Frame, ReplayFile, ReplayDir, AllFit, RunFrom, Appended, AppendTo, Beyond;
    FitsWith(payloads, b);
    var j := TornRunReplays(cfg, w, payloads, b, n, files, ops);
    AtMostTheRecord(cfg, w, b, n, files);
    var torn := Frame(cfg.crc, b)[..n];
    NoFrames(cfg.crc, torn);
    assert Appended(ops)[..0] == [] && Appended(ops)[0..] == Appended(ops);
    TornAlone(cfg.crc, b, n);
    assert payloads + [] == payloads;
  }

  lemma FitsWith(payloads: seq<Bytes>, b: Bytes)
    requires AllFit(payloads + [b])
    ensures AllFit(payloads) && |b| < TWO32
  {
    assert forall p :: p in payloads || p == b ==> p in payloads + [b];
  }

  lemma NoFrames(crc: Checksum, torn: Bytes)
    ensures torn + FlatMap(Framer(crc), []) == torn
  {
    OneFrame(crc, []);
  }

  lemma {:induction false} TornAlone(crc: Checksum, b: Bytes, n: nat)
    requires |b| < TWO32 && n < 8 + |b|
    ensures ReplayFile(crc, AcceptAll(), Frame(crc, b)[..n]) == Replayed([], n == 0)
  {
    hide Frame;
    CutFrameFails(crc, b, n);
  }

  /** A torn record can come back in place of the one appended behind it: when b ends in the frame of d, the appended d
      completes b, which no caller was told had been written. */
  lemma {:induction false} TornRecordRevived(cfg: Config, w: WalState, payloads: seq<Bytes>, x: Bytes, d: Bytes,
          files: map<nat, Bytes>)
    requires var b := x + Frame(cfg.crc, d);
             && HoldsLog(cfg.crc, cfg.maxFileSize, w, payloads) && AllFit(payloads + [b])
             && w.fileSequence in w.files && CutAppend(cfg, w, b, 8 + |x|, files)
    requires var last := AppendTo(cfg.crc, cfg.maxFileSize, w, x + Frame(cfg.crc, d)).fileSequence;
             last in files && |files[last]| + 12 + |d| <= cfg.maxFileSize
    ensures var t := RunFrom(cfg.crc, cfg.maxFileSize, files, [Append(d)]);
            && HoldsLog(cfg.crc, cfg.maxFileSize, t, payloads + [x + Frame(cfg.crc, d)])
            && ReplayDir(cfg.crc, AcceptAll(), t.files, Beyond(t.files.Keys)) == Replayed(payloads + [x + Frame(cfg.crc, d)], true)
  {
    hide HoldsLog, CutAppend, FlatMap, Frame, ReplayDir, AllFit, Beyond, AppendTo, RunFrom;
    var b := x + Frame(cfg.crc, d);
    var whole := AppendTo(cfg.crc, cfg.maxFileSize, w, b);
    var t := RunFrom(cfg.crc, cfg.maxFileSize, files, [Append(d)]);
    StepHolds(cfg.crc, cfg.maxFileSize, w, payloads, Append(b));
    assert t == whole by {
      Completed(cfg, w, payloads, x, d, files);
    }
    LogReplays(cfg.crc, cfg.maxFileSize, AcceptAll(), t, payloads + [b]);
    DeliverAll(AcceptAll(), payloads + [b]);
  }

  lemma {:induction false} Completed(cfg: Config, w: WalState, payloads: seq<Bytes>, x: Bytes, d: Bytes,
          files: map<nat, Bytes>)
    requires var b := x + Frame(cfg.crc, d);
             && HoldsLog(cfg.crc, cfg.maxFileSize, w, payloads)
             && w.fileSequence in w.files && CutAppend(cfg, w, b, 8 + |x|, files)
    requires var last := AppendTo(cfg.crc, cfg.maxFileSize, w, x + Frame(cfg.crc, d)).fileSequence;
             last in files && |files[last]| + 12 + |d| <= cfg.maxFileSize
    ensures RunFrom(cfg.crc, cfg.maxFileSize, files, [Append(d)]) == AppendTo(cfg.crc, cfg.maxFileSize, w, x + Frame(cfg.crc, d))
  {
    hide FlatMap, Log, Frame, AppendTo, RunFrom;
    var b := x + Frame(cfg.crc, d);
    var frames :| Holds(cfg.crc, cfg.maxFileSize, w, frames) && Log(frames, w.fileSequence + 1) == payloads;
    AppendHolds(cfg.crc, cfg.maxFileSize, w, frames, b);
    var t := AppendTo(cfg.crc, cfg.maxFileSize, w, b);
    var last := t.fileSequence;
    EndsInFrame(cfg, w, x, d);
    assert files == t.files[last := t.files[last][..|t.files[last]| - 8 - |d|]];
    AppendReopened(cfg.crc, cfg.maxFileSize, files, last, d);
    assert t.currentSize == |t.files[last]|;
  }

  lemma {:induction false} EndsInFrame(cfg: Config, w: WalState, x: Bytes, d: Bytes)
    requires w.fileSequence in w.files
    ensures var t := AppendTo(cfg.crc, cfg.maxFileSize, w, x + Frame(cfg.crc, d));
            var whole := t.files[t.fileSequence];
            |whole| >= 8 + |d| && whole[..|whole| - 8 - |d|] + Frame(cfg.crc, d) == whole
  {
    hide EncU32;
    var b := x + Frame(cfg.crc, d);
    var head := EncU32(|b|) + EncU32(cfg.crc(b)) + x;
    assert Frame(cfg.crc, b) == head + Frame(cfg.crc, d);
    hide Frame;
    var t := AppendTo(cfg.crc, cfg.maxFileSize, w, b);
    var whole := t.files[t.fileSequence];
    var was := whole[..|whole| - 8 - |b|];
    assert whole == was + Frame(cfg.crc, b) == (was + head) + Frame(cfg.crc, d);
  }

  lemma {:induction false} AppendReopened(crc: Checksum, maxFileSize: int, files: map<nat, Bytes>, last: nat, d: Bytes)
    requires IsMax(last, files.Keys) && |files[last]| + 12 + |d| <= maxFileSize
    ensures RunFrom(crc, maxFileSize, files, [Append(d)])
         == WalState(files[last := files[last] + Frame(crc, d)], |files[last]| + 8 + |d|, last)
  {
    hide Frame;
    MaxUnique(last, MaxKey(files.Keys), files.Keys);
    assert [Append(d)][..0] == [];
    assert RunFrom(crc, maxFileSize, files, []) == WalState(files, |files[last]|, last);
  }
}
