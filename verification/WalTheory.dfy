/** What a replay delivers after any sequence of appends, rotations and reopenings, and after a torn tail. */
module WalTheory {
  import opened Prelude
  import opened Wal

  /** What a callback sees of a list of payloads: everything up to the first refusal. */
  function Deliver(accept: Bytes -> bool, ps: seq<Bytes>): Replayed {
    if ps == [] then Replayed([], true)
    else if !accept(ps[0]) then Replayed([], false)
    else Then([ps[0]], Deliver(accept, ps[1..]))
  }

  predicate AllFit(ps: seq<Bytes>) {
    forall p :: p in ps ==> |p| < TWO32
  }

  // ----- one file -----

  lemma {:induction false} FrameReads(crc: Checksum, data: Bytes, rest: Bytes)
    requires |data| < TWO32
    ensures ReadEntry(crc, Frame(crc, data) + rest) == Entry(data, rest)
  {
    hide EncU32, ParseU32;
    var t2 := data + rest;
    var t1 := EncU32(crc(data)) + t2;
    assert Frame(crc, data) + rest == EncU32(|data|) + t1;
    ParseU32RoundTrip(|data|, t1);
    ParseU32RoundTrip(crc(data), t2);
    assert t2[..|data|] == data && t2[|data|..] == rest;
  }

  lemma {:induction false} FileReplays(crc: Checksum, accept: Bytes -> bool, ps: seq<Bytes>)
    requires AllFit(ps)
    ensures ReplayFile(crc, accept, FlatMap(Framer(crc), ps)) == Deliver(accept, ps)
  {
    if ps != [] {
      hide Frame, ReadEntry;
      assert ps[0] in ps;
      FrameReads(crc, ps[0], FlatMap(Framer(crc), ps[1..]));
      FileReplays(crc, accept, ps[1..]);
    }
  }

  /** How many whole frames the first k bytes of a file hold. */
  function Complete(ps: seq<Bytes>, k: nat): (m: nat)
    ensures m <= |ps|
  {
    if ps == [] || 8 + |ps[0]| > k then 0 else 1 + Complete(ps[1..], k - 8 - |ps[0]|)
  }

  lemma {:induction false} CutFrameFails(crc: Checksum, data: Bytes, k: nat)
    requires |data| < TWO32 && k < |Frame(crc, data)|
    ensures ReadEntry(crc, Frame(crc, data)[..k]) == if k == 0 then EndOfFile else Corrupt
  {
    hide EncU32, U32At;
    var d := Frame(crc, data)[..k];
    if k >= 8 {
      U32RoundTrip(|data|, EncU32(crc(data)) + data);
      assert d[..4] == (EncU32(|data|) + (EncU32(crc(data)) + data))[..4];
    }
  }

  /** A file cut at any byte delivers exactly its complete frames; the cut shows as an error unless it is at a
      frame boundary. No property of the checksum is used. */
  lemma {:induction false} CutFileReplays(crc: Checksum, accept: Bytes -> bool, ps: seq<Bytes>, k: nat)
    requires AllFit(ps) && (forall p :: p in ps ==> accept(p)) && k <= |FlatMap(Framer(crc), ps)|
    ensures var m := Complete(ps, k);
            ReplayFile(crc, accept, FlatMap(Framer(crc), ps)[..k])
              == Replayed(ps[..m], k == |FlatMap(Framer(crc), ps[..m])|)
    decreases |ps|
  {
    hide FlatMap, ReadEntry;
    var f := Framer(crc);
    FlatMapWhole(f, ps);
    if ps == [] {
      CutNothing(crc, accept, FlatMap(f, ps)[..k]);
    } else {
      var frame, rest := Frame(crc, ps[0]), FlatMap(f, ps[1..]);
      assert ps[0] in ps;
      FirstFrame(crc, ps);
      if k < |frame| {
        assert (frame + rest)[..k] == frame[..k];
        CutFrameFails(crc, ps[0], k);
      } else {
        var j, n := k - |frame|, Complete(ps[1..], k - |frame|);
        assert (frame + rest)[..k] == frame + rest[..j];
        FrameReads(crc, ps[0], rest[..j]);
        CutFileReplays(crc, accept, ps[1..], j);
        assert ps[..n + 1] == [ps[0]] + ps[1..][..n];
        FirstFrame(crc, ps[..n + 1]);
        assert ps[..n + 1][1..] == ps[1..][..n];
      }
    }
  }

  lemma CutNothing(crc: Checksum, accept: Bytes -> bool, d: Bytes)
    requires d == []
    ensures ReplayFile(crc, accept, d) == Replayed([], true)
  {
  }

  lemma FirstFrame(crc: Checksum, ps: seq<Bytes>)
    requires ps != []
    ensures FlatMap(Framer(crc), ps) == Frame(crc, ps[0]) + FlatMap(Framer(crc), ps[1..])
  {
  }

  // ----- the directory -----

  /** The payloads of the files numbered below n, in order. */
  function Log(frames: map<nat, seq<Bytes>>, n: nat): seq<Bytes> {
    if n == 0 then [] else Log(frames, n - 1) + (if n - 1 in frames then frames[n - 1] else [])
  }

  /** Every file holds exactly these frames, is at most maxFileSize long unless it holds a single entry, and the
      current file is the last one. */
  ghost predicate Holds(crc: Checksum, maxFileSize: int, s: WalState, frames: map<nat, seq<Bytes>>) {
    && s.files.Keys == frames.Keys
    && IsMax(s.fileSequence, s.files.Keys)
    && s.currentSize == |s.files[s.fileSequence]|
    && forall k :: k in frames ==>
         && s.files[k] == FlatMap(Framer(crc), frames[k])
         && (|s.files[k]| <= maxFileSize || |frames[k]| <= 1)
  }

  lemma {:induction false} LogIgnores(a: map<nat, seq<Bytes>>, b: map<nat, seq<Bytes>>, n: nat)
    requires forall k: nat :: k < n ==> (k in a <==> k in b) && (k in a ==> a[k] == b[k])
    ensures Log(a, n) == Log(b, n)
  {
    if n > 0 {
      LogIgnores(a, b, n - 1);
    }
  }

  function FramesAfterAppend(frames: map<nat, seq<Bytes>>, rotated: bool, last: nat, data: Bytes): map<nat, seq<Bytes>>
    requires last in frames
  {
    if rotated then frames[last + 1 := [data]] else frames[last := frames[last] + [data]]
  }

  lemma {:induction false} AppendHolds(crc: Checksum, maxFileSize: int, s: WalState, frames: map<nat, seq<Bytes>>,
          data: Bytes)
    requires Holds(crc, maxFileSize, s, frames)
    ensures var t := AppendTo(crc, maxFileSize, s, data);
            var more := FramesAfterAppend(frames, t.fileSequence != s.fileSequence, s.fileSequence, data);
            && Holds(crc, maxFileSize, t, more)
            && Log(more, t.fileSequence + 1) == Log(frames, s.fileSequence + 1) + [data]
  {
    hide Frame, FlatMap, Log;
    var t := AppendTo(crc, maxFileSize, s, data);
    var rotated := t.fileSequence != s.fileSequence;
    var last := s.fileSequence;
    OneFrame(crc, data);
    LogGrows(frames, rotated, last, data);
    if rotated {
      assert last + 1 !in frames;
      assert t.files[last + 1] == Frame(crc, data);
    } else {
      FlatMapSnoc(Framer(crc), frames[last], data);
    }
  }

  lemma {:induction false} LogGrows(frames: map<nat, seq<Bytes>>, rotated: bool, last: nat, data: Bytes)
    requires last in frames
    ensures var more := FramesAfterAppend(frames, rotated, last, data);
            Log(more, if rotated then last + 2 else last + 1) == Log(frames, last + 1) + [data]
  {
    var more := FramesAfterAppend(frames, rotated, last, data);
    if rotated {
      LogIgnores(frames, more, last + 1);
    } else {
      LogIgnores(frames, more, last);
      assert Log(frames, last) + (frames[last] + [data]) == Log(frames, last) + frames[last] + [data];
    }
  }

  lemma OneFrame(crc: Checksum, data: Bytes)
    ensures FlatMap(Framer(crc), [data]) == Frame(crc, data) && [] + Frame(crc, data) == Frame(crc, data)
    ensures FlatMap(Framer(crc), []) == []
  {
    assert FlatMap(Framer(crc), [data]) == Frame(crc, data) + FlatMap(Framer(crc), []);
  }

  /** No file was left before it was full: it has reached the limit, or the next record did not fit. */
  ghost predicate Packed(maxFileSize: int, files: map<nat, Bytes>, frames: map<nat, seq<Bytes>>, last: nat) {
    forall k :: k in frames && k < last ==> k in files && Followed(maxFileSize, |files[k]|, frames, k + 1)
  }

  /** After a file of this size the frames of file k may begin. */
  ghost predicate Followed(maxFileSize: int, size: int, frames: map<nat, seq<Bytes>>, k: nat) {
    size >= maxFileSize || (k in frames && frames[k] != [] && size + 8 + 4 + |frames[k][0]| > maxFileSize)
  }

  lemma {:induction false} AppendPacks(crc: Checksum, maxFileSize: int, s: WalState, frames: map<nat, seq<Bytes>>,
          data: Bytes)
    requires Holds(crc, maxFileSize, s, frames) && Packed(maxFileSize, s.files, frames, s.fileSequence)
    ensures var t := AppendTo(crc, maxFileSize, s, data);
            var more := FramesAfterAppend(frames, t.fileSequence != s.fileSequence, s.fileSequence, data);
            Packed(maxFileSize, t.files, more, t.fileSequence)
  {
    hide Frame, FlatMap;
    var t := AppendTo(crc, maxFileSize, s, data);
    var last := s.fileSequence;
    var more := FramesAfterAppend(frames, t.fileSequence != last, last, data);
    forall k | k in more && k < t.fileSequence
      ensures k in t.files && Followed(maxFileSize, |t.files[k]|, more, k + 1)
    {
      if k < last {
        assert Followed(maxFileSize, |s.files[k]|, frames, k + 1);
      }
    }
  }

  function FramesAfterReopen(frames: map<nat, seq<Bytes>>, rotated: bool, last: nat): map<nat, seq<Bytes>> {
    if rotated then frames[last + 1 := []] else frames
  }

  lemma {:induction false} ReopenHolds(crc: Checksum, maxFileSize: int, s: WalState, frames: map<nat, seq<Bytes>>)
    requires Holds(crc, maxFileSize, s, frames)
    ensures var t := Reopen(maxFileSize, s.files);
            var more := FramesAfterReopen(frames, t.fileSequence != s.fileSequence, s.fileSequence);
            Holds(crc, maxFileSize, t, more) && Log(more, t.fileSequence + 1) == Log(frames, s.fileSequence + 1)
  {
    hide FlatMap, Log;
    var t := Reopen(maxFileSize, s.files);
    var last := s.fileSequence;
    MaxUnique(last, MaxKey(s.files.Keys), s.files.Keys);
    if t.fileSequence != last {
      assert last + 1 !in s.files;
      OneFrame(crc, []);
      EmptyFileLogs(frames, last);
    }
  }

  lemma {:induction false} EmptyFileLogs(frames: map<nat, seq<Bytes>>, last: nat)
    ensures Log(frames[last + 1 := []], last + 2) == Log(frames, last + 1)
  {
    LogIgnores(frames, frames[last + 1 := []], last + 1);
    assert Log(frames, last + 1) + [] == Log(frames, last + 1);
  }

  lemma {:induction false} ReopenPacks(crc: Checksum, maxFileSize: int, s: WalState, frames: map<nat, seq<Bytes>>)
    requires Holds(crc, maxFileSize, s, frames) && Packed(maxFileSize, s.files, frames, s.fileSequence)
    ensures var t := Reopen(maxFileSize, s.files);
            var more := FramesAfterReopen(frames, t.fileSequence != s.fileSequence, s.fileSequence);
            Packed(maxFileSize, t.files, more, t.fileSequence)
  {
    hide FlatMap;
    var t := Reopen(maxFileSize, s.files);
    var last := s.fileSequence;
    MaxUnique(last, MaxKey(s.files.Keys), s.files.Keys);
    var more := FramesAfterReopen(frames, t.fileSequence != last, last);
    forall k | k in more && k < t.fileSequence
      ensures k in t.files && Followed(maxFileSize, |t.files[k]|, more, k + 1)
    {
      if k < last {
        assert Followed(maxFileSize, |s.files[k]|, frames, k + 1);
      }
    }
  }

  // ----- runs -----

  datatype WalOp = Append(data: Bytes) | CloseAndReopen

  /** The state after opening a directory and any sequence of operations. */
  ghost function RunFrom(crc: Checksum, maxFileSize: int, files: map<nat, Bytes>, ops: seq<WalOp>): (s: WalState)
    ensures s.fileSequence in s.files
  {
    if ops == [] then Reopen(maxFileSize, files)
    else
      var s := RunFrom(crc, maxFileSize, files, ops[..|ops| - 1]);
      match ops[|ops| - 1]
      case Append(data) => AppendTo(crc, maxFileSize, s, data)
      case CloseAndReopen => Reopen(maxFileSize, s.files)
  }

  /** The same for a log that started in an empty directory. */
  ghost function RunWal(crc: Checksum, maxFileSize: int, ops: seq<WalOp>): (s: WalState)
    ensures s.fileSequence in s.files
  {
    RunFrom(crc, maxFileSize, map[], ops)
  }

  function Appended(ops: seq<WalOp>): seq<Bytes> {
    if ops == [] then []
    else
      var n := |ops| - 1;
      Appended(ops[..n]) + (if ops[n].Append? then [ops[n].data] else [])
  }

  /** The files hold the log, packed. */
  ghost predicate HoldsPacked(crc: Checksum, maxFileSize: int, s: WalState, log: seq<Bytes>) {
    exists frames :: Holds(crc, maxFileSize, s, frames) && Log(frames, s.fileSequence + 1) == log
      && Packed(maxFileSize, s.files, frames, s.fileSequence)
  }

  /** A new file is begun only when the last has reached the limit or the next record would not fit into it. */
  lemma {:induction false} RunPacks(crc: Checksum, maxFileSize: int, ops: seq<WalOp>)
    ensures HoldsPacked(crc, maxFileSize, RunWal(crc, maxFileSize, ops), Appended(ops))
  {
    hide Holds, AppendTo, Reopen, Log, Packed;
    if ops == [] {
      EmptyPacked(crc, maxFileSize);
    } else {
      var n := |ops| - 1;
      RunPacks(crc, maxFileSize, ops[..n]);
      var s, log := RunWal(crc, maxFileSize, ops[..n]), Appended(ops[..n]);
      var frames :| Holds(crc, maxFileSize, s, frames) && Log(frames, s.fileSequence + 1) == log
        && Packed(maxFileSize, s.files, frames, s.fileSequence);
      assert log + [] == log;
      match ops[n] {
        case Append(data) =>
          AppendHolds(crc, maxFileSize, s, frames, data);
          AppendPacks(crc, maxFileSize, s, frames, data);
        case CloseAndReopen =>
          ReopenHolds(crc, maxFileSize, s, frames);
          ReopenPacks(crc, maxFileSize, s, frames);
      }
    }
  }

  lemma EmptyPacked(crc: Checksum, maxFileSize: int)
    ensures HoldsPacked(crc, maxFileSize, Reopen(maxFileSize, map[]), [])
  {
    OneFrame(crc, []);
    assert Holds(crc, maxFileSize, Reopen(maxFileSize, map[]), map[0 := []]);
    assert Log(map[0 := []], 0) == [];
  }

  ghost predicate HoldsLog(crc: Checksum, maxFileSize: int, s: WalState, log: seq<Bytes>) {
    exists frames :: Holds(crc, maxFileSize, s, frames) && Log(frames, s.fileSequence + 1) == log
  }

  /** After every run the files hold the appended payloads, in order, with no file over the size limit unless it
      holds a single entry. */
  lemma {:induction false} RunHolds(crc: Checksum, maxFileSize: int, ops: seq<WalOp>)
    ensures HoldsLog(crc, maxFileSize, RunWal(crc, maxFileSize, ops), Appended(ops))
  {
    hide HoldsLog, AppendTo, Reopen;
    if ops == [] {
      EmptyHolds(crc, maxFileSize);
    } else {
      var n := |ops| - 1;
      RunHolds(crc, maxFileSize, ops[..n]);
      StepHolds(crc, maxFileSize, RunWal(crc, maxFileSize, ops[..n]), Appended(ops[..n]), ops[n]);
    }
  }

  lemma EmptyHolds(crc: Checksum, maxFileSize: int)
    ensures HoldsLog(crc, maxFileSize, Reopen(maxFileSize, map[]), [])
  {
    OneFrame(crc, []);
    assert Holds(crc, maxFileSize, Reopen(maxFileSize, map[]), map[0 := []]);
    assert Log(map[0 := []], 0) == [];
  }

  lemma {:induction false} StepHolds(crc: Checksum, maxFileSize: int, s: WalState, log: seq<Bytes>, op: WalOp)
    requires HoldsLog(crc, maxFileSize, s, log) && s.fileSequence in s.files
    ensures match op
            case Append(data) => HoldsLog(crc, maxFileSize, AppendTo(crc, maxFileSize, s, data), log + [data])
            case CloseAndReopen => HoldsLog(crc, maxFileSize, Reopen(maxFileSize, s.files), log + [])
  {
    hide Holds, AppendTo, Reopen, Log;
    var frames :| Holds(crc, maxFileSize, s, frames) && Log(frames, s.fileSequence + 1) == log;
    assert log + [] == log;
    match op {
      case Append(data) =>
        AppendHolds(crc, maxFileSize, s, frames, data);
      case CloseAndReopen =>
        ReopenHolds(crc, maxFileSize, s, frames);
    }
  }

  lemma {:induction false} DeliverAppend(accept: Bytes -> bool, a: seq<Bytes>, b: seq<Bytes>)
    ensures var r := Deliver(accept, a);
            Deliver(accept, a + b) == if r.clean then Then(r.delivered, Deliver(accept, b)) else r
  {
    if a == [] {
      assert a + b == b;
      assert Then([], Deliver(accept, b)) == Deliver(accept, b);
    } else {
      hide Then;
      DeliverAppend(accept, a[1..], b);
      assert (a + b)[1..] == a[1..] + b;
      PrependDelivered(a[0], Deliver(accept, a[1..]), Deliver(accept, b));
    }
  }

  lemma PrependDelivered(x: Bytes, r: Replayed, more: Replayed)
    ensures Then([x], Then(r.delivered, more)) == Then(Then([x], r).delivered, more)
    ensures Then([x], r).clean == r.clean
  {
    assert [x] + (r.delivered + more.delivered) == [x] + r.delivered + more.delivered;
  }

  lemma {:induction false} DeliverAll(accept: Bytes -> bool, ps: seq<Bytes>)
    requires forall p :: p in ps ==> accept(p)
    ensures Deliver(accept, ps) == Replayed(ps, true)
  {
    if ps != [] {
      DeliverAll(accept, ps[1..]);
      assert ps == [ps[0]] + ps[1..];
    }
  }

  lemma {:induction false} DirReplays(crc: Checksum, maxFileSize: int, accept: Bytes -> bool, s: WalState,
          frames: map<nat, seq<Bytes>>, n: nat)
    requires Holds(crc, maxFileSize, s, frames) && AllFit(Log(frames, n))
    ensures ReplayDir(crc, accept, s.files, n) == Deliver(accept, Log(frames, n))
  {
    hide FlatMap, ReplayFile, Deliver;
    if n > 0 {
      var before, this' := Log(frames, n - 1), if n - 1 in frames then frames[n - 1] else [];
      assert forall p :: p in before ==> p in before + this';
      assert forall p :: p in this' ==> p in before + this';
      DirReplays(crc, maxFileSize, accept, s, frames, n - 1);
      if n - 1 in frames {
        FileReplays(crc, accept, this');
        DeliverAppend(accept, before, this');
      } else {
        assert before + [] == before;
      }
    } else {
      DeliverAll(accept, []);
    }
  }

  lemma HoldsBeyond(crc: Checksum, maxFileSize: int, s: WalState, frames: map<nat, seq<Bytes>>)
    requires Holds(crc, maxFileSize, s, frames)
    ensures Beyond(s.files.Keys) == s.fileSequence + 1
  {
    MaxUnique(s.fileSequence, MaxKey(s.files.Keys), s.files.Keys);
  }

  lemma {:induction false} LogReplays(crc: Checksum, maxFileSize: int, accept: Bytes -> bool, s: WalState,
          log: seq<Bytes>)
    requires HoldsLog(crc, maxFileSize, s, log) && AllFit(log)
    ensures Beyond(s.files.Keys) == s.fileSequence + 1
    ensures ReplayDir(crc, accept, s.files, s.fileSequence + 1) == Deliver(accept, log)
  {
    hide Holds, Log, ReplayDir, Deliver, Beyond;
    var frames :| Holds(crc, maxFileSize, s, frames) && Log(frames, s.fileSequence + 1) == log;
    HoldsBeyond(crc, maxFileSize, s, frames);
    DirReplays(crc, maxFileSize, accept, s, frames, s.fileSequence + 1);
  }

  /** Replay after any run hands the callback exactly the appended payloads, in order, up to its first refusal. */
  lemma {:induction false} WalReplays(crc: Checksum, maxFileSize: int, accept: Bytes -> bool, ops: seq<WalOp>)
    requires AllFit(Appended(ops))
    ensures var s := RunWal(crc, maxFileSize, ops);
            && Beyond(s.files.Keys) == s.fileSequence + 1
            && ReplayDir(crc, accept, s.files, Beyond(s.files.Keys)) == Deliver(accept, Appended(ops))
  {
    hide RunWal, Appended, HoldsLog, ReplayDir, Deliver, Beyond;
    RunHolds(crc, maxFileSize, ops);
    LogReplays(crc, maxFileSize, accept, RunWal(crc, maxFileSize, ops), Appended(ops));
  }

  /** With a callback that refuses nothing, replay is faithful exactly when every payload length fits its 32-bit field. */
  lemma {:induction false} WalRoundTrip(crc: Checksum, maxFileSize: int, accept: Bytes -> bool, ops: seq<WalOp>)
    requires forall p :: p in Appended(ops) ==> accept(p)
    ensures var s := RunWal(crc, maxFileSize, ops);
            ReplayDir(crc, accept, s.files, Beyond(s.files.Keys)) == Replayed(Appended(ops), true) <==> AllFit(Appended(ops))
  {
    hide RunWal, ReplayDir, Beyond, Appended, Deliver;
    var s := RunWal(crc, maxFileSize, ops);
    if AllFit(Appended(ops)) {
      WalReplays(crc, maxFileSize, accept, ops);
      DeliverAll(accept, Appended(ops));
    }
    DirDeliversFit(crc, accept, s.files, Beyond(s.files.Keys));
  }

  lemma {:induction false} DirDeliversFit(crc: Checksum, accept: Bytes -> bool, files: map<nat, Bytes>, n: nat)
    ensures AllFit(ReplayDir(crc, accept, files, n).delivered)
  {
    if n > 0 {
      DirDeliversFit(crc, accept, files, n - 1);
      if n - 1 in files {
        FileDeliversFit(crc, accept, files[n - 1]);
      }
    }
  }

  lemma {:induction false} FileDeliversFit(crc: Checksum, accept: Bytes -> bool, d: Bytes)
    ensures AllFit(ReplayFile(crc, accept, d).delivered)
    decreases |d|
  {
    hide ReadEntry;
    var r := ReadEntry(crc, d);
    if r.Entry? && accept(r.data) {
      FileDeliversFit(crc, accept, r.rest);
    }
  }

  /** Cutting the last file of a run at any byte loses only the frames the cut reaches: replay delivers everything
      before them, and ends cleanly exactly when the cut is at a frame boundary. */
  lemma {:induction false} TornTailReplays(crc: Checksum, maxFileSize: int, accept: Bytes -> bool, s: WalState,
          frames: map<nat, seq<Bytes>>, k: nat)
    requires Holds(crc, maxFileSize, s, frames)
    requires AllFit(Log(frames, s.fileSequence + 1)) && forall p :: p in Log(frames, s.fileSequence + 1) ==> accept(p)
    requires k <= |s.files[s.fileSequence]|
    ensures var last := s.fileSequence;
            var m := Complete(frames[last], k);
            ReplayDir(crc, accept, s.files[last := s.files[last][..k]], last + 1)
              == Replayed(Log(frames, last) + frames[last][..m], k == |FlatMap(Framer(crc), frames[last][..m])|)
  {
    hide FlatMap, ReplayFile, Deliver;
    var last := s.fileSequence;
    var cut := s.files[last := s.files[last][..k]];
    var before := Log(frames, last);
    assert forall p :: p in before ==> p in before + frames[last];
    assert forall p :: p in frames[last] ==> p in before + frames[last];
    DirReplays(crc, maxFileSize, accept, s, frames, last);
    DeliverAll(accept, before);
    SameBelow(crc, accept, s.files, cut, last);
    CutFileReplays(crc, accept, frames[last], k);
  }

  lemma {:induction false} SameBelow(crc: Checksum, accept: Bytes -> bool, a: map<nat, Bytes>, b: map<nat, Bytes>,
          n: nat)
    requires forall k: nat :: k < n ==> (k in a <==> k in b) && (k in a ==> a[k] == b[k])
    ensures ReplayDir(crc, accept, a, n) == ReplayDir(crc, accept, b, n)
  {
    if n > 0 {
      SameBelow(crc, accept, a, b, n - 1);
    }
  }
}
