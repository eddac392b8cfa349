/** core/storage/wal: the write-ahead log, a directory of numbered files of checksummed frames. */
module Wal {
  import opened Prelude

  type Checksum = Bytes -> U32

  // ----- frames -----

  function Frame(crc: Checksum, data: Bytes): (b: Bytes)
    ensures |b| == 8 + |data|
  {
    EncU32(|data|) + (EncU32(crc(data)) + data)
  }

  function Framer(crc: Checksum): Bytes -> Bytes {
    (data: Bytes) => Frame(crc, data)
  }

  datatype ReadResult = Entry(data: Bytes, rest: Bytes) | EndOfFile | Corrupt

  /** ReadEntry: end of file only when not a single byte is left; any other shortage is an error. */
  function ReadEntry(crc: Checksum, d: Bytes): (r: ReadResult)
    ensures r.Entry? ==> 8 + |r.data| + |r.rest| == |d| && |r.data| < TWO32
  {
    if d == [] then EndOfFile
    else
      match ParseU32(d)
      case None => Corrupt
      case Some((length, d1)) =>
        match ParseU32(d1)
        case None => Corrupt
        case Some((sum, d2)) =>
          if length > |d2| || crc(d2[..length]) != sum then Corrupt
          else Entry(d2[..length], d2[length..])
  }

  // ----- replay -----

  // The payloads handed to the callback, and whether the replay ended without an error.
  datatype Replayed = Replayed(delivered: seq<Bytes>, clean: bool)

  function Then(xs: seq<Bytes>, r: Replayed): Replayed {
    Replayed(xs + r.delivered, r.clean)
  }

  /** One file, up to its end, the first corruption, or the first payload that accept (decoding plus callback) refuses. */
  function ReplayFile(crc: Checksum, accept: Bytes -> bool, d: Bytes): Replayed
    decreases |d|
  {
    match ReadEntry(crc, d)
    case EndOfFile => Replayed([], true)
    case Corrupt => Replayed([], false)
    case Entry(data, rest) =>
      if !accept(data) then Replayed([], false) else Then([data], ReplayFile(crc, accept, rest))
  }

  /** The files numbered below n in ascending order, stopping at the first error. */
  function ReplayDir(crc: Checksum, accept: Bytes -> bool, files: map<nat, Bytes>, n: nat): Replayed {
    if n == 0 then Replayed([], true)
    else
      var before := ReplayDir(crc, accept, files, n - 1);
      if !before.clean || n - 1 !in files then before
      else Then(before.delivered, ReplayFile(crc, accept, files[n - 1]))
  }

  // ----- appending and reopening -----

  datatype WalState = WalState(files: map<nat, Bytes>, currentSize: int, fileSequence: nat)

  function Rotate(files: map<nat, Bytes>, seqNo: nat): WalState {
    WalState(if seqNo in files then files else files[seqNo := []], 0, seqNo)
  }

  function AppendTo(crc: Checksum, maxFileSize: int, s: WalState, data: Bytes): WalState
    requires s.fileSequence in s.files
  {
    var t := if s.currentSize + 8 + 4 + |data| > maxFileSize then Rotate(s.files, s.fileSequence + 1) else s;
    WalState(t.files[t.fileSequence := t.files[t.fileSequence] + Frame(crc, data)], t.currentSize + 8 + |data|, t.fileSequence)
  }

  ghost predicate IsMax(m: nat, s: set<nat>) {
    m in s && forall x :: x in s ==> x <= m
  }

  lemma MaxExists(s: set<nat>)
    requires s != {}
    ensures exists m :: IsMax(m, s)
  {
    var e :| e in s;
    if s == {e} {
      assert IsMax(e, s);
    } else {
      MaxExists(s - {e});
      var m :| IsMax(m, s - {e});
      assert forall x :: x in s ==> x == e || x in s - {e};
      assert IsMax(if m < e then e else m, s);
    }
  }

  lemma ListMax(l: seq<nat>, m: nat)
    requires m in l && forall j :: 0 <= j < |l| ==> l[j] <= m
    ensures IsMax(m, Elements(l))
  {
  }

  lemma MaxUnique(a: nat, b: nat, s: set<nat>)
    requires IsMax(a, s) && IsMax(b, s)
    ensures a == b && a in s
  {
  }

  ghost function MaxKey(s: set<nat>): (m: nat)
    requires s != {}
    ensures IsMax(m, s)
  {
    MaxExists(s);
    var m :| IsMax(m, s);
    m
  }

  ghost function Reopen(maxFileSize: int, files: map<nat, Bytes>): WalState {
    if files.Keys == {} then Rotate(files, 0)
    else
      var latest := MaxKey(files.Keys);
      if |files[latest]| < maxFileSize then WalState(files, |files[latest]|, latest) else Rotate(files, latest + 1)
  }

  class WAL {
    const crc: Checksum
    const maxFileSize: int
    var files: map<nat, Bytes>    // the directory: file number to contents
    var currentSize: int
    var fileSequence: nat

    constructor (crc: Checksum, maxFileSize: int, files: map<nat, Bytes>)
      ensures this.crc == crc && this.maxFileSize == maxFileSize
      ensures State() == Reopen(maxFileSize, files)
    {
      this.crc, this.maxFileSize, this.files := crc, maxFileSize, files;
      currentSize, fileSequence := 0, 0;
      new;
      OpenOrCreateFile();
    }

    function State(): WalState
      reads this
    {
      WalState(files, currentSize, fileSequence)
    }

    /** The directory's file numbers, each once, in whatever order it lists them. */
    method Glob() returns (matches: seq<nat>)
      ensures Elements(matches) == files.Keys && forall i, j :: 0 <= i < j < |matches| ==> matches[i] != matches[j]
    {
      matches := [];
      var todo := files.Keys;
      while todo != {}
        invariant todo <= files.Keys && Elements(matches) == files.Keys - todo
        invariant forall i, j :: 0 <= i < j < |matches| ==> matches[i] != matches[j]
        decreases |todo|
      {
        var seqNo :| seqNo in todo;
        assert forall i :: 0 <= i < |matches| ==> matches[i] in Elements(matches);
        assert Elements(matches + [seqNo]) == Elements(matches) + {seqNo};
        matches := matches + [seqNo];
        todo := todo - {seqNo};
      }
    }

    /** Finds the file with the highest number. */
    method LatestFile() returns (latest: Option<nat>)
      ensures latest == if files.Keys == {} then None else Some(MaxKey(files.Keys))
    {
      hide IsMax;
      var matches := Glob();
      var latestSeq: nat := 0;
      latest := None;
      for i := 0 to |matches|
        invariant latest == if i == 0 then None else Some(latestSeq)
        invariant i == 0 ==> latestSeq == 0
        invariant i > 0 ==> latestSeq in matches && forall j :: 0 <= j < i ==> matches[j] <= latestSeq
      {
        if matches[i] >= latestSeq {
          latestSeq := matches[i];
          latest := Some(matches[i]);
        }
      }
      NoElements(matches);
      if |matches| > 0 {
        ListMax(matches, latestSeq);
        MaxUnique(latestSeq, MaxKey(files.Keys), files.Keys);
      }
    }

    /** Continues the highest-numbered file unless it is full, in which case the next number starts. */
    method OpenOrCreateFile()
      modifies this
      ensures State() == Reopen(maxFileSize, old(files))
    {
      var latest := LatestFile();
      var latestSeq: nat := 0;
      if latest.Some? {
        latestSeq := latest.value;
        if |files[latestSeq]| < maxFileSize {
          currentSize := |files[latestSeq]|;
          fileSequence := latestSeq;
          return;
        }
        latestSeq := latestSeq + 1;
      }
      RotateFile(latestSeq);
    }

    method RotateFile(seqNo: nat)
      modifies this
      ensures State() == Rotate(old(files), seqNo)
    {
      if seqNo !in files {
        files := files[seqNo := []];
      }
      currentSize := 0;
      fileSequence := seqNo;
    }

    method WriteEntry(data: Bytes)
      requires fileSequence in files
      modifies this
      ensures State() == AppendTo(crc, maxFileSize, old(State()), data)
    {
      hide EncU32, Frame;
      if currentSize + 8 + 4 + |data| > maxFileSize {
        RotateFile(fileSequence + 1);
      }
      var before := files[fileSequence];
      var checksum := crc(data);
      files := files[fileSequence := files[fileSequence] + EncU32(|data|)];
      files := files[fileSequence := files[fileSequence] + EncU32(checksum)];
      files := files[fileSequence := files[fileSequence] + data];
      FrameParts(crc, before, data);
      currentSize := currentSize + 8 + |data|;
    }

    /** The files' numbers in ascending order, however the directory lists them. */
    method SortedPaths() returns (paths: seq<nat>)
      ensures Elements(paths) == files.Keys && forall i, j :: 0 <= i < j < |paths| ==> paths[i] < paths[j]
    {
      paths := Glob();
      var unsorted := paths;
      paths := Sort(paths, (a: nat, b: nat) => a < b);
      PermutationKeepsElements(unsorted, paths);
    }

    /** Replays all files by number, up to the first error. */
    method Replay(accept: Bytes -> bool) returns (delivered: seq<Bytes>, clean: bool)
      ensures Replayed(delivered, clean) == ReplayDir(crc, accept, files, Beyond(files.Keys))
    {
      hide ReplayDir, ReplayFile;
      var paths := SortedPaths();
      delivered, clean := [], true;
      ghost var done: nat := 0;
      NothingYet(crc, accept, files);
      for i := 0 to |paths|
        invariant done == if i == 0 then 0 else paths[i - 1] + 1
        invariant clean && ReplayDir(crc, accept, files, done) == Replayed(delivered, true)
      {
        assert paths[i] in Elements(paths);
        SkipMissing(crc, accept, files, done, paths[i], paths, i);
        NextFile(crc, accept, files, paths[i]);
        done := paths[i] + 1;
        var more;
        more, clean := ReplayOne(accept, files[paths[i]]);
        delivered := delivered + more;
        if !clean {
          StaysFailed(crc, accept, files, done, Beyond(files.Keys));
          return;
        }
      }
      if |paths| > 0 {
        assert paths[|paths| - 1] in Elements(paths);
      }
      LastIsBelow(files.Keys, paths);
      SkipMissing(crc, accept, files, done, Beyond(files.Keys), paths, |paths|);
    }

    /** replayFile: the scan of one file. */
    method ReplayOne(accept: Bytes -> bool, file: Bytes) returns (delivered: seq<Bytes>, clean: bool)
      ensures Replayed(delivered, clean) == ReplayFile(crc, accept, file)
    {
      delivered := [];
      var rest := file;
      assert Then([], ReplayFile(crc, accept, file)) == ReplayFile(crc, accept, file);
      while true
        invariant ReplayFile(crc, accept, file) == Then(delivered, ReplayFile(crc, accept, rest))
        decreases |rest|
      {
        hide ParseU32;
        assert delivered + [] == delivered;
        var r := ReadEntry(crc, rest);
        if r == EndOfFile {
          return delivered, true;
        } else if r == Corrupt {
          return delivered, false;
        }
        if !accept(r.data) {
          return delivered, false;
        }
        ThenTwice(delivered, r.data, ReplayFile(crc, accept, r.rest));
        delivered := delivered + [r.data];
        rest := r.rest;
      }
    }
  }

  /** One past the highest file number. */
  ghost function Beyond(s: set<nat>): (n: nat)
    ensures forall x :: x in s ==> x < n
  {
    if s == {} then 0 else MaxKey(s) + 1
  }

  lemma LastIsBelow(s: set<nat>, paths: seq<nat>)
    requires Elements(paths) == s && forall i, j :: 0 <= i < j < |paths| ==> paths[i] < paths[j]
    ensures Beyond(s) == if paths == [] then 0 else paths[|paths| - 1] + 1
  {
    NoElements(paths);
    if paths != [] {
      assert paths[|paths| - 1] in s && MaxKey(s) in Elements(paths);
    }
  }

  lemma NothingYet(crc: Checksum, accept: Bytes -> bool, files: map<nat, Bytes>)
    ensures ReplayDir(crc, accept, files, 0) == Replayed([], true)
  {
  }

  lemma NextFile(crc: Checksum, accept: Bytes -> bool, files: map<nat, Bytes>, k: nat)
    requires k in files && ReplayDir(crc, accept, files, k).clean
    ensures ReplayDir(crc, accept, files, k + 1) == Then(ReplayDir(crc, accept, files, k).delivered, ReplayFile(crc, accept, files[k]))
  {
  }

  lemma ThenTwice(xs: seq<Bytes>, x: Bytes, r: Replayed)
    ensures Then(xs, Then([x], r)) == Then(xs + [x], r)
  {
    assert xs + ([x] + r.delivered) == xs + [x] + r.delivered;
  }

  /** Numbers without a file contribute nothing. */
  lemma {:induction false} SkipMissing(crc: Checksum, accept: Bytes -> bool, files: map<nat, Bytes>, a: nat, b: nat,
          paths: seq<nat>, i: nat)
    requires a <= b && i <= |paths| && Elements(paths) == files.Keys
    requires forall j :: 0 <= j < i ==> paths[j] < a
    requires forall j :: i <= j < |paths| ==> b <= paths[j]
    ensures ReplayDir(crc, accept, files, b) == ReplayDir(crc, accept, files, a)
    decreases b
  {
    if a < b {
      assert b - 1 !in Elements(paths);
      SkipMissing(crc, accept, files, a, b - 1, paths, i);
    }
  }

  lemma {:induction false} StaysFailed(crc: Checksum, accept: Bytes -> bool, files: map<nat, Bytes>, a: nat, b: nat)
    requires a <= b && !ReplayDir(crc, accept, files, a).clean
    ensures ReplayDir(crc, accept, files, b) == ReplayDir(crc, accept, files, a)
    decreases b
  {
    if a < b {
      StaysFailed(crc, accept, files, a, b - 1);
    }
  }

  lemma FrameParts(crc: Checksum, before: Bytes, data: Bytes)
    ensures before + EncU32(|data|) + EncU32(crc(data)) + data == before + Frame(crc, data)
  {
  }
}
