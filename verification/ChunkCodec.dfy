/** core/entity/chunk.go: text chunks, whose metadata map is written in whatever order Go enumerates it. */
module ChunkCodec {
  import opened Prelude

  type Pair = (Bytes, Bytes)

  datatype TextChunk = TextChunk(chunkID: Bytes, text: Bytes, metadata: map<Bytes, Bytes>) {

    /** The order in which the map happened to be enumerated is reported as a listing of its entries. */
    method ToBytes() returns (b: Bytes, ghost pairs: seq<Pair>)
      ensures IsListing(pairs, metadata) && b == EncChunk(this, pairs) && |b| == ChunkSize(this)
    {
      hide EncStr, MetaSize;
      var size := 12 + |chunkID| + |text|;
      var rest := metadata;
      MetaSizeEmpty();
      while rest != map[]
        invariant size + MetaSize(rest) == ChunkSize(this)
        decreases |rest|
      {
        var k :| k in rest;
        MetaSizeRemove(rest, k);
        size := size + 4 + |k| + 4 + |rest[k]|;
        rest := rest - {k};
      }
      b, pairs := Fill(size);
    }

    /** The second half of ToBytes: filling a buffer of the computed size. */
    method Fill(size: nat) returns (b: Bytes, ghost pairs: seq<Pair>)
      requires size == ChunkSize(this)
      ensures IsListing(pairs, metadata) && b == EncChunk(this, pairs) && |b| == size
    {
      hide EncStr, EncU32, MetaSize, IsListing, FlatMap;
      var buf := new byte[size](_ => 0);
      var offset: nat := Write(buf, 0, EncStr(chunkID));
      offset := Write(buf, offset, EncStr(text));
      offset := Write(buf, offset, EncU32(|metadata|));
      offset, pairs := WriteMetadata(buf, offset, metadata);
      assert offset == buf.Length;
      b := buf[..];
    }

    static method FromBytes(data: Bytes) returns (r: Option<TextChunk>)
      ensures match ParseChunk(data)
              case None => r == None
              case Some((c, _)) => r == Some(c)
    {
      hide ParseStr, ParseU32, ToMap;
      assert data[0..] == data;
      NoEntries();
      var chunkID, offset: nat := ReadStr(data, 0);
      if chunkID == None { return None; }
      var text;
      text, offset := ReadStr(data, offset);
      if text == None { return None; }
      var count;
      count, offset := ReadU32(data, offset);
      if count == None { return None; }
      var metadata: map<Bytes, Bytes> := map[];
      ghost var pairs := [];
      ghost var start := data[offset..];
      ResumeEnds(ParsePair, [], [], ParseMany(ParsePair, count.value, start));
      for i := 0 to count.value
        invariant offset <= |data| && |pairs| == i && metadata == ToMap(pairs)
        invariant ParseMany(ParsePair, count.value, start) == Resume(pairs, ParseMany(ParsePair, count.value - i, data[offset..]))
      {
        ghost var d := data[offset..];
        var key, value;
        key, offset := ReadStr(data, offset);
        if key == None { return None; }
        value, offset := ReadStr(data, offset);
        if value == None { return None; }
        ResumeStep(ParsePair, pairs, count.value - i, d);
        metadata := metadata[key.value := value.value];
        OneEntryMore(pairs, (key.value, value.value));
        pairs := pairs + [(key.value, value.value)];
      }
      ResumeEnds(ParsePair, pairs, data[offset..], None);
      return Some(TextChunk(chunkID.value, text.value, metadata));
    }
  }

  // ----- the encoding -----

  function EncPair(kv: Pair): (b: Bytes)
    ensures |b| == 8 + |kv.0| + |kv.1|
  {
    EncStr(kv.0) + EncStr(kv.1)
  }

  /** The entries of the map, each once, in some order. */
  ghost predicate IsListing(pairs: seq<Pair>, m: map<Bytes, Bytes>) {
    Enumerated(pairs, map[], m)
  }

  ghost predicate Enumerated(pairs: seq<Pair>, rest: map<Bytes, Bytes>, m: map<Bytes, Bytes>) {
    && DistinctKeys(pairs)
    && (forall kv :: kv in pairs ==> kv.0 in m && m[kv.0] == kv.1 && kv.0 !in rest)
    && (forall k :: k in rest ==> k in m && m[k] == rest[k])
    && (forall k :: k in m && k !in rest ==> (k, m[k]) in pairs)
    && |pairs| + |rest| == |m|
  }

  predicate DistinctKeys(pairs: seq<Pair>) {
    forall i, j :: 0 <= i < j < |pairs| ==> pairs[i].0 != pairs[j].0
  }

  lemma EnumerateNone(m: map<Bytes, Bytes>)
    ensures Enumerated([], m, m) && FlatMap(EncPair, []) == []
  {
  }

  lemma EnumerateNext(pairs: seq<Pair>, rest: map<Bytes, Bytes>, m: map<Bytes, Bytes>, k: Bytes)
    requires Enumerated(pairs, rest, m) && k in rest
    ensures Enumerated(pairs + [(k, rest[k])], rest - {k}, m)
  {
    assert |rest - {k}| == |rest| - 1 by {
      assert (rest - {k}).Keys == rest.Keys - {k};
      assert |rest.Keys - {k}| == |rest.Keys| - 1;
    }
    var more := pairs + [(k, rest[k])];
    forall x | x in m && x !in rest - {k}
      ensures (x, m[x]) in more
    {
      if x == k {
        assert more[|pairs|] == (x, m[x]);
      } else {
        assert (x, m[x]) in pairs;
      }
    }
  }

  method WritePair(buf: array<byte>, offset: nat, ghost head: Bytes, ghost pairs: seq<Pair>, kv: Pair)
          returns (next: nat)
    requires offset + 8 + |kv.0| + |kv.1| <= buf.Length
    requires buf[..offset] == head + FlatMap(EncPair, pairs)
    modifies buf
    ensures next == offset + 8 + |kv.0| + |kv.1|
    ensures buf[..next] == head + FlatMap(EncPair, pairs + [kv])
  {
    hide EncStr;
    next := Write(buf, offset, EncStr(kv.0));
    next := Write(buf, next, EncStr(kv.1));
    FlatMapSnoc(EncPair, pairs, kv);
    assert buf[..next] == head + FlatMap(EncPair, pairs) + EncStr(kv.0) + EncStr(kv.1);
    assert FlatMap(EncPair, pairs + [kv]) == FlatMap(EncPair, pairs) + (EncStr(kv.0) + EncStr(kv.1));
  }

  /** The entry loop of ToBytes; which entry comes next is left to the map. */
  method WriteMetadata(buf: array<byte>, offset: nat, metadata: map<Bytes, Bytes>) returns (next: nat,
          ghost pairs: seq<Pair>)
    requires offset + MetaSize(metadata) <= buf.Length
    modifies buf
    ensures IsListing(pairs, metadata) && next == offset + MetaSize(metadata)
    ensures buf[..next] == old(buf[..offset]) + FlatMap(EncPair, pairs)
  {
    hide MetaSize, Enumerated, FlatMap;
    ghost var head := buf[..offset];
    pairs := [];
    next := offset;
    var rest := metadata;
    MetaSizeEmpty();
    EnumerateNone(metadata);
    assert buf[..next] == head + FlatMap(EncPair, pairs);
    while rest != map[]
      invariant Enumerated(pairs, rest, metadata)
      invariant next + MetaSize(rest) == offset + MetaSize(metadata)
      invariant next <= buf.Length && buf[..next] == head + FlatMap(EncPair, pairs)
      decreases |rest|
    {
      var k :| k in rest;
      MetaSizeRemove(rest, k);
      EnumerateNext(pairs, rest, metadata, k);
      next := WritePair(buf, next, head, pairs, (k, rest[k]));
      pairs := pairs + [(k, rest[k])];
      rest := rest - {k};
    }
  }

  function EncChunk(c: TextChunk, pairs: seq<Pair>): Bytes {
    EncStr(c.chunkID) + EncStr(c.text) + EncU32(|c.metadata|) + FlatMap(EncPair, pairs)
  }

  // ----- the decoding -----

  function ParsePair(d: Bytes): Option<(Pair, Bytes)> {
    var (key, d1) :- ParseStr(d);
    var (value, d2) :- ParseStr(d1);
    Some(((key, value), d2))
  }

  /** Later entries overwrite earlier ones, as the decoder's map assignments do. */
  function ToMap(pairs: seq<Pair>): map<Bytes, Bytes> {
    if pairs == [] then map[]
    else
      var last := pairs[|pairs| - 1];
      ToMap(pairs[..|pairs| - 1])[last.0 := last.1]
  }

  lemma NoEntries()
    ensures ToMap([]) == map[]
  {
  }

  lemma OneEntryMore(pairs: seq<Pair>, kv: Pair)
    ensures ToMap(pairs + [kv]) == ToMap(pairs)[kv.0 := kv.1]
  {
    assert (pairs + [kv])[..|pairs|] == pairs;
  }

  /** Each key has the value of its last entry. */
  lemma {:induction false} LastEntryWins(pairs: seq<Pair>, k: Bytes, v: Bytes)
    ensures (k in ToMap(pairs) && ToMap(pairs)[k] == v) <==>
            exists i :: 0 <= i < |pairs| && pairs[i] == (k, v) && forall j :: i < j < |pairs| ==> pairs[j].0 != k
  {
    if pairs != [] {
      var n := |pairs| - 1;
      LastEntryWins(pairs[..n], k, v);
      if pairs[n].0 == k {
        assert pairs[n] == (k, pairs[n].1);
      } else {
        if i :| 0 <= i < n && pairs[..n][i] == (k, v) && forall j :: i < j < n ==> pairs[..n][j].0 != k {
          assert pairs[i] == (k, v) && forall j :: i < j < |pairs| ==> pairs[j].0 != k;
        }
        if i :| 0 <= i < |pairs| && pairs[i] == (k, v) && forall j :: i < j < |pairs| ==> pairs[j].0 != k {
          assert pairs[..n][i] == (k, v);
        }
      }
    }
  }

  function ParseEntries(d: Bytes): Option<(Bytes, Bytes, seq<Pair>, Bytes)> {
    var (chunkID, d1) :- ParseStr(d);
    var (text, d2) :- ParseStr(d1);
    var (count, d3) :- ParseU32(d2);
    var (pairs, d4) :- ParseMany(ParsePair, count, d3);
    Some((chunkID, text, pairs, d4))
  }

  function ParseChunk(d: Bytes): Option<(TextChunk, Bytes)> {
    var (chunkID, text, pairs, rest) :- ParseEntries(d);
    Some((TextChunk(chunkID, text, ToMap(pairs)), rest))
  }

  // ----- sizes -----

  /** The bytes all metadata entries take, in any order. */
  ghost function MetaSize(m: map<Bytes, Bytes>): nat
    decreases |m|
  {
    if m == map[] then 0
    else
      var k := LeastOf(m.Keys);
      assert (m - {k}).Keys == m.Keys - {k};
      8 + |k| + |m[k]| + MetaSize(m - {k})
  }

  ghost function ChunkSize(c: TextChunk): nat {
    12 + |c.chunkID| + |c.text| + MetaSize(c.metadata)
  }

  lemma MetaSizeEmpty()
    ensures forall m :: m == map[] ==> MetaSize(m) == 0
  {
  }

  lemma {:induction false} MetaSizeRemove(m: map<Bytes, Bytes>, k: Bytes)
    requires k in m
    ensures MetaSize(m) == 8 + |k| + |m[k]| + MetaSize(m - {k})
    decreases |m|
  {
    var l := LeastOf(m.Keys);
    if k != l {
      assert (m - {l}).Keys == m.Keys - {l} && (m - {k}).Keys == m.Keys - {k};
      MetaSizeRemove(m - {l}, k);
      var l' := LeastOf((m - {k}).Keys);
      assert !Less(l, l') || !Less(l', l) by {
        LessIsStrictOrder();
      }
      assert l' == l;
      assert m - {l} - {k} == m - {k} - {l};
    }
  }

  ghost function KeysOf(pairs: seq<Pair>): set<Bytes> {
    set kv | kv in pairs :: kv.0
  }

  lemma SnocPairs(init: seq<Pair>, last: Pair)
    ensures KeysOf(init + [last]) == KeysOf(init) + {last.0}
    ensures DistinctKeys(init + [last]) <==> DistinctKeys(init) && last.0 !in KeysOf(init)
    ensures ToMap(init + [last]) == ToMap(init)[last.0 := last.1]
  {
    var pairs := init + [last];
    assert pairs[..|init|] == init && pairs[|init|] == last;
    assert forall kv :: kv in pairs <==> kv in init || kv == last;
    assert DistinctKeys(pairs) ==> DistinctKeys(init) by {
      assert forall i :: 0 <= i < |init| ==> pairs[i] == init[i];
    }
    if last.0 in KeysOf(init) {
      var i :| 0 <= i < |init| && init[i].0 == last.0;
      assert pairs[i].0 == pairs[|init|].0;
    } else {
      assert forall i :: 0 <= i < |init| ==> init[i] in init;
    }
  }

  lemma {:induction false} ToMapKeys(pairs: seq<Pair>)
    ensures ToMap(pairs).Keys == KeysOf(pairs) && |ToMap(pairs)| <= |pairs|
  {
    if pairs == [] {
    } else {
      hide ToMap, DistinctKeys, KeysOf;
      var n := |pairs| - 1;
      var init, last := pairs[..n], pairs[n];
      assert pairs == init + [last];
      ToMapKeys(init);
      SnocPairs(init, last);
      MapSizeUpdate(ToMap(init), last.0, last.1);
    }
  }

  lemma {:induction false} ToMapEntry(pairs: seq<Pair>, k: Bytes)
    requires k in ToMap(pairs)
    ensures (k, ToMap(pairs)[k]) in pairs
  {
    hide DistinctKeys, KeysOf;
    var n := |pairs| - 1;
    if k == pairs[n].0 {
      assert pairs[n] == (k, ToMap(pairs)[k]);
    } else {
      ToMapEntry(pairs[..n], k);
      assert pairs == pairs[..n] + [pairs[n]];
    }
  }

  lemma MapSizeUpdate<K, V>(m: map<K, V>, k: K, v: V)
    ensures |m[k := v]| <= |m| + 1
  {
    assert m[k := v].Keys == m.Keys + {k};
    assert |m.Keys + {k}| <= |m.Keys| + 1 by {
      if k in m.Keys {
        assert m.Keys + {k} == m.Keys;
      }
    }
  }

  lemma ListingToMap(pairs: seq<Pair>, m: map<Bytes, Bytes>)
    requires IsListing(pairs, m)
    ensures ToMap(pairs) == m
  {
    ToMapKeys(pairs);
    forall k | k in ToMap(pairs)
      ensures k in m && ToMap(pairs)[k] == m[k]
    {
      ToMapEntry(pairs, k);
    }
    forall k | k in m
      ensures k in ToMap(pairs)
    {
      assert (k, m[k]) in pairs;
    }
  }

  /** A decoded map never takes more bytes than the entries it was read from, and fewer when a key repeats. */
  lemma {:induction false} PairsSize(pairs: seq<Pair>)
    ensures MetaSize(ToMap(pairs)) <= |FlatMap(EncPair, pairs)|
    ensures MetaSize(ToMap(pairs)) == |FlatMap(EncPair, pairs)| <==> DistinctKeys(pairs)
  {
    MetaSizeEmpty();
    if pairs != [] {
      hide MetaSize, EncStr, ToMap, DistinctKeys, KeysOf, FlatMap;
      var n := |pairs| - 1;
      var init, last := pairs[..n], pairs[n];
      assert pairs == init + [last];
      PairsSize(init);
      SnocPairs(init, last);
      FlatMapSnoc(EncPair, init, last);
      ToMapKeys(init);
      MetaSizeUpdate(ToMap(init), last.0, last.1);
    }
  }

  lemma {:induction false} MetaSizeUpdate(m: map<Bytes, Bytes>, k: Bytes, v: Bytes)
    ensures k in m ==> MetaSize(m[k := v]) < 8 + |k| + |v| + MetaSize(m)
    ensures k !in m ==> MetaSize(m[k := v]) == 8 + |k| + |v| + MetaSize(m)
  {
    hide MetaSize;
    MetaSizeRemove(m[k := v], k);
    assert m[k := v] - {k} == m - {k};
    if k in m {
      MetaSizeRemove(m, k);
    } else {
      assert m - {k} == m;
    }
  }

  // ----- round trip -----

  predicate FitsPair(kv: Pair) {
    |kv.0| < TWO32 && |kv.1| < TWO32
  }

  /** Every length the encoder writes as a uint32 really fits in one. */
  predicate FitsChunk(c: TextChunk) {
    && |c.chunkID| < TWO32 && |c.text| < TWO32 && |c.metadata| < TWO32
    && forall k :: k in c.metadata ==> FitsPair((k, c.metadata[k]))
  }

  lemma {:induction false} PairParsed(d: Bytes)
    requires ParsePair(d).Some?
    ensures FitsPair(ParsePair(d).value.0) && d == EncPair(ParsePair(d).value.0) + ParsePair(d).value.1
  {
    hide EncStr;
    var (_, d1) := ParseStr(d).value;
    StrParsed(d);
    StrParsed(d1);
  }

  lemma {:induction false} PairRoundTrip(kv: Pair, tail: Bytes)
    requires FitsPair(kv)
    ensures ParsePair(EncPair(kv) + tail) == Some((kv, tail))
  {
    hide EncStr, ParseStr;
    StrRoundTrip(kv.0, EncStr(kv.1) + tail);
    StrRoundTrip(kv.1, tail);
    assert EncPair(kv) + tail == EncStr(kv.0) + (EncStr(kv.1) + tail);
  }

  lemma {:induction false} ListingParses(c: TextChunk, pairs: seq<Pair>, tail: Bytes)
    requires IsListing(pairs, c.metadata) && FitsChunk(c)
    ensures ToMap(pairs) == c.metadata
    ensures ParseMany(ParsePair, |c.metadata|, FlatMap(EncPair, pairs) + tail) == Some((pairs, tail))
  {
    hide ParsePair, EncPair, FlatMap, ParseMany, ToMap;
    forall i: nat, t: Bytes | i < |pairs|
      ensures ParsePair(EncPair(pairs[i]) + t) == Some((pairs[i], t))
    {
      assert pairs[i] in pairs;
      PairRoundTrip(pairs[i], t);
    }
    ManyRoundTrip(EncPair, ParsePair, pairs, pairs, tail);
    ListingToMap(pairs, c.metadata);
    assert |pairs| == |c.metadata|;
  }

  /** A chunk decodes back from its encoding, in whatever order its metadata was written and whatever
      follows it, exactly when its lengths fit. */
  lemma {:induction false} ChunkRoundTrip(c: TextChunk, pairs: seq<Pair>, tail: Bytes)
    requires IsListing(pairs, c.metadata)
    ensures ParseChunk(EncChunk(c, pairs) + tail) == Some((c, tail)) <==> FitsChunk(c)
  {
    hide EncChunk, ParseChunk;
    if FitsChunk(c) {
      FittingChunk(c, pairs, tail);
    } else if ParseChunk(EncChunk(c, pairs) + tail).Some? {
      ChunkParsed(EncChunk(c, pairs) + tail);
    }
  }

  lemma {:induction false} FittingChunk(c: TextChunk, pairs: seq<Pair>, tail: Bytes)
    requires IsListing(pairs, c.metadata) && FitsChunk(c)
    ensures ParseChunk(EncChunk(c, pairs) + tail) == Some((c, tail))
  {
    ListingParses(c, pairs, tail);
    hide EncStr, EncU32, ParseStr, ParseU32, ParsePair, EncPair, FlatMap, ParseMany, ToMap, IsListing;
    var t3 := FlatMap(EncPair, pairs) + tail;
    var t2 := EncU32(|c.metadata|) + t3;
    var t1 := EncStr(c.text) + t2;
    assert EncChunk(c, pairs) + tail == EncStr(c.chunkID) + t1;
    StrRoundTrip(c.chunkID, t1);
    StrRoundTrip(c.text, t2);
    ParseU32RoundTrip(|c.metadata|, t3);
  }

  /** On any bytes: a decoded chunk fits, and re-encodes to at most the bytes its decoder consumed,
      to exactly as many when no metadata key repeats in them. */
  lemma {:induction false} ChunkParsed(d: Bytes)
    requires ParseChunk(d).Some?
    ensures var (c, rest) := ParseChunk(d).value;
            && FitsChunk(c)
            && ChunkSize(c) + |rest| <= |d|
            && (ChunkSize(c) + |rest| == |d| <==> DistinctKeys(ParseEntries(d).value.2))
  {
    hide EncStr, EncU32, ParseStr, ParseU32, ParsePair, EncPair, FlatMap, ParseMany, MetaSize, DistinctKeys;
    var (c, rest) := ParseChunk(d).value;
    var pairs := ParseEntries(d).value.2;
    var (_, d1) := ParseStr(d).value;
    var (_, d2) := ParseStr(d1).value;
    var (count, d3) := ParseU32(d2).value;
    forall d: Bytes | ParsePair(d).Some?
      ensures FitsPair(ParsePair(d).value.0) && d == EncPair(ParsePair(d).value.0) + ParsePair(d).value.1
    {
      PairParsed(d);
    }
    ManyParsed(EncPair, ParsePair, FitsPair, count, d3);
    assert |d3| == |FlatMap(EncPair, pairs)| + |rest|;
    PairsSize(pairs);
    ToMapKeys(pairs);
    forall k | k in c.metadata
      ensures FitsPair((k, c.metadata[k]))
    {
      ToMapEntry(pairs, k);
    }
  }
}
