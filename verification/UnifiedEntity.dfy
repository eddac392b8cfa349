/** core/entity/entity.go: the entity object, whose ToBytes fills a buffer of a size computed beforehand
    and whose FromBytes moves a cursor over arbitrary bytes. */
module Entities {
  import opened Prelude
  import opened EdgeCodec
  import opened ChunkCodec
  import opened EntityCodec

  class UnifiedEntity {
    var entityID: Bytes
    var tenantID: Bytes
    var entityType: Bytes
    var embeddings: seq<VectorEmbedding>
    var incomingEdges: seq<GraphEdge>
    var outgoingEdges: seq<GraphEdge>
    var chunks: seq<TextChunk>
    var importance: U64
    var createdAt: I64
    var updatedAt: I64

    constructor (entityID: Bytes, tenantID: Bytes, entityType: Bytes, now: I64)
      ensures Value() == Entity(entityID, tenantID, entityType, [], [], [], [], 0, now, now)
    {
      this.entityID, this.tenantID, this.entityType := entityID, tenantID, entityType;
      embeddings, incomingEdges, outgoingEdges, chunks := [], [], [], [];
      importance, createdAt, updatedAt := 0, now, now;
    }

    /** An entity object holding the given content. */
    constructor Of(e: Entity)
      ensures Value() == e
    {
      entityID, tenantID, entityType := e.entityID, e.tenantID, e.entityType;
      embeddings, incomingEdges, outgoingEdges, chunks := e.embeddings, e.incomingEdges, e.outgoingEdges, e.chunks;
      importance, createdAt, updatedAt := e.importance, e.createdAt, e.updatedAt;
    }

    function Value(): Entity
      reads this
    {
      Entity(entityID, tenantID, entityType, embeddings, incomingEdges, outgoingEdges, chunks, importance, createdAt, updatedAt)
    }

    /** The chunks' metadata is enumerated twice, for the size and for the bytes; the listing reported is the second. */
    method ToBytes() returns (b: Bytes, ghost listed: seq<ListedChunk>)
      ensures ListsChunks(listed, chunks) && b == EncEntity(Value(), listed)
    {
      hide EncStr, EncList, EncU64, ListsChunks, ChunksSize;
      var embeddingsSize := EmbeddingsSize(embeddings);
      var incomingSize := EdgesSize(incomingEdges);
      var outgoingSize := EdgesSize(outgoingEdges);
      var chunksSize := ChunksSizeLoop(chunks);
      var size := 4 + |entityID| + 4 + |tenantID| + 4 + |entityType| + 4 + 4 + 4 + 4 + 8 + 8 + 8
        + embeddingsSize + incomingSize + outgoingSize + chunksSize;
      var buf := new byte[size](_ => 0);
      var offset: nat := WriteHead(buf);
      ghost var head := buf[..offset];
      offset, listed := WriteLists(buf, offset);
      ghost var lists := EncLists(Value(), listed);
      offset := WriteTail(buf, offset);
      assert offset == buf.Length;
      b := buf[..];
      assert b == head + lists + EncTail(Value());
      assert b == head + (lists + EncTail(Value()));
    }

    method WriteHead(buf: array<byte>) returns (offset: nat)
      requires 12 + |entityID| + |tenantID| + |entityType| <= buf.Length
      modifies buf
      ensures offset == 12 + |entityID| + |tenantID| + |entityType| && buf[..offset] == EncHead(Value())
    {
      hide EncStr;
      offset := Write(buf, 0, EncStr(entityID));
      offset := Write(buf, offset, EncStr(tenantID));
      offset := Write(buf, offset, EncStr(entityType));
      assert buf[..offset] == EncStr(entityID) + EncStr(tenantID) + EncStr(entityType);
    }

    method WriteLists(buf: array<byte>, offset: nat) returns (next: nat, ghost listed: seq<ListedChunk>)
      requires offset + 16 + |FlatMap(EncEmbedding, embeddings)| + |FlatMap(EncEdge, incomingEdges)|
            + |FlatMap(EncEdge, outgoingEdges)| + ChunksSize(chunks) <= buf.Length
      modifies buf
      ensures ListsChunks(listed, chunks)
      ensures next == offset + 16 + |FlatMap(EncEmbedding, embeddings)| + |FlatMap(EncEdge, incomingEdges)|
            + |FlatMap(EncEdge, outgoingEdges)| + ChunksSize(chunks)
      ensures buf[..next] == old(buf[..offset]) + EncLists(Value(), listed)
    {
      hide EncList, ListsChunks, ChunksSize, FlatMap;
      next := WriteEmbeddings(buf, offset, embeddings);
      next := WriteEdges(buf, next, incomingEdges);
      next := WriteEdges(buf, next, outgoingEdges);
      next, listed := WriteChunks(buf, next, chunks);
      Nest(old(buf[..offset]), EncList(EncEmbedding, embeddings), EncList(EncEdge, incomingEdges),
           EncList(EncEdge, outgoingEdges), EncList(EncListed, listed));
    }

    method WriteTail(buf: array<byte>, offset: nat) returns (next: nat)
      requires offset + 24 <= buf.Length
      modifies buf
      ensures next == offset + 24 && buf[..next] == old(buf[..offset]) + EncTail(Value())
    {
      hide EncU64;
      next := Write(buf, offset, EncU64(importance));
      next := Write(buf, next, EncU64(ToU64(createdAt)));
      next := Write(buf, next, EncU64(ToU64(updatedAt)));
      assert buf[..next] == old(buf[..offset]) + EncU64(importance) + EncU64(ToU64(createdAt)) + EncU64(ToU64(updatedAt));
    }

    /** Decodes any bytes without ever reading outside them; on failure the fields decoded so far stay assigned. */
    method FromBytes(data: Bytes) returns (ok: bool)
      modifies this
      ensures ok == ParseEntity(data).Some?
      ensures ok ==> Value() == ParseEntity(data).value.0
    {
      hide ParseStr, ParseU64, ParseList, AdvanceEdge, AdvanceChunk, ParseEmbedding;
      assert data[0..] == data;
      var s, offset: nat := ReadStr(data, 0);
      if s == None { return false; }
      entityID := s.value;
      s, offset := ReadStr(data, offset);
      if s == None { return false; }
      tenantID := s.value;
      s, offset := ReadStr(data, offset);
      if s == None { return false; }
      entityType := s.value;
      assert ParseHead(data) == Some(((entityID, tenantID, entityType), data[offset..]));
      var done;
      done, offset := ReadLists(data, offset);
      if !done { return false; }
      var n;
      n, offset := ReadU64(data, offset);
      if n == None { return false; }
      importance := n.value;
      n, offset := ReadU64(data, offset);
      if n == None { return false; }
      createdAt := ToI64(n.value);
      n, offset := ReadU64(data, offset);
      if n == None { return false; }
      updatedAt := ToI64(n.value);
      return true;
    }

    method ReadLists(data: Bytes, offset: nat) returns (ok: bool, next: nat)
      requires offset <= |data|
      modifies this`embeddings, this`incomingEdges, this`outgoingEdges, this`chunks
      ensures next <= |data| && ok == ParseLists(data[offset..]).Some?
      ensures ok ==> ParseLists(data[offset..]) == Some(((embeddings, incomingEdges, outgoingEdges, chunks), data[next..]))
    {
      hide ParseList, AdvanceEdge, AdvanceChunk, ParseEmbedding;
      var embs, edges, cs;
      embs, next := ReadEmbeddings(data, offset);
      if embs == None { return false, next; }
      embeddings := embs.value;
      edges, next := ReadEdges(data, next);
      if edges == None { return false, next; }
      incomingEdges := edges.value;
      edges, next := ReadEdges(data, next);
      if edges == None { return false, next; }
      outgoingEdges := edges.value;
      cs, next := ReadChunks(data, next);
      if cs == None { return false, next; }
      chunks := cs.value;
      return true, next;
    }
  }

  // ----- the loops of ToBytes -----

  lemma Nest(a: Bytes, b: Bytes, c: Bytes, d: Bytes, e: Bytes)
    ensures a + b + c + d + e == a + (b + (c + (d + e)))
  {
  }

  method EmbeddingsSize(xs: seq<VectorEmbedding>) returns (size: nat)
    ensures size == |FlatMap(EncEmbedding, xs)|
  {
    size := 0;
    FlatMapWhole(EncEmbedding, xs);
    for i := 0 to |xs|
      invariant size == |FlatMap(EncEmbedding, xs[..i])|
    {
      hide FlatMap;
      size := size + 8 + 8 + 4 + |xs[i].vector| * 4;
      FlatMapSplit(EncEmbedding, xs, i);
      EmbeddingSize(xs[i]);
    }
  }

  lemma EmbeddingSize(e: VectorEmbedding)
    ensures |EncEmbedding(e)| == 20 + 4 * |e.vector|
  {
    FloatsSize(e.vector);
  }

  method EdgesSize(xs: seq<GraphEdge>) returns (size: nat)
    ensures size == |FlatMap(EncEdge, xs)|
  {
    size := 0;
    FlatMapWhole(EncEdge, xs);
    for i := 0 to |xs|
      invariant size == |FlatMap(EncEdge, xs[..i])|
    {
      hide FlatMap, EncEdge;
      var b := xs[i].ToBytes();
      size := size + |b|;
      FlatMapSplit(EncEdge, xs, i);
    }
  }

  ghost function ChunksSize(xs: seq<TextChunk>): nat {
    if xs == [] then 0 else ChunksSize(xs[..|xs| - 1]) + ChunkSize(xs[|xs| - 1])
  }

  lemma {:induction false} ChunksSizeGrows(xs: seq<TextChunk>, i: nat)
    requires i < |xs|
    ensures ChunksSize(xs[..i + 1]) == ChunksSize(xs[..i]) + ChunkSize(xs[i])
    ensures ChunksSize(xs[..i + 1]) <= ChunksSize(xs)
  {
    hide ChunkSize;
    assert xs[..i + 1][..i] == xs[..i];
    if i + 1 == |xs| {
      assert xs[..i + 1] == xs;
    } else {
      ChunksSizeGrows(xs[..|xs| - 1], i);
      assert xs[..|xs| - 1][..i + 1] == xs[..i + 1];
    }
  }

  method ChunksSizeLoop(xs: seq<TextChunk>) returns (size: nat)
    ensures size == ChunksSize(xs)
  {
    size := 0;
    for i := 0 to |xs|
      invariant size == ChunksSize(xs[..i])
    {
      hide ChunkSize, ChunksSize, IsListing, EncChunk;
      var b, _ := xs[i].ToBytes();
      size := size + |b|;
      ChunksSizeGrows(xs, i);
    }
    assert xs[..|xs|] == xs;
  }

  method WriteEmbeddings(buf: array<byte>, offset: nat, xs: seq<VectorEmbedding>) returns (next: nat)
    requires offset + 4 + |FlatMap(EncEmbedding, xs)| <= buf.Length
    modifies buf
    ensures next == offset + 4 + |FlatMap(EncEmbedding, xs)|
    ensures buf[..next] == old(buf[..offset]) + EncList(EncEmbedding, xs)
  {
    hide FlatMap, EncU32, EncEmbedding;
    ghost var head := buf[..offset];
    next := Write(buf, offset, EncU32(|xs|));
    FlatMapWhole(EncEmbedding, xs);
    for i := 0 to |xs|
      invariant next == offset + 4 + |FlatMap(EncEmbedding, xs[..i])| <= buf.Length
      invariant buf[..next] == head + (EncU32(|xs|) + FlatMap(EncEmbedding, xs[..i]))
    {
      FlatMapSplit(EncEmbedding, xs, i);
      ghost var done := FlatMap(EncEmbedding, xs[..i]);
      next := WriteEmbedding(buf, next, xs[i]);
      assert head + (EncU32(|xs|) + done) + EncEmbedding(xs[i]) == head + (EncU32(|xs|) + (done + EncEmbedding(xs[i])));
    }
  }

  method WriteEmbedding(buf: array<byte>, offset: nat, e: VectorEmbedding) returns (next: nat)
    requires offset + |EncEmbedding(e)| <= buf.Length
    modifies buf
    ensures next == offset + |EncEmbedding(e)| && buf[..next] == old(buf[..offset]) + EncEmbedding(e)
  {
    hide EncU64, EncU32, FlatMap, EncFloat;
    EmbeddingSize(e);
    ghost var head := buf[..offset];
    next := Write(buf, offset, EncU64(ToU64(e.version)));
    next := Write(buf, next, EncU64(ToU64(e.timestamp)));
    ghost var front := buf[..next];
    next := WriteVector(buf, next, e.vector);
    assert front + EncList(EncFloat, e.vector)
        == head + (EncU64(ToU64(e.version)) + (EncU64(ToU64(e.timestamp)) + EncList(EncFloat, e.vector)));
  }

  method WriteVector(buf: array<byte>, offset: nat, v: seq<U32>) returns (next: nat)
    requires offset + 4 + 4 * |v| <= buf.Length
    modifies buf
    ensures next == offset + 4 + 4 * |v| && buf[..next] == old(buf[..offset]) + EncList(EncFloat, v)
  {
    hide FlatMap, EncU32;
    ghost var head := buf[..offset];
    next := Write(buf, offset, EncU32(|v|));
    FlatMapWhole(EncFloat, v);
    for i := 0 to |v|
      invariant next == offset + 4 + 4 * i
      invariant buf[..next] == head + (EncU32(|v|) + FlatMap(EncFloat, v[..i]))
    {
      FlatMapSplit(EncFloat, v, i);
      ghost var done := FlatMap(EncFloat, v[..i]);
      next := Write(buf, next, EncU32(v[i]));
      assert head + (EncU32(|v|) + done) + EncFloat(v[i]) == head + (EncU32(|v|) + (done + EncFloat(v[i])));
    }
  }

  method WriteEdges(buf: array<byte>, offset: nat, xs: seq<GraphEdge>) returns (next: nat)
    requires offset + 4 + |FlatMap(EncEdge, xs)| <= buf.Length
    modifies buf
    ensures next == offset + 4 + |FlatMap(EncEdge, xs)|
    ensures buf[..next] == old(buf[..offset]) + EncList(EncEdge, xs)
  {
    hide FlatMap, EncU32, EncEdge;
    ghost var head := buf[..offset];
    next := Write(buf, offset, EncU32(|xs|));
    FlatMapWhole(EncEdge, xs);
    for i := 0 to |xs|
      invariant next == offset + 4 + |FlatMap(EncEdge, xs[..i])| <= buf.Length
      invariant buf[..next] == head + (EncU32(|xs|) + FlatMap(EncEdge, xs[..i]))
    {
      FlatMapSplit(EncEdge, xs, i);
      ghost var done := FlatMap(EncEdge, xs[..i]);
      var b := xs[i].ToBytes();
      next := Write(buf, next, b);
      assert head + (EncU32(|xs|) + done) + EncEdge(xs[i]) == head + (EncU32(|xs|) + (done + EncEdge(xs[i])));
    }
  }

  method WriteChunks(buf: array<byte>, offset: nat, xs: seq<TextChunk>) returns (next: nat,
          ghost listed: seq<ListedChunk>)
    requires offset + 4 + ChunksSize(xs) <= buf.Length
    modifies buf
    ensures ListsChunks(listed, xs) && next == offset + 4 + ChunksSize(xs)
    ensures buf[..next] == old(buf[..offset]) + EncList(EncListed, listed)
  {
    hide FlatMap, EncU32, EncChunk, ChunkSize, ChunksSize, IsListing;
    ghost var head := buf[..offset];
    next := Write(buf, offset, EncU32(|xs|));
    listed := [];
    ChunksBase(xs);
    for i := 0 to |xs|
      invariant ListsChunks(listed, xs[..i])
      invariant next == offset + 4 + ChunksSize(xs[..i]) <= buf.Length
      invariant buf[..next] == head + (EncU32(|xs|) + FlatMap(EncListed, listed))
    {
      ChunksSizeGrows(xs, i);
      var b; ghost var pairs;
      b, pairs := xs[i].ToBytes();
      ghost var done := FlatMap(EncListed, listed);
      FlatMapSnoc(EncListed, listed, (xs[i], pairs));
      next := Write(buf, next, b);
      assert head + (EncU32(|xs|) + done) + b == head + (EncU32(|xs|) + (done + b));
      listed := listed + [(xs[i], pairs)];
    }
    assert xs[..|xs|] == xs;
  }

  lemma ChunksBase(xs: seq<TextChunk>)
    ensures ChunksSize(xs[..0]) == 0 && FlatMap(EncListed, []) == []
  {
  }

  // ----- the loops of FromBytes -----

  method ReadVector(data: Bytes, offset: nat) returns (r: Option<seq<U32>>, next: nat)
    requires offset <= |data|
    ensures next <= |data|
    ensures match ParseVector(data[offset..])
            case None => r == None
            case Some((v, rest)) => r == Some(v) && rest == data[next..]
  {
    hide ParseMany;
    var n;
    n, next := ReadU32(data, offset);
    if n == None { return None, next; }
    if next + n.value * 4 > |data| { return None, next; }
    var v: seq<U32> := [];
    ghost var start := data[next..];
    ResumeEnds(ParseU32, [], [], ParseMany(ParseU32, n.value, start));
    for i := 0 to n.value
      invariant |v| == i && next + (n.value - i) * 4 <= |data|
      invariant ParseMany(ParseU32, n.value, start) == Resume(v, ParseMany(ParseU32, n.value - i, data[next..]))
    {
      ResumeStep(ParseU32, v, n.value - i, data[next..]);
      var bits;
      bits, next := ReadU32(data, next);
      v := v + [bits.value];
    }
    ResumeEnds(ParseU32, v, data[next..], None);
    return Some(v), next;
  }

  method ReadEmbeddings(data: Bytes, offset: nat) returns (r: Option<seq<VectorEmbedding>>, next: nat)
    requires offset <= |data|
    ensures next <= |data|
    ensures match ParseList(ParseEmbedding, data[offset..])
            case None => r == None
            case Some((xs, rest)) => r == Some(xs) && rest == data[next..]
  {
    hide ParseMany, ParseU32, ParseU64, ParseVector;
    var n;
    n, next := ReadU32(data, offset);
    if n == None { return None, next; }
    var xs: seq<VectorEmbedding> := [];
    ghost var start := data[next..];
    ResumeEnds(ParseEmbedding, [], [], ParseMany(ParseEmbedding, n.value, start));
    for i := 0 to n.value
      invariant |xs| == i && next <= |data|
      invariant ParseMany(ParseEmbedding, n.value, start) == Resume(xs, ParseMany(ParseEmbedding, n.value - i, data[next..]))
    {
      ResumeStep(ParseEmbedding, xs, n.value - i, data[next..]);
      var version, nanos, vector;
      version, next := ReadU64(data, next);
      if version == None { return None, next; }
      nanos, next := ReadU64(data, next);
      if nanos == None { return None, next; }
      vector, next := ReadVector(data, next);
      if vector == None { return None, next; }
      xs := xs + [VectorEmbedding(ToI64(version.value), ToI64(nanos.value), vector.value)];
    }
    ResumeEnds(ParseEmbedding, xs, data[next..], None);
    return Some(xs), next;
  }

  method ReadEdges(data: Bytes, offset: nat) returns (r: Option<seq<GraphEdge>>, next: nat)
    requires offset <= |data|
    ensures next <= |data|
    ensures match ParseList(AdvanceEdge, data[offset..])
            case None => r == None
            case Some((xs, rest)) => r == Some(xs) && rest == data[next..]
  {
    hide ParseMany, ParseU32, ParseEdge, EncEdge;
    var n;
    n, next := ReadU32(data, offset);
    if n == None { return None, next; }
    var xs: seq<GraphEdge> := [];
    ghost var start := data[next..];
    ResumeEnds(AdvanceEdge, [], [], ParseMany(AdvanceEdge, n.value, start));
    for i := 0 to n.value
      invariant |xs| == i && next <= |data|
      invariant ParseMany(AdvanceEdge, n.value, start) == Resume(xs, ParseMany(AdvanceEdge, n.value - i, data[next..]))
    {
      ResumeStep(AdvanceEdge, xs, n.value - i, data[next..]);
      var edge := GraphEdge.FromBytes(data[next..]);
      if edge == None { return None, next; }
      var b := edge.value.ToBytes();
      EdgeParsed(data[next..]);
      assert data[next..][|b|..] == data[next + |b|..];
      next := next + |b|;
      xs := xs + [edge.value];
    }
    ResumeEnds(AdvanceEdge, xs, data[next..], None);
    return Some(xs), next;
  }

  method ReadChunks(data: Bytes, offset: nat) returns (r: Option<seq<TextChunk>>, next: nat)
    requires offset <= |data|
    ensures next <= |data|
    ensures match ParseList(AdvanceChunk, data[offset..])
            case None => r == None
            case Some((xs, rest)) => r == Some(xs) && rest == data[next..]
  {
    hide ParseMany, ParseU32, ParseChunk, EncChunk, ChunkSize, IsListing;
    var n;
    n, next := ReadU32(data, offset);
    if n == None { return None, next; }
    var xs: seq<TextChunk> := [];
    ghost var start := data[next..];
    ResumeEnds(AdvanceChunk, [], [], ParseMany(AdvanceChunk, n.value, start));
    for i := 0 to n.value
      invariant |xs| == i && next <= |data|
      invariant ParseMany(AdvanceChunk, n.value, start) == Resume(xs, ParseMany(AdvanceChunk, n.value - i, data[next..]))
    {
      ResumeStep(AdvanceChunk, xs, n.value - i, data[next..]);
      var chunk := TextChunk.FromBytes(data[next..]);
      if chunk == None { return None, next; }
      var b, _ := chunk.value.ToBytes();
      ChunkParsed(data[next..]);
      assert data[next..][|b|..] == data[next + |b|..];
      next := next + |b|;
      xs := xs + [chunk.value];
    }
    ResumeEnds(AdvanceChunk, xs, data[next..], None);
    return Some(xs), next;
  }
}
