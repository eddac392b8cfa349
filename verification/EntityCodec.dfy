/** core/entity/entity.go: the unified entity and its binary form. */
module EntityCodec {
  import opened Prelude
  import opened EdgeCodec
  import opened ChunkCodec

  // Vector components are the IEEE 754 bits of float32 values.
  datatype VectorEmbedding = VectorEmbedding(version: I64, timestamp: I64, vector: seq<U32>)

  datatype Entity = Entity(
    entityID: Bytes, tenantID: Bytes, entityType: Bytes,
    embeddings: seq<VectorEmbedding>, incomingEdges: seq<GraphEdge>, outgoingEdges: seq<GraphEdge>,
    chunks: seq<TextChunk>, importance: U64, createdAt: I64, updatedAt: I64)

  // ----- embeddings -----

  function EncFloat(bits: U32): (b: Bytes)
    ensures |b| == 4
  {
    EncU32(bits)
  }

  function EncEmbedding(e: VectorEmbedding): Bytes {
    EncU64(ToU64(e.version)) + (EncU64(ToU64(e.timestamp)) + EncList(EncFloat, e.vector))
  }

  function ParseVector(d: Bytes): Option<(seq<U32>, Bytes)> {
    var (n, d1) :- ParseU32(d);
    if 4 * n > |d1| then None else ParseMany(ParseU32, n, d1)
  }

  function ParseEmbedding(d: Bytes): Option<(VectorEmbedding, Bytes)> {
    var (version, d1) :- ParseU64(d);
    var (nanos, d2) :- ParseU64(d1);
    var (vector, d3) :- ParseVector(d2);
    Some((VectorEmbedding(ToI64(version), ToI64(nanos), vector), d3))
  }

  predicate FitsEmbedding(e: VectorEmbedding) {
    |e.vector| < TWO32
  }

  lemma {:induction false} FloatsSize(v: seq<U32>)
    ensures |FlatMap(EncFloat, v)| == 4 * |v|
  {
    if v != [] {
      FloatsSize(v[1..]);
    }
  }

  lemma {:induction false} EmbeddingRoundTrip(e: VectorEmbedding, tail: Bytes)
    requires FitsEmbedding(e)
    ensures ParseEmbedding(EncEmbedding(e) + tail) == Some((e, tail))
  {
    hide EncU64, EncU32, ParseU64, ParseU32, FlatMap, ParseMany;
    var t2 := EncList(EncFloat, e.vector) + tail;
    var t1 := EncU64(ToU64(e.timestamp)) + t2;
    assert EncEmbedding(e) + tail == EncU64(ToU64(e.version)) + t1;
    ParseU64RoundTrip(ToU64(e.version), t1);
    ParseU64RoundTrip(ToU64(e.timestamp), t2);
    VectorRoundTrip(e.vector, tail);
  }

  lemma {:induction false} VectorRoundTrip(v: seq<U32>, tail: Bytes)
    requires |v| < TWO32
    ensures ParseVector(EncList(EncFloat, v) + tail) == Some((v, tail))
  {
    hide EncU32, ParseU32, FlatMap, ParseMany;
    forall i: nat, t: Bytes | i < |v|
      ensures ParseU32(EncFloat(v[i]) + t) == Some((v[i], t))
    {
      ParseU32RoundTrip(v[i], t);
    }
    ManyRoundTrip(EncFloat, ParseU32, v, v, tail);
    FloatsSize(v);
    var rest := FlatMap(EncFloat, v) + tail;
    assert EncList(EncFloat, v) + tail == EncU32(|v|) + rest;
    ParseU32RoundTrip(|v|, rest);
  }

  lemma EmbeddingParsed(d: Bytes)
    requires ParseEmbedding(d).Some?
    ensures FitsEmbedding(ParseEmbedding(d).value.0)
  {
  }

  // ----- the entity's byte form, in its three parts -----

  /** A chunk together with the order in which its metadata was enumerated. */
  type ListedChunk = (TextChunk, seq<Pair>)

  function EncListed(x: ListedChunk): Bytes {
    EncChunk(x.0, x.1)
  }

  ghost predicate ListsChunks(listed: seq<ListedChunk>, chunks: seq<TextChunk>) {
    && |listed| == |chunks|
    && forall i :: 0 <= i < |chunks| ==> listed[i].0 == chunks[i] && IsListing(listed[i].1, chunks[i].metadata)
  }

  function EncHead(e: Entity): Bytes {
    EncStr(e.entityID) + (EncStr(e.tenantID) + EncStr(e.entityType))
  }

  function EncLists(e: Entity, listed: seq<ListedChunk>): Bytes {
    EncList(EncEmbedding, e.embeddings) + (EncList(EncEdge, e.incomingEdges)
      + (EncList(EncEdge, e.outgoingEdges) + EncList(EncListed, listed)))
  }

  function EncTail(e: Entity): (b: Bytes)
    ensures |b| == 24
  {
    EncU64(e.importance) + (EncU64(ToU64(e.createdAt)) + EncU64(ToU64(e.updatedAt)))
  }

  function EncEntity(e: Entity, listed: seq<ListedChunk>): Bytes {
    EncHead(e) + (EncLists(e, listed) + EncTail(e))
  }

  // ----- its decoding -----

  /** The decoder of an edge inside an entity: it advances by the size of the decoded edge encoded again. */
  function AdvanceEdge(d: Bytes): Option<(GraphEdge, Bytes)> {
    var (e, _) :- ParseEdge(d);
    EdgeParsed(d);
    Some((e, d[|EncEdge(e)|..]))
  }

  ghost function AdvanceChunk(d: Bytes): Option<(TextChunk, Bytes)> {
    var (c, _) :- ParseChunk(d);
    ChunkParsed(d);
    Some((c, d[ChunkSize(c)..]))
  }

  function ParseHead(d: Bytes): Option<((Bytes, Bytes, Bytes), Bytes)> {
    var (entityID, d1) :- ParseStr(d);
    var (tenantID, d2) :- ParseStr(d1);
    var (entityType, d3) :- ParseStr(d2);
    Some(((entityID, tenantID, entityType), d3))
  }

  ghost function ParseLists(d: Bytes): Option<((seq<VectorEmbedding>, seq<GraphEdge>, seq<GraphEdge>, seq<TextChunk>),
          Bytes)> {
    var (embeddings, d1) :- ParseList(ParseEmbedding, d);
    var (incoming, d2) :- ParseList(AdvanceEdge, d1);
    var (outgoing, d3) :- ParseList(AdvanceEdge, d2);
    var (chunks, d4) :- ParseList(AdvanceChunk, d3);
    Some(((embeddings, incoming, outgoing, chunks), d4))
  }

  function ParseTail(d: Bytes): Option<((U64, I64, I64), Bytes)> {
    var (importance, d1) :- ParseU64(d);
    var (created, d2) :- ParseU64(d1);
    var (updated, d3) :- ParseU64(d2);
    Some(((importance, ToI64(created), ToI64(updated)), d3))
  }

  ghost function ParseEntity(d: Bytes): Option<(Entity, Bytes)> {
    var (head, d1) :- ParseHead(d);
    var (lists, d2) :- ParseLists(d1);
    var (tail, d3) :- ParseTail(d2);
    Some((Entity(head.0, head.1, head.2, lists.0, lists.1, lists.2, lists.3, tail.0, tail.1, tail.2), d3))
  }

  // ----- round trip -----

  predicate FitsLists(embeddings: seq<VectorEmbedding>, incoming: seq<GraphEdge>, outgoing: seq<GraphEdge>,
          chunks: seq<TextChunk>) {
    && |embeddings| < TWO32 && |incoming| < TWO32 && |outgoing| < TWO32 && |chunks| < TWO32
    && (forall x :: x in embeddings ==> FitsEmbedding(x))
    && (forall x :: x in incoming ==> FitsEdge(x))
    && (forall x :: x in outgoing ==> FitsEdge(x))
    && (forall x :: x in chunks ==> FitsChunk(x))
  }

  /** Every length and count the encoder writes as a uint32 really fits in one. */
  predicate Fits(e: Entity) {
    && |e.entityID| < TWO32 && |e.tenantID| < TWO32 && |e.entityType| < TWO32
    && FitsLists(e.embeddings, e.incomingEdges, e.outgoingEdges, e.chunks)
  }

  /** FromBytes(ToBytes(e)) == e for every entity, every enumeration order of its chunks' metadata and any
      trailing bytes, exactly when its lengths and counts fit their 32-bit fields. */
  lemma {:induction false} EntityRoundTrip(e: Entity, listed: seq<ListedChunk>, tail: Bytes)
    requires ListsChunks(listed, e.chunks)
    ensures ParseEntity(EncEntity(e, listed) + tail) == Some((e, tail)) <==> Fits(e)
  {
    if Fits(e) {
      hide EncHead, EncLists, EncTail, ParseHead, ParseLists, ParseTail, ListsChunks;
      var t2 := EncTail(e) + tail;
      var t1 := EncLists(e, listed) + t2;
      assert EncEntity(e, listed) + tail == EncHead(e) + t1;
      HeadRoundTrip(e, t1);
      ListsRoundTrip(e, listed, t2);
      TailRoundTrip(e, tail);
    } else if ParseEntity(EncEntity(e, listed) + tail).Some? {
      hide EncEntity;
      EntityParsed(EncEntity(e, listed) + tail);
    }
  }

  /** Decoding yields only entities that fit. */
  lemma {:induction false} EntityParsed(d: Bytes)
    requires ParseEntity(d).Some?
    ensures Fits(ParseEntity(d).value.0)
  {
    hide ParseStr, ParseTail, ParseLists, FitsLists;
    ListsParsed(ParseHead(d).value.1);
  }

  lemma {:induction false} HeadRoundTrip(e: Entity, tail: Bytes)
    requires |e.entityID| < TWO32 && |e.tenantID| < TWO32 && |e.entityType| < TWO32
    ensures ParseHead(EncHead(e) + tail) == Some(((e.entityID, e.tenantID, e.entityType), tail))
  {
    hide EncStr, ParseStr;
    var t2 := EncStr(e.entityType) + tail;
    var t1 := EncStr(e.tenantID) + t2;
    assert EncHead(e) + tail == EncStr(e.entityID) + t1;
    StrRoundTrip(e.entityID, t1);
    StrRoundTrip(e.tenantID, t2);
    StrRoundTrip(e.entityType, tail);
  }

  lemma {:induction false} TailRoundTrip(e: Entity, tail: Bytes)
    ensures ParseTail(EncTail(e) + tail) == Some(((e.importance, e.createdAt, e.updatedAt), tail))
  {
    hide EncU64, ParseU64;
    var t2 := EncU64(ToU64(e.updatedAt)) + tail;
    var t1 := EncU64(ToU64(e.createdAt)) + t2;
    assert EncTail(e) + tail == EncU64(e.importance) + t1;
    ParseU64RoundTrip(e.importance, t1);
    ParseU64RoundTrip(ToU64(e.createdAt), t2);
    ParseU64RoundTrip(ToU64(e.updatedAt), tail);
  }

  lemma {:induction false} ListsRoundTrip(e: Entity, listed: seq<ListedChunk>, tail: Bytes)
    requires ListsChunks(listed, e.chunks)
    requires FitsLists(e.embeddings, e.incomingEdges, e.outgoingEdges, e.chunks)
    ensures ParseLists(EncLists(e, listed) + tail)
         == Some(((e.embeddings, e.incomingEdges, e.outgoingEdges, e.chunks), tail))
  {
    hide EncList, ParseList;
    var t3 := EncList(EncListed, listed) + tail;
    var t2 := EncList(EncEdge, e.outgoingEdges) + t3;
    var t1 := EncList(EncEdge, e.incomingEdges) + t2;
    assert EncLists(e, listed) + tail == EncList(EncEmbedding, e.embeddings) + t1;
    EmbeddingsRoundTrip(e.embeddings, t1);
    EdgesRoundTrip(e.incomingEdges, t2);
    EdgesRoundTrip(e.outgoingEdges, t3);
    ChunksRoundTrip(listed, e.chunks, tail);
  }

  lemma {:induction false} EmbeddingsRoundTrip(xs: seq<VectorEmbedding>, tail: Bytes)
    requires |xs| < TWO32 && forall x :: x in xs ==> FitsEmbedding(x)
    ensures ParseList(ParseEmbedding, EncList(EncEmbedding, xs) + tail) == Some((xs, tail))
  {
    hide EncEmbedding, ParseEmbedding;
    forall i: nat, t: Bytes | i < |xs|
      ensures ParseEmbedding(EncEmbedding(xs[i]) + t) == Some((xs[i], t))
    {
      EmbeddingRoundTrip(xs[i], t);
    }
    ListRoundTrip(EncEmbedding, ParseEmbedding, xs, xs, tail);
  }

  lemma {:induction false} EdgesRoundTrip(xs: seq<GraphEdge>, tail: Bytes)
    requires |xs| < TWO32 && forall x :: x in xs ==> FitsEdge(x)
    ensures ParseList(AdvanceEdge, EncList(EncEdge, xs) + tail) == Some((xs, tail))
  {
    hide EncEdge, ParseEdge;
    forall i: nat, t: Bytes | i < |xs|
      ensures AdvanceEdge(EncEdge(xs[i]) + t) == Some((xs[i], t))
    {
      EdgeRoundTrip(xs[i], t);
      assert (EncEdge(xs[i]) + t)[|EncEdge(xs[i])|..] == t;
    }
    ListRoundTrip(EncEdge, AdvanceEdge, xs, xs, tail);
  }

  lemma {:induction false} ChunksRoundTrip(listed: seq<ListedChunk>, chunks: seq<TextChunk>, tail: Bytes)
    requires ListsChunks(listed, chunks)
    requires |chunks| < TWO32 && forall x :: x in chunks ==> FitsChunk(x)
    ensures ParseList(AdvanceChunk, EncList(EncListed, listed) + tail) == Some((chunks, tail))
  {
    forall i: nat, t: Bytes | i < |listed|
      ensures AdvanceChunk(EncListed(listed[i]) + t) == Some((chunks[i], t))
    {
      hide EncChunk, ParseChunk, ChunkSize, FitsChunk, IsListing;
      ChunkRoundTrip(chunks[i], listed[i].1, t);
      EncodedChunkSize(chunks[i], listed[i].1);
      assert (EncListed(listed[i]) + t)[|EncListed(listed[i])|..] == t;
    }
    hide EncListed, AdvanceChunk;
    ListRoundTrip(EncListed, AdvanceChunk, listed, chunks, tail);
  }

  /** Enumerating the metadata in any order gives the same number of bytes. */
  lemma {:induction false} EncodedChunkSize(c: TextChunk, pairs: seq<Pair>)
    requires IsListing(pairs, c.metadata)
    ensures |EncChunk(c, pairs)| == ChunkSize(c)
  {
    hide EncStr, EncU32, FlatMap, MetaSize, ToMap;
    ListingToMap(pairs, c.metadata);
    PairsSize(pairs);
  }

  lemma {:induction false} ListsParsed(d: Bytes)
    requires ParseLists(d).Some?
    ensures var (embeddings, incoming, outgoing, chunks) := ParseLists(d).value.0;
            FitsLists(embeddings, incoming, outgoing, chunks)
  {
    hide ParseEmbedding, ParseEdge, ParseChunk, ParseMany, ParseU32, FitsEmbedding, FitsEdge, FitsChunk;
    var (_, d1) := ParseList(ParseEmbedding, d).value;
    var (_, d2) := ParseList(AdvanceEdge, d1).value;
    var (_, d3) := ParseList(AdvanceEdge, d2).value;
    forall x: Bytes | ParseEmbedding(x).Some?
      ensures FitsEmbedding(ParseEmbedding(x).value.0)
    {
      EmbeddingParsed(x);
    }
    forall x: Bytes | AdvanceEdge(x).Some?
      ensures FitsEdge(AdvanceEdge(x).value.0)
    {
      EdgeParsed(x);
    }
    forall x: Bytes | AdvanceChunk(x).Some?
      ensures FitsChunk(AdvanceChunk(x).value.0)
    {
      ChunkParsed(x);
    }
    ManyGood(ParseEmbedding, FitsEmbedding, ParseU32(d).value.0, ParseU32(d).value.1);
    ManyGood(AdvanceEdge, FitsEdge, ParseU32(d1).value.0, ParseU32(d1).value.1);
    ManyGood(AdvanceEdge, FitsEdge, ParseU32(d2).value.0, ParseU32(d2).value.1);
    ManyGood(AdvanceChunk, FitsChunk, ParseU32(d3).value.0, ParseU32(d3).value.1);
  }
}
