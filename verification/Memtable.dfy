/** core/storage/memtable/memtable.go: rows appended per entity id, with an approximate size. */
module Memtables {
  import opened Prelude
  import opened EntityCodec
  import opened ChunkCodec

  datatype MemState = MemState(data: map<Bytes, seq<Entity>>, size: int)

  const EMPTY_MEM := MemState(map[], 0)

  /** EntityRow.Size: the service's estimate of a row's memory. */
  function RowSize(e: Entity): nat {
    |e.entityID| + |e.tenantID| + VectorsSize(e.embeddings)
      + |e.incomingEdges| * 100 + |e.outgoingEdges| * 100 + TextsSize(e.chunks)
  }

  function VectorsSize(es: seq<VectorEmbedding>): nat {
    if es == [] then 0 else VectorsSize(es[..|es| - 1]) + |es[|es| - 1].vector| * 4
  }

  function TextsSize(cs: seq<TextChunk>): nat {
    if cs == [] then 0 else TextsSize(cs[..|cs| - 1]) + |cs[|cs| - 1].text| + 50
  }

  function AllComponents(es: seq<VectorEmbedding>): seq<U32> {
    if es == [] then [] else AllComponents(es[..|es| - 1]) + es[|es| - 1].vector
  }

  function AllText(cs: seq<TextChunk>): Bytes {
    if cs == [] then [] else AllText(cs[..|cs| - 1]) + cs[|cs| - 1].text
  }

  /** The estimate: names, four bytes a vector component, a hundred an edge, the text and fifty a chunk. */
  lemma {:induction false} RowSizeMeans(e: Entity)
    ensures RowSize(e) == |e.entityID| + |e.tenantID| + 4 * |AllComponents(e.embeddings)|
                          + 100 * (|e.incomingEdges| + |e.outgoingEdges|) + |AllText(e.chunks)| + 50 * |e.chunks|
  {
    VectorsSizeMeans(e.embeddings);
    TextsSizeMeans(e.chunks);
  }

  lemma {:induction false} VectorsSizeMeans(es: seq<VectorEmbedding>)
    ensures VectorsSize(es) == 4 * |AllComponents(es)|
  {
    if es != [] {
      VectorsSizeMeans(es[..|es| - 1]);
    }
  }

  lemma {:induction false} TextsSizeMeans(cs: seq<TextChunk>)
    ensures TextsSize(cs) == |AllText(cs)| + 50 * |cs|
  {
    if cs != [] {
      TextsSizeMeans(cs[..|cs| - 1]);
    }
  }

  function MemPut(m: MemState, e: Entity): MemState {
    var rows := if e.entityID in m.data then m.data[e.entityID] else [];
    MemState(m.data[e.entityID := rows + [e]], m.size + RowSize(e))
  }

  class Memtable {
    var data: map<Bytes, seq<Entity>>
    var size: int
    const maxSize: int

    constructor (maxSize: int)
      ensures State() == EMPTY_MEM && this.maxSize == DefaultedSize(maxSize)
      ensures this.maxSize == if maxSize <= 0 then 67108864 else maxSize
    {
      this.maxSize := DefaultedSize(maxSize);
      data, size := map[], 0;
    }

    function State(): MemState
      reads this
    {
      MemState(data, size)
    }

    method Put(e: Entity)
      modifies this
      ensures State() == MemPut(old(State()), e)
    {
      var rows := if e.entityID in data then data[e.entityID] else [];
      data := data[e.entityID := rows + [e]];
      size := size + RowSize(e);
    }

    method Get(id: Bytes) returns (rows: seq<Entity>)
      ensures rows == if id in data then data[id] else []
    {
      rows := if id in data then data[id] else [];
    }

    method ShouldFlush() returns (b: bool)
      ensures b == (size >= maxSize)
    {
      b := size >= maxSize;
    }

    method Reset()
      modifies this
      ensures State() == EMPTY_MEM
    {
      data, size := map[], 0;
    }
  }

  function DefaultedSize(maxSize: int): int {
    if maxSize <= 0 then 64 * 1024 * 1024 else maxSize
  }
}
