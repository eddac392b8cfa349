/** Where the fields of every stored record stand, by their offsets. */
module ByteLayouts {
  import opened Prelude
  import opened EdgeCodec
  import opened ChunkCodec
  import opened EntityCodec
  import opened SSTableFormat
  import Wal

  ghost predicate Part(b: Bytes, at: nat, part: Bytes) {
    at + |part| <= |b| && b[at..at + |part|] == part
  }

  lemma Late(x: Bytes, y: Bytes, at: nat, part: Bytes)
    requires Part(y, at, part)
    ensures Part(x + y, |x| + at, part)
  {
  }

  /** The first and the second of two. */
  lemma Both(x: Bytes, y: Bytes)
    ensures Part(x + y, 0, x) && Part(x + y, |x|, y)
  {
  }

  /** A part of a part. */
  lemma Within(b: Bytes, at: nat, part: Bytes, inner: nat, piece: Bytes)
    requires Part(b, at, part) && Part(part, inner, piece)
    ensures Part(b, at + inner, piece)
  {
    forall k | 0 <= k < |piece|
      ensures b[at + inner + k] == piece[k]
    {
      assert b[at..at + |part|][inner + k] == part[inner + k];
      assert part[inner..inner + |piece|][k] == piece[k];
    }
  }

  /** A string is its length in four bytes and then its bytes. */
  lemma {:induction false} StringInside(b: Bytes, at: nat, s: Bytes)
    requires Part(b, at, EncStr(s))
    ensures Part(b, at, EncU32(|s|)) && Part(b, at + 4, s)
  {
    hide EncU32;
    Both(EncU32(|s|), s);
    Within(b, at, EncStr(s), 0, EncU32(|s|));
    Within(b, at, EncStr(s), 4, s);
  }

  /** A log record: length, checksum of the data, data. */
  lemma {:induction false} FrameLayout(crc: Wal.Checksum, data: Bytes)
    ensures var b := Wal.Frame(crc, data);
            |b| == 8 + |data| && Part(b, 0, EncU32(|data|)) && Part(b, 4, EncU32(crc(data))) && Part(b, 8, data)
  {
    hide EncU32;
  }

  /** A table row: type, id, data, and the checksum of all that. */
  lemma {:induction false} RowLayout(crc: Checksum, r: Row)
    ensures var b, n := EncRow(crc, r), |r.entityID|;
            && |b| == 13 + n + |r.data| && b[0] == r.rowType
            && Part(b, 1, EncU32(n)) && Part(b, 5, r.entityID)
            && Part(b, 5 + n, EncU32(|r.data|)) && Part(b, 9 + n, r.data)
            && Part(b, 9 + n + |r.data|, EncU32(crc(b[..9 + n + |r.data|])))
  {
    hide EncU32, EncStr, Part;
    var b, body := EncRow(crc, r), RowBody(r);
    var id, data, sum := EncStr(r.entityID), EncStr(r.data), EncU32(crc(body));
    assert b[..|body|] == body;
    Both(body, sum);
    Both([r.rowType], id + data);
    Both(id, data);
    Within(b, 0, body, 1, id + data);
    Within(b, 1, id + data, 0, id);
    Within(b, 1, id + data, |id|, data);
    StringInside(b, 1, r.entityID);
    StringInside(b, 1 + |id|, r.data);
  }

  /** An index entry: id and offset. */
  lemma {:induction false} EntryLayout(e: IndexEntry)
    ensures var b, n := EncEntry(e), |e.entityID|;
            |b| == 12 + n && Part(b, 0, EncU32(n)) && Part(b, 4, e.entityID) && Part(b, 4 + n, EncU64(ToU64(e.offset)))
  {
    hide EncU32, EncU64, EncStr, Part;
    var b := EncEntry(e);
    Both(EncStr(e.entityID), EncU64(ToU64(e.offset)));
    StringInside(b, 0, e.entityID);
  }

  /** The footer: index offset, index size, row count. */
  lemma {:induction false} FooterLayout(f: Footer)
    ensures var b := EncFooter(f);
            && |b| == 24 && Part(b, 0, EncU64(ToU64(f.indexOffset))) && Part(b, 8, EncU64(ToU64(f.indexSize)))
            && Part(b, 16, EncU64(ToU64(f.rowCount)))
  {
    hide EncU64;
  }

  /** An edge: source, target, relation, weight, time. */
  lemma {:induction false} EdgeLayout(e: GraphEdge)
    ensures var b := EncEdge(e); var p := 4 + |e.from|; var q := p + 4 + |e.to|; var r := q + 4 + |e.relation|;
            && |b| == r + 16
            && Part(b, 0, EncU32(|e.from|)) && Part(b, 4, e.from)
            && Part(b, p, EncU32(|e.to|)) && Part(b, p + 4, e.to)
            && Part(b, q, EncU32(|e.relation|)) && Part(b, q + 4, e.relation)
            && Part(b, r, EncU64(e.weight)) && Part(b, r + 8, EncU64(ToU64(e.timestamp)))
  {
    hide EncU32, EncU64, EncStr, Part;
    var b := EncEdge(e);
    var from, to, relation := EncStr(e.from), EncStr(e.to), EncStr(e.relation);
    var weight, time := EncU64(e.weight), EncU64(ToU64(e.timestamp));
    var two, three, four := from + to, from + to + relation, from + to + relation + weight;
    Both(four, time);
    Both(three, weight);
    Both(two, relation);
    Both(from, to);
    Within(b, 0, four, |three|, weight);
    Within(b, 0, four, 0, three);
    Within(b, 0, three, |two|, relation);
    Within(b, 0, three, 0, two);
    Within(b, 0, two, |from|, to);
    Within(b, 0, two, 0, from);
    StringInside(b, 0, e.from);
    StringInside(b, |from|, e.to);
    StringInside(b, |two|, e.relation);
  }

  /** An embedding: version, time, number of components, components. */
  lemma {:induction false} EmbeddingLayout(e: VectorEmbedding)
    ensures var b := EncEmbedding(e);
            && |b| == 20 + 4 * |e.vector|
            && Part(b, 0, EncU64(ToU64(e.version))) && Part(b, 8, EncU64(ToU64(e.timestamp)))
            && Part(b, 16, EncU32(|e.vector|))
            && forall i :: 0 <= i < |e.vector| ==> Part(b, 20 + 4 * i, EncU32(e.vector[i]))
  {
    hide EncU32, EncU64, FlatMap, Part;
    var b := EncEmbedding(e);
    var version, time, n := EncU64(ToU64(e.version)), EncU64(ToU64(e.timestamp)), EncU32(|e.vector|);
    var floats := FlatMap(EncFloat, e.vector);
    FloatsSize(e.vector);
    Both(version, time + (n + floats));
    Both(time, n + floats);
    Both(n, floats);
    Within(b, 8, time + (n + floats), 0, time);
    Within(b, 8, time + (n + floats), 8, n + floats);
    Within(b, 16, n + floats, 0, n);
    Within(b, 16, n + floats, 4, floats);
    forall i | 0 <= i < |e.vector|
      ensures Part(b, 20 + 4 * i, EncU32(e.vector[i]))
    {
      FloatAt(e.vector, i);
      Within(b, 20, floats, 4 * i, EncU32(e.vector[i]));
    }
  }

  lemma {:induction false} FloatAt(v: seq<U32>, i: nat)
    requires i < |v|
    ensures Part(FlatMap(EncFloat, v), 4 * i, EncU32(v[i]))
  {
    hide FlatMap, EncU32, Part;
    var x, y := FlatMap(EncFloat, v[..i]), FlatMap(EncFloat, v[i + 1..]);
    assert v == v[..i] + v[i..] && v[i..][1..] == v[i + 1..];
    FlatMapAppend(EncFloat, v[..i], v[i..]);
    FlatMapUnfold(EncFloat, v[i..]);
    FloatsSize(v[..i]);
    Both(EncU32(v[i]), y);
    Late(x, EncU32(v[i]) + y, 0, EncU32(v[i]));
  }

  /** A chunk: id, text, number of metadata entries, and the entries. */
  lemma {:induction false} ChunkLayout(c: TextChunk, pairs: seq<Pair>)
    ensures var b := EncChunk(c, pairs); var p := 4 + |c.chunkID|; var q := p + 4 + |c.text|;
            && Part(b, 0, EncU32(|c.chunkID|)) && Part(b, 4, c.chunkID)
            && Part(b, p, EncU32(|c.text|)) && Part(b, p + 4, c.text)
            && Part(b, q, EncU32(|c.metadata|)) && b[q + 4..] == FlatMap(EncPair, pairs)
  {
    hide EncU32, EncStr, FlatMap, Part;
    var b := EncChunk(c, pairs);
    var id, text, n, meta := EncStr(c.chunkID), EncStr(c.text), EncU32(|c.metadata|), FlatMap(EncPair, pairs);
    Both(id + text + n, meta);
    Both(id + text, n);
    Both(id, text);
    Within(b, 0, id + text + n, |id + text|, n);
    Within(b, 0, id + text + n, 0, id + text);
    Within(b, 0, id + text, 0, id);
    Within(b, 0, id + text, |id|, text);
    StringInside(b, 0, c.chunkID);
    StringInside(b, |id|, c.text);
    assert b[|id + text + n|..] == meta;
  }

  /** An entity starts with its id, its tenant and its type, and ends with its importance and its two times. */
  lemma {:induction false} EntityLayout(e: Entity, listed: seq<ListedChunk>)
    ensures var b := EncEntity(e, listed); var p := 4 + |e.entityID|; var q := p + 4 + |e.tenantID|;
            && |b| >= 24
            && Part(b, 0, EncU32(|e.entityID|)) && Part(b, 4, e.entityID)
            && Part(b, p, EncU32(|e.tenantID|)) && Part(b, p + 4, e.tenantID)
            && Part(b, q, EncU32(|e.entityType|)) && Part(b, q + 4, e.entityType)
            && Part(b, |b| - 24, EncU64(e.importance)) && Part(b, |b| - 16, EncU64(ToU64(e.createdAt)))
            && Part(b, |b| - 8, EncU64(ToU64(e.updatedAt)))
  {
    hide EncU32, EncU64, EncStr, EncLists, Part;
    var b := EncEntity(e, listed);
    var id, tenant, kind, lists := EncStr(e.entityID), EncStr(e.tenantID), EncStr(e.entityType), EncLists(e, listed);
    var head, tail := EncHead(e), EncTail(e);
    Both(head, lists + tail);
    Both(lists, tail);
    Both(id, tenant + kind);
    Both(tenant, kind);
    Within(b, 0, head, 0, id);
    Within(b, 0, head, |id|, tenant + kind);
    Within(b, |id|, tenant + kind, 0, tenant);
    Within(b, |id|, tenant + kind, |tenant|, kind);
    StringInside(b, 0, e.entityID);
    StringInside(b, |id|, e.tenantID);
    StringInside(b, |id| + |tenant|, e.entityType);
    Within(b, |head|, lists + tail, |lists|, tail);
    TailLayout(e);
    var at := |head| + |lists|;
    assert at == |b| - 24;
    Within(b, at, tail, 0, EncU64(e.importance));
    Within(b, at, tail, 8, EncU64(ToU64(e.createdAt)));
    Within(b, at, tail, 16, EncU64(ToU64(e.updatedAt)));
  }

  lemma {:induction false} TailLayout(e: Entity)
    ensures var t := EncTail(e);
            && Part(t, 0, EncU64(e.importance)) && Part(t, 8, EncU64(ToU64(e.createdAt)))
            && Part(t, 16, EncU64(ToU64(e.updatedAt)))
  {
    hide EncU64, Part;
    var importance, created, updated := EncU64(e.importance), EncU64(ToU64(e.createdAt)), EncU64(ToU64(e.updatedAt));
    Both(importance, created + updated);
    Both(created, updated);
    Within(EncTail(e), 8, created + updated, 0, created);
    Within(EncTail(e), 8, created + updated, 8, updated);
  }

  /** Between them stand the embeddings, the incoming edges, the outgoing edges and the chunks, each list after its
      length. */
  lemma {:induction false} EntityLists(e: Entity, listed: seq<ListedChunk>)
    ensures var b := EncEntity(e, listed);
            var q := 12 + |e.entityID| + |e.tenantID| + |e.entityType|;
            var vectors := EncU32(|e.embeddings|) + FlatMap(EncEmbedding, e.embeddings);
            var incoming := EncU32(|e.incomingEdges|) + FlatMap(EncEdge, e.incomingEdges);
            var outgoing := EncU32(|e.outgoingEdges|) + FlatMap(EncEdge, e.outgoingEdges);
            var chunks := EncU32(|listed|) + FlatMap(EncListed, listed);
            && Part(b, q, vectors) && Part(b, q + |vectors|, incoming) && Part(b, q + |vectors| + |incoming|, outgoing)
            && Part(b, q + |vectors| + |incoming| + |outgoing|, chunks)
            && |b| == q + |vectors| + |incoming| + |outgoing| + |chunks| + 24
  {
    hide EncU32, EncU64, EncStr, FlatMap;
    var b := EncEntity(e, listed);
    var head, tail := EncHead(e), EncTail(e);
    var vectors := EncU32(|e.embeddings|) + FlatMap(EncEmbedding, e.embeddings);
    var incoming := EncU32(|e.incomingEdges|) + FlatMap(EncEdge, e.incomingEdges);
    var outgoing := EncU32(|e.outgoingEdges|) + FlatMap(EncEdge, e.outgoingEdges);
    var chunks := EncU32(|listed|) + FlatMap(EncListed, listed);
    FourLists(b, head, vectors, incoming, outgoing, chunks, tail);
  }

  lemma {:induction false} FourLists(b: Bytes, head: Bytes, v: Bytes, i: Bytes, o: Bytes, c: Bytes, tail: Bytes)
    requires b == head + ((v + (i + (o + c))) + tail)
    ensures Part(b, |head|, v) && Part(b, |head| + |v|, i) && Part(b, |head| + |v| + |i|, o)
    ensures Part(b, |head| + |v| + |i| + |o|, c)
    ensures |b| == |head| + |v| + |i| + |o| + |c| + |tail|
  {
    hide Part;
    var lists := v + (i + (o + c));
    assert |lists| == |v| + |i| + |o| + |c|;
    Both(head, lists + tail);
    Both(lists, tail);
    Within(b, |head|, lists + tail, 0, lists);
    FourInRow(lists, v, i, o, c);
    FourWithin(b, |head|, lists, v, i, o, c);
  }

  lemma {:induction false} FourInRow(lists: Bytes, v: Bytes, i: Bytes, o: Bytes, c: Bytes)
    requires lists == v + (i + (o + c))
    ensures Part(lists, 0, v) && Part(lists, |v|, i) && Part(lists, |v| + |i|, o) && Part(lists, |v| + |i| + |o|, c)
  {
    hide Part;
    Both(v, i + (o + c));
    ThreeInRow(i + (o + c), i, o, c);
    Late(v, i + (o + c), 0, i);
    Late(v, i + (o + c), |i|, o);
    Late(v, i + (o + c), |i| + |o|, c);
  }

  lemma {:induction false} ThreeInRow(lists: Bytes, i: Bytes, o: Bytes, c: Bytes)
    requires lists == i + (o + c)
    ensures Part(lists, 0, i) && Part(lists, |i|, o) && Part(lists, |i| + |o|, c)
  {
    hide Part;
    Both(i, o + c);
    Both(o, c);
    Late(i, o + c, 0, o);
    Late(i, o + c, |o|, c);
  }

  lemma {:induction false} FourWithin(b: Bytes, at: nat, lists: Bytes, v: Bytes, i: Bytes, o: Bytes, c: Bytes)
    requires Part(b, at, lists)
    requires Part(lists, 0, v) && Part(lists, |v|, i) && Part(lists, |v| + |i|, o) && Part(lists, |v| + |i| + |o|, c)
    ensures Part(b, at, v) && Part(b, at + |v|, i) && Part(b, at + |v| + |i|, o) && Part(b, at + |v| + |i| + |o|, c)
  {
    hide Part;
    Within(b, at, lists, 0, v);
    Within(b, at, lists, |v|, i);
    Within(b, at, lists, |v| + |i|, o);
    Within(b, at, lists, |v| + |i| + |o|, c);
  }
}
