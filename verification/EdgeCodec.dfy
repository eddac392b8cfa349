/** core/entity/edge.go: graph edges and their binary form. */
module EdgeCodec {
  import opened Prelude

  // Weights are the IEEE 754 bits of a float64; timestamps are Unix nanoseconds.
  datatype GraphEdge = GraphEdge(from: Bytes, to: Bytes, relation: Bytes, weight: U64, timestamp: I64) {

    method ToBytes() returns (b: Bytes)
      ensures b == EncEdge(this)
    {
      hide EncStr, EncU64;
      var buf := new byte[4 + |from| + 4 + |to| + 4 + |relation| + 8 + 8](_ => 0);
      var offset: nat := Write(buf, 0, EncStr(from));
      offset := Write(buf, offset, EncStr(to));
      offset := Write(buf, offset, EncStr(relation));
      offset := Write(buf, offset, EncU64(weight));
      offset := Write(buf, offset, EncU64(ToU64(timestamp)));
      assert offset == buf.Length;
      b := buf[..];
    }

    static method FromBytes(data: Bytes) returns (r: Option<GraphEdge>)
      ensures match ParseEdge(data)
              case None => r == None
              case Some((e, _)) => r == Some(e)
    {
      assert data[0..] == data;
      var from, offset: nat := ReadStr(data, 0);
      if from == None { return None; }
      var to;
      to, offset := ReadStr(data, offset);
      if to == None { return None; }
      var relation;
      relation, offset := ReadStr(data, offset);
      if relation == None { return None; }
      var weight;
      weight, offset := ReadU64(data, offset);
      if weight == None { return None; }
      var nanos;
      nanos, offset := ReadU64(data, offset);
      if nanos == None { return None; }
      return Some(GraphEdge(from.value, to.value, relation.value, weight.value, ToI64(nanos.value)));
    }
  }

  function EncEdge(e: GraphEdge): (b: Bytes)
    ensures |b| == 28 + |e.from| + |e.to| + |e.relation|
  {
    EncStr(e.from) + EncStr(e.to) + EncStr(e.relation) + EncU64(e.weight) + EncU64(ToU64(e.timestamp))
  }

  function ParseEdge(d: Bytes): Option<(GraphEdge, Bytes)> {
    var (from, d1) :- ParseStr(d);
    var (to, d2) :- ParseStr(d1);
    var (relation, d3) :- ParseStr(d2);
    var (weight, d4) :- ParseU64(d3);
    var (nanos, d5) :- ParseU64(d4);
    Some((GraphEdge(from, to, relation, weight, ToI64(nanos)), d5))
  }

  /** Every length the encoder writes as a uint32 really fits in one. */
  predicate FitsEdge(e: GraphEdge) {
    |e.from| < TWO32 && |e.to| < TWO32 && |e.relation| < TWO32
  }

  /** An edge decodes back from its encoding, whatever follows it, exactly when its lengths fit. */
  lemma EdgeRoundTrip(e: GraphEdge, tail: Bytes)
    ensures ParseEdge(EncEdge(e) + tail) == Some((e, tail)) <==> FitsEdge(e)
  {
    if FitsEdge(e) {
      var t4 := EncU64(ToU64(e.timestamp)) + tail;
      var t3 := EncU64(e.weight) + t4;
      var t2 := EncStr(e.relation) + t3;
      var t1 := EncStr(e.to) + t2;
      assert EncEdge(e) + tail == EncStr(e.from) + t1;
      StrRoundTrip(e.from, t1);
      StrRoundTrip(e.to, t2);
      StrRoundTrip(e.relation, t3);
      U64RoundTrip(e.weight, t4);
      U64RoundTrip(ToU64(e.timestamp), tail);
    } else if ParseEdge(EncEdge(e) + tail).Some? {
      EdgeParsed(EncEdge(e) + tail);
    }
  }

  /** On any bytes: a decoded edge fits, and its encoding is exactly the bytes its decoder consumed. */
  lemma {:induction false} EdgeParsed(d: Bytes)
    requires ParseEdge(d).Some?
    ensures var (e, rest) := ParseEdge(d).value; FitsEdge(e) && d == EncEdge(e) + rest
  {
    hide EncStr, EncU64, ParseStr, ParseU64;
    var (_, d1) := ParseStr(d).value;
    var (_, d2) := ParseStr(d1).value;
    var (_, d3) := ParseStr(d2).value;
    var (_, d4) := ParseU64(d3).value;
    StrParsed(d);
    StrParsed(d1);
    StrParsed(d2);
    U64Parsed(d3);
    U64Parsed(d4);
    var (e, rest) := ParseEdge(d).value;
    Regroup(d, EncStr(e.from), d1, EncStr(e.to), d2, EncStr(e.relation), d3, EncU64(e.weight), d4,
      EncU64(ToU64(e.timestamp)), rest);
  }

  lemma Regroup(d: Bytes, x1: Bytes, d1: Bytes, x2: Bytes, d2: Bytes, x3: Bytes, d3: Bytes, x4: Bytes, d4: Bytes,
          x5: Bytes, d5: Bytes)
    requires d == x1 + d1 && d1 == x2 + d2 && d2 == x3 + d3 && d3 == x4 + d4 && d4 == x5 + d5
    ensures d == x1 + x2 + x3 + x4 + x5 + d5
  {
    assert d == x1 + x2 + d2;
    assert d == x1 + x2 + x3 + d3;
  }
}
