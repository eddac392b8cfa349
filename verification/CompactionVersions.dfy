/** Which version of an entity a compaction keeps: core/storage/compaction/executor.go ranks rows by their first eight
    data bytes and then by length, while a row's data (core/entity/entity.go) starts with the entity's id. */
module CompactionVersions {
  import opened Prelude
  import opened EntityCodec
  import opened SSTableFormat
  import opened SSTableWriter
  import opened SSTableRoundTrip
  import opened Storage
  import opened StorageTheory
  import opened StorageOrder
  import opened Compaction

  lemma {:induction false} Starts(b: Bytes, e: Entity)
    requires Encodes(b, e)
    ensures |b| >= 8 && b[..8] == (EncStr(e.entityID) + EncU32(|e.tenantID|))[..8]
  {
    hide EncU32, EncLists, EncTail;
    var listed :| ListsChunks(listed, e.chunks) && b == EncEntity(e, listed);
    var start := EncStr(e.entityID) + EncU32(|e.tenantID|);
    var rest := e.tenantID + (EncStr(e.entityType) + (EncLists(e, listed) + EncTail(e)));
    assert b == start + rest;
  }

  /** The tenant does not reach into the first eight bytes, or is the same. */
  predicate SameStart(id: Bytes, tenant: Bytes, other: Bytes) {
    |id| >= 4 || tenant == other
  }

  /** The eight bytes taken for a timestamp are those of the id's length and what follows it: the same for all versions
      of an entity whose id has at least four bytes or that keeps its tenant. */
  lemma {:induction false} VersionsTie(r: Row, e: Entity, s: Row, f: Entity)
    requires RowFor(r, e) && RowFor(s, f) && e.entityID == f.entityID && SameStart(e.entityID, e.tenantID, f.tenantID)
    ensures ExtractTimestamp(r) == ExtractTimestamp(s)
  {
    hide Encodes, U64At, EncStr, EncU32;
    Starts(r.data, e);
    Starts(s.data, f);
    if |e.entityID| >= 4 {
      var start := EncStr(e.entityID);
      assert (start + EncU32(|e.tenantID|))[..8] == start[..8] == (start + EncU32(|f.tenantID|))[..8];
    }
    assert r.data[0..8] == r.data[..8] && s.data[0..8] == s.data[..8];
  }

  /** Longer than every row before it and no shorter than any after it. */
  ghost predicate LongestFirst(rows: seq<Row>, i: int) {
    && 0 <= i < |rows|
    && (forall j :: 0 <= j < i ==> |rows[j].data| < |rows[i].data|)
    && (forall j :: i <= j < |rows| ==> |rows[j].data| <= |rows[i].data|)
  }

  ghost predicate IsLongestFirst(rows: seq<Row>, r: Row) {
    exists i :: 0 <= i < |rows| && LongestFirst(rows, i) && rows[i] == r
  }

  /** Rows of versions of one entity, whose id has at least four bytes or that keeps its tenant. */
  ghost predicate Versioned(rows: seq<Row>, id: Bytes, tenant: Bytes) {
    forall r :: r in rows ==> exists e :: RowFor(r, e) && e.entityID == id && SameStart(id, e.tenantID, tenant)
  }

  lemma {:induction false} BestVersion(rows: seq<Row>, id: Bytes, tenant: Bytes, r: Row)
    requires rows != [] && Versioned(rows, id, tenant)
    ensures Best(rows) == r <==> IsLongestFirst(rows, r)
  {
    hide Best, Versioned, ExtractTimestamp, RowFor, IsFirstMaximal, LongestFirst;
    BestIsFirstMaximal(rows);
    var i :| 0 <= i < |rows| && IsFirstMaximal(rows, i) && Best(rows) == rows[i];
    FirstMaximalLongest(rows, id, tenant, i);
    forall k | 0 <= k < |rows| && LongestFirst(rows, k)
      ensures k == i
    {
      LongestOnce(rows, i, k);
    }
  }

  lemma {:induction false} FirstMaximalLongest(rows: seq<Row>, id: Bytes, tenant: Bytes, i: int)
    requires Versioned(rows, id, tenant) && IsFirstMaximal(rows, i)
    ensures LongestFirst(rows, i)
  {
    hide Versioned, ExtractTimestamp, RowFor;
    forall j | 0 <= j < |rows|
      ensures ExtractTimestamp(rows[j]) == ExtractTimestamp(rows[i])
    {
      VersionsTieIn(rows, id, tenant, i, j);
    }
  }

  lemma LongestOnce(rows: seq<Row>, i: int, k: int)
    requires LongestFirst(rows, i) && LongestFirst(rows, k)
    ensures i == k
  {
    assert |rows[i].data| <= |rows[k].data| && |rows[k].data| <= |rows[i].data|;
  }

  lemma {:induction false} VersionsTieIn(rows: seq<Row>, id: Bytes, tenant: Bytes, i: nat, j: nat)
    requires Versioned(rows, id, tenant) && i < |rows| && j < |rows|
    ensures ExtractTimestamp(rows[j]) == ExtractTimestamp(rows[i])
  {
    hide ExtractTimestamp, RowFor;
    assert rows[i] in rows && rows[j] in rows;
    var e :| RowFor(rows[i], e) && e.entityID == id && SameStart(id, e.tenantID, tenant);
    var f :| RowFor(rows[j], f) && f.entityID == id && SameStart(id, f.tenantID, tenant);
    VersionsTie(rows[i], e, rows[j], f);
  }

  /** A version survives a compaction exactly when its row is the first of the longest, the newest table read first. */
  lemma {:induction false} SurvivesExactly(tables: seq<seq<Row>>, id: Bytes, tenant: Bytes, r: Row)
    requires id != [] && Collect(tables, id) != [] && Versioned(Collect(tables, id), id, tenant)
    ensures Survivor(tables, id) == [r] <==> IsLongestFirst(Collect(tables, id), r)
  {
    hide Best, Collect, IsLongestFirst, Versioned;
    BestVersion(Collect(tables, id), id, tenant, r);
  }

  /** A version alone in the newest table survives exactly when none of the older tables' versions is longer. */
  lemma {:induction false} NewestSurvivesExactly(older: seq<seq<Row>>, table: seq<Row>, id: Bytes, tenant: Bytes,
          r: Row)
    requires id != [] && RowsOf(table, id) == [r]
    requires Versioned([r] + Collect(older, id), id, tenant) && r !in Collect(older, id)
    ensures Survivor(older + [table], id) == [r] <==> forall s :: s in Collect(older, id) ==> |s.data| <= |r.data|
  {
    hide RowsOf, Versioned;
    assert (older + [table])[..|older|] == older;
    var rest := Collect(older, id);
    var rows := [r] + rest;
    assert Collect(older + [table], id) == rows;
    hide Collect;
    SurvivesExactly(older + [table], id, tenant, r);
    if forall s :: s in rest ==> |s.data| <= |r.data| {
      assert LongestFirst(rows, 0);
    }
    if IsLongestFirst(rows, r) {
      var i :| 0 <= i < |rows| && LongestFirst(rows, i) && rows[i] == r;
      assert forall k :: 0 < k < |rows| ==> rows[k] in rest;
      forall s | s in rest
        ensures |s.data| <= |r.data|
      {
        var j :| 0 <= j < |rest| && rest[j] == s;
        assert rows[j + 1] == s;
      }
    }
  }

  /** Compacting a single table keeps the first put of an entity rather than the last when both are equally long. */
  lemma {:induction false} FirstPutKept()
    ensures Survivor([[RowOf(Plain(1, 0)), RowOf(Plain(1, 1))]], [1]) == [RowOf(Plain(1, 0))]
    ensures RowOf(Plain(1, 0)) != RowOf(Plain(1, 1))
  {
    hide EncEntity, Best, RowFor;
    var r, s := RowOf(Plain(1, 0)), RowOf(Plain(1, 1));
    var rows := [r, s];
    PlainFits(Plain(1, 0));
    PlainFits(Plain(1, 1));
    PlainRow(Plain(1, 0));
    PlainRow(Plain(1, 1));
    assert rows[..1] == [r] && [r][..0] == [];
    assert RowsOf([r], [1]) == [r];
    assert RowsOf(rows, [1]) == rows;
    CollectOne(rows, [1]);
    assert Versioned(rows, [1], []);
    PlainLength(Plain(1, 0), Plain(1, 1));
    RowsDiffer(Plain(1, 0), Plain(1, 1));
    assert LongestFirst(rows, 0);
    SurvivesExactly([rows], [1], [], r);
  }

  lemma {:induction false} PlainRow(e: Entity)
    requires IsPlain(e)
    ensures RowFor(RowOf(e), e)
  {
    hide EncEntity, Encodes;
    PlainFits(e);
  }

  lemma {:induction false} RowsDiffer(e: Entity, f: Entity)
    requires IsPlain(e) && IsPlain(f) && e != f
    ensures RowOf(e) != RowOf(f)
  {
    hide EncEntity, Encodes, Fits, ParseEntity;
    PlainFits(e);
    PlainFits(f);
    Decodes(EncEntity(e, []), e);
    Decodes(EncEntity(f, []), f);
  }

  lemma {:induction false} PlainLength(e: Entity, f: Entity)
    requires IsPlain(e) && IsPlain(f)
    ensures |EncEntity(e, [])| == |EncEntity(f, [])|
  {
    hide EncLists;
    PlainLists(e);
    PlainLists(f);
  }
}
