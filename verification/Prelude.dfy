/** Shared vocabulary: Go byte strings and their order, little-endian integers,
    concatenation of encoded items, and the library sort seen through its contract. */
module Prelude {

  datatype Option<+T> = None | Some(value: T) {
    predicate IsFailure() {
      None?
    }

    function PropagateFailure<U>(): Option<U>
      requires None?
    {
      None
    }

    function Extract(): T
      requires Some?
    {
      value
    }
  }

  type byte = b: int | 0 <= b < 256
  // A Go string is an immutable byte sequence, so both string and []byte are Bytes.
  type Bytes = seq<byte>

  const TWO32 := 0x1_0000_0000
  const TWO63 := 0x8000_0000_0000_0000
  const TWO64 := 0x1_0000_0000_0000_0000

  type U32 = n: int | 0 <= n < 0x1_0000_0000
  type U64 = n: int | 0 <= n < 0x1_0000_0000_0000_0000
  type I64 = n: int | -0x8000_0000_0000_0000 <= n < 0x8000_0000_0000_0000

  // ----- the order of Go strings -----

  predicate Less(a: Bytes, b: Bytes) {
    if b == [] then false
    else if a == [] then true
    else if a[0] != b[0] then a[0] < b[0]
    else Less(a[1..], b[1..])
  }

  lemma {:induction false} LessTotal(a: Bytes, b: Bytes)
    ensures Less(a, b) || a == b || Less(b, a)
  {
    if a == [] || b == [] {
    } else if a[0] == b[0] {
      LessTotal(a[1..], b[1..]);
      assert a == [a[0]] + a[1..] && b == [b[0]] + b[1..];
    }
  }

  lemma {:induction false} LessAsymmetric(a: Bytes, b: Bytes)
    requires Less(a, b)
    ensures !Less(b, a) && a != b
  {
    if a == [] {
    } else if a[0] == b[0] {
      LessAsymmetric(a[1..], b[1..]);
    }
  }

  lemma {:induction false} LessTransitive(a: Bytes, b: Bytes, c: Bytes)
    requires Less(a, b) && Less(b, c)
    ensures Less(a, c)
  {
    if a == [] {
    } else if a[0] == b[0] == c[0] {
      LessTransitive(a[1..], b[1..], c[1..]);
    }
  }

  lemma LessIsStrictOrder()
    ensures forall a: Bytes, b: Bytes :: Less(a, b) || a == b || Less(b, a)
    ensures forall a: Bytes, b: Bytes :: Less(a, b) ==> !Less(b, a) && a != b
    ensures forall a: Bytes, b: Bytes, c: Bytes :: Less(a, b) && Less(b, c) ==> Less(a, c)
  {
    forall a: Bytes, b: Bytes
      ensures Less(a, b) || a == b || Less(b, a)
    {
      LessTotal(a, b);
    }
    forall a: Bytes, b: Bytes | Less(a, b)
      ensures !Less(b, a) && a != b
    {
      LessAsymmetric(a, b);
    }
    forall a: Bytes, b: Bytes, c: Bytes | Less(a, b) && Less(b, c)
      ensures Less(a, c)
    {
      LessTransitive(a, b, c);
    }
  }

  ghost predicate Ascending(s: seq<Bytes>) {
    forall i, j :: 0 <= i < j < |s| ==> Less(s[i], s[j])
  }

  function Elements<T>(s: seq<T>): set<T> {
    set x | x in s
  }

  lemma NoElements<T>(s: seq<T>)
    ensures Elements(s) == {} <==> s == []
  {
    if s != [] {
      assert s[0] in Elements(s);
    }
  }

  /** An ascending listing of a set is unique. */
  lemma {:induction false} AscendingUnique(a: seq<Bytes>, b: seq<Bytes>)
    requires Ascending(a) && Ascending(b) && Elements(a) == Elements(b)
    ensures a == b
  {
    NoElements(a);
    NoElements(b);
    if a != [] {
      assert a[0] in Elements(b) && b[0] in Elements(a);
      LessIsStrictOrder();
      assert a[0] == b[0];
      forall x
        ensures x in a[1..] <==> x in b[1..]
      {
        assert x in a[1..] <==> x in Elements(a) && x != a[0];
        assert x in b[1..] <==> x in Elements(b) && x != b[0];
      }
      AscendingUnique(a[1..], b[1..]);
      assert a == [a[0]] + a[1..] && b == [b[0]] + b[1..];
    }
  }

  ghost predicate IsLeast(m: Bytes, s: set<Bytes>) {
    m in s && forall x :: x in s && x != m ==> Less(m, x)
  }

  lemma {:induction false} LeastExists(s: set<Bytes>)
    requires s != {}
    ensures exists m :: IsLeast(m, s)
    decreases |s|
  {
    LessIsStrictOrder();
    var e :| e in s;
    if s == {e} {
      assert IsLeast(e, s);
    } else {
      LeastExists(s - {e});
      var m :| IsLeast(m, s - {e});
      assert IsLeast(if Less(e, m) then e else m, s);
    }
  }

  /** The ascending listing of a set of strings. */
  ghost function Listing(s: set<Bytes>): (l: seq<Bytes>)
    ensures Elements(l) == s && |l| == |s|
    ensures Ascending(l)
    decreases |s|
  {
    if s == {} then []
    else
      var least := LeastOf(s);
      var rest := Listing(s - {least});
      PrependKeepsAscending(least, rest, s);
      [least] + rest
  }

  lemma PrependKeepsAscending(m: Bytes, rest: seq<Bytes>, s: set<Bytes>)
    requires IsLeast(m, s) && Elements(rest) == s - {m} && |rest| == |s| - 1 && Ascending(rest)
    ensures Elements([m] + rest) == s && |[m] + rest| == |s| && Ascending([m] + rest)
  {
    var l := [m] + rest;
    forall x
      ensures x in l <==> x in s
    {
      assert x in rest <==> x in Elements(rest);
    }
    forall i, j | 0 <= i < j < |l|
      ensures Less(l[i], l[j])
    {
      assert l[j] in Elements(rest);
    }
  }

  ghost function LeastOf(s: set<Bytes>): (m: Bytes)
    requires s != {}
    ensures IsLeast(m, s)
  {
    LeastExists(s);
    var m :| IsLeast(m, s);
    m
  }

  // ----- little-endian integers -----

  /** The low k bytes of n, least significant first; larger n are truncated as Go's conversions do. */
  function LE(n: nat, k: nat): (b: Bytes)
    ensures |b| == k
  {
    if k == 0 then [] else [n % 256] + LE(n / 256, k - 1)
  }

  function UnLE(b: Bytes): nat {
    if b == [] then 0 else b[0] + 256 * UnLE(b[1..])
  }

  function Pow256(k: nat): (p: nat)
    ensures p >= 1
  {
    if k == 0 then 1 else 256 * Pow256(k - 1)
  }

  lemma {:induction false} UnLEBound(b: Bytes)
    ensures UnLE(b) < Pow256(|b|)
  {
    if b != [] {
      UnLEBound(b[1..]);
    }
  }

  lemma {:induction false} LERoundTrip(n: nat, k: nat)
    requires n < Pow256(k)
    ensures UnLE(LE(n, k)) == n
  {
    if k > 0 {
      LERoundTrip(n / 256, k - 1);
      assert LE(n, k)[1..] == LE(n / 256, k - 1);
    }
  }

  lemma Pow256Values()
    ensures Pow256(4) == TWO32 && Pow256(8) == TWO64
  {
    assert Pow256(2) == 65536;
    assert Pow256(4) == 65536 * 65536;
    assert Pow256(6) == 65536 * TWO32;
    assert Pow256(8) == 65536 * Pow256(6);
  }

  function U32At(b: Bytes): (n: U32)
    requires |b| == 4
  {
    UnLEBound(b); Pow256Values();
    UnLE(b)
  }

  function U64At(b: Bytes): (n: U64)
    requires |b| == 8
  {
    UnLEBound(b); Pow256Values();
    UnLE(b)
  }

  // uint64(x) and int64(n): the two's complement conversions
  function ToU64(x: I64): U64 {
    if x < 0 then x + TWO64 else x
  }

  function ToI64(n: U64): I64 {
    if n >= TWO63 then n - TWO64 else n
  }

  function EncU32(n: nat): (b: Bytes)
    ensures |b| == 4
  {
    LE(n, 4)
  }

  function EncU64(n: U64): (b: Bytes)
    ensures |b| == 8
  {
    LE(n, 8)
  }

  lemma U32RoundTrip(n: nat, tail: Bytes)
    requires n < TWO32
    ensures |EncU32(n) + tail| >= 4 && U32At((EncU32(n) + tail)[..4]) == n && (EncU32(n) + tail)[4..] == tail
  {
    Pow256Values();
    LERoundTrip(n, 4);
    assert (EncU32(n) + tail)[..4] == EncU32(n);
  }

  lemma U64RoundTrip(n: U64, tail: Bytes)
    ensures |EncU64(n) + tail| >= 8 && U64At((EncU64(n) + tail)[..8]) == n && (EncU64(n) + tail)[8..] == tail
  {
    Pow256Values();
    LERoundTrip(n, 8);
    assert (EncU64(n) + tail)[..8] == EncU64(n);
  }

  // ----- a string preceded by its length -----

  function EncStr(s: Bytes): (b: Bytes)
    ensures |b| == 4 + |s|
  {
    EncU32(|s|) + s
  }

  /** Reads a length-prefixed string; None when the data is too short. */
  function ParseStr(d: Bytes): (r: Option<(Bytes, Bytes)>)
    ensures r.Some? ==> |r.value.0| < TWO32 && 4 + |r.value.0| + |r.value.1| == |d|
  {
    if |d| < 4 then None
    else
      var n := U32At(d[..4]);
      if 4 + n > |d| then None else Some((d[4..4 + n], d[4 + n..]))
  }

  function ParseU32(d: Bytes): (r: Option<(U32, Bytes)>)
    ensures r.Some? ==> 4 + |r.value.1| == |d|
  {
    if |d| < 4 then None else Some((U32At(d[..4]), d[4..]))
  }

  function ParseU64(d: Bytes): (r: Option<(U64, Bytes)>)
    ensures r.Some? ==> 8 + |r.value.1| == |d|
  {
    if |d| < 8 then None else Some((U64At(d[..8]), d[8..]))
  }

  lemma StrRoundTrip(s: Bytes, tail: Bytes)
    requires |s| < TWO32
    ensures ParseStr(EncStr(s) + tail) == Some((s, tail))
  {
    U32RoundTrip(|s|, s + tail);
    assert EncStr(s) + tail == EncU32(|s|) + (s + tail);
    assert (EncStr(s) + tail)[4..4 + |s|] == s;
    assert (EncStr(s) + tail)[4 + |s|..] == tail;
  }

  lemma {:induction false} LEInverse(b: Bytes)
    ensures LE(UnLE(b), |b|) == b
  {
    if b != [] {
      LEInverse(b[1..]);
      assert UnLE(b) % 256 == b[0] && UnLE(b) / 256 == UnLE(b[1..]);
      assert b == [b[0]] + b[1..];
    }
  }

  lemma U64Parsed(d: Bytes)
    requires ParseU64(d).Some?
    ensures d == EncU64(ParseU64(d).value.0) + ParseU64(d).value.1
  {
    LEInverse(d[..8]);
  }

  lemma StrParsed(d: Bytes)
    requires ParseStr(d).Some?
    ensures d == EncStr(ParseStr(d).value.0) + ParseStr(d).value.1
  {
    LEInverse(d[..4]);
  }

  /** A uint32 count followed by that many items. */
  function EncList<T>(f: T -> Bytes, xs: seq<T>): Bytes {
    EncU32(|xs|) + FlatMap(f, xs)
  }

  function ParseList<T>(p: Bytes -> Option<(T, Bytes)>, d: Bytes): Option<(seq<T>, Bytes)> {
    var (n, d1) :- ParseU32(d);
    ParseMany(p, n, d1)
  }

  lemma {:induction false} ListRoundTrip<S, T>(f: S -> Bytes, p: Bytes -> Option<(T, Bytes)>, xs: seq<S>, ys: seq<T>,
          tail: Bytes)
    requires |xs| == |ys| < TWO32
    requires forall i: nat, t: Bytes :: i < |xs| ==> p(f(xs[i]) + t) == Some((ys[i], t))
    ensures ParseList(p, EncList(f, xs) + tail) == Some((ys, tail))
  {
    hide EncU32, ParseU32, FlatMap, ParseMany;
    ManyRoundTrip(f, p, xs, ys, tail);
    ParseU32RoundTrip(|xs|, FlatMap(f, xs) + tail);
    assert EncList(f, xs) + tail == EncU32(|xs|) + (FlatMap(f, xs) + tail);
  }

  lemma {:induction false} ManyGood<T(!new)>(p: Bytes -> Option<(T, Bytes)>, good: T -> bool, n: nat, d: Bytes)
    requires forall d: Bytes :: p(d).Some? ==> good(p(d).value.0)
    requires ParseMany(p, n, d).Some?
    ensures forall x :: x in ParseMany(p, n, d).value.0 ==> good(x)
  {
    if n > 0 {
      ManyGood(p, good, n - 1, p(d).value.1);
    }
  }

  lemma {:induction false} FlatMapSplit<T>(f: T -> Bytes, xs: seq<T>, i: nat)
    requires i < |xs|
    ensures FlatMap(f, xs[..i + 1]) == FlatMap(f, xs[..i]) + f(xs[i])
    ensures |FlatMap(f, xs[..i + 1])| <= |FlatMap(f, xs)|
  {
    hide FlatMap;
    assert xs[..i + 1] == xs[..i] + [xs[i]] && xs == xs[..i + 1] + xs[i + 1..];
    FlatMapSnoc(f, xs[..i], xs[i]);
    FlatMapAppend(f, xs[..i + 1], xs[i + 1..]);
  }

  lemma FlatMapWhole<T>(f: T -> Bytes, xs: seq<T>)
    ensures FlatMap(f, xs[..0]) == [] && FlatMap(f, xs[..|xs|]) == FlatMap(f, xs)
  {
    assert xs[..|xs|] == xs;
  }

  // ----- cursor reads and writes -----

  /** Reads a length-prefixed string at the cursor, with the bounds checks of every decoder. */
  method ReadStr(data: Bytes, offset: nat) returns (r: Option<Bytes>, next: nat)
    requires offset <= |data|
    ensures next <= |data|
    ensures match ParseStr(data[offset..])
            case None => r == None
            case Some((s, rest)) => r == Some(s) && rest == data[next..]
  {
    next := offset;
    if offset + 4 > |data| {
      return None, next;
    }
    var n := U32At(data[offset..offset + 4]);
    assert data[offset..offset + 4] == data[offset..][..4];
    if offset + 4 + n > |data| {
      return None, next;
    }
    next := offset + 4 + n;
    assert data[offset + 4..next] == data[offset..][4..4 + n];
    assert data[next..] == data[offset..][4 + n..];
    return Some(data[offset + 4..next]), next;
  }

  method ReadU32(data: Bytes, offset: nat) returns (r: Option<U32>, next: nat)
    requires offset <= |data|
    ensures next <= |data|
    ensures match ParseU32(data[offset..])
            case None => r == None
            case Some((n, rest)) => r == Some(n) && rest == data[next..]
  {
    next := offset;
    if offset + 4 > |data| {
      return None, next;
    }
    assert data[offset..offset + 4] == data[offset..][..4];
    assert data[offset + 4..] == data[offset..][4..];
    return Some(U32At(data[offset..offset + 4])), offset + 4;
  }

  method ReadU64(data: Bytes, offset: nat) returns (r: Option<U64>, next: nat)
    requires offset <= |data|
    ensures next <= |data|
    ensures match ParseU64(data[offset..])
            case None => r == None
            case Some((n, rest)) => r == Some(n) && rest == data[next..]
  {
    next := offset;
    if offset + 8 > |data| {
      return None, next;
    }
    assert data[offset..offset + 8] == data[offset..][..8];
    assert data[offset + 8..] == data[offset..][8..];
    return Some(U64At(data[offset..offset + 8])), offset + 8;
  }

  /** copy(buf[offset:], s): the bytes up to the new cursor are the old ones followed by s. */
  method Write(buf: array<byte>, offset: nat, s: Bytes) returns (next: nat)
    requires offset + |s| <= buf.Length
    modifies buf
    ensures next == offset + |s| && buf[..next] == old(buf[..offset]) + s
  {
    for i := 0 to |s|
      invariant buf[..offset] == old(buf[..offset])
      invariant buf[offset..offset + i] == s[..i]
    {
      buf[offset + i] := s[i];
    }
    next := offset + |s|;
    assert buf[..next] == buf[..offset] + buf[offset..next];
  }

  lemma {:induction false} ParseU32RoundTrip(n: U32, tail: Bytes)
    ensures ParseU32(EncU32(n) + tail) == Some((n, tail))
  {
    hide EncU32;
    U32RoundTrip(n, tail);
  }

  lemma {:induction false} ParseU64RoundTrip(n: U64, tail: Bytes)
    ensures ParseU64(EncU64(n) + tail) == Some((n, tail))
  {
    hide EncU64;
    U64RoundTrip(n, tail);
  }

  // ----- lists of encoded items -----

  function FlatMap<T>(f: T -> Bytes, xs: seq<T>): Bytes {
    if xs == [] then [] else f(xs[0]) + FlatMap(f, xs[1..])
  }

  lemma FlatMapUnfold<T>(f: T -> Bytes, xs: seq<T>)
    ensures FlatMap(f, xs) == if xs == [] then [] else f(xs[0]) + FlatMap(f, xs[1..])
  {
  }

  lemma AppendAssociates(a: Bytes, b: Bytes, c: Bytes)
    ensures (a + b) + c == a + (b + c) && [] + c == c
  {
  }

  lemma {:induction false} FlatMapAppend<T>(f: T -> Bytes, xs: seq<T>, ys: seq<T>)
    ensures FlatMap(f, xs + ys) == FlatMap(f, xs) + FlatMap(f, ys)
  {
    hide FlatMap;
    FlatMapUnfold(f, xs);
    if xs == [] {
      assert xs + ys == ys;
      AppendAssociates([], [], FlatMap(f, ys));
    } else {
      FlatMapAppend(f, xs[1..], ys);
      assert (xs + ys)[0] == xs[0] && (xs + ys)[1..] == xs[1..] + ys;
      FlatMapUnfold(f, xs + ys);
      AppendAssociates(f(xs[0]), FlatMap(f, xs[1..]), FlatMap(f, ys));
    }
  }

  lemma FlatMapSnoc<T>(f: T -> Bytes, xs: seq<T>, x: T)
    ensures FlatMap(f, xs + [x]) == FlatMap(f, xs) + f(x)
  {
    FlatMapAppend(f, xs, [x]);
    assert FlatMap(f, [x]) == f(x) + FlatMap(f, []);
  }

  function ParseMany<T>(p: Bytes -> Option<(T, Bytes)>, n: nat, d: Bytes): (r: Option<(seq<T>, Bytes)>)
    ensures r.Some? ==> |r.value.0| == n
  {
    if n == 0 then Some(([], d))
    else
      var (x, d1) :- p(d);
      var (xs, d2) :- ParseMany(p, n - 1, d1);
      Some(([x] + xs, d2))
  }

  /** A list parse that has produced xs so far and continues with r. */
  function Resume<T>(xs: seq<T>, r: Option<(seq<T>, Bytes)>): Option<(seq<T>, Bytes)> {
    match r
    case None => None
    case Some((ys, rest)) => Some((xs + ys, rest))
  }

  lemma ResumeEnds<T>(p: Bytes -> Option<(T, Bytes)>, xs: seq<T>, d: Bytes, r: Option<(seq<T>, Bytes)>)
    ensures Resume([], r) == r
    ensures Resume(xs, ParseMany(p, 0, d)) == Some((xs, d))
  {
    if r.Some? {
      assert [] + r.value.0 == r.value.0;
    }
    assert xs + [] == xs;
  }

  /** One iteration of a decoding loop. */
  lemma ResumeStep<T>(p: Bytes -> Option<(T, Bytes)>, xs: seq<T>, n: nat, d: Bytes)
    requires n > 0
    ensures match p(d)
            case None => Resume(xs, ParseMany(p, n, d)) == None
            case Some((x, d1)) => Resume(xs, ParseMany(p, n, d)) == Resume(xs + [x], ParseMany(p, n - 1, d1))
  {
    if p(d).Some? {
      var (x, d1) := p(d).value;
      if ParseMany(p, n - 1, d1).Some? {
        var (ys, _) := ParseMany(p, n - 1, d1).value;
        assert xs + ([x] + ys) == xs + [x] + ys;
      }
    }
  }

  /** If every item parses back from its encoding whatever follows, so does the list. */
  lemma {:induction false} ManyRoundTrip<S, T>(f: S -> Bytes, p: Bytes -> Option<(T, Bytes)>, xs: seq<S>, ys: seq<T>,
          tail: Bytes)
    requires |xs| == |ys|
    requires forall i: nat, t: Bytes :: i < |xs| ==> p(f(xs[i]) + t) == Some((ys[i], t))
    ensures ParseMany(p, |xs|, FlatMap(f, xs) + tail) == Some((ys, tail))
  {
    if xs == [] {
      assert FlatMap(f, xs) + tail == tail;
    } else {
      forall i: nat, t: Bytes | i < |xs[1..]|
        ensures p(f(xs[1..][i]) + t) == Some((ys[1..][i], t))
      {
        assert xs[1..][i] == xs[i + 1] && ys[1..][i] == ys[i + 1];
      }
      ManyRoundTrip(f, p, xs[1..], ys[1..], tail);
      assert FlatMap(f, xs) + tail == f(xs[0]) + (FlatMap(f, xs[1..]) + tail);
      assert p(f(xs[0]) + (FlatMap(f, xs[1..]) + tail)) == Some((ys[0], FlatMap(f, xs[1..]) + tail));
      assert ys == [ys[0]] + ys[1..];
    }
  }

  /** If every parsed item satisfies a property and its bytes are its encoding, the same goes for a parsed list. */
  lemma {:induction false} ManyParsed<T(!new)>(f: T -> Bytes, p: Bytes -> Option<(T, Bytes)>, good: T -> bool, n: nat,
          d: Bytes)
    requires forall d: Bytes :: p(d).Some? ==> good(p(d).value.0) && d == f(p(d).value.0) + p(d).value.1
    requires ParseMany(p, n, d).Some?
    ensures var (xs, rest) := ParseMany(p, n, d).value;
            (forall x :: x in xs ==> good(x)) && d == FlatMap(f, xs) + rest
  {
    if n == 0 {
      assert d == FlatMap(f, []) + d;
    } else {
      var (x, d1) := p(d).value;
      var (xs, rest) := ParseMany(p, n - 1, d1).value;
      ManyParsed(f, p, good, n - 1, d1);
      assert ([x] + xs)[1..] == xs;
      assert f(x) + (FlatMap(f, xs) + rest) == FlatMap(f, [x] + xs) + rest;
    }
  }

  // ----- the library sort -----

  ghost predicate WeakOrder<T(!new)>(less: (T, T) -> bool) {
    && (forall x, y :: less(x, y) ==> !less(y, x))
    && (forall x, y, z :: !less(y, x) && !less(z, y) ==> !less(z, x))
  }

  ghost predicate SortedBy<T>(less: (T, T) -> bool, s: seq<T>) {
    forall i, j :: 0 <= i < j < |s| ==> !less(s[j], s[i])
  }

  /** sort.Slice: some sorted permutation, in an unspecified order among equals. */
  method Sort<T(!new)>(a: seq<T>, less: (T, T) -> bool) returns (b: seq<T>)
    requires WeakOrder(less)
    ensures multiset(b) == multiset(a) && |b| == |a| && SortedBy(less, b)
  {
    b := [];
    for i := 0 to |a|
      invariant multiset(b) == multiset(a[..i]) && |b| == i && SortedBy(less, b)
    {
      var j := 0;
      while j < |b| && !less(a[i], b[j])
        invariant j <= |b| && forall k :: 0 <= k < j ==> !less(a[i], b[k])
      {
        j := j + 1;
      }
      InsertKeepsSorted(less, b, j, a[i]);
      assert a[..i + 1] == a[..i] + [a[i]];
      b := b[..j] + [a[i]] + b[j..];
    }
    assert a[..|a|] == a;
  }

  lemma InsertKeepsSorted<T(!new)>(less: (T, T) -> bool, b: seq<T>, j: nat, x: T)
    requires WeakOrder(less) && SortedBy(less, b) && j <= |b|
    requires forall k :: 0 <= k < j ==> !less(x, b[k])
    requires j < |b| ==> less(x, b[j])
    ensures SortedBy(less, b[..j] + [x] + b[j..])
    ensures multiset(b[..j] + [x] + b[j..]) == multiset(b) + multiset([x])
  {
    assert b == b[..j] + b[j..];
    var c := b[..j] + [x] + b[j..];
    forall k, l | 0 <= k < l < |c|
      ensures !less(c[l], c[k])
    {
      if k == j {
        AboveStaysAbove(less, b, j, x, l - 1);
      } else if l != j {
        var k', l' := if k < j then k else k - 1, if l < j then l else l - 1;
        assert c[k] == b[k'] && c[l] == b[l'];
      }
    }
  }

  lemma AboveStaysAbove<T(!new)>(less: (T, T) -> bool, b: seq<T>, j: nat, x: T, k: nat)
    requires WeakOrder(less) && SortedBy(less, b) && j <= k < |b| && less(x, b[j])
    ensures !less(b[k], x)
  {
    assert !less(b[j], x);
    if j < k {
      assert !less(b[k], b[j]);
    }
  }

  /** Ranging over a map or set: its elements, each once, in no particular order. */
  method ListSet<T(==)>(s: set<T>) returns (l: seq<T>)
    ensures NoRepeats(l) && Elements(l) == s && |l| == |s|
  {
    l := [];
    var todo := s;
    while todo != {}
      invariant todo <= s && Elements(l) == s - todo && |l| + |todo| == |s| && NoRepeats(l)
      decreases |todo|
    {
      var x :| x in todo;
      assert x in l <==> x in Elements(l);
      assert Elements(l + [x]) == Elements(l) + {x};
      l, todo := l + [x], todo - {x};
    }
  }

  /** sort.Strings on the keys of a map: the ascending listing, however the keys were enumerated. */
  method SortStrings(keys: set<Bytes>) returns (l: seq<Bytes>)
    ensures l == Listing(keys)
  {
    var unsorted := ListSet(keys);
    LessIsStrictOrder();
    l := Sort(unsorted, Less);
    PermutationKeepsElements(unsorted, l);
    assert Ascending(l);
    AscendingUnique(l, Listing(keys));
  }

  lemma PermutationKeepsElements<T>(a: seq<T>, b: seq<T>)
    requires multiset(a) == multiset(b)
    ensures Elements(a) == Elements(b)
    ensures (forall i, j :: 0 <= i < j < |a| ==> a[i] != a[j]) ==> forall i, j :: 0 <= i < j < |b| ==> b[i] != b[j]
  {
    forall x
      ensures x in a <==> x in b
    {
      assert x in a <==> x in multiset(a);
      assert x in b <==> x in multiset(b);
    }
    if forall i, j :: 0 <= i < j < |a| ==> a[i] != a[j] {
      forall i, j | 0 <= i < j < |b|
        ensures b[i] != b[j]
      {
        if b[i] == b[j] {
          TwiceInSequence(b, i, j);
          OnceInSequence(a, b[i]);
        }
      }
    }
  }

  lemma TwiceInSequence<T>(b: seq<T>, i: nat, j: nat)
    requires i < j < |b| && b[i] == b[j]
    ensures multiset(b)[b[i]] >= 2
  {
    assert b == b[..i] + [b[i]] + b[i + 1..j] + [b[j]] + b[j + 1..];
  }

  lemma {:induction false} OnceInSequence<T>(a: seq<T>, x: T)
    requires forall i, j :: 0 <= i < j < |a| ==> a[i] != a[j]
    ensures multiset(a)[x] <= 1
  {
    if a != [] {
      OnceInSequence(a[1..], x);
      assert a == [a[0]] + a[1..];
      if a[0] == x {
        assert x !in a[1..];
        assert x !in multiset(a[1..]);
      }
    }
  }

  /** A strictly sorted sequence is the only sorted order of its elements. */
  lemma {:induction false} SortUnique<T(!new)>(less: (T, T) -> bool, a: seq<T>, b: seq<T>)
    requires WeakOrder(less) && multiset(a) == multiset(b) && SortedBy(less, b)
    requires forall i, j :: 0 <= i < j < |a| ==> less(a[i], a[j])
    ensures a == b
  {
    assert |multiset(a)| == |a| && |multiset(b)| == |b|;
    if a != [] {
      FirstIsSame(less, a, b);
      TailMultiset(a);
      TailMultiset(b);
      SortUnique(less, a[1..], b[1..]);
    }
  }

  lemma TailMultiset<T>(s: seq<T>)
    requires s != []
    ensures s == [s[0]] + s[1..] && multiset(s[1..]) == multiset(s) - multiset{s[0]}
  {
    assert s == [s[0]] + s[1..];
  }

  lemma FirstIsSame<T(!new)>(less: (T, T) -> bool, a: seq<T>, b: seq<T>)
    requires WeakOrder(less) && multiset(a) == multiset(b) && SortedBy(less, b) && a != [] && b != []
    requires forall i, j :: 0 <= i < j < |a| ==> less(a[i], a[j])
    ensures a[0] == b[0]
  {
    assert b[0] in multiset(a) && a[0] in multiset(b);
    var k :| 0 <= k < |a| && a[k] == b[0];
    var j :| 0 <= j < |b| && b[j] == a[0];
  }

  // ----- the library search -----

  /** sort.Search's binary search over [i, j), whatever f is. */
  function SearchFrom(f: int -> bool, i: nat, j: nat): (k: nat)
    requires i <= j
    ensures i <= k <= j
    decreases j - i
  {
    if i == j then i
    else
      var h := (i + j) / 2;
      if f(h) then SearchFrom(f, i, h) else SearchFrom(f, h + 1, j)
  }

  method Search(n: nat, f: int -> bool) returns (k: nat)
    ensures k == SearchFrom(f, 0, n)
  {
    var i, j := 0, n;
    while i < j
      invariant i <= j && SearchFrom(f, i, j) == SearchFrom(f, 0, n)
    {
      var h := (i + j) / 2;
      if f(h) {
        j := h;
      } else {
        i := h + 1;
      }
    }
    k := i;
  }

  /** When f switches from false to true once, the search finds the switch. */
  lemma {:induction false} SearchFinds(f: int -> bool, i: nat, j: nat)
    requires i <= j && forall a, b :: i <= a < b < j && f(a) ==> f(b)
    ensures var k := SearchFrom(f, i, j);
            (forall a :: i <= a < k ==> !f(a)) && (forall a :: k <= a < j ==> f(a))
    decreases j - i
  {
    if i < j {
      var h := (i + j) / 2;
      if f(h) {
        SearchFinds(f, i, h);
      } else {
        SearchFinds(f, h + 1, j);
      }
    }
  }

  // ----- filtering -----

  function Keep<T>(p: T -> bool, s: seq<T>): (r: seq<T>)
    ensures |r| <= |s|
  {
    if s == [] then []
    else if p(s[|s| - 1]) then Keep(p, s[..|s| - 1]) + [s[|s| - 1]]
    else Keep(p, s[..|s| - 1])
  }

  lemma KeepSnoc<T>(p: T -> bool, s: seq<T>, x: T)
    ensures Keep(p, s + [x]) == if p(x) then Keep(p, s) + [x] else Keep(p, s)
  {
    assert (s + [x])[..|s + [x]| - 1] == s;
  }

  lemma Snoc<T>(s: seq<T>)
    requires s != []
    ensures s == s[..|s| - 1] + [s[|s| - 1]]
  {
  }

  lemma {:induction false} KeepHolds<T>(p: T -> bool, s: seq<T>)
    ensures forall x :: x in Keep(p, s) <==> x in s && p(x)
  {
    if s != [] {
      var t := s[..|s| - 1];
      KeepHolds(p, t);
      assert s == t + [s[|s| - 1]];
    }
  }

  lemma {:induction false} KeepAppend<T>(p: T -> bool, s: seq<T>, t: seq<T>)
    ensures Keep(p, s + t) == Keep(p, s) + Keep(p, t)
  {
    if t == [] {
      assert s + t == s;
    } else {
      KeepAppend(p, s, t[..|t| - 1]);
      assert (s + t)[..|s + t| - 1] == s + t[..|t| - 1];
    }
  }

  lemma {:induction false} KeepEverything<T>(p: T -> bool, s: seq<T>)
    requires forall x :: x in s ==> p(x)
    ensures Keep(p, s) == s
  {
    if s != [] {
      var t := s[..|s| - 1];
      assert s == t + [s[|s| - 1]];
      KeepEverything(p, t);
    }
  }

  lemma {:induction false} KeepNothing<T>(p: T -> bool, s: seq<T>)
    requires forall x :: x in s ==> !p(x)
    ensures Keep(p, s) == []
  {
    if s != [] {
      KeepNothing(p, s[..|s| - 1]);
    }
  }

  lemma {:induction false} KeepSwap<T>(p: T -> bool, q: T -> bool, s: seq<T>)
    ensures Keep(p, Keep(q, s)) == Keep(q, Keep(p, s))
  {
    if s != [] {
      hide Keep;
      var t, x := s[..|s| - 1], s[|s| - 1];
      Snoc(s);
      KeepSwap(p, q, t);
      KeepSnoc(p, t, x);
      KeepSnoc(q, t, x);
      KeepSnoc(p, Keep(q, t), x);
      KeepSnoc(q, Keep(p, t), x);
    }
  }

  // ----- sequences without repetition, and sizes -----

  ghost predicate NoRepeats<T>(s: seq<T>) {
    forall i, j :: 0 <= i < j < |s| ==> s[i] != s[j]
  }

  lemma {:induction false} NoRepeatsMultiset<T>(s: seq<T>)
    requires NoRepeats(s)
    ensures multiset(s) == multiset(Elements(s)) && |Elements(s)| == |s|
  {
    forall x
      ensures multiset(s)[x] == multiset(Elements(s))[x]
    {
      OnceInSequence(s, x);
      assert x in s <==> x in multiset(s);
    }
    assert multiset(s) == multiset(Elements(s));
    assert |multiset(s)| == |s| && |multiset(Elements(s))| == |Elements(s)|;
  }

  lemma {:induction false} KeepNoRepeats<T>(p: T -> bool, s: seq<T>)
    requires NoRepeats(s)
    ensures NoRepeats(Keep(p, s))
  {
    if s != [] {
      var t := s[..|s| - 1];
      KeepNoRepeats(p, t);
      KeepHolds(p, t);
      assert s[|s| - 1] !in t;
    }
  }

  lemma {:induction false} KeepLosesOne<T>(p: T -> bool, s: seq<T>, i: nat)
    requires i < |s| && forall j :: 0 <= j < |s| ==> (p(s[j]) <==> j != i)
    ensures |Keep(p, s)| == |s| - 1
  {
    hide Keep;
    var a, b := s[..i], s[i + 1..];
    assert s == a + [s[i]] + b;
    KeepAppend(p, a + [s[i]], b);
    KeepAppend(p, a, [s[i]]);
    KeepEverything(p, a);
    KeepEverything(p, b);
    KeepNothing(p, [s[i]]);
  }

  lemma SmallerSet<T>(a: set<T>, b: set<T>)
    requires a <= b
    ensures |a| <= |b| && (|a| == |b| ==> a == b)
  {
    assert b == a + (b - a);
  }

  // ----- first occurrences -----

  /** The first occurrence of every element. */
  function FirstOnly<T(==)>(s: seq<T>): (r: seq<T>)
    ensures |r| <= |s|
  {
    if s == [] then []
    else
      var r := FirstOnly(s[..|s| - 1]);
      if s[|s| - 1] in r then r else r + [s[|s| - 1]]
  }

  lemma FirstOnlySnoc<T>(s: seq<T>, x: T)
    ensures FirstOnly(s + [x]) == if x in FirstOnly(s) then FirstOnly(s) else FirstOnly(s) + [x]
  {
    assert (s + [x])[..|s + [x]| - 1] == s;
  }

  lemma {:induction false} FirstOnlyElements<T>(s: seq<T>)
    ensures NoRepeats(FirstOnly(s)) && Elements(FirstOnly(s)) == Elements(s)
  {
    if s != [] {
      var t, x := s[..|s| - 1], s[|s| - 1];
      FirstOnlyElements(t);
      assert s == t + [x];
      assert Elements(s) == Elements(t) + {x};
      assert x in FirstOnly(t) <==> x in Elements(FirstOnly(t));
      if x !in FirstOnly(t) {
        assert Elements(FirstOnly(t) + [x]) == Elements(FirstOnly(t)) + {x};
      }
    }
  }

  lemma {:induction false} FirstOnlyPrefix<T>(s: seq<T>, k: nat)
    requires k <= |s|
    ensures FirstOnly(s[..k]) <= FirstOnly(s)
  {
    if k == |s| {
      assert s[..k] == s;
    } else {
      FirstOnlyPrefix(s[..|s| - 1], k);
      assert s[..|s| - 1][..k] == s[..k];
    }
  }

  lemma {:induction false} FirstOnlySame<T>(a: seq<T>, b: seq<T>, y: seq<T>)
    requires FirstOnly(a) == FirstOnly(b)
    ensures FirstOnly(a + y) == FirstOnly(b + y)
  {
    hide FirstOnly;
    if y == [] {
      assert a + y == a && b + y == b;
    } else {
      var t, x := y[..|y| - 1], y[|y| - 1];
      FirstOnlySame(a, b, t);
      FirstOnlySnoc(a + t, x);
      FirstOnlySnoc(b + t, x);
      assert a + y == (a + t) + [x] && b + y == (b + t) + [x];
    }
  }

  /** What has occurred before may be left out. */
  lemma {:induction false} FirstOnlySkips<T>(a: seq<T>, p: T -> bool, y: seq<T>)
    requires forall x :: x in y && !p(x) ==> x in a
    ensures FirstOnly(a + Keep(p, y)) == FirstOnly(a + y)
  {
    hide FirstOnly, Keep;
    if y == [] {
      KeepNothing(p, y);
    } else {
      var t, x := y[..|y| - 1], y[|y| - 1];
      Snoc(y);
      FirstOnlySkips(a, p, t);
      KeepSnoc(p, t, x);
      FirstOnlySnoc(a + t, x);
      assert a + y == (a + t) + [x];
      if p(x) {
        FirstOnlySnoc(a + Keep(p, t), x);
        assert a + (Keep(p, t) + [x]) == (a + Keep(p, t)) + [x];
      } else {
        OccursFirst(a + t, x);
      }
    }
  }

  lemma OccursFirst<T>(s: seq<T>, x: T)
    ensures x in FirstOnly(s) <==> x in s
  {
    FirstOnlyElements(s);
    assert x in Elements(FirstOnly(s)) <==> x in Elements(s);
  }
}
