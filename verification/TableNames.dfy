/** The order of table file names: cmd/allidbd/storage_service.go writes the flush number in decimal, without padding,
    and reads the files by name. */
module TableNames {
  import opened Prelude
  import opened Storage

  // ----- numbers by their decimal digits -----

  function Width(n: nat): (w: nat)
    ensures w >= 1
  {
    if n < 10 then 1 else 1 + Width(n / 10)
  }

  /** n without its last k digits. */
  function Chop(n: nat, k: nat): nat {
    if k == 0 then n else Chop(n / 10, k - 1)
  }

  function Pow10(k: nat): (p: nat)
    ensures p >= 1
  {
    if k == 0 then 1 else 10 * Pow10(k - 1)
  }

  /** The shorter number does not exceed the leading digits of the longer one; equally wide numbers are compared as
      they are. */
  predicate SortsBefore(a: nat, b: nat) {
    var v, w := Width(a), Width(b);
    if v == w then a < b
    else if v < w then a <= Chop(b, w - v)
    else Chop(a, v - w) < b
  }

  lemma {:induction false} DecimalWidth(n: nat)
    ensures |Decimal(n)| == Width(n)
  {
    if n >= 10 {
      DecimalWidth(n / 10);
    }
  }

  ghost predicate Digits(s: Bytes) {
    forall i :: 0 <= i < |s| ==> 48 <= s[i] <= 57
  }

  lemma {:induction false} DecimalDigits(n: nat)
    ensures Digits(Decimal(n))
  {
    if n >= 10 {
      DecimalDigits(n / 10);
    }
  }

  /** The decimal form of the leading digits is a prefix, and more digits follow. */
  lemma {:induction false} ChopSplits(n: nat, k: nat) returns (rest: Bytes)
    requires k < Width(n)
    ensures Decimal(n) == Decimal(Chop(n, k)) + rest && |rest| == k && Digits(rest) && Width(Chop(n, k)) == Width(n) - k
  {
    if k == 0 {
      rest := [];
      assert Decimal(n) == Decimal(n) + [];
    } else {
      var front := ChopSplits(n / 10, k - 1);
      rest := front + [48 + n % 10];
      assert Decimal(n) == Decimal(Chop(n, k)) + front + [48 + n % 10];
    }
  }

  // ----- the order of byte strings -----

  lemma {:induction false} LessAppend(p: Bytes, q: Bytes, x: Bytes, y: Bytes)
    requires |p| == |q| && Less(p, q)
    ensures Less(p + x, q + y)
  {
    if p[0] == q[0] {
      LessAppend(p[1..], q[1..], x, y);
      assert (p + x)[1..] == p[1..] + x && (q + y)[1..] == q[1..] + y;
    }
  }

  lemma {:induction false} LessPrefix(p: Bytes, x: Bytes, y: Bytes)
    ensures Less(p + x, p + y) <==> Less(x, y)
  {
    if p == [] {
      assert p + x == x && p + y == y;
    } else {
      LessPrefix(p[1..], x, y);
      assert (p + x)[1..] == p[1..] + x && (p + y)[1..] == p[1..] + y;
    }
  }

  lemma OneDigit(x: byte, y: byte)
    requires x < y
    ensures Less([x], [y])
  {
  }

  /** Equally wide numbers. */
  lemma {:induction false} DecimalOrder(a: nat, b: nat)
    requires Width(a) == Width(b) && a < b
    ensures Less(Decimal(a), Decimal(b))
  {
    hide Less;
    if a < 10 || b < 10 {
      assert a < 10 && b < 10;
      OneDigit(48 + a, 48 + b);
    } else if a / 10 == b / 10 {
      OneDigit(48 + a % 10, 48 + b % 10);
      LessPrefix(Decimal(a / 10), [48 + a % 10], [48 + b % 10]);
    } else {
      DecimalOrder(a / 10, b / 10);
      DecimalWidth(a / 10);
      DecimalWidth(b / 10);
      LessAppend(Decimal(a / 10), Decimal(b / 10), [48 + a % 10], [48 + b % 10]);
    }
  }

  // ----- the order of names -----

  lemma SuffixFirst(rest: Bytes)
    requires |rest| > 0 && Digits(rest)
    ensures Less(SUFFIX, rest + SUFFIX)
  {
    assert (rest + SUFFIX)[0] == rest[0];
  }

  lemma {:induction false} NamesByNumber(a: nat, b: nat)
    ensures Less(TableName(a), TableName(b)) <==> Less(Decimal(a) + SUFFIX, Decimal(b) + SUFFIX)
  {
    hide Less, Decimal;
    LessPrefix(PREFIX, Decimal(a) + SUFFIX, Decimal(b) + SUFFIX);
    assert TableName(a) == PREFIX + (Decimal(a) + SUFFIX) && TableName(b) == PREFIX + (Decimal(b) + SUFFIX);
  }

  lemma {:induction false} WiderName(a: nat, b: nat)
    requires Width(a) < Width(b)
    ensures Less(TableName(a), TableName(b)) <==> a <= Chop(b, Width(b) - Width(a))
    ensures Less(TableName(b), TableName(a)) <==> Chop(b, Width(b) - Width(a)) < a
  {
    hide Less, Decimal, Width, Chop;
    var rest := ChopSplits(b, Width(b) - Width(a));
    var c := Chop(b, Width(b) - Width(a));
    DecimalWidth(a);
    DecimalWidth(c);
    NamesByNumber(a, b);
    NamesByNumber(b, a);
    var x, y := Decimal(a) + SUFFIX, Decimal(b) + SUFFIX;
    assert y == Decimal(c) + (rest + SUFFIX);
    if a < c {
      DecimalOrder(a, c);
      LessAppend(Decimal(a), Decimal(c), SUFFIX, rest + SUFFIX);
    } else if c < a {
      DecimalOrder(c, a);
      LessAppend(Decimal(c), Decimal(a), rest + SUFFIX, SUFFIX);
    } else {
      SuffixFirst(rest);
      LessPrefix(Decimal(a), SUFFIX, rest + SUFFIX);
    }
    OneWay(x, y);
  }

  lemma OneWay(x: Bytes, y: Bytes)
    ensures !(Less(x, y) && Less(y, x))
  {
    if Less(x, y) {
      LessAsymmetric(x, y);
    }
  }

  lemma {:induction false} SameWidthName(a: nat, b: nat)
    requires Width(a) == Width(b)
    ensures Less(TableName(a), TableName(b)) <==> a < b
  {
    hide Less, Decimal, Width;
    DecimalWidth(a);
    DecimalWidth(b);
    NamesByNumber(a, b);
    if a < b {
      DecimalOrder(a, b);
      LessAppend(Decimal(a), Decimal(b), SUFFIX, SUFFIX);
    } else if b < a {
      DecimalOrder(b, a);
      LessAppend(Decimal(b), Decimal(a), SUFFIX, SUFFIX);
    }
    OneWay(Decimal(a) + SUFFIX, Decimal(b) + SUFFIX);
  }

  /** The exact order of table names, for all numbers. */
  lemma {:induction false} NameOrder(a: nat, b: nat)
    ensures Less(TableName(a), TableName(b)) <==> SortsBefore(a, b)
  {
    hide Less, TableName, Width, Chop;
    if Width(a) == Width(b) {
      SameWidthName(a, b);
    }
    if Width(a) < Width(b) {
      WiderName(a, b);
    }
    if Width(b) < Width(a) {
      WiderName(b, a);
    }
  }

  lemma {:induction false} PowerWidth(w: nat)
    requires w >= 1
    ensures Width(Pow10(w)) == w + 1 && Width(Pow10(w) - 1) == w && Chop(Pow10(w), 1) == Pow10(w - 1)
  {
    if w > 1 {
      PowerWidth(w - 1);
      assert (Pow10(w) - 1) / 10 == Pow10(w - 1) - 1;
    } else {
      assert Pow10(1) == 10 && Pow10(0) == 1;
    }
    assert Pow10(w) / 10 == Pow10(w - 1);
    assert Chop(Pow10(w), 1) == Chop(Pow10(w - 1), 0);
  }

  /** At every gain of a digit the newer table sorts before its predecessor. */
  lemma {:induction false} DigitGained(w: nat)
    requires w >= 1
    ensures Less(TableName(Pow10(w)), TableName(Pow10(w) - 1))
  {
    hide Less, TableName, Pow10, Width, Chop;
    PowerWidth(w);
    PowerGrows(w);
    NameOrder(Pow10(w), Pow10(w) - 1);
  }

  lemma PowerGrows(w: nat)
    requires w >= 1
    ensures Pow10(w - 1) < Pow10(w) - 1
  {
  }
}
