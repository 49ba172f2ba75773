/** Size and version conversions used when describing the machine: byte
    counts shown in mebibytes and in the largest binary unit they reach, bit
    counts turned into byte counts, and the CUDA driver version number turned
    into its dotted form. */
module Systems {
  import opened Common

  // ---------------------------------------------------------------------
  // Mebibytes
  // ---------------------------------------------------------------------

  const Mebi: nat := 1024 * 1024

  /** `n` as a whole number of mebibytes (rounded down, also for negative
      `n`), followed by "m".  Floor division by a positive divisor is Dafny's
      `/`. */
  function Bytes2Mega(n: int): (s: string)
    ensures |s| >= 2 && s[|s| - 1] == 'm'
  {
    IntToDecimal(n / 1024 / 1024) + "m"
  }

  /** The text read back: the number before "m" is the largest `q` with
      `q` mebibytes not exceeding `n`. */
  lemma Bytes2MegaReads(n: int)
    ensures var s := Bytes2Mega(n);
      ParseInt(s[..|s| - 1]).Some? &&
      var q := ParseInt(s[..|s| - 1]).value;
      q * Mebi <= n < q * Mebi + Mebi
  {
    var s := Bytes2Mega(n);
    var q := n / 1024 / 1024;
    assert s[..|s| - 1] == IntToDecimal(q);
    IntToDecimalRoundTrip(q);
    FloorDivTwice(n, 1024, 1024);
  }

  /** Dividing twice rounds down like dividing once by the product. */
  lemma FloorDivTwice(n: int, a: nat, b: nat)
    requires a > 0 && b > 0
    ensures var q := n / a / b; q * (a * b) <= n < q * (a * b) + a * b
  {
    var r1 := n / a;
    var q := r1 / b;
    assert a * r1 <= n < a * r1 + a;
    assert b * q <= r1 < b * q + b;
    assert a * (b * q) <= a * r1 by {
      MulMono(a, b * q, r1);
    }
    assert a * r1 + a <= a * (b * q) + a * b by {
      MulMono(a, r1 + 1, b * q + b);
    }
  }

  lemma MulMono(a: nat, x: int, y: int)
    requires x <= y
    ensures a * x <= a * y
  {
  }

  // ---------------------------------------------------------------------
  // Binary units
  // ---------------------------------------------------------------------

  /** The unit symbols, bytes first, then each 1024 times the previous. */
  const Units: string := "BkmGTPEZY"

  /** 2 to the power `k`, the value of `1 << k`. */
  function Pow2(k: nat): (r: nat)
    ensures r >= 1
  {
    if k == 0 then 1 else 2 * Pow2(k - 1)
  }

  lemma {:induction false} Pow2Mono(a: nat, b: nat)
    requires a <= b
    ensures Pow2(a) <= Pow2(b)
    decreases b - a
  {
    if a < b {
      Pow2Mono(a, b - 1);
    }
  }

  /** The divisor of the unit at index `i` of `Units`: 1024 times that of
      the previous unit. */
  function Scale(i: nat): (r: nat)
    ensures r >= 1
  {
    if i == 0 then 1 else 1024 * Scale(i - 1)
  }

  lemma {:induction false} ScaleMono(i: nat, j: nat)
    requires i <= j
    ensures Scale(i) <= Scale(j)
    decreases j - i
  {
    if i < j {
      ScaleMono(i, j - 1);
    }
  }

  /** The divisor of unit `i` is `1 << 10 * i`. */
  lemma {:induction false} ScaleIsShift(i: nat)
    ensures Pow2(10 * i) == Scale(i)
  {
    if i > 0 {
      var a := 10 * (i - 1);
      ScaleIsShift(i - 1);
      Pow2Shift(a, 10);
      assert Pow2(10) == 1024;
      assert 10 * i == a + 10;
    }
  }

  function Abs(n: int): (r: nat)
    ensures r == n || r == -n
  {
    if n < 0 then -n else n
  }

  /** The number of units from index `i` to the last whose divisor does not
      exceed `a`. */
  function RankFrom(a: nat, i: nat): nat
    requires i >= 1
    decreases 9 - i
  {
    if i > 8 then 0 else (if Scale(i) <= a then 1 else 0) + RankFrom(a, i + 1)
  }

  /** The index in `Units` of the unit `n` bytes are shown in: the number of
      units beyond bytes whose divisor `|n|` reaches. */
  function Rank(n: int): (k: nat) {
    RankFrom(Abs(n), 1)
  }

  /** The reached units form an unbroken run from index `i`: the last of them
      is reached and the one after it is not. */
  lemma {:induction false} RankFromBounds(a: nat, i: nat)
    requires 1 <= i <= 9
    ensures var r := RankFrom(a, i);
      i + r <= 9 && (r > 0 ==> Scale(i + r - 1) <= a) && (i + r <= 8 ==> a < Scale(i + r))
    decreases 9 - i
  {
    if i <= 8 {
      var next := i + 1;
      RankFromBounds(a, next);
      var r' := RankFrom(a, next);
      if Scale(i) <= a {
        assert RankFrom(a, i) == 1 + r';
        assert i + (1 + r') == next + r';
      } else {
        RankFromZero(a, i);
      }
    }
  }

  /** Once a divisor exceeds `a`, so do all later ones. */
  lemma {:induction false} RankFromZero(a: nat, i: nat)
    requires 1 <= i <= 9 && (i <= 8 ==> a < Scale(i))
    ensures RankFrom(a, i) == 0
    decreases 9 - i
  {
    if i <= 8 {
      if i + 1 <= 8 {
        ScaleMono(i, i + 1);
      }
      RankFromZero(a, i + 1);
    }
  }

  /** `|n|` reaches the divisor of its unit and not that of the next unit;
      bytes are chosen exactly when `|n|` is under 1024. */
  lemma RankBounds(n: int)
    ensures Rank(n) < |Units|
    ensures Scale(Rank(n)) <= Abs(n) || Rank(n) == 0
    ensures Rank(n) + 1 < |Units| ==> Abs(n) < Scale(Rank(n) + 1)
    ensures Rank(n) == 0 <==> Abs(n) < 1024
  {
    var a := Abs(n);
    RankFromBounds(a, 1);
    var r := RankFrom(a, 1);
    assert Scale(1) == 1024;
    if r > 0 {
      ScaleMono(1, r);
    }
  }

  /** The unit is determined by the bounds: a unit whose divisor `|n|`
      reaches, when `|n|` does not reach the next one, is the unit of `n`. */
  lemma RankIs(n: int, j: nat)
    requires j < |Units| && (j == 0 || Scale(j) <= Abs(n))
    requires j + 1 < |Units| ==> Abs(n) < Scale(j + 1)
    ensures Rank(n) == j
  {
    RankBounds(n);
    var r := Rank(n);
    if r < j {
      ScaleMono(r + 1, j);
    } else if r > j {
      ScaleMono(j + 1, r);
    }
  }

  /** A byte count in its largest reached unit: the count, the unit's
      divisor (the value shown is their quotient) and the unit's symbol. */
  datatype Human = Human(count: int, divisor: nat, symbol: char)

  /** The reading of `n` bytes in the unit of `Rank(n)`. */
  function HumanOf(n: int): (h: Human)
    ensures h.count == n && h.divisor >= 1 && h.symbol in Units
  {
    RankBounds(n);
    Human(n, Scale(Rank(n)), Units[Rank(n)])
  }

  /** Bytes are shown unscaled; in any other unit the value shown is at
      least one, and below 1024 unless the unit is the last one. */
  lemma HumanOfValue(n: int)
    ensures Rank(n) == 0 <==> HumanOf(n) == Human(n, 1, 'B')
    ensures Rank(n) > 0 ==> HumanOf(n).divisor <= Abs(n)
    ensures Rank(n) + 1 < |Units| ==> Abs(n) < 1024 * HumanOf(n).divisor
  {
    RankBounds(n);
    var k := Rank(n);
    UnitsDistinct();
  }

  lemma {:induction false} Pow2Shift(a: nat, b: nat)
    ensures Pow2(a + b) == Pow2(a) * Pow2(b)
    decreases b
  {
    if b > 0 {
      Pow2Shift(a, b - 1);
      assert Pow2(a + b) == 2 * Pow2(a + b - 1);
    }
  }

  /** The divisor of every unit beyond bytes, keyed by its symbol, built as
      `1 << 10 * (i + 1)` for the `i`-th of them. */
  method Prefixes() returns (prefix: map<char, nat>)
    ensures forall t | 1 <= t < |Units| :: Units[t] in prefix && prefix[Units[t]] == Scale(t)
    ensures forall c | c in prefix :: c in Units[1..]
  {
    UnitsDistinct();
    prefix := map[];
    var i := 0;
    while i < |Units| - 1
      invariant 0 <= i <= |Units| - 1
      invariant forall t | 1 <= t <= i :: Units[t] in prefix && prefix[Units[t]] == Scale(t)
      invariant forall c | c in prefix :: c in Units[1..]
    {
      var next := i + 1;
      var symbol := Units[next];
      var divisor := Pow2(next * 10);
      ScaleIsShift(next);
      assert Units[1..][i] == symbol;
      var prefix' := prefix[symbol := divisor];
      forall t | 1 <= t <= next
        ensures Units[t] in prefix' && prefix'[Units[t]] == Scale(t)
      {
        if t < next {
          assert UnitIndex(Units[t]) == t;
        }
      }
      prefix := prefix';
      i := next;
    }
  }

  /** The position of a unit symbol in `Units`. */
  function UnitIndex(c: char): nat {
    if c == 'B' then 0 else if c == 'k' then 1 else if c == 'm' then 2
    else if c == 'G' then 3 else if c == 'T' then 4 else if c == 'P' then 5
    else if c == 'E' then 6 else if c == 'Z' then 7 else 8
  }

  /** No symbol is used for two units: each one's position reads it back. */
  lemma UnitsDistinct()
    ensures forall i | 0 <= i < |Units| :: UnitIndex(Units[i]) == i
  {
    assert Units == ['B', 'k', 'm', 'G', 'T', 'P', 'E', 'Z', 'Y'];
  }

  /** `n` bytes in the largest unit whose divisor `|n|` reaches, scanning the
      units from the largest down; bytes when none is reached. */
  method Bytes2Human(n: int) returns (h: Human)
    ensures h == HumanOf(n)
  {
    var prefix := Prefixes();
    var j := |Units| - 1;
    while j >= 1
      invariant 0 <= j < |Units|
      invariant j + 1 < |Units| ==> Abs(n) < Scale(j + 1)
    {
      var symbol := Units[j];
      if Abs(n) >= prefix[symbol] {
        RankIs(n, j);
        return Human(n, prefix[symbol], symbol);
      }
      assert Abs(n) < Scale(j);
      j := j - 1;
    }
    RankIs(n, 0);
    h := Human(n, 1, Units[0]);
  }

  // ---------------------------------------------------------------------
  // Sizes of bytes and of bits
  // ---------------------------------------------------------------------

  /** A size with its two renderings. */
  datatype Size = Size(value: int, mega: string, human: Human)

  /** A byte count with its renderings. */
  method BytesSize(value: int) returns (s: Size)
    ensures s == Size(value, Bytes2Mega(value), HumanOf(value))
  {
    var human := Bytes2Human(value);
    s := Size(value, Bytes2Mega(value), human);
  }

  /** The whole bytes in `bits` bits, rounded down. */
  function BitsToBytes(bits: int): (b: int)
    ensures 8 * b <= bits < 8 * b + 8
  {
    bits / 8
  }

  /** A bit count, rendered as the whole bytes it holds. */
  method BitsSize(value: int) returns (s: Size)
    ensures s.value == value
    ensures s.mega == Bytes2Mega(BitsToBytes(value)) && s.human == HumanOf(BitsToBytes(value))
  {
    var bytes := BitsToBytes(value);
    var human := Bytes2Human(bytes);
    s := Size(value, Bytes2Mega(bytes), human);
  }

  // ---------------------------------------------------------------------
  // CUDA driver version
  // ---------------------------------------------------------------------

  /** The driver's version number, 1000 times the major version plus 10
      times the minor, in dotted form. */
  function CudaVersion(v: int): (s: string)
    ensures '.' in s
  {
    IntToDecimal(v / 1000) + "." + IntToDecimal(v % 1000 / 10)
  }

  /** The major and minor numbers of a dotted version (the reading of
      `CudaVersion`). */
  function ParseVersion(s: string): Option<(int, int)> {
    match IndexOf(s, '.')
    case None => None
    case Some(i) =>
      match (ParseInt(s[..i]), ParseInt(s[i + 1..]))
      case (Some(major), Some(minor)) => Some((major, minor))
      case _ => None
  }

  /** A decimal has no dot. */
  lemma DecimalHasNoDot(i: int)
    ensures '.' !in IntToDecimal(i)
  {
    var s := IntToDecimal(i);
    if i < 0 {
      assert s == [s[0]] + s[1..];
    }
  }

  /** Text without a dot, a dot, then any text: the first dot is the one
      in the middle. */
  lemma ReadDotted(a: string, b: string)
    requires '.' !in a
    ensures var s := a + "." + b;
      IndexOf(s, '.') == Some(|a|) && s[..|a|] == a && s[|a| + 1..] == b
  {
    var s := a + "." + b;
    assert s[|a|] == '.';
    assert s[..|a|] == a;
    assert s[|a| + 1..] == b;
  }

  /** The dotted form reads back as the major version and the minor version. */
  lemma CudaVersionRoundTrip(v: int)
    ensures ParseVersion(CudaVersion(v)) == Some((v / 1000, v % 1000 / 10))
  {
    var major, minor := v / 1000, v % 1000 / 10;
    var a, b := IntToDecimal(major), IntToDecimal(minor);
    DecimalHasNoDot(major);
    ReadDotted(a, b);
    IntToDecimalRoundTrip(major);
    IntToDecimalRoundTrip(minor);
  }

  /** The major and minor numbers give back the version number but for its
      last digit, which the minor number drops. */
  lemma CudaVersionParts(v: int)
    ensures 0 <= v % 1000 / 10 < 100
    ensures (v / 1000) * 1000 + (v % 1000 / 10) * 10 + v % 10 == v
  {
    var q, r := v / 1000, v % 1000;
    var minor, digit := r / 10, r % 10;
    assert v == 1000 * q + r && r == 10 * minor + digit;
    LastDigit(v, 100 * q + minor, digit);
  }

  /** The last decimal digit of `10 * q + r` is `r`. */
  lemma LastDigit(v: int, q: int, r: int)
    requires v == 10 * q + r && 0 <= r < 10
    ensures v % 10 == r
  {
  }

  /** Driver version 12020 is CUDA 12.2. */
  lemma CudaVersionExample()
    ensures CudaVersion(12020) == "12.2"
  {
    assert IntToDecimal(12) == "12";
    assert IntToDecimal(2) == "2";
  }
}
