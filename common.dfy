/** Shared vocabulary: optional values and the decimal text of integers (what
    Python's `str(int)` and `f"{n}"` produce), with the parser that inverts it. */
module Common {

  datatype Option<+T> = None | Some(value: T)

  /** Python truthiness of an optional string: `None` and `""` are false. */
  predicate Truthy(s: Option<string>) {
    s.Some? && s.value != ""
  }

  predicate IsDigit(c: char) {
    '0' <= c <= '9'
  }

  function DigitChar(d: nat): (c: char)
    requires d < 10
    ensures IsDigit(c) && (c as int) - ('0' as int) == d
  {
    "0123456789"[d]
  }

  function DigitValue(c: char): (d: nat)
    requires IsDigit(c)
    ensures d < 10 && DigitChar(d) == c
  {
    (c as int) - ('0' as int)
  }

  predicate AllDigits(s: string) {
    forall i :: 0 <= i < |s| ==> IsDigit(s[i])
  }

  /** Decimal text of a natural number, most significant digit first, without
      leading zeros. */
  function NatToDecimal(n: nat): (s: string)
    ensures |s| >= 1 && AllDigits(s)
    ensures s[0] == '0' ==> n == 0
  {
    if n < 10 then [DigitChar(n)] else NatToDecimal(n / 10) + [DigitChar(n % 10)]
  }

  /** `str(i)` for a Python int: a minus sign before the magnitude when negative. */
  function IntToDecimal(i: int): (s: string)
    ensures |s| >= 1
    ensures i >= 0 ==> AllDigits(s)
    ensures i < 0 ==> s[0] == '-' && AllDigits(s[1..])
  {
    if i < 0 then "-" + NatToDecimal(-i) else NatToDecimal(i)
  }

  /** The value of a string of decimal digits (the reference reading of a number). */
  function DecimalValue(s: string): nat
    requires AllDigits(s)
  {
    if s == [] then 0 else DecimalValue(s[..|s| - 1]) * 10 + DigitValue(s[|s| - 1])
  }

  /** Python `int(s)` restricted to an optional minus sign and digits. */
  function ParseInt(s: string): (r: Option<int>)
    ensures r.Some? ==> |s| >= 1
  {
    if |s| >= 2 && s[0] == '-' && AllDigits(s[1..]) then Some(0 - DecimalValue(s[1..]))
    else if |s| >= 1 && AllDigits(s) then Some(DecimalValue(s))
    else None
  }

  lemma {:induction false} NatToDecimalValue(n: nat)
    ensures DecimalValue(NatToDecimal(n)) == n
  {
    if n >= 10 {
      var s := NatToDecimal(n);
      NatToDecimalValue(n / 10);
      assert s[..|s| - 1] == NatToDecimal(n / 10);
    }
  }

  /** `int(str(i)) == i`: the decimal text names exactly the integer it came from. */
  lemma {:induction false} IntToDecimalRoundTrip(i: int)
    ensures ParseInt(IntToDecimal(i)) == Some(i)
  {
    var s := IntToDecimal(i);
    if i < 0 {
      var m := NatToDecimal(-i);
      NatToDecimalValue(-i);
      assert s == "-" + m && s[1..] == m;
      assert ParseInt(s) == Some(0 - DecimalValue(m));
    } else {
      NatToDecimalValue(i);
      assert IsDigit(s[0]);
      assert ParseInt(s) == Some(DecimalValue(s));
    }
  }

  predicate StartsWith(s: string, prefix: string) {
    |prefix| <= |s| && s[..|prefix|] == prefix
  }

  /** `sep.join(parts)` */
  function Join(sep: string, parts: seq<string>): (r: string)
    ensures parts == [] ==> r == ""
    ensures |parts| == 1 ==> r == parts[0]
  {
    if parts == [] then "" else if |parts| == 1 then parts[0] else parts[0] + sep + Join(sep, parts[1..])
  }

  /** Where part `i` starts in `sep.join(parts)`: after each earlier part
      and the separator that follows it. */
  function JoinOffset(sep: string, parts: seq<string>, i: nat): nat
    requires i <= |parts|
  {
    if i == 0 then 0 else JoinOffset(sep, parts, i - 1) + |parts[i - 1]| + |sep|
  }

  /** Offsets in the parts after the first are shifted by the first part and
      its separator. */
  lemma {:induction false} JoinOffsetTail(sep: string, parts: seq<string>, i: nat)
    requires 1 <= i <= |parts|
    ensures JoinOffset(sep, parts, i) == |parts[0]| + |sep| + JoinOffset(sep, parts[1..], i - 1)
  {
    if i > 1 {
      JoinOffsetTail(sep, parts, i - 1);
      assert parts[1..][i - 2] == parts[i - 1];
    }
  }

  /** A join of several parts is the first part, the separator and the
      join of the rest. */
  lemma JoinCons(sep: string, parts: seq<string>)
    requires |parts| > 1
    ensures Join(sep, parts) == (parts[0] + sep) + Join(sep, parts[1..])
  {
  }

  /** A slice of the join of the parts after the first stands, shifted by
      the first part and its separator, in the join of all the parts. */
  lemma JoinSliceTail(sep: string, parts: seq<string>, x: nat, y: nat)
    requires |parts| > 1 && x <= y <= |Join(sep, parts[1..])|
    ensures |parts[0]| + |sep| + y <= |Join(sep, parts)|
    ensures Join(sep, parts)[|parts[0]| + |sep| + x..|parts[0]| + |sep| + y] == Join(sep, parts[1..])[x..y]
  {
    JoinCons(sep, parts);
    SliceAfter(parts[0] + sep, Join(sep, parts[1..]), x, y);
  }

  /** `sep.join(parts)` starts with the first part. */
  lemma JoinFirst(sep: string, parts: seq<string>)
    requires parts != []
    ensures |parts[0]| <= |Join(sep, parts)|
    ensures Join(sep, parts)[..|parts[0]|] == parts[0]
  {
    if |parts| > 1 {
      JoinCons(sep, parts);
      assert (parts[0] + sep + Join(sep, parts[1..]))[..|parts[0]|] == parts[0];
    }
  }

  /** In `sep.join(parts)`, part `i` stands at its offset. */
  lemma {:induction false} JoinAt(sep: string, parts: seq<string>, i: nat)
    requires i < |parts|
    ensures JoinOffset(sep, parts, i) + |parts[i]| <= |Join(sep, parts)|
    ensures Join(sep, parts)[JoinOffset(sep, parts, i)..JoinOffset(sep, parts, i) + |parts[i]|] == parts[i]
    decreases |parts|
  {
    if i == 0 {
      JoinFirst(sep, parts);
    } else {
      var o' := JoinOffset(sep, parts[1..], i - 1);
      JoinAt(sep, parts[1..], i - 1);
      JoinOffsetTail(sep, parts, i);
      assert parts[1..][i - 1] == parts[i];
      JoinSliceTail(sep, parts, o', o' + |parts[i]|);
    }
  }

  /** In `sep.join(parts)`, the first part is followed by the separator. */
  lemma JoinSepFirst(sep: string, parts: seq<string>)
    requires |parts| > 1
    ensures JoinOffset(sep, parts, 1) <= |Join(sep, parts)|
    ensures Join(sep, parts)[|parts[0]|..JoinOffset(sep, parts, 1)] == sep
  {
    var head := parts[0] + sep;
    JoinCons(sep, parts);
    assert JoinOffset(sep, parts, 1) == |head|;
    assert (head + Join(sep, parts[1..]))[|parts[0]|..|head|] == sep;
  }

  /** In `sep.join(parts)`, every part but the last is followed by the
      separator, which ends where the next part starts. */
  lemma {:induction false} JoinSepAt(sep: string, parts: seq<string>, i: nat)
    requires i + 1 < |parts|
    ensures JoinOffset(sep, parts, i + 1) <= |Join(sep, parts)|
    ensures Join(sep, parts)[JoinOffset(sep, parts, i) + |parts[i]|..JoinOffset(sep, parts, i + 1)] == sep
    decreases |parts|
  {
    if i == 0 {
      JoinSepFirst(sep, parts);
    } else {
      var o' := JoinOffset(sep, parts[1..], i - 1);
      var e := JoinOffset(sep, parts[1..], i);
      JoinSepAt(sep, parts[1..], i - 1);
      JoinOffsetTail(sep, parts, i);
      JoinOffsetTail(sep, parts, i + 1);
      assert parts[1..][i - 1] == parts[i];
      JoinSliceTail(sep, parts, o' + |parts[i]|, e);
    }
  }

  /** A slice of the second half of a concatenation. */
  lemma SliceAfter(a: string, b: string, x: nat, y: nat)
    requires x <= y <= |b|
    ensures (a + b)[|a| + x..|a| + y] == b[x..y]
  {
  }

  /** The tail of the first half of a concatenation. */
  lemma SliceBefore(a: string, b: string, x: nat)
    requires x <= |a|
    ensures (a + b)[x..|a|] == a[x..]
  {
  }

  /** `text` holds `part` at offset `o`, right after the separator `sep`. */
  predicate PartAt(text: string, sep: string, o: int, part: string) {
    |sep| <= o && o + |part| <= |text| && text[o - |sep|..o] == sep && text[o..o + |part|] == part
  }

  /** Part `i` of `parts` follows a separator in `text`, at offset `start`
      plus its offset in `sep.join(parts)`. */
  predicate NthPartFrom(text: string, start: int, sep: string, parts: seq<string>, i: nat)
    requires i < |parts|
  {
    PartAt(text, sep, start + JoinOffset(sep, parts, i), parts[i])
  }

  /** From offset `start` on, `text` holds each of `parts` after a
      separator, at the offset it has in `sep.join(parts)`. */
  predicate PartsFrom(text: string, start: int, sep: string, parts: seq<string>) {
    forall i: nat | i < |parts| :: NthPartFrom(text, start, sep, parts, i)
  }

  /** After a lead that ends with the separator, part `i` of
      `sep.join(parts)` is preceded by a separator. */
  lemma JoinedSepBefore(lead: string, sep: string, parts: seq<string>, i: nat)
    requires i < |parts| && |sep| <= |lead| && lead[|lead| - |sep|..] == sep
    ensures |lead| + JoinOffset(sep, parts, i) <= |lead + Join(sep, parts)|
    ensures (lead + Join(sep, parts))[|lead| + JoinOffset(sep, parts, i) - |sep|..|lead| + JoinOffset(sep, parts, i)] == sep
  {
    var values := Join(sep, parts);
    if i == 0 {
      SliceBefore(lead, values, |lead| - |sep|);
    } else {
      var off := JoinOffset(sep, parts, i);
      var prev := JoinOffset(sep, parts, i - 1) + |parts[i - 1]|;
      JoinSepAt(sep, parts, i - 1);
      SliceAfter(lead, values, prev, off);
    }
  }

  /** After a lead that ends with the separator, part `i` of
      `sep.join(parts)` follows a separator. */
  lemma JoinedAfterAt(lead: string, sep: string, parts: seq<string>, i: nat)
    requires i < |parts| && |sep| <= |lead| && lead[|lead| - |sep|..] == sep
    ensures PartAt(lead + Join(sep, parts), sep, |lead| + JoinOffset(sep, parts, i), parts[i])
  {
    var off := JoinOffset(sep, parts, i);
    JoinAt(sep, parts, i);
    SliceAfter(lead, Join(sep, parts), off, off + |parts[i]|);
    JoinedSepBefore(lead, sep, parts, i);
  }

  /** `text` is `lead` followed by `parts`, each after a separator, the
      first separator being the end of `lead`, and nothing after the last
      part. */
  predicate LaidOut(text: string, lead: string, sep: string, parts: seq<string>) {
    && StartsWith(text, lead)
    && |text| + |sep| == |lead| + JoinOffset(sep, parts, |parts|)
    && PartsFrom(text, |lead|, sep, parts)
  }

  /** After a lead that ends with the separator, every part of
      `sep.join(parts)` follows a separator, and the text ends with the last
      part. */
  lemma JoinedAfter(text: string, lead: string, sep: string, parts: seq<string>)
    requires parts != [] && |sep| <= |lead| && lead[|lead| - |sep|..] == sep
    requires text == lead + Join(sep, parts)
    ensures LaidOut(text, lead, sep, parts)
  {
    assert text[..|lead|] == lead;
    JoinLength(sep, parts);
    forall i: nat | i < |parts|
      ensures NthPartFrom(text, |lead|, sep, parts, i)
    {
      JoinedAfterAt(lead, sep, parts, i);
    }
  }

  /** `sep.join(parts)` ends with the last part: its length is the last
      part's offset plus that part's length. */
  lemma {:induction false} JoinLength(sep: string, parts: seq<string>)
    requires parts != []
    ensures |Join(sep, parts)| + |sep| == JoinOffset(sep, parts, |parts|)
    decreases |parts|
  {
    if |parts| > 1 {
      JoinLength(sep, parts[1..]);
      JoinOffsetTail(sep, parts, |parts|);
      JoinCons(sep, parts);
    }
  }

  /** Index of the first occurrence of `c` in `s`, if any. */
  function IndexOf(s: string, c: char): (r: Option<nat>)
    ensures r.Some? ==> r.value < |s| && s[r.value] == c && c !in s[..r.value]
    ensures r.None? ==> c !in s
  {
    if s == [] then None
    else if s[0] == c then Some(0)
    else match IndexOf(s[1..], c)
      case None => None
      case Some(k) => Some(k + 1)
  }
}
