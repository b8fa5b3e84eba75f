/** Text helpers shared by the results page and the image window: Python's
    `sep.join(parts)`, `str(n)` for integers, `str.lower()` restricted to
    ASCII letters, and `str.endswith` with one suffix or a tuple of them. */
module Strings {

  /** `sep.join(parts)`: the parts in order with `sep` between neighbours. */
  function Join(parts: seq<string>, sep: string): string
  {
    if parts == [] then []
    else if |parts| == 1 then parts[0]
    else parts[0] + sep + Join(parts[1..], sep)
  }

  /** Total length of all parts. */
  function SumLengths(parts: seq<string>): nat
  {
    if parts == [] then 0 else |parts[0]| + SumLengths(parts[1..])
  }

  /** Where the i-th part starts in the joined string: past every earlier
      part and its separator. */
  function Offset(parts: seq<string>, sep: string, i: nat): nat
    requires i <= |parts|
  {
    if i == 0 then 0 else |parts[0]| + |sep| + Offset(parts[1..], sep, i - 1)
  }

  /** The offset of part i is the length of the parts before it plus i
      separators. */
  lemma {:induction false} OffsetClosedForm(parts: seq<string>, sep: string, i: nat)
    requires i <= |parts|
    ensures Offset(parts, sep, i) == SumLengths(parts[..i]) + i * |sep|
  {
    if i > 0 {
      OffsetClosedForm(parts[1..], sep, i - 1);
      assert parts[..i][1..] == parts[1..][..i - 1];
    } else {
      assert parts[..0] == [];
    }
  }

  /** The joined string is exactly as long as its parts plus one separator
      between each pair of neighbours. */
  lemma {:induction false} JoinLength(parts: seq<string>, sep: string)
    requires parts != []
    ensures |Join(parts, sep)| == SumLengths(parts) + (|parts| - 1) * |sep|
  {
    if |parts| > 1 {
      JoinLength(parts[1..], sep);
    }
  }

  lemma SliceAfter(a: string, b: string, lo: nat, hi: nat)
    requires lo <= hi <= |b|
    ensures (a + b)[|a| + lo..|a| + hi] == b[lo..hi]
  {
  }

  /** Every part sits unchanged at its offset, followed by the separator
      unless it is the last part. */
  lemma {:induction false} JoinPartAt(parts: seq<string>, sep: string, i: nat)
    requires i < |parts|
    ensures Offset(parts, sep, i) + |parts[i]| <= |Join(parts, sep)|
    ensures Join(parts, sep)[Offset(parts, sep, i)..Offset(parts, sep, i) + |parts[i]|] == parts[i]
    ensures i + 1 < |parts| ==>
              var end := Offset(parts, sep, i) + |parts[i]|;
              && Offset(parts, sep, i + 1) == end + |sep| <= |Join(parts, sep)|
              && Join(parts, sep)[end..end + |sep|] == sep
  {
    JoinPartOnly(parts, sep, i);
    if i + 1 < |parts| {
      JoinSeparatorAt(parts, sep, i);
    }
  }

  lemma {:induction false} JoinPartOnly(parts: seq<string>, sep: string, i: nat)
    requires i < |parts|
    ensures Offset(parts, sep, i) + |parts[i]| <= |Join(parts, sep)|
    ensures Join(parts, sep)[Offset(parts, sep, i)..Offset(parts, sep, i) + |parts[i]|] == parts[i]
  {
    if |parts| > 1 {
      var head := parts[0] + sep;
      var tail := Join(parts[1..], sep);
      assert Join(parts, sep) == head + tail;
      if i > 0 {
        JoinPartOnly(parts[1..], sep, i - 1);
        var o := Offset(parts[1..], sep, i - 1);
        SliceAfter(head, tail, o, o + |parts[i]|);
      }
    }
  }

  lemma {:induction false} JoinSeparatorAt(parts: seq<string>, sep: string, i: nat)
    requires i + 1 < |parts|
    ensures var end := Offset(parts, sep, i) + |parts[i]|;
            && Offset(parts, sep, i + 1) == end + |sep| <= |Join(parts, sep)|
            && Join(parts, sep)[end..end + |sep|] == sep
  {
    var head := parts[0] + sep;
    var tail := Join(parts[1..], sep);
    assert Join(parts, sep) == head + tail;
    if i > 0 {
      JoinSeparatorAt(parts[1..], sep, i - 1);
      var e := Offset(parts[1..], sep, i - 1) + |parts[i]|;
      SliceAfter(head, tail, e, e + |sep|);
    } else {
      JoinPartOnly(parts[1..], sep, 0);
    }
  }

  /** A join is empty when there are no parts, and never empty when its first
      part is not. */
  lemma {:induction false} JoinEmpty(parts: seq<string>, sep: string)
    ensures parts == [] ==> Join(parts, sep) == []
    ensures parts != [] && parts[0] != [] ==> Join(parts, sep) != []
  {
    if parts != [] && parts[0] != [] {
      JoinPartAt(parts, sep, 0);
    }
  }

  predicate IsDigit(c: char)
  {
    '0' <= c <= '9'
  }

  function DigitChar(d: nat): (c: char)
    requires d < 10
    ensures IsDigit(c) && c as int - '0' as int == d
  {
    ('0' as int + d) as char
  }

  /** Python's `str(n)` for a non-negative integer: its decimal digits. */
  function NatToString(n: nat): (s: string)
    ensures |s| >= 1 && AllDigits(s)
  {
    if n < 10 then [DigitChar(n)] else NatToString(n / 10) + [DigitChar(n % 10)]
  }

  /** Python's `str(n)` for an integer: a minus sign before negative values. */
  function IntToString(n: int): string
  {
    if n < 0 then "-" + NatToString(-n) else NatToString(n)
  }

  predicate AllDigits(s: string)
  {
    forall i :: 0 <= i < |s| ==> IsDigit(s[i])
  }

  /** A string `str(n)` might produce: digits, optionally after one minus. */
  predicate IsDecimal(s: string)
  {
    || (|s| >= 1 && AllDigits(s))
    || (|s| >= 2 && s[0] == '-' && AllDigits(s[1..]))
  }

  function DigitValue(c: char): nat
    requires IsDigit(c)
  {
    c as int - '0' as int
  }

  function ParseNat(s: string): nat
    requires AllDigits(s)
  {
    if s == [] then 0 else ParseNat(s[..|s| - 1]) * 10 + DigitValue(s[|s| - 1])
  }

  /** Reads back a decimal integer; the inverse of IntToString. */
  function ParseInt(s: string): int
    requires IsDecimal(s)
  {
    if s[0] == '-' then 0 - ParseNat(s[1..]) else ParseNat(s)
  }

  lemma {:induction false} ParseNatToString(n: nat)
    ensures ParseNat(NatToString(n)) == n
  {
    if n >= 10 {
      ParseNatToString(n / 10);
      var s := NatToString(n);
      assert s[..|s| - 1] == NatToString(n / 10);
    }
  }

  /** Formatting an integer and reading it back gives the same integer, so
      distinct scores are rendered as distinct texts. */
  lemma {:induction false} IntToStringRoundTrip(n: int)
    ensures IsDecimal(IntToString(n))
    ensures ParseInt(IntToString(n)) == n
  {
    if n < 0 {
      var digits := NatToString(-n);
      ParseNatToString(-n);
      assert IntToString(n) == "-" + digits;
      assert ("-" + digits)[1..] == digits;
    } else {
      var digits := NatToString(n);
      ParseNatToString(n);
      assert IntToString(n) == digits;
      assert digits[0] != '-';
    }
  }

  function LowerChar(c: char): char
  {
    if 'A' <= c <= 'Z' then (c as int + 32) as char else c
  }

  /** `str.lower()` on ASCII letters; every other character is kept. */
  function Lower(s: string): (r: string)
  {
    seq(|s|, i requires 0 <= i < |s| => LowerChar(s[i]))
  }

  /** Lower-casing twice changes nothing more. */
  lemma LowerIdempotent(s: string)
    ensures Lower(Lower(s)) == Lower(s)
  {
    forall i | 0 <= i < |s|
      ensures Lower(Lower(s))[i] == Lower(s)[i]
    {
      assert Lower(s)[i] == LowerChar(s[i]);
    }
  }

  predicate EndsWith(s: string, suffix: string)
  {
    |suffix| <= |s| && s[|s| - |suffix|..] == suffix
  }

  /** `str.endswith(suffixes)` with a tuple: some suffix of the tuple ends
      the string. */
  predicate EndsWithAny(s: string, suffixes: seq<string>)
  {
    suffixes != [] && (EndsWith(s, suffixes[0]) || EndsWithAny(s, suffixes[1..]))
  }

  /** The tuple test holds exactly when one of its suffixes ends the string. */
  lemma {:induction false} EndsWithAnyAt(s: string, suffixes: seq<string>)
    ensures EndsWithAny(s, suffixes) <==> exists k :: 0 <= k < |suffixes| && EndsWith(s, suffixes[k])
  {
    if suffixes != [] {
      EndsWithAnyAt(s, suffixes[1..]);
      if EndsWithAny(s, suffixes[1..]) {
        var k :| 0 <= k < |suffixes| - 1 && EndsWith(s, suffixes[1..][k]);
        assert EndsWith(s, suffixes[k + 1]);
      }
      if exists k :: 0 <= k < |suffixes| && EndsWith(s, suffixes[k]) {
        var k :| 0 <= k < |suffixes| && EndsWith(s, suffixes[k]);
        if k > 0 {
          assert EndsWith(s, suffixes[1..][k - 1]);
        }
      }
    }
  }
}
