/** The few JavaScript string primitives the library relies on:
    `String.prototype.split` with a one-character separator,
    `Array.prototype.join`, `parseInt(value, 10)`, the decimal form of a
    number (`Number.prototype.toString`) and `padStart(2, '0')`. */
module Strings {
  import opened Wrappers

  // ---------------------------------------------------------------------
  // split / join

  /** `s.split(sep)`: the maximal separator-free pieces of `s`, in order;
      the empty string splits into one empty piece. */
  function Split(s: string, sep: char): (parts: seq<string>)
    ensures |parts| >= 1
    ensures forall i :: 0 <= i < |parts| ==> sep !in parts[i]
    decreases |s|
  {
    if |s| == 0 then [""]
    else if s[0] == sep then [""] + Split(s[1..], sep)
    else
      var rest := Split(s[1..], sep);
      [[s[0]] + rest[0]] + rest[1..]
  }

  /** `parts.join(sep)`. */
  function Join(parts: seq<string>, sep: string): string
  {
    if |parts| == 0 then ""
    else if |parts| == 1 then parts[0]
    else parts[0] + sep + Join(parts[1..], sep)
  }

  /** A string without the separator splits into itself. */
  lemma {:induction false} SplitNoSeparator(a: string, sep: char)
    requires sep !in a
    ensures Split(a, sep) == [a]
  {
    if |a| > 0 {
      SplitNoSeparator(a[1..], sep);
      assert [a[0]] + a[1..] == a;
    }
  }

  /** Splitting at the first separator: the piece before it, then the split of the rest. */
  lemma {:induction false} SplitFirstSeparator(a: string, sep: char, b: string)
    requires sep !in a
    ensures Split(a + [sep] + b, sep) == [a] + Split(b, sep)
  {
    var s := a + [sep] + b;
    if |a| == 0 {
      assert s[1..] == b;
    } else {
      assert s[1..] == a[1..] + [sep] + b;
      SplitFirstSeparator(a[1..], sep, b);
      assert [a[0]] + a[1..] == a;
    }
  }

  /** Two separator-free pieces joined by the separator split back into
      them. */
  lemma SplitTwo(a: string, sep: char, b: string)
    requires sep !in a && sep !in b
    ensures Split(a + [sep] + b, sep) == [a, b]
  {
    SplitFirstSeparator(a, sep, b);
    SplitNoSeparator(b, sep);
  }

  /** Splitting a join of separator-free pieces gives the pieces back. */
  lemma {:induction false} SplitJoin(parts: seq<string>, sep: char)
    requires |parts| >= 1
    requires forall i :: 0 <= i < |parts| ==> sep !in parts[i]
    ensures Split(Join(parts, [sep]), sep) == parts
  {
    if |parts| == 1 {
      SplitNoSeparator(parts[0], sep);
    } else {
      SplitJoin(parts[1..], sep);
      SplitFirstSeparator(parts[0], sep, Join(parts[1..], [sep]));
      assert [parts[0]] + parts[1..] == parts;
    }
  }

  /** A character in none of the pieces and other than the separator is
      not in their join. */
  lemma {:induction false} JoinAvoids(parts: seq<string>, sep: char, c: char)
    requires c != sep && forall i :: 0 <= i < |parts| ==> c !in parts[i]
    ensures c !in Join(parts, [sep])
    decreases |parts|
  {
    if |parts| > 1 {
      JoinAvoids(parts[1..], sep, c);
    }
  }

  /** Joining the pieces of a split gives the original string back. */
  lemma {:induction false} JoinSplit(s: string, sep: char)
    ensures Join(Split(s, sep), [sep]) == s
    decreases |s|
  {
    if |s| > 0 {
      JoinSplit(s[1..], sep);
      var rest := Split(s[1..], sep);
      if s[0] != sep {
        var parts := [[s[0]] + rest[0]] + rest[1..];
        if |rest| == 1 {
          assert Join(parts, [sep]) == [s[0]] + rest[0];
        } else {
          assert parts[1..] == rest[1..];
          assert Join(rest, [sep]) == rest[0] + [sep] + Join(rest[1..], [sep]);
        }
        assert [s[0]] + s[1..] == s;
      }
    }
  }

  // ---------------------------------------------------------------------
  // parseInt(value, 10)

  /** The characters `parseInt` skips before the number: the ECMAScript
      WhiteSpace and LineTerminator productions. */
  predicate IsJsWhiteSpace(c: char)
  {
    c == '\t' || c == '\n' || c == '\U{000B}' || c == '\U{000C}' || c == '\r' || c == ' '
    || c == '\U{00A0}' || c == '\U{1680}' || ('\U{2000}' <= c <= '\U{200A}')
    || c == '\U{2028}' || c == '\U{2029}' || c == '\U{202F}' || c == '\U{205F}'
    || c == '\U{3000}' || c == '\U{FEFF}'
  }

  predicate IsDigit(c: char) { '0' <= c <= '9' }

  predicate AllDigits(s: string) { forall i :: 0 <= i < |s| ==> IsDigit(s[i]) }

  /** The value of a decimal digit. */
  function DigitValue(c: char): (d: nat)
    requires IsDigit(c)
    ensures d < 10
  {
    c as int - '0' as int
  }

  /** The decimal digit of a value below ten. */
  function DigitChar(d: nat): (c: char)
    requires d < 10
    ensures IsDigit(c) && DigitValue(c) == d
  {
    ('0' as int + d) as char
  }

  /** The string with its leading white space removed. */
  function TrimStart(s: string): (t: string)
    ensures |t| <= |s|
  {
    if |s| > 0 && IsJsWhiteSpace(s[0]) then TrimStart(s[1..]) else s
  }

  /** The longest prefix of decimal digits. */
  function DigitPrefix(s: string): (d: string)
    ensures |d| <= |s| && AllDigits(d)
  {
    if |s| > 0 && IsDigit(s[0]) then [s[0]] + DigitPrefix(s[1..]) else ""
  }

  /** What `TrimStart` removes is white space, and what it keeps starts
      with something else. */
  lemma {:induction false} TrimStartSpec(s: string)
    ensures var t := TrimStart(s);
      t == s[|s| - |t|..]
      && (|t| > 0 ==> !IsJsWhiteSpace(t[0]))
      && forall i :: 0 <= i < |s| - |t| ==> IsJsWhiteSpace(s[i])
  {
    if |s| > 0 && IsJsWhiteSpace(s[0]) {
      TrimStartSpec(s[1..]);
      var t := TrimStart(s[1..]);
      assert s[1..][|s[1..]| - |t|..] == s[|s| - |t|..];
      forall i | 0 <= i < |s| - |t|
        ensures IsJsWhiteSpace(s[i])
      {
        if i > 0 {
          assert s[i] == s[1..][i - 1];
        }
      }
    }
  }

  /** `DigitPrefix` is a prefix that stops at the first non-digit. */
  lemma {:induction false} DigitPrefixSpec(s: string)
    ensures var d := DigitPrefix(s);
      d == s[..|d|] && (|d| < |s| ==> !IsDigit(s[|d|]))
  {
    if |s| > 0 && IsDigit(s[0]) {
      DigitPrefixSpec(s[1..]);
      var d := DigitPrefix(s[1..]);
      assert s[1..][..|d|] == s[1..|d| + 1];
      assert [s[0]] + s[1..|d| + 1] == s[..|d| + 1];
      if |d| + 1 < |s| {
        assert s[|d| + 1] == s[1..][|d|];
      }
    }
  }

  /** The value of a string of decimal digits, most significant first. */
  function DecimalValue(d: string): nat
    requires AllDigits(d)
  {
    if |d| == 0 then 0 else DecimalValue(d[..|d| - 1]) * 10 + DigitValue(d[|d| - 1])
  }

  /** `parseInt(s, 10)`: `None` stands for NaN. After leading white space
      and an optional sign it reads the longest run of decimal digits and
      ignores whatever follows; without any digit the result is NaN. */
  function ParseInt(s: string): (r: Option<int>)
    ensures |s| >= 1 && AllDigits(s) ==> r == Some(DecimalValue(s))
    ensures |s| >= 2 && s[0] == '-' && AllDigits(s[1..]) ==> r == Some(0 - DecimalValue(s[1..]) as int)
    ensures |s| >= 1 && !IsJsWhiteSpace(s[0]) && !IsDigit(s[0]) && s[0] != '-' && s[0] != '+' ==> r == None
  {
    assert |s| >= 1 && IsDigit(s[0]) ==> !IsJsWhiteSpace(s[0]);
    ParseSigned(TrimStart(s))
  }

  /** Leading white space does not change what `parseInt` reads. */
  lemma ParseIntSkipsWhiteSpace(s: string)
    requires |s| > 0 && IsJsWhiteSpace(s[0])
    ensures ParseInt(s) == ParseInt(s[1..])
  {
  }

  /** `parseInt` once the white space is gone: an optional sign, then the
      longest run of digits. */
  function ParseSigned(t: string): (r: Option<int>)
    ensures |t| >= 1 && AllDigits(t) ==> r == Some(DecimalValue(t))
    ensures |t| >= 2 && t[0] == '-' && AllDigits(t[1..]) ==> r == Some(0 - DecimalValue(t[1..]) as int)
    ensures |t| >= 1 && !IsDigit(t[0]) && t[0] != '-' && t[0] != '+' ==> r == None
  {
    assert AllDigits(t) ==> DigitPrefix(t) == t by {
      if AllDigits(t) {
        DigitPrefixAll(t);
      }
    }
    assert |t| >= 1 && AllDigits(t[1..]) ==> DigitPrefix(t[1..]) == t[1..] by {
      if |t| >= 1 && AllDigits(t[1..]) {
        DigitPrefixAll(t[1..]);
      }
    }
    var negative := |t| > 0 && t[0] == '-';
    var unsigned := if |t| > 0 && (t[0] == '-' || t[0] == '+') then t[1..] else t;
    var digits := DigitPrefix(unsigned);
    if |digits| == 0 then None
    else if negative then Some(0 - DecimalValue(digits) as int)
    else Some(DecimalValue(digits) as int)
  }

  // ---------------------------------------------------------------------
  // Number.prototype.toString and padStart(2, '0')

  /** The decimal form of a natural number, without leading zeros. */
  function NatToDecimal(n: nat): (s: string)
    ensures |s| >= 1 && AllDigits(s)
    ensures n < 10 <==> |s| == 1
    ensures 10 <= n < 100 <==> |s| == 2
  {
    if n < 10 then [DigitChar(n)] else NatToDecimal(n / 10) + [DigitChar(n % 10)]
  }

  /** The decimal form of an integer, as a template literal prints it. */
  function IntToDecimal(i: int): (s: string)
    ensures |s| >= 1 && forall k :: 0 <= k < |s| ==> IsDigit(s[k]) || s[k] == '-'
    ensures ParseInt(s) == Some(i)
  {
    if i < 0 then
      ParseNegativeDecimal(-i);
      "-" + NatToDecimal(-i)
    else
      ParseNatToDecimal(i);
      NatToDecimal(i)
  }

  /** `parseInt` reads back a minus sign before a decimal form. */
  lemma ParseNegativeDecimal(n: nat)
    ensures ParseInt("-" + NatToDecimal(n)) == Some(0 - n)
  {
    var d := NatToDecimal(n);
    DecimalRoundTrip(n);
    assert ("-" + d)[1..] == d;
  }

  /** `s.padStart(2, '0')`. */
  function PadStart2(s: string): (p: string)
    ensures |s| >= 2 ==> p == s
    ensures |s| < 2 ==> |p| == 2 && p[2 - |s|..] == s
  {
    if |s| >= 2 then s else if |s| == 1 then "0" + s else "00"
  }

  /** The value of a number's decimal form is the number. */
  lemma {:induction false} DecimalRoundTrip(n: nat)
    ensures DecimalValue(NatToDecimal(n)) == n
  {
    if n >= 10 {
      DecimalRoundTrip(n / 10);
      var s := NatToDecimal(n);
      assert s[..|s| - 1] == NatToDecimal(n / 10);
    }
  }

  /** A string of digits is its own digit prefix. */
  lemma DigitPrefixAll(s: string)
    requires AllDigits(s)
    ensures DigitPrefix(s) == s
  {
  }

  /** `parseInt` reads back the decimal form of every natural number. */
  lemma ParseNatToDecimal(n: nat)
    ensures ParseInt(NatToDecimal(n)) == Some(n)
  {
    DecimalRoundTrip(n);
  }

  /** The two-character, zero-padded form of a number below 100, which
      `parseInt` reads back. */
  lemma PaddedOneDigit(n: nat)
    requires n < 10
    ensures var p := PadStart2(NatToDecimal(n));
      |p| == 2 && AllDigits(p) && DecimalValue(p) == n
  {
    var s := NatToDecimal(n);
    var p := PadStart2(s);
    assert p == ['0', DigitChar(n)];
    assert p[..1] == ['0'];
    assert DecimalValue(p[..1]) == 0;
  }

  /** The two-character, zero-padded form of a number below 100. */
  lemma PaddedDecimal(n: nat)
    requires n < 100
    ensures var p := PadStart2(NatToDecimal(n));
      |p| == 2 && AllDigits(p) && DecimalValue(p) == n
  {
    if n < 10 {
      PaddedOneDigit(n);
    } else {
      DecimalRoundTrip(n);
    }
  }

  /** The zero-padded form of a number below 100 reads back through
      `parseInt`. */
  lemma PaddedTwoDigits(n: nat)
    requires n < 100
    ensures ParseInt(TwoDigits(n)) == Some(n)
  {
  }

  /** A digit is the digit character of its value. */
  lemma DigitCharValue(c: char)
    requires IsDigit(c)
    ensures DigitChar(DigitValue(c)) == c
  {
  }

  /** A two-digit string is the zero-padded decimal form of its value. */
  lemma PaddedDecimalOfDigits(p: string)
    requires |p| == 2 && AllDigits(p)
    ensures PadStart2(NatToDecimal(DecimalValue(p))) == p
  {
    var d0, d1 := DigitValue(p[0]), DigitValue(p[1]);
    TwoDigitValue(p);
    if d0 == 0 {
      DigitCharValue(p[1]);
      assert NatToDecimal(d1) == [p[1]];
      assert p == "0" + [p[1]];
    } else {
      var s := NatToDecimal(DecimalValue(p));
      DecimalRoundTrip(DecimalValue(p));
      SameTwoDigits(s, p);
    }
  }

  /** The value of two digits. */
  lemma TwoDigitValue(p: string)
    requires |p| == 2 && AllDigits(p)
    ensures DecimalValue(p) == DigitValue(p[0]) * 10 + DigitValue(p[1])
  {
    assert p[..1] == [p[0]];
    assert DecimalValue([p[0]]) == DigitValue(p[0]) by {
      assert [p[0]][..0] == [];
    }
  }

  /** Two two-digit strings with the same value are the same string. */
  lemma SameTwoDigits(s: string, p: string)
    requires |s| == 2 && AllDigits(s) && |p| == 2 && AllDigits(p)
    requires DecimalValue(s) == DecimalValue(p)
    ensures s == p
  {
    TwoDigitValue(s);
    TwoDigitValue(p);
    assert s[0] == p[0] && s[1] == p[1];
  }

  /** The two characters of a number below 100: its tens, then its units. */
  lemma TwoDigitsOf(n: nat)
    requires n < 100
    ensures TwoDigits(n) == [DigitChar(n / 10), DigitChar(n % 10)]
  {
    if n < 10 {
      assert NatToDecimal(n) == [DigitChar(n)];
      assert n / 10 == 0 && n % 10 == n;
      assert DigitChar(0) == '0';
    } else {
      assert NatToDecimal(n / 10) == [DigitChar(n / 10)];
    }
  }

  /** `n.toString().padStart(2, '0')` for a number below 100. */
  function TwoDigits(n: nat): (p: string)
    requires n < 100
    ensures |p| == 2 && AllDigits(p) && DecimalValue(p) == n
  {
    PaddedDecimal(n);
    PadStart2(NatToDecimal(n))
  }
}
