/** The Python string operations the two scripts rely on: `str.split` on a
    one-character separator, `str(n)` of a natural number, `encode('ascii')`
    / `decode('ascii')`, and `str.strip()`. */
module Text {
  import opened Results

  /** A non-empty sequence is its first element followed by the rest. */
  lemma ConsTail<T>(s: seq<T>)
    requires |s| > 0
    ensures [s[0]] + s[1..] == s
  {
  }

  type byte = x: int | 0 <= x < 256

  // ---------------------------------------------------------------------------
  // str.split(sep) and its inverse sep.join(parts)

  /** Python's `s.split(sep)` for a one-character `sep`: the pieces between the
      separators, empty ones included, so there is always one piece more than
      there are separators. */
  function Split(s: string, sep: char): (parts: seq<string>)
    ensures |parts| == Count(s, sep) + 1
    ensures forall i :: 0 <= i < |parts| ==> sep !in parts[i]
    decreases |s|
  {
    if |s| == 0 then [""]
    else
      var rest := Split(s[1..], sep);
      if s[0] == sep then [""] + rest
      else [[s[0]] + rest[0]] + rest[1..]
  }

  /** The number of occurrences of `c` in `s`. */
  function Count(s: string, c: char): nat
    decreases |s|
  {
    if |s| == 0 then 0 else (if s[0] == c then 1 else 0) + Count(s[1..], c)
  }

  /** Python's `sep.join(parts)`. */
  function Join(parts: seq<string>, sep: char): string
    decreases |parts|
  {
    if |parts| == 0 then ""
    else if |parts| == 1 then parts[0]
    else parts[0] + [sep] + Join(parts[1..], sep)
  }

  lemma {:induction false} CountZero(s: string, c: char)
    ensures Count(s, c) == 0 <==> c !in s
    decreases |s|
  {
    if |s| > 0 {
      CountZero(s[1..], c);
      assert s == [s[0]] + s[1..];
    }
  }

  /** Joining the pieces with the separator gives back the split text. */
  lemma {:induction false} JoinSplit(s: string, sep: char)
    ensures Join(Split(s, sep), sep) == s
    decreases |s|
  {
    if |s| > 0 {
      JoinSplit(s[1..], sep);
      var rest := Split(s[1..], sep);
      if s[0] == sep {
        assert Split(s, sep) == [""] + rest;
        assert s == [sep] + s[1..];
      } else {
        var parts := Split(s, sep);
        assert parts == [[s[0]] + rest[0]] + rest[1..];
        if |rest| == 1 {
          assert s == [s[0]] + rest[0];
        } else {
          assert parts[1..] == rest[1..];
          assert Join(rest, sep) == rest[0] + [sep] + Join(rest[1..], sep);
          assert s == [s[0]] + s[1..];
        }
      }
    }
  }

  /** Text without the separator splits into itself. */
  lemma {:induction false} SplitNoSeparator(s: string, sep: char)
    requires sep !in s
    ensures Split(s, sep) == [s]
    decreases |s|
  {
    if |s| > 0 {
      SplitNoSeparator(s[1..], sep);
      assert s == [s[0]] + s[1..];
    }
  }

  /** The first separator ends the first piece. */
  lemma {:induction false} SplitAtFirst(a: string, sep: char, t: string)
    requires sep !in a
    ensures Split(a + [sep] + t, sep) == [a] + Split(t, sep)
    decreases |a|
  {
    if |a| == 0 {
      assert a + [sep] + t == [sep] + t;
      assert ([sep] + t)[1..] == t;
    } else {
      SplitAtFirst(a[1..], sep, t);
      assert (a + [sep] + t)[1..] == a[1..] + [sep] + t;
      assert [a[0]] + a[1..] == a;
    }
  }

  /** Splitting a join gives back the pieces, when no piece holds the separator. */
  lemma {:induction false} SplitJoin(parts: seq<string>, sep: char)
    requires |parts| >= 1
    requires forall i :: 0 <= i < |parts| ==> sep !in parts[i]
    ensures Split(Join(parts, sep), sep) == parts
    decreases |parts|
  {
    if |parts| == 1 {
      SplitNoSeparator(parts[0], sep);
    } else {
      SplitJoin(parts[1..], sep);
      SplitAtFirst(parts[0], sep, Join(parts[1..], sep));
      assert [parts[0]] + parts[1..] == parts;
    }
  }

  // ---------------------------------------------------------------------------
  // str(n) for a natural number, and the decimal reading that inverts it

  predicate IsDigit(c: char) { '0' <= c <= '9' }

  function DigitChar(d: nat): (c: char)
    requires d < 10
    ensures IsDigit(c) && c as int - '0' as int == d
  {
    ('0' as int + d) as char
  }

  /** Python's `str(n)`: the decimal digits of `n`, without leading zeros. */
  function Decimal(n: nat): (r: string)
    ensures 1 <= |r|
    ensures forall i :: 0 <= i < |r| ==> IsDigit(r[i])
    ensures 1 < |r| ==> r[0] != '0'
    ensures n < 10 <==> |r| == 1
    decreases n
  {
    if n < 10 then [DigitChar(n)] else Decimal(n / 10) + [DigitChar(n % 10)]
  }

  /** The value of a string of decimal digits. */
  function DigitsValue(s: string): nat
    requires forall i :: 0 <= i < |s| ==> IsDigit(s[i])
    decreases |s|
  {
    if |s| == 0 then 0
    else
      assert IsDigit(s[|s| - 1]);
      DigitsValue(s[..|s| - 1]) * 10 + (s[|s| - 1] as int - '0' as int)
  }

  /** A decimal natural in canonical form: digits only, no leading zero. */
  function ParseDecimal(s: string): (r: Option<nat>)
  {
    if 1 <= |s| && (forall i :: 0 <= i < |s| ==> IsDigit(s[i])) && (|s| == 1 || s[0] != '0')
    then Some(DigitsValue(s))
    else None
  }

  lemma {:induction false} DigitsValueDecimal(n: nat)
    ensures DigitsValue(Decimal(n)) == n
    decreases n
  {
    if n >= 10 {
      DigitsValueDecimal(n / 10);
      var r := Decimal(n);
      assert r[..|r| - 1] == Decimal(n / 10);
    }
  }

  /** Reading back `str(n)` gives `n`. */
  lemma DecimalRoundTrip(n: nat)
    ensures ParseDecimal(Decimal(n)) == Some(n)
  {
    DigitsValueDecimal(n);
  }

  // ---------------------------------------------------------------------------
  // encode('ascii') and decode('ascii')

  predicate IsAscii(s: string)
  {
    forall i :: 0 <= i < |s| ==> s[i] as int < 128
  }

  /** `s.encode('ascii')`, which raises unless every character is ASCII. */
  function AsciiBytes(s: string): (b: seq<byte>)
    requires IsAscii(s)
    ensures |b| == |s|
    ensures forall i :: 0 <= i < |s| ==> b[i] == s[i] as int
  {
    seq(|s|, i requires 0 <= i < |s| => s[i] as int)
  }

  /** `b.decode('ascii')`: `None` where Python raises UnicodeDecodeError. */
  function AsciiText(b: seq<byte>): (r: Option<string>)
    ensures r.Some? <==> forall i :: 0 <= i < |b| ==> b[i] < 128
    ensures r.Some? ==> IsAscii(r.value) && AsciiBytes(r.value) == b
  {
    if forall i :: 0 <= i < |b| ==> b[i] < 128
    then Some(seq(|b|, i requires 0 <= i < |b| && b[i] < 128 => b[i] as char))
    else None
  }

  /** Decoding what was encoded gives back the text. */
  lemma AsciiRoundTrip(s: string)
    requires IsAscii(s)
    ensures AsciiText(AsciiBytes(s)) == Some(s)
  {
    var b := AsciiBytes(s);
    assert AsciiText(b).value == s;
  }

  // ---------------------------------------------------------------------------
  // str.strip()

  /** Python's `str.isspace` for one character. */
  predicate IsSpace(c: char)
  {
    var n := c as int;
    n == 0x20 || 0x09 <= n <= 0x0D || 0x1C <= n <= 0x1F || n == 0x85 || n == 0xA0 ||
    n == 0x1680 || 0x2000 <= n <= 0x200A || n == 0x2028 || n == 0x2029 || n == 0x202F ||
    n == 0x205F || n == 0x3000
  }

  /** `s.lstrip()`: a suffix of `s`, what was dropped is whitespace. */
  function TrimStart(s: string): (r: string)
    ensures |r| <= |s| && r == s[|s| - |r|..]
    ensures forall i :: 0 <= i < |s| - |r| ==> IsSpace(s[i])
    ensures |r| > 0 ==> !IsSpace(r[0])
    decreases |s|
  {
    if |s| > 0 && IsSpace(s[0]) then TrimStart(s[1..]) else s
  }

  /** `s.rstrip()`: a prefix of `s`, what was dropped is whitespace. */
  function TrimEnd(s: string): (r: string)
    ensures |r| <= |s| && r == s[..|r|]
    ensures forall i :: |r| <= i < |s| ==> IsSpace(s[i])
    ensures |r| > 0 ==> !IsSpace(r[|r| - 1])
    decreases |s|
  {
    if |s| > 0 && IsSpace(s[|s| - 1]) then TrimEnd(s[..|s| - 1]) else s
  }

  /** `r` is what is left of `s` after dropping whitespace characters one at a
      time, each from the front or from the back. */
  predicate IsTrimmedOf(s: string, r: string)
    decreases |s|
  {
    r == s ||
    (|s| > 0 && IsSpace(s[0]) && IsTrimmedOf(s[1..], r)) ||
    (|s| > 0 && IsSpace(s[|s| - 1]) && IsTrimmedOf(s[..|s| - 1], r))
  }

  /** `r` is the slice `s[i..j]`, with only whitespace before `i` and after
      `j`. */
  predicate SpaceAround(s: string, r: string, i: int, j: int)
  {
    0 <= i <= j <= |s| && r == s[i..j] &&
    (forall k :: 0 <= k < i ==> IsSpace(s[k])) &&
    (forall k :: j <= k < |s| ==> IsSpace(s[k]))
  }

  /** A whitespace character in front widens the margin before the slice. */
  lemma SpaceAroundFront(s: string, r: string, i: int, j: int)
    requires |s| > 0 && IsSpace(s[0]) && SpaceAround(s[1..], r, i, j)
    ensures SpaceAround(s, r, i + 1, j + 1)
  {
    assert r == s[i + 1..j + 1];
    forall k | 0 < k < |s|
      ensures s[k] == s[1..][k - 1]
    {
    }
  }

  /** A whitespace character behind widens the margin after the slice. */
  lemma SpaceAroundBack(s: string, r: string, i: int, j: int)
    requires |s| > 0 && IsSpace(s[|s| - 1]) && SpaceAround(s[..|s| - 1], r, i, j)
    ensures SpaceAround(s, r, i, j)
  {
    assert r == s[i..j];
    forall k | 0 <= k < |s| - 1
      ensures s[k] == s[..|s| - 1][k]
    {
    }
  }

  /** What trimming leaves is a slice of `s` with only whitespace around it. */
  lemma {:induction false} TrimmedIsSlice(s: string, r: string)
    requires IsTrimmedOf(s, r)
    ensures exists i, j :: SpaceAround(s, r, i, j)
    decreases |s|
  {
    if r == s {
      assert SpaceAround(s, r, 0, |s|);
    } else if |s| > 0 && IsSpace(s[0]) && IsTrimmedOf(s[1..], r) {
      TrimmedIsSlice(s[1..], r);
      var i, j :| SpaceAround(s[1..], r, i, j);
      SpaceAroundFront(s, r, i, j);
    } else {
      TrimmedIsSlice(s[..|s| - 1], r);
      var i, j :| SpaceAround(s[..|s| - 1], r, i, j);
      SpaceAroundBack(s, r, i, j);
    }
  }

  /** Trimming twice is trimming. */
  lemma {:induction false} TrimmedTrans(s: string, t: string, u: string)
    requires IsTrimmedOf(s, t) && IsTrimmedOf(t, u)
    ensures IsTrimmedOf(s, u)
    decreases |s|
  {
    if t == s {
    } else if |s| > 0 && IsSpace(s[0]) && IsTrimmedOf(s[1..], t) {
      TrimmedTrans(s[1..], t, u);
    } else {
      TrimmedTrans(s[..|s| - 1], t, u);
    }
  }

  /** `lstrip` trims. */
  lemma {:induction false} TrimStartTrims(s: string)
    ensures IsTrimmedOf(s, TrimStart(s))
    decreases |s|
  {
    if |s| > 0 && IsSpace(s[0]) {
      TrimStartTrims(s[1..]);
    }
  }

  /** `rstrip` trims. */
  lemma {:induction false} TrimEndTrims(s: string)
    ensures IsTrimmedOf(s, TrimEnd(s))
    decreases |s|
  {
    if |s| > 0 && IsSpace(s[|s| - 1]) {
      TrimEndTrims(s[..|s| - 1]);
    }
  }

  /** `s.strip()`: what is left of `s` once whitespace is dropped from both
      ends, and no more: it neither starts nor ends with whitespace. */
  function Strip(s: string): (r: string)
    ensures exists i, j :: SpaceAround(s, r, i, j)
    ensures |r| > 0 ==> !IsSpace(r[0]) && !IsSpace(r[|r| - 1])
  {
    var t := TrimStart(s);
    assert |TrimEnd(t)| > 0 ==> TrimEnd(t)[0] == t[0];
    TrimStartTrims(s);
    TrimEndTrims(t);
    TrimmedTrans(s, t, TrimEnd(t));
    TrimmedIsSlice(s, TrimEnd(t));
    TrimEnd(t)
  }

  /** A line read from the file, trailing newline and all, strips back to its
      text when the text has no surrounding whitespace. */
  lemma {:induction false} StripLine(s: string, tail: string)
    requires |s| > 0 && !IsSpace(s[0]) && !IsSpace(s[|s| - 1])
    requires forall i :: 0 <= i < |tail| ==> IsSpace(tail[i])
    ensures Strip(s + tail) == s
    decreases |tail|
  {
    assert TrimStart(s + tail) == s + tail;
    if |tail| == 0 {
      assert s + tail == s;
    } else {
      var u := s + tail[..|tail| - 1];
      assert (s + tail)[..|s + tail| - 1] == u;
      assert TrimEnd(s + tail) == TrimEnd(u);
      StripLine(s, tail[..|tail| - 1]);
      assert TrimStart(u) == u;
    }
  }
}
