/**
 * Small value types and string helpers shared by the port server and the
 * exploration jobs: an Option type, Python-style `str.find`, `str.split`,
 * `str.strip`, the decimal `int()` parser and the `'%d'` formatter.
 */
module Common {

  datatype Option<+T> = None | Some(value: T)

  /** A call that either returns normally or raises (one error value per exception raised). */
  datatype Outcome<+E> = Pass | Fail(error: E)

  /** A call that either returns a value or raises. */
  datatype Result<+T, +E> = Ok(value: T) | Err(error: E)

  /** Sum of a sequence of integers (Python `sum`). */
  function Sum(xs: seq<int>): int
  {
    if xs == [] then 0 else Sum(xs[..|xs| - 1]) + xs[|xs| - 1]
  }

  lemma {:induction false} SumAppend(xs: seq<int>, ys: seq<int>)
    ensures Sum(xs + ys) == Sum(xs) + Sum(ys)
    decreases |ys|
  {
    if ys == [] {
      assert xs + ys == xs;
    } else {
      var last := |ys| - 1;
      assert (xs + ys)[..|xs + ys| - 1] == xs + ys[..last];
      SumAppend(xs, ys[..last]);
    }
  }

  lemma {:induction false} SumOfOnes(xs: seq<int>)
    requires forall i :: 0 <= i < |xs| ==> xs[i] == 1
    ensures Sum(xs) == |xs|
    decreases |xs|
  {
    if xs != [] {
      SumOfOnes(xs[..|xs| - 1]);
    }
  }

  // ---------------------------------------------------------------------
  // Substring search (Python `str.find` and the `in` operator on strings)
  // ---------------------------------------------------------------------

  predicate OccursAt(s: string, pat: string, i: int)
  {
    0 <= i && i + |pat| <= |s| && s[i..i + |pat|] == pat
  }

  function FindFrom(s: string, pat: string, k: nat): (r: int)
    requires k <= |s|
    ensures r == -1 || (k <= r && OccursAt(s, pat, r))
    ensures r == -1 ==> forall j :: k <= j <= |s| ==> !OccursAt(s, pat, j)
    ensures r != -1 ==> forall j :: k <= j < r ==> !OccursAt(s, pat, j)
    decreases |s| - k
  {
    if k + |pat| > |s| then -1
    else if s[k..k + |pat|] == pat then k
    else FindFrom(s, pat, k + 1)
  }

  /** Python `s.find(pat)`: the first index at which `pat` occurs, or -1. */
  function Find(s: string, pat: string): (r: int)
    ensures r == -1 || OccursAt(s, pat, r)
    ensures r == -1 <==> forall j :: 0 <= j <= |s| ==> !OccursAt(s, pat, j)
    ensures forall j :: 0 <= j < r ==> !OccursAt(s, pat, j)
  {
    FindFrom(s, pat, 0)
  }

  /** Python `pat in s` for strings. */
  predicate Contains(s: string, pat: string)
  {
    Find(s, pat) != -1
  }

  // ---------------------------------------------------------------------
  // Splitting (Python `str.split(sep)` and `str.split(sep, 1)`)
  // ---------------------------------------------------------------------

  /** Python `s.split(sep)` for a one-character separator: never empty, keeps empty pieces. */
  function Split(s: string, sep: char): (r: seq<string>)
    ensures |r| >= 1
    ensures forall i :: 0 <= i < |r| ==> sep !in r[i]
    decreases |s|
  {
    if |s| == 0 then [""]
    else
      var rest := Split(s[1..], sep);
      if s[0] == sep then [""] + rest
      else [[s[0]] + rest[0]] + rest[1..]
  }

  /** The inverse of Split: the pieces glued back with the separator between them. */
  function Join(pieces: seq<string>, sep: char): string
    requires |pieces| >= 1
    decreases |pieces|
  {
    if |pieces| == 1 then pieces[0] else pieces[0] + [sep] + Join(pieces[1..], sep)
  }

  lemma {:induction false} JoinSplit(s: string, sep: char)
    ensures Join(Split(s, sep), sep) == s
    decreases |s|
  {
    if |s| > 0 {
      var rest := Split(s[1..], sep);
      JoinSplit(s[1..], sep);
      if s[0] == sep {
        assert ([""] + rest)[1..] == rest;
      } else {
        var r := [[s[0]] + rest[0]] + rest[1..];
        if |rest| == 1 {
          assert r == [[s[0]] + rest[0]];
        } else {
          assert r[1..] == rest[1..];
          assert Join(rest, sep) == rest[0] + [sep] + Join(rest[1..], sep);
        }
      }
    }
  }

  /**
   * Python `a, b = s.split(sep, 1)`: the parts before and after the first
   * separator, or None when the unpacking fails because there is none.
   */
  function SplitOnce(s: string, sep: char): (r: Option<(string, string)>)
    ensures r.None? <==> sep !in s
    ensures r.Some? ==> sep !in r.value.0 && r.value.0 + [sep] + r.value.1 == s
  {
    var i := Find(s, [sep]);
    if i == -1 then
      assert forall k :: 0 <= k < |s| ==> s[k] != sep by {
        forall k | 0 <= k < |s| ensures s[k] != sep {
          assert !OccursAt(s, [sep], k);
          assert s[k..k + 1] == [s[k]];
        }
      }
      None
    else
      assert s[i..i + 1] == [sep];
      assert forall k :: 0 <= k < i ==> s[k] != sep by {
        forall k | 0 <= k < i ensures s[k] != sep {
          assert !OccursAt(s, [sep], k);
          assert s[k..k + 1] == [s[k]];
        }
      }
      assert s[..i] + [sep] + s[i + 1..] == s by {
        assert s == s[..i] + s[i..i + 1] + s[i + 1..];
      }
      Some((s[..i], s[i + 1..]))
  }

  // ---------------------------------------------------------------------
  // Decimal integers (Python `int(s)` narrowed, and `'%d' % n`)
  // ---------------------------------------------------------------------

  predicate IsDigit(c: char) { '0' <= c <= '9' }

  predicate AllDigits(s: string) { forall i :: 0 <= i < |s| ==> IsDigit(s[i]) }

  /** The ASCII whitespace that Python's `int()` strips from bytes input. */
  predicate IsSpace(c: char)
  {
    c == ' ' || c == '\t' || c == '\n' || c == '\r' || c == '\U{B}' || c == '\U{C}'
  }

  function StripLeft(s: string): (r: string)
    ensures |r| <= |s| && r == s[|s| - |r|..]
    ensures |r| > 0 ==> !IsSpace(r[0])
    decreases |s|
  {
    if |s| > 0 && IsSpace(s[0]) then StripLeft(s[1..]) else s
  }

  function StripRight(s: string): (r: string)
    ensures |r| <= |s| && r == s[..|r|]
    ensures |r| > 0 ==> !IsSpace(r[|r| - 1])
    decreases |s|
  {
    if |s| > 0 && IsSpace(s[|s| - 1]) then StripRight(s[..|s| - 1]) else s
  }

  function Strip(s: string): string
  {
    StripRight(StripLeft(s))
  }

  function DigitValue(c: char): (d: nat)
    requires IsDigit(c)
    ensures d < 10
  {
    (c - '0') as nat
  }

  function DigitChar(d: nat): (c: char)
    requires d < 10
    ensures IsDigit(c) && DigitValue(c) == d
  {
    ('0' as int + d) as char
  }

  /** The value of a string of decimal digits, most significant first. */
  function DigitsValue(s: string): nat
    requires AllDigits(s)
    decreases |s|
  {
    if s == [] then 0 else DigitsValue(s[..|s| - 1]) * 10 + DigitValue(s[|s| - 1])
  }

  /** Python `'{:d}'.format(n)` for a natural number: decimal without leading zeros. */
  function NatToDecimal(n: nat): (s: string)
    decreases n
  {
    if n < 10 then [DigitChar(n)] else NatToDecimal(n / 10) + [DigitChar(n % 10)]
  }

  /** Python `'%d' % i` for any integer: a minus sign exactly for a negative number, then the digits. */
  function IntToDecimal(i: int): (s: string)
    ensures |s| >= 1 && (s[0] == '-' <==> i < 0)
    ensures AllDigits(if i < 0 then s[1..] else s)
  {
    NatToDecimalDigits(if i < 0 then -i else i);
    if i < 0 then "-" + NatToDecimal(-i) else NatToDecimal(i)
  }

  lemma {:induction false} NatToDecimalDigits(n: nat)
    ensures |NatToDecimal(n)| >= 1 && AllDigits(NatToDecimal(n))
    ensures DigitsValue(NatToDecimal(n)) == n
    decreases n
  {
    if n >= 10 {
      NatToDecimalDigits(n / 10);
      var s := NatToDecimal(n / 10) + [DigitChar(n % 10)];
      assert s[..|s| - 1] == NatToDecimal(n / 10);
    }
  }

  /**
   * Python `int(s)` on an ASCII string: surrounding whitespace stripped, an
   * optional sign, then at least one decimal digit; anything else is the
   * ValueError that `int()` raises, here None.
   */
  function ParseInt(s: string): (r: Option<int>)
    ensures (forall i :: 0 <= i < |s| ==> !IsDigit(s[i])) ==> r.None?
  {
    StripInside(s);
    ParseSigned(Strip(s))
  }

  /** What `strip()` keeps is a slice of the input. */
  lemma StripInside(s: string)
    ensures forall i :: 0 <= i < |Strip(s)| ==> Strip(s)[i] in s
  {
    var l := StripLeft(s);
    var t := StripRight(l);
    assert forall i :: 0 <= i < |t| ==> t[i] == l[i] == s[|s| - |l| + i];
  }

  /** An optional sign, then the digits. */
  function ParseSigned(t: string): Option<int>
  {
    if |t| > 0 && t[0] == '-' then
      match ParseDigits(t[1..])
      case Some(v) => Some(-(v as int))
      case None => None
    else if |t| > 0 && t[0] == '+' then
      match ParseDigits(t[1..])
      case Some(v) => Some(v as int)
      case None => None
    else
      match ParseDigits(t)
      case Some(v) => Some(v as int)
      case None => None
  }

  /** At least one decimal digit and nothing else. */
  function ParseDigits(d: string): Option<nat>
  {
    if |d| > 0 && AllDigits(d) then Some(DigitsValue(d)) else None
  }

  /** A string that starts and ends with something other than whitespace is its own `strip()`. */
  lemma StripUnchanged(s: string)
    requires |s| > 0 && !IsSpace(s[0]) && !IsSpace(s[|s| - 1])
    ensures Strip(s) == s && ParseInt(s) == ParseSigned(s)
  {
  }

  /** `int()` reads back what `'%d'` writes. */
  lemma ParseIntOfDecimal(i: int)
    ensures ParseInt(IntToDecimal(i)) == Some(i)
  {
    var n: nat := if i < 0 then -i else i;
    NatToDecimalDigits(n);
    var d := NatToDecimal(n);
    if i < 0 {
      assert IntToDecimal(i) == "-" + d;
      ParseIntOfNegativeDigits(d);
    } else {
      assert IntToDecimal(i) == d;
      ParseIntOfDigits(d);
    }
  }

  /** `int()` also reads back the decimal followed by a newline, as the port server replies. */
  lemma ParseIntOfDecimalLine(n: nat)
    ensures ParseInt(NatToDecimal(n) + "\n") == Some(n)
  {
    NatToDecimalDigits(n);
    ParseIntOfDigitsLine(NatToDecimal(n));
  }

  lemma ParseIntOfDigits(d: string)
    requires |d| > 0 && AllDigits(d)
    ensures ParseInt(d) == Some(DigitsValue(d) as int)
  {
    assert IsDigit(d[0]) && IsDigit(d[|d| - 1]);
    StripUnchanged(d);
    assert ParseDigits(d) == Some(DigitsValue(d));
  }

  lemma ParseIntOfNegativeDigits(d: string)
    requires |d| > 0 && AllDigits(d)
    ensures ParseInt("-" + d) == Some(-(DigitsValue(d) as int))
  {
    var s := "-" + d;
    assert IsDigit(d[|d| - 1]) && s[|s| - 1] == d[|d| - 1];
    StripUnchanged(s);
    ParseSignedNegative(d);
  }

  lemma ParseSignedNegative(d: string)
    requires |d| > 0 && AllDigits(d)
    ensures ParseSigned("-" + d) == Some(-(DigitsValue(d) as int))
  {
    var s := "-" + d;
    assert s[1..] == d;
    assert ParseDigits(d) == Some(DigitsValue(d));
  }

  lemma ParseIntOfDigitsLine(d: string)
    requires |d| > 0 && AllDigits(d)
    ensures ParseInt(d + "\n") == Some(DigitsValue(d) as int)
  {
    assert IsDigit(d[0]) && IsDigit(d[|d| - 1]);
    StripTrailingNewline(d);
    ParseIntOfDigits(d);
    StripUnchanged(d);
  }

  lemma StripTrailingNewline(d: string)
    requires |d| > 0 && !IsSpace(d[0]) && !IsSpace(d[|d| - 1])
    ensures Strip(d + "\n") == d
  {
    var s := d + "\n";
    assert s[0] == d[0];
    assert StripLeft(s) == s;
    assert IsSpace(s[|s| - 1]) && s[..|s| - 1] == d;
    assert StripRight(s) == StripRight(d) == d;
  }


}
