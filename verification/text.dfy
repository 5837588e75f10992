/** Strings as Python prints, joins, splits and compares them.

    Every string is a `seq<char>`; a character is compared by its code point, as
    Python does. Only the pieces the modelled code uses are here: decimal text of
    integers, the `d` format specification with a width (space- or zero-padded),
    `sep.join`, `s.split(sep)`, substring search, `rsplit(sep, 1)[-1]` and the
    ordering `sorted` uses on strings.
 */
module Text {
  import opened Results

  predicate IsDigit(c: char) { '0' <= c <= '9' }

  predicate AllDigits(s: string) { forall i :: 0 <= i < |s| ==> IsDigit(s[i]) }

  function DigitChar(d: nat): (c: char)
    requires d < 10
    ensures IsDigit(c)
  {
    (48 + d) as char
  }

  function DigitValue(c: char): (d: nat)
    requires IsDigit(c)
    ensures d < 10
  {
    (c as int) - 48
  }

  /** `k` copies of `c`. */
  function Repeat(c: char, k: nat): (s: string)
    ensures |s| == k
    ensures forall i :: 0 <= i < k ==> s[i] == c
  {
    if k == 0 then [] else [c] + Repeat(c, k - 1)
  }

  /** Length of the longest prefix of `s` made of digits. */
  function DigitRun(s: string): (n: nat)
    ensures n <= |s|
    ensures forall i :: 0 <= i < n ==> IsDigit(s[i])
    ensures n < |s| ==> !IsDigit(s[n])
  {
    if |s| == 0 || !IsDigit(s[0]) then 0 else 1 + DigitRun(s[1..])
  }

  /** The digit run of `d + t` is exactly `d` when `t` does not continue it. */
  lemma {:induction false} DigitRunOf(d: string, t: string)
    requires AllDigits(d)
    requires |t| == 0 || !IsDigit(t[0])
    ensures DigitRun(d + t) == |d|
  {
    if |d| > 0 {
      assert (d + t)[1..] == d[1..] + t;
      DigitRunOf(d[1..], t);
    }
  }

  /** Length of the longest prefix of `s` made of spaces. */
  function SpaceRun(s: string): (n: nat)
    ensures n <= |s|
  {
    if |s| == 0 || s[0] != ' ' then 0 else 1 + SpaceRun(s[1..])
  }

  lemma {:induction false} SpaceRunOf(k: nat, t: string)
    requires |t| == 0 || t[0] != ' '
    ensures SpaceRun(Repeat(' ', k) + t) == k
  {
    if k > 0 {
      assert (Repeat(' ', k) + t)[1..] == Repeat(' ', k - 1) + t;
      SpaceRunOf(k - 1, t);
    }
  }

  // ---------------------------------------------------------------------------
  // Decimal text of integers

  /** Decimal digits of `n`, most significant first, no leading zero: Python's `str(n)`. */
  function NatText(n: nat): (s: string)
    ensures 0 < |s| && AllDigits(s)
  {
    if n < 10 then [DigitChar(n)] else NatText(n / 10) + [DigitChar(n % 10)]
  }

  /** The number a string of decimal digits denotes (leading zeros allowed). */
  function DigitsValue(s: string): nat
    requires AllDigits(s)
  {
    if |s| == 0 then 0 else 10 * DigitsValue(s[..|s| - 1]) + DigitValue(s[|s| - 1])
  }

  lemma {:induction false} NatTextRoundTrip(n: nat)
    ensures DigitsValue(NatText(n)) == n
  {
    if n >= 10 {
      var s := NatText(n);
      assert s[..|s| - 1] == NatText(n / 10);
      NatTextRoundTrip(n / 10);
    }
  }

  lemma {:induction false} ZerosValue(k: nat)
    ensures AllDigits(Repeat('0', k)) && DigitsValue(Repeat('0', k)) == 0
  {
    if k > 0 {
      assert Repeat('0', k)[..k - 1] == Repeat('0', k - 1);
      ZerosValue(k - 1);
    }
  }

  /** Leading zeros do not change the value of a digit string. */
  lemma {:induction false} LeadingZerosValue(k: nat, s: string)
    requires AllDigits(s)
    ensures AllDigits(Repeat('0', k) + s)
    ensures DigitsValue(Repeat('0', k) + s) == DigitsValue(s)
  {
    var t := Repeat('0', k) + s;
    if |s| == 0 {
      assert t == Repeat('0', k);
      ZerosValue(k);
    } else {
      assert t[..|t| - 1] == Repeat('0', k) + s[..|s| - 1];
      LeadingZerosValue(k, s[..|s| - 1]);
    }
  }

  function Abs(n: int): nat { if n < 0 then -n else n }

  /** Python's `str(n)` for any int. */
  function IntText(n: int): (s: string)
    ensures 0 < |s| && (IsDigit(s[0]) || s[0] == '-')
  {
    if n < 0 then "-" + NatText(-n) else NatText(n)
  }

  /** How many fill characters a field of width `w` adds to text of length `len`. */
  function Fill(w: nat, len: nat): nat { if w > len then w - len else 0 }

  /** `f"{n:{w}d}"`: `str(n)` right-aligned in at least `w` characters, padded with spaces. */
  function RightAligned(n: int, w: nat): (s: string)
    ensures |s| == if w > |IntText(n)| then w else |IntText(n)|
    ensures s[|s| - |IntText(n)|..] == IntText(n)
  {
    Repeat(' ', Fill(w, |IntText(n)|)) + IntText(n)
  }

  /** `f"{n:0{w}d}"`: the sign, then the digits of `|n|` padded with zeros so that the
      whole is at least `w` characters long. */
  function ZeroPadded(n: int, w: nat): (s: string)
    ensures |s| == if w > |IntText(n)| then w else |IntText(n)|
  {
    var sign := if n < 0 then "-" else "";
    var digits := NatText(Abs(n));
    sign + Repeat('0', Fill(w, |sign| + |digits|)) + digits
  }

  // ---------------------------------------------------------------------------
  // Reading integers back

  /** What reading an integer off the front of a string finds: nothing, or a value and
      the index just past its last digit. */
  datatype Scan = NoNumber | Number(value: int, end: nat)

  /** Reads an optionally signed decimal integer after leading spaces, the way the
      fixed-width files this system writes are read back. */
  function ScanInt(s: string): (r: Scan)
    ensures r.Number? ==> r.end <= |s|
  {
    var sp := SpaceRun(s);
    Shift(ScanSigned(s[sp..]), sp)
  }

  function Shift(r: Scan, k: nat): Scan
  {
    if r.NoNumber? then NoNumber else Number(r.value, k + r.end)
  }

  /** An optional minus sign and at least one digit at the start of `s`. */
  function ScanSigned(s: string): (r: Scan)
    ensures r.Number? ==> r.end <= |s|
  {
    if |s| > 0 && s[0] == '-' then Negate(ScanUnsigned(s[1..])) else ScanUnsigned(s)
  }

  function Negate(r: Scan): Scan
  {
    if r.NoNumber? then NoNumber else Number(-r.value, 1 + r.end)
  }

  /** At least one digit at the start of `s`. */
  function ScanUnsigned(s: string): (r: Scan)
    ensures r.Number? ==> 0 <= r.value && 0 < r.end <= |s|
  {
    var len := DigitRun(s);
    if len == 0 then NoNumber else Number(DigitsValue(s[..len]), len)
  }

  lemma {:induction false} ScanUnsignedDigits(digits: string, rest: string)
    requires 0 < |digits| && AllDigits(digits)
    requires |rest| == 0 || !IsDigit(rest[0])
    ensures ScanUnsigned(digits + rest) == Number(DigitsValue(digits), |digits|)
  {
    DigitRunOf(digits, rest);
    assert (digits + rest)[..|digits|] == digits;
  }

  lemma {:induction false} ScanSignedDigits(neg: bool, digits: string, rest: string)
    requires 0 < |digits| && AllDigits(digits)
    requires |rest| == 0 || !IsDigit(rest[0])
    ensures !neg ==> ScanSigned(digits + rest) == Number(DigitsValue(digits), |digits|)
    ensures neg ==> ScanSigned("-" + digits + rest) == Number(-(DigitsValue(digits) as int), 1 + |digits|)
  {
    ScanUnsignedDigits(digits, rest);
    if neg {
      assert ("-" + digits + rest)[1..] == digits + rest;
    } else {
      assert (digits + rest)[0] == digits[0];
    }
  }

  lemma {:induction false} ScanAfterSpaces(pad: nat, t: string)
    requires |t| == 0 || t[0] != ' '
    ensures ScanInt(Repeat(' ', pad) + t) == Shift(ScanSigned(t), pad)
  {
    SpaceRunOf(pad, t);
    assert (Repeat(' ', pad) + t)[pad..] == t;
  }

  lemma {:induction false} ScanNoSpaces(t: string)
    requires |t| == 0 || t[0] != ' '
    ensures ScanInt(t) == ScanSigned(t)
  {
    assert t[0..] == t;
  }

  /** One more leading space moves the number found one place to the right. */
  lemma {:induction false} ScanIntAfterSpace(t: string)
    ensures ScanInt(" " + t) == Shift(ScanInt(t), 1)
  {
    var s := " " + t;
    assert s[1..] == t;
    var sp := SpaceRun(t);
    assert s[1 + sp..] == t[sp..];
  }

  /** Right-aligned decimal text holds only spaces, digits and a minus sign. */
  lemma {:induction false} RightAlignedFree(n: int, w: nat, c: char)
    requires !IsDigit(c) && c != ' ' && c != '-'
    ensures Free(RightAligned(n, w), c)
  {
    var digits := NatText(Abs(n));
    assert IntText(n) == (if n < 0 then "-" else "") + digits;
    assert forall i :: 0 <= i < |digits| ==> digits[i] != c;
  }

  /** Reading back `str(n)` gives `n`, whatever follows that is not a digit. */
  lemma {:induction false} ScanIntText(n: int, rest: string)
    requires |rest| == 0 || !IsDigit(rest[0])
    ensures ScanSigned(IntText(n) + rest) == Number(n, |IntText(n)|)
  {
    NatTextRoundTrip(Abs(n));
    ScanSignedDigits(n < 0, NatText(Abs(n)), rest);
  }

  /** Reading back `f"{n:{w}d}"` gives `n`, whatever follows that is not a digit. */
  lemma {:induction false} ScanRightAligned(n: int, w: nat, rest: string)
    requires |rest| == 0 || !IsDigit(rest[0])
    ensures ScanInt(RightAligned(n, w) + rest) == Number(n, |RightAligned(n, w)|)
  {
    ScanIntText(n, rest);
    ScanPaddedText(Fill(w, |IntText(n)|), IntText(n), rest, n);
  }

  /** A number read from text is read the same after spaces, further along. */
  lemma {:induction false} ScanPaddedText(pad: nat, s: string, rest: string, n: int)
    requires 0 < |s| && s[0] != ' '
    requires ScanSigned(s + rest) == Number(n, |s|)
    ensures ScanInt(Repeat(' ', pad) + s + rest) == Number(n, pad + |s|)
  {
    assert Repeat(' ', pad) + s + rest == Repeat(' ', pad) + (s + rest);
    assert (s + rest)[0] == s[0];
    ScanAfterSpaces(pad, s + rest);
  }

  /** Reading back `f"{n:0{w}d}"` gives `n`, whatever follows that is not a digit. */
  lemma {:induction false} ScanZeroPadded(n: int, w: nat, rest: string)
    requires |rest| == 0 || !IsDigit(rest[0])
    ensures ScanInt(ZeroPadded(n, w) + rest) == Number(n, |ZeroPadded(n, w)|)
  {
    var neg := n < 0;
    var sign := if neg then "-" else "";
    var digits := NatText(Abs(n));
    var body := Repeat('0', Fill(w, |sign| + |digits|)) + digits;
    assert ZeroPadded(n, w) == sign + body;
    ScanZeroBody(neg, Fill(w, |sign| + |digits|), Abs(n), rest);
  }

  lemma {:induction false} ScanZeroBody(neg: bool, zeros: nat, m: nat, rest: string)
    requires |rest| == 0 || !IsDigit(rest[0])
    ensures var sign := if neg then "-" else "";
            var body := Repeat('0', zeros) + NatText(m);
            ScanInt(sign + body + rest) == Number(if neg then -(m as int) else m, |sign| + |body|)
  {
    ZeroFilledValue(zeros, m);
    ScanSignThenDigits(neg, Repeat('0', zeros) + NatText(m), rest);
  }

  /** An optional sign and a run of digits, with no spaces before, read back. */
  lemma {:induction false} ScanSignThenDigits(neg: bool, digits: string, rest: string)
    requires 0 < |digits| && AllDigits(digits)
    requires |rest| == 0 || !IsDigit(rest[0])
    ensures var sign := if neg then "-" else "";
            ScanInt(sign + digits + rest) ==
              Number(if neg then -(DigitsValue(digits) as int) else DigitsValue(digits), |sign| + |digits|)
  {
    ScanSignedDigits(neg, digits, rest);
    if neg {
      ScanNoSpaces("-" + digits + rest);
    } else {
      assert "" + digits + rest == digits + rest;
      assert (digits + rest)[0] == digits[0];
      ScanNoSpaces(digits + rest);
    }
  }

  /** `m` written with `zeros` leading zeros still denotes `m`. */
  lemma {:induction false} ZeroFilledValue(zeros: nat, m: nat)
    ensures var body := Repeat('0', zeros) + NatText(m);
            0 < |body| && AllDigits(body) && DigitsValue(body) == m
  {
    LeadingZerosValue(zeros, NatText(m));
    NatTextRoundTrip(m);
  }

  /** Distinct numbers have distinct zero-padded texts. */
  lemma {:induction false} ZeroPaddedInjective(a: int, b: int, w: nat)
    requires ZeroPadded(a, w) == ZeroPadded(b, w)
    ensures a == b
  {
    ScanZeroPadded(a, w, "");
    ScanZeroPadded(b, w, "");
    assert ZeroPadded(a, w) + "" == ZeroPadded(b, w) + "";
  }

  // ---------------------------------------------------------------------------
  // Joining and splitting

  predicate Free(s: string, c: char) { forall i :: 0 <= i < |s| ==> s[i] != c }

  /** Python's `sep.join(parts)` for a one-character separator. */
  function Join(parts: seq<string>, sep: char): (s: string)
    ensures |parts| == 1 ==> s == parts[0]
  {
    if |parts| == 0 then ""
    else if |parts| == 1 then parts[0]
    else parts[0] + [sep] + Join(parts[1..], sep)
  }

  /** Python's `s.split(sep)` for a one-character separator: never empty. */
  function Split(s: string, sep: char): (parts: seq<string>)
    ensures |parts| >= 1
  {
    if |s| == 0 then [""]
    else
      var rest := Split(s[1..], sep);
      if s[0] == sep then [""] + rest else [[s[0]] + rest[0]] + rest[1..]
  }

  lemma {:induction false} SplitFree(a: string, sep: char)
    requires Free(a, sep)
    ensures Split(a, sep) == [a]
  {
    if |a| > 0 {
      SplitFree(a[1..], sep);
      assert [a[0]] + a[1..] == a;
    }
  }

  lemma {:induction false} SplitAt(a: string, b: string, sep: char)
    requires Free(a, sep)
    ensures Split(a + [sep] + b, sep) == [a] + Split(b, sep)
  {
    var s := a + [sep] + b;
    if |a| == 0 {
      assert s[1..] == b;
    } else {
      assert s[1..] == a[1..] + [sep] + b;
      SplitAt(a[1..], b, sep);
      assert [a[0]] + a[1..] == a;
    }
  }

  /** Splitting a join gives the parts back when no part holds the separator. */
  lemma {:induction false} SplitJoin(parts: seq<string>, sep: char)
    requires |parts| >= 1
    requires forall i :: 0 <= i < |parts| ==> Free(parts[i], sep)
    ensures Split(Join(parts, sep), sep) == parts
  {
    if |parts| == 1 {
      SplitFree(parts[0], sep);
    } else {
      SplitJoin(parts[1..], sep);
      SplitAt(parts[0], Join(parts[1..], sep), sep);
      assert [parts[0]] + parts[1..] == parts;
    }
  }

  /** No part of a split holds the separator. */
  lemma {:induction false} SplitPartsFree(s: string, sep: char)
    ensures forall i :: 0 <= i < |Split(s, sep)| ==> Free(Split(s, sep)[i], sep)
  {
    if |s| > 0 {
      SplitPartsFree(s[1..], sep);
    }
  }

  /** Python's `sub in s` for strings. */
  predicate Contains(s: string, sub: string)
  {
    exists i :: 0 <= i <= |s| - |sub| && OccursAt(s, sub, i)
  }

  predicate OccursAt(s: string, sub: string, i: nat)
    requires i + |sub| <= |s|
  {
    s[i..i + |sub|] == sub
  }

  /** Python's `s.rsplit(c, 1)[-1]`: the text after the last `c`, or all of `s`. */
  function AfterLast(s: string, c: char): (t: string)
    ensures Free(t, c)
    ensures |t| <= |s| && forall i :: 0 <= i < |t| ==> t[i] == s[|s| - |t| + i]
    ensures Free(s, c) ==> |t| == |s|
    ensures |t| < |s| ==> s[|s| - |t| - 1] == c
  {
    if |s| == 0 then ""
    else if s[|s| - 1] == c then ""
    else
      var init, last := s[..|s| - 1], s[|s| - 1];
      var u := AfterLast(init, c);
      var t := u + [last];
      assert Free(t, c) by {
        assert forall i :: 0 <= i < |u| ==> t[i] == u[i];
      }
      assert Free(s, c) ==> Free(init, c) by {
        assert forall i :: 0 <= i < |init| ==> s[i] == init[i];
      }
      t
  }

  // ---------------------------------------------------------------------------
  // Python's order on strings

  /** `a < b` on Python strings: lexicographic by code point, a proper prefix first. */
  predicate Less(a: string, b: string)
  {
    if |a| == 0 then |b| > 0
    else if |b| == 0 then false
    else a[0] < b[0] || (a[0] == b[0] && Less(a[1..], b[1..]))
  }

  lemma {:induction false} LessIrreflexive(a: string)
    ensures !Less(a, a)
  {
    if |a| > 0 {
      LessIrreflexive(a[1..]);
    }
  }

  lemma {:induction false} LessTransitive(a: string, b: string, c: string)
    requires Less(a, b) && Less(b, c)
    ensures Less(a, c)
  {
    if |a| > 0 && |b| > 0 && |c| > 0 && a[0] == b[0] == c[0] {
      LessTransitive(a[1..], b[1..], c[1..]);
    }
  }

  lemma {:induction false} LessTotal(a: string, b: string)
    requires a != b
    ensures Less(a, b) || Less(b, a)
  {
    if |a| > 0 && |b| > 0 && a[0] == b[0] {
      assert a == [a[0]] + a[1..];
      assert b == [b[0]] + b[1..];
      LessTotal(a[1..], b[1..]);
    }
  }

  lemma {:induction false} LessAsymmetric(a: string, b: string)
    requires Less(a, b)
    ensures !Less(b, a)
  {
    if Less(b, a) {
      LessTransitive(a, b, a);
      LessIrreflexive(a);
    }
  }

  /** Each string before every later one. */
  predicate StrictlySorted(s: seq<string>)
  {
    forall i, j :: 0 <= i < j < |s| ==> Less(s[i], s[j])
  }

  predicate Distinct(s: seq<string>)
  {
    forall i, j :: 0 <= i < j < |s| ==> s[i] != s[j]
  }

  /** `x` put into its place in a sorted sequence that does not hold it. */
  function Insert(x: string, s: seq<string>): (r: seq<string>)
    requires StrictlySorted(s) && x !in s
    ensures StrictlySorted(r)
    ensures |r| == |s| + 1
    ensures forall y :: y in r <==> y == x || y in s
  {
    if |s| == 0 then [x]
    else if Less(x, s[0]) then
      forall j | 0 <= j < |s| ensures Less(x, s[j]) {
        if j > 0 { LessTransitive(x, s[0], s[j]); }
      }
      [x] + s
    else
      LessTotal(x, s[0]);
      var rest := Insert(x, s[1..]);
      assert forall y :: y in rest ==> Less(s[0], y);
      [s[0]] + rest
  }

  /** Python's `sorted` on distinct strings. */
  function SortStrings(s: seq<string>): (r: seq<string>)
    requires Distinct(s)
    ensures StrictlySorted(r)
    ensures |r| == |s|
    ensures forall y :: y in r <==> y in s
  {
    if |s| == 0 then []
    else
      var init := s[..|s| - 1];
      assert Distinct(init);
      assert s[|s| - 1] !in init;
      Insert(s[|s| - 1], SortStrings(init))
  }
}
