/**
 * The few pieces of Python string behaviour the gallery relies on:
 * `str.rsplit('.', 1)`, `str.lower()` on file extensions, the ordering
 * `sorted()` uses on names, and the `%d` / `%.6f` conversions that build
 * cache file names, together with parsers that undo those conversions.
 */
module Text {
  import opened Wrappers

  // ---------------------------------------------------------------------
  // Searching for a character; rsplit('.', 1)
  // ---------------------------------------------------------------------

  /** Index of the first occurrence of `c` in `s`, if any. */
  function IndexOf(s: string, c: char): (r: Option<nat>)
    ensures r.Some? ==> r.value < |s| && s[r.value] == c
    ensures r.Some? ==> forall j :: 0 <= j < r.value ==> s[j] != c
    ensures r.None? ==> forall j :: 0 <= j < |s| ==> s[j] != c
  {
    if s == [] then None
    else if s[0] == c then Some(0)
    else match IndexOf(s[1..], c)
      case None => None
      case Some(i) => Some(i + 1)
  }

  /** Index of the last occurrence of `c` in `s`, if any. */
  function LastIndexOf(s: string, c: char): (r: Option<nat>)
    ensures r.Some? ==> r.value < |s| && s[r.value] == c
    ensures r.Some? ==> forall j :: r.value < j < |s| ==> s[j] != c
    ensures r.None? ==> forall j :: 0 <= j < |s| ==> s[j] != c
  {
    if s == [] then None
    else if s[|s| - 1] == c then Some(|s| - 1)
    else LastIndexOf(s[..|s| - 1], c)
  }

  /**
   * `s.rsplit('.', 1)` unpacked into two names: the text before the last
   * dot and the text after it. Python raises ValueError on the unpacking
   * when `s` has no dot; that is `None` here.
   */
  function RSplitDot(s: string): Option<(string, string)>
  {
    match LastIndexOf(s, '.')
    case None => None
    case Some(i) => Some((s[..i], s[i + 1..]))
  }

  /** Splitting succeeds exactly when there is a dot, and then re-joins to `s` with a dot-free tail. */
  lemma RSplitDotSound(s: string)
    ensures RSplitDot(s).None? <==> '.' !in s
    ensures RSplitDot(s).Some? ==>
      var (stem, ext) := RSplitDot(s).value;
      s == stem + "." + ext && '.' !in ext
  {
    match LastIndexOf(s, '.')
    case None =>
    case Some(i) =>
      var stem, ext := s[..i], s[i + 1..];
      assert s == stem + "." + ext;
      forall j | 0 <= j < |ext| ensures ext[j] != '.' {
        assert ext[j] == s[i + 1 + j];
      }
  }

  /** The split is determined by the parts: any stem, a dot, and a dot-free extension split back to those parts. */
  lemma {:induction false} RSplitDotOfJoin(stem: string, ext: string)
    requires '.' !in ext
    ensures RSplitDot(stem + "." + ext) == Some((stem, ext))
  {
    var s := stem + "." + ext;
    var i := |stem|;
    assert s[i] == '.';
    match LastIndexOf(s, '.')
    case None =>
      assert false;
    case Some(k) =>
      if k < i {
        assert false;
      } else if k > i {
        assert false;
      }
      assert s[..i] == stem;
      assert s[i + 1..] == ext;
  }

  // ---------------------------------------------------------------------
  // str.lower() on extensions
  // ---------------------------------------------------------------------

  function LowerChar(c: char): char
  {
    if 'A' <= c <= 'Z' then (c as int + 32) as char else c
  }

  /** ASCII lower-casing, character by character. */
  function Lower(s: string): (r: string)
    ensures |r| == |s|
    ensures forall i :: 0 <= i < |s| ==> r[i] == LowerChar(s[i])
  {
    if s == [] then [] else [LowerChar(s[0])] + Lower(s[1..])
  }

  // ---------------------------------------------------------------------
  // Code-point lexicographic order, as Python compares str values
  // ---------------------------------------------------------------------

  /** `a < b` for Python strings: first differing character decides, a proper prefix is smaller. */
  predicate Below(a: string, b: string)
  {
    if a == [] then b != []
    else if b == [] then false
    else if a[0] != b[0] then a[0] < b[0]
    else Below(a[1..], b[1..])
  }

  lemma {:induction false} BelowIrreflexive(a: string)
    ensures !Below(a, a)
  {
    if a != [] {
      BelowIrreflexive(a[1..]);
    }
  }

  lemma {:induction false} BelowTransitive(a: string, b: string, c: string)
    requires Below(a, b) && Below(b, c)
    ensures Below(a, c)
  {
    if a != [] && b != [] && c != [] && a[0] == b[0] && b[0] == c[0] {
      BelowTransitive(a[1..], b[1..], c[1..]);
    }
  }

  lemma {:induction false} BelowTotal(a: string, b: string)
    requires a != b
    ensures Below(a, b) || Below(b, a)
  {
    if a != [] && b != [] && a[0] == b[0] {
      assert a == [a[0]] + a[1..] && b == [b[0]] + b[1..];
      BelowTotal(a[1..], b[1..]);
    }
  }

  lemma {:induction false} BelowAsymmetric(a: string, b: string)
    requires Below(a, b)
    ensures !Below(b, a)
  {
    if a != [] && b != [] && a[0] == b[0] {
      BelowAsymmetric(a[1..], b[1..]);
    }
  }

  // ---------------------------------------------------------------------
  // Decimal digits: '%d' and '%.6f'
  // ---------------------------------------------------------------------

  predicate IsDigit(c: char)
  {
    '0' <= c <= '9'
  }

  predicate AllDigits(s: string)
  {
    forall i :: 0 <= i < |s| ==> IsDigit(s[i])
  }

  function DigitChar(d: nat): (c: char)
    requires d < 10
    ensures IsDigit(c) && c as int - '0' as int == d
  {
    (d + '0' as int) as char
  }

  function DigitValue(c: char): nat
    requires IsDigit(c)
  {
    c as int - '0' as int
  }

  /** The number a run of decimal digits denotes (most significant first). */
  function DigitsValue(s: string): nat
    requires AllDigits(s)
  {
    if s == [] then 0 else DigitsValue(s[..|s| - 1]) * 10 + DigitValue(s[|s| - 1])
  }

  /** `'%d' % n` for a non-negative `n`: no leading zeros, at least one digit. */
  function NatToString(n: nat): (s: string)
    ensures |s| > 0 && AllDigits(s)
  {
    if n < 10 then [DigitChar(n)] else NatToString(n / 10) + [DigitChar(n % 10)]
  }

  /** `'%d' % n` for any integer. */
  function IntToString(n: int): string
  {
    if n < 0 then "-" + NatToString(-n) else NatToString(n)
  }

  /** Exactly `width` digits of `n`, zero-padded on the left (the fraction of '%.6f'). */
  function FixedDigits(n: nat, width: nat): (s: string)
    ensures |s| == width && AllDigits(s)
  {
    if width == 0 then [] else FixedDigits(n / 10, width - 1) + [DigitChar(n % 10)]
  }

  const Million := 1000000

  /**
   * `'%.6f' % x` where `x` is an exact count of millionths: an optional
   * minus sign, the integer part, a dot and six fraction digits.
   */
  function Fixed6(micro: int): string
  {
    var a := if micro < 0 then -micro else micro;
    (if micro < 0 then "-" else "") + NatToString(a / Million) + "." + FixedDigits(a % Million, 6)
  }

  lemma {:induction false} DigitsValueOfNat(n: nat)
    ensures DigitsValue(NatToString(n)) == n
  {
    if n >= 10 {
      var s := NatToString(n);
      DigitsValueOfNat(n / 10);
      assert s[..|s| - 1] == NatToString(n / 10);
    }
  }

  lemma {:induction false} DigitsValueOfFixed(n: nat, width: nat)
    requires n < Pow10(width)
    ensures DigitsValue(FixedDigits(n, width)) == n
  {
    if width > 0 {
      var s := FixedDigits(n, width);
      assert s[..|s| - 1] == FixedDigits(n / 10, width - 1);
      DigitsValueOfFixed(n / 10, width - 1);
    }
  }

  function Pow10(k: nat): (r: nat)
    ensures r > 0
  {
    if k == 0 then 1 else 10 * Pow10(k - 1)
  }

  // ---------------------------------------------------------------------
  // Parsers that undo the conversions above
  // ---------------------------------------------------------------------

  /** Length of the longest all-digit prefix of `s`. */
  function DigitRun(s: string): (n: nat)
    ensures n <= |s| && AllDigits(s[..n])
    ensures n < |s| ==> !IsDigit(s[n])
  {
    if s == [] || !IsDigit(s[0]) then 0
    else
      var k := 1 + DigitRun(s[1..]);
      assert s[..k] == [s[0]] + s[1..][..k - 1];
      k
  }

  /** Reads a non-empty run of digits from the front of `s`. */
  function ParseNat(s: string): Option<(nat, string)>
  {
    var k := DigitRun(s);
    if k == 0 then None else Some((DigitsValue(s[..k]), s[k..]))
  }

  /** Reads an optional minus sign and a non-empty run of digits. */
  function ParseInt(s: string): Option<(int, string)>
  {
    if |s| > 0 && s[0] == '-' then
      match ParseNat(s[1..])
      case None => None
      case Some((v, rest)) => Some((0 - v as int, rest))
    else
      match ParseNat(s)
      case None => None
      case Some((v, rest)) => Some((v, rest))
  }

  /** Reads what `Fixed6` writes: sign, integer part, a dot, six digits. */
  function ParseFixed6(s: string): Option<(int, string)>
  {
    var neg := |s| > 0 && s[0] == '-';
    var t := if neg then s[1..] else s;
    match ParseNat(t)
    case None => None
    case Some((whole, r)) =>
      if |r| >= 7 && r[0] == '.' && AllDigits(r[1..7]) then
        var v := whole * Million + DigitsValue(r[1..7]);
        Some((if neg then -v else v, r[7..]))
      else None
  }

  predicate StartsWithNonDigit(rest: string)
  {
    rest == [] || !IsDigit(rest[0])
  }

  lemma {:induction false} DigitRunOfDigits(d: string, rest: string)
    requires AllDigits(d) && StartsWithNonDigit(rest)
    ensures DigitRun(d + rest) == |d|
  {
    if d != [] {
      assert (d + rest)[1..] == d[1..] + rest;
      DigitRunOfDigits(d[1..], rest);
    }
  }

  /** Reading back a formatted natural number recovers it and leaves the rest. */
  lemma ParseNatOfString(n: nat, rest: string)
    requires StartsWithNonDigit(rest)
    ensures ParseNat(NatToString(n) + rest) == Some((n, rest))
  {
    var d := NatToString(n);
    DigitRunOfDigits(d, rest);
    assert (d + rest)[..|d|] == d;
    assert (d + rest)[|d|..] == rest;
    DigitsValueOfNat(n);
  }

  /** `ParseInt` undoes `IntToString`: the round trip of '%d'. */
  lemma ParseIntOfString(n: int, rest: string)
    requires StartsWithNonDigit(rest)
    ensures ParseInt(IntToString(n) + rest) == Some((n, rest))
  {
    if n < 0 {
      var s := IntToString(n) + rest;
      assert s[1..] == NatToString(-n) + rest;
      ParseNatOfString(-n, rest);
    } else {
      ParseNatOfString(n, rest);
      assert NatToString(n)[0] != '-';
    }
  }

  /** `ParseFixed6` undoes `Fixed6`: the round trip of '%.6f' on millionths. */
  lemma ParseFixed6OfString(micro: int, rest: string)
    ensures ParseFixed6(Fixed6(micro) + rest) == Some((micro, rest))
  {
    var a := if micro < 0 then -micro else micro;
    var whole, frac := a / Million, FixedDigits(a % Million, 6);
    var tail := "." + frac + rest;
    var t := NatToString(whole) + tail;
    var s := Fixed6(micro) + rest;
    if micro < 0 {
      assert s == "-" + t;
      assert s[1..] == t;
    } else {
      assert s == t;
      assert NatToString(whole)[0] != '-';
    }
    ParseNatOfString(whole, tail);
    assert tail[1..7] == frac;
    assert tail[7..] == rest;
    assert Pow10(6) == Million;
    DigitsValueOfFixed(a % Million, 6);
  }
}
