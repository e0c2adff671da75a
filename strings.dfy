/** Python string built-ins the keggtools code leans on: `str.split` with an
    explicit separator, `str.join`, `str(int)`, `int(str)`, the `02x` format
    and ASCII `str.lower`. */
module Strings {
  import opened Wrappers

  // ---------------------------------------------------------------------
  // Searching

  /** `sep` occurs in `s` starting at index `i`. */
  predicate OccursAt(s: string, sep: string, i: int)
  {
    0 <= i && i + |sep| <= |s| && s[i..i + |sep|] == sep
  }

  ghost predicate Contains(s: string, sep: string)
  {
    exists i :: OccursAt(s, sep, i)
  }

  /** The first index at or after `from` where `sep` occurs, as `str.find` does. */
  function FindFrom(s: string, sep: string, from: nat): (r: Option<nat>)
    requires from <= |s|
    ensures r.Some? ==> from <= r.value && OccursAt(s, sep, r.value)
    ensures r.Some? ==> forall k :: from <= k < r.value ==> !OccursAt(s, sep, k)
    ensures r.None? ==> forall k :: from <= k ==> !OccursAt(s, sep, k)
    decreases |s| - from
  {
    if OccursAt(s, sep, from) then Some(from)
    else if from + |sep| >= |s| then None
    else FindFrom(s, sep, from + 1)
  }

  // ---------------------------------------------------------------------
  // split and join

  /** `s.split(sep)` for a non-empty separator: the pieces between
      non-overlapping occurrences of `sep`, scanning from the left. */
  function Split(s: string, sep: string): (parts: seq<string>)
    requires |sep| > 0
    ensures |parts| >= 1
    decreases |s|
  {
    match FindFrom(s, sep, 0)
    case None => [s]
    case Some(j) => [s[..j]] + Split(s[j + |sep|..], sep)
  }

  /** `sep.join(xs)`. */
  function Join(xs: seq<string>, sep: string): string
  {
    if |xs| == 0 then ""
    else if |xs| == 1 then xs[0]
    else xs[0] + sep + Join(xs[1..], sep)
  }

  /** Joining the pieces of a split with the same separator gives back the string. */
  lemma {:induction false} JoinSplit(s: string, sep: string)
    requires |sep| > 0
    ensures Join(Split(s, sep), sep) == s
    decreases |s|
  {
    match FindFrom(s, sep, 0)
    case None =>
    case Some(j) =>
      var rest := s[j + |sep|..];
      var tail := Split(rest, sep);
      assert Split(s, sep) == [s[..j]] + tail;
      JoinSplit(rest, sep);
      JoinCons(s[..j], tail, sep);
      assert s == s[..j] + sep + rest by {
        assert s[j..j + |sep|] == sep;
        assert s == s[..j] + s[j..j + |sep|] + rest;
      }
  }

  /** Joining a list with one more element in front. */
  lemma JoinCons(x: string, xs: seq<string>, sep: string)
    requires |xs| >= 1
    ensures Join([x] + xs, sep) == x + sep + Join(xs, sep)
  {
    assert ([x] + xs)[1..] == xs;
  }

  /** No piece of a split contains the separator. */
  lemma {:induction false} SplitPiecesFree(s: string, sep: string)
    requires |sep| > 0
    ensures forall p :: p in Split(s, sep) ==> !Contains(p, sep)
    decreases |s|
  {
    match FindFrom(s, sep, 0)
    case None =>
    case Some(j) =>
      var rest := s[j + |sep|..];
      SplitPiecesFree(rest, sep);
      var head := s[..j];
      forall k | OccursAt(head, sep, k) ensures false {
        assert head[k..k + |sep|] == s[k..k + |sep|];
        assert OccursAt(s, sep, k);
      }
      assert Split(s, sep) == [head] + Split(rest, sep);
  }

  /** For a one-character separator, splitting a join gives back the list,
      provided no element contains the separator. */
  lemma {:induction false} SplitJoin(xs: seq<string>, c: char)
    requires |xs| >= 1
    requires forall i :: 0 <= i < |xs| ==> c !in xs[i]
    ensures Split(Join(xs, [c]), [c]) == xs
    decreases |xs|
  {
    var s := Join(xs, [c]);
    if |xs| == 1 {
      NoCharNoOccurrence(xs[0], c);
    } else {
      var rest := Join(xs[1..], [c]);
      assert s == xs[0] + [c] + rest;
      var n := |xs[0]|;
      assert OccursAt(s, [c], n);
      forall k | 0 <= k < n ensures !OccursAt(s, [c], k) {
        assert s[k] == xs[0][k];
      }
      FirstOccurrence(s, [c], n);
      assert s[n + 1..] == rest;
      SplitJoin(xs[1..], c);
      assert s[..n] == xs[0];
    }
  }

  lemma NoCharNoOccurrence(s: string, c: char)
    requires c !in s
    ensures FindFrom(s, [c], 0).None?
  {
    forall k | 0 <= k < |s| ensures !OccursAt(s, [c], k) {
      assert s[k] in s;
      assert s[k..k + 1] == [s[k]];
    }
  }

  lemma FirstOccurrence(s: string, sep: string, n: nat)
    requires OccursAt(s, sep, n)
    requires forall k :: 0 <= k < n ==> !OccursAt(s, sep, k)
    ensures FindFrom(s, sep, 0) == Some(n)
  {
    match FindFrom(s, sep, 0)
    case None =>
    case Some(j) =>
  }

  /** `s.split(sep)[0]`: the text before the first occurrence of `sep`. */
  function BeforeFirst(s: string, sep: string): (r: string)
    requires |sep| > 0
  {
    Split(s, sep)[0]
  }

  /** `BeforeFirst` is the longest prefix free of the separator: it is a prefix
      of `s`, it does not contain `sep`, and either it is all of `s` or `sep`
      follows it. */
  lemma BeforeFirstSpec(s: string, sep: string)
    requires |sep| > 0
    ensures |BeforeFirst(s, sep)| <= |s| && s[..|BeforeFirst(s, sep)|] == BeforeFirst(s, sep)
    ensures !Contains(BeforeFirst(s, sep), sep)
    ensures BeforeFirst(s, sep) == s || OccursAt(s, sep, |BeforeFirst(s, sep)|)
    ensures BeforeFirst(s, sep) == s <==> !Contains(s, sep)
  {
    SplitPiecesFree(s, sep);
    assert BeforeFirst(s, sep) in Split(s, sep);
    match FindFrom(s, sep, 0)
    case None =>
    case Some(j) =>
      assert BeforeFirst(s, sep) == s[..j];
  }

  // ---------------------------------------------------------------------
  // Decimal numbers: str(int) and int(str)

  predicate IsDigit(c: char) { '0' <= c <= '9' }

  predicate AllDigits(s: string) { forall i :: 0 <= i < |s| ==> IsDigit(s[i]) }

  function DigitChar(d: nat): (c: char)
    requires d < 10
    ensures IsDigit(c)
  {
    (48 + d) as char
  }

  function DigitValue(c: char): nat
    requires IsDigit(c)
  {
    (c as int - 48) as nat
  }

  /** Decimal notation of a natural number, without leading zeros. */
  function DecimalNat(n: nat): (s: string)
    ensures |s| >= 1 && AllDigits(s)
  {
    if n < 10 then [DigitChar(n)] else DecimalNat(n / 10) + [DigitChar(n % 10)]
  }

  /** `str(i)` for a Python int. */
  function Decimal(i: int): string
  {
    if i < 0 then "-" + DecimalNat(-i) else DecimalNat(i)
  }

  /** The value of a string of decimal digits (leading zeros allowed). */
  function DigitsValue(s: string): nat
    requires AllDigits(s)
  {
    if s == [] then 0 else DigitsValue(s[..|s| - 1]) * 10 + DigitValue(s[|s| - 1])
  }

  /** `int(s)`: an optional sign followed by at least one ASCII digit;
      anything else makes `int` raise ValueError. */
  function ParseInt(s: string): (r: Option<int>)
    ensures r.Some? ==> |s| >= 1
  {
    var negative := |s| > 0 && s[0] == '-';
    var body := if |s| > 0 && (s[0] == '-' || s[0] == '+') then s[1..] else s;
    if |body| > 0 && AllDigits(body) then
      Some(if negative then -(DigitsValue(body) as int) else DigitsValue(body))
    else None
  }

  lemma {:induction false} DigitsValueDecimalNat(n: nat)
    ensures DigitsValue(DecimalNat(n)) == n
  {
    if n >= 10 {
      DigitsValueDecimalNat(n / 10);
      var s := DecimalNat(n);
      assert s[..|s| - 1] == DecimalNat(n / 10);
    }
  }

  /** `int(str(i)) == i`. */
  lemma ParseIntDecimal(i: int)
    ensures ParseInt(Decimal(i)) == Some(i)
  {
    if i < 0 {
      DigitsValueDecimalNat(-i);
      assert Decimal(i)[1..] == DecimalNat(-i);
    } else {
      DigitsValueDecimalNat(i);
    }
  }

  // ---------------------------------------------------------------------
  // Hexadecimal: the `x` and `02x` formats

  predicate IsLowerHexDigit(c: char) { IsDigit(c) || 'a' <= c <= 'f' }

  predicate IsHexDigit(c: char) { IsDigit(c) || 'a' <= c <= 'f' || 'A' <= c <= 'F' }

  function HexChar(d: nat): (c: char)
    requires d < 16
    ensures IsLowerHexDigit(c)
  {
    if d < 10 then DigitChar(d) else (87 + d) as char
  }

  function HexDigitValue(c: char): nat
    requires IsHexDigit(c)
  {
    if IsDigit(c) then DigitValue(c)
    else if 'a' <= c <= 'f' then (c as int - 87) as nat
    else (c as int - 55) as nat
  }

  /** Hexadecimal notation of a natural number in lower case, no leading zeros. */
  function HexNat(n: nat): (s: string)
    ensures |s| >= 1
    ensures forall i :: 0 <= i < |s| ==> IsLowerHexDigit(s[i])
  {
    if n < 16 then [HexChar(n)] else HexNat(n / 16) + [HexChar(n % 16)]
  }

  /** `format(i, "02x")`: lower-case hex, zero-padded to width two; a negative
      number gets a minus sign, which already makes it two characters wide. */
  function Hex02(i: int): string
  {
    if i < 0 then "-" + HexNat(-i)
    else if i < 16 then "0" + HexNat(i)
    else HexNat(i)
  }

  /** The value of a string of hex digits of either case. */
  function HexValue(s: string): nat
    requires forall i :: 0 <= i < |s| ==> IsHexDigit(s[i])
  {
    if s == [] then 0 else HexValue(s[..|s| - 1]) * 16 + HexDigitValue(s[|s| - 1])
  }

  /** A byte formats as exactly two lower-case hex digits that read back as it. */
  lemma Hex02Byte(n: int)
    requires 0 <= n < 256
    ensures |Hex02(n)| == 2
    ensures forall i :: 0 <= i < 2 ==> IsLowerHexDigit(Hex02(n)[i])
    ensures HexValue(Hex02(n)) == n
  {
    if n < 16 {
      assert Hex02(n) == ['0', HexChar(n)];
      HexCharValue(n);
      assert Hex02(n) == ['0', HexChar(n)];
      assert Hex02(n)[..1] == ['0'];
      assert HexValue(['0']) == 0;
    } else {
      assert HexNat(n / 16) == [HexChar(n / 16)];
      assert Hex02(n) == [HexChar(n / 16), HexChar(n % 16)];
      assert Hex02(n)[..1] == [HexChar(n / 16)];
      HexCharValue(n / 16);
      HexCharValue(n % 16);
      assert HexValue([HexChar(n / 16)]) == n / 16;
    }
  }

  lemma HexCharValue(d: nat)
    requires d < 16
    ensures HexDigitValue(HexChar(d)) == d
  {
  }

  // ---------------------------------------------------------------------
  // str.lower on ASCII letters

  function LowerChar(c: char): char
  {
    if 'A' <= c <= 'Z' then (c as int + 32) as char else c
  }

  /** ASCII `str.lower`. */
  function LowerCase(s: string): string
  {
    if s == [] then [] else [LowerChar(s[0])] + LowerCase(s[1..])
  }

  /** `lower` maps each character on its own and keeps the length. */
  lemma {:induction false} LowerCaseChars(s: string)
    ensures |LowerCase(s)| == |s|
    ensures forall i :: 0 <= i < |s| ==> LowerCase(s)[i] == LowerChar(s[i])
    decreases |s|
  {
    if s != [] {
      LowerCaseChars(s[1..]);
      forall i | 0 < i < |s| ensures LowerCase(s)[i] == LowerChar(s[i]) {
        assert LowerCase(s)[i] == LowerCase(s[1..])[i - 1];
        assert s[1..][i - 1] == s[i];
      }
    }
  }

  /** No upper-case ASCII letter occurs in `s`. */
  predicate NoUpper(s: string)
  {
    forall i :: 0 <= i < |s| ==> !('A' <= s[i] <= 'Z')
  }

  lemma NoUpperAppend(a: string, b: string)
    requires NoUpper(a) && NoUpper(b)
    ensures NoUpper(a + b)
  {
    forall i | 0 <= i < |a + b| ensures !('A' <= (a + b)[i] <= 'Z') {
      if i >= |a| {
        assert (a + b)[i] == b[i - |a|];
      }
    }
  }

  /** Lower-casing changes nothing in a string without upper-case ASCII letters. */
  lemma {:induction false} LowerNoUpper(s: string)
    requires NoUpper(s)
    ensures LowerCase(s) == s
    decreases |s|
  {
    if s != [] {
      assert NoUpper(s[1..]) by {
        forall i | 0 <= i < |s[1..]| ensures !('A' <= s[1..][i] <= 'Z') {
          assert s[1..][i] == s[i + 1];
        }
      }
      LowerNoUpper(s[1..]);
      assert [s[0]] + s[1..] == s;
    }
  }
}
