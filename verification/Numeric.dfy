/** ASCII numbers and C strings, as the record fields hold them. */
module Numeric {
  import opened Bytes

  const SPACE: byte := 32
  const MINUS: byte := 45
  const PLUS: byte := 43
  const ZERO: byte := 48

  /** A NUL-terminated reading of s: everything before the first NUL. */
  function CString(s: bytes): (r: bytes)
    ensures |r| <= |s| && r == s[..|r|] && 0 !in r
    ensures |r| < |s| ==> s[|r|] == 0
  {
    if s == [] || s[0] == 0 then [] else [s[0]] + CString(s[1..])
  }

  function Zeros(n: nat): (s: bytes)
    ensures |s| == n && forall k :: 0 <= k < n ==> s[k] == 0
  {
    seq(n, _ => 0)
  }

  /** The at most n bytes of a C string that fit into an n-byte field. */
  function Cut(s: bytes, n: nat): (r: bytes)
    ensures |r| <= n && 0 !in r
  {
    var c := CString(s);
    if |c| <= n then c else c[..n]
  }

  /** strncpy into an n-byte field: the string, cut to n, NUL-padded. */
  function StrnCpy(s: bytes, n: nat): (r: bytes)
    ensures |r| == n
  {
    Cut(s, n) + Zeros(n - |Cut(s, n)|)
  }

  /** strncpy byte by byte: copy up to the first NUL or the end of the string, then NULs. */
  lemma StrnCpyAt(s: bytes, n: nat, k: nat)
    requires k < n
    ensures StrnCpy(s, n)[k] == if k < |CString(s)| then s[k] else 0
    ensures k < |CString(s)| ==> k < |s| && s[k] != 0
  {
    var c := CString(s);
    if k < |c| {
      assert c[k] == s[k] && c[k] in c;
    }
  }

  lemma {:induction false} CStringOfPadded(c: bytes, pad: bytes)
    requires 0 !in c
    requires pad == [] || pad[0] == 0
    ensures CString(c + pad) == c
  {
    if c == [] {
      assert c + pad == pad;
    } else {
      assert (c + pad)[1..] == c[1..] + pad;
      CStringOfPadded(c[1..], pad);
    }
  }

  /** Reading back a string field gives the string that strncpy could fit. */
  lemma StringFieldRoundTrip(s: bytes, n: nat)
    ensures CString(StrnCpy(s, n)) == Cut(s, n)
  {
    CStringOfPadded(Cut(s, n), Zeros(n - |Cut(s, n)|));
  }

  lemma CutIsIdempotent(s: bytes, n: nat)
    ensures Cut(Cut(s, n), n) == Cut(s, n)
  {
    CStringOfPadded(Cut(s, n), []);
    assert Cut(s, n) + [] == Cut(s, n);
  }

  // ------------------------------------------------------------ printing

  /** std::to_string on a non-negative number. */
  function Decimal(n: nat): (s: bytes)
    ensures |s| > 0
  {
    if n < 10 then [ZERO + n] else Decimal(n / 10) + [ZERO + n % 10]
  }

  function ToText(n: int): (r: bytes) {
    if n < 0 then [MINUS] + Decimal(-n) else Decimal(n)
  }

  function Spaces(n: nat): (s: bytes)
    ensures |s| == n && forall k :: 0 <= k < n ==> s[k] == SPACE
  {
    seq(n, _ => SPACE)
  }

  /** std::setw(width) with std::right. */
  function RightJustified(s: bytes, width: nat): (r: bytes) {
    if |s| < width then Spaces(width - |s|) + s else s
  }

  /** set_int on a NUMERIC field: the first `length` bytes of the padded text. */
  function NumericField(n: int, length: nat): (s: bytes)
    ensures |s| == length
  {
    RightJustified(ToText(n), length)[..length]
  }

  // ------------------------------------------------------------ parsing

  predicate IsSpace(b: byte) {
    b == SPACE || 9 <= b <= 13
  }

  predicate IsDigit(b: byte) {
    ZERO <= b <= ZERO + 9
  }

  function SkipSpaces(s: bytes): (r: bytes) {
    if s != [] && IsSpace(s[0]) then SkipSpaces(s[1..]) else s
  }

  /** The longest prefix of s made of digits. */
  function Digits(s: bytes): (r: bytes) {
    if s != [] && IsDigit(s[0]) then [s[0]] + Digits(s[1..]) else []
  }

  function Value(s: bytes): (r: int) {
    if s == [] then 0 else 10 * Value(s[..|s| - 1]) + (s[|s| - 1] - ZERO)
  }

  /** strtoll saturates. */
  function Clamp(n: int): (r: int64) {
    if n < -TWO63 then -TWO63 else if n >= TWO63 then TWO63 - 1 else n
  }

  /** strtoll(s, nullptr, 10): white space, an optional sign, digits. */
  function ParseInt64(s: bytes): (r: int64) {
    var t := SkipSpaces(s);
    if t != [] && t[0] == MINUS then Clamp(-Value(Digits(t[1..])))
    else if t != [] && t[0] == PLUS then Clamp(Value(Digits(t[1..])))
    else Clamp(Value(Digits(t)))
  }

  /** get_int on a NUMERIC field. */
  function ParseField(slot: bytes): (r: int64) {
    ParseInt64(CString(slot))
  }

  // ------------------------------------------------------------ round trip

  lemma {:induction false} DecimalReads(n: nat)
    ensures forall k :: 0 <= k < |Decimal(n)| ==> IsDigit(Decimal(n)[k])
    ensures Value(Decimal(n)) == n
  {
    if n < 10 {
      assert Decimal(n)[..0] == [];
    } else {
      DecimalReads(n / 10);
      assert Decimal(n)[..|Decimal(n)| - 1] == Decimal(n / 10);
    }
  }

  lemma {:induction false} DecimalLength(n: nat, k: nat, bound: nat)
    requires n < bound && bound == Pow10(k) && k > 0
    ensures |Decimal(n)| <= k
    decreases k
  {
    if n >= 10 {
      if k == 1 {
        assert false;
      } else {
        DecimalLength(n / 10, k - 1, Pow10(k - 1));
      }
    }
  }

  function Pow10(k: nat): (p: nat)
    ensures p > 0
  {
    if k == 0 then 1 else 10 * Pow10(k - 1)
  }

  lemma {:induction false} DigitsOfAllDigits(s: bytes)
    requires forall k :: 0 <= k < |s| ==> IsDigit(s[k])
    ensures Digits(s) == s
  {
    if s != [] {
      DigitsOfAllDigits(s[1..]);
    }
  }

  lemma {:induction false} SkipPadding(n: nat, s: bytes)
    requires s != [] && !IsSpace(s[0])
    ensures SkipSpaces(Spaces(n) + s) == s
  {
    if n == 0 {
      assert Spaces(n) + s == s;
    } else {
      assert (Spaces(n) + s)[1..] == Spaces(n - 1) + s;
      SkipPadding(n - 1, s);
    }
  }

  lemma TextShape(n: int)
    ensures forall k :: 0 <= k < |ToText(n)| ==> IsDigit(ToText(n)[k]) || ToText(n)[k] == MINUS
    ensures -TWO63 <= n < TWO63 ==> |ToText(n)| <= 20
    ensures 0 < |ToText(n)|
  {
    var m := if n < 0 then -n else n;
    DecimalReads(m);
    if -TWO63 <= n < TWO63 {
      assert Pow10(4) == 10000;
      assert Pow10(8) == 10000_0000;
      assert Pow10(12) == 10000_0000_0000;
      assert Pow10(16) == 10000_0000_0000_0000;
      assert Pow10(19) == 1000_0000_0000_0000_0000;
      DecimalLength(m, 19, Pow10(19));
    }
  }

  lemma ValueOfDecimal(n: nat)
    ensures Value(Digits(Decimal(n))) == n
    ensures IsDigit(Decimal(n)[0])
  {
    DecimalReads(n);
    DigitsOfAllDigits(Decimal(n));
  }

  lemma ParseText(n: int64, pad: nat)
    ensures ParseInt64(Spaces(pad) + ToText(n)) == n
  {
    var t, v: int := ToText(n), n;
    if v < 0 {
      ValueOfDecimal(-v);
      assert t[1..] == Decimal(-v);
    } else {
      ValueOfDecimal(v);
    }
    SkipPadding(pad, t);
  }

  /** Every int64 survives a 20-character NUMERIC field. */
  lemma NumericRoundTrip(n: int64)
    ensures ParseField(NumericField(n, 20)) == n
  {
    var t := ToText(n);
    TextShape(n);
    var s := Spaces(20 - |t|) + t;
    assert NumericField(n, 20) == s;
    forall k | 0 <= k < 20
      ensures s[k] != 0
    {
      if k >= 20 - |t| {
        assert s[k] == t[k - (20 - |t|)];
      }
    }
    CStringOfPadded(s, []);
    assert s + [] == s;
    ParseText(n, 20 - |t|);
  }

  /** uint64_t -> int64_t -> text -> int64_t -> uint64_t is the identity. */
  lemma SequenceNumberRoundTrip(n: uint64)
    ensures ToUnsigned(ParseField(NumericField(ToSigned(n), 20))) == n
  {
    NumericRoundTrip(ToSigned(n));
  }

  // ------------------------------------------------------------ the text itself

  lemma DivideTwice(n: nat, p: nat)
    requires p > 0
    ensures n / 10 / p == n / (10 * p)
  {
    var q, r := n / 10 / p, n / 10 % p;
    assert n / 10 == p * q + r;
    assert n == 10 * (p * q + r) + n % 10;
    assert n == (10 * p) * q + (10 * r + n % 10);
    DivModUnique(n, 10 * p, q, 10 * r + n % 10);
  }

  /** The decimal digits of n, most significant first, with no leading zero. */
  ghost predicate IsNumeral(ds: bytes, n: nat) {
    && (forall k :: 0 <= k < |ds| ==> ds[|ds| - 1 - k] == 48 + n / Pow10(k) % 10)
    && n < Pow10(|ds|) && (if n == 0 then |ds| == 1 else |ds| > 0 && Pow10(|ds| - 1) <= n)
  }

  lemma NumeralSnoc(ds: bytes, n: nat)
    requires n >= 10 && IsNumeral(ds, n / 10)
    ensures IsNumeral(ds + [48 + n % 10], n)
  {
    var ds' := ds + [48 + n % 10];
    forall k | 0 <= k < |ds'|
      ensures ds'[|ds'| - 1 - k] == 48 + n / Pow10(k) % 10
    {
      if k > 0 {
        assert ds'[|ds'| - 1 - k] == ds[|ds| - 1 - (k - 1)];
        DivideTwice(n, Pow10(k - 1));
      }
    }
    assert Pow10(|ds'|) == 10 * Pow10(|ds|) && Pow10(|ds|) == 10 * Pow10(|ds| - 1);
  }

  lemma {:induction false} DecimalIs(n: nat)
    ensures IsNumeral(Decimal(n), n)
  {
    if n < 10 {
      assert Pow10(1) == 10 * Pow10(0);
    } else {
      DecimalIs(n / 10);
      NumeralSnoc(Decimal(n / 10), n);
    }
  }

  /** std::to_string: a minus sign if the number is negative, then its digits. */
  lemma TextIs(n: int)
    ensures n < 0 ==> ToText(n)[0] == 45 && IsNumeral(ToText(n)[1..], -n)
    ensures n >= 0 ==> IsNumeral(ToText(n), n)
  {
    DecimalIs(if n < 0 then -n else n);
    assert n < 0 ==> ToText(n)[1..] == Decimal(-n);
  }

  /** The text stands at the right of a NUMERIC field, behind spaces; a text that is too long loses its
      end. */
  lemma NumericFieldAt(n: int, length: nat, k: nat)
    requires k < length
    ensures var t := ToText(n);
            NumericField(n, length)[k] ==
            if length < |t| then t[k] else if k < length - |t| then 32 else t[k - (length - |t|)]
  {}

  lemma {:induction false} SkipAll(pad: bytes, s: bytes)
    requires forall k :: 0 <= k < |pad| ==> pad[k] == 32 || 9 <= pad[k] <= 13
    requires s == [] || !(s[0] == 32 || 9 <= s[0] <= 13)
    ensures SkipSpaces(pad + s) == s
  {
    if pad == [] {
      assert pad + s == s;
    } else {
      assert (pad + s)[1..] == pad[1..] + s;
      SkipAll(pad[1..], s);
    }
  }

  lemma {:induction false} DigitsStop(ds: bytes, rest: bytes)
    requires forall k :: 0 <= k < |ds| ==> 48 <= ds[k] <= 57
    requires rest == [] || !(48 <= rest[0] <= 57)
    ensures Digits(ds + rest) == ds
  {
    if ds == [] {
      assert ds + rest == rest;
    } else {
      assert (ds + rest)[1..] == ds[1..] + rest;
      DigitsStop(ds[1..], rest);
    }
  }

  /** strtoll, on white space, a sign or none, digits, and anything that does not go on with them: the
      number of the digits, saturated; 0 without digits. */
  lemma ParseIs(pad: bytes, sign: bytes, ds: bytes, rest: bytes)
    requires forall k :: 0 <= k < |pad| ==> pad[k] == 32 || 9 <= pad[k] <= 13
    requires sign == [] || sign == [43] || sign == [45]
    requires forall k :: 0 <= k < |ds| ==> 48 <= ds[k] <= 57
    requires rest == [] || !(48 <= rest[0] <= 57)
    requires sign == [] && ds == [] && rest != [] ==> rest[0] !in {32, 43, 45} && !(9 <= rest[0] <= 13)
    ensures var v := if sign == [45] then -Value(ds) else Value(ds);
            ParseInt64(pad + (sign + (ds + rest))) ==
            if v < -0x8000_0000_0000_0000 then -0x8000_0000_0000_0000
            else if v > 0x7FFF_FFFF_FFFF_FFFF then 0x7FFF_FFFF_FFFF_FFFF else v
  {
    var t := sign + (ds + rest);
    SkipAll(pad, t);
    DigitsStop(ds, rest);
    if sign == [] {
      assert t == ds + rest;
    } else {
      assert t[1..] == ds + rest;
    }
  }
}
