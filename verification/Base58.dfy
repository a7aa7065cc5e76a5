/** Base58 text: a change of radix that keeps leading zeros. */
module Base58 {
  import opened Bits
  import opened Bytes

  const DIGITS := "123456789"
  const UPPER1 := "ABCDEFGH"
  const UPPER2 := "JKLMN"
  const UPPER3 := "PQRSTUVWXYZ"
  const LOWER1 := "abcdefghijk"
  const LOWER2 := "mnopqrstuvwxyz"
  const BASE58_ALPHABET := DIGITS + UPPER1 + UPPER2 + UPPER3 + LOWER1 + LOWER2

  // ----- digits of a number, most significant first

  type digits = seq<nat>

  ghost predicate Below(ds: digits, b: nat) { forall i :: 0 <= i < |ds| ==> ds[i] < b }

  function FromDigits(ds: digits, b: nat): nat {
    if ds == [] then 0 else FromDigits(ds[..|ds| - 1], b) * b + ds[|ds| - 1]
  }

  /** The digits of v, none of them a leading zero. */
  function ToDigits(v: nat, b: nat): (r: digits)
    requires b >= 2
    ensures Below(r, b) && (r == [] <==> v == 0)
    decreases v
  {
    if v == 0 then [] else ToDigits(Quotient(v, b), b) + [v % b]
  }

  function Quotient(v: nat, b: nat): (q: nat)
    requires b >= 2
    ensures v > 0 ==> q < v
    ensures v == q * b + v % b
  {
    var q := v / b;
    assert v == b * q + v % b;
    Multiple(b, q);
    QuotientSmaller(v, b, q);
    q
  }

  lemma QuotientSmaller(v: nat, b: nat, q: int)
    requires b >= 2 && v == b * q + v % b
    ensures q >= 0 && (v > 0 ==> q < v)
  {
    if q < 0 {
      Multiple(b, q);
    } else {
      assert b * q == 2 * q + (b - 2) * q;
    }
  }

  /** The number of leading zeros, and what follows them. */
  function Lead(ds: digits): (n: nat)
    ensures n <= |ds| && (n < |ds| ==> ds[n] != 0)
    ensures forall i :: 0 <= i < n ==> ds[i] == 0
  {
    if ds == [] || ds[0] != 0 then 0 else 1 + Lead(ds[1..])
  }

  function Strip(ds: digits): digits { ds[Lead(ds)..] }

  function Zeros(n: nat): (r: digits)
    ensures |r| == n && forall i :: 0 <= i < n ==> r[i] == 0
  {
    seq(n, _ => 0)
  }

  lemma PadStrip(ds: digits)
    ensures ds == Zeros(Lead(ds)) + Strip(ds)
    ensures Strip(ds) == [] || Strip(ds)[0] != 0
  {
    var n := Lead(ds);
    assert ds == ds[..n] + ds[n..];
    assert ds[..n] == Zeros(n);
  }

  /** Lead is the only count of zeros that a nonzero digit, or the end, follows. */
  lemma {:induction false} LeadUnique(w: digits, n: nat)
    requires n <= |w| && (n < |w| ==> w[n] != 0)
    requires forall i :: 0 <= i < n ==> w[i] == 0
    ensures Lead(w) == n
  {
    if n > 0 { LeadUnique(w[1..], n - 1); }
  }

  lemma LeadOf(n: nat, ds: digits)
    requires ds == [] || ds[0] != 0
    ensures Lead(Zeros(n) + ds) == n && Strip(Zeros(n) + ds) == ds
  {
    LeadUnique(Zeros(n) + ds, n);
  }

  lemma {:induction false} FromTo(v: nat, b: nat)
    requires b >= 2
    ensures FromDigits(ToDigits(v, b), b) == v
    decreases v
  {
    if v != 0 {
      var q := Quotient(v, b);
      FromTo(q, b);
      var ds := ToDigits(v, b);
      assert ds[..|ds| - 1] == ToDigits(q, b);
    }
  }

  lemma {:induction false} FirstNonzero(v: nat, b: nat)
    requires b >= 2
    ensures v > 0 ==> ToDigits(v, b)[0] != 0
    decreases v
  {
    if v > 0 {
      var q := Quotient(v, b);
      FirstNonzero(q, b);
      if q == 0 { assert v % b == v; }
    }
  }

  lemma SameQuotient(b: nat, q: int, v: int)
    requires b > 0 && q * b == v * b
    ensures q == v
  {
    assert b * (q - v) == q * b - v * b;
    Multiple(b, q - v);
  }

  lemma AppendResidue(v: nat, d: nat, b: nat)
    requires b >= 2 && d < b
    ensures (v * b + d) % b == d && Quotient(v * b + d, b) == v
  {
    var w := v * b + d;
    ModUnique(w, b, d, v);
    SameQuotient(b, Quotient(w, b), v);
  }

  /** A digit added at the end. */
  lemma ToDigitsAppend(v: nat, d: nat, b: nat)
    requires b >= 2 && d < b && (v > 0 || d > 0)
    ensures v * b + d > 0 && ToDigits(v * b + d, b) == ToDigits(v, b) + [d]
  {
    AppendResidue(v, d, b);
    if v > 0 { assert v * b >= 1 * b by { Multiple(b, v); } }
  }

  lemma {:induction false} ToFrom(ds: digits, b: nat)
    requires b >= 2 && Below(ds, b)
    ensures ToDigits(FromDigits(ds, b), b) == Strip(ds)
    ensures FromDigits(ds, b) == 0 <==> Strip(ds) == []
  {
    if ds != [] {
      var n := |ds| - 1;
      var init, d := ds[..n], ds[n];
      ToFrom(init, b);
      var v := FromDigits(init, b);
      StripAppend(init, d);
      assert ds == init + [d];
      if v > 0 || d > 0 {
        Multiple(b, v);
        assert b * v == v * b;
        ToDigitsAppend(v, d, b);
      }
    }
  }

  lemma StripAppend(ds: digits, d: nat)
    ensures Strip(ds + [d]) == if Strip(ds) == [] && d == 0 then [] else Strip(ds) + [d]
  {
    var n := Lead(ds);
    if n < |ds| {
      LeadUnique(ds + [d], n);
    } else {
      LeadUnique(ds + [d], if d == 0 then n + 1 else n);
    }
  }

  lemma {:induction false} FromZeros(n: nat, b: nat)
    ensures FromDigits(Zeros(n), b) == 0
  {
    if n > 0 {
      assert Zeros(n)[..n - 1] == Zeros(n - 1);
      FromZeros(n - 1, b);
    }
  }

  lemma {:induction false} FromPadded(n: nat, ds: digits, b: nat)
    ensures FromDigits(Zeros(n) + ds, b) == FromDigits(ds, b)
  {
    var w := Zeros(n) + ds;
    if ds == [] {
      assert w == Zeros(n);
      FromZeros(n, b);
    } else {
      assert w[..|w| - 1] == Zeros(n) + ds[..|ds| - 1];
      FromPadded(n, ds[..|ds| - 1], b);
    }
  }

  // ----- the alphabet

  /** The alphabet in closed form: digits and letters without 0, I, O and l. */
  function DigitChar(d: nat): (c: char)
    requires d < 58
  {
    if d < 9 then ('1' as int + d) as char
    else if d < 17 then ('A' as int + d - 9) as char
    else if d < 22 then ('J' as int + d - 17) as char
    else if d < 33 then ('P' as int + d - 22) as char
    else if d < 44 then ('a' as int + d - 33) as char
    else ('m' as int + d - 44) as char
  }

  /** _BASE58_INDEX; None is the KeyError. */
  function CharDigit(c: char): (r: Option<nat>)
    ensures r.Some? ==> r.value < 58
  {
    if '1' <= c <= '9' then Some(c as int - '1' as int)
    else if 'A' <= c <= 'H' then Some(c as int - 'A' as int + 9)
    else if 'J' <= c <= 'N' then Some(c as int - 'J' as int + 17)
    else if 'P' <= c <= 'Z' then Some(c as int - 'P' as int + 22)
    else if 'a' <= c <= 'k' then Some(c as int - 'a' as int + 33)
    else if 'm' <= c <= 'z' then Some(c as int - 'm' as int + 44)
    else None
  }

  /** Consecutive characters starting with c. */
  ghost predicate Run(s: string, c: char) { forall i :: 0 <= i < |s| ==> s[i] as int == c as int + i }

  lemma Runs()
    ensures Run(DIGITS, '1') && Run(UPPER1, 'A') && Run(UPPER2, 'J')
    ensures Run(UPPER3, 'P') && Run(LOWER1, 'a') && Run(LOWER2, 'm')
  {
  }

  /** The closed form lists the alphabet in order. */
  lemma AlphabetInOrder(d: nat)
    requires d < 58
    ensures |BASE58_ALPHABET| == 58 && BASE58_ALPHABET[d] == DigitChar(d)
  {
    Runs();
    var c := if d < 9 then DIGITS[d]
             else if d < 17 then UPPER1[d - 9]
             else if d < 22 then UPPER2[d - 17]
             else if d < 33 then UPPER3[d - 22]
             else if d < 44 then LOWER1[d - 33]
             else LOWER2[d - 44];
    assert BASE58_ALPHABET[d] == c;
  }

  /** Digits and alphabet characters correspond one to one. */
  lemma CharsExact(c: char, d: nat)
    requires d < 58
    ensures CharDigit(c) == Some(d) <==> DigitChar(d) == c
  {
  }

  function Text(ds: digits): (r: string)
    requires Below(ds, 58)
    ensures |r| == |ds| && forall i :: 0 <= i < |r| ==> r[i] == DigitChar(ds[i])
  {
    seq(|ds|, i requires 0 <= i < |ds| => DigitChar(ds[i]))
  }

  ghost predicate InAlphabet(t: string) { forall i :: 0 <= i < |t| ==> CharDigit(t[i]).Some? }

  function Digits(t: string): (r: digits)
    requires InAlphabet(t)
    ensures |r| == |t| && Below(r, 58) && forall i :: 0 <= i < |r| ==> CharDigit(t[i]) == Some(r[i])
  {
    seq(|t|, i requires 0 <= i < |t| => CharDigit(t[i]).value)
  }

  lemma DigitsText(ds: digits)
    requires Below(ds, 58)
    ensures InAlphabet(Text(ds)) && Digits(Text(ds)) == ds
  {
    forall i | 0 <= i < |ds| ensures CharDigit(Text(ds)[i]) == Some(ds[i]) {
      CharsExact(Text(ds)[i], ds[i]);
    }
  }

  lemma TextDigits(t: string)
    requires InAlphabet(t)
    ensures Text(Digits(t)) == t
  {
    forall i | 0 <= i < |t| ensures Text(Digits(t))[i] == t[i] {
      CharsExact(t[i], Digits(t)[i]);
    }
  }

  // ----- encoding and decoding

  function Encode(data: bytes): string {
    Text(Zeros(Lead(data)) + ToDigits(FromDigits(data, 256), 58))
  }

  function ToBytes(ds: digits): (r: bytes)
    requires Below(ds, 256)
    ensures r == ds
  {
    seq(|ds|, i requires 0 <= i < |ds| => ds[i])
  }

  /** None is the EncodingError: no text, or a foreign character. */
  ghost function Decode(t: string): Option<bytes> {
    if t == [] || !InAlphabet(t) then None
    else Some(ToBytes(Zeros(Lead(Digits(t))) + ToDigits(FromDigits(Digits(t), 58), 256)))
  }

  /** Changing the radix keeps leading zeros apart from the number, so it is
      undone by changing back. */
  lemma RadixBack(ds: digits, a: nat, b: nat)
    requires a >= 2 && b >= 2 && Below(ds, a)
    ensures var w := Zeros(Lead(ds)) + ToDigits(FromDigits(ds, a), b);
            Zeros(Lead(w)) + ToDigits(FromDigits(w, b), a) == ds && (w == [] <==> ds == [])
  {
    var v := FromDigits(ds, a);
    var n, e := Lead(ds), ToDigits(v, b);
    FirstNonzero(v, b);
    LeadOf(n, e);
    FromPadded(n, e, b);
    FromTo(v, b);
    ToFrom(ds, a);
    PadStrip(ds);
    assert |Zeros(n) + e| == n + |e| && |ds| == n + |Strip(ds)|;
  }

  /** Decoding undoes encoding on every non-empty byte string. */
  lemma DecodeEncode(data: bytes)
    requires data != []
    ensures Decode(Encode(data)) == Some(data)
  {
    var w := Zeros(Lead(data)) + ToDigits(FromDigits(data, 256), 58);
    RadixBack(data, 256, 58);
    DigitsText(w);
  }

  /** Encoding undoes decoding on every non-empty text over the alphabet, and
      nothing else decodes. */
  lemma EncodeDecode(t: string)
    ensures Decode(t).Some? <==> t != [] && InAlphabet(t)
    ensures Decode(t).Some? ==> Decode(t).value != [] && Encode(Decode(t).value) == t
  {
    if Decode(t).Some? {
      RadixBack(Digits(t), 58, 256);
      TextDigits(t);
    }
  }

  // ----- the loops

  method AlphabetAt(d: nat) returns (c: char)
    requires d < 58
    ensures c == DigitChar(d)
  {
    AlphabetInOrder(d);
    c := BASE58_ALPHABET[d];
  }

  /** "1" * n */
  function Ones(n: nat): string { seq(n, _ => '1') }

  lemma TextPadded(n: nat, ds: digits)
    requires Below(ds, 58)
    ensures Text(Zeros(n) + ds) == Ones(n) + Text(ds)
  {
  }

  /** encode_base58: divide by 58 until nothing is left. */
  method EncodeBase58(data: bytes) returns (text: string)
    ensures text == Encode(data)
  {
    var value: nat := FromDigits(data, 256);
    ghost var all := ToDigits(value, 58);
    var encoded := "";
    while value != 0
      invariant Text(all) == Text(ToDigits(value, 58)) + encoded
    {
      TextStep(value, encoded);
      var digit := AlphabetAt(value % 58);
      encoded := [digit] + encoded;
      value := Quotient(value, 58);
    }
    assert encoded == Text(all);
    var leadingZeroes := Lead(data);
    text := Ones(leadingZeroes) + encoded;
    TextPadded(leadingZeroes, all);
  }

  lemma TextAppend(ds: digits, d: nat)
    requires Below(ds, 58) && d < 58
    ensures Text(ds + [d]) == Text(ds) + [DigitChar(d)]
  {
  }

  lemma Regroup(a: string, c: char, b: string)
    ensures a + [c] + b == a + ([c] + b)
  {
  }

  lemma TextStep(value: nat, encoded: string)
    requires value > 0
    ensures Text(ToDigits(value, 58)) + encoded
         == Text(ToDigits(Quotient(value, 58), 58)) + ([DigitChar(value % 58)] + encoded)
  {
    var ds, d := ToDigits(Quotient(value, 58), 58), value % 58;
    TextAppend(ds, d);
    Regroup(Text(ds), DigitChar(d), encoded);
  }

  /** v.to_bytes(n, "big") for a v that fits. */
  function BigEndian(v: nat, n: nat): (r: digits)
    ensures |r| == n && Below(r, 256)
  {
    if n == 0 then [] else BigEndian(v / 256, n - 1) + [v % 256]
  }

  /** (bit_length + 7) // 8 is exactly the number of base-256 digits. */
  lemma {:induction false} ByteCount(v: nat)
    ensures (BitLength(v) + 7) / 8 == |ToDigits(v, 256)|
    ensures BigEndian(v, |ToDigits(v, 256)|) == ToDigits(v, 256)
    decreases v
  {
    if v != 0 {
      var q := Quotient(v, 256);
      assert q == v / 256;
      ByteCount(q);
      BitLength256(v);
    }
  }

  /** The number the characters spell, or None at the first that is not one. */
  method Accumulate(text: string) returns (r: Option<nat>)
    ensures r == if InAlphabet(text) then Some(FromDigits(Digits(text), 58)) else None
  {
    var value: nat := 0;
    var i := 0;
    while i < |text|
      invariant 0 <= i <= |text| && InAlphabet(text[..i])
      invariant value == FromDigits(Digits(text[..i]), 58)
    {
      var digit := CharDigit(text[i]);
      if digit.None? { return None; }
      assert text[..i + 1] == text[..i] + [text[i]];
      assert Digits(text[..i + 1]) == Digits(text[..i]) + [digit.value];
      value := value * 58 + digit.value;
      i := i + 1;
    }
    assert text[..i] == text;
    return Some(value);
  }

  /** decode_base58: accumulate the digits, then write the bytes out. */
  method DecodeBase58(text: string) returns (r: Option<bytes>)
    ensures r == Decode(text)
  {
    if text == "" { return None; }
    var digits := Accumulate(text);
    if digits.None? { return None; }
    var value := digits.value;
    ByteCount(value);
    var raw := BigEndian(value, (BitLength(value) + 7) / 8);
    var zeroes := 0;
    while zeroes < |text| && text[zeroes] == '1'
      invariant 0 <= zeroes <= |text|
      invariant forall j :: 0 <= j < zeroes ==> text[j] == '1'
    {
      zeroes := zeroes + 1;
    }
    OnesLead(text, zeroes);
    return Some(ToBytes(Zeros(zeroes) + raw));
  }

  lemma OnesLead(t: string, n: nat)
    requires InAlphabet(t) && n <= |t| && (n < |t| ==> t[n] != '1')
    requires forall j :: 0 <= j < n ==> t[j] == '1'
    ensures Lead(Digits(t)) == n
  {
    var ds := Digits(t);
    forall i | 0 <= i < |t| ensures t[i] == '1' <==> ds[i] == 0 {
      CharsExact(t[i], ds[i]);
    }
    assert ds == Zeros(n) + ds[n..];
    LeadOf(n, ds[n..]);
  }
}
