/** Hexadecimal text and padded byte strings (commons/conv/hexconv, commons/conv/uint256conv, commons/commons.go). */
module HexConv {
  import opened Outcomes
  import opened Arithmetic
  import opened Positional

  // Characters

  predicate IsHexCharacter(c: char) {
    ('0' <= c <= '9') || ('a' <= c <= 'f') || ('A' <= c <= 'F')
  }

  function HexDigit(c: char): (d: nat)
    requires IsHexCharacter(c)
    ensures d < 16
  {
    if '0' <= c <= '9' then c as int - '0' as int
    else if 'a' <= c <= 'f' then c as int - 'a' as int + 10
    else c as int - 'A' as int + 10
  }

  function HexChar(d: nat): (c: char)
    requires d < 16
    ensures IsHexCharacter(c) && HexDigit(c) == d
  {
    if d < 10 then ('0' as int + d) as char else ('a' as int + d - 10) as char
  }

  predicate AllHex(s: string) {
    forall i :: 0 <= i < |s| ==> IsHexCharacter(s[i])
  }

  predicate LowerCase(s: string) {
    forall i :: 0 <= i < |s| ==> !('A' <= s[i] <= 'Z')
  }

  function Nibbles(s: string): (r: seq<nat>)
    requires AllHex(s)
    ensures |r| == |s| && Below(r, 16)
  {
    seq(|s|, i requires 0 <= i < |s| => HexDigit(s[i]))
  }

  /** The number a string of hex digits stands for; none stands for zero. */
  function HexValue(s: string): nat
    requires AllHex(s)
  {
    Value(Nibbles(s), 16)
  }

  function Spelled(digits: seq<nat>): (s: string)
    requires Below(digits, 16)
    ensures |s| == |digits| && AllHex(s) && LowerCase(s) && Nibbles(s) == digits
  {
    seq(|digits|, i requires 0 <= i < |digits| => HexChar(digits[i]))
  }

  lemma SpelledNibbles(s: string)
    requires AllHex(s) && LowerCase(s)
    ensures Spelled(Nibbles(s)) == s
  {
  }

  predicate Has0xPrefix(s: string) {
    |s| >= 2 && s[0] == '0' && (s[1] == 'x' || s[1] == 'X')
  }

  const LOWER := "0123456789" + "abcdef"
  const UPPER := "0123456789" + "ABCDEF"

  /** The digits in either case, and the one case that is printed. */
  lemma HexAlphabet(d: nat)
    requires d < 16
    ensures |LOWER| == |UPPER| == 16
    ensures IsHexCharacter(LOWER[d]) && HexDigit(LOWER[d]) == d && HexChar(d) == LOWER[d]
    ensures IsHexCharacter(UPPER[d]) && HexDigit(UPPER[d]) == d
  {
  }

  /** There are no other hex characters. */
  lemma OnlyHexCharacters(c: char)
    ensures IsHexCharacter(c) <==> c in LOWER || c in UPPER
  {
    if IsHexCharacter(c) {
      HexAlphabet(HexDigit(c));
      assert c == LOWER[HexDigit(c)] || c == UPPER[HexDigit(c)];
    }
  }

  // Bytes from text

  /** The bytes of the well-formed pairs before the first malformed one: what the decoder returns beside its error. */
  function Hex2Bytes(s: string): (r: seq<byte>)
    ensures |r| <= |s| / 2
  {
    if |s| < 2 || !IsHexCharacter(s[0]) || !IsHexCharacter(s[1]) then []
    else [HexDigit(s[0]) * 16 + HexDigit(s[1])] + Hex2Bytes(s[2..])
  }

  function Bytes2Hex(bytes: seq<byte>): (s: string)
    ensures |s| == 2 * |bytes| && AllHex(s) && LowerCase(s)
  {
    if bytes == [] then ""
    else [HexChar(bytes[0] / 16), HexChar(bytes[0] % 16)] + Bytes2Hex(bytes[1..])
  }

  lemma {:induction false} BytesRoundTrip(bytes: seq<byte>)
    ensures Hex2Bytes(Bytes2Hex(bytes)) == bytes
  {
    if bytes != [] {
      BytesRoundTrip(bytes[1..]);
      var s := Bytes2Hex(bytes);
      assert s[2..] == Bytes2Hex(bytes[1..]);
      assert bytes == [bytes[0]] + bytes[1..];
    }
  }

  lemma {:induction false} Hex2BytesLastPair(s: string)
    requires AllHex(s) && |s| % 2 == 0 && s != ""
    ensures var n := |s| - 2;
      Hex2Bytes(s) == Hex2Bytes(s[..n]) + [HexDigit(s[n]) * 16 + HexDigit(s[n + 1])]
  {
    var n := |s| - 2;
    if n > 0 {
      Hex2BytesLastPair(s[2..]);
      assert s[2..][..n - 2] == s[..n][2..];
    } else {
      assert s[2..] == "" && s[..0] == "";
    }
  }

  /** Well-formed text of even length decodes to the bytes of the same number. */
  lemma {:induction false} DecodedValue(s: string)
    requires AllHex(s) && |s| % 2 == 0
    ensures |Hex2Bytes(s)| == |s| / 2 && Value(Hex2Bytes(s), 256) == HexValue(s)
  {
    if s != "" {
      var n := |s| - 2;
      var h := Hex2Bytes(s);
      DecodedValue(s[..n]);
      Hex2BytesLastPair(s);
      assert h[..|h| - 1] == Hex2Bytes(s[..n]);
      var d := Nibbles(s);
      assert d[..n + 1][..n] == d[..n] == Nibbles(s[..n]);
      assert Value(d[..n + 1], 16) == Value(d[..n], 16) * 16 + d[n];
    }
  }

  /** Decoding stops at the first pair that is no pair of digits, keeping what came before it. */
  lemma {:induction false} DecodedPrefix(a: string, b: string)
    requires AllHex(a) && |a| % 2 == 0
    requires |b| < 2 || !IsHexCharacter(b[0]) || !IsHexCharacter(b[1])
    ensures |Hex2Bytes(a + b)| == |a| / 2 && Value(Hex2Bytes(a + b), 256) == HexValue(a)
  {
    SamePrefix(a, b);
    DecodedValue(a);
  }

  lemma {:induction false} SamePrefix(a: string, b: string)
    requires AllHex(a) && |a| % 2 == 0
    requires |b| < 2 || !IsHexCharacter(b[0]) || !IsHexCharacter(b[1])
    ensures Hex2Bytes(a + b) == Hex2Bytes(a)
  {
    if a == "" {
      assert a + b == b;
    } else {
      assert (a + b)[2..] == a[2..] + b;
      SamePrefix(a[2..], b);
    }
  }

  function FromHex(s: string): seq<byte> {
    var digits := if Has0xPrefix(s) then s[2..] else s;
    Hex2Bytes(if |digits| % 2 == 1 then "0" + digits else digits)
  }

  /** `FromHex` keeps the number, with or without prefix and for either parity. */
  lemma FromHexValue(s: string)
    requires AllHex(if Has0xPrefix(s) then s[2..] else s)
    ensures var digits := if Has0xPrefix(s) then s[2..] else s;
      |FromHex(s)| == (|digits| + 1) / 2 && Value(FromHex(s), 256) == HexValue(digits)
  {
    var digits := if Has0xPrefix(s) then s[2..] else s;
    if |digits| % 2 == 1 {
      DecodedValue("0" + digits);
      assert Nibbles("0" + digits) == Zeros(1) + Nibbles(digits);
      ValueAfterZeros(1, Nibbles(digits), 16);
    } else {
      DecodedValue(digits);
    }
  }

  /** A prefix in either case does not matter, an odd digit in front counts like one behind a zero. */
  lemma PrefixesAndParity(digits: string)
    requires AllHex(digits)
    ensures FromHex("0x" + digits) == FromHex("0X" + digits) == FromHex(digits)
    ensures |digits| % 2 == 1 ==> FromHex(digits) == FromHex("0" + digits)
  {
    assert ("0x" + digits)[2..] == digits && ("0X" + digits)[2..] == digits;
    assert |digits| % 2 == 1 && |digits| > 0 ==> ("0" + digits)[1] == digits[0];
  }

  // Padding and trimming

  function LeftPadded(bytes: seq<byte>, l: int): seq<byte> {
    if l <= |bytes| then bytes else Zeros(l - |bytes|) + bytes
  }

  lemma LeftPaddedValue(bytes: seq<byte>, l: int)
    ensures Value(LeftPadded(bytes, l), 256) == Value(bytes, 256)
  {
    if l > |bytes| {
      ValueAfterZeros(l - |bytes|, bytes, 256);
    }
  }

  method LeftPadBytes(slice: seq<byte>, l: int) returns (r: seq<byte>)
    ensures r == LeftPadded(slice, l)
    ensures |r| == if l <= |slice| then |slice| else l
    ensures Value(r, 256) == Value(slice, 256)
  {
    LeftPaddedValue(slice, l);
    if l <= |slice| {
      return slice;
    }
    var padded := new byte[l](_ => 0);
    var offset := l - |slice|;
    for i := 0 to |slice|
      invariant padded[..offset + i] == Zeros(offset) + slice[..i]
    {
      padded[offset + i] := slice[i];
      assert padded[..offset + i + 1] == padded[..offset + i] + [slice[i]];
    }
    assert padded[..] == padded[..offset + |slice|] && slice[..|slice|] == slice;
    r := padded[..];
  }

  /** Padding on the right shifts the number by the bytes added. */
  method RightPadBytes(slice: seq<byte>, l: int) returns (r: seq<byte>)
    ensures |r| == if l <= |slice| then |slice| else l
    ensures slice <= r
    ensures Value(r, 256) == Value(slice, 256) * Power(256, |r| - |slice|)
  {
    if l <= |slice| {
      return slice;
    }
    var padded := new byte[l](_ => 0);
    for i := 0 to |slice|
      invariant padded[..i] == slice[..i]
      invariant forall k :: i <= k < l ==> padded[k] == 0
    {
      padded[i] := slice[i];
      assert padded[..i + 1] == padded[..i] + [slice[i]];
    }
    r := padded[..];
    var zeros := Zeros(l - |slice|);
    assert slice[..|slice|] == slice;
    assert r == slice + zeros;
    ValueOfConcat(slice, zeros, 256);
    assert zeros + [] == zeros;
    ValueAfterZeros(|zeros|, [], 256);
  }

  /** Trimming leaves the shortest byte string of the same number. */
  method TrimLeftZeroes(s: seq<byte>) returns (r: seq<byte>)
    ensures r == Stripped(s)
    ensures Value(r, 256) == Value(s, 256) && r == Digits(Value(s, 256), 256)
  {
    var idx := 0;
    while idx < |s|
      invariant 0 <= idx <= |s|
      invariant Stripped(s) == Stripped(s[idx..])
    {
      if s[idx] != 0 {
        break;
      }
      assert s[idx..][1..] == s[idx + 1..];
      idx := idx + 1;
    }
    StrippedIsDigits(s, 256);
    ValueOfDigits(Value(s, 256), 256);
    r := s[idx..];
  }

  method TrimRightZeroes(s: seq<byte>) returns (r: seq<byte>)
    ensures r <= s && (r != [] ==> r[|r| - 1] != 0)
    ensures Value(s, 256) == Value(r, 256) * Power(256, |s| - |r|)
  {
    var idx := |s|;
    while idx > 0
      invariant 0 <= idx <= |s|
      invariant forall k :: idx <= k < |s| ==> s[k] == 0
    {
      if s[idx - 1] != 0 {
        break;
      }
      idx := idx - 1;
    }
    r := s[..idx];
    var zeros := Zeros(|s| - idx);
    assert s == r + zeros;
    ValueOfConcat(r, zeros, 256);
    assert zeros + [] == zeros;
    ValueAfterZeros(|zeros|, [], 256);
  }

  /** The decoded bytes cut or padded on the left to exactly `flen`. */
  method Hex2BytesFixed(s: string, flen: nat) returns (r: seq<byte>)
    ensures |r| == flen
    ensures Value(r, 256) == Value(Hex2Bytes(s), 256) % Power(256, flen)
    ensures AllHex(s) && |s| % 2 == 0 ==> Value(r, 256) == HexValue(s) % Power(256, flen)
  {
    var h := Hex2Bytes(s);
    if AllHex(s) && |s| % 2 == 0 {
      DecodedValue(s);
    }
    if |h| == flen {
      CutModPower(h, flen);
      assert h[0..] == h;
      return h;
    }
    if |h| > flen {
      CutModPower(h, flen);
      return h[|h| - flen..];
    }
    PaddedModPower(h, flen);
    var hh := new byte[flen](_ => 0);
    var offset := flen - |h|;
    for i := 0 to |h|
      invariant hh[..offset + i] == Zeros(offset) + h[..i]
    {
      hh[offset + i] := h[i];
      assert hh[..offset + i + 1] == hh[..offset + i] + [h[i]];
    }
    assert hh[..] == hh[..offset + |h|] && h[..|h|] == h;
    r := hh[..];
  }

  /** The last n bytes hold the number modulo 256^n. */
  lemma CutModPower(h: seq<byte>, n: nat)
    requires n <= |h|
    ensures Value(h[|h| - n..], 256) == Value(h, 256) % Power(256, n)
  {
    assert h == h[..|h| - n] + h[|h| - n..];
    TailModPower(h[..|h| - n], h[|h| - n..]);
  }

  lemma PaddedModPower(h: seq<byte>, n: nat)
    requires n >= |h|
    ensures Value(Zeros(n - |h|) + h, 256) == Value(h, 256) % Power(256, n)
  {
    ValueAfterZeros(n - |h|, h, 256);
    ValueBound(h, 256);
    PowerMonotone(256, |h|, n);
    SmallMod(Value(h, 256), Power(256, n));
  }

  lemma TailModPower(front: seq<byte>, tail: seq<byte>)
    ensures Value(tail, 256) == Value(front + tail, 256) % Power(256, |tail|)
  {
    ValueOfConcat(front, tail, 256);
    ValueBound(tail, 256);
    DivMod(Value(front, 256), Value(tail, 256), Power(256, |tail|));
  }

  // Numbers as text

  /** The Quantity form of the Ethereum JSON-RPC specification, "Hex value encoding", whatever the digits. */
  predicate IsQuantity(s: string) {
    s == "0x0" || (|s| > 2 && s[0] == '0' && s[1] == 'x' && s[2] != '0')
  }

  /** The text of a number in that form, with lower-case digits. */
  function Quantity(v: nat): (s: string)
    ensures IsQuantity(s) && AllHex(s[2..]) && LowerCase(s[2..])
  {
    if v == 0 then "0x0" else "0x" + Spelled(Digits(v, 16))
  }

  lemma QuantityValue(v: nat)
    ensures HexValue(Quantity(v)[2..]) == v
  {
    if v == 0 {
      assert Nibbles("0") == [0];
      assert [0][..0] == [];
      assert Value([0], 16) == 0;
    } else {
      assert Quantity(v)[2..] == Spelled(Digits(v, 16));
      ValueOfDigits(v, 16);
    }
  }

  /** All occurrences of "0x", found from the left, taken out. */
  function Without0x(s: string): string {
    if |s| < 2 then s
    else if s[0] == '0' && s[1] == 'x' then Without0x(s[2..])
    else [s[0]] + Without0x(s[1..])
  }

  lemma {:induction false} Without0xHex(s: string)
    requires AllHex(s)
    ensures Without0x(s) == s
  {
    if |s| >= 2 {
      Without0xHex(s[1..]);
    }
  }

  lemma {:induction false} Without0xInside(a: string, b: string)
    requires AllHex(a)
    ensures Without0x(a + "0x" + b) == a + Without0x(b)
  {
    var s := a + "0x" + b;
    if a == "" {
      assert s[2..] == b;
    } else {
      assert s[1..] == a[1..] + "0x" + b;
      assert s[1] == if |a| > 1 then a[1] else '0';
      Without0xInside(a[1..], b);
      assert [a[0]] + (a[1..] + Without0x(b)) == a + Without0x(b);
    }
  }

  /** Above this a further hex digit overflows 64 bits. */
  const CUTOFF: nat := 0x1000_0000_0000_0000

  datatype ParseError = InvalidSyntax | OutOfRange

  /** The 64-bit parse digit by digit from the left: the first bad character or overflow decides. */
  function ParseUint(s: string): Result<nat, ParseError> {
    if s == "" then Ok(0)
    else
      match ParseUint(s[..|s| - 1])
      case Err(e) => Err(e)
      case Ok(n) =>
        var c := s[|s| - 1];
        if !IsHexCharacter(c) then Err(InvalidSyntax)
        else if n >= CUTOFF then Err(OutOfRange)
        else Ok(n * 16 + HexDigit(c))
  }

  function Hex2Int(s: string): Result<nat, ParseError> {
    var cleaned := Without0x(s);
    if cleaned == "" then Err(InvalidSyntax) else ParseUint(cleaned)
  }

  lemma {:induction false} ParseHex(s: string)
    requires AllHex(s)
    ensures ParseUint(s) == if HexValue(s) < TWO_TO_64 then Ok(HexValue(s)) else Err(OutOfRange)
  {
    if s != "" {
      var front := s[..|s| - 1];
      ParseHex(front);
      assert Nibbles(s)[..|s| - 1] == Nibbles(front);
    }
  }

  lemma {:induction false} ParseAccepts(s: string)
    ensures ParseUint(s).Ok? ==> AllHex(s)
  {
    if s != "" {
      ParseAccepts(s[..|s| - 1]);
    }
  }

  /** Accepted are exactly the texts with at least one digit, nothing but digits, and a 64-bit number, which is returned. */
  lemma ParsedValue(s: string)
    ensures var cleaned := Without0x(s);
      && (Hex2Int(s).Ok? <==> cleaned != "" && AllHex(cleaned) && HexValue(cleaned) < TWO_TO_64)
      && (Hex2Int(s).Ok? ==> Hex2Int(s).value == HexValue(cleaned))
      && (cleaned != "" && AllHex(cleaned) && HexValue(cleaned) >= TWO_TO_64 ==> Hex2Int(s) == Err(OutOfRange))
  {
    ParseAccepts(Without0x(s));
    if AllHex(Without0x(s)) {
      ParseHex(Without0x(s));
    }
  }

  /** Cut off before position k, the text is a number that still fits. */
  predicate GoodUntil(s: string, k: nat) {
    k <= |s| && AllHex(s[..k]) && HexValue(s[..k]) < TWO_TO_64
  }

  /** Where the first failure is: at a bad character, or at a digit with which the number no longer fits. */
  lemma {:induction false} FirstFailure(s: string) returns (k: nat)
    ensures GoodUntil(s, k) && (ParseUint(s).Ok? <==> k == |s|)
    ensures k < |s| ==>
      ParseUint(s) == if IsHexCharacter(s[k]) then Err(OutOfRange) else Err(InvalidSyntax)
    ensures k < |s| && IsHexCharacter(s[k]) ==> AllHex(s[..k + 1]) && HexValue(s[..k + 1]) >= TWO_TO_64
  {
    if s == "" {
      k := 0;
    } else {
      var last := |s| - 1;
      k := FirstFailure(s[..last]);
      assert s[..last][..k] == s[..k];
      if k < last {
        assert s[..last][..k + 1] == s[..k + 1];
      } else {
        ParseHex(s[..last]);
        assert s[..|s|] == s;
        if IsHexCharacter(s[last]) {
          ParseHex(s);
          k := if HexValue(s) < TWO_TO_64 then |s| else last;
        }
      }
    }
  }

  /** A "0x" is ignored wherever it stands among the digits. */
  lemma PrefixIgnoredAnywhere(a: string, b: string)
    requires AllHex(a) && AllHex(b)
    ensures Hex2Int(a + "0x" + b) == Hex2Int(a + b)
  {
    Without0xInside(a, b);
    Without0xHex(b);
    Without0xHex(a + b);
  }

  /** An upper-case prefix is not ignored. */
  lemma UpperPrefixIsRefused(b: string)
    ensures Hex2Int("0X" + b) == Err(InvalidSyntax)
  {
    var s := "0X" + b;
    assert s[1..][0] == 'X' && s[1..][1..] == b;
    assert Without0x(s[1..]) != "" && Without0x(s[1..])[0] == 'X';
    var cleaned := Without0x(s);
    assert cleaned[0] == '0' && cleaned[1] == 'X';
    var k := FirstFailure(cleaned);
    GoodCharacters(cleaned, k);
    QuantityValue(0);
    assert cleaned[..1] == Quantity(0)[2..];
  }

  lemma GoodCharacters(s: string, k: nat)
    requires GoodUntil(s, k)
    ensures forall p :: 0 <= p < k ==> IsHexCharacter(s[p])
  {
    forall p | 0 <= p < k
      ensures IsHexCharacter(s[p])
    {
      assert s[..k][p] == s[p];
    }
  }

  /** Every 64-bit number survives being printed and parsed, and no larger one is accepted. */
  lemma PrintThenParse(v: nat)
    ensures Hex2Int(Quantity(v)) == if v < TWO_TO_64 then Ok(v) else Err(OutOfRange)
  {
    var digits := Quantity(v)[2..];
    QuantityValue(v);
    QuantityDigits(Quantity(v));
    Without0xHex(digits);
    ParseHex(digits);
  }

  lemma QuantityOfDigits(digits: string)
    requires digits != "" && AllHex(digits) && LowerCase(digits) && (digits == "0" || digits[0] != '0')
    ensures Quantity(HexValue(digits)) == "0x" + digits
  {
    if digits == "0" {
      QuantityValue(0);
    } else {
      DigitsOfValue(Nibbles(digits), 16);
      SpelledNibbles(digits);
    }
  }

  lemma QuantityDigits(s: string)
    requires IsQuantity(s)
    ensures s == "0x" + s[2..] && (s[2..] == "0" || s[2..][0] != '0')
  {
  }

  lemma QuantityOfText(s: string)
    requires IsQuantity(s) && AllHex(s[2..]) && LowerCase(s[2..])
    ensures Quantity(HexValue(s[2..])) == s && Without0x(s) == s[2..]
  {
    QuantityDigits(s);
    QuantityOfDigits(s[2..]);
    Without0xHex(s[2..]);
  }

  /** What parses prints back unchanged exactly when it was in Quantity form with lower-case digits. */
  lemma ParseThenPrint(s: string)
    requires Hex2Int(s).Ok?
    ensures Quantity(Hex2Int(s).value) == s <==> IsQuantity(s) && AllHex(s[2..]) && LowerCase(s[2..])
  {
    if IsQuantity(s) && AllHex(s[2..]) && LowerCase(s[2..]) {
      QuantityOfText(s);
      ParsedValue(s);
    }
  }

  // 256-bit numbers on the wire

  const TWO_TO_256: nat := Power(256, 32)

  function ToBigInt(data: Option<seq<byte>>): Option<int> {
    if data.None? then None else Some(Value(data.value, 256))
  }

  datatype Panic = TooLarge

  /** The bytes are those of the absolute value: the sign is not sent. */
  function FromBigInt(v: Option<int>): Result<Option<seq<byte>>, Panic> {
    if v.None? then Ok(None)
    else if v.value > TWO_TO_256 - 1 then Err(TooLarge)
    else Ok(Some(Digits(if v.value < 0 then -v.value else v.value, 256)))
  }

  /** A number comes back from the wire exactly if it was in 0 .. 2^256 - 1, in at most 32 bytes without leading zeros. */
  lemma Uint256RoundTrip(v: int)
    ensures (FromBigInt(Some(v)).Ok? && ToBigInt(FromBigInt(Some(v)).value) == Some(v)) <==> 0 <= v < TWO_TO_256
    ensures 0 <= v < TWO_TO_256 ==>
      var data := FromBigInt(Some(v)).value.value; |data| <= 32 && (data != [] ==> data[0] != 0)
  {
    if v <= TWO_TO_256 - 1 {
      var magnitude := if v < 0 then -v else v;
      ValueOfDigits(magnitude, 256);
      DigitsFitIff(magnitude, 256, 32);
    }
  }

  /** A negative number of whatever size is sent as its absolute value, and a missing one stays missing. */
  lemma SignIsLost(v: int)
    ensures v < 0 ==> FromBigInt(Some(v)).Ok? && ToBigInt(FromBigInt(Some(v)).value) == Some(-v)
    ensures FromBigInt(None) == Ok(None) && ToBigInt(None) == None
  {
    if v < 0 {
      ValueOfDigits(-v, 256);
    }
  }

  /** Data comes back as its shortest form, which changes it only if it began with a zero, exactly while it fits. */
  lemma Uint256DataRoundTrip(data: seq<byte>)
    ensures FromBigInt(ToBigInt(Some(data)))
            == if Value(data, 256) < TWO_TO_256 then Ok(Some(Stripped(data))) else Err(TooLarge)
  {
    StrippedIsDigits(data, 256);
  }
}
