/** Base58Check addresses of Tron (blockchain/trx/trx.go, agents/trx/server.go). */
module TronAddress {
  import opened Outcomes
  import opened Arithmetic
  import opened Positional

  // Base58 over the Bitcoin alphabet

  const ALPHABET := "123456789" + "ABCDEFGH" + "JKLMN" + "PQRSTUVWXYZ" + "abcdefghijk" + "mnopqrstuvwxyz"

  /** The letter of a digit, as an arithmetic function, which shows that the letters ascend. */
  function Letter(d: nat): (c: char)
    requires d < 58
  {
    if d < 9 then ('1' as int + d) as char
    else if d < 17 then ('A' as int + d - 9) as char
    else if d < 22 then ('J' as int + d - 17) as char
    else if d < 33 then ('P' as int + d - 22) as char
    else if d < 44 then ('a' as int + d - 33) as char
    else ('m' as int + d - 44) as char
  }

  /** These are the letters of the alphabet. */
  lemma AlphabetLetter(d: nat)
    requires d < 58
    ensures |ALPHABET| == 58 && ALPHABET[d] == Letter(d)
  {
  }

  /** The digit a character stands for, looked for from k on. */
  function DigitFrom(c: char, k: nat): (d: Option<nat>)
    requires k <= 58
    ensures d.Some? ==> k <= d.value < 58 && Letter(d.value) == c
    decreases 58 - k
  {
    if k == 58 then None else if Letter(k) == c then Some(k) else DigitFrom(c, k + 1)
  }

  function Digit(c: char): (d: Option<nat>)
    ensures d.Some? ==> d.value < 58 && Letter(d.value) == c
  {
    DigitFrom(c, 0)
  }

  /** The letters ascend, so each stands for one digit. */
  lemma {:induction false} DigitOfLetter(d: nat, k: nat)
    requires k <= d < 58
    ensures DigitFrom(Letter(d), k) == Some(d)
    decreases d - k
  {
    if k < d {
      DigitOfLetter(d, k + 1);
    }
  }

  function Letters(digits: seq<nat>): (s: string)
    requires Below(digits, 58)
    ensures |s| == |digits|
  {
    seq(|digits|, i requires 0 <= i < |digits| => Letter(digits[i]))
  }

  predicate InAlphabet(s: string) {
    forall i :: 0 <= i < |s| ==> Digit(s[i]).Some?
  }

  function LetterDigits(s: string): (digits: seq<nat>)
    requires InAlphabet(s)
    ensures |digits| == |s| && Below(digits, 58)
  {
    seq(|s|, i requires 0 <= i < |s| => Digit(s[i]).value)
  }

  lemma LettersRoundTrip(digits: seq<nat>)
    requires Below(digits, 58)
    ensures InAlphabet(Letters(digits)) && LetterDigits(Letters(digits)) == digits
  {
    forall i | 0 <= i < |digits|
      ensures Digit(Letters(digits)[i]) == Some(digits[i])
    {
      DigitOfLetter(digits[i], 0);
    }
  }

  function Encode(bytes: seq<byte>): string {
    Letters(Rebased(bytes, 256, 58))
  }

  datatype Failure = BadLetter | Panic

  function Decode(s: string): Result<seq<byte>, Failure> {
    if InAlphabet(s) then Ok(Rebased(LetterDigits(s), 58, 256)) else Err(BadLetter)
  }

  /** Base58 is a bijection between byte strings and strings over its alphabet, leading zeros included. */
  lemma EncodeThenDecode(bytes: seq<byte>)
    ensures Decode(Encode(bytes)) == Ok(bytes)
  {
    LettersRoundTrip(Rebased(bytes, 256, 58));
    RebasedBack(bytes, 256, 58);
  }

  lemma DecodeThenEncode(s: string)
    requires Decode(s).Ok?
    ensures Encode(Decode(s).value) == s
  {
    RebasedBack(LetterDigits(s), 58, 256);
  }

  // Addresses

  type Digest = d: seq<byte> | |d| == 32 witness seq(32, _ => 0)

  type Hash = seq<byte> -> Digest

  const PREFIX: byte := 0x41

  function Checksum(sha256: Hash, data: seq<byte>): (c: seq<byte>)
    ensures |c| == 4
  {
    sha256(sha256(data))[..4]
  }

  /** `Address.String`: the bytes with four bytes of double hash behind them, in Base58. */
  function Printed(sha256: Hash, a: seq<byte>): string {
    Encode(a + Checksum(sha256, a))
  }

  function AddressToString(sha256: Hash, a: Address): string {
    Printed(sha256, [PREFIX] + a)
  }

  function AddressFromString(s: string): Result<Address, Failure> {
    match Decode(s)
    case Err(e) => Err(e)
    case Ok(b) =>
      if |b| < 24 then Err(Panic)
      else
        var body := b[..|b| - 4];
        Ok(body[|body| - 20..])
  }

  predicate ValidateAddress(sha256: Hash, s: string) {
    match Decode(s)
    case Err(_) => false
    case Ok(b) =>
      && |b| == 25
      && b[0] == PREFIX
      && (var h := sha256(sha256(b[..21]));
          h[0] == b[21] && h[1] == b[22] && h[2] == b[23] && h[3] == b[24])
  }

  /** Every address prints to a string that validates and reads back as that address. */
  lemma AddressRoundTrip(sha256: Hash, a: Address)
    ensures ValidateAddress(sha256, AddressToString(sha256, a))
    ensures AddressFromString(AddressToString(sha256, a)) == Ok(a)
  {
    var body := [PREFIX] + a;
    var b := body + Checksum(sha256, body);
    EncodeThenDecode(b);
    assert b[..21] == body;
    assert b[..|b| - 4] == body && body[1..] == a;
  }

  /** 25 bytes that pass the checks are an address and its checksum. */
  lemma CheckedBytes(sha256: Hash, b: seq<byte>)
    requires |b| == 25 && b[0] == PREFIX
    requires b[21..] == Checksum(sha256, b[..21])
    ensures b[..21] == [PREFIX] + b[1..21]
    ensures b == [PREFIX] + b[1..21] + Checksum(sha256, [PREFIX] + b[1..21])
  {
    assert b[..21] == [PREFIX] + b[1..21];
    assert b == b[..21] + b[21..];
  }

  lemma FourBytes(b: seq<byte>, h: seq<byte>)
    requires |b| == 25 && |h| >= 4
    requires h[0] == b[21] && h[1] == b[22] && h[2] == b[23] && h[3] == b[24]
    ensures b[21..] == h[..4]
  {
  }

  /** What is read from a valid string, in terms of its bytes. */
  lemma ValidBytes(sha256: Hash, s: string) returns (b: seq<byte>)
    requires ValidateAddress(sha256, s)
    ensures Decode(s) == Ok(b) && |b| == 25
    ensures AddressFromString(s) == Ok(b[1..21])
    ensures b == [PREFIX] + b[1..21] + Checksum(sha256, [PREFIX] + b[1..21])
  {
    b := Decode(s).value;
    FourBytes(b, sha256(sha256(b[..21])));
    CheckedBytes(sha256, b);
    assert b[..21][1..] == b[1..21];
  }

  lemma ValidPrintsBack(sha256: Hash, s: string)
    requires ValidateAddress(sha256, s)
    ensures AddressFromString(s).Ok? && AddressToString(sha256, AddressFromString(s).value) == s
  {
    var b := ValidBytes(sha256, s);
    DecodeThenEncode(s);
    assert AddressToString(sha256, b[1..21]) == Encode(b);
  }

  /** Reading accepts more strings than validate: it prints back the same string exactly for the valid ones. */
  lemma ReadThenPrint(sha256: Hash, s: string)
    requires AddressFromString(s).Ok?
    ensures AddressToString(sha256, AddressFromString(s).value) == s <==> ValidateAddress(sha256, s)
  {
    if ValidateAddress(sha256, s) {
      ValidPrintsBack(sha256, s);
    } else {
      AddressRoundTrip(sha256, AddressFromString(s).value);
    }
  }

  /** What validates can be read, so the valid strings are exactly the printed addresses. */
  lemma ValidIffPrinted(sha256: Hash, s: string)
    ensures ValidateAddress(sha256, s) ==> AddressFromString(s).Ok?
    ensures ValidateAddress(sha256, s) <==> exists a: Address :: AddressToString(sha256, a) == s
  {
    if ValidateAddress(sha256, s) {
      ReadThenPrint(sha256, s);
      assert AddressToString(sha256, AddressFromString(s).value) == s;
    }
    if a: Address :| AddressToString(sha256, a) == s {
      AddressRoundTrip(sha256, a);
    }
  }

  /** When reading does not return an address: a foreign letter, or fewer than 24 bytes, for which it panics. */
  lemma ReadFails(s: string)
    ensures AddressFromString(s) == Err(BadLetter) <==> !InAlphabet(s)
    ensures AddressFromString(s) == Err(Panic) <==> Decode(s).Ok? && |Decode(s).value| < 24
  {
  }

  // What the texts look like

  /** Reading and printing keep the number, and turn leading zero bytes into leading ones and back. */
  lemma EncodedNumber(bytes: seq<byte>)
    ensures InAlphabet(Encode(bytes))
    ensures Value(LetterDigits(Encode(bytes)), 58) == Value(bytes, 256)
    ensures LeadingZeros(LetterDigits(Encode(bytes))) == LeadingZeros(bytes)
  {
    var digits := Digits(Value(bytes, 256), 58);
    LettersRoundTrip(Rebased(bytes, 256, 58));
    ValueAfterZeros(LeadingZeros(bytes), digits, 58);
    ValueOfDigits(Value(bytes, 256), 58);
    StrippedAfterZeros(LeadingZeros(bytes), digits);
  }

  /** The bytes behind a printed address: the prefix, the account, and four bytes of its hash hashed again. */
  lemma PrintedBytes(sha256: Hash, a: Address)
    ensures Decode(AddressToString(sha256, a)) == Ok([0x41] + a + sha256(sha256([0x41] + a))[..4])
  {
    var b := [0x41] + a + Checksum(sha256, [0x41] + a);
    EncodeThenDecode(b);
    assert AddressToString(sha256, a) == Encode(b);
  }

  lemma PowersOfBytes()
    ensures Power(256, 24) == 0x1_000000_000000_000000_000000_000000_000000_000000_000000
  {
    assert Power(256, 3) == 0x1_000000;
    PowerSum(256, 3, 3);
    PowerSum(256, 6, 6);
    PowerSum(256, 12, 12);
  }

  lemma PowersOfLetters()
    ensures Power(58, 33) == 15599970876632771988160814054146447252125923204784443097088
  {
    assert Power(58, 2) == 3364;
    PowerSum(58, 2, 2);
    PowerSum(58, 4, 4);
    PowerSum(58, 8, 8);
    PowerSum(58, 16, 16);
  }

  /** 25 bytes that begin with 0x41 have 34 digits, of which the first is 26. */
  lemma AddressDigits(b: seq<byte>)
    requires |b| == 25 && b[0] == 0x41
    ensures var digits := Digits(Value(b, 256), 58); |digits| == 34 && digits[0] == 26
  {
    var v := Value(b, 256);
    var digits, p := Digits(v, 58), Power(58, 33);
    PowersOfBytes();
    PowersOfLetters();
    FirstDigitBounds(b, 256);
    assert Power(58, 34) == p * 58;
    DigitsFitIff(v, 58, 33);
    DigitsFitIff(v, 58, 34);
    ValueOfDigits(v, 58);
    FirstDigitBounds(digits, 58);
    FirstDigit(digits[0], p, v);
  }

  lemma FirstDigit(d: nat, p: nat, v: nat)
    requires d * p <= v < (d + 1) * p && 26 * p <= v < 27 * p
    ensures d == 26
  {
    if d < 26 {
      Monotone(d + 1, 26, p);
    } else if d > 26 {
      Monotone(27, d, p);
    }
  }

  /** Every address prints as 34 characters that begin with a T. */
  lemma AddressBeginsWithT(sha256: Hash, a: Address)
    ensures |AddressToString(sha256, a)| == 34 && AddressToString(sha256, a)[0] == 'T'
  {
    var b := [0x41] + a + Checksum(sha256, [0x41] + a);
    AddressDigits(b);
    NoLeadingZeros(b);
    assert Zeros(0) + Digits(Value(b, 256), 58) == Digits(Value(b, 256), 58);
  }

  lemma NoLeadingZeros(b: seq<byte>)
    requires b != [] && b[0] != 0
    ensures LeadingZeros(b) == 0
  {
  }

  /** And so does every string that validates. */
  lemma ValidBeginsWithT(sha256: Hash, s: string)
    requires ValidateAddress(sha256, s)
    ensures |s| == 34 && s[0] == 'T'
  {
    ValidIffPrinted(sha256, s);
    var a: Address :| AddressToString(sha256, a) == s;
    AddressBeginsWithT(sha256, a);
  }
}
