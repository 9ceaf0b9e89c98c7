/** The fixers for numbers in hex (commons/fixer.go) and their use on transactions (agents/eth/types/block.go). */
module HexFixes {
  import opened Outcomes
  import opened Positional
  import opened HexConv
  import opened JsonFixes
  import opened FixRuns

  /** The string from its first character other than '0' on. */
  function TrimmedZeros(s: string): (r: string)
    ensures r != "" ==> r[0] != '0'
    ensures |r| <= |s| && r == s[|s| - |r|..]
    ensures forall i :: 0 <= i < |s| - |r| ==> s[i] == '0'
  {
    if s != "" && s[0] == '0' then TrimmedZeros(s[1..]) else s
  }

  method TrimLeftStrZeros(s: string) returns (r: string)
    ensures r == TrimmedZeros(s)
  {
    var idx := 0;
    while idx < |s|
      invariant 0 <= idx <= |s|
      invariant TrimmedZeros(s) == TrimmedZeros(s[idx..])
    {
      if s[idx] != '0' {
        break;
      }
      assert s[idx..][1..] == s[idx + 1..];
      idx := idx + 1;
    }
    r := s[idx..];
  }

  function ZeroUint64(s: string): string {
    if s == "0x" then "0x0" else s
  }

  function StrippedHex(s: string): string {
    if Has0xPrefix(s) then ZeroUint64("0x" + TrimmedZeros(s[2..])) else s
  }

  method FixerHexStripLeadingZeros(s: string) returns (r: string)
    ensures r == StrippedHex(s)
  {
    r := s;
    if Has0xPrefix(s) {
      var trimmed := TrimLeftStrZeros(s[2..]);
      r := "0x" + trimmed;
      r := ZeroUint64(r);
    }
  }

  // What the fixer is for

  lemma PrefixedForm(t: string)
    requires t == "" || t[0] != '0'
    ensures IsQuantity(ZeroUint64("0x" + t))
  {
    if t != "" {
      assert ("0x" + t)[2] == t[0];
    }
  }

  lemma StrippedForm(s: string)
    requires Has0xPrefix(s)
    ensures IsQuantity(StrippedHex(s))
  {
    PrefixedForm(TrimmedZeros(s[2..]));
  }

  lemma QuantityIsFixed(s: string)
    requires IsQuantity(s)
    ensures Has0xPrefix(s) && StrippedHex(s) == s
  {
    if s[2] == '0' {
      ZeroIsFixed(s);
    } else {
      NonZeroIsFixed(s);
    }
  }

  lemma OneZeroTrimmed(t: string)
    requires |t| == 1 && t[0] == '0'
    ensures TrimmedZeros(t) == ""
  {
    assert t[1..] == "";
  }

  lemma NothingLeft(t: string, zero: string)
    requires t == "" && |zero| == 3 && zero[0] == '0' && zero[1] == 'x' && zero[2] == '0'
    ensures ZeroUint64("0x" + t) == zero
  {
    assert "0x" + t == "0x";
    assert zero == "0x0";
  }

  lemma ZeroIsFixed(s: string)
    requires |s| == 3 && s[0] == '0' && s[1] == 'x' && s[2] == '0'
    ensures Has0xPrefix(s) && StrippedHex(s) == s
  {
    OneZeroTrimmed(s[2..]);
    NothingLeft(TrimmedZeros(s[2..]), s);
  }

  lemma NonZeroIsFixed(s: string)
    requires |s| > 2 && s[0] == '0' && s[1] == 'x' && s[2] != '0'
    ensures Has0xPrefix(s) && StrippedHex(s) == s
  {
    var t := s[2..];
    assert TrimmedZeros(t) == t;
    assert "0x" + t == s;
  }

  /** Every prefixed string comes out in that form, every other one is left alone, and a second time changes nothing. */
  lemma StrippedIsQuantity(s: string)
    ensures Has0xPrefix(s) ==> IsQuantity(StrippedHex(s))
    ensures !Has0xPrefix(s) ==> StrippedHex(s) == s
    ensures IsQuantity(s) <==> Has0xPrefix(s) && StrippedHex(s) == s
    ensures StrippedHex(StrippedHex(s)) == StrippedHex(s)
  {
    if Has0xPrefix(s) {
      StrippedForm(s);
      QuantityIsFixed(StrippedHex(s));
    }
    if IsQuantity(s) {
      QuantityIsFixed(s);
    }
  }

  /** Either prefix is one, and comes out in lower case. */
  lemma StrippedPrefixes(t: string)
    ensures StrippedHex("0X" + t) == StrippedHex("0x" + t) && Has0xPrefix("0X" + t) && Has0xPrefix("0x" + t)
  {
    assert ("0X" + t)[2..] == t && ("0x" + t)[2..] == t;
  }

  lemma NibblesBegin(s: string)
    requires AllHex(s) && s != ""
    ensures Nibbles(s)[0] == HexDigit(s[0]) && Nibbles(s)[1..] == Nibbles(s[1..])
  {
  }

  lemma {:induction false} TrimmedIsStripped(s: string)
    requires AllHex(s)
    ensures AllHex(TrimmedZeros(s)) && Nibbles(TrimmedZeros(s)) == Stripped(Nibbles(s))
  {
    if s != "" {
      NibblesBegin(s);
      if s[0] == '0' {
        TrimmedIsStripped(s[1..]);
      }
    }
  }

  /** The number does not change; no digits at all count as zero. */
  lemma StrippingKeepsValue(s: string)
    requires Has0xPrefix(s) && AllHex(s[2..])
    ensures AllHex(StrippedHex(s)[2..]) && HexValue(StrippedHex(s)[2..]) == HexValue(s[2..])
  {
    var digits := s[2..];
    var t := TrimmedZeros(digits);
    TrimmedIsStripped(digits);
    var n := LeadingZeros(Nibbles(digits));
    assert Nibbles(digits) == Zeros(n) + Nibbles(t);
    ValueAfterZeros(n, Nibbles(t), 16);
    if t == "" {
      assert StrippedHex(s) == Quantity(0);
      QuantityValue(0);
    } else {
      assert StrippedHex(s) == "0x" + t && ("0x" + t)[2..] == t;
    }
  }

  /** With lower-case digits the result depends on the number alone, so it is the one text of that number. */
  lemma StrippedIsCanonical(s: string)
    requires Has0xPrefix(s) && AllHex(s[2..]) && LowerCase(s[2..])
    ensures StrippedHex(s) == Quantity(HexValue(s[2..]))
  {
    var t := TrimmedZeros(s[2..]);
    TrimmedIsStripped(s[2..]);
    StrippedIsDigits(Nibbles(s[2..]), 16);
    assert Nibbles(t) == Digits(HexValue(s[2..]), 16);
    SpelledNibbles(t);
    SpelledQuantity(t, HexValue(s[2..]));
  }

  lemma SpelledQuantity(t: string, v: nat)
    requires t == Spelled(Digits(v, 16))
    ensures ZeroUint64("0x" + t) == Quantity(v)
  {
    if t == "" {
      assert "0x" + t == "0x";
    } else {
      assert |"0x" + t| > 2;
    }
  }

  // The fixes of a transaction

  const STRIP: Fixer := s => Ok(StrippedHex(s))

  const TX_FIELDS := ["nonce", "r", "s", "v"]

  ghost const TX_FIXES: seq<Fix> := [Fix(["nonce"], STRIP), Fix(["r"], STRIP), Fix(["s"], STRIP), Fix(["v"], STRIP)]

  lemma FieldFixesAreIndependent(fields: Fields, names: seq<string>)
    requires forall i, j :: 0 <= i < j < |names| ==> names[i] != names[j]
    ensures PairwiseIndependent(FieldFixes(names)) && Straight(fields, FieldFixes(names))
    ensures forall k :: 0 <= k < |names| ==> Idempotent(FieldFixes(names)[k].fix)
  {
    assert Idempotent(STRIP) by {
      forall s: string {
        StrippedIsQuantity(s);
      }
    }
    forall i, j | 0 <= i < j < |names|
      ensures Independent(FieldFixes(names)[i].path, FieldFixes(names)[j].path)
    {
      SingleKeys(names[i], names[j]);
    }
  }

  lemma SingleKeys(a: string, b: string)
    requires a != b
    ensures Independent([a], [b])
  {
    assert [a][0] == a && [b][0] == b;
  }

  lemma DistinctFields(i: nat, j: nat)
    requires i < j < 4
    ensures TX_FIELDS[i] != TX_FIELDS[j]
  {
    assert "nonce"[0] == 'n' && "r"[0] == 'r' && "s"[0] == 's' && "v"[0] == 'v';
  }

  /** On any transaction the order of the four fixes does not matter and a second run changes nothing. */
  lemma TxFixesCommuteAndSettle(fields: Fields, order: seq<Fix>, ignoreMissing: bool)
    requires multiset(order) == multiset(TX_FIXES)
    ensures Same(FixAll(fields, TX_FIXES, ignoreMissing), FixAll(fields, order, ignoreMissing))
    ensures FixAll(fields, TX_FIXES, ignoreMissing).Ok? ==>
      FixAll(FixAll(fields, TX_FIXES, ignoreMissing).value, TX_FIXES, ignoreMissing)
      == FixAll(fields, TX_FIXES, ignoreMissing)
  {
    assert TX_FIXES == FieldFixes(TX_FIELDS);
    forall i, j | 0 <= i < j < 4 {
      DistinctFields(i, j);
    }
    FieldFixesAreIndependent(fields, TX_FIELDS);
    FixesInAnyOrder(fields, TX_FIXES, order, ignoreMissing);
    if FixAll(fields, TX_FIXES, ignoreMissing).Ok? {
      FixesTwice(fields, TX_FIXES, ignoreMissing);
    }
  }

  /** The transaction with the given text fields stripped. */
  function StrippedFields(fields: Fields, names: seq<string>): Fields {
    map k | k in fields :: if k in names && fields[k].Text? then Text(StrippedHex(fields[k].s)) else fields[k]
  }

  /** Absent fields are skipped, so decoding fails exactly if one of the four is there and no text. */
  lemma TxFixesEffect(fields: Fields)
    ensures FixAll(fields, TX_FIXES, true).Ok? <==> AllTexts(fields, TX_FIELDS)
    ensures FixAll(fields, TX_FIXES, true).Ok? ==> FixAll(fields, TX_FIXES, true).value == StrippedFields(fields, TX_FIELDS)
  {
    assert TX_FIXES == FieldFixes(TX_FIELDS);
    forall i, j | 0 <= i < j < 4 {
      DistinctFields(i, j);
    }
    FieldFixesEffect(fields, TX_FIELDS);
  }

  /** The four fields by name. */
  lemma TxFieldsByName(fields: Fields)
    ensures FixAll(fields, TX_FIXES, true).Ok? <==>
      && ("nonce" in fields ==> fields["nonce"].Text?) && ("r" in fields ==> fields["r"].Text?)
      && ("s" in fields ==> fields["s"].Text?) && ("v" in fields ==> fields["v"].Text?)
    ensures FixAll(fields, TX_FIXES, true).Ok? ==>
      var fixed := FixAll(fields, TX_FIXES, true).value;
      && fixed.Keys == fields.Keys
      && (forall k :: k in fields ==>
        if k == "nonce" || k == "r" || k == "s" || k == "v" then fixed[k] == Text(StrippedHex(fields[k].s))
        else fixed[k] == fields[k])
  {
    TxFixesEffect(fields);
    assert forall k :: k in TX_FIELDS <==> k == "nonce" || k == "r" || k == "s" || k == "v";
  }

  ghost function FieldFixes(names: seq<string>): (fixes: seq<Fix>)
    ensures |fixes| == |names|
  {
    seq(|names|, i requires 0 <= i < |names| => Fix([names[i]], STRIP))
  }

  /** One field's fix, when the field is absent or a text. */
  lemma FieldFixed(fields: Fields, name: string)
    requires name in fields ==> fields[name].Text?
    ensures FixOne(fields, Fix([name], STRIP), true) == Ok(StrippedFields(fields, [name]))
  {
    assert name in [name] && forall k :: k in [name] ==> k == name;
    if name in fields {
      assert FixOne(fields, Fix([name], STRIP), true) == Ok(fields[name := Text(StrippedHex(fields[name].s))]);
      assert StrippedFields(fields, [name]) == fields[name := Text(StrippedHex(fields[name].s))];
    } else {
      assert StrippedFields(fields, [name]) == fields;
    }
  }

  lemma FieldRefused(fields: Fields, name: string)
    requires name in fields && !fields[name].Text?
    ensures FixOne(fields, Fix([name], STRIP), true).Err?
  {
  }

  lemma StrippedInTurn(fields: Fields, name: string, rest: seq<string>)
    requires name !in rest
    ensures StrippedFields(StrippedFields(fields, [name]), rest) == StrippedFields(fields, [name] + rest)
  {
    assert forall k :: k in [name] + rest <==> k == name || k in rest;
  }

  predicate AllTexts(fields: Fields, names: seq<string>) {
    forall k :: k in names && k in fields ==> fields[k].Text?
  }

  lemma {:induction false} FieldFixesEffect(fields: Fields, names: seq<string>)
    requires forall i, j :: 0 <= i < j < |names| ==> names[i] != names[j]
    ensures var r := FixAll(fields, FieldFixes(names), true);
      (r.Ok? <==> AllTexts(fields, names)) && (r.Ok? ==> r.value == StrippedFields(fields, names))
    decreases |names|
  {
    if names == [] {
      assert StrippedFields(fields, []) == fields;
    } else {
      var name, rest := names[0], names[1..];
      assert names == [name] + rest;
      assert FieldFixes(names)[1..] == FieldFixes(rest) && FieldFixes(names)[0] == Fix([name], STRIP);
      if name in fields && !fields[name].Text? {
        FieldRefused(fields, name);
      } else {
        var next := StrippedFields(fields, [name]);
        FieldFixed(fields, name);
        FieldFixesEffect(next, rest);
        StrippedInTurn(fields, name, rest);
        assert AllTexts(next, rest) <==> AllTexts(fields, names);
      }
    }
  }
}
