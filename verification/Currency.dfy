/** Currency identifiers and their text form (blockchain/currency.go). */
module Currency {
  import opened Outcomes

  // Splitting and joining at colons

  predicate ColonFree(s: string) {
    ':' !in s
  }

  /** `strings.Split` at colons: the empty string has one empty part. */
  function Split(s: string): (parts: seq<string>)
    ensures parts != []
  {
    if s == "" then [""]
    else
      var rest := Split(s[1..]);
      if s[0] == ':' then [""] + rest else [[s[0]] + rest[0]] + rest[1..]
  }

  function Join(parts: seq<string>): string
    requires parts != []
  {
    if |parts| == 1 then parts[0] else parts[0] + ":" + Join(parts[1..])
  }

  function Colons(s: string): nat {
    if s == "" then 0 else (if s[0] == ':' then 1 else 0) + Colons(s[1..])
  }

  /** Splitting cuts at every colon and nowhere else. */
  lemma SplitParts(s: string)
    ensures forall i :: 0 <= i < |Split(s)| ==> ColonFree(Split(s)[i])
    ensures |Split(s)| == Colons(s) + 1
    ensures Join(Split(s)) == s
  {
    SplitAtColons(s);
    JoinSplit(s);
  }

  lemma {:induction false} SplitAtColons(s: string)
    ensures forall i :: 0 <= i < |Split(s)| ==> ColonFree(Split(s)[i])
    ensures |Split(s)| == Colons(s) + 1
  {
    if s != "" {
      var rest := Split(s[1..]);
      SplitAtColons(s[1..]);
      if s[0] != ':' {
        assert ColonFree([s[0]] + rest[0]);
      }
    }
  }

  lemma {:induction false} JoinSplit(s: string)
    ensures Join(Split(s)) == s
  {
    if s != "" {
      var rest := Split(s[1..]);
      JoinSplit(s[1..]);
      assert s == [s[0]] + s[1..];
      if s[0] == ':' {
        assert ([""] + rest)[1..] == rest;
        assert "" + ":" + s[1..] == s;
      } else {
        JoinHead([s[0]], rest);
      }
    }
  }

  lemma JoinHead(head: string, parts: seq<string>)
    requires parts != []
    ensures Join([head + parts[0]] + parts[1..]) == head + Join(parts)
  {
    var longer := [head + parts[0]] + parts[1..];
    assert longer[1..] == parts[1..];
    if |parts| > 1 {
      Regroup(head, parts[0], ":", Join(parts[1..]));
    }
  }

  lemma Regroup(a: string, b: string, c: string, d: string)
    ensures (a + b) + c + d == a + (b + c + d)
  {
  }

  lemma {:induction false} SplitPrefix(part: string, s: string)
    requires ColonFree(part)
    ensures Split(part + s) == [part + Split(s)[0]] + Split(s)[1..]
  {
    if part == "" {
      assert part + s == s;
      assert "" + Split(s)[0] == Split(s)[0];
    } else {
      assert (part + s)[1..] == part[1..] + s;
      SplitPrefix(part[1..], s);
      assert [part[0]] + (part[1..] + Split(s)[0]) == part + Split(s)[0];
    }
  }

  /** Colon-free parts survive being joined and split. */
  lemma {:induction false} SplitJoin(parts: seq<string>)
    requires parts != [] && forall i :: 0 <= i < |parts| ==> ColonFree(parts[i])
    ensures Split(Join(parts)) == parts
  {
    if |parts| == 1 {
      SplitPrefix(parts[0], "");
      assert parts[0] + "" == parts[0];
    } else {
      var rest := Join(parts[1..]);
      SplitJoin(parts[1..]);
      SplitPrefix(parts[0], ":" + rest);
      assert (":" + rest)[1..] == rest;
      assert parts[0] + ":" + rest == parts[0] + (":" + rest);
      assert parts[0] + "" == parts[0];
    }
  }

  // Upper case, for ASCII letters

  function UpperChar(c: char): (r: char)
    ensures !('a' <= r <= 'z')
    ensures r != c ==> 'a' <= c <= 'z' && c as int - r as int == 32
  {
    if 'a' <= c <= 'z' then (c as int - 'a' as int + 'A' as int) as char else c
  }

  function Upper(s: string): (r: string)
    ensures |r| == |s|
  {
    seq(|s|, i requires 0 <= i < |s| => UpperChar(s[i]))
  }

  lemma UpperTwice(s: string)
    ensures Upper(Upper(s)) == Upper(s)
    ensures ColonFree(Upper(s)) <==> ColonFree(s)
  {
    if ':' in s {
      var i :| 0 <= i < |s| && s[i] == ':';
      assert Upper(s)[i] == ':';
    }
  }

  // Identifiers

  const MAINNET := "MAINNET"

  datatype ChainId = ChainId(kind: string, network: string) {
    function Normalize(): ChainId {
      var net := Upper(network);
      ChainId(Upper(kind), if net == MAINNET then "" else net)
    }
  }

  datatype ChainCurrencyId = ChainCurrencyId(address: string, token: string) {
    function ToString(): string {
      if token != "" then address + ":" + token else address
    }
  }

  datatype CurrencyId = CurrencyId(chain: ChainId, currency: ChainCurrencyId) {
    function Normalize(): CurrencyId {
      CurrencyId(chain.Normalize(), currency)
    }

    function ToString(): string {
      var head := if chain.network != "" then chain.kind + ":" + chain.network else chain.kind;
      if currency.ToString() != "" then head + ":" + currency.ToString() else head
    }
  }

  datatype InvalidArgument = InvalidCurrencyId(text: string)

  function CurrencyIdFromString(s: string): Result<CurrencyId, InvalidArgument> {
    var parts := Split(s);
    if |parts| > 4 || |parts| == 0 then Err(InvalidCurrencyId(s))
    else
      var kind := Upper(parts[0]);
      var network := if |parts| >= 2 then Upper(parts[1]) else "";
      var normal := if network == MAINNET then "" else network;
      var address := if |parts| >= 3 then parts[2] else "";
      var token := if |parts| == 4 then parts[3] else "";
      Ok(CurrencyId(ChainId(kind, normal), ChainCurrencyId(address, token)))
  }

  function ChainCurrencyIdFromString(s: string): Result<ChainCurrencyId, InvalidArgument> {
    var parts := Split(s);
    if |parts| == 2 then Ok(ChainCurrencyId(parts[0], parts[1]))
    else if |parts| == 1 then Ok(ChainCurrencyId(parts[0], ""))
    else Err(InvalidCurrencyId(s))
  }

  // Within a chain

  predicate PartsColonFree(c: ChainCurrencyId) {
    ColonFree(c.address) && ColonFree(c.token)
  }

  /** The printed parts: the token only if there is one. */
  function CurrencyParts(c: ChainCurrencyId): (parts: seq<string>)
    ensures parts != [] && Join(parts) == c.ToString()
  {
    if c.token != "" then
      assert [c.address, c.token][1..] == [c.token];
      [c.address, c.token]
    else [c.address]
  }

  /** An id within a chain survives printing and parsing exactly if neither component holds a colon. */
  lemma ChainCurrencyPrintThenParse(c: ChainCurrencyId)
    ensures ChainCurrencyIdFromString(c.ToString()) == Ok(c) <==> PartsColonFree(c)
  {
    if PartsColonFree(c) {
      SplitJoin(CurrencyParts(c));
    } else {
      SplitParts(c.ToString());
    }
  }

  /** Printing is injective on such ids. */
  lemma ChainCurrencyPrintInjective(c: ChainCurrencyId, d: ChainCurrencyId)
    requires PartsColonFree(c) && PartsColonFree(d) && c.ToString() == d.ToString()
    ensures c == d
  {
    ChainCurrencyPrintThenParse(c);
    ChainCurrencyPrintThenParse(d);
  }

  /** Parsing accepts exactly the strings with at most one colon, and printing gives back those that do not end in one. */
  lemma ChainCurrencyParseThenPrint(s: string)
    ensures ChainCurrencyIdFromString(s).Ok? <==> Colons(s) <= 1
    ensures ChainCurrencyIdFromString(s).Ok? ==>
      (ChainCurrencyIdFromString(s).value.ToString() == s <==> s == "" || s[|s| - 1] != ':')
  {
    SplitParts(s);
    var parts := Split(s);
    if |parts| == 2 {
      assert parts[1..] == [parts[1]];
      assert s == parts[0] + ":" + parts[1];
      EndsInColonIff(parts[0], parts[1]);
    } else if |parts| == 1 && s != "" {
      assert s == parts[0];
      assert s[|s| - 1] in s;
    }
  }

  lemma EndsInColonIff(a: string, b: string)
    requires ColonFree(b)
    ensures (a + ":" + b)[|a| + |b|] == ':' <==> b == ""
  {
    if b != "" {
      assert (a + ":" + b)[|a| + |b|] == b[|b| - 1];
      assert b[|b| - 1] in b;
    }
  }

  // Across chains

  predicate AllColonFree(id: CurrencyId) {
    ColonFree(id.chain.kind) && ColonFree(id.chain.network) && PartsColonFree(id.currency)
  }

  predicate NoCurrency(c: ChainCurrencyId) {
    c.address == "" && c.token == ""
  }

  /** The printed parts; an empty network is left out even when something follows it. */
  function IdParts(id: CurrencyId): (parts: seq<string>)
    ensures parts != [] && |parts| <= 4
  {
    [id.chain.kind] + (if id.chain.network != "" then [id.chain.network] else [])
    + if NoCurrency(id.currency) then [] else CurrencyParts(id.currency)
  }

  lemma {:induction false} JoinTwo(xs: seq<string>, ys: seq<string>)
    requires xs != [] && ys != []
    ensures Join(xs + ys) == Join(xs) + ":" + Join(ys)
  {
    if |xs| == 1 {
      assert (xs + ys)[1..] == ys;
    } else {
      assert (xs + ys)[1..] == xs[1..] + ys;
      JoinTwo(xs[1..], ys);
      var a, b, c := xs[0] + ":", Join(xs[1..]), ":" + Join(ys);
      assert a + (b + c) == (a + b) + c;
    }
  }

  lemma IdPartsJoined(id: CurrencyId)
    ensures Join(IdParts(id)) == id.ToString()
  {
    var head := if id.chain.network != "" then [id.chain.kind, id.chain.network] else [id.chain.kind];
    assert [id.chain.kind, id.chain.network][1..] == [id.chain.network];
    assert Join(head) == if id.chain.network != "" then id.chain.kind + ":" + id.chain.network else id.chain.kind;
    if NoCurrency(id.currency) {
      assert IdParts(id) == head;
    } else {
      assert IdParts(id) == head + CurrencyParts(id.currency);
      JoinTwo(head, CurrencyParts(id.currency));
    }
  }

  /** Parsing succeeds exactly with at most three colons, and gives a normalised id of colon-free parts. */
  lemma ParsedIsNormal(s: string)
    ensures CurrencyIdFromString(s).Ok? <==> Colons(s) <= 3
    ensures CurrencyIdFromString(s).Ok? ==>
      var id := CurrencyIdFromString(s).value; id.Normalize() == id && AllColonFree(id)
    ensures CurrencyIdFromString(s).Err? ==> CurrencyIdFromString(s).error == InvalidCurrencyId(s)
  {
    SplitParts(s);
    var parts := Split(s);
    if |parts| <= 4 {
      UpperTwice(parts[0]);
      if |parts| >= 2 {
        UpperTwice(parts[1]);
      }
      assert Upper("") == "";
    }
  }

  lemma ParsePrintedParts(id: CurrencyId)
    requires AllColonFree(id)
    ensures Split(id.ToString()) == IdParts(id)
  {
    IdPartsJoined(id);
    SplitJoin(IdParts(id));
  }

  lemma NormalKeepsColons(id: CurrencyId)
    ensures AllColonFree(id.Normalize()) ==> AllColonFree(id)
  {
    UpperTwice(id.chain.kind);
    UpperTwice(id.chain.network);
    if !ColonFree(id.chain.network) {
      var i :| 0 <= i < |id.chain.network| && id.chain.network[i] == ':';
      assert Upper(id.chain.network)[i] == ':';
      assert ':' !in MAINNET;
    }
  }

  /**
  Printing and parsing an id gives its normal form exactly if no part holds a colon and either the
  network is named or there is nothing behind it: the printer drops an empty network segment.
  */
  lemma PrintThenParse(id: CurrencyId)
    ensures CurrencyIdFromString(id.ToString()) == Ok(id.Normalize())
            <==> AllColonFree(id) && (id.chain.network != "" || NoCurrency(id.currency))
  {
    assert Upper("") == "";
    if AllColonFree(id) {
      ParsePrintedParts(id);
      PartsOfId(id);
    } else {
      ParsedIsNormal(id.ToString());
      NormalKeepsColons(id);
    }
  }

  lemma PartsOfId(id: CurrencyId)
    ensures var parts := IdParts(id); var c := id.currency;
      && parts[0] == id.chain.kind
      && (if id.chain.network != "" then
           && |parts| >= 2 && parts[1] == id.chain.network
           && (|parts| >= 3 <==> !NoCurrency(c))
           && (|parts| >= 3 ==> parts[2] == c.address && (|parts| == 4 <==> c.token != ""))
           && (|parts| == 4 ==> parts[3] == c.token)
         else
           && |parts| <= 3
           && (|parts| >= 2 <==> !NoCurrency(c))
           && (|parts| >= 2 ==> parts[1] == c.address && (|parts| == 3 <==> c.token != ""))
           && (|parts| == 3 ==> parts[2] == c.token))
  {
  }

  /** For an id in normal form the same condition says when it comes back itself. */
  lemma NormalIdRoundTrip(id: CurrencyId)
    requires id.Normalize() == id && AllColonFree(id)
    ensures CurrencyIdFromString(id.ToString()) == Ok(id) <==> id.chain.network != "" || NoCurrency(id.currency)
  {
    PrintThenParse(id);
  }

  /** The documented mainnet form of a token parses, but what it prints as names the token's address as the network. */
  lemma MainnetTokenIsMisprinted(kind: string, address: string)
    requires ColonFree(kind) && ColonFree(address) && Upper(kind) == kind
    requires address != "" && Upper(address) != MAINNET
    ensures CurrencyIdFromString(kind + "::" + address) == Ok(MainnetToken(kind, address))
    ensures CurrencyIdFromString(MainnetToken(kind, address).ToString())
            == Ok(CurrencyId(ChainId(kind, Upper(address)), ChainCurrencyId("", "")))
  {
    var id := MainnetToken(kind, address);
    ThreeParts(kind, address);
    assert Upper("") == "";
    ParsePrintedParts(id);
    assert IdParts(id) == [kind, address];
  }

  function MainnetToken(kind: string, address: string): CurrencyId {
    CurrencyId(ChainId(kind, ""), ChainCurrencyId(address, ""))
  }

  /** Naming the mainnet, in whatever case, is naming no network. */
  lemma MainnetIsNoNetwork(kind: string, network: string)
    requires ColonFree(kind) && ColonFree(network)
    ensures Upper(network) == "MAINNET" ==>
      CurrencyIdFromString(kind + ":" + network) == CurrencyIdFromString(kind)
    ensures Upper(network) != "MAINNET" ==>
      CurrencyIdFromString(kind + ":" + network)
      == Ok(CurrencyId(ChainId(Upper(kind), Upper(network)), ChainCurrencyId("", "")))
    ensures CurrencyIdFromString(kind) == Ok(CurrencyId(ChainId(Upper(kind), ""), ChainCurrencyId("", "")))
  {
    assert [kind, network][1..] == [network];
    SplitJoin([kind, network]);
    SplitJoin([kind]);
  }

  lemma ThreeParts(kind: string, address: string)
    requires ColonFree(kind) && ColonFree(address)
    ensures Split(kind + "::" + address) == [kind, "", address]
  {
    var parts := [kind, "", address];
    assert parts[1..] == ["", address] && ["", address][1..] == [address];
    assert Join(["", address]) == "" + ":" + address;
    assert kind + ":" + ("" + ":" + address) == kind + "::" + address;
    SplitJoin(parts);
  }

  /**
  Parsing and printing a string gives it back exactly if its first two parts are in upper case, a
  second part is neither empty nor the mainnet, and a third or fourth part at the end is not empty.
  */
  lemma ParseThenPrint(s: string)
    requires CurrencyIdFromString(s).Ok?
    ensures var parts := Split(s); var last := parts[|parts| - 1];
      CurrencyIdFromString(s).value.ToString() == s <==>
        && Upper(parts[0]) == parts[0]
        && (|parts| >= 2 ==> Upper(parts[1]) == parts[1] && parts[1] != "" && parts[1] != MAINNET)
        && (|parts| >= 3 ==> last != "")
  {
    SplitParts(s);
    ParsedIsNormal(s);
    var id := CurrencyIdFromString(s).value;
    PrintedIff(id, s);
    SamePartsIff(s);
  }

  lemma PrintedIff(id: CurrencyId, s: string)
    requires AllColonFree(id)
    ensures id.ToString() == s <==> IdParts(id) == Split(s)
  {
    ParsePrintedParts(id);
    IdPartsJoined(id);
    JoinSplit(s);
  }

  lemma SamePartsIff(s: string)
    requires CurrencyIdFromString(s).Ok?
    ensures var parts := Split(s); var last := parts[|parts| - 1];
      IdParts(CurrencyIdFromString(s).value) == parts <==>
        && Upper(parts[0]) == parts[0]
        && (|parts| >= 2 ==> Upper(parts[1]) == parts[1] && parts[1] != "" && parts[1] != MAINNET)
        && (|parts| >= 3 ==> last != "")
  {
    assert Upper("") == "";
    PrintedPartsIff(Split(s), CurrencyIdFromString(s).value);
  }

  /** When the printed parts of an id are the parts its address and token came from. */
  lemma PrintedPartsIff(parts: seq<string>, id: CurrencyId)
    requires 1 <= |parts| <= 4 && (|parts| == 1 ==> id.chain.network == "")
    requires id.currency.address == if |parts| >= 3 then parts[2] else ""
    requires id.currency.token == if |parts| == 4 then parts[3] else ""
    ensures IdParts(id) == parts <==>
      && id.chain.kind == parts[0]
      && (|parts| >= 2 ==> id.chain.network == parts[1] && parts[1] != "")
      && (|parts| >= 3 ==> parts[|parts| - 1] != "")
  {
    var printed := IdParts(id);
    PartsOfId(id);
    assert printed == parts <==> |printed| == |parts| && forall i :: 0 <= i < |parts| ==> printed[i] == parts[i];
  }
}
