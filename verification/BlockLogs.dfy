/** Turning a block's logs into transfers (agents/eth/server/block.go, agents/eth/server/transaction.go). */
module BlockLogs {
  import opened Arithmetic
  import opened Positional
  import opened HexConv

  type Word = w: seq<byte> | |w| == 32 witness seq(32, _ => 0)

  datatype Log = Log(address: seq<byte>, topics: seq<Word>, data: seq<byte>, txIndex: nat)

  datatype Tx = Tx(hash: seq<byte>, from: string, to: string, value: nat, index: nat)

  datatype Transfer = Transfer(
    id: seq<byte>, txId: seq<byte>, from: string, to: string, status: nat, currency: string, amount: seq<byte>)

  /** How the chain writes an address. */
  type AddressPrinter = seq<byte> -> string

  // Grouping

  /** The logs that satisfy `keep`, in order. */
  function Filter(keep: Log -> bool, logs: seq<Log>): seq<Log> {
    if logs == [] then []
    else
      var last := |logs| - 1;
      Filter(keep, logs[..last]) + if keep(logs[last]) then [logs[last]] else []
  }

  function Group(groups: map<nat, seq<Log>>, index: nat): seq<Log> {
    if index in groups then groups[index] else []
  }

  function ByIndex(index: nat): Log -> bool {
    (log: Log) => log.txIndex == index
  }

  /** Every group is the order-preserving selection of the logs with its index. */
  method GroupLogs(logs: seq<Log>) returns (res: map<nat, seq<Log>>)
    ensures forall index: nat :: Group(res, index) == Filter(ByIndex(index), logs)
  {
    res := map[];
    for i := 0 to |logs|
      invariant forall index: nat :: Group(res, index) == Filter(ByIndex(index), logs[..i])
    {
      var log := logs[i];
      assert logs[..i + 1][..i] == logs[..i];
      if log.txIndex !in res {
        res := res[log.txIndex := [log]];
      } else {
        res := res[log.txIndex := res[log.txIndex] + [log]];
      }
    }
    assert logs[..|logs|] == logs;
  }

  /** The places of the logs that satisfy `keep`. */
  function Positions(keep: Log -> bool, logs: seq<Log>): seq<nat> {
    if logs == [] then []
    else
      var last := |logs| - 1;
      Positions(keep, logs[..last]) + if keep(logs[last]) then [last] else []
  }

  lemma {:induction false} PositionsAscend(keep: Log -> bool, logs: seq<Log>)
    ensures forall k :: 0 <= k < |Positions(keep, logs)| ==> Positions(keep, logs)[k] < |logs|
    ensures forall j, k :: 0 <= j < k < |Positions(keep, logs)| ==> Positions(keep, logs)[j] < Positions(keep, logs)[k]
  {
    if logs != [] {
      PositionsAscend(keep, logs[..|logs| - 1]);
    }
  }

  lemma {:induction false} PositionsAreThose(keep: Log -> bool, logs: seq<Log>, p: nat)
    ensures p in Positions(keep, logs) <==> p < |logs| && keep(logs[p])
  {
    if logs != [] {
      PositionsAreThose(keep, logs[..|logs| - 1], p);
    }
  }

  lemma {:induction false} FilteredAt(keep: Log -> bool, logs: seq<Log>, k: nat)
    requires k < |Positions(keep, logs)|
    ensures |Filter(keep, logs)| == |Positions(keep, logs)|
    ensures Positions(keep, logs)[k] < |logs| && Filter(keep, logs)[k] == logs[Positions(keep, logs)[k]]
  {
    var last := |logs| - 1;
    FilterLength(keep, logs[..last]);
    if k < |Positions(keep, logs[..last])| {
      FilteredAt(keep, logs[..last], k);
    }
  }

  lemma {:induction false} FilterLength(keep: Log -> bool, logs: seq<Log>)
    ensures |Filter(keep, logs)| == |Positions(keep, logs)|
  {
    if logs != [] {
      FilterLength(keep, logs[..|logs| - 1]);
    }
  }

  /** Filtering reads the logs at ascending places, which are all the places of logs to keep. */
  lemma FilterKeepsOrder(keep: Log -> bool, logs: seq<Log>) returns (ps: seq<nat>)
    ensures |ps| == |Filter(keep, logs)|
    ensures forall k :: 0 <= k < |ps| ==> ps[k] < |logs| && logs[ps[k]] == Filter(keep, logs)[k]
    ensures forall j, k :: 0 <= j < k < |ps| ==> ps[j] < ps[k]
    ensures forall p :: 0 <= p < |logs| && keep(logs[p]) ==> p in ps
  {
    ps := Positions(keep, logs);
    FilterLength(keep, logs);
    PositionsAscend(keep, logs);
    forall k: nat | k < |ps|
      ensures ps[k] < |logs| && logs[ps[k]] == Filter(keep, logs)[k]
    {
      FilteredAt(keep, logs, k);
    }
    forall p | 0 <= p < |logs| && keep(logs[p])
      ensures p in ps
    {
      PositionsAreThose(keep, logs, p);
    }
  }

  // Transfers of a transaction

  const TRANSFER_TOPIC := "ddf252ad1be2c89b69c2b068fc378daa" + "952ba7f163c4a11628f55a4df523b3ef"

  predicate HasSuffix(s: string, suffix: string) {
    |s| >= |suffix| && s[|s| - |suffix|..] == suffix
  }

  predicate IsTransfer(log: Log) {
    |log.topics| > 2 && HasSuffix("0x" + Bytes2Hex(log.topics[0]), TRANSFER_TOPIC)
  }

  /** The suffix test on the printed topic is a comparison of the whole topic. */
  lemma TransferTopic(log: Log)
    requires |log.topics| > 2
    ensures IsTransfer(log)
            <==> Bytes2Hex(log.topics[0]) == "ddf252ad1be2c89b69c2b068fc378daa" + "952ba7f163c4a11628f55a4df523b3ef"
    ensures IsTransfer(log) ==> log.topics[0] == Hex2Bytes(TRANSFER_TOPIC)
  {
    var text := Bytes2Hex(log.topics[0]);
    assert |TRANSFER_TOPIC| == 64;
    assert ("0x" + text)[2..] == text;
    BytesRoundTrip(log.topics[0]);
  }

  function LastBytes(w: Word): seq<byte> {
    w[12..]
  }

  function DecodeLogAsTransfer(tx: Tx, log: Log, show: AddressPrinter): Transfer
    requires |log.topics| > 2
  {
    Transfer(tx.hash + Digits(log.txIndex, 256), tx.hash,
             show(LastBytes(log.topics[1])), show(LastBytes(log.topics[2])),
             0, show(log.address), log.data)
  }

  function NativeTransfer(tx: Tx): Transfer {
    Transfer(tx.hash + [0], tx.hash, tx.from, tx.to, 1, "", Digits(tx.value, 256))
  }

  /** The native transfer of a transaction that moves value. */
  function Native(tx: Tx): seq<Transfer> {
    if tx.value > 0 then [NativeTransfer(tx)] else []
  }

  function Decoded(tx: Tx, logs: seq<Log>, show: AddressPrinter): (transfers: seq<Transfer>)
    requires forall i :: 0 <= i < |logs| ==> IsTransfer(logs[i])
    ensures |transfers| == |logs|
  {
    seq(|logs|, i requires 0 <= i < |logs| =>
      assert IsTransfer(logs[i]);
      DecodeLogAsTransfer(tx, logs[i], show))
  }

  lemma {:induction false} FilterKeeps(keep: Log -> bool, logs: seq<Log>)
    ensures forall i :: 0 <= i < |Filter(keep, logs)| ==> keep(Filter(keep, logs)[i])
    ensures |Filter(keep, logs)| <= |logs|
  {
    if logs != [] {
      FilterKeeps(keep, logs[..|logs| - 1]);
    }
  }

  function TransferLogs(logs: seq<Log>): (r: seq<Log>)
    ensures forall i :: 0 <= i < |r| ==> IsTransfer(r[i])
  {
    FilterKeeps(IsTransfer, logs);
    Filter(IsTransfer, logs)
  }

  method ConvertERC20Transfer(tx: Tx, logs: seq<Log>, show: AddressPrinter) returns (transfers: seq<Transfer>)
    ensures transfers == Decoded(tx, TransferLogs(logs), show)
  {
    transfers := [];
    for i := 0 to |logs|
      invariant transfers == Decoded(tx, TransferLogs(logs[..i]), show)
    {
      assert logs[..i + 1][..i] == logs[..i];
      if IsTransfer(logs[i]) {
        transfers := transfers + [DecodeLogAsTransfer(tx, logs[i], show)];
      }
    }
    assert logs[..|logs|] == logs;
  }

  /** The native transfer if value moves, then the token transfers in log order. */
  method Convert(tx: Tx, logs: seq<Log>, show: AddressPrinter) returns (transfers: seq<Transfer>)
    ensures transfers == Native(tx) + Decoded(tx, TransferLogs(logs), show)
  {
    transfers := [];
    if tx.value > 0 {
      transfers := transfers + [NativeTransfer(tx)];
    }
    if |logs| > 0 {
      var erc20Transfers := ConvertERC20Transfer(tx, logs, show);
      transfers := transfers + erc20Transfers;
    }
  }

  // A whole block

  /** The logs a transaction reports, taken from all logs of the block. */
  function Reported(tx: Tx, logs: seq<Log>): (r: seq<Log>)
    ensures forall i :: 0 <= i < |r| ==> IsTransfer(r[i])
  {
    TransferLogs(Filter(ByIndex(tx.index), logs))
  }

  /** The transfers of every transaction: the native one if any, and then its token transfers in log order. */
  predicate Converted(txs: seq<Tx>, logs: seq<Log>, show: AddressPrinter, transactions: seq<seq<Transfer>>) {
    && |transactions| == |txs|
    && forall i :: 0 <= i < |txs| ==> transactions[i] == Native(txs[i]) + Decoded(txs[i], Reported(txs[i], logs), show)
  }

  /** No address is written as the empty text, which stands for the chain's own currency. */
  ghost predicate NamesAll(show: AddressPrinter) {
    forall address :: show(address) != ""
  }

  method EthBlockToProto(txs: seq<Tx>, logs: seq<Log>, show: AddressPrinter) returns (transactions: seq<seq<Transfer>>)
    ensures Converted(txs, logs, show, transactions)
    ensures NamesAll(show) ==>
      && (forall account :: BlockNet(transactions, "", account) == ValueNet(txs, account))
      && (forall i :: 0 <= i < |txs| ==> NativeOnce(txs[i], transactions[i]))
  {
    var groups := GroupLogs(logs);
    transactions := [];
    for i := 0 to |txs|
      invariant Converted(txs[..i], logs, show, transactions)
    {
      var transfers := Convert(txs[i], Group(groups, txs[i].index), show);
      transactions := transactions + [transfers];
    }
    assert txs[..|txs|] == txs;
    if NamesAll(show) {
      LedgerBalances(txs, logs, show, transactions);
    }
  }

  // The ledger

  /** What an account has more of some currency after a transfer. */
  function Gain(t: Transfer, currency: string, account: string): int {
    if t.currency != currency then 0
    else (if t.to == account then Value(t.amount, 256) else 0) - (if t.from == account then Value(t.amount, 256) else 0)
  }

  function Net(transfers: seq<Transfer>, currency: string, account: string): int {
    if transfers == [] then 0 else Gain(transfers[0], currency, account) + Net(transfers[1..], currency, account)
  }

  function BlockNet(transactions: seq<seq<Transfer>>, currency: string, account: string): int {
    if transactions == [] then 0
    else BlockNet(transactions[..|transactions| - 1], currency, account)
         + Net(transactions[|transactions| - 1], currency, account)
  }

  /** What the transactions themselves send to an account less what it sends. */
  function ValueNet(txs: seq<Tx>, account: string): int {
    if txs == [] then 0
    else
      var tx := txs[|txs| - 1];
      ValueNet(txs[..|txs| - 1], account) + (if tx.to == account then tx.value else 0)
      - (if tx.from == account then tx.value else 0)
  }

  /** One native transfer, in front, for a transaction that moves value, and none otherwise; all under its id. */
  predicate NativeOnce(tx: Tx, transfers: seq<Transfer>) {
    && (tx.value > 0 <==> transfers != [] && transfers[0].currency == "")
    && (forall k :: 0 < k < |transfers| ==> transfers[k].currency != "")
    && (forall k :: 0 <= k < |transfers| ==> transfers[k].txId == tx.hash)
  }

  lemma {:induction false} TokensMoveNothingNative(transfers: seq<Transfer>, account: string)
    requires forall k :: 0 <= k < |transfers| ==> transfers[k].currency != ""
    ensures Net(transfers, "", account) == 0
  {
    if transfers != [] {
      TokensMoveNothingNative(transfers[1..], account);
    }
  }

  lemma NativeBalances(tx: Tx, tokens: seq<Transfer>, account: string)
    requires forall k :: 0 <= k < |tokens| ==> tokens[k].currency != ""
    ensures Net(Native(tx) + tokens, "", account)
            == (if tx.to == account then tx.value else 0) - (if tx.from == account then tx.value else 0)
  {
    TokensMoveNothingNative(tokens, account);
    NativeAmount(tx);
    if tx.value > 0 {
      assert (Native(tx) + tokens)[1..] == tokens;
    } else {
      assert Native(tx) + tokens == tokens;
    }
  }

  lemma NativeInFront(tx: Tx, logs: seq<Log>, show: AddressPrinter, transfers: seq<Transfer>)
    requires NamesAll(show)
    requires forall i :: 0 <= i < |logs| ==> IsTransfer(logs[i])
    requires transfers == Native(tx) + Decoded(tx, logs, show)
    ensures NativeOnce(tx, transfers)
  {
    var tokens := Decoded(tx, logs, show);
    assert forall k :: 0 <= k < |tokens| ==> tokens[k].currency != "" && tokens[k].txId == tx.hash;
  }

  lemma {:induction false} BlockBalances(
    txs: seq<Tx>, logs: seq<Log>, show: AddressPrinter, transactions: seq<seq<Transfer>>, account: string)
    requires NamesAll(show)
    requires Converted(txs, logs, show, transactions)
    ensures BlockNet(transactions, "", account) == ValueNet(txs, account)
  {
    if txs != [] {
      var last := |txs| - 1;
      BlockBalances(txs[..last], logs, show, transactions[..last], account);
      NativeBalances(txs[last], Decoded(txs[last], Reported(txs[last], logs), show), account);
    }
  }

  lemma NativeAt(txs: seq<Tx>, logs: seq<Log>, show: AddressPrinter, transactions: seq<seq<Transfer>>, i: nat)
    requires NamesAll(show) && Converted(txs, logs, show, transactions) && i < |txs|
    ensures NativeOnce(txs[i], transactions[i])
  {
    NativeInFront(txs[i], Reported(txs[i], logs), show, transactions[i]);
  }

  /** What the native transfers of a block move is what its transactions move. */
  lemma LedgerBalances(txs: seq<Tx>, logs: seq<Log>, show: AddressPrinter, transactions: seq<seq<Transfer>>)
    requires NamesAll(show) && Converted(txs, logs, show, transactions)
    ensures forall account :: BlockNet(transactions, "", account) == ValueNet(txs, account)
    ensures forall i :: 0 <= i < |txs| ==> NativeOnce(txs[i], transactions[i])
  {
    forall account
      ensures BlockNet(transactions, "", account) == ValueNet(txs, account)
    {
      BlockBalances(txs, logs, show, transactions, account);
    }
    forall i | 0 <= i < |txs|
      ensures NativeOnce(txs[i], transactions[i])
    {
      NativeAt(txs, logs, show, transactions, i);
    }
  }

  // Conservation

  /** What the transactions of a block take from its logs together, each the wanted ones with its index. */
  function Taken(keep: Log -> bool, txs: seq<Tx>, logs: seq<Log>): seq<Log> {
    if txs == [] then []
    else
      var last := |txs| - 1;
      Taken(keep, txs[..last], logs) + Filter(keep, Filter(ByIndex(txs[last].index), logs))
  }

  /** Everything the transactions of a block report together. */
  function AllReported(txs: seq<Tx>, logs: seq<Log>): seq<Log> {
    Taken(IsTransfer, txs, logs)
  }

  /** How many transactions of the block have this index. */
  function Listed(txs: seq<Tx>, index: nat): nat {
    if txs == [] then 0
    else Listed(txs[..|txs| - 1], index) + if txs[|txs| - 1].index == index then 1 else 0
  }

  lemma {:induction false} FilterCount(keep: Log -> bool, logs: seq<Log>, log: Log)
    ensures multiset(Filter(keep, logs))[log] == if keep(log) then multiset(logs)[log] else 0
  {
    if logs != [] {
      var last := |logs| - 1;
      FilterCount(keep, logs[..last], log);
      assert logs == logs[..last] + [logs[last]];
    }
  }

  lemma TakenByOne(keep: Log -> bool, index: nat, logs: seq<Log>, log: Log)
    ensures multiset(Filter(keep, Filter(ByIndex(index), logs)))[log]
            == if keep(log) && log.txIndex == index then multiset(logs)[log] else 0
  {
    FilterCount(ByIndex(index), logs, log);
    FilterCount(keep, Filter(ByIndex(index), logs), log);
  }

  lemma CountOfConcat(xs: seq<Log>, ys: seq<Log>, log: Log)
    ensures multiset(xs + ys)[log] == multiset(xs)[log] + multiset(ys)[log]
  {
  }

  /** What one more transaction adds, in numbers. */
  lemma CountStep(wanted: bool, mine: bool, listed: nat, n: nat)
    ensures (if wanted then listed * n else 0) + (if wanted && mine then n else 0)
            == if wanted then (listed + if mine then 1 else 0) * n else 0
  {
    OneMore(listed, n);
  }

  lemma TakenSplit(keep: Log -> bool, txs: seq<Tx>, tx: Tx, logs: seq<Log>, log: Log)
    ensures multiset(Taken(keep, txs + [tx], logs))[log] == multiset(Taken(keep, txs, logs))[log] +
            if keep(log) && log.txIndex == tx.index then multiset(logs)[log] else 0
    ensures Listed(txs + [tx], log.txIndex) == Listed(txs, log.txIndex) + if tx.index == log.txIndex then 1 else 0
  {
    var all := txs + [tx];
    assert all[..|all| - 1] == txs;
    TakenByOne(keep, tx.index, logs, log);
    CountOfConcat(Taken(keep, txs, logs), Filter(keep, Filter(ByIndex(tx.index), logs)), log);
  }

  /** A wanted log is taken once for every transaction listed with its index, and no other log is taken. */
  lemma {:induction false} TakenCount(keep: Log -> bool, txs: seq<Tx>, logs: seq<Log>, log: Log)
    ensures multiset(Taken(keep, txs, logs))[log]
            == if keep(log) then Listed(txs, log.txIndex) * multiset(logs)[log] else 0
  {
    if txs != [] {
      var front, tx := txs[..|txs| - 1], txs[|txs| - 1];
      assert txs == front + [tx];
      TakenCount(keep, front, logs, log);
      TakenSplit(keep, front, tx, logs, log);
      CountStep(keep(log), tx.index == log.txIndex, Listed(front, log.txIndex), multiset(logs)[log]);
    }
  }

  /** A qualifying log is reported once for every transaction listed with its index, and no other log is reported. */
  lemma ReportedCount(txs: seq<Tx>, logs: seq<Log>, log: Log)
    ensures multiset(AllReported(txs, logs))[log]
            == if IsTransfer(log) then Listed(txs, log.txIndex) * multiset(logs)[log] else 0
  {
    TakenCount(IsTransfer, txs, logs, log);
  }

  function Belongs(txs: seq<Tx>): Log -> bool {
    (log: Log) => IsTransfer(log) && Listed(txs, log.txIndex) > 0
  }

  /**
  Together the transactions report exactly the Transfer logs that belong to them, each as often as
  it occurs, if and only if no such log has an index under which two transactions are listed.
  */
  lemma LogsAreConservedIff(txs: seq<Tx>, logs: seq<Log>)
    ensures multiset(AllReported(txs, logs)) == multiset(Filter(Belongs(txs), logs))
            <==> forall log :: log in logs && IsTransfer(log) ==> Listed(txs, log.txIndex) <= 1
  {
    var reported, belonging := multiset(AllReported(txs, logs)), multiset(Filter(Belongs(txs), logs));
    forall log: Log
      ensures reported[log] == belonging[log] <==> log !in logs || !IsTransfer(log) || Listed(txs, log.txIndex) <= 1
    {
      ReportedCount(txs, logs, log);
      FilterCount(Belongs(txs), logs, log);
      OnlyOnce(Listed(txs, log.txIndex), multiset(logs)[log]);
    }
    if reported != belonging {
      assert exists log :: reported[log] != belonging[log];
    }
  }

  lemma OnlyOnce(k: nat, n: nat)
    ensures k * n == (if k > 0 then n else 0) <==> n == 0 || k <= 1
  {
    if k >= 2 && n > 0 {
      assert (k - 1) * n >= n;
    }
  }

  lemma {:induction false} DistinctIndices(txs: seq<Tx>, index: nat)
    requires forall i, j :: 0 <= i < j < |txs| ==> txs[i].index != txs[j].index
    ensures Listed(txs, index) <= 1
    ensures Listed(txs, index) == 1 <==> exists i :: 0 <= i < |txs| && txs[i].index == index
  {
    if txs != [] {
      var last := |txs| - 1;
      DistinctIndices(txs[..last], index);
      if txs[last].index != index && Listed(txs[..last], index) == 1 {
        var i :| 0 <= i < |txs[..last]| && txs[..last][i].index == index;
        assert txs[i].index == index;
      }
    }
  }

  /** With distinct indices every Transfer log of a listed transaction is reported exactly once, under that transaction. */
  lemma EveryLogReportedOnce(txs: seq<Tx>, logs: seq<Log>)
    requires forall i, j :: 0 <= i < j < |txs| ==> txs[i].index != txs[j].index
    ensures multiset(AllReported(txs, logs)) == multiset(Filter(Belongs(txs), logs))
    ensures forall i, log :: 0 <= i < |txs| && log in Reported(txs[i], logs) ==> log.txIndex == txs[i].index
  {
    forall log: Log {
      DistinctIndices(txs, log.txIndex);
    }
    LogsAreConservedIff(txs, logs);
    forall i, log | 0 <= i < |txs| && log in Reported(txs[i], logs)
      ensures log.txIndex == txs[i].index
    {
      TakenByOne(IsTransfer, txs[i].index, logs, log);
      assert log in multiset(Reported(txs[i], logs));
    }
  }

  // The event behind a log

  /** The log an ERC-20 contract writes for a transfer: both addresses padded to words, the amount as a word. */
  function TransferEvent(topic: Word, token: seq<byte>, from: seq<byte>, to: seq<byte>, amount: nat, index: nat): Log
    requires |from| == 20 && |to| == 20 && amount < TWO_TO_256
  {
    Log(token, [topic, AsWord(from), AsWord(to)], LeftPadded(Digits(amount, 256), 32), index)
  }

  function AsWord(address: seq<byte>): Word
    requires |address| == 20
  {
    LeftPadded(address, 32)
  }

  /** Such a log is recognised and reported as that transfer, sender before recipient. */
  lemma EventIsReported(
    tx: Tx, topic: Word, token: seq<byte>, from: seq<byte>, to: seq<byte>, amount: nat, index: nat, show: AddressPrinter)
    requires |from| == 20 && |to| == 20 && amount < TWO_TO_256 && Bytes2Hex(topic) == TRANSFER_TOPIC
    ensures var log := TransferEvent(topic, token, from, to, amount, index); var t := DecodeLogAsTransfer(tx, log, show);
      && IsTransfer(log)
      && t.from == show(from) && t.to == show(to) && t.currency == show(token)
      && |t.amount| == 32 && Value(t.amount, 256) == amount && t.txId == tx.hash && t.status == 0
      && |tx.hash| <= |t.id| && t.id[..|tx.hash|] == tx.hash && Value(t.id[|tx.hash|..], 256) == index
  {
    var log := TransferEvent(topic, token, from, to, amount, index);
    TransferTopic(log);
    assert LastBytes(AsWord(from)) == from && LastBytes(AsWord(to)) == to;
    DigitsFitIff(amount, 256, 32);
    ValueOfDigits(index, 256);
    LeftPaddedValue(Digits(amount, 256), 32);
    ValueOfDigits(amount, 256);
  }

  /** A native transfer carries the value of its transaction from its sender to its receiver, under id zero. */
  lemma NativeAmount(tx: Tx)
    ensures var t := NativeTransfer(tx);
      && Value(t.amount, 256) == tx.value && (tx.value > 0 ==> t.amount[0] != 0)
      && t.from == tx.from && t.to == tx.to && t.id == t.txId + [0] && t.status == 1
  {
    ValueOfDigits(tx.value, 256);
  }
}
