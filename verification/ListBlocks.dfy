/** Streaming a range of blocks (agents/eth/server/server.go, agents/eth/server/block.go). */
module ListBlocks {
  import opened Outcomes
  import opened Arithmetic

  const TWO_TO_63 := 0x8000_0000_0000_0000

  type uint64 = x: int | 0 <= x < TWO_TO_64

  function Wrap(x: int): uint64 {
    x % TWO_TO_64
  }

  // Finality

  /** Finality statuses in increasing order, zero being unspecified; a request may ask for any number. */
  const UNSAFE := 1
  const SAFE := 2
  const FINALIZED := 3

  datatype Chain = Ethereum | Tron

  /** The age in seconds beyond which a block counts as final. */
  function FinalAge(chain: Chain): uint64 {
    match chain
    case Ethereum => 54 * 12
    case Tron => 27 * 3
  }

  /** The age beyond which it counts as safe. */
  function SafeAge(chain: Chain): uint64 {
    match chain
    case Ethereum => 32 * 12
    case Tron => 19 * 3
  }

  /** The clock in seconds, as read for the first comparison and for the second. */
  datatype Readings = Readings(first: uint64, second: uint64)

  function FinalityStatus(time: uint64, now: Readings, chain: Chain): (status: int)
    ensures UNSAFE <= status <= FINALIZED
  {
    if time < Wrap(now.first - FinalAge(chain)) then FINALIZED
    else if time < Wrap(now.second - SafeAge(chain)) then SAFE
    else UNSAFE
  }

  /**
  On a clock past the ages, a status says how old the block is, in seconds: final by its age at the
  first reading, safe by its age at the second.
  */
  lemma FinalityByAge(time: uint64, now: Readings, chain: Chain)
    requires now.first >= (if chain.Ethereum? then 648 else 81) && now.second >= if chain.Ethereum? then 384 else 57
    ensures var status := FinalityStatus(time, now, chain);
      && (status == FINALIZED <==> now.first - time > if chain.Ethereum? then 648 else 81)
      && (status >= SAFE <==> status == FINALIZED || now.second - time > if chain.Ethereum? then 384 else 57)
      && (status == UNSAFE <==> status < SAFE)
  {
  }

  /** At any one moment a later block is no more final than an earlier one. */
  lemma LaterIsNoMoreFinal(earlier: uint64, later: uint64, now: Readings, chain: Chain)
    requires earlier <= later
    ensures FinalityStatus(later, now, chain) <= FinalityStatus(earlier, now, chain)
  {
  }

  // The range

  datatype Request = Request(start: uint64, count: Option<uint64>, finality: int)

  function Count(req: Request): (n: uint64)
    ensures n > 0
  {
    if req.count.None? || req.count.value == 0 then 10 else req.count.value
  }

  /** The end of the range as computed, in wrapping 64-bit arithmetic. */
  function EndNumber(req: Request, top: uint64): uint64 {
    var end := Wrap(req.start + Count(req));
    var limit := Wrap(top + 1);
    if end < limit then end else limit
  }

  function Length(req: Request, top: uint64): nat {
    if req.start < EndNumber(req, top) then EndNumber(req, top) - req.start else 0
  }

  /** The blocks asked for that exist, counted without wrapping. */
  function Available(req: Request, top: uint64): nat {
    var end := if req.start + Count(req) < top + 1 then req.start + Count(req) else top + 1;
    if req.start < end then end - req.start else 0
  }

  /**
  The computed range never exceeds what was asked for and exists, and it is all of that exactly when
  neither sum wraps or the start is past the top; when a sum does wrap it is empty.
  */
  lemma RangeIsAvailableIff(req: Request, top: uint64)
    ensures Length(req, top) <= Available(req, top)
    ensures Length(req, top) == Available(req, top)
            <==> (req.start + Count(req) < TWO_TO_64 && top + 1 < TWO_TO_64) || req.start > top
    ensures Length(req, top) == Available(req, top) || Length(req, top) == 0
  {
  }

  /** That many blocks are asked for: as many as the request says, or ten when it says none or zero. */
  predicate AsksFor(req: Request, n: nat) {
    match req.count
    case None => n == 10
    case Some(c) => n == if c == 0 then 10 else c
  }

  predicate Computed(req: Request, top: uint64, b: nat) {
    req.start <= b < req.start + Length(req, top)
  }

  predicate AskedFor(req: Request, top: uint64, n: nat, b: nat) {
    req.start <= b <= top && b < req.start + n
  }

  /**
  The computed range is exactly the existing blocks among the n asked for, from the start number on,
  if and only if neither sum reaches 2^64 or the start is past the top.
  */
  lemma RangeIsAskedForIff(req: Request, top: uint64, n: nat)
    requires AsksFor(req, n)
    ensures (forall b :: Computed(req, top, b) <==> AskedFor(req, top, n, b))
            <==> (req.start + n < 0x1_0000_0000_0000_0000 && top < 0xFFFF_FFFF_FFFF_FFFF) || req.start > top
  {
    if req.start <= top {
      assert AskedFor(req, top, n, req.start);
      if req.start + n >= TWO_TO_64 || top + 1 >= TWO_TO_64 {
        assert !Computed(req, top, req.start);
      }
    }
  }

  /** Asking for the largest count from block 1 on finds nothing, however long the chain. */
  lemma LargestCountFindsNothing(top: uint64, finality: int)
    requires top >= 1
    ensures var req := Request(1, Some(TWO_TO_64 - 1), finality);
      Length(req, top) == 0 && Available(req, top) >= 1
  {
  }

  /** The number sent to the node is a signed one. */
  function NodeArgument(number: uint64): int {
    if number < TWO_TO_63 then number else number - TWO_TO_64
  }

  /** It is the signed 64-bit number with the same bits. */
  lemma ArgumentIsSigned(number: uint64)
    ensures -0x8000_0000_0000_0000 <= NodeArgument(number) <= 0x7FFF_FFFF_FFFF_FFFF
    ensures NodeArgument(number) == number || NodeArgument(number) == number - 0x1_0000_0000_0000_0000
  {
  }

  // The stream

  datatype Error = BlockOutOfRange | Failure(code: int)

  datatype ChainBlock = ChainBlock(id: int, number: uint64, time: uint64)

  datatype ProtoBlock = ProtoBlock(id: int, number: uint64, time: uint64, finality: int)

  /**
  What the call meets outside: the top block number, the outcome of the batch, the block (or the
  error of fetching or converting it) for each argument, the clock when the k-th block is
  converted, and the outcome of the k-th send.
  */
  datatype World = World(
    top: Result<uint64, Error>,
    batch: Option<Error>,
    node: int -> Result<ChainBlock, Error>,
    clock: nat -> Readings,
    send: nat -> Option<Error>,
    chain: Chain)

  function ToProto(b: ChainBlock, now: Readings, chain: Chain): ProtoBlock {
    ProtoBlock(b.id, b.number, b.time, FinalityStatus(b.time, now, chain))
  }

  /** The k-th block of the range as it would be sent. */
  function Candidate(req: Request, w: World, k: nat): Result<ProtoBlock, Error>
    requires req.start + k < TWO_TO_64
  {
    match w.node(NodeArgument(req.start + k))
    case Ok(b) => Ok(ToProto(b, w.clock(k), w.chain))
    case Err(e) => Err(e)
  }

  predicate Delivered(req: Request, w: World, k: nat)
    requires req.start + k < TWO_TO_64
  {
    Candidate(req, w, k).Ok? && Candidate(req, w, k).value.finality >= req.finality && w.send(k) == None
  }

  /** Why the stream stopped before block k. */
  function StopReason(req: Request, w: World, k: nat): Option<Error>
    requires req.start + k < TWO_TO_64
  {
    match Candidate(req, w, k)
    case Err(e) => Some(e)
    case Ok(block) =>
      if block.finality < req.finality then (if k > 0 then None else Some(BlockOutOfRange)) else w.send(k)
  }

  /** What a call sends and returns: the longest deliverable prefix of the range, and why it stopped. */
  ghost predicate Streams(req: Request, w: World, sent: seq<ProtoBlock>, error: Option<Error>) {
    if w.top.Err? then sent == [] && error == Some(w.top.error)
    else if Length(req, w.top.value) == 0 then sent == [] && error == Some(BlockOutOfRange)
    else if w.batch.Some? then sent == [] && error == w.batch
    else
      var n := Length(req, w.top.value);
      && |sent| <= n
      && (forall k :: 0 <= k < |sent| ==> Delivered(req, w, k) && Candidate(req, w, k) == Ok(sent[k]))
      && (if |sent| < n then !Delivered(req, w, |sent|) && error == StopReason(req, w, |sent|) else error == None)
  }

  /** That leaves no choice. */
  lemma StreamIsUnique(
    req: Request, w: World,
    sent: seq<ProtoBlock>, error: Option<Error>, sent': seq<ProtoBlock>, error': Option<Error>)
    requires Streams(req, w, sent, error) && Streams(req, w, sent', error')
    ensures sent == sent' && error == error'
  {
    if w.top.Ok? && Length(req, w.top.value) > 0 && w.batch == None {
      assert |sent| == |sent'|;
      assert forall k :: 0 <= k < |sent| ==> Ok(sent[k]) == Candidate(req, w, k) == Ok(sent'[k]);
    }
  }

  method ListBlocks(req: Request, w: World) returns (sent: seq<ProtoBlock>, error: Option<Error>)
    ensures Streams(req, w, sent, error)
  {
    sent := [];
    if w.top.Err? {
      return sent, Some(w.top.error);
    }
    var topBlockNumber: int := w.top.value;
    var endNumber: uint64 := 0;
    if req.count == None || req.count.value == 0 {
      endNumber := Wrap(req.start + 10);
    } else {
      endNumber := Wrap(req.start + req.count.value);
    }
    var limit := Wrap(topBlockNumber + 1);
    if limit < endNumber {
      endNumber := limit;
    }
    if req.start >= endNumber {
      return sent, Some(BlockOutOfRange);
    }
    var blockReqs: seq<int> := [];
    var i := req.start;
    while i < endNumber
      invariant req.start <= i <= endNumber && |blockReqs| == i - req.start
      invariant forall k :: 0 <= k < |blockReqs| ==> blockReqs[k] == NodeArgument(req.start + k)
    {
      blockReqs := blockReqs + [NodeArgument(i)];
      i := i + 1;
    }
    if w.batch.Some? {
      return sent, w.batch;
    }
    for idx := 0 to |blockReqs|
      invariant |sent| == idx
      invariant forall k :: 0 <= k < idx ==> Delivered(req, w, k) && Candidate(req, w, k) == Ok(sent[k])
    {
      var response := w.node(blockReqs[idx]);
      if response.Err? {
        return sent, Some(response.error);
      }
      var block := ToProto(response.value, w.clock(idx), w.chain);
      if block.finality < req.finality {
        if idx > 0 {
          break;
        } else {
          return sent, Some(BlockOutOfRange);
        }
      }
      var failed := w.send(idx);
      if failed.Some? {
        return sent, failed;
      }
      sent := sent + [block];
    }
    error := None;
  }

  /** The outside world raises no error over the range: what the node says about other numbers does not matter. */
  ghost predicate Smooth(req: Request, w: World) {
    && w.top.Ok? && w.batch == None
    && (forall n :: req.start <= n < req.start + Length(req, w.top.value) ==> w.node(n).Ok?)
    && (forall k :: 0 <= k < Length(req, w.top.value) ==> w.send(k) == None)
  }

  /** The node answers with the block of the number it was asked for. */
  ghost predicate Honest(req: Request, w: World)
    requires Smooth(req, w)
  {
    forall n :: req.start <= n < req.start + Length(req, w.top.value) ==> w.node(n).value.number == n
  }

  /** On a chain whose numbers fit a signed word, the argument sent for a number is that number. */
  lemma CandidateInRange(req: Request, w: World, k: nat)
    requires Smooth(req, w) && w.top.value < TWO_TO_63 - 1 && k < Length(req, w.top.value)
    ensures Candidate(req, w, k) == Ok(ToProto(w.node(req.start + k).value, w.clock(k), w.chain))
  {
    assert NodeArgument(req.start + k) == req.start + k;
    assert w.node(req.start + k).Ok?;
  }

  /**
  Without errors from outside, on a chain whose numbers fit a signed word, the stream is the longest
  prefix of the range whose blocks meet the requested finality, and the call reports out of range
  exactly when that prefix is empty. An honest node's blocks arrive numbered from the start number
  on, and a request for any finality gets the whole range.
  */
  lemma StreamIsLongestPrefix(req: Request, w: World, sent: seq<ProtoBlock>, error: Option<Error>)
    requires Smooth(req, w) && w.top.value < TWO_TO_63 - 1
    requires Streams(req, w, sent, error)
    ensures var n := Length(req, w.top.value);
      && |sent| <= n
      && (forall k :: 0 <= k < |sent| ==>
        sent[k] == ToProto(w.node(req.start + k).value, w.clock(k), w.chain) && sent[k].finality >= req.finality)
      && (|sent| < n ==>
        FinalityStatus(w.node(req.start + |sent|).value.time, w.clock(|sent|), w.chain) < req.finality)
      && (req.finality <= UNSAFE ==> |sent| == n)
    ensures error == if sent == [] then Some(BlockOutOfRange) else None
    ensures Honest(req, w) ==> forall k :: 0 <= k < |sent| ==>
      && sent[k].number == req.start + k
      && sent[k].id == w.node(sent[k].number).value.id && sent[k].time == w.node(sent[k].number).value.time
  {
    forall k: nat | k < Length(req, w.top.value)
      ensures Candidate(req, w, k) == Ok(ToProto(w.node(req.start + k).value, w.clock(k), w.chain))
    {
      CandidateInRange(req, w, k);
    }
  }

  /**
  In terms of the request: of the n blocks asked for that exist, all are sent when any finality will
  do, and otherwise those in front of the first that is not final enough.
  */
  lemma StreamIsWhatWasAskedFor(req: Request, w: World, sent: seq<ProtoBlock>, error: Option<Error>, n: nat)
    requires Smooth(req, w) && w.top.value < TWO_TO_63 - 1 && Honest(req, w)
    requires Streams(req, w, sent, error) && AsksFor(req, n) && req.start + n < 0x1_0000_0000_0000_0000
    ensures forall k :: 0 <= k < |sent| ==>
      sent[k].number == req.start + k <= w.top.value && k < n && sent[k].finality >= req.finality
    ensures |sent| < n && req.start + |sent| <= w.top.value ==>
      && req.finality > UNSAFE
      && FinalityStatus(w.node(req.start + |sent|).value.time, w.clock(|sent|), w.chain) < req.finality
  {
    StreamIsLongestPrefix(req, w, sent, error);
    assert forall b :: Computed(req, w.top.value, b) <==> AskedFor(req, w.top.value, n, b) by {
      RangeIsAskedForIff(req, w.top.value, n);
    }
    assert |sent| < n && req.start + |sent| <= w.top.value ==> AskedFor(req, w.top.value, n, req.start + |sent|);
  }

  /** What stops a stream at block k when something outside fails, whatever happens further on. */
  lemma FailuresEndTheStream(req: Request, w: World, sent: seq<ProtoBlock>, error: Option<Error>)
    requires Streams(req, w, sent, error)
    ensures w.top.Err? ==> sent == [] && error == Some(w.top.error)
    ensures w.top.Ok? && req.start > w.top.value ==> sent == [] && error == Some(BlockOutOfRange)
    ensures w.top.Ok? && Length(req, w.top.value) > 0 && w.batch.Some? ==> sent == [] && error == w.batch
  {
  }

  /** The first failing block or send ends the stream with its error, the blocks before it having been sent. */
  lemma FirstFailureIsReturned(req: Request, w: World, sent: seq<ProtoBlock>, error: Option<Error>)
    requires Streams(req, w, sent, error)
    requires w.top.Ok? && w.top.value < TWO_TO_63 - 1 && w.batch == None && |sent| < Length(req, w.top.value)
    ensures var k := |sent|; var fetched := w.node(req.start + k);
      && (fetched.Err? ==> error == Some(fetched.error))
      && (fetched.Ok? ==>
        var enough := FinalityStatus(fetched.value.time, w.clock(k), w.chain) >= req.finality;
        && (enough ==> w.send(k).Some? && error == w.send(k))
        && (!enough ==> error == if k == 0 then Some(BlockOutOfRange) else None))
  {
    assert NodeArgument(req.start + |sent|) == req.start + |sent|;
  }

  /** Everything in front of it had been fetched and sent without an error. */
  lemma NoFailureBefore(req: Request, w: World, sent: seq<ProtoBlock>, error: Option<Error>, k: nat)
    requires Streams(req, w, sent, error) && k < |sent|
    requires w.top.Ok? && w.top.value < TWO_TO_63 - 1
    ensures w.node(req.start + k).Ok? && w.send(k) == None
  {
    assert Delivered(req, w, k) && NodeArgument(req.start + k) == req.start + k;
  }

  /**
  With block times that do not decrease over the range, none of the blocks that were not sent would
  have met the requested finality at the moment the stream was cut off.
  */
  lemma NothingLaterQualifies(req: Request, w: World, sent: seq<ProtoBlock>, error: Option<Error>, j: nat)
    requires Smooth(req, w) && w.top.value < TWO_TO_63 - 1
    requires Streams(req, w, sent, error) && |sent| <= j < Length(req, w.top.value)
    requires forall a, b :: req.start <= a <= b < req.start + Length(req, w.top.value) ==>
      w.node(a).value.time <= w.node(b).value.time
    ensures FinalityStatus(w.node(req.start + j).value.time, w.clock(|sent|), w.chain) < req.finality
  {
    StreamIsLongestPrefix(req, w, sent, error);
    var first, later := w.node(req.start + |sent|).value, w.node(req.start + j).value;
    LaterIsNoMoreFinal(first.time, later.time, w.clock(|sent|), w.chain);
  }
}
