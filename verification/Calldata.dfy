/** The call an ERC-20 transfer is made of (agents/eth/server/construct.go). */
module Calldata {
  import opened Positional
  import opened HexConv

  type MethodId = m: seq<byte> | |m| == 4 witness seq(4, _ => 0)

  /** Method, recipient padded to a word, amount padded to a word; the amount arrives as bytes of any length. */
  method TransferCalldata(methodId: MethodId, to: Address, amount: seq<byte>) returns (data: seq<byte>)
    ensures data == Transfer(methodId, to, Value(amount, 256))
  {
    var shortest := Digits(Value(amount, 256), 256);
    var paddedAddress := LeftPadBytes(to, 32);
    var paddedAmount := LeftPadBytes(shortest, 32);
    data := methodId;
    data := data + paddedAddress;
    data := data + paddedAmount;
  }

  /** The calldata of transferring `amount` to `to`. */
  function Transfer(methodId: MethodId, to: Address, amount: nat): seq<byte> {
    methodId + LeftPadded(to, 32) + LeftPadded(Digits(amount, 256), 32)
  }

  /** What the contract reads: two 32-byte words behind the method, the first holding an address in its last 20 bytes. */
  function DecodeTransfer(data: seq<byte>): (r: (MethodId, Address, nat))
    requires |data| == 68
  {
    (data[..4], data[16..36], Value(data[36..], 256))
  }

  /**
  The calldata has the 68 bytes the contract expects exactly when the amount fits a word, and then
  it decodes to the recipient and the amount, with nothing but zeros in front of the recipient.
  */
  lemma TransferDecodes(methodId: MethodId, to: Address, amount: nat)
    ensures |Transfer(methodId, to, amount)| == 68 <==> amount < TWO_TO_256
    ensures amount < TWO_TO_256 ==>
      var data := Transfer(methodId, to, amount);
      DecodeTransfer(data) == (methodId, to, amount) && data[4..16] == Zeros(12)
  {
    var digits := Digits(amount, 256);
    DigitsFitIff(amount, 256, 32);
    if amount < TWO_TO_256 {
      var data := Transfer(methodId, to, amount);
      LeftPaddedValue(digits, 32);
      ValueOfDigits(amount, 256);
      assert data[36..] == LeftPadded(digits, 32);
      assert data[16..36] == to && data[..4] == methodId;
      assert LeftPadded(to, 32) == Zeros(12) + to;
      assert data[4..16] == Zeros(12);
    }
  }
}
