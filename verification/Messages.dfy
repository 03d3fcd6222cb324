/** The messages of the application and their byte layout (LP64, little endian). */
module Messages {
  import opened Words
  import opened Bytes
  import opened Chain

  datatype PeerAddress = PeerAddress(family: U16, port: U16, addr: nat)

  ghost predicate ValidAddress(a: PeerAddress) {
    a.addr < 0x1_0000_0000
  }

  datatype Message =
    | BlockReply(from: PeerAddress, index: nat, block: Block)
    | RequestBlock(from: PeerAddress, index: nat)
    | NoBlock(from: PeerAddress, index: nat)
    | Vote(from: PeerAddress, index: nat, agree: bool, hash: ByteString)
    | AddRequest(from: PeerAddress, index: nat, pow: ByteString, block: Block)
    | Unrecognised(from: PeerAddress, index: nat)

  function Senders(s: seq<Message>): (senders: seq<PeerAddress>)
    ensures |senders| == |s|
  {
    seq(|s|, i requires 0 <= i < |s| => s[i].from)
  }

  const BLOCK := 0
  const REQUESTBLOCK := 1
  const NOBLOCK := 2
  const VOTE := 3
  const ADDREQUEST := 4

  const SIZE_MAX := 0x1_0000_0000_0000_0000

  // -------------------------------------------------------------------- blocks

  /** Three lengths of 8 bytes each, then the hash, the previous hash and the data. */
  function DataFromBlock(b: Block): (s: ByteString)
    ensures |s| == 24 + |b.hash| + |b.prevHash| + |b.data|
  {
    Encode(|b.hash|, 8) + Encode(|b.prevHash|, 8) + Encode(|b.data|, 8) + b.hash + b.prevHash + b.data
  }

  /** The lengths found in s stay inside it, for blocks whose data has the given size. */
  predicate Readable(s: ByteString, size: nat) {
    |s| >= 24 && 24 + Decode(s[..8]) + Decode(s[8..16]) + size <= |s|
  }

  /** Reads a block back; the third length is not consulted. */
  function BlockFromData(s: ByteString, size: nat): Block
    requires Readable(s, size)
  {
    var h, p := Decode(s[..8]), Decode(s[8..16]);
    Block(s[24 + h + p..24 + h + p + size], s[24..24 + h], s[24 + h..24 + h + p])
  }

  ghost predicate FitsSizes(b: Block, size: nat) {
    |b.hash| < SIZE_MAX && |b.prevHash| < SIZE_MAX && |b.data| == size
  }

  lemma BlockRoundTrip(b: Block, size: nat, rest: ByteString)
    requires FitsSizes(b, size)
    ensures Readable(DataFromBlock(b) + rest, size)
    ensures BlockFromData(DataFromBlock(b) + rest, size) == b
  {
    hide Encode, Decode, Pow256;
    var s := DataFromBlock(b) + rest;
    Pow256Of8();
    DecodeEncode(|b.hash|, 8); DecodeEncode(|b.prevHash|, 8);
    assert s[..8] == Encode(|b.hash|, 8) && s[8..16] == Encode(|b.prevHash|, 8);
    var h, p := |b.hash|, |b.prevHash|;
    assert s[24..24 + h] == b.hash;
    assert s[24 + h..24 + h + p] == b.prevHash;
    assert s[24 + h + p..24 + h + p + size] == b.data;
  }

  // ------------------------------------------------------------------- messages

  function EncodeAddress(a: PeerAddress): (s: ByteString)
    ensures |s| == 8
  {
    Encode(a.family, 2) + Encode(a.port, 2) + Encode(a.addr, 4)
  }

  function DecodeAddress(s: ByteString): PeerAddress
    requires |s| == 8
  {
    DecodeBelow(s[..2]); DecodeBelow(s[2..4]);
    PeerAddress(Decode(s[..2]), Decode(s[2..4]), Decode(s[4..]))
  }

  lemma DecodeBelow(s: ByteString)
    requires |s| == 2
    ensures Decode(s) < 0x1_0000
  {
    assert Decode(s) == s[0] + 256 * Decode(s[1..]) && Decode(s[1..]) == s[1] + 256 * Decode(s[1..][1..]);
  }

  lemma AddressRoundTrip(a: PeerAddress)
    requires ValidAddress(a)
    ensures DecodeAddress(EncodeAddress(a)) == a
  {
    hide Encode, Decode, Pow256;
    var s := EncodeAddress(a);
    Pow256Of8(); Pow256Of2();
    DecodeEncode(a.family, 2); DecodeEncode(a.port, 2); DecodeEncode(a.addr, 4);
    assert s[..2] == Encode(a.family, 2) && s[2..4] == Encode(a.port, 2) && s[4..] == Encode(a.addr, 4);
  }

  lemma Pow256Of2()
    ensures Pow256(2) == 0x1_0000
  {
    assert Pow256(1) == 256;
  }

  function TypeCode(m: Message): nat {
    match m
    case BlockReply(_, _, _) => BLOCK
    case RequestBlock(_, _) => REQUESTBLOCK
    case NoBlock(_, _) => NOBLOCK
    case Vote(_, _, _, _) => VOTE
    case AddRequest(_, _, _, _) => ADDREQUEST
    case Unrecognised(_, _) => 5
  }

  /** The common header: type, sender, four bytes of padding, index. */
  function EncodeHeader(code: nat, from: PeerAddress, index: nat): (s: ByteString)
    ensures |s| == 24
  {
    Encode(code, 4) + EncodeAddress(from) + ZeroBytes(4) + Encode(index, 8)
  }

  lemma HeaderRoundTrip(code: nat, from: PeerAddress, index: nat, rest: ByteString)
    requires code < 0x1_0000_0000 && ValidAddress(from) && index < SIZE_MAX
    ensures var s := EncodeHeader(code, from, index) + rest;
      Decode(s[..4]) == code && DecodeAddress(s[4..12]) == from && Decode(s[16..24]) == index && s[24..] == rest
  {
    hide Encode, Decode, Pow256, EncodeAddress, DecodeAddress;
    var s := EncodeHeader(code, from, index) + rest;
    Pow256Of8(); AddressRoundTrip(from);
    DecodeEncode(code, 4); DecodeEncode(index, 8);
    assert s[..4] == Encode(code, 4) && s[4..12] == EncodeAddress(from) && s[16..24] == Encode(index, 8);
  }

  function Serialize(m: Message): ByteString {
    EncodeHeader(TypeCode(m), m.from, m.index) +
    match m
    case BlockReply(_, _, b) => DataFromBlock(b)
    case Vote(_, _, agree, hash) =>
      [if agree then 1 else 0] + ZeroBytes(7) + Encode(|hash|, 8) + hash
    case AddRequest(_, _, pow, b) => Encode(|pow|, 8) + pow + DataFromBlock(b)
    case _ => []
  }

  /** The first 24 bytes of every message, as they are sent. */
  lemma WireHeader(m: Message)
    ensures
      var s := Serialize(m);
      && |s| >= 24
      && s[4..12] == Encode(m.from.family, 2) + Encode(m.from.port, 2) + Encode(m.from.addr, 4)
      && s[12..16] == [0, 0, 0, 0] && s[16..24] == Encode(m.index, 8)
      && (!m.Unrecognised? ==>
        s[..4] == [if m.BlockReply? then 0 else if m.RequestBlock? then 1 else if m.NoBlock? then 2
                   else if m.Vote? then 3 else 4, 0, 0, 0])
  {
    hide Encode, DataFromBlock;
    var s := Serialize(m);
    assert s[..24] == EncodeHeader(TypeCode(m), m.from, m.index);
    assert s[..4] == s[..24][..4] && s[4..12] == s[..24][4..12];
    assert s[12..16] == s[..24][12..16] && s[16..24] == s[..24][16..24];
    CodeBytes(TypeCode(m));
  }

  lemma CodeBytes(code: nat)
    requires code < 256
    ensures Encode(code, 4) == [code, 0, 0, 0]
  {
    assert Encode(code, 4) == [code] + Encode(0, 3) && Encode(0, 3) == [0] + Encode(0, 2);
    assert Encode(0, 2) == [0] + Encode(0, 1);
  }

  /** What follows the header. */
  lemma WireBody(m: Message)
    ensures
      var s := Serialize(m);
      && |s| >= 24
      && match m
         case BlockReply(_, _, b) =>
           s[24..] == Encode(|b.hash|, 8) + Encode(|b.prevHash|, 8) + Encode(|b.data|, 8) + b.hash + b.prevHash + b.data
         case Vote(_, _, agree, hash) =>
           s[24..] == [if agree then 1 else 0] + [0, 0, 0, 0, 0, 0, 0] + Encode(|hash|, 8) + hash
         case AddRequest(_, _, pow, b) => s[24..] == Encode(|pow|, 8) + pow + DataFromBlock(b)
         case _ => s[24..] == []
  {
    hide Encode;
    assert Serialize(m)[..24] == EncodeHeader(TypeCode(m), m.from, m.index);
    assert ZeroBytes(7) == [0, 0, 0, 0, 0, 0, 0];
  }

  /** What the receiver reads out of the bytes; None when a length points outside of them. */
  function Parse(s: ByteString, size: nat): Option<Message> {
    if |s| < 24 then None
    else
      var code, from, index, body := Decode(s[..4]), DecodeAddress(s[4..12]), Decode(s[16..24]), s[24..];
      if code == BLOCK then
        if Readable(body, size) then Some(BlockReply(from, index, BlockFromData(body, size))) else None
      else if code == REQUESTBLOCK then Some(RequestBlock(from, index))
      else if code == NOBLOCK then Some(NoBlock(from, index))
      else if code == VOTE then
        if |body| < 16 || 16 + Decode(body[8..16]) > |body| then None
        else Some(Vote(from, index, body[0] != 0, body[16..16 + Decode(body[8..16])]))
      else if code == ADDREQUEST then
        if |body| < 8 || 8 + Decode(body[..8]) > |body| then None
        else
          var n := Decode(body[..8]);
          var rest := body[8 + n..];
          if Readable(rest, size)
          then Some(AddRequest(from, index, body[8..8 + n], BlockFromData(rest, size)))
          else None
      else Some(Unrecognised(from, index))
  }

  /** The lengths of the message fit their fields. */
  ghost predicate Sendable(m: Message, size: nat) {
    && ValidAddress(m.from) && m.index < SIZE_MAX
    && match m
       case BlockReply(_, _, b) => FitsSizes(b, size)
       case Vote(_, _, _, hash) => |hash| < SIZE_MAX
       case AddRequest(_, _, pow, b) => |pow| < SIZE_MAX && FitsSizes(b, size)
       case _ => true
  }

  lemma BlockReplyRoundTrip(from: PeerAddress, index: nat, b: Block, size: nat)
    requires Sendable(BlockReply(from, index, b), size)
    ensures Parse(Serialize(BlockReply(from, index, b)), size) == Some(BlockReply(from, index, b))
  {
    hide Decode, DecodeAddress, EncodeHeader, DataFromBlock, BlockFromData, Readable;
    HeaderRoundTrip(BLOCK, from, index, DataFromBlock(b));
    BlockRoundTrip(b, size, []);
    assert DataFromBlock(b) + [] == DataFromBlock(b);
  }

  lemma VoteRoundTrip(from: PeerAddress, index: nat, agree: bool, hash: ByteString, size: nat)
    requires Sendable(Vote(from, index, agree, hash), size)
    ensures Parse(Serialize(Vote(from, index, agree, hash)), size) == Some(Vote(from, index, agree, hash))
  {
    hide Encode, Decode, DecodeAddress, EncodeHeader, Pow256;
    var body := [if agree then 1 else 0] + ZeroBytes(7) + Encode(|hash|, 8) + hash;
    HeaderRoundTrip(VOTE, from, index, body);
    Pow256Of8(); DecodeEncode(|hash|, 8);
    assert body[8..16] == Encode(|hash|, 8) && body[16..16 + |hash|] == hash;
  }

  lemma AddRequestRoundTrip(from: PeerAddress, index: nat, pow: ByteString, b: Block, size: nat)
    requires Sendable(AddRequest(from, index, pow, b), size)
    ensures Parse(Serialize(AddRequest(from, index, pow, b)), size) == Some(AddRequest(from, index, pow, b))
  {
    hide Encode, Decode, DecodeAddress, EncodeHeader, DataFromBlock, BlockFromData, Readable, Pow256;
    var body := Encode(|pow|, 8) + pow + DataFromBlock(b);
    HeaderRoundTrip(ADDREQUEST, from, index, body);
    Pow256Of8(); DecodeEncode(|pow|, 8);
    assert body[..8] == Encode(|pow|, 8) && body[8..8 + |pow|] == pow;
    assert body[8 + |pow|..] == DataFromBlock(b) + [];
    BlockRoundTrip(b, size, []);
  }

  /** Whatever is sent is read back unchanged by the receiver. */
  lemma MessageRoundTrip(m: Message, size: nat)
    requires Sendable(m, size)
    ensures Parse(Serialize(m), size) == Some(m)
  {
    match m
    case BlockReply(from, index, b) => BlockReplyRoundTrip(from, index, b, size);
    case Vote(from, index, agree, hash) => VoteRoundTrip(from, index, agree, hash, size);
    case AddRequest(from, index, pow, b) => AddRequestRoundTrip(from, index, pow, b, size);
    case _ =>
      hide Decode, DecodeAddress, EncodeHeader;
      HeaderRoundTrip(TypeCode(m), m.from, m.index, []);
  }
}
