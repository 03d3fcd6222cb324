/**
  The frames that carry all messages: a 24-byte header (LP64 layout) followed by the payload.
  Bytes 0-3 hold the type, 8-15 the length of the frame, 16-17 the checksum of the payload,
  18-19 the checksum of the header; 4-7 and 20-23 are padding.
 */
module Frame {
  import opened Gf2
  import opened Words
  import opened Bytes
  import opened Crc
  import opened CrcTheorems
  import opened CrcErrors
  import CrcOdd

  const HEADER := 24
  /** The header checksum covers sizeof(header) - sizeof(checksum) bytes, so not the last two. */
  const COVERED := 22
  const NETINFO := 1

  function WordAt(s: seq<U8>, i: nat): U16
    requires i + 2 <= |s|
  {
    LittleEndian(s[i], s[i + 1])
  }

  function WordBytes(c: U16): (s: seq<U8>)
    ensures |s| == 2
  {
    [LowByte(c), HighByte(c)]
  }

  lemma WordAtBytes(s: seq<U8>, i: nat, c: U16)
    requires i + 2 <= |s| && s[i..i + 2] == WordBytes(c)
    ensures WordAt(s, i) == c
  {
    assert s[i] == s[i..i + 2][0] && s[i + 1] == s[i..i + 2][1];
  }

  /** What the header checksum is computed over: the covered bytes with the field itself cleared. */
  function CoveredBytes(s: seq<U8>): (t: seq<U8>)
    requires |s| >= HEADER
    ensures |t| == COVERED
  {
    Put(s, 18, [0, 0])[..COVERED]
  }

  /** check_message_crc accepts the frame. */
  ghost predicate Accepted(s: seq<U8>)
    requires |s| >= HEADER
  {
    && CheckPasses(POLY, CoveredBytes(s), WordAt(s, 18))
    && (|s| == HEADER || CheckPasses(POLY, s[HEADER..], WordAt(s, 16)))
  }

  /** The four fields of a header; everything else in it is padding. */
  ghost predicate HasFields(s: seq<U8>, mtype: nat, len: nat, dataChecksum: U16) {
    && |s| >= HEADER
    && Decode(s[0..4]) == mtype && Decode(s[8..16]) == len && WordAt(s, 16) == dataChecksum
  }

  method InitMessageHeader(mtype: nat, len: nat, dataChecksum: U16) returns (header: seq<U8>)
    requires mtype < 0x1_0000_0000 && len < 0x1_0000_0000_0000_0000
    ensures |header| == 24 && HasFields(header, mtype, len, dataChecksum)
    ensures IsCrc(POLY, CoveredBytes(header), WordAt(header, 18))
  {
    hide IsCrc, Decode, Encode, Pow256;
    header := ZeroBytes(HEADER);
    header := Put(header, 0, Encode(mtype, 4));
    header := Put(header, 8, Encode(len, 8));
    header := Put(header, 16, WordBytes(dataChecksum));
    ghost var before := header;
    assert before[18] == 0 && before[19] == 0;
    var checksum := GetCrc(POLY, header[..COVERED]);
    header := Put(header, 18, WordBytes(checksum));
    assert Put(header, 18, [0, 0]) == before;
    Pow256Of8();
    assert header[0..4] == Encode(mtype, 4);
    assert header[8..16] == Encode(len, 8);
    DecodeEncode(mtype, 4); DecodeEncode(len, 8);
    WordAtBytes(header, 16, dataChecksum);
    WordAtBytes(header, 18, checksum);
  }

  /** A frame whose two checksums are those of its header and of its payload. */
  ghost predicate WellFormed(s: seq<U8>) {
    && |s| >= HEADER
    && IsCrc(POLY, CoveredBytes(s), WordAt(s, 18))
    && IsCrc(POLY, s[HEADER..], WordAt(s, 16))
  }

  method InitNetworkInformation(data: seq<U8>) returns (frame: seq<U8>)
    requires HEADER + |data| < 0x1_0000_0000_0000_0000
    ensures |frame| == 24 + |data| && frame[24..] == data
    ensures HasFields(frame, 1, 24 + |data|, WordAt(frame, 16))
    ensures WellFormed(frame)
  {
    hide IsCrc, Decode;
    var dataChecksum := GetCrc(POLY, data);
    var totalLen := HEADER + |data|;
    var header := InitMessageHeader(NETINFO, totalLen, dataChecksum);
    frame := header + data;
    assert frame[0..4] == header[0..4] && frame[8..16] == header[8..16];
    assert CoveredBytes(frame) == CoveredBytes(header);
  }

  /** Decides acceptance; the header field cleared on the way is put back. */
  method CheckMessageCrc(data: array<U8>) returns (ok: bool)
    requires data.Length >= HEADER
    modifies data
    ensures ok <==> Accepted(old(data[..]))
    ensures data[..] == old(data[..])
  {
    hide IsCrc, CheckPasses;
    ghost var was := data[..];
    var lo, hi := data[18], data[19];
    var crc := LittleEndian(lo, hi);
    data[18], data[19] := 0, 0;
    assert data[..] == Put(was, 18, [0, 0]);
    assert data[..COVERED] == CoveredBytes(was);
    CheckIs(CoveredBytes(was), crc);
    ok := CheckCrc(POLY, data[..COVERED], crc);
    if ok && data.Length != HEADER {
      assert data[HEADER..] == was[HEADER..] && WordAt(was, 16) == LittleEndian(data[16], data[17]);
      CheckIs(was[HEADER..], WordAt(was, 16));
      ok := CheckCrc(POLY, data[HEADER..], LittleEndian(data[16], data[17]));
    }
    data[18], data[19] := lo, hi;
    assert data[..] == was;
  }

  lemma CheckIs(data: seq<U8>, c: U16)
    ensures CheckPasses(POLY, data, c) <==> IsCrc(POLY, data + [LowByte(c), HighByte(c)], 0)
  {}

  /** The bit flip that simulates an unreliable network; r and e stand for the random choices. */
  method FlipRandomBit(data: array<U8>, r: nat, e: nat)
    requires r < data.Length && e < 8
    modifies data
    ensures data[..] == XorBytes(old(data[..]), Flip(data.Length, r, e))
  {
    hide Add, Shl;
    ghost var was := data[..];
    BitInByte(e);
    data[r] := XorByte(data[r], Shl(1, e));
    forall j: nat | j < |was| ensures Add(was[j], 0) == was[j] { AddZero(was[j]); }
    assert data[..] == XorBytes(was, Flip(|was|, r, e));
  }

  // ---------------------------------------------------------------- the theorems

  /** Every frame built from a payload of even length is accepted. */
  lemma BuiltFrameAccepted(s: seq<U8>)
    requires WellFormed(s) && |s| % 2 == 0
    ensures Accepted(s)
  {
    hide IsCrc, CheckPasses;
    ConfiguredPoly();
    OwnCrcAccepted(POLY, CoveredBytes(s), WordAt(s, 18));
    OwnCrcAccepted(POLY, s[HEADER..], WordAt(s, 16));
  }

  /** A payload of odd length gets through only with one of two checksums. */
  lemma OddFrameAccepted(s: seq<U8>)
    requires WellFormed(s) && |s| % 2 == 1
    ensures Accepted(s) <==> WordAt(s, 16) == 0 || WordAt(s, 16) == 0x5192
  {
    hide IsCrc, CheckPasses;
    ConfiguredPoly();
    OwnCrcAccepted(POLY, CoveredBytes(s), WordAt(s, 18));
    CrcOdd.OddLengthCheck(s[HEADER..], WordAt(s, 16));
  }

  lemma FlippedAt(s: seq<U8>, r: nat, i: nat, j: nat)
    requires r < |s| && i < 8 && j < |s|
    ensures Shl(1, i) < 256
    ensures XorBytes(s, Flip(|s|, r, i))[j] == if j == r then XorByte(s[j], Shl(1, i)) else s[j]
  {
    hide Add, Shl;
    BitInByte(i); AddZero(s[j]);
  }

  /** A flip inside a slice is a flip of the slice; a flip outside leaves it alone. */
  lemma FlippedSlice(s: seq<U8>, r: nat, i: nat, lo: nat, hi: nat)
    requires r < |s| && i < 8 && lo <= hi <= |s|
    ensures var t := XorBytes(s, Flip(|s|, r, i))[lo..hi];
      t == if lo <= r < hi then XorBytes(s[lo..hi], Flip(hi - lo, r - lo, i)) else s[lo..hi]
  {
    hide Add, Shl, Flip, XorBytes;
    var t := XorBytes(s, Flip(|s|, r, i))[lo..hi];
    forall j: nat | lo <= j < hi
      ensures t[j - lo] == if j == r then FlipByte(s[j], i) else s[j]
    {
      FlippedAt(s, r, i, j);
    }
    if lo <= r < hi {
      var u := XorBytes(s[lo..hi], Flip(hi - lo, r - lo, i));
      forall j: nat | j < hi - lo ensures u[j] == t[j] {
        FlippedAt(s[lo..hi], r - lo, i, j);
        assert t[j] == if lo + j == r then FlipByte(s[lo + j], i) else s[lo + j];
      }
      assert u == t;
    } else {
      forall j: nat | j < hi - lo ensures s[lo..hi][j] == t[j] {
        FlippedAt(s, r, i, lo + j);
      }
      assert t == s[lo..hi];
    }
  }

  function FlipByte(b: U8, i: nat): U8
    requires i < 8
  {
    BitInByte(i);
    XorByte(b, Shl(1, i))
  }

  /** A flip in the payload is noticed by the payload checksum. */
  lemma PayloadFlip(s: seq<U8>, r: nat, i: nat)
    requires WellFormed(s) && |s| % 2 == 0 && HEADER <= r < |s| && i < 8
    ensures !Accepted(XorBytes(s, Flip(|s|, r, i)))
  {
    hide IsCrc, CheckPasses, XorBytes, Flip;
    var t := XorBytes(s, Flip(|s|, r, i));
    FlippedAt(s, r, i, 16); FlippedAt(s, r, i, 17);
    FlippedSlice(s, r, i, HEADER, |s|);
    assert t[HEADER..] == t[HEADER..|s|] && s[HEADER..] == s[HEADER..|s|];
    FlippedBitDetected(s[HEADER..], WordAt(s, 16), r - HEADER, i);
  }

  /** A flip in a covered header byte other than the checksum is noticed by the header checksum. */
  lemma HeaderFlip(s: seq<U8>, r: nat, i: nat)
    requires WellFormed(s) && r < COVERED && r != 18 && r != 19 && i < 8
    ensures !Accepted(XorBytes(s, Flip(|s|, r, i)))
  {
    hide IsCrc, CheckPasses, XorBytes, Flip, Add;
    var t := XorBytes(s, Flip(|s|, r, i));
    var u := XorBytes(CoveredBytes(s), Flip(COVERED, r, i));
    FlippedAt(s, r, i, 18); FlippedAt(s, r, i, 19);
    forall j: nat | j < COVERED ensures CoveredBytes(t)[j] == u[j] {
      FlippedAt(s, r, i, j); FlippedAt(CoveredBytes(s), r, i, j);
    }
    assert CoveredBytes(t) == u;
    FlippedBitDetected(CoveredBytes(s), WordAt(s, 18), r, i);
  }

  lemma XorLittleEndian(lo: U8, hi: U8, i: nat)
    requires i < 8
    ensures Shl(1, i) < 256 && Shl(1, i + 8) < 0x1_0000
    ensures LittleEndian(FlipByte(lo, i), hi) == XorWord(LittleEndian(lo, hi), Shl(1, i))
    ensures LittleEndian(lo, FlipByte(hi, i)) == XorWord(LittleEndian(lo, hi), Shl(1, i + 8))
  {
    hide Add, Shl;
    BitInByte(i); AddZero(lo); AddZero(hi);
    ShlShl(1, i, 8); Shl8(Shl(1, i));
    LittleEndianXor(lo, hi, Shl(1, i), 0);
    LittleEndianXor(lo, hi, 0, Shl(1, i));
  }

  /** A flip in the header checksum itself is noticed. */
  lemma ChecksumFlip(s: seq<U8>, r: nat, i: nat)
    requires WellFormed(s) && (r == 18 || r == 19) && i < 8
    ensures !Accepted(XorBytes(s, Flip(|s|, r, i)))
  {
    hide IsCrc, CheckPasses, XorBytes, Flip, Add, Shl;
    var t := XorBytes(s, Flip(|s|, r, i));
    FlippedAt(s, r, i, 18); FlippedAt(s, r, i, 19);
    forall j: nat | j < COVERED ensures CoveredBytes(t)[j] == CoveredBytes(s)[j] { FlippedAt(s, r, i, j); }
    assert CoveredBytes(t) == CoveredBytes(s);
    XorLittleEndian(s[18], s[19], i);
    FlippedChecksumDetected(CoveredBytes(s), WordAt(s, 18), if r == 18 then i else i + 8);
  }

  /** Two padding bytes are not covered: a flip there goes unnoticed. */
  lemma PaddingFlip(s: seq<U8>, r: nat, i: nat)
    requires WellFormed(s) && |s| % 2 == 0 && (r == 22 || r == 23) && i < 8
    ensures Accepted(XorBytes(s, Flip(|s|, r, i)))
  {
    hide IsCrc, CheckPasses, XorBytes, Flip, Add, Shl;
    var t := XorBytes(s, Flip(|s|, r, i));
    forall j: nat | j < |s| && j != r ensures t[j] == s[j] { FlippedAt(s, r, i, j); }
    assert CoveredBytes(t) == CoveredBytes(s) && t[HEADER..] == s[HEADER..];
    BuiltFrameAccepted(s);
  }

  /** Exactly which single flipped bits check_message_crc misses. */
  lemma SingleFlips(s: seq<U8>, r: nat, i: nat)
    requires WellFormed(s) && |s| % 2 == 0 && r < |s| && i < 8
    ensures Accepted(XorBytes(s, Flip(|s|, r, i))) <==> r == 22 || r == 23
  {
    hide IsCrc, CheckPasses, XorBytes, Flip, Add, Shl;
    if r == 22 || r == 23 { PaddingFlip(s, r, i); }
    else if r == 18 || r == 19 { ChecksumFlip(s, r, i); }
    else if r < 22 { HeaderFlip(s, r, i); }
    else { PayloadFlip(s, r, i); }
  }
}
