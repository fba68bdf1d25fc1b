/**
 Length-prefixed gRPC messages (pkg/proxy/handler.go): packing a body behind a flag byte and a
 four-byte length, and unpacking the first message, with the code's uint32 arithmetic.
 */
module GrpcFraming {
  import opened Bytes

  const TWO32: nat := 0x1_0000_0000

  /** rest_to_grpc requests and grpc_to_rest responses. */
  function Pack(body: Data): Data { [0] + BigEndian(|body| % TWO32, 4) + body }

  datatype Unpacked =
    | Body(body: Data)
    | Untouched  // too short for a header or for the announced length
    | Panicked   // slice bounds out of range

  /** `5 + payloadLen` is a uint32 addition, so it wraps. */
  function End(payloadLen: nat): nat { (5 + payloadLen) % TWO32 }

  /** grpc_to_rest requests and rest_to_grpc responses. */
  function Unpack(bytes: Data): Unpacked {
    if |bytes| < 5 then Untouched
    else
      var end := End(FromBigEndian(bytes[1..5]));
      if |bytes| < end then Untouched
      else if end < 5 then Panicked
      else Body(bytes[5..end])
  }

  lemma PackedLength(body: Data, trailer: Data)
    ensures var bytes := Pack(body) + trailer;
            && |bytes| == 5 + |body| + |trailer| && FromBigEndian(bytes[1..5]) == |body| % TWO32
            && bytes[5..5 + |body|] == body
  {
    var bytes := Pack(body) + trailer;
    assert bytes[1..5] == BigEndian(|body| % TWO32, 4);
    BigEndianRoundTrip(|body| % TWO32, 4);
    Powers();
  }

  /** A packed body byte by byte: the flag for no compression, four bytes of length, the body. */
  lemma PackedBytes(body: Data)
    ensures var n := |body| % 0x1_0000_0000;
            Pack(body) == [0, n / 0x100_0000 % 256, n / 0x1_0000 % 256, n / 0x100 % 256, n % 256] + body
  {
    FourBytes(|body| % 0x1_0000_0000);
  }

  /** Unpacking does not look at the flag. */
  lemma FlagIsIgnored(flag: Byte, other: Byte, rest: Data)
    ensures Unpack([flag] + rest) == Unpack([other] + rest)
  {
    var (a, b) := ([flag] + rest, [other] + rest);
    if |rest| >= 4 {
      assert a[1..5] == rest[..4] && b[1..5] == rest[..4];
      var end := End(FromBigEndian(rest[..4]));
      assert 5 <= end <= |a| ==> a[5..end] == rest[4..end - 1] && b[5..end] == rest[4..end - 1];
    }
  }

  /**
   Unpacking a packed body, whatever follows it, gives the body exactly for lengths up to 2^32 - 6,
   the largest for which the addition does not wrap.
   */
  lemma UnpackOfPackIff(body: Data, trailer: Data)
    ensures Unpack(Pack(body) + trailer) == Body(body) <==> |body| <= 0x1_0000_0000 - 6
  {
    PackedLength(body, trailer);
  }

  /** Beyond that bound, up to what the length field can carry, unpacking panics. */
  lemma LongestBodiesPanic(body: Data, trailer: Data)
    requires TWO32 - 5 <= |body| < TWO32
    ensures Unpack(Pack(body) + trailer) == Panicked
  {
    PackedLength(body, trailer);
  }

  /** Unpacking panics exactly on messages that announce one of the five largest lengths. */
  lemma PanicsIff(bytes: Data)
    ensures Unpack(bytes) == Panicked <==> |bytes| >= 5 && FromBigEndian(bytes[1..5]) >= TWO32 - 5
  {
    if |bytes| >= 5 {
      DecodedIsBounded(bytes[1..5]);
      Powers();
    }
  }

  /** What is unpacked is the first message: flag aside, packing it again gives its bytes. */
  lemma UnpackedIsFirstMessage(bytes: Data)
    requires Unpack(bytes).Body?
    ensures var body := Unpack(bytes).body;
            && |bytes| >= 5 + |body| && bytes[1..5 + |body|] == Pack(body)[1..]
            && FromBigEndian(bytes[1..5]) == |body|
  {
    var len := FromBigEndian(bytes[1..5]);
    DecodedIsBounded(bytes[1..5]);
    Powers();
    BigEndianIsOnto(bytes[1..5]);
    var body := bytes[5..5 + len];
    assert bytes[1..5 + len] == bytes[1..5] + body;
    assert Pack(body)[1..] == BigEndian(len, 4) + body;
  }
}
