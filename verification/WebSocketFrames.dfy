/**
 Unmasked text frames (pkg/proxy/websocket.go) against a parser written from section 5.2 of
 RFC 6455.
 */
module WebSocketFrames {
  import opened Bytes
  import opened Options

  const TWO63: nat := 0x8000_0000_0000_0000

  /** The bytes WriteWebSocketTextFrame puts before the payload. */
  function Header(length: nat): Data {
    [0x81] +
    if length < 126 then [length]
    else if length < 65536 then [126] + BigEndian(length, 2)
    else [127] + BigEndian(length, 8)
  }

  function Frame(text: Data): Data { Header(|text|) + text }

  /** What the connection carries after sending the texts in order. */
  function Stream(texts: seq<Data>): Data {
    if texts == [] then [] else Frame(texts[0]) + Stream(texts[1..])
  }

  /** WriteWebSocketTextFrame up to the write: the frame it hands to the connection. */
  method BuildTextFrame(text: Data) returns (frame: Data)
    ensures frame == Frame(text)
  {
    var length := |text|;
    var header: Data := [0x81];
    if length < 126 {
      header := header + [length];
    } else if length < 65536 {
      header := header + [126];
      header := header + [ShiftedByte(length, 1), ShiftedByte(length, 0)];
      BigEndianDigit(length, 2, 1);
      BigEndianDigit(length, 2, 0);
      assert BigEndian(length, 2) == [ShiftedByte(length, 1), ShiftedByte(length, 0)];
    } else {
      header := header + [127];
      var i := 8;
      while i > 0
        invariant 0 <= i <= 8
        invariant header == [0x81, 127] + BigEndian(length, 8)[..8 - i]
      {
        i := i - 1;
        BigEndianDigit(length, 8, i);
        header := header + [ShiftedByte(length, i)];
      }
      assert BigEndian(length, 8)[..8] == BigEndian(length, 8);
    }
    frame := header + text;
  }

  /**
   A session's connection. A write takes some of the frame, and fails unless it takes all of it; the
   handler that owns the session ends it after the first failure.
   */
  class Session {
    var written: Data
    ghost var sent: seq<Data>
    ghost var cut: Data  // what a failed write left of its frame

    ghost predicate Valid() reads this { written == Stream(sent) + cut }

    constructor ()
      ensures Valid() && sent == [] && cut == []
    {
      written, sent, cut := [], [], [];
    }

    /** `taken` is how much the connection takes. */
    method Send(payload: Data, taken: nat) returns (ok: bool)
      requires Valid() && cut == []
      modifies this
      ensures Valid() && (ok <==> taken >= |Frame(payload)|)
      ensures ok ==> sent == old(sent) + [payload] && cut == []
      ensures !ok ==> sent == old(sent) && cut == Frame(payload)[..taken]
    {
      var frame := BuildTextFrame(payload);
      ok := taken >= |frame|;
      if ok {
        StreamGrows(sent, payload);
        sent := sent + [payload];
        written := written + frame;
      } else {
        cut := frame[..taken];
        written := written + frame[..taken];
      }
    }
  }

  lemma {:induction false} StreamGrows(texts: seq<Data>, text: Data)
    ensures Stream(texts + [text]) == Stream(texts) + Frame(text)
  {
    if texts == [] {
      assert [text][1..] == [];
    } else {
      assert (texts + [text])[1..] == texts[1..] + [text];
      StreamGrows(texts[1..], text);
    }
  }

  // ----- the receiver -----

  /** Payload length and header size, as section 5.2 of RFC 6455 lays them out; None if malformed. */
  function ParseHeader(s: Data): Option<(nat, nat)> {
    if |s| < 2 || s[0] != 0x81 || s[1] >= 128 then None  // FIN and opcode 1; MASK not set
    else if s[1] < 126 then Some((s[1], 2))
    else if s[1] == 126 then
      if |s| < 4 then None
      else
        var n := FromBigEndian(s[2..4]);
        if n < 126 then None else Some((n, 4))    // the minimal form is mandatory
    else
      if |s| < 10 then None
      else
        var n := FromBigEndian(s[2..10]);
        if n < 65536 || n >= TWO63 then None else Some((n, 10))  // most significant bit zero
  }

  /** The payloads of a stream of unfragmented, unmasked text frames; None if it is anything else. */
  function Parse(s: Data): Option<seq<Data>>
    decreases |s|
  {
    if s == [] then Some([])
    else
      var h := ParseHeader(s);
      if h.None? then None
      else
        var (n, size) := h.value;
        if |s| < size + n then None
        else
          var rest := Parse(s[size + n..]);
          if rest.None? then None else Some([s[size..size + n]] + rest.value)
  }

  /** The payloads of the whole frames at the beginning of what has arrived so far. */
  function Received(s: Data): seq<Data>
    decreases |s|
  {
    var h := ParseHeader(s);
    if h.None? then []
    else
      var (n, size) := h.value;
      if |s| < size + n then [] else [s[size..size + n]] + Received(s[size + n..])
  }

  lemma HeaderParses(length: nat, rest: Data)
    requires length < TWO63
    ensures ParseHeader(Header(length) + rest) == Some((length, |Header(length)|))
  {
    var s := Header(length) + rest;
    Powers();
    if 126 <= length < 65536 {
      FittingRoundTrip(length, 2);
      LongHeader(126, BigEndian(length, 2), rest);
    } else if 65536 <= length {
      FittingRoundTrip(length, 8);
      LongHeader(127, BigEndian(length, 8), rest);
    }
  }

  lemma LongHeader(marker: Byte, digits: Data, rest: Data)
    ensures var s := [0x81] + ([marker] + digits) + rest;
            s[0] == 0x81 && s[1] == marker && s[2..2 + |digits|] == digits && |s| == 2 + |digits| + |rest|
  {
  }

  lemma ParsedHeaderIsEmitted(s: Data)
    requires ParseHeader(s).Some?
    ensures var (n, size) := ParseHeader(s).value;
            n < TWO63 && size <= |s| && s[..size] == Header(n)
  {
    var (n, size) := ParseHeader(s).value;
    if s[1] == 126 {
      DecodedIsBounded(s[2..4]);
      BigEndianIsOnto(s[2..4]);
      Powers();
      assert s[..4] == s[..2] + s[2..4];
    } else if s[1] == 127 {
      BigEndianIsOnto(s[2..10]);
      assert s[..10] == s[..2] + s[2..10];
    }
  }

  ghost predicate Sendable(texts: seq<Data>) { forall t :: t in texts ==> |t| < TWO63 }

  /** Frames are self-delimiting: the receiver gets back exactly the payloads, in order. */
  lemma {:induction false} ParseOfStream(texts: seq<Data>)
    requires Sendable(texts)
    ensures Parse(Stream(texts)) == Some(texts)
  {
    if texts != [] {
      var text, rest := texts[0], Stream(texts[1..]);
      var s := Stream(texts);
      assert text in texts;
      assert s == Header(|text|) + (text + rest);
      HeaderParses(|text|, text + rest);
      var size := |Header(|text|)|;
      assert s[size..size + |text|] == text && s[size + |text|..] == rest;
      ParseOfStream(texts[1..]);
      assert texts == [text] + texts[1..];
    }
  }

  lemma SplitStream(s: Data, size: nat, n: nat)
    requires size + n <= |s|
    ensures s == s[..size] + s[size..size + n] + s[size + n..]
  {
  }

  /** Only emitted streams parse: the frame form of a payload list is unique and minimal. */
  lemma {:induction false} StreamOfParse(s: Data, texts: seq<Data>)
    requires Parse(s) == Some(texts)
    ensures Sendable(texts) && Stream(texts) == s
    decreases |s|
  {
    if s != [] {
      var (n, size) := ParseHeader(s).value;
      var text, rest := s[size..size + n], s[size + n..];
      assert texts == [text] + Parse(rest).value;
      assert texts[1..] == Parse(rest).value;
      ParsedHeaderIsEmitted(s);
      StreamOfParse(rest, texts[1..]);
      SplitStream(s, size, n);
      assert Stream(texts) == Header(n) + text + rest;
    }
  }

  /** A byte stream parses into these texts exactly if it is the concatenation of their frames. */
  lemma StreamsAndPayloadsCorrespond(s: Data, texts: seq<Data>)
    requires Sendable(texts)
    ensures Parse(s) == Some(texts) <==> s == Stream(texts)
  {
    ParseOfStream(texts);
    if Parse(s) == Some(texts) { StreamOfParse(s, texts); }
  }

  /** Part of a frame delivers nothing. */
  lemma CutFrameIsNotReceived(text: Data, taken: nat)
    requires |text| < TWO63 && taken < |Frame(text)|
    ensures Received(Frame(text)[..taken]) == []
  {
    var (header, cut) := (Header(|text|), Frame(text)[..taken]);
    if taken >= |header| {
      assert cut == header + text[..taken - |header|];
      HeaderParses(|text|, text[..taken - |header|]);
    } else {
      assert cut == header[..taken];
    }
  }

  lemma FirstFrameIsReceived(text: Data, rest: Data)
    requires |text| < TWO63
    ensures Received(Frame(text) + rest) == [text] + Received(rest)
  {
    var (s, size) := (Frame(text) + rest, |Header(|text|)|);
    assert s == Header(|text|) + (text + rest);
    HeaderParses(|text|, text + rest);
    assert s[size..size + |text|] == text && s[size + |text|..] == rest;
  }

  /** A connection that breaks inside a frame has delivered exactly the texts sent before it. */
  lemma {:induction false} ReceivedOfCutStream(texts: seq<Data>, text: Data, taken: nat)
    requires Sendable(texts) && |text| < TWO63 && taken < |Frame(text)|
    ensures Received(Stream(texts) + Frame(text)[..taken]) == texts
  {
    var cut := Frame(text)[..taken];
    if texts == [] {
      CutFrameIsNotReceived(text, taken);
      assert Stream(texts) + cut == cut;
    } else {
      assert texts[0] in texts && texts == [texts[0]] + texts[1..];
      assert Stream(texts) + cut == Frame(texts[0]) + (Stream(texts[1..]) + cut);
      FirstFrameIsReceived(texts[0], Stream(texts[1..]) + cut);
      ReceivedOfCutStream(texts[1..], text, taken);
    }
  }

  // ----- minimal headers -----

  /** The header byte by byte: FIN and opcode 1, then the length in one of three forms, without a mask. */
  lemma HeaderBytes(length: nat)
    ensures length < 126 ==> Header(length) == [0x81, length]
    ensures 126 <= length < 65536 ==> Header(length) == [0x81, 126, length / 0x100, length % 256]
    ensures 65536 <= length ==> |Header(length)| == 10 && Header(length)[..2] == [0x81, 127]
    ensures forall i :: 65536 <= length && 0 <= i < 8 ==> Header(length)[9 - i] == length / Pow256(i) % 256
  {
    TwoBytes(length);
    if 65536 <= length {
      forall i | 0 <= i < 8 ensures Header(length)[9 - i] == length / Pow256(i) % 256 { BigEndianDigit(length, 8, i); }
    }
  }

  /** The 7, 16 and 64-bit length forms of section 5.2 of RFC 6455, without their rule of minimality. */
  predicate Announces(header: Data, length: nat) {
    && |header| >= 2 && header[0] == 0x81
    && (|| (header[1] < 126 && |header| == 2 && header[1] == length)
        || (header[1] == 126 && |header| == 4 && FromBigEndian(header[2..]) == length)
        || (header[1] == 127 && |header| == 10 && FromBigEndian(header[2..]) == length))
  }

  /** Of all headers that announce a length, the emitted one is the only shortest. */
  lemma HeaderIsMinimal(length: nat, header: Data)
    requires length < TWO63
    ensures Announces(Header(length), length)
    ensures Announces(header, length) ==> |Header(length)| <= |header|
    ensures Announces(header, length) && |header| == |Header(length)| ==> header == Header(length)
  {
    Powers();
    if 126 <= length < 65536 {
      FittingRoundTrip(length, 2);
      LongHeader(126, BigEndian(length, 2), []);
    } else if 65536 <= length {
      FittingRoundTrip(length, 8);
      LongHeader(127, BigEndian(length, 8), []);
    }
    if Announces(header, length) {
      DecodedIsBounded(header[2..]);
      BigEndianIsOnto(header[2..]);
      assert header == header[..2] + header[2..];
    }
  }
}
