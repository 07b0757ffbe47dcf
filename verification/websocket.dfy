/**
 Frames of the WebSocket connection (sections 5.2 and 5.3 of RFC 6455) and their reassembly from the
 byte stream (src/websocket/websocket_server.cpp).
 */
module WebSockets {
  import opened Wrappers
  import opened Bytes

  const LIMIT: nat := 16 * 1024 * 1024
  const WORD: nat := 0x1_0000_0000_0000_0000

  // ---- Header fields ----

  function BigEndian(n: nat, width: nat): (s: Blob)
    ensures |s| == width
    decreases width
  {
    if width == 0 then [] else BigEndian(n / 256, width - 1) + [n % 256]
  }

  function BigEndianValue(s: Blob): nat
    decreases |s|
  {
    if s == [] then 0 else BigEndianValue(s[..|s| - 1]) * 256 + s[|s| - 1]
  }

  function Power256(width: nat): (p: nat)
    ensures p > 0
  {
    if width == 0 then 1 else Power256(width - 1) * 256
  }

  lemma {:induction false} BigEndianRoundTrip(n: nat, width: nat)
    requires n < Power256(width)
    ensures BigEndianValue(BigEndian(n, width)) == n
    decreases width
  {
    if width > 0 {
      BigEndianRoundTrip(n / 256, width - 1);
      assert BigEndian(n, width)[..width - 1] == BigEndian(n / 256, width - 1);
    }
  }

  lemma {:induction false} BigEndianBound(s: Blob)
    ensures BigEndianValue(s) < Power256(|s|)
    decreases |s|
  {
    if s != [] {
      BigEndianBound(s[..|s| - 1]);
    }
  }

  /** The size of a frame's header, masking key included, and of its payload. */
  datatype Header = Header(size: nat, payload: nat)

  function MaskSize(second: byte): nat {
    if second >= 0x80 then 4 else 0
  }

  /** The header at the start of the data, or None while its length field is incomplete. */
  function HeaderAt(data: Blob): Option<Header> {
    if |data| < 2 then None
    else
      var length := data[1] % 0x80;
      if length == 126 then
        if |data| < 4 then None else Some(Header(4 + MaskSize(data[1]), BigEndianValue(data[2..4])))
      else if length == 127 then
        if |data| < 10 then None else Some(Header(10 + MaskSize(data[1]), BigEndianValue(data[2..10])))
      else Some(Header(2 + MaskSize(data[1]), length))
  }

  /** CompleteFrameSize: zero while the header is incomplete; the sum wraps like any size_t. */
  function FrameSize(data: Blob): nat {
    match HeaderAt(data)
    case None => 0
    case Some(h) => (h.size + h.payload) % WORD
  }

  // ---- Masking ----

  function Power2(n: nat): nat {
    if n == 0 then 1 else 2 * Power2(n - 1)
  }

  /** Exclusive or of the low n bits. */
  function XorBits(a: nat, b: nat, n: nat): (r: nat)
    ensures r < Power2(n)
    decreases n
  {
    if n == 0 then 0 else 2 * XorBits(a / 2, b / 2, n - 1) + (a + b) % 2
  }

  function Xor(x: byte, y: byte): byte {
    PowerOfByte();
    XorBits(x, y, 8)
  }

  lemma PowerOfByte()
    ensures Power2(8) == 256
  {
    assert Power2(4) == 16;
    assert Power2(6) == 64;
  }

  lemma ParityTwice(a: nat, b: nat, high: nat)
    ensures var r := 2 * high + (a + b) % 2;
            r / 2 == high && 2 * (a / 2) + (r + b) % 2 == a
  {
    assert (a + b) % 2 == (a % 2 + b % 2) % 2;
  }

  lemma {:induction false} XorBitsTwice(a: nat, b: nat, n: nat)
    requires a < Power2(n)
    ensures XorBits(XorBits(a, b, n), b, n) == a
    decreases n
  {
    if n > 0 {
      XorBitsTwice(a / 2, b / 2, n - 1);
      ParityTwice(a, b, XorBits(a / 2, b / 2, n - 1));
    }
  }

  lemma XorTwice(x: byte, y: byte)
    ensures Xor(Xor(x, y), y) == x
  {
    PowerOfByte();
    XorBitsTwice(x, y, 8);
  }

  /** Bit i of a number, counted from the lowest. */
  predicate Bit(x: nat, i: nat)
    decreases i
  {
    if i == 0 then x % 2 == 1 else Bit(x / 2, i - 1)
  }

  function Weight(x: nat, i: nat, w: nat): nat {
    if Bit(x, i) then w else 0
  }

  lemma NextBit(x: nat, i: nat)
    ensures Bit(x, i + 1) == Bit(x / 2, i) && x == Weight(x, 0, 1) + 2 * (x / 2)
  {
  }

  /** The two lowest bits, and the rest. */
  lemma TwoBits(x: nat, i: nat)
    ensures x == Weight(x, 0, 1) + Weight(x, 1, 2) + 4 * (x / 4)
    ensures Bit(x, i + 2) == Bit(x / 4, i)
  {
    hide Bit;
    NextBit(x, 0);
    NextBit(x, i + 1);
    NextBit(x / 2, i);
    NextBit(x / 2, 0);
    assert x / 2 / 2 == x / 4;
  }

  /** A byte is the sum of the weights of its bits. */
  lemma ByteOfBits(x: byte)
    ensures x == Weight(x, 0, 1) + Weight(x, 1, 2) + Weight(x, 2, 4) + Weight(x, 3, 8)
                 + Weight(x, 4, 16) + Weight(x, 5, 32) + Weight(x, 6, 64) + Weight(x, 7, 128)
  {
    hide Bit;
    var y := x / 4;
    var z := y / 4;
    var u := z / 4;
    TwoBits(x, 0);
    TwoBits(y, 0);
    TwoBits(z, 0);
    TwoBits(u, 0);
    TwoBits(x, 1);
    TwoBits(x, 2);
    TwoBits(x, 3);
    TwoBits(x, 4);
    TwoBits(x, 5);
    TwoBits(y, 1);
    TwoBits(y, 2);
    TwoBits(y, 3);
    TwoBits(z, 1);
  }

  /** Each bit of the exclusive or is set exactly when one, and only one, of the two bits is. */
  lemma XorBit(x: byte, y: byte, i: nat)
    requires i < 8
    ensures Bit(Xor(x, y), i) <==> (Bit(x, i) != Bit(y, i))
  {
    XorBitsBit(x, y, 8, i);
  }

  lemma {:induction false} XorBitsBit(a: nat, b: nat, n: nat, i: nat)
    requires i < n
    ensures Bit(XorBits(a, b, n), i) <==> (Bit(a, i) != Bit(b, i))
    decreases n
  {
    if i > 0 {
      XorBitsBit(a / 2, b / 2, n - 1, i - 1);
    }
  }

  lemma SameBits(x: byte, y: byte)
    requires forall i: nat :: i < 8 ==> Bit(x, i) == Bit(y, i)
    ensures x == y
  {
    hide Bit;
    ByteOfBits(x);
    ByteOfBits(y);
    assert Bit(x, 0) == Bit(y, 0) && Bit(x, 1) == Bit(y, 1) && Bit(x, 2) == Bit(y, 2) && Bit(x, 3) == Bit(y, 3);
    assert Bit(x, 4) == Bit(y, 4) && Bit(x, 5) == Bit(y, 5) && Bit(x, 6) == Bit(y, 6) && Bit(x, 7) == Bit(y, 7);
  }

  lemma {:induction false} ZeroBits(i: nat)
    ensures !Bit(0, i)
    decreases i
  {
    if i > 0 {
      ZeroBits(i - 1);
    }
  }

  /** A zero key byte, and no other, leaves a byte as it is. */
  lemma XorIdentity(x: byte, y: byte)
    ensures Xor(x, y) == x <==> y == 0
  {
    hide Xor, Bit;
    forall i: nat | i < 8
      ensures Bit(Xor(x, y), i) <==> (Bit(x, i) != Bit(y, i))
      ensures !Bit(0, i)
    {
      XorBit(x, y, i);
      ZeroBits(i);
    }
    if y == 0 {
      SameBits(Xor(x, y), x);
    }
    if Xor(x, y) == x {
      SameBits(y, 0);
    }
  }

  function Masked(payload: Blob, mask: Blob): (r: Blob)
    requires |mask| == 4
    ensures |r| == |payload|
  {
    seq(|payload|, i requires 0 <= i < |payload| => Xor(payload[i], mask[i % 4]))
  }

  /** Bit by bit, byte k of a masked payload is byte k of the payload against byte k mod 4 of the key. */
  lemma MaskedBits(payload: Blob, mask: Blob, k: nat, i: nat)
    requires |mask| == 4 && k < |payload| && i < 8
    ensures Bit(Masked(payload, mask)[k], i) <==> (Bit(payload[k], i) != Bit(mask[k % 4], i))
  {
    XorBit(payload[k], mask[k % 4], i);
  }

  lemma MaskedTwice(payload: Blob, mask: Blob)
    requires |mask| == 4
    ensures Masked(Masked(payload, mask), mask) == payload
  {
    forall i | 0 <= i < |payload| ensures Masked(Masked(payload, mask), mask)[i] == payload[i] {
      XorTwice(payload[i], mask[i % 4]);
    }
  }

  // ---- Parsing one frame ----

  function Clamp(n: nat, limit: nat): nat {
    if n <= limit then n else limit
  }

  /** ParseWebSocketFrame: empty for anything but a whole text frame, None where taking the payload throws. */
  function ParseFrame(data: Blob): Option<Blob> {
    if |data| < 2 || data[0] % 16 != 1 then Some([])
    else
      match HeaderAt(data)
      case None => Some([])
      case Some(h) =>
        if |data| < (h.size + h.payload) % WORD then Some([])
        else if |data| < h.size then None
        else
          var payload := data[h.size..Clamp(h.size + h.payload, |data|)];
          Some(if data[1] >= 0x80 then Masked(payload, data[h.size - 4..h.size]) else payload)
  }

  // ---- Writing one frame ----

  /** The length field for a payload, with the mask bit added to its first byte. */
  function LengthField(n: nat, maskBit: byte): Blob
    requires maskBit == 0 || maskBit == 0x80
  {
    if n < 126 then [maskBit + n]
    else if n < 65536 then [maskBit + 126] + BigEndian(n, 2)
    else [maskBit + 127] + BigEndian(n, 8)
  }

  /** The text frame the server sends. */
  function ServerFrame(message: Blob): Blob {
    [0x81] + LengthField(|message|, 0) + message
  }

  /** The text frame a client sends: the payload is masked with its key. */
  function ClientFrame(payload: Blob, mask: Blob): Blob
    requires |mask| == 4
  {
    [0x81] + LengthField(|payload|, 0x80) + mask + Masked(payload, mask)
  }

  /** The header survives whatever follows it. */
  lemma HeaderStays(data: Blob, more: Blob)
    ensures HeaderAt(data).Some? ==> HeaderAt(data + more) == HeaderAt(data)
  {
    hide BigEndianValue;
    if HeaderAt(data).Some? {
      var all := data + more;
      assert all[0] == data[0] && all[1] == data[1];
      if data[1] % 0x80 == 126 {
        assert all[2..4] == data[2..4];
      } else if data[1] % 0x80 == 127 {
        assert all[2..10] == data[2..10];
      }
    }
  }

  lemma LengthFieldRead(n: nat, maskBit: byte, rest: Blob)
    requires n < 0x8000_0000_0000_0000 && (maskBit == 0 || maskBit == 0x80)
    ensures HeaderAt([0x81] + LengthField(n, maskBit) + rest)
            == Some(Header(1 + |LengthField(n, maskBit)| + MaskSize(maskBit), n))
  {
    hide BigEndianValue, BigEndian;
    var field := LengthField(n, maskBit);
    var data := [0x81] + field + rest;
    assert data[1] == field[0];
    if 126 <= n < 65536 {
      assert Power256(2) == 65536;
      BigEndianRoundTrip(n, 2);
      assert data[2..4] == BigEndian(n, 2);
    } else if n >= 65536 {
      assert Power256(8) == WORD by { PowerEight(); }
      BigEndianRoundTrip(n, 8);
      assert data[2..10] == BigEndian(n, 8);
    }
  }

  lemma PowerEight()
    ensures Power256(8) == WORD
  {
    assert Power256(4) == 0x1_0000_0000;
    assert Power256(6) == Power256(4) * 256 * 256;
    assert Power256(8) == Power256(6) * 256 * 256;
  }

  /** Parsing a masked text frame of any length class gives back its payload, and its size is found in a stream. */
  lemma ClientFrameRoundTrip(payload: Blob, mask: Blob, rest: Blob)
    requires |mask| == 4 && |payload| < 0x8000_0000_0000_0000
    ensures FrameSize(ClientFrame(payload, mask) + rest) == |ClientFrame(payload, mask)|
    ensures ParseFrame(ClientFrame(payload, mask)) == Some(payload)
  {
    hide HeaderAt, LengthField, Masked;
    var field := LengthField(|payload|, 0x80);
    var frame := ClientFrame(payload, mask);
    LengthFieldSize(|payload|, 0x80);
    LengthFieldRead(|payload|, 0x80, mask + Masked(payload, mask));
    assert frame == [0x81] + field + (mask + Masked(payload, mask));
    HeaderStays(frame, rest);
    var h := Header(1 + |field| + 4, |payload|);
    assert HeaderAt(frame) == Some(h);
    assert |frame| == h.size + h.payload;
    assert frame[0] == 0x81 && frame[1] == field[0];
    assert frame[h.size - 4..h.size] == mask;
    assert frame[h.size..|frame|] == Masked(payload, mask);
    assert |frame| < WORD && Clamp(h.size + h.payload, |frame|) == |frame|;
    MaskedTwice(payload, mask);
  }

  /** The shortest of the three forms the length fits. */
  lemma LengthFieldShortest(n: nat, maskBit: byte)
    requires maskBit == 0 || maskBit == 0x80
    ensures |LengthField(n, maskBit)| == 1 <==> n <= 125
    ensures |LengthField(n, maskBit)| == 3 <==> 125 < n < 0x1_0000
    ensures |LengthField(n, maskBit)| == 9 <==> n >= 0x1_0000
  {
    hide BigEndian;
  }

  /** The example frames of section 5.7 of RFC 6455: "Hello" unmasked, and masked with 37 FA 21 3D. */
  lemma HelloFrames()
    ensures var hello: Blob := [0x48, 0x65, 0x6C, 0x6C, 0x6F];
            && ServerFrame(hello) == [0x81, 0x05, 0x48, 0x65, 0x6C, 0x6C, 0x6F]
            && ClientFrame(hello, [0x37, 0xFA, 0x21, 0x3D])
               == [0x81, 0x85, 0x37, 0xFA, 0x21, 0x3D, 0x7F, 0x9F, 0x4D, 0x51, 0x58]
  {
    hide Xor;
    XorOf(0x48, 0x37, 0x7F);
    XorOf(0x65, 0xFA, 0x9F);
    XorOf(0x6C, 0x21, 0x4D);
    XorOf(0x6C, 0x3D, 0x51);
    XorOf(0x6F, 0x37, 0x58);
    var hello: Blob := [0x48, 0x65, 0x6C, 0x6C, 0x6F];
    assert Masked(hello, [0x37, 0xFA, 0x21, 0x3D]) == [0x7F, 0x9F, 0x4D, 0x51, 0x58];
  }

  lemma XorOf(x: byte, y: byte, z: byte)
    requires (Bit(z, 0) == (Bit(x, 0) != Bit(y, 0))) && (Bit(z, 1) == (Bit(x, 1) != Bit(y, 1)))
    requires (Bit(z, 2) == (Bit(x, 2) != Bit(y, 2))) && (Bit(z, 3) == (Bit(x, 3) != Bit(y, 3)))
    requires (Bit(z, 4) == (Bit(x, 4) != Bit(y, 4))) && (Bit(z, 5) == (Bit(x, 5) != Bit(y, 5)))
    requires (Bit(z, 6) == (Bit(x, 6) != Bit(y, 6))) && (Bit(z, 7) == (Bit(x, 7) != Bit(y, 7)))
    ensures Xor(x, y) == z
  {
    hide Xor, Bit;
    forall i: nat | i < 8 ensures Bit(Xor(x, y), i) == Bit(z, i) {
      XorBit(x, y, i);
      assert i == 0 || i == 1 || i == 2 || i == 3 || i == 4 || i == 5 || i == 6 || i == 7;
    }
    SameBits(Xor(x, y), z);
  }

  lemma LengthFieldSize(n: nat, maskBit: byte)
    requires maskBit == 0 || maskBit == 0x80
    ensures 0 < |LengthField(n, maskBit)| <= 9
    ensures LengthField(n, maskBit)[0] >= 0x80 <==> maskBit == 0x80
  {
    hide BigEndian;
  }

  lemma ServerFrameRoundTrip(message: Blob, rest: Blob)
    requires |message| < 0x8000_0000_0000_0000
    ensures FrameSize(ServerFrame(message) + rest) == |ServerFrame(message)|
    ensures ParseFrame(ServerFrame(message)) == Some(message)
  {
    hide HeaderAt, LengthField;
    var field := LengthField(|message|, 0);
    var frame := ServerFrame(message);
    LengthFieldSize(|message|, 0);
    LengthFieldRead(|message|, 0, message);
    HeaderStays(frame, rest);
    var h := Header(1 + |field|, |message|);
    assert HeaderAt(frame) == Some(h);
    assert |frame| == h.size + h.payload;
    assert frame[0] == 0x81 && frame[1] == field[0];
    assert frame[h.size..|frame|] == message;
    assert |frame| < WORD && Clamp(h.size + h.payload, |frame|) == |frame|;
  }

  // ---- When parsing throws ----

  /** A masked text frame whose 64-bit length is so large that adding the header to it wraps to less than the header. */
  predicate Wraps(data: Blob) {
    |data| >= 10 && data[0] % 16 == 1 && data[1] == 0xFF && BigEndianValue(data[2..10]) >= WORD - 4
  }

  /**
   Taking the payload of a frame throws exactly when the frame's announced size has wrapped below the
   size of its own header, which only the last four lengths of a masked text frame do.
   */
  lemma ThrowsExactly(pending: Blob)
    requires Whole(pending)
    ensures ParseFrame(pending[..FrameSize(pending)]).None? <==> Wraps(pending)
    ensures Wraps(pending) ==> FrameSize(pending) < HeaderAt(pending).value.size
  {
    hide BigEndianValue, Masked;
    var frame := pending[..FrameSize(pending)];
    assert pending == frame + pending[|frame|..];
    HeaderStays(frame, pending[|frame|..]);
    assert frame[0] == pending[0];
    if |pending| >= 4 {
      ShortBound(pending[2..4]);
    }
    if |pending| >= 10 {
      LengthBound(pending[2..10]);
    }
    if Wraps(pending) {
      assert |frame| >= 10 && frame[1] == pending[1];
      assert frame[2..10] == pending[2..10];
    }
  }

  /** Ten bytes that reach it: the announced size wraps to ten, below the header's fourteen. */
  lemma ThrowingFrame()
    ensures var data: Blob := [0x81, 0xFF, 0xFF, 0xFF, 0xFF, 0xFF, 0xFF, 0xFF, 0xFF, 0xFC];
            Whole(data) && Wraps(data) && Drain(data) == Drained([], [], Thrown)
  {
    var data: Blob := [0x81, 0xFF, 0xFF, 0xFF, 0xFF, 0xFF, 0xFF, 0xFF, 0xFF, 0xFC];
    var length := data[2..10];
    assert length == [0xFF, 0xFF, 0xFF, 0xFF, 0xFF, 0xFF, 0xFF, 0xFC];
    LengthSteps(length);
    assert BigEndianValue(length) == WORD - 4;
    hide BigEndianValue;
    assert FrameSize(data) == 10 && data[..10] == data && data[10..] == [];
    ThrowsExactly(data);
  }

  /** Horner's rule for eight bytes, four at a time. */
  lemma LengthSteps(s: Blob)
    requires |s| == 8
    ensures BigEndianValue(s) == FourBytes(s[..4]) * 0x1_0000_0000 + FourBytes(s[4..])
  {
    hide BigEndianValue;
    LengthStep(s);
    LengthStep(s[..7]);
    LengthStep(s[..6]);
    LengthStep(s[..5]);
    LengthStep(s[..4]);
    LengthStep(s[..3]);
    LengthStep(s[..2]);
    LengthStep(s[..1]);
    assert s[..7][..6] == s[..6] && s[..6][..5] == s[..5] && s[..5][..4] == s[..4];
    assert s[..4][..3] == s[..3] && s[..3][..2] == s[..2] && s[..2][..1] == s[..1];
  }

  function FourBytes(s: Blob): nat
    requires |s| == 4
  {
    s[0] as int * 0x100_0000 + s[1] as int * 0x1_0000 + s[2] as int * 0x100 + s[3]
  }

  lemma LengthStep(s: Blob)
    requires s != []
    ensures BigEndianValue(s) == BigEndianValue(s[..|s| - 1]) * 256 + s[|s| - 1]
    ensures |s| == 1 ==> BigEndianValue(s) == s[0]
  {
  }

  lemma ShortBound(s: Blob)
    requires |s| == 2
    ensures BigEndianValue(s) < 65536
  {
    BigEndianBound(s);
    assert Power256(2) == 65536;
  }

  lemma LengthBound(s: Blob)
    requires |s| == 8
    ensures BigEndianValue(s) < WORD
  {
    BigEndianBound(s);
    PowerEight();
  }

  // ---- Reassembly ----

  /**
   How a connection ends: by a close frame, by an exception out of the parser, which nothing in the
   connection's thread catches, or by the limit on pending bytes.
   */
  datatype Ending = Open | Closed | Thrown | Overflowed

  /** What draining the pending bytes hands on, what is left, and whether the connection has ended. */
  datatype Drained = Drained(messages: seq<Blob>, pending: Blob, end: Ending)

  predicate Whole(pending: Blob) {
    0 < FrameSize(pending) <= |pending|
  }

  function EndingOf(frame: Blob): Ending
    requires frame != []
  {
    if frame[0] % 16 == 8 then Closed else if ParseFrame(frame).None? then Thrown else Open
  }

  function Delivered(frame: Blob): seq<Blob> {
    if ParseFrame(frame).None? || ParseFrame(frame) == Some([]) then [] else [ParseFrame(frame).value]
  }

  function Drain(pending: Blob): (r: Drained)
    ensures !r.end.Overflowed?
    decreases |pending|
  {
    if !Whole(pending) then Drained([], pending, Open)
    else
      var size := FrameSize(pending);
      var end := EndingOf(pending[..size]);
      if !end.Open? then Drained([], pending[size..], end)
      else
        var more := Drain(pending[size..]);
        Drained(Delivered(pending[..size]) + more.messages, more.pending, more.end)
  }

  /** One received chunk: drain, then check the limit on what is left. */
  function Receive(state: Drained, chunk: Blob): Drained {
    if !state.end.Open? then state
    else
      var d := Drain(state.pending + chunk);
      Drained(state.messages + d.messages, d.pending,
              if d.end.Open? && |d.pending| > LIMIT then Overflowed else d.end)
  }

  /** The connection after a list of received chunks. */
  function Handled(chunks: seq<Blob>): Drained
    decreases |chunks|
  {
    if chunks == [] then Drained([], [], Open)
    else Receive(Handled(chunks[..|chunks| - 1]), chunks[|chunks| - 1])
  }

  function Concat(chunks: seq<Blob>): Blob
    decreases |chunks|
  {
    if chunks == [] then [] else Concat(chunks[..|chunks| - 1]) + chunks[|chunks| - 1]
  }

  lemma WholeStays(pending: Blob, more: Blob)
    requires Whole(pending)
    ensures FrameSize(pending + more) == FrameSize(pending)
  {
    hide HeaderAt;
    HeaderStays(pending, more);
  }

  /** Draining what has arrived and later the rest is draining everything at once. */
  lemma {:induction false} DrainConcat(a: Blob, b: Blob)
    ensures !Drain(a).end.Open? ==> Drain(a + b).messages == Drain(a).messages && Drain(a + b).end == Drain(a).end
    ensures Drain(a).end.Open? ==>
              && Drain(a + b).messages == Drain(a).messages + Drain(Drain(a).pending + b).messages
              && Drain(a + b).pending == Drain(Drain(a).pending + b).pending
              && Drain(a + b).end == Drain(Drain(a).pending + b).end
    decreases |a|
  {
    hide FrameSize, EndingOf, Delivered;
    if Whole(a) {
      var size := FrameSize(a);
      WholeStays(a, b);
      assert (a + b)[..size] == a[..size] && (a + b)[size..] == a[size..] + b;
      if EndingOf(a[..size]).Open? {
        DrainConcat(a[size..], b);
        var first := Delivered(a[..size]);
        var tail := Drain(a[size..]);
        if tail.end.Open? {
          var more := Drain(tail.pending + b).messages;
          assert first + (tail.messages + more) == first + tail.messages + more;
        }
      }
    }
  }

  /** Up to the first frame that ends the connection, every frame announces at most one byte more than the limit. */
  predicate SmallFrames(stream: Blob)
    decreases |stream|
  {
    match HeaderAt(stream)
    case None => true
    case Some(h) =>
      h.size + h.payload <= LIMIT + 1
      && (Whole(stream) && EndingOf(stream[..FrameSize(stream)]).Open? ==> SmallFrames(stream[FrameSize(stream)..]))
  }

  /** While frames are small, what is left pending never exceeds the limit. */
  lemma {:induction false} PendingStaysSmall(a: Blob, b: Blob)
    requires SmallFrames(a + b)
    ensures Drain(a).end.Open? ==> |Drain(a).pending| <= LIMIT
    decreases |a|
  {
    hide EndingOf, Delivered, BigEndianValue;
    HeaderStays(a, b);
    if Whole(a) {
      var size := FrameSize(a);
      WholeStays(a, b);
      assert (a + b)[..size] == a[..size] && (a + b)[size..] == a[size..] + b;
      if EndingOf(a[..size]).Open? {
        PendingStaysSmall(a[size..], b);
      }
    }
  }

  /** After no chunk has more than the limit been left pending. */
  ghost predicate NeverOverflows(chunks: seq<Blob>) {
    forall n :: 0 <= n <= |chunks| ==>
      (Drain(Concat(chunks[..n])).end.Open? ==> |Drain(Concat(chunks[..n])).pending| <= LIMIT)
  }

  /** Without overflow, handling chunks is draining their bytes at once. */
  lemma {:induction false} HandledIsDrain(chunks: seq<Blob>)
    requires NeverOverflows(chunks)
    ensures Handled(chunks).messages == Drain(Concat(chunks)).messages
    ensures Handled(chunks).end == Drain(Concat(chunks)).end
    ensures Handled(chunks).end.Open? ==> Handled(chunks).pending == Drain(Concat(chunks)).pending
    decreases |chunks|
  {
    hide Drain;
    if chunks == [] {
      DrainNothing();
    } else {
      var before, last := chunks[..|chunks| - 1], chunks[|chunks| - 1];
      forall n | 0 <= n <= |before| ensures before[..n] == chunks[..n] {
      }
      HandledIsDrain(before);
      DrainConcat(Concat(before), last);
      assert chunks[..|chunks|] == chunks;
    }
  }

  lemma {:induction false} ConcatSplit(chunks: seq<Blob>, n: nat)
    requires n <= |chunks|
    ensures exists rest :: Concat(chunks) == Concat(chunks[..n]) + rest
    decreases |chunks|
  {
    if n == |chunks| {
      assert chunks[..n] == chunks;
      assert Concat(chunks) == Concat(chunks[..n]) + [];
    } else {
      var before, last := chunks[..|chunks| - 1], chunks[|chunks| - 1];
      ConcatSplit(before, n);
      assert before[..n] == chunks[..n];
      var rest :| Concat(before) == Concat(before[..n]) + rest;
      assert Concat(chunks) == Concat(chunks[..n]) + (rest + last);
    }
  }

  lemma SmallNeverOverflow(chunks: seq<Blob>)
    requires SmallFrames(Concat(chunks))
    ensures NeverOverflows(chunks)
  {
    hide SmallFrames, Drain, Concat;
    forall n | 0 <= n <= |chunks|
      ensures Drain(Concat(chunks[..n])).end.Open? ==> |Drain(Concat(chunks[..n])).pending| <= LIMIT
    {
      ConcatSplit(chunks, n);
      var rest :| Concat(chunks) == Concat(chunks[..n]) + rest;
      PendingStaysSmall(Concat(chunks[..n]), rest);
    }
  }

  lemma DrainNothing()
    ensures Drain([]) == Drained([], [], Open)
  {
  }

  /** The messages handed on depend only on the bytes received, not on how they were cut into chunks. */
  lemma ChunkingIrrelevant(a: seq<Blob>, b: seq<Blob>)
    requires Concat(a) == Concat(b) && SmallFrames(Concat(a))
    ensures Handled(a).messages == Handled(b).messages && Handled(a).end == Handled(b).end
    ensures Handled(a).end.Open? ==> Handled(a).pending == Handled(b).pending
  {
    hide SmallFrames, Drain, Handled, NeverOverflows;
    SmallNeverOverflow(a);
    SmallNeverOverflow(b);
    HandledIsDrain(a);
    HandledIsDrain(b);
  }

  // ---- Streams of text messages ----

  datatype Sent = Sent(payload: Blob, mask: Blob)

  /** A nonempty text message with a length the frame format can carry. */
  predicate Sendable(m: Sent) {
    |m.mask| == 4 && m.payload != [] && |m.payload| < 0x8000_0000_0000_0000
  }

  predicate AllSendable(sent: seq<Sent>) {
    forall i :: 0 <= i < |sent| ==> Sendable(sent[i])
  }

  function FrameOf(m: Sent): Blob
    requires Sendable(m)
  {
    ClientFrame(m.payload, m.mask)
  }

  predicate AllSmall(sent: seq<Sent>)
    requires AllSendable(sent)
  {
    forall i :: 0 <= i < |sent| ==> |FrameOf(sent[i])| <= LIMIT + 1
  }

  function Frames(sent: seq<Sent>): Blob
    requires AllSendable(sent)
    decreases |sent|
  {
    if sent == [] then []
    else
      assert Sendable(sent[0]);
      FrameOf(sent[0]) + Frames(sent[1..])
  }

  function Payloads(sent: seq<Sent>): seq<Blob> {
    seq(|sent|, i requires 0 <= i < |sent| => sent[i].payload)
  }

  /** What one frame at the front of the pending bytes does. */
  lemma FrameDrains(m: Sent, rest: Blob)
    requires Sendable(m)
    ensures FrameSize(FrameOf(m) + rest) == |FrameOf(m)| > |m.payload| && Whole(FrameOf(m) + rest)
    ensures Drain(FrameOf(m) + rest)
            == Drained([m.payload] + Drain(rest).messages, Drain(rest).pending, Drain(rest).end)
    ensures |FrameOf(m)| <= LIMIT + 1 && SmallFrames(rest) ==> SmallFrames(FrameOf(m) + rest)
  {
    hide HeaderAt, ClientFrame, ParseFrame, FrameSize;
    var frame := FrameOf(m);
    ClientFrameShort(m.payload, m.mask);
    ClientFrameRoundTrip(m.payload, m.mask, rest);
    ClientFrameHeader(m.payload, m.mask, rest);
    assert (frame + rest)[..|frame|] == frame && (frame + rest)[|frame|..] == rest;
  }

  /**
   Frames that are not text, from a client and whatever their other bits: a close frame ends the connection,
   what precedes it having been delivered, and every other one is passed over.
   */
  lemma OtherFrames(first: byte, payload: Blob, mask: Blob, rest: Blob)
    requires |mask| == 4 && |payload| < 0x8000_0000_0000_0000 && first % 16 != 1
    ensures var frame := [first] + LengthField(|payload|, 0x80) + mask + Masked(payload, mask);
            Drain(frame + rest) == if first % 16 == 8 then Drained([], rest, Closed) else Drain(rest)
  {
    hide LengthField, Masked, HeaderAt, Drain;
    var field := LengthField(|payload|, 0x80);
    var tail := mask + Masked(payload, mask);
    var frame := [first] + field + mask + Masked(payload, mask);
    LengthFieldSize(|payload|, 0x80);
    LengthFieldRead(|payload|, 0x80, tail + rest);
    assert frame + rest == [first] + field + (tail + rest);
    FirstByteFree(0x81, first, field + (tail + rest));
    assert [0x81] + field + (tail + rest) == [0x81] + (field + (tail + rest));
    assert [first] + field + (tail + rest) == [first] + (field + (tail + rest));
    assert FrameSize(frame + rest) == |frame|;
    assert (frame + rest)[..|frame|] == frame && (frame + rest)[|frame|..] == rest;
    DrainOne(frame, rest);
  }

  lemma FirstByteFree(x: byte, y: byte, rest: Blob)
    ensures HeaderAt([x] + rest) == HeaderAt([y] + rest)
  {
    hide BigEndianValue;
    var a, b := [x] + rest, [y] + rest;
    if |rest| >= 3 {
      assert a[2..4] == b[2..4];
    }
    if |rest| >= 9 {
      assert a[2..10] == b[2..10];
    }
  }

  lemma DrainOne(frame: Blob, rest: Blob)
    requires FrameSize(frame + rest) == |frame| > 0 && frame[0] % 16 != 1
    requires (frame + rest)[..|frame|] == frame && (frame + rest)[|frame|..] == rest
    ensures Drain(frame + rest) == if frame[0] % 16 == 8 then Drained([], rest, Closed) else Drain(rest)
  {
    hide FrameSize;
    assert |frame| < 2 || frame[0] % 16 != 1;
    assert [] + Drain(rest).messages == Drain(rest).messages;
  }

  lemma {:induction false} FramesDrain(sent: seq<Sent>)
    requires AllSendable(sent)
    ensures Drain(Frames(sent)) == Drained(Payloads(sent), [], Open)
    ensures AllSmall(sent) ==> SmallFrames(Frames(sent))
    decreases |sent|
  {
    hide Drain, SmallFrames, FrameOf, FrameSize, Sendable;
    if sent == [] {
      NoFrames();
    } else {
      assert AllSendable(sent[1..]) && Sendable(sent[0]);
      assert AllSmall(sent) ==> AllSmall(sent[1..]);
      FramesDrain(sent[1..]);
      FrameDrains(sent[0], Frames(sent[1..]));
      assert Payloads(sent) == [sent[0].payload] + Payloads(sent[1..]);
    }
  }

  lemma NoFrames()
    ensures Drain([]) == Drained([], [], Open) && SmallFrames([])
  {
    NoHeader();
  }

  lemma NoHeader()
    ensures HeaderAt([]).None?
  {
  }

  lemma ClientFrameShort(payload: Blob, mask: Blob)
    requires |mask| == 4
    ensures |ClientFrame(payload, mask)| > |payload| && ClientFrame(payload, mask)[0] == 0x81
  {
    hide LengthField, Masked;
  }

  lemma ClientFrameHeader(payload: Blob, mask: Blob, rest: Blob)
    requires |mask| == 4 && |payload| < 0x8000_0000_0000_0000
    ensures var h := HeaderAt(ClientFrame(payload, mask) + rest);
            h.Some? && h.value.size + h.value.payload == |ClientFrame(payload, mask)|
  {
    hide HeaderAt, LengthField, Masked;
    LengthFieldRead(|payload|, 0x80, mask + Masked(payload, mask) + rest);
    assert ClientFrame(payload, mask) + rest
        == [0x81] + LengthField(|payload|, 0x80) + (mask + Masked(payload, mask) + rest);
  }

  /** Text messages sent as masked frames arrive as they were sent, however the stream is cut. */
  lemma StreamDelivers(sent: seq<Sent>, chunks: seq<Blob>)
    requires AllSendable(sent) && AllSmall(sent) && Concat(chunks) == Frames(sent)
    ensures Handled(chunks) == Drained(Payloads(sent), [], Open)
  {
    hide SmallFrames, Drain, Handled, AllSendable, AllSmall, NeverOverflows;
    FramesDrain(sent);
    SmallNeverOverflow(chunks);
    HandledIsDrain(chunks);
  }

  /** Every chunk has at most `most` bytes. */
  predicate Within(chunks: seq<Blob>, most: nat) {
    forall i :: 0 <= i < |chunks| ==> |chunks[i]| <= most
  }

  /** The bytes one by one. */
  function Singles(bytes: Blob): seq<Blob> {
    seq(|bytes|, i requires 0 <= i < |bytes| => [bytes[i]])
  }

  lemma {:induction false} SinglesConcat(bytes: Blob, n: nat)
    requires n <= |bytes|
    ensures Singles(bytes)[..n] == Singles(bytes[..n]) && Concat(Singles(bytes[..n])) == bytes[..n]
    decreases n
  {
    if n > 0 {
      SinglesConcat(bytes, n - 1);
      assert Singles(bytes[..n])[..n - 1] == Singles(bytes[..n - 1]);
    }
  }

  /** Once the connection has ended, later chunks change nothing. */
  lemma {:induction false} HandledStops(chunks: seq<Blob>, i: nat)
    requires i <= |chunks| && !Handled(chunks[..i]).end.Open?
    ensures Handled(chunks) == Handled(chunks[..i])
    decreases |chunks|
  {
    hide Drain;
    if i == |chunks| {
      assert chunks[..i] == chunks;
    } else {
      var before := chunks[..|chunks| - 1];
      assert before[..i] == chunks[..i];
      HandledStops(before, i);
    }
  }

  /** Before its last byte a frame is not whole. */
  lemma PartOfFrame(m: Sent, n: nat)
    requires Sendable(m) && n < |FrameOf(m)|
    ensures Drain(FrameOf(m)[..n]) == Drained([], FrameOf(m)[..n], Open)
  {
    hide HeaderAt, FrameOf;
    var part := FrameOf(m)[..n];
    assert FrameOf(m) == part + FrameOf(m)[n..] && FrameOf(m) + [] == FrameOf(m);
    FrameDrains(m, []);
    HeaderStays(part, FrameOf(m)[n..]);
  }

  /** Small messages and then n bytes of another frame. */
  lemma PartialDrain(before: seq<Sent>, m: Sent, n: nat)
    requires AllSendable(before) && Sendable(m) && n < |FrameOf(m)|
    ensures Drain(Frames(before) + FrameOf(m)[..n]) == Drained(Payloads(before), FrameOf(m)[..n], Open)
  {
    hide Drain, Frames, FrameOf, Sendable;
    FramesDrain(before);
    DrainConcat(Frames(before), FrameOf(m)[..n]);
    assert [] + FrameOf(m)[..n] == FrameOf(m)[..n];
    PartOfFrame(m, n);
    assert Payloads(before) + [] == Payloads(before);
  }

  /** A stream of small messages up to part of a large frame never leaves more than the limit pending. */
  lemma BytesNeverOverflow(before: seq<Sent>, m: Sent, n: nat)
    requires AllSendable(before) && AllSmall(before) && Sendable(m) && n < |FrameOf(m)| && n <= LIMIT
    ensures NeverOverflows(Singles(Frames(before) + FrameOf(m)[..n]))
  {
    hide Drain, Frames, FrameOf, Sendable, SmallFrames, Concat, AllSmall, AllSendable;
    var a := Frames(before);
    var bytes := a + FrameOf(m)[..n];
    FramesDrain(before);
    forall k | 0 <= k <= |Singles(bytes)|
      ensures var d := Drain(Concat(Singles(bytes)[..k])); d.end.Open? ==> |d.pending| <= LIMIT
    {
      SinglesConcat(bytes, k);
      if k <= |a| {
        assert bytes[..k] == a[..k] && a[..k] + a[k..] == a;
        PendingStaysSmall(a[..k], a[k..]);
      } else {
        assert bytes[..k] == a + FrameOf(m)[..k - |a|] by { assert FrameOf(m)[..n][..k - |a|] == FrameOf(m)[..k - |a|]; }
        PartialDrain(before, m, k - |a|);
      }
    }
  }

  /** Received byte by byte, small messages are delivered and then a frame above the limit overflows. */
  lemma LargeFrameOverflows(before: seq<Sent>, m: Sent, rest: Blob)
    requires AllSendable(before) && AllSmall(before) && Sendable(m) && |FrameOf(m)| > LIMIT + 1
    ensures Handled(Singles(Frames(before) + FrameOf(m) + rest)).messages == Payloads(before)
    ensures Handled(Singles(Frames(before) + FrameOf(m) + rest)).end == Overflowed
  {
    hide Drain, Frames, FrameOf, Sendable, Singles, Concat, NeverOverflows, AllSmall, AllSendable;
    var a, frame := Frames(before), FrameOf(m);
    var all := a + frame + rest;
    var n := |a| + LIMIT;
    var chunks := Singles(all);
    assert all[..n] == a + frame[..LIMIT] && all[..n + 1] == a + frame[..LIMIT + 1];
    SinglesConcat(all, n);
    SinglesConcat(all, n + 1);
    SinglesLength(all);
    BytesNeverOverflow(before, m, LIMIT);
    HandledIsDrain(chunks[..n]);
    PartialDrain(before, m, LIMIT);
    assert Handled(chunks[..n]) == Drained(Payloads(before), frame[..LIMIT], Open);
    assert chunks[..n + 1][..n] == chunks[..n] && chunks[n] == [all[n]];
    assert frame[..LIMIT] + [all[n]] == frame[..LIMIT + 1];
    PartOfFrame(m, LIMIT + 1);
    assert Payloads(before) + [] == Payloads(before);
    HandledStops(chunks, n + 1);
  }

  lemma SinglesLength(bytes: Blob)
    ensures |Singles(bytes)| == |bytes| && forall i :: 0 <= i < |bytes| ==> Singles(bytes)[i] == [bytes[i]]
  {
  }

  lemma {:induction false} FramesSplit(sent: seq<Sent>, i: nat)
    requires AllSendable(sent) && i < |sent|
    ensures AllSendable(sent[..i]) && AllSendable(sent[i + 1..]) && Sendable(sent[i])
    ensures Frames(sent) == Frames(sent[..i]) + FrameOf(sent[i]) + Frames(sent[i + 1..])
    decreases i
  {
    hide FrameOf, Sendable;
    assert Sendable(sent[i]);
    if i == 0 {
      assert sent[1..] == sent[i + 1..];
      assert [] + FrameOf(sent[0]) == FrameOf(sent[0]);
    } else {
      assert AllSendable(sent[1..]);
      FramesSplit(sent[1..], i - 1);
      assert sent[1..][..i - 1] == sent[..i][1..] && sent[1..][i..] == sent[i + 1..];
      assert sent[..i][0] == sent[0];
    }
  }

  /** The messages arrive however the stream is cut into chunks of at most `most` bytes. */
  ghost predicate AlwaysDelivered(sent: seq<Sent>, most: nat)
    requires AllSendable(sent)
  {
    forall chunks :: Concat(chunks) == Frames(sent) && Within(chunks, most) ==> Handled(chunks).messages == Payloads(sent)
  }

  /**
   Whatever bound there is on the size of a chunk, text messages arrive under every way to cut their
   stream exactly when no frame is more than one byte over the limit.
   */
  lemma DeliveredIff(sent: seq<Sent>, most: nat)
    requires AllSendable(sent) && most > 0
    ensures AlwaysDelivered(sent, most) <==> AllSmall(sent)
  {
    hide Handled, Frames, FrameOf, Sendable, Singles, Concat, Drain;
    if AllSmall(sent) {
      forall chunks | Concat(chunks) == Frames(sent) && Within(chunks, most)
        ensures Handled(chunks).messages == Payloads(sent)
      {
        StreamDelivers(sent, chunks);
      }
    } else {
      var i := FirstLarge(sent);
      FramesSplit(sent, i);
      LargeFrameOverflows(sent[..i], sent[i], Frames(sent[i + 1..]));
      var bytes := Frames(sent);
      SinglesConcat(bytes, |bytes|);
      SinglesLength(bytes);
      assert bytes[..|bytes|] == bytes && Within(Singles(bytes), most);
      assert |Payloads(sent[..i])| != |Payloads(sent)|;
    }
  }

  /** The first frame more than one byte over the limit. */
  lemma FirstLarge(sent: seq<Sent>) returns (i: nat)
    requires AllSendable(sent) && !AllSmall(sent)
    ensures i < |sent| && Sendable(sent[i]) && |FrameOf(sent[i])| > LIMIT + 1
    ensures AllSendable(sent[..i]) && AllSmall(sent[..i])
  {
    hide FrameOf, Sendable;
    var large :| 0 <= large < |sent| && |FrameOf(sent[large])| > LIMIT + 1;
    i := 0;
    while |FrameOf(sent[i])| <= LIMIT + 1
      invariant i <= large
      invariant forall j :: 0 <= j < i ==> |FrameOf(sent[j])| <= LIMIT + 1
      decreases large - i
    {
      i := i + 1;
    }
    assert AllSendable(sent[..i]);
  }

  /** The bound is exact: whether a frame of two bytes more than the limit arrives depends on the chunks. */
  lemma LargeFrameDependsOnChunks()
    ensures exists a: seq<Blob>, b: seq<Blob> ::
              Concat(a) == Concat(b) && |Concat(a)| == LIMIT + 2 && Handled(a).messages != Handled(b).messages
  {
    hide LengthField, Masked, Drain, Singles, Concat, Handled;
    var m := Sent(seq(LIMIT - 12, i => 0), [0, 0, 0, 0]);
    LongField(|m.payload|);
    var frame := FrameOf(m);
    assert |frame| == LIMIT + 2;
    var a, b := [frame], Singles(frame);
    OneChunk(frame);
    FrameDrains(m, []);
    assert frame + [] == frame;
    DrainNothing();
    assert Frames([]) == [] && [] + frame + [] == frame;
    LargeFrameOverflows([], m, []);
    SinglesConcat(frame, |frame|);
    assert frame[..|frame|] == frame;
    assert |Handled(a).messages| == 1 && |Handled(b).messages| == 0;
  }

  lemma OneChunk(chunk: Blob)
    ensures Concat([chunk]) == chunk && Handled([chunk]).messages == Drain(chunk).messages
  {
    hide Drain;
    assert [chunk][..0] == [] by { assert |[chunk][..0]| == 0; }
    assert [] + chunk == chunk;
    assert Handled([chunk]) == Receive(Handled([]), chunk);
    assert [] + Drain(chunk).messages == Drain(chunk).messages;
  }

  lemma LongField(n: nat)
    requires n >= 65536
    ensures |LengthField(n, 0x80)| == 9
  {
    hide BigEndian;
  }
}
