/** The server's frame parser, frame writer and receive loop, against the functions of WebSockets. */
module WebSocketServers {
  import opened Wrappers
  import opened Bytes
  import opened WebSockets

  /** The header size and payload length, as both parsing functions compute them. */
  method ReadHeader(data: Blob) returns (header: Option<Header>)
    ensures header == HeaderAt(data)
  {
    hide BigEndianValue;
    if |data| < 2 {
      return None;
    }
    var size, payload: nat := 2, data[1] % 0x80;
    if payload == 126 {
      if |data| < 4 {
        return None;
      }
      TwoBytes(data[2..4]);
      payload := data[2] as int * 256 + data[3];
      size := 4;
    } else if payload == 127 {
      if |data| < 10 {
        return None;
      }
      payload := LongLength(data[2..10]);
      size := 10;
    }
    if data[1] >= 0x80 {
      size := size + 4;
    }
    return Some(Header(size, payload));
  }

  lemma TwoBytes(s: Blob)
    requires |s| == 2
    ensures BigEndianValue(s) == s[0] as int * 256 + s[1]
  {
    assert BigEndianValue(s[..1]) == s[0] as int by { assert s[..1][..0] == s[..0]; }
  }

  method LongLength(s: Blob) returns (n: nat)
    ensures n == BigEndianValue(s)
  {
    n := 0;
    for i := 0 to |s|
      invariant n == BigEndianValue(s[..i])
    {
      assert s[..i + 1][..i] == s[..i];
      n := n * 256 + s[i];
    }
    assert s[..|s|] == s;
  }

  /** A frame's size, or zero while its header is incomplete. */
  method CompleteFrameSize(data: Blob) returns (size: nat)
    ensures size == FrameSize(data)
  {
    hide HeaderAt;
    var header := ReadHeader(data);
    size := if header.None? then 0 else (header.value.size + header.value.payload) % WORD;
  }

  /** Removes the mask from a payload in place. */
  method Unmask(payload: array<byte>, mask: Blob)
    requires |mask| == 4
    modifies payload
    ensures payload[..] == Masked(old(payload[..]), mask)
  {
    hide Xor;
    for i := 0 to payload.Length
      invariant forall j :: 0 <= j < i ==> payload[j] == Xor(old(payload[j]), mask[j % 4])
      invariant forall j :: i <= j < payload.Length ==> payload[j] == old(payload[j])
    {
      payload[i] := Xor(payload[i], mask[i % 4]);
    }
  }

  /** None where the source's substr throws. */
  method ParseWebSocketFrame(data: Blob) returns (message: Option<Blob>)
    ensures message == ParseFrame(data)
  {
    hide HeaderAt, Masked;
    if |data| < 2 {
      return Some([]);
    }
    var opcode := data[0] % 16;
    if opcode >= 8 {
      return Some([]);
    }
    if opcode != 1 {
      return Some([]);
    }
    var header := ReadHeader(data);
    if header.None? {
      return Some([]);
    }
    var size, length := header.value.size, header.value.payload;
    if |data| < (size + length) % WORD {
      return Some([]);
    }
    if |data| < size {
      return None;
    }
    var part := data[size..Clamp(size + length, |data|)];
    if data[1] < 0x80 {
      return Some(part);
    }
    HeaderHoldsMask(data);
    var payload := new byte[|part|](i requires 0 <= i < |part| => part[i]);
    assert payload[..] == part;
    Unmask(payload, data[size - 4..size]);
    return Some(payload[..]);
  }

  lemma HeaderHoldsMask(data: Blob)
    requires HeaderAt(data).Some? && data[1] >= 0x80
    ensures HeaderAt(data).value.size >= 4
  {
  }

  /** The frame SendWebSocketFrame writes. */
  method BuildFrame(message: Blob) returns (frame: Blob)
    requires |message| < WORD
    ensures frame == ServerFrame(message)
  {
    hide BigEndian;
    frame := [0x81];
    var n := |message|;
    if n < 126 {
      frame := frame + [n];
    } else if n < 65536 {
      BigEndianTwo(n);
      frame := frame + [126, n / 256 % 256, n % 256];
      assert frame == [0x81] + LengthField(n, 0);
    } else {
      var length := EightBytes(n);
      frame := frame + [127] + length;
      assert frame == [0x81] + LengthField(n, 0);
    }
    frame := frame + message;
  }

  /** Shifting right by i bytes. */
  function Shifted(n: nat, i: nat): nat
    decreases i
  {
    if i == 0 then n else Shifted(n / 256, i - 1)
  }

  method EightBytes(n: nat) returns (bytes: Blob)
    ensures bytes == BigEndian(n, 8)
  {
    hide BigEndian, Shifted;
    bytes := [];
    BigEndianNothing(Shifted(n, 8));
    var i := 8;
    while i > 0
      invariant 0 <= i <= 8
      invariant bytes == BigEndian(Shifted(n, i), 8 - i)
    {
      i := i - 1;
      BigEndianMore(n, i, 8 - i);
      bytes := bytes + [Shifted(n, i) % 256];
    }
    ShiftedNone(n);
  }

  lemma ShiftedNone(n: nat)
    ensures Shifted(n, 0) == n
  {
  }

  lemma BigEndianTwo(n: nat)
    ensures BigEndian(n, 2) == [n / 256 % 256, n % 256]
  {
    assert BigEndian(n / 256, 1) == BigEndian(n / 256 / 256, 0) + [n / 256 % 256];
    assert BigEndian(n, 2) == BigEndian(n / 256, 1) + [n % 256];
  }

  lemma BigEndianNothing(n: nat)
    ensures BigEndian(n, 0) == []
  {
  }

  lemma {:induction false} ShiftedMore(n: nat, i: nat)
    ensures Shifted(n, i + 1) == Shifted(n, i) / 256
    decreases i
  {
    if i > 0 {
      ShiftedMore(n / 256, i - 1);
    }
  }

  lemma BigEndianMore(n: nat, i: nat, width: nat)
    requires width > 0
    ensures BigEndian(Shifted(n, i), width) == BigEndian(Shifted(n, i + 1), width - 1) + [Shifted(n, i) % 256]
  {
    hide Shifted;
    ShiftedMore(n, i);
  }

  /** The receive loop on the chunks recv returns. */
  method HandleClient(chunks: seq<Blob>) returns (messages: seq<Blob>, pending: Blob, end: Ending)
    ensures Drained(messages, pending, end) == Handled(chunks)
  {
    hide Drain;
    messages, pending, end := [], [], Open;
    for i := 0 to |chunks|
      invariant Handled(chunks[..i]) == Drained(messages, pending, Open) && end.Open?
    {
      assert chunks[..i + 1][..i] == chunks[..i];
      pending := pending + chunks[i];
      var more;
      more, pending, end := DrainFrames(pending);
      messages := messages + more;
      if end.Open? && |pending| > LIMIT {
        end := Overflowed;
      }
      assert Handled(chunks[..i + 1]) == Drained(messages, pending, end);
      if !end.Open? {
        HandledStops(chunks, i + 1);
        return;
      }
    }
    assert chunks[..|chunks|] == chunks;
  }

  /** The inner loop: takes whole frames off the pending buffer. */
  method DrainFrames(buffer: Blob) returns (messages: seq<Blob>, pending: Blob, end: Ending)
    ensures Drained(messages, pending, end) == Drain(buffer)
  {
    hide Drain, FrameSize, ParseFrame;
    messages, pending, end := [], buffer, Open;
    DrainedStart(buffer);
    while true
      invariant Drain(buffer) == After(messages, Drain(pending)) && end.Open?
      decreases |pending|
    {
      var size := CompleteFrameSize(pending);
      DrainStep(pending, messages);
      if size == 0 || size > |pending| {
        return;
      }
      var frame := pending[..size];
      pending := pending[size..];
      if frame[0] % 16 == 8 {
        end := Closed;
        return;
      }
      var message := ParseWebSocketFrame(frame);
      if message.None? {
        end := Thrown;
        return;
      }
      if message.value != [] {
        messages := messages + [message.value];
      }
    }
  }

  function After(messages: seq<Blob>, d: Drained): Drained {
    Drained(messages + d.messages, d.pending, d.end)
  }

  lemma DrainedStart(buffer: Blob)
    ensures Drain(buffer) == After([], Drain(buffer))
  {
    hide Drain;
    assert [] + Drain(buffer).messages == Drain(buffer).messages;
  }

  lemma DrainStep(pending: Blob, messages: seq<Blob>)
    ensures !Whole(pending) ==> After(messages, Drain(pending)) == Drained(messages, pending, Open)
    ensures Whole(pending) && !EndingOf(pending[..FrameSize(pending)]).Open? ==>
              After(messages, Drain(pending)) == Drained(messages, pending[FrameSize(pending)..], EndingOf(pending[..FrameSize(pending)]))
    ensures Whole(pending) && EndingOf(pending[..FrameSize(pending)]).Open? ==>
              After(messages, Drain(pending))
              == After(messages + Delivered(pending[..FrameSize(pending)]), Drain(pending[FrameSize(pending)..]))
  {
    hide FrameSize, ParseFrame, EndingOf, Delivered;
    if Whole(pending) && EndingOf(pending[..FrameSize(pending)]).Open? {
      var first := Delivered(pending[..FrameSize(pending)]);
      var rest := Drain(pending[FrameSize(pending)..]).messages;
      assert messages + (first + rest) == messages + first + rest;
    } else {
      assert messages + [] == messages;
    }
  }
}
