// The callback socket's frame codec (callback_wire.go): a 4-byte big-endian length and
// that many bytes of JSON. JSON validity is the parameter `valid`.
module CallbackWire {
  import opened Text

  const HEADER_BYTES: nat := 4
  const CALLBACK_MAX_FRAME_BYTES: nat := 65536

  datatype FrameError = TooLarge | Malformed

  // ---- Encoding ---------------------------------------------------------

  function PutUint32(n: nat): (h: seq<byte>)
    requires n < 0x1_0000_0000
    ensures |h| == HEADER_BYTES
  {
    [n / 0x100_0000, n / 0x1_0000 % 256, n / 256 % 256, n % 256]
  }

  function Uint32(h: seq<byte>): (n: nat)
    requires |h| == HEADER_BYTES
  {
    var a: int, b: int, c: int, d: int := h[0], h[1], h[2], h[3];
    ((a * 256 + b) * 256 + c) * 256 + d
  }

  lemma HeaderRoundTrip(n: nat)
    requires n < 0x1_0000_0000
    ensures Uint32(PutUint32(n)) == n
  {
    assert n / 0x100_0000 == n / 256 / 256 / 256;
    assert n / 0x1_0000 == n / 256 / 256;
  }

  datatype Encoded = Frame(bytes: seq<byte>) | Refused(error: FrameError)

  function Encode(body: seq<byte>): Encoded {
    if |body| > CALLBACK_MAX_FRAME_BYTES then Refused(TooLarge) else Frame(PutUint32(|body|) + body)
  }

  // ---- The decoder on a whole stream ------------------------------------

  // The payloads of a stream's complete frames, the bytes after the last one, and the
  // failure that stopped the decoder.
  datatype Parsed = Parsed(payloads: seq<seq<byte>>, rest: seq<byte>, failure: Option<FrameError>)

  function Parse(valid: seq<byte> -> bool, maxBytes: nat, s: seq<byte>): (r: Parsed)
    ensures r.failure.None? ==> |r.rest| < HEADER_BYTES + maxBytes
    decreases |s|
  {
    if |s| < HEADER_BYTES then Parsed([], s, None)
    else
      var length := Uint32(s[..HEADER_BYTES]);
      if length > maxBytes then Parsed([], s, Some(TooLarge))
      else if |s| < HEADER_BYTES + length then Parsed([], s, None)
      else
        var body := s[HEADER_BYTES..HEADER_BYTES + length];
        if !valid(body) then Parsed([], s, Some(Malformed))
        else
          var later := Parse(valid, maxBytes, s[HEADER_BYTES + length..]);
          later.(payloads := [body] + later.payloads)
  }

  // The end of the frame a stream starts with, when it is complete and well formed.
  predicate StartsWithFrame(valid: seq<byte> -> bool, maxBytes: nat, s: seq<byte>, end: nat) {
    && HEADER_BYTES <= end <= |s|
    && end == HEADER_BYTES + Uint32(s[..HEADER_BYTES]) <= HEADER_BYTES + maxBytes
    && valid(s[HEADER_BYTES..end])
  }

  lemma ParseFrame(valid: seq<byte> -> bool, maxBytes: nat, s: seq<byte>, end: nat)
    requires StartsWithFrame(valid, maxBytes, s, end)
    ensures var later := Parse(valid, maxBytes, s[end..]);
            Parse(valid, maxBytes, s) == Parsed([s[HEADER_BYTES..end]] + later.payloads, later.rest, later.failure)
  {
    hide Uint32;
  }

  lemma FrameAppend(valid: seq<byte> -> bool, maxBytes: nat, a: seq<byte>, b: seq<byte>, end: nat)
    requires StartsWithFrame(valid, maxBytes, a, end)
    ensures StartsWithFrame(valid, maxBytes, a + b, end)
    ensures (a + b)[HEADER_BYTES..end] == a[HEADER_BYTES..end] && (a + b)[end..] == a[end..] + b
  {
    hide Uint32;
    assert (a + b)[..HEADER_BYTES] == a[..HEADER_BYTES];
    assert (a + b)[HEADER_BYTES..end] == a[HEADER_BYTES..end];
  }

  // A stream that does not start with a frame either fails at once or waits.
  lemma NoFrame(valid: seq<byte> -> bool, maxBytes: nat, a: seq<byte>, b: seq<byte>)
    requires forall end :: !StartsWithFrame(valid, maxBytes, a, end)
    ensures var p := Parse(valid, maxBytes, a); p == Parsed([], a, p.failure)
    ensures var p := Parse(valid, maxBytes, a); var q := Parse(valid, maxBytes, a + b);
            p.failure.Some? ==> q.failure == p.failure && q.payloads == []
  {
    hide Uint32;
    if |a| >= HEADER_BYTES {
      assert (a + b)[..HEADER_BYTES] == a[..HEADER_BYTES];
      var end := HEADER_BYTES + Uint32(a[..HEADER_BYTES]);
      assert !StartsWithFrame(valid, maxBytes, a, end);
      if |a| >= end { assert (a + b)[HEADER_BYTES..end] == a[HEADER_BYTES..end]; }
    }
  }

  // The three ways the decoder stops at the start of a buffer.
  lemma Stops(valid: seq<byte> -> bool, maxBytes: nat, s: seq<byte>)
    ensures |s| < HEADER_BYTES ==> Parse(valid, maxBytes, s) == Parsed([], s, None)
    ensures |s| >= HEADER_BYTES ==>
              var end := HEADER_BYTES + Uint32(s[..HEADER_BYTES]);
              && (end > HEADER_BYTES + maxBytes ==> Parse(valid, maxBytes, s) == Parsed([], s, Some(TooLarge)))
              && (|s| < end <= HEADER_BYTES + maxBytes ==> Parse(valid, maxBytes, s) == Parsed([], s, None))
              && (end <= |s| && end <= HEADER_BYTES + maxBytes && !valid(s[HEADER_BYTES..end]) ==>
                    Parse(valid, maxBytes, s) == Parsed([], s, Some(Malformed)))
  {
    hide Uint32;
  }

  // The outcome of parsing a and then b.
  predicate Continues(first: Parsed, next: Parsed, joined: Parsed) {
    if first.failure.Some? then joined.failure == first.failure && joined.payloads == first.payloads
    else joined == Parsed(first.payloads + next.payloads, next.rest, next.failure)
  }

  // Parsing a and then b is parsing the joined stream, as long as a does not fail; and
  // once a fails nothing that follows changes what was decoded or why it failed.
  lemma {:induction false} ParseAppend(valid: seq<byte> -> bool, maxBytes: nat, a: seq<byte>, b: seq<byte>)
    ensures var first := Parse(valid, maxBytes, a);
            Continues(first, Parse(valid, maxBytes, first.rest + b), Parse(valid, maxBytes, a + b))
    decreases |a|
  {
    hide Parse, Uint32;
    if end: nat :| StartsWithFrame(valid, maxBytes, a, end) {
      FrameAppend(valid, maxBytes, a, b, end);
      ParseFrame(valid, maxBytes, a, end);
      ParseFrame(valid, maxBytes, a + b, end);
      ParseAppend(valid, maxBytes, a[end..], b);
      var first := Parse(valid, maxBytes, a[end..]);
      var next := Parse(valid, maxBytes, first.rest + b);
      var body := [a[HEADER_BYTES..end]];
      assert body + (first.payloads + next.payloads) == body + first.payloads + next.payloads;
    } else {
      NoFrame(valid, maxBytes, a, b);
      var next := Parse(valid, maxBytes, a + b);
      assert [] + next.payloads == next.payloads;
    }
  }

  function Concat(chunks: seq<seq<byte>>): seq<byte> {
    if chunks == [] then [] else chunks[0] + Concat(chunks[1..])
  }

  predicate Encodable(valid: seq<byte> -> bool, maxBytes: nat, payloads: seq<seq<byte>>) {
    forall i | 0 <= i < |payloads| ::
      valid(payloads[i]) && |payloads[i]| <= maxBytes && |payloads[i]| <= CALLBACK_MAX_FRAME_BYTES
  }

  function EncodeAll(payloads: seq<seq<byte>>): seq<byte>
    requires forall i | 0 <= i < |payloads| :: |payloads[i]| <= CALLBACK_MAX_FRAME_BYTES
  {
    if payloads == [] then [] else Encode(payloads[0]).bytes + EncodeAll(payloads[1..])
  }

  // A payload is refused exactly when it is longer than 64 KiB.
  lemma EncodeRefusesExactly(body: seq<byte>)
    ensures Encode(body) == Refused(TooLarge) <==> |body| > 65536
    ensures Encode(body).Frame? <==> |body| <= 65536
    ensures |body| <= 65536 ==> |Encode(body).bytes| == HEADER_BYTES + |body| && body == Encode(body).bytes[HEADER_BYTES..]
  {
  }

  // Decoding encoded payloads gives them back, with nothing left over.
  lemma {:induction false} ParseEncoded(valid: seq<byte> -> bool, maxBytes: nat, payloads: seq<seq<byte>>)
    requires Encodable(valid, maxBytes, payloads)
    ensures Parse(valid, maxBytes, EncodeAll(payloads)) == Parsed(payloads, [], None)
  {
    if payloads != [] {
      var body, later := payloads[0], EncodeAll(payloads[1..]);
      ParseEncoded(valid, maxBytes, payloads[1..]);
      HeaderRoundTrip(|body|);
      hide Parse, PutUint32, Uint32;
      var header := PutUint32(|body|);
      var s := header + body + later;
      assert EncodeAll(payloads) == s;
      assert s[..HEADER_BYTES] == header;
      var end := HEADER_BYTES + |body|;
      assert s[HEADER_BYTES..end] == body && s[end..] == later;
      assert StartsWithFrame(valid, maxBytes, s, end);
      ParseFrame(valid, maxBytes, s, end);
      assert [body] + payloads[1..] == payloads;
    } else {
      Stops(valid, maxBytes, []);
    }
  }

  // ---- The decoder, chunk by chunk --------------------------------------

  datatype Decoder = Decoder(buf: seq<byte>, failure: Option<FrameError>)

  datatype Pushed = Pushed(decoder: Decoder, out: seq<seq<byte>>)

  // One Push: after a failure nothing is emitted, not even payloads completed earlier
  // in the failing chunk.
  function DecodeChunk(valid: seq<byte> -> bool, maxBytes: nat, d: Decoder, chunk: seq<byte>): (r: Pushed)
    ensures d.failure.Some? ==> r.decoder == d && r.out == []
  {
    if d.failure.Some? then Pushed(d, [])
    else
      var parsed := Parse(valid, maxBytes, d.buf + chunk);
      Pushed(Decoder(parsed.rest, parsed.failure), if parsed.failure.Some? then [] else parsed.payloads)
  }

  function PushAll(valid: seq<byte> -> bool, maxBytes: nat, d: Decoder, chunks: seq<seq<byte>>): Pushed
    decreases chunks
  {
    if chunks == [] then Pushed(d, [])
    else
      var first := DecodeChunk(valid, maxBytes, d, chunks[0]);
      var later := PushAll(valid, maxBytes, first.decoder, chunks[1..]);
      Pushed(later.decoder, first.out + later.out)
  }

  predicate Waiting(valid: seq<byte> -> bool, maxBytes: nat, d: Decoder) {
    d.failure.None? && Parse(valid, maxBytes, d.buf) == Parsed([], d.buf, None)
  }

  lemma {:induction false} Reparse(valid: seq<byte> -> bool, maxBytes: nat, s: seq<byte>)
    requires Parse(valid, maxBytes, s).failure.None?
    ensures var rest := Parse(valid, maxBytes, s).rest; Parse(valid, maxBytes, rest) == Parsed([], rest, None)
    decreases |s|
  {
    if |s| >= HEADER_BYTES {
      var end := HEADER_BYTES + Uint32(s[..HEADER_BYTES]);
      if |s| >= end { Reparse(valid, maxBytes, s[end..]); }
    }
  }

  lemma {:induction false} FailedEmitsNothing(valid: seq<byte> -> bool, maxBytes: nat, d: Decoder, chunks: seq<seq<byte>>)
    requires d.failure.Some?
    ensures PushAll(valid, maxBytes, d, chunks) == Pushed(d, [])
    decreases chunks
  {
    if chunks != [] { FailedEmitsNothing(valid, maxBytes, d, chunks[1..]); }
  }

  // For every way of cutting a stream: if the stream is good, what is emitted is
  // exactly its payloads and what stays buffered is its unfinished frame; if it is bad,
  // what is emitted is a prefix of the payloads before the bad frame and the decoder
  // ends in the stream's own failure.
  lemma {:induction false} AnyChunking(valid: seq<byte> -> bool, maxBytes: nat, d: Decoder, chunks: seq<seq<byte>>)
    requires Waiting(valid, maxBytes, d)
    ensures var parsed := Parse(valid, maxBytes, d.buf + Concat(chunks));
            var r := PushAll(valid, maxBytes, d, chunks);
            && r.decoder.failure == parsed.failure
            && r.out <= parsed.payloads
            && (parsed.failure.None? ==> r.out == parsed.payloads && r.decoder.buf == parsed.rest
                                         && |r.decoder.buf| < HEADER_BYTES + maxBytes)
    decreases chunks
  {
    hide Parse;
    if chunks == [] {
      assert d.buf + [] == d.buf;
    } else {
      var first := DecodeChunk(valid, maxBytes, d, chunks[0]);
      var tail := Concat(chunks[1..]);
      ParseAppend(valid, maxBytes, d.buf + chunks[0], tail);
      assert d.buf + chunks[0] + tail == d.buf + Concat(chunks);
      if first.decoder.failure.Some? {
        FailedEmitsNothing(valid, maxBytes, first.decoder, chunks[1..]);
      } else {
        Reparse(valid, maxBytes, d.buf + chunks[0]);
        AnyChunking(valid, maxBytes, first.decoder, chunks[1..]);
      }
    }
  }

  // The round trip: encoded payloads, cut anywhere, come out as they went in.
  lemma RoundTrip(valid: seq<byte> -> bool, maxBytes: nat, payloads: seq<seq<byte>>, chunks: seq<seq<byte>>)
    requires Encodable(valid, maxBytes, payloads) && Concat(chunks) == EncodeAll(payloads)
    ensures PushAll(valid, maxBytes, Decoder([], None), chunks) == Pushed(Decoder([], None), payloads)
  {
    ParseEncoded(valid, maxBytes, payloads);
    AnyChunking(valid, maxBytes, Decoder([], None), chunks);
    assert [] + Concat(chunks) == Concat(chunks);
  }

  // Good payloads and then something else: the decoder gets past the payloads, and does
  // with the rest what it would do with it alone.
  lemma AfterPayloads(valid: seq<byte> -> bool, maxBytes: nat, payloads: seq<seq<byte>>, rest: seq<byte>)
    requires Encodable(valid, maxBytes, payloads)
    ensures var alone := Parse(valid, maxBytes, rest);
            Parse(valid, maxBytes, EncodeAll(payloads) + rest) == Parsed(payloads + alone.payloads, alone.rest, alone.failure)
  {
    ParseEncoded(valid, maxBytes, payloads);
    ParseAppend(valid, maxBytes, EncodeAll(payloads), rest);
    assert [] + rest == rest;
  }

  // A header that announces too much, wherever it stands in a stream and however the
  // stream is cut: the decoder ends in that failure, whatever follows, and has emitted
  // payloads from before it only.
  lemma OversizeIsRefused(valid: seq<byte> -> bool, maxBytes: nat, payloads: seq<seq<byte>>, header: seq<byte>,
                          rest: seq<byte>, chunks: seq<seq<byte>>)
    requires Encodable(valid, maxBytes, payloads) && |header| == HEADER_BYTES && Uint32(header) > maxBytes
    requires Concat(chunks) == EncodeAll(payloads) + (header + rest)
    ensures var r := PushAll(valid, maxBytes, Decoder([], None), chunks);
            r.decoder.failure == Some(TooLarge) && r.out <= payloads
  {
    hide Parse, Uint32;
    AfterPayloads(valid, maxBytes, payloads, header + rest);
    assert (header + rest)[..HEADER_BYTES] == header;
    Stops(valid, maxBytes, header + rest);
    Stops(valid, maxBytes, []);
    assert [] + Concat(chunks) == Concat(chunks);
    AnyChunking(valid, maxBytes, Decoder([], None), chunks);
    assert payloads + [] == payloads;
  }

  // The same of a frame whose payload is not valid.
  lemma MalformedIsRefused(valid: seq<byte> -> bool, maxBytes: nat, payloads: seq<seq<byte>>, body: seq<byte>,
                           rest: seq<byte>, chunks: seq<seq<byte>>)
    requires Encodable(valid, maxBytes, payloads) && |body| <= maxBytes && |body| <= CALLBACK_MAX_FRAME_BYTES && !valid(body)
    requires Concat(chunks) == EncodeAll(payloads) + (Encode(body).bytes + rest)
    ensures var r := PushAll(valid, maxBytes, Decoder([], None), chunks);
            r.decoder.failure == Some(Malformed) && r.out <= payloads
  {
    HeaderRoundTrip(|body|);
    hide Parse, PutUint32, Uint32;
    var s := Encode(body).bytes + rest;
    AfterPayloads(valid, maxBytes, payloads, s);
    assert s[..HEADER_BYTES] == PutUint32(|body|) && s[HEADER_BYTES..HEADER_BYTES + |body|] == body;
    Stops(valid, maxBytes, s);
    Stops(valid, maxBytes, []);
    assert [] + Concat(chunks) == Concat(chunks);
    AnyChunking(valid, maxBytes, Decoder([], None), chunks);
    assert payloads + [] == payloads;
  }

  // ---- The decoder as it runs -------------------------------------------

  class FrameDecoder {
    const valid: seq<byte> -> bool
    const maxBytes: nat
    var buf: seq<byte>
    var frameBytes: nat
    var failure: Option<FrameError>

    // A header that has been read is remembered with the frame it announces.
    ghost predicate Consistent()
      reads this
    {
      failure.None? ==>
        frameBytes == if |buf| < HEADER_BYTES then 0 else HEADER_BYTES + Uint32(buf[..HEADER_BYTES])
    }

    ghost function State(): Decoder
      reads this
    {
      Decoder(buf, failure)
    }

    constructor (valid: seq<byte> -> bool, maxBytes: nat)
      ensures Consistent() && State() == Decoder([], None) && this.valid == valid && this.maxBytes == maxBytes
    {
      this.valid, this.maxBytes := valid, maxBytes;
      buf, frameBytes, failure := [], 0, None;
    }

    method Push(chunk: seq<byte>) returns (out: seq<seq<byte>>, error: Option<FrameError>)
      requires Consistent() && (failure.None? ==> Waiting(valid, maxBytes, State()))
      modifies this
      ensures Consistent() && (failure.None? ==> Waiting(valid, maxBytes, State()))
      ensures State() == DecodeChunk(valid, maxBytes, old(State()), chunk).decoder
      ensures out == DecodeChunk(valid, maxBytes, old(State()), chunk).out && error == failure
    {
      hide Uint32, Parse;
      if failure.Some? { return [], failure; }
      out := [];
      if chunk == [] {
        assert buf + chunk == buf;
        return [], None;
      }
      var stream := buf + chunk;
      Stops(valid, maxBytes, buf);
      if |buf| >= HEADER_BYTES { assert stream[..HEADER_BYTES] == buf[..HEADER_BYTES]; }
      buf := stream;
      while true
        invariant failure.None? && Announced()
        invariant var later := Parse(valid, maxBytes, buf);
                  Parse(valid, maxBytes, stream) == Parsed(out + later.payloads, later.rest, later.failure)
        decreases |buf|
      {
        var body := NextPayload();
        if body.None? { break; }
        ghost var later := Parse(valid, maxBytes, buf);
        assert out + ([body.value] + later.payloads) == out + [body.value] + later.payloads;
        out := out + [body.value];
      }
      assert out + [] == out;
      if failure.Some? { out := []; }
      error := failure;
    }

    // A frame length that is set is the one the buffer's header announces.
    ghost predicate Announced()
      reads this
    {
      frameBytes != 0 ==> |buf| >= HEADER_BYTES && frameBytes == HEADER_BYTES + Uint32(buf[..HEADER_BYTES]) <= HEADER_BYTES + maxBytes
    }

    // Takes the frame at the front of the buffer if it is complete; otherwise the buffer
    // stays, and so does the reason.
    method NextPayload() returns (body: Option<seq<byte>>)
      requires failure.None? && Announced()
      modifies this
      ensures body.Some? ==>
                && failure.None? && frameBytes == 0 && |buf| < |old(buf)|
                && var later := Parse(valid, maxBytes, buf);
                   Parse(valid, maxBytes, old(buf)) == Parsed([body.value] + later.payloads, later.rest, later.failure)
      ensures body.None? ==>
                && buf == old(buf) && Consistent()
                && Parse(valid, maxBytes, buf) == Parsed([], buf, failure)
    {
      hide Uint32, Parse;
      Stops(valid, maxBytes, buf);
      body := None;
      if |buf| < HEADER_BYTES { return; }
      var length := Uint32(buf[..HEADER_BYTES]);
      if frameBytes == 0 {
        if length > maxBytes {
          failure := Some(TooLarge);
          return;
        }
        frameBytes := HEADER_BYTES + length;
      }
      if |buf| < frameBytes { return; }
      if !valid(buf[HEADER_BYTES..frameBytes]) {
        failure := Some(Malformed);
        return;
      }
      ParseFrame(valid, maxBytes, buf, frameBytes);
      body := Some(buf[HEADER_BYTES..frameBytes]);
      buf := buf[frameBytes..];
      frameBytes := 0;
    }
  }
}
