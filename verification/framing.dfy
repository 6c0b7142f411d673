/**
 * The native-messaging wire format: a 4-byte little-endian length, then
 * that many bytes of UTF-8 JSON. `ReadMessage` is the host's
 * `read_message`, `SendMessage` its `send_message`.
 */
module Framing {
  import opened Results
  import opened Bytes
  import Json
  import ResponseJson

  /** The largest declared length the host accepts (1 MiB). */
  const MaxMessageLength: nat := 1024 * 1024

  /** What the first reads of standard input produce. */
  datatype Frame =
    | EndOfInput                  // fewer than 4 bytes: `sys.exit(0)`
    | Oversized                   // declared length above the cap
    | Payload(bytes: seq<byte>)   // the bytes `read(n)` returned, possibly fewer than declared

  function Min(a: int, b: int): (m: int) {
    if a <= b then a else b
  }

  /** Reads the prefix and then at most the declared number of payload bytes. */
  function ReadFrame(stdin: seq<byte>): (f: Frame)
    ensures f.EndOfInput? <==> |stdin| < 4
    ensures f.Oversized? <==> |stdin| >= 4 && DecodeU32(stdin[..4]) > MaxMessageLength
    ensures f.Payload? ==>
              |f.bytes| <= DecodeU32(stdin[..4]) <= MaxMessageLength &&
              4 + |f.bytes| <= |stdin| && f.bytes == stdin[4..4 + |f.bytes|] &&
              (|f.bytes| == DecodeU32(stdin[..4]) || 4 + |f.bytes| == |stdin|)
  {
    if |stdin| < 4 then EndOfInput
    else
      var n := DecodeU32(stdin[..4]);
      if n > MaxMessageLength then Oversized
      else
        Payload(stdin[4..Min(4 + n, |stdin|)])
  }

  /** The outcome of `read_message`. */
  datatype ReadResult =
    | Closed                       // clean end of input: exit 0, nothing written
    | Received(message: Json.Value)
    | ReadFailed(error: string)    // the text of the exception raised

  /**
   * `read_message`. UTF-8 decoding followed by `json.loads` is the
   * parameter `decode`, which may fail with an error text.
   */
  function ReadMessage(stdin: seq<byte>, decode: seq<byte> -> Result<Json.Value>): (r: ReadResult)
    ensures r.Closed? <==> |stdin| < 4
    ensures |stdin| >= 4 && DecodeU32(stdin[..4]) > MaxMessageLength ==> r == ReadFailed("Message too large")
    ensures r.Received? <==> ReadFrame(stdin).Payload? && decode(ReadFrame(stdin).bytes).Ok?
    ensures r.Received? ==> decode(ReadFrame(stdin).bytes) == Ok(r.message)
    ensures ReadFrame(stdin).Payload? && r.ReadFailed? ==> decode(ReadFrame(stdin).bytes) == Err(r.error)
  {
    match ReadFrame(stdin)
    case EndOfInput => Closed
    case Oversized => ReadFailed("Message too large")
    case Payload(p) =>
      match decode(p)
      case Ok(v) => Received(v)
      case Err(e) => ReadFailed(e)
  }

  /** The frame `send_message` writes around a payload. */
  function WriteFrame(payload: seq<byte>): (f: seq<byte>)
    requires |payload| < U32Limit
    ensures |f| == 4 + |payload| && f[4..] == payload
    ensures DecodeU32(f[..4]) == |payload|
  {
    DecodeEncodeU32(|payload|);
    var f := EncodeU32(|payload|) + payload;
    assert f[..4] == EncodeU32(|payload|);
    f
  }

  /** UTF-8 encoding of ASCII text: one byte per character, with the same code. */
  function AsciiBytes(t: string): (b: seq<byte>)
    requires ResponseJson.IsAscii(t)
    ensures |b| == |t|
    ensures forall i :: 0 <= i < |b| ==> b[i] as int == t[i] as int
  {
    seq(|t|, i requires 0 <= i < |t| => assert t[i] in t; t[i] as int as byte)
  }

  /** The text `OverflowError` carries when `to_bytes(4, ...)` is given a length of 2^32 or more. */
  const OverflowText: string := "int too big to convert"

  /**
   * `send_message(response)`: the JSON text, as bytes, behind its length
   * prefix. A payload of 2^32 bytes or more cannot be prefixed and raises
   * before anything is written.
   */
  function SendMessage(r: ResponseJson.Response): (w: Result<seq<byte>>)
    ensures w.Err? <==> |ResponseJson.Encode(r)| >= U32Limit
    ensures w.Err? ==> w.error == OverflowText
    ensures w.Ok? ==> |w.value| == 4 + |ResponseJson.Encode(r)|
    ensures w.Ok? ==> DecodeU32(w.value[..4]) == |w.value| - 4
  {
    var payload := AsciiBytes(ResponseJson.Encode(r));
    if |payload| >= U32Limit then Err(OverflowText) else Ok(WriteFrame(payload))
  }

  /** Any response whose text is shorter than 2^28 characters can be framed. */
  lemma ShortResponsesFit(r: ResponseJson.Response)
    requires |ResponseJson.TextOf(r)| < 0x1000_0000
    ensures SendMessage(r).Ok?
  {
  }

  // ---------------------------------------------------------------------------
  // The reader at the other end

  /** Bytes below 0x80 read back as characters; `None` if any byte is not ASCII. */
  function AsciiText(b: seq<byte>): (t: Option<string>)
    ensures t.Some? ==> |t.value| == |b|
  {
    if forall i :: 0 <= i < |b| ==> b[i] < 0x80
    then Some(seq(|b|, i requires 0 <= i < |b| => b[i] as int as char))
    else None
  }

  /** How the browser reads one response frame: the prefix must give the exact payload length. */
  function ReadResponseFrame(f: seq<byte>): (r: Option<ResponseJson.Response>) {
    if |f| < 4 || DecodeU32(f[..4]) != |f| - 4 then None
    else
      match AsciiText(f[4..])
      case None => None
      case Some(t) => ResponseJson.Parse(t)
  }

  lemma AsciiRoundTrip(t: string)
    requires ResponseJson.IsAscii(t)
    ensures AsciiText(AsciiBytes(t)) == Some(t)
  {
    var b := AsciiBytes(t);
    forall i | 0 <= i < |b|
      ensures b[i] < 0x80
    {
      assert t[i] in t;
    }
    var u := seq(|b|, i requires 0 <= i < |b| => b[i] as int as char);
    assert forall i :: 0 <= i < |b| ==> u[i] == t[i];
    assert u == t;
  }

  /** Every frame the host writes is one well-formed frame holding exactly the response sent. */
  lemma SendReadRoundTrip(r: ResponseJson.Response)
    requires SendMessage(r).Ok?
    ensures ReadResponseFrame(SendMessage(r).value) == Some(r)
  {
    var t := ResponseJson.Encode(r);
    var f := SendMessage(r).value;
    assert f[4..] == AsciiBytes(t);
    AsciiRoundTrip(t);
    ResponseJson.RoundTrip(r);
  }

  /**
   * A frame written around any payload within the cap is read back by the
   * host's own reader as that payload, whatever follows it.
   */
  lemma WriteReadFrame(payload: seq<byte>, rest: seq<byte>)
    requires |payload| <= MaxMessageLength
    ensures ReadFrame(WriteFrame(payload) + rest) == Payload(payload)
  {
    var s := WriteFrame(payload) + rest;
    assert s[..4] == WriteFrame(payload)[..4];
    assert s[4..4 + |payload|] == payload;
  }

  /**
   * An oversized length is refused on the prefix alone: the bytes after
   * it and the decoder are never consulted.
   */
  lemma OversizeRejectedBeforePayload(prefix: seq<byte>, p1: seq<byte>, p2: seq<byte>,
                                      d1: seq<byte> -> Result<Json.Value>, d2: seq<byte> -> Result<Json.Value>)
    requires |prefix| == 4 && DecodeU32(prefix) > MaxMessageLength
    ensures ReadMessage(prefix + p1, d1) == ReadMessage(prefix + p2, d2) == ReadFailed("Message too large")
  {
    assert (prefix + p1)[..4] == prefix;
    assert (prefix + p2)[..4] == prefix;
  }

  /** A declared length of exactly 1 MiB is not refused: its payload goes to the decoder. */
  lemma CapIsInclusive(stdin: seq<byte>, decode: seq<byte> -> Result<Json.Value>)
    requires |stdin| >= 4 + MaxMessageLength && DecodeU32(stdin[..4]) == MaxMessageLength
    ensures ReadFrame(stdin) == Payload(stdin[4..4 + MaxMessageLength])
    ensures decode(stdin[4..4 + MaxMessageLength]).Ok? ==>
              ReadMessage(stdin, decode) == Received(decode(stdin[4..4 + MaxMessageLength]).value)
  {
  }
}
