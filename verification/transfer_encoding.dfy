/** The encoder of message bodies (src/server/encoding.rs), Identity content
    encoding only. */
module TransferEncoding {
  import opened Bytes

  datatype EncodingKind = Chunked(eof: bool) | Length(remaining: nat) | Eof

  predicate IsEof(k: EncodingKind) {
    k == Eof || k == Chunked(true) || k == Length(0)
  }

  function HexDigit(d: nat): (b: byte)
    requires d < 16
  {
    if d < 10 then 48 + d else 65 + (d - 10)
  }

  /** Upper-case hexadecimal without leading zeros. */
  function Hex(n: nat): (digits: Data) {
    if n < 16 then [HexDigit(n)] else Hex(n / 16) + [HexDigit(n % 16)]
  }

  const TERMINATOR: Data := [48, CR, LF, CR, LF]

  function ChunkFrame(msg: Data): (frame: Data) {
    Hex(|msg|) + [CR, LF] + msg + [CR, LF]
  }

  /** An encoder state and the bytes appended to reach it. */
  datatype Encoded = Encoded(kind: EncodingKind, out: Data)

  function EncodeMsg(k: EncodingKind, msg: Data): (e: Encoded) {
    match k
    case Eof => Encoded(k, msg)
    case Chunked(eof) =>
      if eof then Encoded(k, [])
      else if msg == [] then Encoded(Chunked(true), TERMINATOR)
      else Encoded(k, ChunkFrame(msg))
    case Length(n) => Encoded(Length(n - Min(n, |msg|)), msg[..Min(n, |msg|)])
  }

  function EncodeEnd(k: EncodingKind): (e: Encoded) {
    if k == Chunked(false) then Encoded(Chunked(true), TERMINATOR) else Encoded(k, [])
  }

  function EncodeAll(k: EncodingKind, msgs: seq<Data>): (e: Encoded)
    decreases |msgs|
  {
    if msgs == [] then Encoded(k, [])
    else
      var front := EncodeAll(k, msgs[..|msgs| - 1]);
      var last := EncodeMsg(front.kind, msgs[|msgs| - 1]);
      Encoded(last.kind, front.out + last.out)
  }

  /** The whole body: all messages, then the end. */
  function EncodeBody(k: EncodingKind, msgs: seq<Data>): (e: Encoded) {
    var all := EncodeAll(k, msgs);
    var end := EncodeEnd(all.kind);
    Encoded(end.kind, all.out + end.out)
  }

  class Encoder {
    var kind: EncodingKind
    const buffer: BytesMut

    constructor (kind: EncodingKind, buffer: BytesMut)
      ensures this.kind == kind && this.buffer == buffer
    {
      this.kind := kind;
      this.buffer := buffer;
    }

    /** Encodes one message into the shared buffer. */
    method Encode(msg: Data) returns (eof: bool)
      modifies this, buffer`data
      ensures kind == EncodeMsg(old(kind), msg).kind
      ensures buffer.data == old(buffer.data) + EncodeMsg(old(kind), msg).out
      ensures eof == (if old(kind) == Eof then msg == [] else IsEof(kind))
    {
      match kind {
        case Eof =>
          eof := |msg| == 0;
          buffer.Extend(msg);
        case Chunked(done) =>
          if done {
            return true;
          }
          if |msg| == 0 {
            kind := Chunked(true);
            buffer.Extend(TERMINATOR);
          } else {
            var line := Hex(|msg|) + [CR] + [LF];
            ghost var before := buffer.data;
            buffer.Extend(line);
            buffer.Extend(msg);
            buffer.Extend([CR, LF]);
            assert line == Hex(|msg|) + [CR, LF];
            assert buffer.data == before + ChunkFrame(msg);
          }
          eof := kind.eof;
        case Length(remaining) =>
          if remaining > 0 {
            if |msg| == 0 {
              return remaining == 0;
            }
            var len := Min(remaining, |msg|);
            buffer.Extend(msg[..len]);
            kind := Length(remaining - len);
            eof := kind.remaining == 0;
          } else {
            eof := true;
          }
      }
    }

    method EncodeEof()
      modifies this, buffer`data
      ensures kind == EncodeEnd(old(kind)).kind
      ensures buffer.data == old(buffer.data) + EncodeEnd(old(kind)).out
    {
      match kind {
        case Eof =>
        case Length(_) =>
        case Chunked(eof) =>
          if !eof {
            kind := Chunked(true);
            buffer.Extend(TERMINATOR);
          }
      }
    }
  }
}
