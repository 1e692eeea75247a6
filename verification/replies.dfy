/** How a response is going to be framed (src/server/encoding.rs,
    src/server/h1writer.rs), and what a client makes of it
    (src/client/parser.rs). Identity content encoding only. */
module Replies {
  import opened Bytes
  import opened Decimal
  import opened Header
  import opened TransferEncoding

  const CONNECTION: Data := Ascii("connection")
  const TRANSFER_ENCODING: Data := Ascii("transfer-encoding")
  const CHUNKED: Data := Ascii("chunked")

  datatype Request = Request(isHead: bool, version: Version, keepAlive: bool)

  datatype Body = Empty | Binary(bytes: Data) | Streaming

  datatype Reply = Reply(
    status: nat,
    reason: Data,
    version: Option<Version>,
    fields: seq<Field>,
    chunked: Option<bool>,
    upgrade: bool,
    keepAlive: Option<bool>,
    capacity: nat)

  // ---- Header maps ----

  function Get(fields: seq<Field>, name: Data): (value: Option<Data>) {
    if fields == [] then None
    else if fields[0].name == name then Some(fields[0].value)
    else Get(fields[1..], name)
  }

  function Remove(fields: seq<Field>, name: Data): (left: seq<Field>) {
    if fields == [] then []
    else if fields[0].name == name then Remove(fields[1..], name)
    else [fields[0]] + Remove(fields[1..], name)
  }

  function Insert(fields: seq<Field>, name: Data, value: Data): (more: seq<Field>) {
    Remove(fields, name) + [Field(name, value)]
  }

  lemma {:induction false} GetAfterRemove(fields: seq<Field>, removed: Data, name: Data)
    ensures Get(Remove(fields, removed), name) == if name == removed then None else Get(fields, name)
  {
    if fields != [] {
      GetAfterRemove(fields[1..], removed, name);
    }
  }

  lemma {:induction false} GetAppend(a: seq<Field>, b: seq<Field>, name: Data)
    ensures Get(a + b, name) == if Get(a, name).Some? then Get(a, name) else Get(b, name)
  {
    if a == [] {
      assert a + b == b;
    } else {
      assert (a + b)[1..] == a[1..] + b;
      GetAppend(a[1..], b, name);
    }
  }

  lemma GetAfterInsert(fields: seq<Field>, inserted: Data, value: Data, name: Data)
    ensures Get(Insert(fields, inserted, value), name) == if name == inserted then Some(value) else Get(fields, name)
  {
    GetAfterRemove(fields, inserted, name);
    GetAppend(Remove(fields, inserted), [Field(inserted, value)], name);
  }

  /** A header value read as an unsigned 64-bit number: digits, after an
      optional plus sign. */
  function ParseU64(value: Data): (n: Option<nat>) {
    var digits := if value != [] && value[0] == 43 then value[1..] else value;
    if digits != [] && IsNumeral(digits) && NumberOf(digits) < U64 then Some(NumberOf(digits)) else None
  }

  lemma ParsesBack(n: nat)
    requires n < U64
    ensures ParseU64(Digits(n)) == Some(n)
  {
    DigitsReadBack(n);
    assert Digits(n)[0] != 43;
  }

  // ---- The server's choice ----

  datatype Plan = Plan(kind: EncodingKind, fields: seq<Field>)

  /** The framing of a streamed body. */
  function StreamingEncoding(version: Version, chunked: Option<bool>, fields: seq<Field>): (p: Plan) {
    match chunked
    case Some(true) =>
      var fields := Remove(fields, CONTENT_LENGTH);
      if version == Http2 then Plan(Eof, Remove(fields, TRANSFER_ENCODING))
      else Plan(Chunked(false), Insert(fields, TRANSFER_ENCODING, CHUNKED))
    case Some(false) => Plan(Eof, fields)
    case None =>
      match Get(fields, CONTENT_LENGTH)
      case Some(value) =>
        (match ParseU64(value)
         case Some(n) => Plan(Length(n), fields)
         case None => Plan(Eof, fields))
      case None =>
        if version == Http11 then Plan(Chunked(false), Insert(fields, TRANSFER_ENCODING, CHUNKED))
        else Plan(Eof, Remove(fields, TRANSFER_ENCODING))
  }

  function VersionOf(req: Request, reply: Reply): Version {
    if reply.version.Some? then reply.version.value else req.version
  }

  function ForServer(req: Request, reply: Reply, body: Body): (p: Plan) {
    var version := VersionOf(req, reply);
    var p :=
      match body
      case Empty => Plan(Length(0), if req.isHead then reply.fields else Remove(reply.fields, CONTENT_LENGTH))
      case Binary(bytes) =>
        Plan(Eof, if req.isHead then Insert(reply.fields, CONTENT_LENGTH, Digits(|bytes|)) else reply.fields)
      case Streaming =>
        if reply.upgrade then
          Plan(Eof, if version == Http2 then reply.fields else Insert(reply.fields, CONNECTION, Ascii("upgrade")))
        else StreamingEncoding(version, reply.chunked, reply.fields);
    if req.isHead then p.(kind := Length(0)) else p
  }

  /** The Connection header, once the encoder has been chosen. */
  /** Whether the connection is to be kept: as the reply says, or else the request. */
  function KeepsAlive(req: Request, reply: Reply): bool {
    if reply.keepAlive.Some? then reply.keepAlive.value else req.keepAlive
  }

  function WithConnection(fields: seq<Field>, version: Version, upgrade: bool, keepAlive: bool): (f: seq<Field>) {
    if upgrade then Insert(fields, CONNECTION, Ascii("upgrade"))
    else if keepAlive then
      if version.Http09? || version.Http10? then Insert(fields, CONNECTION, Ascii("keep-alive")) else fields
    else if version.Http11? || version.Http2? then Insert(fields, CONNECTION, Ascii("close"))
    else fields
  }

  /** A body that is not sent in answer to HEAD. */
  function Sent(req: Request, body: Body): Body {
    if req.isHead then Empty else body
  }

  /** What follows the reason: the length of a body that is known. */
  function LengthLine(req: Request, body: Body): (d: Data) {
    match Sent(req, body)
    case Empty => if req.isHead then [CR, LF] else CONTENT_LENGTH_LINE + Digits(0) + [CR, LF]
    case Binary(bytes) => CONTENT_LENGTH_LINE + Digits(|bytes|) + [CR, LF]
    case Streaming => [CR, LF]
  }

  function DateLine(fields: seq<Field>, date: Data): (d: Data) {
    if HasDate(fields) then [CR, LF] else Ascii("date: ") + date + [CR, LF, CR, LF]
  }

  /** The whole response head. */
  function Head(req: Request, reply: Reply, body: Body, fields: seq<Field>, date: Data): (d: Data)
    requires reply.status < CODES
  {
    StatusLine(VersionOf(req, reply), reply.status) + reply.reason + LengthLine(req, body)
    + Lines(fields, Sent(req, body).Binary?) + DateLine(fields, date)
  }
}
