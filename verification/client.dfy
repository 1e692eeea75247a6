/** How a client takes a response apart (src/client/parser.rs), and when it
    gets the body that the server's handler produced. */
module Client {
  import opened Bytes
  import opened Decimal
  import opened Header
  import opened Replies
  import E = TransferEncoding
  import D = BodyDecoder
  import Framing

  // ---- The client's choice ----

  function Lower(d: Data): (l: Data) {
    seq(|d|, i requires 0 <= i < |d| => if 65 <= d[i] <= 90 then d[i] + 32 else d[i])
  }

  predicate Contains(text: Data, word: Data) {
    exists i | 0 <= i <= |text| - |word| :: StartsAt(text, word, i)
  }

  predicate StartsAt(text: Data, word: Data, i: nat) {
    i + |word| <= |text| && text[i..i + |word|] == word
  }

  /** Only visible ASCII and tabs can be read as text. */
  predicate IsText(d: Data) {
    forall i | 0 <= i < |d| :: 32 <= d[i] < 127 || d[i] == 9
  }

  datatype Choice = Framed(kind: D.Kind) | NoBody | BadHeader

  function Choose(status: nat, fields: seq<Field>): (c: Choice) {
    if status == 101 then Framed(D.Eof(false))
    else match Get(fields, CONTENT_LENGTH)
         case Some(value) =>
           (match ParseU64(value)
            case Some(n) => Framed(D.Length(n))
            case None => BadHeader)
         case None =>
           match Get(fields, TRANSFER_ENCODING)
           case None => NoBody
           case Some(value) =>
             if !IsText(value) then BadHeader
             else if Contains(Lower(value), CHUNKED) then Framed(D.Chunked(D.Size, 0))
             else NoBody
  }

  /** What the client gets out of the bytes behind the head. */
  function Receive(c: Choice, s: Data): (r: D.Outcome)
    requires c.Framed? ==> D.WellFormed(c.kind)
  {
    match c
    case Framed(kind) => D.Run(kind, s)
    case NoBody => D.Ended([], s)
    case BadHeader => D.Failed([], s)
  }

  lemma ChosenIsWellFormed(status: nat, fields: seq<Field>)
    ensures Choose(status, fields).Framed? ==> D.WellFormed(Choose(status, fields).kind)
  {}

  // ---- The header lines a client sees ----

  function WithoutFirst(fields: seq<Field>, name: Data): (left: seq<Field>) {
    if fields == [] then []
    else if fields[0].name == name then fields[1..]
    else [fields[0]] + WithoutFirst(fields[1..], name)
  }

  /** The fields behind the lines of a rendered head, in order. */
  function Seen(req: Request, body: Body, fields: seq<Field>, date: Data): (f: seq<Field>) {
    var dated := if HasDate(fields) then [] else [Field(DATE, date)];
    match Sent(req, body)
    case Empty => (if req.isHead then [] else [Field(CONTENT_LENGTH, Digits(0))]) + fields + dated
    case Binary(bytes) => [Field(CONTENT_LENGTH, Digits(|bytes|))] + WithoutFirst(fields, CONTENT_LENGTH) + dated
    case Streaming => fields + dated
  }

  function AllLines(fields: seq<Field>): (d: Data) {
    if fields == [] then [] else Line(fields[0]) + AllLines(fields[1..])
  }

  lemma {:induction false} AllLinesSplit(a: seq<Field>, b: seq<Field>)
    ensures AllLines(a + b) == AllLines(a) + AllLines(b)
  {
    if a == [] {
      assert a + b == b;
    } else {
      AllLinesSplit(a[1..], b);
      assert (a + b)[1..] == a[1..] + b;
      Assoc(Line(a[0]), AllLines(a[1..]), AllLines(b));
    }
  }

  lemma {:induction false} LinesAreFields(fields: seq<Field>, skip: bool)
    ensures Lines(fields, skip) == AllLines(if skip then WithoutFirst(fields, CONTENT_LENGTH) else fields)
  {
    if fields != [] {
      if skip && fields[0].name == CONTENT_LENGTH {
        LinesAreFields(fields[1..], false);
      } else {
        LinesAreFields(fields[1..], skip);
        if skip {
          var rest := WithoutFirst(fields[1..], CONTENT_LENGTH);
          assert ([fields[0]] + rest)[1..] == rest;
        }
      }
    }
  }

  lemma OneLine(f: Field)
    ensures AllLines([f]) == Line(f)
  {
    assert [f][1..] == [];
    assert Line(f) + [] == Line(f);
  }

  /** The rendered head is the status line, the reason, and one line for every
      field the client sees. */
  lemma HeadShowsSeen(req: Request, reply: Reply, body: Body, fields: seq<Field>, date: Data)
    requires reply.status < CODES
    ensures Head(req, reply, body, fields, date)
         == StatusLine(VersionOf(req, reply), reply.status) + reply.reason + [CR, LF]
            + AllLines(Seen(req, body, fields, date)) + [CR, LF]
  {
    var skip := Sent(req, body).Binary?;
    var shown := if skip then WithoutFirst(fields, CONTENT_LENGTH) else fields;
    var dated := if HasDate(fields) then [] else [Field(DATE, date)];
    LinesAreFields(fields, skip);
    var front :=
      match Sent(req, body)
      case Empty => if req.isHead then [] else [Field(CONTENT_LENGTH, Digits(0))]
      case Binary(bytes) => [Field(CONTENT_LENGTH, Digits(|bytes|))]
      case Streaming => [];
    assert Seen(req, body, fields, date) == front + shown + dated;
    AllLinesSplit(front + shown, dated);
    AllLinesSplit(front, shown);
    LengthLineIs(req, body, front);
    DateLineIs(fields, date, dated);
    var status := StatusLine(VersionOf(req, reply), reply.status) + reply.reason;
    LinesTogether(status, [CR, LF], AllLines(front), AllLines(shown), AllLines(dated), [CR, LF]);
  }

  lemma LinesTogether(a: Data, b: Data, c: Data, d: Data, e: Data, f: Data)
    ensures a + (b + c) + d + (e + f) == a + b + (c + d + e) + f
  {}

  lemma LengthLineIs(req: Request, body: Body, front: seq<Field>)
    requires front == match Sent(req, body)
                      case Empty => if req.isHead then [] else [Field(CONTENT_LENGTH, Digits(0))]
                      case Binary(bytes) => [Field(CONTENT_LENGTH, Digits(|bytes|))]
                      case Streaming => []
    ensures LengthLine(req, body) == [CR, LF] + AllLines(front)
  {
    if front == [] {
      assert AllLines(front) == [] && [CR, LF] + [] == [CR, LF];
    } else {
      OneLine(front[0]);
      assert front == [front[0]];
      assert CONTENT_LENGTH_LINE == [CR, LF] + (CONTENT_LENGTH + [58, 32]);
      var v := front[0].value;
      assert CONTENT_LENGTH_LINE + v + [CR, LF] == [CR, LF] + (CONTENT_LENGTH + [58, 32] + v + [CR, LF]);
    }
  }

  lemma DateLineIs(fields: seq<Field>, date: Data, dated: seq<Field>)
    requires dated == if HasDate(fields) then [] else [Field(DATE, date)]
    ensures DateLine(fields, date) == AllLines(dated) + [CR, LF]
  {
    if !HasDate(fields) {
      OneLine(dated[0]);
      assert dated == [dated[0]];
      assert Ascii("date: ") == DATE + [58, 32];
      assert Ascii("date: ") + date + [CR, LF, CR, LF] == (DATE + [58, 32] + date + [CR, LF]) + [CR, LF];
    }
  }

  // ---- Server and client together ----

  lemma NamesDiffer()
    ensures CONTENT_LENGTH != TRANSFER_ENCODING && CONNECTION != CONTENT_LENGTH && CONNECTION != TRANSFER_ENCODING
    ensures DATE != CONTENT_LENGTH && DATE != TRANSFER_ENCODING
  {
    assert |CONTENT_LENGTH| == 14 && |TRANSFER_ENCODING| == 17 && |CONNECTION| == 10 && |DATE| == 4;
  }

  function FinalFields(req: Request, reply: Reply, body: Body, keepAlive: bool): seq<Field> {
    WithConnection(ForServer(req, reply, body).fields, VersionOf(req, reply), reply.upgrade, keepAlive)
  }

  /** What decides the framing, where no length line is put in front, survives
      the Connection header and the date line. */
  lemma SeenDecides(req: Request, body: Body, fields: seq<Field>, version: Version, upgrade: bool, keepAlive: bool, date: Data, name: Data)
    requires (req.isHead || body.Streaming?) && (name == CONTENT_LENGTH || name == TRANSFER_ENCODING)
    ensures Get(Seen(req, body, WithConnection(fields, version, upgrade, keepAlive), date), name) == Get(fields, name)
  {
    NamesDiffer();
    var final := WithConnection(fields, version, upgrade, keepAlive);
    GetAfterInsert(fields, CONNECTION, Ascii("upgrade"), name);
    GetAfterInsert(fields, CONNECTION, Ascii("keep-alive"), name);
    GetAfterInsert(fields, CONNECTION, Ascii("close"), name);
    var dated := if HasDate(final) then [] else [Field(DATE, date)];
    assert [] + final + dated == final + dated;
    GetAppend(final, dated, name);
  }

  lemma ChunkedIsSeen()
    ensures IsText(CHUNKED) && Contains(Lower(CHUNKED), CHUNKED)
  {
    var word := CHUNKED;
    assert |word| == 7 && forall i | 0 <= i < |word| :: 97 <= word[i] <= 122;
    LowerIsSeen(word);
  }

  lemma LowerIsSeen(word: Data)
    requires forall i | 0 <= i < |word| :: 97 <= word[i] <= 122
    ensures IsText(word) && Contains(Lower(word), word)
  {
    assert Lower(word) == word;
    assert word[0..0 + |word|] == word;
    assert StartsAt(word, word, 0);
  }

  /** The framing headers that the server's choice leaves behind. */
  lemma PlanHeaders(version: Version, chunked: Option<bool>, fields: seq<Field>)
    ensures var p := StreamingEncoding(version, chunked, fields);
            match p.kind
            case Chunked(eof) =>
              !eof && Get(p.fields, CONTENT_LENGTH).None? && Get(p.fields, TRANSFER_ENCODING) == Some(CHUNKED)
            case Length(n) =>
              n < U64 && Get(p.fields, CONTENT_LENGTH).Some? && ParseU64(Get(p.fields, CONTENT_LENGTH).value) == Some(n)
            case Eof =>
              || (chunked == Some(false) && p.fields == fields)
              || (Get(p.fields, CONTENT_LENGTH).None? && Get(p.fields, TRANSFER_ENCODING).None?)
              || (Get(p.fields, CONTENT_LENGTH).Some? && ParseU64(Get(p.fields, CONTENT_LENGTH).value).None?)
  {
    NamesDiffer();
    var short := Remove(fields, CONTENT_LENGTH);
    GetAfterRemove(fields, CONTENT_LENGTH, CONTENT_LENGTH);
    GetAfterRemove(short, TRANSFER_ENCODING, TRANSFER_ENCODING);
    GetAfterRemove(short, TRANSFER_ENCODING, CONTENT_LENGTH);
    GetAfterRemove(fields, TRANSFER_ENCODING, TRANSFER_ENCODING);
    GetAfterRemove(fields, TRANSFER_ENCODING, CONTENT_LENGTH);
    GetAfterInsert(short, TRANSFER_ENCODING, CHUNKED, TRANSFER_ENCODING);
    GetAfterInsert(short, TRANSFER_ENCODING, CHUNKED, CONTENT_LENGTH);
    GetAfterInsert(fields, TRANSFER_ENCODING, CHUNKED, TRANSFER_ENCODING);
    GetAfterInsert(fields, TRANSFER_ENCODING, CHUNKED, CONTENT_LENGTH);
  }

  /** The client's choice for a body that follows without a length line, also
      for the answer to a HEAD request: what the server's fields say. */
  lemma StreamingChoice(req: Request, reply: Reply, body: Body, keepAlive: bool, date: Data)
    requires req.isHead || body.Streaming?
    ensures Choose(reply.status, Seen(req, body, FinalFields(req, reply, body, keepAlive), date))
         == Choose(reply.status, ForServer(req, reply, body).fields)
  {
    var fields, version := ForServer(req, reply, body).fields, VersionOf(req, reply);
    SeenDecides(req, body, fields, version, reply.upgrade, keepAlive, date, CONTENT_LENGTH);
    SeenDecides(req, body, fields, version, reply.upgrade, keepAlive, date, TRANSFER_ENCODING);
  }

  /** A body of known length is read by it. */
  lemma KnownLengthChoice(req: Request, reply: Reply, body: Body, n: nat, fields: seq<Field>, date: Data)
    requires !req.isHead && n < U64
    requires (body == Empty && n == 0) || (body.Binary? && n == |body.bytes|)
    ensures Choose(reply.status, Seen(req, body, fields, date))
         == Framed(if reply.status == 101 then D.Eof(false) else D.Length(n))
  {
    ParsesBack(n);
    var seen := Seen(req, body, fields, date);
    assert seen[0] == Field(CONTENT_LENGTH, Digits(n));
  }

  /** The messages that make up the body; the answer to HEAD has none. */
  predicate Makes(req: Request, body: Body, msgs: seq<Data>) {
    && (body.Binary? ==> |body.bytes| < U64)
    && if req.isHead then msgs == []
       else match body
            case Empty => msgs == []
            case Binary(b) => msgs == [b]
            case Streaming => Framing.AllSized(msgs)
  }

  /** A client that has read these header fields takes `data` out of `bytes`
      as the body and leaves `rest`. */
  ghost predicate ReadsAs(status: nat, fields: seq<Field>, bytes: Data, data: Data, rest: Data) {
    ChosenIsWellFormed(status, fields);
    Receive(Choose(status, fields), bytes) == D.Ended(data, rest)
  }

  ghost predicate Arrives(req: Request, reply: Reply, body: Body, msgs: seq<Data>, keepAlive: bool, date: Data, suffix: Data) {
    ReadsAs(reply.status, Seen(req, body, FinalFields(req, reply, body, keepAlive), date),
            E.EncodeBody(ForServer(req, reply, body).kind, msgs).out + suffix, Concat(msgs), suffix)
  }

  /** The fields say chunked, or cannot be read. */
  predicate SaysChunked(fields: seq<Field>) {
    match Get(fields, TRANSFER_ENCODING)
    case None => false
    case Some(value) => !IsText(value) || Contains(Lower(value), CHUNKED)
  }

  /** The fields announce a body of `n` bytes. */
  predicate Announces(fields: seq<Field>, n: nat) {
    match Get(fields, CONTENT_LENGTH)
    case Some(value) => ParseU64(value) == Some(n)
    case None => n == 0 && !SaysChunked(fields)
  }

  /** When the framing carries the body. Never with status 101, after which the
      client reads to the close; a body of known length always; chunked, unless
      an empty message cuts it short; and otherwise, as well as in answer to
      HEAD, if the header fields announce just as many bytes. */
  predicate Carried(req: Request, reply: Reply, body: Body, msgs: seq<Data>) {
    && reply.status != 101
    && if req.isHead then Announces(ForServer(req, reply, body).fields, 0)
       else body.Streaming? ==>
              if ForServer(req, reply, body).kind.Chunked? then !Framing.DropsMessages(msgs)
              else Announces(ForServer(req, reply, body).fields, |Concat(msgs)|)
  }

  /** A chunked body is longer than what it carries. */
  lemma {:induction false} ChunkedOverhead(k: D.Kind, s: Data)
    requires D.WellFormed(k) && k.Chunked?
    ensures var r := D.Run(k, s); r.Ended? ==> |r.out| + |r.rest| <= |s| && (k.state != D.End ==> |r.out| + |r.rest| < |s|)
    decreases |s|
  {
    if k.state != D.End && s != [] {
      var m := D.MoveByte(k, s[0]);
      if m.Next? {
        ChunkedOverhead(m.kind, s[1..]);
      }
    }
  }

  lemma ToTheCloseNeverEnds(s: Data)
    ensures !D.Run(D.Eof(false), s).Ended?
  {
    Framing.EofDecodes(s);
  }

  /** Bytes sent as they are, read by header fields without a partner. */
  lemma UnframedArrivesIff(status: nat, fields: seq<Field>, data: Data, suffix: Data)
    requires status != 101
    ensures ReadsAs(status, fields, data + suffix, data, suffix) <==> Announces(fields, |data|)
  {
    ChosenIsWellFormed(status, fields);
    var s := data + suffix;
    assert s[..|data|] == data && s[|data|..] == suffix;
    match Choose(status, fields) {
      case Framed(Length(n)) => Framing.LengthDecodes(n, s);
      case Framed(kind) => ChunkedOverhead(kind, s);
      case NoBody =>
        if data == [] {
          assert s == suffix;
        }
      case BadHeader =>
    }
  }

  /** A client that reads the response head and decodes what follows gets
      exactly the body, and stops exactly at its end, if and only if the framing
      carries it. */
  lemma BodyArrivesIff(req: Request, reply: Reply, body: Body, msgs: seq<Data>, keepAlive: bool, date: Data, suffix: Data)
    requires Makes(req, body, msgs)
    ensures Arrives(req, reply, body, msgs, keepAlive, date, suffix) <==> Carried(req, reply, body, msgs)
  {
    if reply.status == 101 {
      ToTheCloseNeverEnds(E.EncodeBody(ForServer(req, reply, body).kind, msgs).out + suffix);
    } else if req.isHead {
      HeadArrivesIff(req, reply, body, keepAlive, date, suffix);
    } else {
      match body {
        case Empty => ArrivesEmpty(req, reply, keepAlive, date, suffix);
        case Binary(b) => ArrivesBinary(req, reply, b, keepAlive, date, suffix);
        case Streaming => StreamedArrivesIff(req, reply, msgs, keepAlive, date, suffix);
      }
    }
  }

  /** Nothing follows the head of an answer to HEAD. */
  lemma HeadArrivesIff(req: Request, reply: Reply, body: Body, keepAlive: bool, date: Data, suffix: Data)
    requires req.isHead && reply.status != 101
    ensures Arrives(req, reply, body, [], keepAlive, date, suffix) <==> Announces(ForServer(req, reply, body).fields, 0)
  {
    StreamingChoice(req, reply, body, keepAlive, date);
    UnframedArrivesIff(reply.status, ForServer(req, reply, body).fields, [], suffix);
  }

  lemma StreamedArrivesIff(req: Request, reply: Reply, msgs: seq<Data>, keepAlive: bool, date: Data, suffix: Data)
    requires !req.isHead && reply.status != 101 && Framing.AllSized(msgs)
    ensures Arrives(req, reply, Streaming, msgs, keepAlive, date, suffix) <==> Carried(req, reply, Streaming, msgs)
  {
    var p := ForServer(req, reply, Streaming);
    StreamingChoice(req, reply, Streaming, keepAlive, date);
    if !reply.upgrade {
      PlanHeaders(VersionOf(req, reply), reply.chunked, reply.fields);
    }
    StreamedBodyIff(p.kind, msgs, suffix);
    match p.kind {
      case Chunked(_) => ChunkedIsSeen();
      case Length(_) =>
      case Eof => UnframedArrivesIff(reply.status, p.fields, Concat(msgs), suffix);
    }
  }

  /** Each encoder with its own decoder. */
  lemma StreamedBodyIff(kind: E.EncodingKind, msgs: seq<Data>, suffix: Data)
    requires Framing.AllSized(msgs)
    requires kind.Chunked? ==> !kind.eof
    requires kind.Length? ==> kind.remaining < U64
    ensures kind.Chunked? ==>
              (D.Run(D.Chunked(D.Size, 0), E.EncodeBody(kind, msgs).out + suffix) == D.Ended(Concat(msgs), suffix)
               <==> !Framing.DropsMessages(msgs))
    ensures kind.Length? ==>
              (D.Run(D.Length(kind.remaining), E.EncodeBody(kind, msgs).out + suffix) == D.Ended(Concat(msgs), suffix)
               <==> |Concat(msgs)| == kind.remaining)
    ensures kind.Eof? ==> E.EncodeBody(kind, msgs).out == Concat(msgs)
  {
    match kind {
      case Chunked(_) =>
        Framing.ChunkedRoundTrip(msgs, suffix);
        Framing.ChunkedKeepsAllIff(msgs);
      case Length(n) =>
        Framing.LengthRoundTripIff(n, msgs, suffix);
        Framing.LengthEncodesPrefix(n, msgs);
        Framing.LengthDecodes(n, E.EncodeBody(kind, msgs).out + suffix);
      case Eof => Framing.EofEncodes(msgs);
    }
  }

  lemma ArrivesEmpty(req: Request, reply: Reply, keepAlive: bool, date: Data, suffix: Data)
    requires !req.isHead && reply.status != 101
    ensures Arrives(req, reply, Empty, [], keepAlive, date, suffix)
  {
    KnownLengthChoice(req, reply, Empty, 0, FinalFields(req, reply, Empty, keepAlive), date);
    assert [] + suffix == suffix;
  }

  lemma ArrivesBinary(req: Request, reply: Reply, b: Data, keepAlive: bool, date: Data, suffix: Data)
    requires !req.isHead && reply.status != 101 && |b| < U64
    ensures Arrives(req, reply, Binary(b), [b], keepAlive, date, suffix)
  {
    KnownLengthChoice(req, reply, Binary(b), |b|, FinalFields(req, reply, Binary(b), keepAlive), date);
    Framing.EofEncodes([b]);
    assert Concat([b]) == b + Concat([]) == b;
    Framing.LengthDecodes(|b|, b + suffix);
    assert (b + suffix)[..|b|] == b && (b + suffix)[|b|..] == suffix;
  }

  /** The answer to HEAD announces the body that it leaves out, and the client
      takes as many bytes of the next response for it. */
  lemma HeadTakesNextResponse(req: Request, reply: Reply, b: Data, keepAlive: bool, date: Data, next: Data)
    requires req.isHead && reply.status != 101 && 0 < |b| < U64 && |b| <= |next|
    ensures E.EncodeBody(ForServer(req, reply, Binary(b)).kind, []).out == []
    ensures ReadsAs(reply.status, Seen(req, Binary(b), FinalFields(req, reply, Binary(b), keepAlive), date),
                    next, next[..|b|], next[|b|..])
    ensures !Carried(req, reply, Binary(b), [])
  {
    var fields := ForServer(req, reply, Binary(b)).fields;
    StreamingChoice(req, reply, Binary(b), keepAlive, date);
    GetAfterInsert(reply.fields, CONTENT_LENGTH, Digits(|b|), CONTENT_LENGTH);
    ParsesBack(|b|);
    Framing.LengthDecodes(|b|, next);
  }
}
