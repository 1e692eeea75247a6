/** The HTTP/1 response writer (src/server/h1writer.rs). */
module Writer {
  import opened Bytes
  import opened Decimal
  import opened Header
  import opened Replies
  import opened TransferEncoding

  datatype Answer = Accept(n: nat) | Block | Fail

  /** No I/O error and no disconnect ahead. */
  predicate Healthy(script: seq<Answer>) {
    forall i | 0 <= i < |script| :: script[i] != Fail && script[i] != Accept(0)
  }

  datatype Ending = AllTaken | WouldBlock | Gone | Fault

  /** How many bytes the socket takes in all, the answers it has left, and why
      the offering ended. */
  datatype Offer = Offer(taken: nat, rest: seq<Answer>, ending: Ending)

  /** `n` bytes offered again and again, each time without those already taken:
      until all are taken, the socket blocks, takes none, or fails. */
  function Offered(script: seq<Answer>, n: nat): (o: Offer)
    ensures o.taken <= n && (o.ending == AllTaken <==> o.taken == n) && |o.rest| <= |script|
    decreases |script|
  {
    if n == 0 then Offer(0, script, AllTaken)
    else if script == [] then Offer(0, [], WouldBlock)
    else match script[0]
         case Block => Offer(0, script[1..], WouldBlock)
         case Fail => Offer(0, script[1..], Fault)
         case Accept(k) =>
           if k == 0 then Offer(0, script[1..], Gone)
           else
             var later := Offered(script[1..], n - Min(k, n));
             later.(taken := Min(k, n) + later.taken)
  }

  /** A socket: the answers it is going to give, then "would block", and the
      bytes it has taken. */
  class Socket {
    var script: seq<Answer>
    var accepted: Data

    constructor (script: seq<Answer>)
      ensures this.script == script && accepted == []
    {
      this.script := script;
      accepted := [];
    }

    method Next() returns (a: Answer)
      modifies this`script
      ensures old(script) == [] ==> a == Block && script == []
      ensures old(script) != [] ==> a == old(script)[0] && script == old(script)[1..]
    {
      if |script| == 0 {
        return Block;
      }
      a := script[0];
      script := script[1..];
    }

    /** Takes a prefix of the data. */
    method Write(data: Data) returns (r: Poll<nat>)
      modifies this
      ensures old(script) == [] ==> r == NotReady && script == []
      ensures old(script) != [] ==>
                && script == old(script)[1..]
                && match old(script)[0]
                   case Accept(n) => r == Ready(Min(n, |data|))
                   case Block => r == NotReady
                   case Fail => r == Error
      ensures accepted == if r.Ready? then old(accepted) + data[..r.value] else old(accepted)
    {
      var a := Next();
      match a {
        case Accept(n) =>
          var k := Min(n, |data|);
          accepted := accepted + data[..k];
          r := Ready(k);
        case Block => r := NotReady;
        case Fail => r := Error;
      }
    }

    method Shutdown() returns (r: Poll<()>)
      modifies this`script
      ensures |script| <= |old(script)|
      ensures Healthy(old(script)) ==> Healthy(script) && !r.Error?
    {
      var a := Next();
      match a {
        case Accept(_) => r := Ready(());
        case Block => r := NotReady;
        case Fail => r := Error;
      }
    }
  }

  datatype WriterState = Done | Pause

  datatype Result<+T> = Ok(value: T) | Err

  const AVERAGE_HEADER_SIZE: nat := 30
  const MAX_WRITE_BUFFER_SIZE: nat := 65_536

  lemma {:induction false} HealthyOffer(script: seq<Answer>, n: nat)
    ensures Healthy(script) ==> Healthy(Offered(script, n).rest) && Offered(script, n).ending in {AllTaken, WouldBlock}
    decreases |script|
  {
    if n > 0 && script != [] && script[0].Accept? && script[0].n > 0 {
      HealthyOffer(script[1..], n - Min(script[0].n, n));
    }
  }

  class H1Writer {
    var started: bool
    var upgrade: bool
    var keepAlive: bool
    var disconnected: bool
    const socket: Socket
    var encoder: Encoder
    var written: nat
    const buffer: BytesMut
    var bufferCapacity: nat

    /** Encoder and writer share one buffer. */
    ghost predicate Valid()
      reads this, encoder
    {
      encoder.buffer == buffer
    }

    ghost function Repr(): set<object>
      reads this, buffer
    {
      {this, socket, encoder, buffer, buffer.spare}
    }

    /** Everything that has been put out: taken by the socket, or waiting. */
    ghost function Wire(): Data
      reads this, socket, buffer
    {
      socket.accepted + buffer.data
    }

    constructor (socket: Socket, buffer: BytesMut)
      ensures Valid() && this.socket == socket && this.buffer == buffer && fresh(encoder)
      ensures !started && !upgrade && !keepAlive && !disconnected && written == 0 && bufferCapacity == 0
      ensures encoder.kind == Eof
    {
      this.socket := socket;
      this.buffer := buffer;
      encoder := new Encoder(Eof, buffer);
      started, upgrade, keepAlive, disconnected := false, false, false, false;
      written, bufferCapacity := 0, 0;
    }

    /** Prepares for the next response; the buffer and its contents stay. */
    method Reset()
      modifies this`written, this`started, this`upgrade, this`keepAlive, this`disconnected
      ensures written == 0 && !started && !upgrade && !keepAlive && !disconnected
    {
      written := 0;
      started, upgrade, keepAlive, disconnected := false, false, false, false;
    }

    /** The peer is gone or has sent nonsense. What is still in the buffer is lost:
        nothing that was put out is, if and only if the buffer is empty. */
    method Disconnected()
      modifies buffer`data
      ensures Wire() == socket.accepted && buffer.data == []
      ensures Wire() == old(Wire()) <==> old(buffer.data) == []
    {
      var _ := buffer.Take();
      assert socket.accepted + [] == socket.accepted;
    }

    /** Offers the data to the socket until it is all taken, the socket blocks,
        or it fails. A socket that takes nothing is gone and so is the buffer. */
    method WriteData(data: Data) returns (r: Result<nat>, ghost taken: nat)
      modifies socket, buffer`data
      ensures taken == Offered(old(socket.script), |data|).taken
      ensures socket.accepted == old(socket.accepted) + data[..taken]
      ensures var o := Offered(old(socket.script), |data|);
              && socket.script == o.rest
              && r == (if o.ending in {Gone, Fault} then Err else Ok(taken))
              && buffer.data == (if o.ending == Gone then [] else old(buffer.data))
      ensures Healthy(old(socket.script)) ==> Healthy(socket.script) && !r.Err?
    {
      HealthyOffer(socket.script, |data|);
      var sent: nat := 0;
      assert data[..0] == [];
      while sent < |data|
        invariant sent <= |data|
        invariant socket.accepted == old(socket.accepted) + data[..sent]
        invariant buffer.data == old(buffer.data)
        invariant var later := Offered(socket.script, |data| - sent);
                  Offered(old(socket.script), |data|) == later.(taken := sent + later.taken)
        decreases |socket.script|, |data| - sent
      {
        var n := socket.Write(data[sent..]);
        match n {
          case Ready(k) =>
            if k == 0 {
              buffer.data := [];
              return Err, sent;
            }
            Deeper(data, sent, k);
            Assoc(old(socket.accepted), data[..sent], data[sent..][..k]);
            sent := sent + k;
          case NotReady => return Ok(sent), sent;
          case Error => return Err, sent;
        }
      }
      return Ok(sent), sent;
    }

    /** Chooses the framing and the flags of the response. */
    method Prepare(req: Request, reply: Reply, body: Body) returns (plan: Plan)
      requires Valid()
      modifies this
      ensures Valid() && fresh(encoder) && encoder.kind == plan.kind
      ensures started && upgrade == (old(upgrade) || reply.upgrade)
      ensures keepAlive == (old(keepAlive) || KeepsAlive(req, reply))
      ensures disconnected == old(disconnected) && written == old(written) && bufferCapacity == old(bufferCapacity)
      ensures plan.kind == ForServer(req, reply, body).kind
      ensures plan.fields == WithConnection(ForServer(req, reply, body).fields, VersionOf(req, reply), reply.upgrade, keepAlive)
    {
      var p := ForServer(req, reply, body);
      encoder := new Encoder(p.kind, buffer);
      started := true;
      if KeepsAlive(req, reply) {
        keepAlive := true;
      }
      if reply.upgrade {
        upgrade := true;
      }
      plan := Plan(p.kind, WithConnection(p.fields, VersionOf(req, reply), reply.upgrade, keepAlive));
    }

    /** Chooses the framing, renders the head into the buffer, and puts out a
        body that is already there. */
    method Start(req: Request, reply: Reply, body: Body, date: Data) returns (r: Result<WriterState>, plan: Plan)
      requires Valid() && reply.status < CODES
      requires body.Binary? ==> |body.bytes| < U64
      modifies Repr()
      ensures Valid() && fresh(Repr() - old(Repr()))
      ensures r == Ok(Done)
      ensures started && upgrade == (old(upgrade) || reply.upgrade) && disconnected == old(disconnected)
      ensures keepAlive == (old(keepAlive) || KeepsAlive(req, reply))
      ensures plan.kind == ForServer(req, reply, body).kind
      ensures plan.fields == WithConnection(ForServer(req, reply, body).fields, VersionOf(req, reply), reply.upgrade, keepAlive)
      ensures socket.accepted == old(socket.accepted) && socket.script == old(socket.script)
      ensures var sent := if Sent(req, body).Binary? then EncodeMsg(plan.kind, body.bytes) else Encoded(plan.kind, []);
              && encoder.kind == sent.kind
              && buffer.data == old(buffer.data) + Head(req, reply, body, plan.fields, date) + sent.out
      ensures written == if Sent(req, body).Binary? then |body.bytes| else old(written)
      ensures bufferCapacity == if Sent(req, body).Binary? then old(bufferCapacity) else reply.capacity
    {
      ghost var before := buffer.data;
      plan := Prepare(req, reply, body);
      RenderHead(req, reply, body, plan.fields, date);
      match Sent(req, body) {
        case Binary(bytes) =>
          written := |bytes|;
          var _ := encoder.Encode(bytes);
        case _ =>
          bufferCapacity := reply.capacity;
          assert buffer.data + [] == buffer.data;
      }
      r := Ok(Done);
    }

    method RenderHead(req: Request, reply: Reply, body: Body, fields: seq<Field>, date: Data)
      requires reply.status < CODES
      requires body.Binary? ==> |body.bytes| < U64
      modifies buffer, buffer.spare
      ensures buffer.data == old(buffer.data) + Head(req, reply, body, fields, date)
      ensures buffer.spare == old(buffer.spare) || fresh(buffer.spare)
    {
      var bytes := if Sent(req, body).Binary? then |body.bytes| else 0;
      buffer.Reserve(256 + |fields| * AVERAGE_HEADER_SIZE + bytes + |reply.reason|);
      ghost var d0 := buffer.data;
      ghost var head := StatusLine(VersionOf(req, reply), reply.status);
      WriteStatusLine(VersionOf(req, reply), reply.status, buffer);
      Assoc(d0, head, reply.reason);
      head := head + reply.reason;
      buffer.Extend(reply.reason);
      Assoc(d0, head, LengthLine(req, body));
      head := head + LengthLine(req, body);
      WriteLengthLine(req, body);
      Assoc(d0, head, Lines(fields, Sent(req, body).Binary?));
      head := head + Lines(fields, Sent(req, body).Binary?);
      var hasDate := RenderFields(buffer, fields, Sent(req, body).Binary?);
      Assoc(d0, head, DateLine(fields, date));
      if !hasDate {
        buffer.Extend(Ascii("date: ") + date + [CR, LF, CR, LF]);
      } else {
        buffer.Extend([CR, LF]);
      }
    }

    method WriteLengthLine(req: Request, body: Body)
      requires body.Binary? ==> |body.bytes| < U64
      modifies buffer`data
      ensures buffer.data == old(buffer.data) + LengthLine(req, body)
    {
      match Sent(req, body) {
        case Empty =>
          if !req.isHead {
            var line := [CR, LF] + Ascii("content-length: 0") + [CR, LF];
            assert line == CONTENT_LENGTH_LINE + Digits(0) + [CR, LF];
            buffer.Extend(line);
          } else {
            buffer.Extend([CR, LF]);
          }
        case Binary(bytes) => WriteContentLength(|bytes|, buffer);
        case Streaming => buffer.Extend([CR, LF]);
      }
    }

    /** What writing a message puts out. */
    ghost function Framed(msg: Data): (e: Encoded)
      reads this, encoder
    {
      if disconnected then Encoded(encoder.kind, [])
      else if started && !upgrade then EncodeMsg(encoder.kind, msg)
      else Encoded(encoder.kind, msg)
    }

    /** Puts out one message: framed by the encoder, or as it is on an upgraded
        connection, where it goes straight to the socket if nothing is waiting. */
    method Write(payload: Data) returns (r: Result<WriterState>)
      requires Valid()
      modifies this`written, encoder, buffer`data, socket
      ensures Valid() && written == old(written) + |payload|
      ensures encoder.kind == old(Framed(payload)).kind
      ensures r.Ok? ==> Wire() == old(Wire()) + old(Framed(payload)).out
      ensures !(old(started) && old(upgrade)) ==> r.Ok? && socket.accepted == old(socket.accepted)
      ensures old(started) && old(upgrade) && !old(disconnected) ==>
                var o := Offered(old(socket.script), |payload|);
                if old(buffer.data) == [] then
                  socket.accepted == old(socket.accepted) + payload[..o.taken] && (r.Err? <==> o.ending in {Gone, Fault})
                else
                  socket.accepted == old(socket.accepted) && r.Ok?
      ensures r == Ok(Pause) ==> |buffer.data| > bufferCapacity
      ensures old(started) && !old(upgrade) ==> (r == Ok(Pause) <==> |buffer.data| > bufferCapacity)
      ensures |socket.script| <= |old(socket.script)|
      ensures Healthy(old(socket.script)) ==> Healthy(socket.script) && !r.Err?
    {
      written := written + |payload|;
      if !disconnected {
        if started {
          if upgrade {
            if |buffer.data| == 0 {
              ghost var accepted := socket.accepted;
              var n;
              ghost var taken;
              n, taken := WriteData(payload);
              if n.Err? {
                return Err;
              }
              Halves(payload, n.value);
              if n.value < |payload| {
                buffer.Extend(payload[n.value..]);
                Assoc(accepted, payload[..n.value], payload[n.value..]);
                assert buffer.data == payload[n.value..];
                return Ok(Done);
              }
              assert payload[..n.value] == payload;
            } else {
              Assoc(socket.accepted, buffer.data, payload);
              buffer.Extend(payload);
            }
          } else {
            Assoc(socket.accepted, buffer.data, EncodeMsg(encoder.kind, payload).out);
            var _ := encoder.Encode(payload);
          }
        } else {
          Assoc(socket.accepted, buffer.data, payload);
          buffer.Extend(payload);
        }
      }
      return if |buffer.data| > bufferCapacity then Ok(Pause) else Ok(Done);
    }

    /** Ends the body. Fails if the encoder still expects data. */
    method WriteEof() returns (r: Result<WriterState>)
      requires Valid()
      modifies encoder, buffer`data
      ensures Valid() && encoder.kind == EncodeEnd(old(encoder.kind)).kind
      ensures Wire() == old(Wire()) + EncodeEnd(old(encoder.kind)).out
      ensures r.Err? <==> !IsEof(encoder.kind)
      ensures r == Ok(Pause) <==> IsEof(encoder.kind) && |buffer.data| > MAX_WRITE_BUFFER_SIZE
    {
      Assoc(socket.accepted, buffer.data, EncodeEnd(encoder.kind).out);
      encoder.EncodeEof();
      if !IsEof(encoder.kind) {
        r := Err;
      } else if |buffer.data| > MAX_WRITE_BUFFER_SIZE {
        r := Ok(Pause);
      } else {
        r := Ok(Done);
      }
    }

    /** Offers the buffer to the socket. */
    method PollCompleted(shutdown: bool) returns (r: Poll<()>)
      requires Valid()
      modifies socket, buffer`data
      ensures Valid()
      ensures var o := Offered(old(socket.script), |old(buffer.data)|);
              && socket.accepted == old(socket.accepted) + old(buffer.data)[..o.taken]
              && (o.ending in {Gone, Fault} ==> r.Error?)
              && (!shutdown ==> socket.script == o.rest && (r.Error? <==> o.ending in {Gone, Fault}))
      ensures !r.Error? ==> Wire() == old(Wire())
      ensures !shutdown && !r.Error? ==> (r == Ready(()) <==> |buffer.data| <= bufferCapacity || buffer.data == [])
      ensures |socket.script| <= |old(socket.script)|
      ensures Healthy(old(socket.script)) ==> Healthy(socket.script) && !r.Error?
    {
      if |buffer.data| > 0 {
        ghost var accepted, waiting := socket.accepted, buffer.data;
        var n;
        ghost var taken;
        n, taken := WriteData(buffer.data);
        Halves(waiting, taken);
        Assoc(accepted, waiting[..taken], waiting[taken..]);
        assert accepted + waiting == (accepted + waiting[..taken]) + waiting[taken..];
        if n.Err? {
          return Error;
        }
        var _ := buffer.SplitTo(n.value);
        if |buffer.data| > bufferCapacity {
          return NotReady;
        }
      }
      if shutdown {
        r := socket.Shutdown();
      } else {
        r := Ready(());
      }
    }
  }
}
