/** From the handler's body to the client: a whole response, over any schedule
    of the body source and of the socket. */
module Transmission {
  import opened Bytes
  import opened Replies
  import opened Writer
  import opened Pipeline
  import E = TransferEncoding
  import Client
  import Framing

  /** The connection gets rid of buffered data and polls the response, as often
      as `polls` says. Every poll makes progress, unless the source is used up or
      the socket does not take enough; `blocked` counts the polls of the latter
      kind. */
  method PollOn(task: ProcessResponse, io: H1Writer, polls: nat) returns (r: Progress, ghost blocked: nat)
    requires task.Fixed() && task.Sending(io)
    modifies task, io.Repr()
    ensures fresh(io.Repr() - old(io.Repr()))
    ensures task.base == old(task.base) && task.kind == old(task.kind)
    ensures r == Completed ==> task.Sending(io) && task.iostate.Done? && task.ended && !task.Short()
    ensures blocked <= polls
    ensures r == Pending ==> task.Dry() || task.iostate.Done? || polls + task.Rank() <= old(task.Rank()) + blocked
    ensures Healthy(old(io.socket.script)) ==> Healthy(io.socket.script)
    ensures r == Failed && Healthy(old(io.socket.script)) && old(task.StillSound()) ==> task.FellShort()
  {
    r, blocked := Pending, 0;
    var i := 0;
    while i < polls && r == Pending
      invariant r != Failed ==> task.Sending(io)
      invariant r == Completed ==> task.iostate.Done? && task.ended && !task.Short()
      invariant blocked <= i <= polls
      invariant r == Pending ==> task.Rank() <= 1 || i + task.Rank() <= old(task.Rank()) + blocked
      invariant task.base == old(task.base) && task.kind == old(task.kind)
      invariant fresh(io.Repr() - old(io.Repr()))
      invariant old(task.StillSound()) ==> task.StillSound()
      invariant Healthy(old(io.socket.script)) ==> Healthy(io.socket.script)
      invariant r == Failed && Healthy(old(io.socket.script)) && old(task.StillSound()) ==> task.FellShort()
      decreases polls - i
    {
      var flushed := io.PollCompleted(false);
      if flushed.Error? {
        r := Failed;
      } else {
        assert task.Sending(io);
        r := task.PollIo(io);
        if r == Pending && |io.buffer.data| > io.bufferCapacity {
          blocked := blocked + 1;
        }
      }
      i := i + 1;
    }
  }

  /** A response polled to its end has put out exactly its head and the framed
      form of its body, whatever the schedule; without I/O errors and with a
      sound body it does not fail, unless a declared length is not reached; and
      it is not polled forever. */
  method Respond(task: ProcessResponse, io: H1Writer, polls: nat)
    returns (r: Progress, ghost blocked: nat)
    requires task.Fixed() && task.Fresh(io) && task.running != Paused && !task.drain
    modifies task, io.Repr()
    ensures fresh(io.Repr() - old(io.Repr()))
    ensures r == Completed ==> io.Valid() && task.kind == ForServer(task.req, task.reply, BodyOf(task.source)).kind
    ensures r == Completed ==>
              io.Wire() == (old(io.Wire()) + task.HeadBytes()) + E.EncodeBody(task.kind, task.All()).out
    ensures r == Pending ==>
              task.Dry() || task.iostate.Done? || polls + task.Rank() < old(task.Rank()) + blocked
    ensures Healthy(old(io.socket.script)) ==> Healthy(io.socket.script)
    ensures r == Completed && task.kind.Length? ==> task.kind.remaining <= |Concat(task.All())|
    ensures r == Failed && Healthy(old(io.socket.script)) && Sound(task.source) ==>
              task.kind.Length? && |Concat(task.All())| < task.kind.remaining
  {
    blocked := 0;
    r := task.PollFirst(io);
    if r == Pending {
      r, blocked := PollOn(task, io, polls);
    }
    assert task.sent + [] == task.sent;
  }

  // ---- A reset in the middle of a response ----

  /** Framing leaves a message as it stands, and the encoder as it is. */
  predicate AsItStands(kind: E.EncodingKind, msg: Data) {
    kind == E.Eof || (msg == [] && kind != E.Chunked(false))
  }

  /** The next message goes out unframed, and the encoder does not notice: bytes
      and encoder are as they should be if and only if framing would have changed
      neither the message nor the encoder. */
  method WriteAfterReset(io: H1Writer, msg: Data)
    requires io.Valid() && io.started && !io.upgrade && !io.disconnected
    modifies io, io.encoder, io.buffer`data, io.socket
    ensures io.Valid() && !io.started && !io.disconnected
    ensures io.Wire() == old(io.Wire()) + msg && io.encoder == old(io.encoder) && io.encoder.kind == old(io.encoder.kind)
    ensures io.Wire() == old(io.Wire()) + old(io.Framed(msg)).out && io.encoder.kind == old(io.Framed(msg)).kind
       <==> AsItStands(old(io.encoder.kind), msg)
  {
    ghost var kind := io.encoder.kind;
    io.Reset();
    var _ := io.Write(msg);
    SameBehind(old(io.Wire()), msg, E.EncodeMsg(kind, msg).out);
  }

  lemma SameBehind(a: Data, b: Data, c: Data)
    ensures a + b == a + c <==> b == c
  {
    if a + b == a + c {
      assert (a + b)[|a|..] == b && (a + c)[|a|..] == c;
    }
  }

  /** The rest of a response comes out as it should, in bytes and in success: its
      framing is none; or there is nothing left to send; or it fails anyway, for
      want of bytes; or the messages that an empty one would have cut off happen
      to spell the frames of the others. */
  ghost predicate Unaffected(kind: E.EncodingKind, msgs: seq<Data>) {
    match kind
    case Eof => true
    case Length(n) => Concat(msgs) == [] || |Concat(msgs)| < n
    case Chunked(eof) => Concat(msgs) == [] || (!eof && Framing.DropsMessages(msgs) && Concat(msgs) == Frames(msgs))
  }

  /** The frames of the messages up to the first empty one. */
  ghost function Frames(msgs: seq<Data>): Data {
    if msgs == [] || msgs[0] == [] then [] else E.ChunkFrame(msgs[0]) + Frames(msgs[1..])
  }

  lemma {:induction false} ChunkedBodyIs(msgs: seq<Data>)
    ensures E.EncodeBody(E.Chunked(false), msgs) == E.Encoded(E.Chunked(true), Frames(msgs) + E.TERMINATOR)
    decreases |msgs|
  {
    if msgs != [] {
      var rest := msgs[1..];
      Framing.EncodeAllCons(E.Chunked(false), msgs);
      if msgs[0] == [] {
        Framing.ClosedEncodesNothing(rest);
      } else {
        ChunkedBodyIs(rest);
        var all := E.EncodeAll(E.Chunked(false), rest);
        Assoc(E.ChunkFrame(msgs[0]), all.out, E.EncodeEnd(all.kind).out);
        Assoc(E.ChunkFrame(msgs[0]), Frames(rest), E.TERMINATOR);
      }
    }
  }

  /** Frames are longer than what they hold. */
  lemma {:induction false} FramesAreLonger(msgs: seq<Data>)
    ensures |Concat(Framing.UntilEmpty(msgs))| <= |Frames(msgs)|
    ensures |Concat(Framing.UntilEmpty(msgs))| == |Frames(msgs)| ==> Frames(msgs) == []
    decreases |msgs|
  {
    if msgs != [] && msgs[0] != [] {
      FramesAreLonger(msgs[1..]);
      ConcatCons(msgs[0], Framing.UntilEmpty(msgs[1..]));
    }
  }

  lemma UnframedChunksIff(msgs: seq<Data>)
    ensures Concat(msgs) == Frames(msgs) <==> Unaffected(E.Chunked(false), msgs)
  {
    Framing.ChunkedKeepsAllIff(msgs);
    FramesAreLonger(msgs);
    if Concat(msgs) == [] {
      FramesOfNothing(msgs);
    }
  }

  lemma FramesOfNothing(msgs: seq<Data>)
    requires Concat(msgs) == []
    ensures Frames(msgs) == []
  {
    if msgs != [] {
      assert msgs[0] == [];
    }
  }

  lemma UnaffectedIff(kind: E.EncodingKind, msgs: seq<Data>)
    ensures var end, whole := E.EncodeEnd(kind), E.EncodeBody(kind, msgs);
            Concat(msgs) + end.out == whole.out && (E.IsEof(end.kind) <==> E.IsEof(whole.kind)) <==> Unaffected(kind, msgs)
  {
    match kind {
      case Eof =>
        Framing.EofEncodes(msgs);
        assert Concat(msgs) + [] == Concat(msgs);
      case Length(n) =>
        Framing.LengthEncodesPrefix(n, msgs);
        assert Concat(msgs) + [] == Concat(msgs);
      case Chunked(eof) =>
        if eof {
          Framing.ClosedEncodesNothing(msgs);
          assert Concat(msgs) + [] == Concat(msgs);
        } else {
          ChunkedBodyIs(msgs);
          UnframedChunksIff(msgs);
          SameBefore(Concat(msgs), Frames(msgs), E.TERMINATOR);
        }
    }
  }

  lemma SameBefore(a: Data, b: Data, c: Data)
    ensures a + c == b + c <==> a == b
  {
    if a + c == b + c {
      assert (a + c)[..|a|] == a && (b + c)[..|b|] == b;
    }
  }

  /** All further messages and the end, after a reset: they are put out, and
      succeed, as without it if and only if the rest is unaffected. */
  method FinishAfterReset(io: H1Writer, msgs: seq<Data>) returns (r: Result<WriterState>)
    requires io.Valid() && io.started && !io.upgrade && !io.disconnected
    modifies io, io.encoder, io.buffer`data, io.socket
    ensures io.Wire() == (old(io.Wire()) + Concat(msgs)) + E.EncodeEnd(old(io.encoder.kind)).out
    ensures r.Ok? <==> E.IsEof(E.EncodeEnd(old(io.encoder.kind)).kind)
    ensures var whole := E.EncodeBody(old(io.encoder.kind), msgs);
            io.Wire() == old(io.Wire()) + whole.out && (r.Ok? <==> E.IsEof(whole.kind))
            <==> Unaffected(old(io.encoder.kind), msgs)
  {
    ghost var kind, wire := io.encoder.kind, io.Wire();
    io.Reset();
    assert wire + [] == wire && msgs[..0] == [];
    var i := 0;
    while i < |msgs|
      invariant i <= |msgs| && io.Valid() && !io.started && !io.disconnected
      invariant io.encoder == old(io.encoder) && io.encoder.kind == kind && io.Wire() == wire + Concat(msgs[..i])
    {
      assert msgs[..i + 1] == msgs[..i] + [msgs[i]];
      ConcatPush(msgs[..i], msgs[i]);
      Assoc(wire, Concat(msgs[..i]), msgs[i]);
      var _ := io.Write(msgs[i]);
      i := i + 1;
    }
    assert msgs[..i] == msgs;
    r := io.WriteEof();
    Assoc(wire, Concat(msgs), E.EncodeEnd(kind).out);
    SameBehind(wire, Concat(msgs) + E.EncodeEnd(kind).out, E.EncodeBody(kind, msgs).out);
    UnaffectedIff(kind, msgs);
  }

  method FlushAll(io: H1Writer, flushes: nat) returns (ok: bool)
    requires io.Valid()
    modifies io.socket, io.buffer`data
    ensures io.Valid() && (ok ==> io.Wire() == old(io.Wire()))
  {
    ok := true;
    var i := 0;
    while i < flushes && ok
      invariant io.Valid() && (ok ==> io.Wire() == old(io.Wire()))
      decreases flushes - i
    {
      var flushed := io.PollCompleted(false);
      ok := !flushed.Error?;
      i := i + 1;
    }
  }

  /** Once such a response has been flushed in full, the socket has taken its
      head and then `body`. A client that has read the head and decodes what
      follows gets the concatenation of the handler's chunks, and leaves what
      comes next on the connection, if and only if the framing carries the body. */
  method Deliver(task: ProcessResponse, io: H1Writer, polls: nat, flushes: nat, ghost suffix: Data)
    returns (r: Progress, ghost body: Data)
    requires task.Fixed() && task.Fresh(io) && task.running != Paused && !task.drain
    requires Client.Makes(task.req, BodyOf(task.source), task.All())
    modifies task, io.Repr()
    ensures r == Completed && io.buffer.data == [] ==>
              && io.socket.accepted == (old(io.Wire()) + task.HeadBytes()) + body
              && var fields := Client.FinalFields(task.req, task.reply, BodyOf(task.source), KeepsAlive(task.req, task.reply));
              && (Client.ReadsAs(task.reply.status, Client.Seen(task.req, BodyOf(task.source), fields, task.date),
                                 body + suffix, Concat(task.All()), suffix)
                  <==> Client.Carried(task.req, task.reply, BodyOf(task.source), task.All()))
  {
    ghost var blocked;
    r, blocked := Respond(task, io, polls);
    body := E.EncodeBody(task.kind, task.All()).out;
    if r == Completed {
      var ok := FlushAll(io, flushes);
      if !ok {
        r := Failed;
      }
      assert io.socket.accepted + [] == io.socket.accepted;
      Client.BodyArrivesIff(task.req, task.reply, BodyOf(task.source), task.All(), KeepsAlive(task.req, task.reply), task.date, suffix);
    }
  }
}
