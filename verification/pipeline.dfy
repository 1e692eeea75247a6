/** Sending a response (`ProcessResponse` in src/pipeline.rs): body stream or
    actor on one side, writer and socket on the other. */
module Pipeline {
  import opened Bytes
  import opened Header
  import opened Replies
  import opened TransferEncoding
  import opened Writer
  import Framing

  /** One answer of a body stream. */
  datatype StreamItem = Waiting | Item(chunk: Data) | Finished | Broken

  datatype Frame = Chunk(data: Option<Data>) | Drain

  /** One answer of an actor context. */
  datatype ActorItem = Idle | Frames(frames: seq<Frame>) | Stopped | Crashed

  datatype Source = NoBody | Bytes(bytes: Data) | Stream(items: seq<StreamItem>) | Actor(turns: seq<ActorItem>)

  datatype IOState = Response | Payload(items: seq<StreamItem>) | FromActor(turns: seq<ActorItem>) | Done

  datatype RunningState = Running | Paused | Ended {
    function Pause(): RunningState { if this == Ended then Ended else Paused }
    function Resume(): RunningState { if this == Ended then Ended else Running }
  }

  // ---- What a source is going to give ----

  /** The chunks of a stream before it finishes or breaks. */
  function StreamChunks(items: seq<StreamItem>): (cs: seq<Data>) {
    if items == [] then []
    else match items[0]
         case Waiting => StreamChunks(items[1..])
         case Item(c) => [c] + StreamChunks(items[1..])
         case _ => []
  }

  /** The chunks of one turn, before the end-of-body frame. */
  function FrameChunks(frames: seq<Frame>): (cs: seq<Data>) {
    if frames == [] then []
    else match frames[0]
         case Chunk(None) => []
         case Chunk(Some(c)) => [c] + FrameChunks(frames[1..])
         case Drain => FrameChunks(frames[1..])
  }

  predicate EndsBody(frames: seq<Frame>) {
    Chunk(None) in frames
  }

  function ActorChunks(turns: seq<ActorItem>): (cs: seq<Data>) {
    if turns == [] then []
    else match turns[0]
         case Idle => ActorChunks(turns[1..])
         case Frames(fs) => FrameChunks(fs) + if EndsBody(fs) then [] else ActorChunks(turns[1..])
         case _ => []
  }

  function SourceChunks(source: Source): (cs: seq<Data>) {
    match source
    case NoBody => []
    case Bytes(b) => [b]
    case Stream(items) => StreamChunks(items)
    case Actor(turns) => ActorChunks(turns)
  }

  /** No answer of the source is a failure. */
  predicate Sound(source: Source) {
    match source
    case Stream(items) => Broken !in items
    case Actor(turns) => Crashed !in turns
    case _ => true
  }

  function BodyOf(source: Source): (b: Body) {
    match source
    case NoBody => Empty
    case Bytes(b) => Binary(b)
    case _ => Streaming
  }

  /** What the messages put out, with or without the end of the body. */
  function Put(kind: EncodingKind, sent: seq<Data>, ended: bool): (e: Encoded) {
    if ended then EncodeBody(kind, sent) else EncodeAll(kind, sent)
  }

  lemma PutMessage(kind: EncodingKind, sent: seq<Data>, msg: Data)
    ensures var e := EncodeAll(kind, sent); var m := EncodeMsg(e.kind, msg);
            EncodeAll(kind, sent + [msg]) == Encoded(m.kind, e.out + m.out)
  {
    assert (sent + [msg])[..|sent|] == sent;
  }

  lemma {:induction false} EofStaysEof(sent: seq<Data>)
    ensures EncodeAll(Eof, sent).kind == Eof
    decreases |sent|
  {
    if sent != [] {
      EofStaysEof(sent[..|sent| - 1]);
    }
  }

  /** Without a declared length, a body can always be ended. */
  lemma {:induction false} UnlimitedEnds(kind: EncodingKind, sent: seq<Data>)
    requires !kind.Length?
    ensures IsEof(EncodeBody(kind, sent).kind) && !EncodeAll(kind, sent).kind.Length?
    decreases |sent|
  {
    if sent != [] {
      UnlimitedEnds(kind, sent[..|sent| - 1]);
    }
  }

  /** A body can be ended if and only if it has its declared length, if any. */
  lemma EndsIff(kind: EncodingKind, sent: seq<Data>)
    ensures IsEof(EncodeBody(kind, sent).kind) <==> (kind.Length? ==> kind.remaining <= |Concat(sent)|)
  {
    if kind.Length? {
      Framing.LengthEncodesPrefix(kind.remaining, sent);
    } else {
      UnlimitedEnds(kind, sent);
    }
  }

  /** How one turn of the inner loop goes on. */
  datatype Flow = Again | Result(state: WriterState) | Break | GiveUp

  /** How an actor's frames were used up. */
  datatype Stop = GoOn | EndSeen | WriteFailed

  datatype Progress = Completed | Failed | Pending

  class ProcessResponse {
    const req: Request
    const reply: Reply
    const source: Source
    const date: Data
    var iostate: IOState
    var running: RunningState
    var drain: bool

    /** The writer's output up to the body, the chosen framing, the messages
        given to the writer so far, and whether the body has been ended. */
    ghost var base: Data
    ghost var kind: EncodingKind
    ghost var sent: seq<Data>
    ghost var ended: bool

    constructor (req: Request, reply: Reply, source: Source, date: Data)
      requires reply.status < CODES
      requires source.Bytes? ==> |source.bytes| < U64
      ensures this.req == req && this.reply == reply && this.source == source && this.date == date
      ensures iostate == Response && running == Running && !drain && Fixed()
    {
      this.req := req;
      this.reply := reply;
      this.source := source;
      this.date := date;
      iostate := Response;
      running := Running;
      drain := false;
      sent, ended, base, kind := [], false, [], Eof;
    }

    ghost predicate Fixed() {
      reply.status < CODES && (source.Bytes? ==> |source.bytes| < U64)
    }

    /** The body is polled for, rather than there from the start. */
    ghost predicate Streamed() {
      !req.isHead && (source.Stream? || source.Actor?)
    }

    /** Everything that is to be sent. */
    ghost function All(): seq<Data> {
      if req.isHead then [] else SourceChunks(source)
    }

    /** What the source is still going to give. */
    ghost function Rest(): seq<Data>
      reads this
    {
      match iostate
      case Response => All()
      case Payload(items) => StreamChunks(items)
      case FromActor(turns) => ActorChunks(turns)
      case Done => []
    }

    /** What is on the wire after the head is the framed form of the messages
        given to the writer. */
    ghost predicate OnWire(io: H1Writer)
      reads this, io, io.encoder, io.socket, io.buffer
    {
      && io.Valid() && io.started && !io.disconnected
      && (io.upgrade && Streamed() ==> kind == Eof)
      && io.encoder.kind == Put(kind, sent, ended).kind
      && io.Wire() == base + Put(kind, sent, ended).out
    }

    /** The response is under way: its wire form is right, and the messages sent
        followed by what the source is going to give are all messages. */
    ghost predicate Sending(io: H1Writer)
      reads this, io, io.encoder, io.socket, io.buffer
    {
      && OnWire(io)
      && !iostate.Response?
      && (iostate.Payload? || iostate.FromActor? ==> Streamed() && !ended)
      && sent + Rest() == All()
    }

    /** The writer is ready for a new response. */
    ghost predicate Fresh(io: H1Writer)
      reads this, io, io.encoder
    {
      iostate.Response? && io.Valid() && !io.started && !io.upgrade && !io.keepAlive && !io.disconnected
    }

    ghost function Rank(): nat
      reads this
    {
      match iostate
      case Response => 2 + (match source case Stream(items) => |items| case Actor(turns) => |turns| case _ => 0)
      case Payload(items) => 1 + |items|
      case FromActor(turns) => 1 + |turns|
      case Done => 0
    }

    /** The source has nothing to say any more, and has not ended either. */
    ghost predicate Dry()
      reads this
    {
      match iostate
      case Payload(items) => items == []
      case FromActor(turns) => turns == []
      case _ => false
    }

    /** No failure can come from the source any more. */
    ghost predicate StillSound()
      reads this
    {
      match iostate
      case Response => Sound(source)
      case Payload(items) => Broken !in items
      case FromActor(turns) => Crashed !in turns
      case Done => true
    }

    /** The head that `Start` puts out. */
    ghost function HeadBytes(): Data
      requires Fixed()
    {
      var body := BodyOf(source);
      var fields := WithConnection(ForServer(req, reply, body).fields, VersionOf(req, reply), reply.upgrade,
                                   KeepsAlive(req, reply));
      Head(req, reply, body, fields, date)
    }

    /** Fewer bytes than the declared length have been given to the writer. */
    ghost predicate Short()
      reads this
    {
      kind.Length? && |Concat(sent)| < kind.remaining
    }

    /** The whole body has been given to the writer, and it is too short. */
    ghost predicate FellShort()
      reads this
    {
      Short() && sent == All()
    }

    /** One message to the writer. */
    method Give(io: H1Writer, chunk: Data) returns (r: Result<WriterState>)
      requires OnWire(io) && !ended && Streamed()
      modifies this`sent, io`written, io.encoder, io.buffer`data, io.socket
      ensures sent == old(sent) + [chunk]
      ensures r.Ok? ==> OnWire(io)
      ensures Healthy(old(io.socket.script)) ==> Healthy(io.socket.script) && r.Ok?
    {
      PutMessage(kind, sent, chunk);
      if io.upgrade {
        EofStaysEof(sent);
      }
      Assoc(base, EncodeAll(kind, sent).out, EncodeMsg(io.encoder.kind, chunk).out);
      r := io.Write(chunk);
      sent := sent + [chunk];
    }

    /** The end of the body, asked for once or again. */
    method End(io: H1Writer) returns (r: Result<WriterState>)
      requires OnWire(io)
      modifies this`ended, io.encoder, io.buffer`data
      ensures OnWire(io) && ended
      ensures r.Ok? <==> IsEof(io.encoder.kind)
      ensures r.Err? <==> Short()
    {
      ghost var all := EncodeAll(kind, sent);
      Assoc(base, all.out, EncodeEnd(all.kind).out);
      Framing.EndOnce(all.kind);
      assert io.Wire() + [] == io.Wire();
      EndsIff(kind, sent);
      r := io.WriteEof();
      ended := true;
    }

    /** All frames of one actor turn, up to an end-of-body frame; frames behind
        it are dropped. */
    method GiveFrames(io: H1Writer, frames: seq<Frame>) returns (res: Option<WriterState>, stop: Stop)
      requires OnWire(io) && !ended && Streamed() && !drain
      modifies this`sent, this`ended, this`drain, io`written, io.encoder, io.buffer`data, io.socket
      ensures stop != WriteFailed ==> OnWire(io) && sent == old(sent) + FrameChunks(frames)
      ensures stop != WriteFailed ==> (stop == EndSeen <==> EndsBody(frames)) && (ended <==> EndsBody(frames))
      ensures stop == GoOn && frames != [] && !drain ==> res.Some?
      ensures Healthy(old(io.socket.script)) ==> Healthy(io.socket.script)
      ensures stop == WriteFailed && Healthy(old(io.socket.script)) ==>
                Short() && EndsBody(frames) && sent == old(sent) + FrameChunks(frames)
    {
      res := None;
      var i := 0;
      assert frames[0..] == frames;
      while i < |frames|
        invariant i <= |frames| && OnWire(io) && !ended
        invariant sent + FrameChunks(frames[i..]) == old(sent) + FrameChunks(frames)
        invariant !EndsBody(frames[..i])
        invariant i > 0 && !drain ==> res.Some?
        invariant Healthy(old(io.socket.script)) ==> Healthy(io.socket.script)
      {
        assert frames[i..][1..] == frames[i + 1..];
        assert frames[..i + 1] == frames[..i] + [frames[i]];
        match frames[i] {
          case Chunk(None) =>
            assert frames[i] in frames;
            var r := End(io);
            return res, if r.Err? then WriteFailed else EndSeen;
          case Chunk(Some(c)) =>
            ghost var before := sent;
            var r := Give(io, c);
            if r.Err? {
              return res, WriteFailed;
            }
            Assoc(before, [c], FrameChunks(frames[i + 1..]));
            res := Some(r.value);
          case Drain => drain := true;
        }
        i := i + 1;
      }
      assert frames[..i] == frames;
      stop := GoOn;
    }

    /** The head, and with it a body that is already there. */
    method Begin(io: H1Writer)
      requires Fixed() && io.Valid() && !io.started && !io.upgrade && !io.keepAlive && !io.disconnected
      modifies this`base, this`kind, this`sent, this`ended, io.Repr()
      ensures fresh(io.Repr() - old(io.Repr()))
      ensures OnWire(io) && !ended
      ensures sent == if source.Bytes? && !req.isHead then [source.bytes] else []
      ensures base == old(io.Wire()) + HeadBytes() && kind == ForServer(req, reply, BodyOf(source)).kind
      ensures io.socket.script == old(io.socket.script)
    {
      ghost var before := io.Wire();
      StartWriter(io);
      base, kind, ended := before + HeadBytes(), ForServer(req, reply, BodyOf(source)).kind, false;
      sent := AtOnce();
      FirstPut(kind, sent);
    }

    /** What goes out together with the head. */
    ghost function AtOnce(): (msgs: seq<Data>)
      ensures |msgs| <= 1
    {
      if source.Bytes? && !req.isHead then [source.bytes] else []
    }

    method StartWriter(io: H1Writer)
      requires Fixed() && io.Valid() && !io.started && !io.upgrade && !io.keepAlive && !io.disconnected
      modifies io.Repr()
      ensures fresh(io.Repr() - old(io.Repr()))
      ensures io.Valid() && io.started && !io.disconnected && io.socket.script == old(io.socket.script)
      ensures var plan := ForServer(req, reply, BodyOf(source));
              var first := FirstOf(plan.kind, AtOnce());
              && io.encoder.kind == first.kind
              && io.Wire() == (old(io.Wire()) + HeadBytes()) + first.out
              && (io.upgrade && Streamed() ==> plan.kind == Eof)
    {
      ghost var accepted, waiting := io.socket.accepted, io.buffer.data;
      var r, plan := io.Start(req, reply, BodyOf(source), date);
      WireOf(accepted, waiting, HeadBytes(), FirstOf(plan.kind, AtOnce()).out);
    }

    /** The first step into the body. */
    method StepResponse(io: H1Writer) returns (flow: Flow)
      requires Fixed() && Fresh(io)
      modifies this, io.Repr()
      ensures fresh(io.Repr() - old(io.Repr()))
      ensures Sending(io) && (old(StillSound()) ==> StillSound())
      ensures flow == Again || flow == Result(WriterState.Done)
      ensures running == old(running) && drain == old(drain) && Rank() < old(Rank())
      ensures base == old(io.Wire()) + HeadBytes() && kind == ForServer(req, reply, BodyOf(source)).kind
      ensures io.socket.script == old(io.socket.script)
    {
      iostate := IOState.Done;
      Begin(io);
      if req.isHead {
        return Result(WriterState.Done);
      }
      match source {
        case Stream(items) =>
          iostate, flow := Payload(items), Again;
        case Actor(turns) =>
          iostate, flow := FromActor(turns), Again;
        case _ => flow := Result(WriterState.Done);
      }
    }

    /** One poll of the body stream. */
    method StepPayload(io: H1Writer) returns (flow: Flow)
      requires Sending(io) && iostate.Payload?
      modifies this`iostate, this`sent, this`ended, io`written, io.encoder, io.buffer`data, io.socket
      ensures flow != GiveUp ==> Sending(io) && Rank() <= old(Rank())
      ensures flow.Result? ==> Rank() < old(Rank())
      ensures flow == Break ==> Rank() < old(Rank()) || Dry()
      ensures old(StillSound()) ==> StillSound()
      ensures Healthy(old(io.socket.script)) ==> Healthy(io.socket.script)
      ensures flow == GiveUp && Healthy(old(io.socket.script)) && old(StillSound()) ==> FellShort()
      ensures flow != Again
    {
      var items := iostate.items;
      if |items| == 0 {
        return Break;
      }
      iostate := IOState.Done;
      match items[0] {
        case Finished =>
          var r := End(io);
          return if r.Err? then GiveUp else Break;
        case Item(chunk) =>
          iostate := Payload(items[1..]);
          ghost var before := sent;
          var r := Give(io, chunk);
          Assoc(before, [chunk], StreamChunks(items[1..]));
          return if r.Err? then GiveUp else Result(r.value);
        case Waiting =>
          iostate := Payload(items[1..]);
          return Break;
        case Broken => return GiveUp;
      }
    }

    /** One poll of the actor. */
    method StepActor(io: H1Writer) returns (flow: Flow)
      requires Sending(io) && iostate.FromActor? && !drain
      modifies this`iostate, this`sent, this`ended, this`drain, this`running, io`written, io.encoder, io.buffer`data, io.socket
      ensures flow != GiveUp ==> Sending(io) && Rank() <= old(Rank())
      ensures flow.Result? || drain ==> Rank() < old(Rank())
      ensures flow == Break ==> Rank() < old(Rank()) || Dry()
      ensures flow.Result? ==> !drain
      ensures running == old(running) || running == old(running).Resume()
      ensures old(StillSound()) ==> StillSound()
      ensures Healthy(old(io.socket.script)) ==> Healthy(io.socket.script)
      ensures flow == GiveUp && Healthy(old(io.socket.script)) && old(StillSound()) ==> FellShort()
      ensures flow != Again
    {
      var turns := iostate.turns;
      if |turns| == 0 {
        return Break;
      }
      iostate := IOState.Done;
      match turns[0] {
        case Frames(frames) =>
          ghost var before := sent;
          if |frames| == 0 {
            iostate := FromActor(turns[1..]);
            return Break;
          }
          var res, stop := GiveFrames(io, frames);
          Assoc(before, FrameChunks(frames), ActorChunks(turns[1..]));
          match stop {
            case WriteFailed => return GiveUp;
            case EndSeen => return Break;
            case GoOn =>
              iostate := FromActor(turns[1..]);
              if drain {
                running := running.Resume();
                return Break;
              }
              return Result(res.value);
          }
        case Stopped => return Break;
        case Idle =>
          iostate := FromActor(turns[1..]);
          return Break;
        case Crashed => return GiveUp;
      }
    }

    /** One poll of whatever the body comes from. */
    method StepBody(io: H1Writer) returns (flow: Flow)
      requires Sending(io) && !iostate.Done? && running != Paused && !drain
      modifies this`iostate, this`sent, this`ended, this`drain, this`running, io`written, io.encoder, io.buffer`data, io.socket
      ensures flow != GiveUp ==> Sending(io) && Rank() <= old(Rank())
      ensures flow.Result? || drain ==> Rank() < old(Rank())
      ensures flow == Break ==> Rank() < old(Rank()) || Dry()
      ensures flow.Result? ==> !drain
      ensures running != Paused
      ensures old(StillSound()) ==> StillSound()
      ensures Healthy(old(io.socket.script)) ==> Healthy(io.socket.script)
      ensures flow == GiveUp && Healthy(old(io.socket.script)) && old(StillSound()) ==> FellShort()
      ensures flow != Again
    {
      if iostate.Payload? {
        flow := StepPayload(io);
      } else {
        flow := StepActor(io);
      }
    }

    /** The inner loop: body data, until the source has to be waited for, the
        writer asks for a pause, or the body is over. */
    method RunInner(io: H1Writer) returns (failed: bool)
      requires Sending(io) && running != Paused && !drain
      modifies this`iostate, this`sent, this`ended, this`drain, this`running, io`written, io.encoder, io.buffer`data, io.socket
      ensures !failed ==> Sending(io) && Rank() <= old(Rank())
      ensures !failed && (running == Paused || drain) ==> Rank() < old(Rank())
      ensures !failed ==> Rank() < old(Rank()) || Dry() || iostate.Done?
      ensures old(StillSound()) ==> StillSound()
      ensures Healthy(old(io.socket.script)) ==> Healthy(io.socket.script)
      ensures failed && Healthy(old(io.socket.script)) && old(StillSound()) ==> FellShort()
    {
      while !iostate.Done?
        invariant Sending(io) && running != Paused && !drain
        invariant Rank() <= old(Rank())
        invariant old(StillSound()) ==> StillSound()
        invariant Healthy(old(io.socket.script)) ==> Healthy(io.socket.script)
        decreases Rank()
      {
        var flow := StepBody(io);
        if flow == GiveUp {
          return true;
        }
        if flow == Break {
          return false;
        }
        if flow.state == Pause {
          running := running.Pause();
          return false;
        }
        running := running.Resume();
      }
      return false;
    }

    /** Waits for the writer to get rid of its data; then whoever waits for
        that is told, and work goes on. */
    method Flush(io: H1Writer) returns (r: Poll<()>)
      requires Sending(io)
      modifies this`drain, this`running, io.buffer`data, io.socket
      ensures !r.Error? ==> Sending(io)
      ensures r.Ready? ==> running != Paused && !drain
      ensures r.NotReady? ==> |io.buffer.data| > io.bufferCapacity
      ensures Healthy(old(io.socket.script)) ==> Healthy(io.socket.script) && !r.Error?
    {
      r := io.PollCompleted(false);
      if r.Ready? {
        running := running.Resume();
        drain := false;
      }
    }

    /** One turn of the outer loop: the inner loop, and a flush if one is needed;
        after the flush it starts over. */
    method Round(io: H1Writer) returns (again: bool, r: Progress)
      requires Sending(io)
      modifies this`iostate, this`sent, this`ended, this`drain, this`running, io`written, io.encoder, io.buffer`data, io.socket
      ensures again ==>
                && Sending(io) && running != Paused && !drain && Rank() <= old(Rank())
                && (old(running) != Paused && !old(drain) ==> Rank() < old(Rank()))
      ensures !again && r == Pending ==>
                && Sending(io) && Rank() <= old(Rank())
                && (Rank() < old(Rank()) || Dry() || |io.buffer.data| > io.bufferCapacity)
      ensures !again && r == Completed ==> Sending(io) && iostate.Done? && ended && !Short() && sent == All()
      ensures old(StillSound()) ==> StillSound()
      ensures Healthy(old(io.socket.script)) ==> Healthy(io.socket.script)
      ensures !again && r == Failed && Healthy(old(io.socket.script)) && old(StillSound()) ==> FellShort()
    {
      if !drain && running != Paused {
        var failed := RunInner(io);
        if failed {
          return false, Failed;
        }
      }
      if running == Paused || drain {
        var flushed := Flush(io);
        return flushed.Ready?, if flushed.Error? then Failed else Pending;
      }
      r := Conclude(io);
      again := false;
    }

    /** Inner loop and flushes in turn, until there is nothing to do but wait,
        or the response is complete. */
    method Drive(io: H1Writer) returns (r: Progress)
      requires Sending(io)
      modifies this`iostate, this`sent, this`ended, this`drain, this`running, io`written, io.encoder, io.buffer`data, io.socket
      ensures r == Pending ==> Sending(io) && Rank() <= old(Rank())
      ensures r == Pending ==> Rank() < old(Rank()) || Dry() || |io.buffer.data| > io.bufferCapacity
      ensures r == Completed ==> Sending(io) && iostate.Done? && ended && !Short() && sent == All()
      ensures old(StillSound()) ==> StillSound()
      ensures Healthy(old(io.socket.script)) ==> Healthy(io.socket.script)
      ensures r == Failed && Healthy(old(io.socket.script)) && old(StillSound()) ==> FellShort()
    {
      var again := true;
      r := Pending;
      while again
        invariant again ==> Sending(io) && Rank() <= old(Rank())
        invariant !again && r == Pending ==>
                    && Sending(io) && Rank() <= old(Rank())
                    && (Rank() < old(Rank()) || Dry() || |io.buffer.data| > io.bufferCapacity)
        invariant !again && r == Completed ==> Sending(io) && iostate.Done? && ended && !Short() && sent == All()
        invariant old(StillSound()) ==> StillSound()
        invariant Healthy(old(io.socket.script)) ==> Healthy(io.socket.script)
        invariant !again && r == Failed && Healthy(old(io.socket.script)) && old(StillSound()) ==> FellShort()
        decreases again, Rank(), running == Paused || drain
      {
        again, r := Round(io);
      }
    }

    /** Once the source is over, the body is ended, maybe again. */
    method Conclude(io: H1Writer) returns (r: Progress)
      requires Sending(io)
      modifies this`ended, io.encoder, io.buffer`data
      ensures iostate.Done? <==> r != Pending
      ensures Sending(io) && (r == Completed ==> ended)
      ensures r == Pending ==> io.buffer.data == old(io.buffer.data)
      ensures r == Failed ==> FellShort()
      ensures r == Completed ==> !Short() && sent == All()
    {
      if iostate.Done? {
        var e := End(io);
        return if e.Err? then Failed else Completed;
      }
      return Pending;
    }

    /** One poll of the response. */
    method PollIo(io: H1Writer) returns (r: Progress)
      requires Fixed() && (Fresh(io) || Sending(io))
      requires Fresh(io) ==> running != Paused && !drain
      modifies this, io.Repr()
      ensures fresh(io.Repr() - old(io.Repr()))
      ensures old(Fresh(io)) ==>
                && base == old(io.Wire()) + HeadBytes()
                && kind == ForServer(req, reply, BodyOf(source)).kind
      ensures !old(Fresh(io)) ==> base == old(base) && kind == old(kind)
      ensures r == Pending ==> Sending(io) && Rank() <= old(Rank())
      ensures r == Pending ==> Rank() < old(Rank()) || Dry() || |io.buffer.data| > io.bufferCapacity
      ensures r == Completed ==> Sending(io) && iostate.Done? && ended && !Short() && sent == All()
      ensures old(StillSound()) ==> StillSound()
      ensures Healthy(old(io.socket.script)) ==> Healthy(io.socket.script)
      ensures r == Failed && Healthy(old(io.socket.script)) && old(StillSound()) ==> FellShort()
    {
      if iostate.Response? {
        r := PollFirst(io);
      } else {
        r := Drive(io);
      }
    }

    method PollFirst(io: H1Writer) returns (r: Progress)
      requires Fixed() && Fresh(io) && running != Paused && !drain
      modifies this, io.Repr()
      ensures fresh(io.Repr() - old(io.Repr()))
      ensures base == old(io.Wire()) + HeadBytes() && kind == ForServer(req, reply, BodyOf(source)).kind
      ensures r == Pending ==> Sending(io) && Rank() < old(Rank())
      ensures r == Completed ==> Sending(io) && iostate.Done? && ended && !Short() && sent == All()
      ensures old(StillSound()) ==> StillSound()
      ensures Healthy(old(io.socket.script)) ==> Healthy(io.socket.script)
      ensures r == Failed && Healthy(old(io.socket.script)) && old(StillSound()) ==> FellShort()
    {
      Enter(io);
      r := Drive(io);
    }

    /** The first turn of the inner loop. */
    method Enter(io: H1Writer)
      requires Fixed() && Fresh(io) && running != Paused && !drain
      modifies this, io.Repr()
      ensures fresh(io.Repr() - old(io.Repr()))
      ensures Sending(io) && (old(StillSound()) ==> StillSound()) && Rank() < old(Rank())
      ensures base == old(io.Wire()) + HeadBytes() && kind == ForServer(req, reply, BodyOf(source)).kind
      ensures io.socket.script == old(io.socket.script)
    {
      var flow := StepResponse(io);
      if flow.Result? {
        running := running.Resume();
      }
    }
  }

  function FirstOf(kind: EncodingKind, msgs: seq<Data>): (e: Encoded)
    requires |msgs| <= 1
  {
    if msgs == [] then Encoded(kind, []) else EncodeMsg(kind, msgs[0])
  }

  lemma FirstPut(kind: EncodingKind, msgs: seq<Data>)
    requires |msgs| <= 1
    ensures Put(kind, msgs, false) == FirstOf(kind, msgs)
  {
    if msgs != [] {
      PutMessage(kind, [], msgs[0]);
      assert [] + [msgs[0]] == msgs;
    }
  }

  lemma WireOf(accepted: Data, waiting: Data, head: Data, first: Data)
    ensures accepted + (waiting + head + first) == ((accepted + waiting) + head) + first
  {}
}
