/** Reading a request body from the connection into the payload channel
    (`Reader` in src/server/h1.rs). */
module BodyReader {
  import opened Bytes
  import opened BodyDecoder
  import Payload

  /** One answer of the connection; reading no bytes means that it was closed. */
  datatype IoRead = Received(data: Data) | WouldBlock | Failure

  function BytesOf(script: seq<IoRead>): (d: Data) {
    if script == [] then []
    else (if script[0].Received? then script[0].data else []) + BytesOf(script[1..])
  }

  /** Where reading stops at the latest, and what is left then. */
  datatype Halt = Halt(broken: bool, rest: seq<IoRead>)

  predicate Breaks(answer: IoRead) {
    answer.Failure? || answer == Received([])
  }

  /** The first answer that is not data: "would block", or a break. */
  function FirstHalt(script: seq<IoRead>): (h: Halt) {
    if script == [] then Halt(false, [])
    else if script[0].WouldBlock? then Halt(false, script[1..])
    else if Breaks(script[0]) then Halt(true, script[1..])
    else FirstHalt(script[1..])
  }

  /** The connection is neither closed nor broken. */
  predicate Steady(script: seq<IoRead>) {
    forall i | 0 <= i < |script| :: !Breaks(script[i])
  }

  /** How often the connection would block. */
  function Blocks(script: seq<IoRead>): (n: nat) {
    if script == [] then 0 else (if script[0].WouldBlock? then 1 else 0) + Blocks(script[1..])
  }

  /** A steady connection halts at its end, or takes up one of its blocks. */
  lemma {:induction false} SteadyHalt(script: seq<IoRead>)
    requires Steady(script)
    ensures var h := FirstHalt(script);
            && !h.broken && Steady(h.rest)
            && (h.rest == [] || Blocks(h.rest) < Blocks(script))
  {
    if script != [] {
      assert !Breaks(script[0]);
      assert Steady(script[1..]) by {
        forall i | 0 <= i < |script[1..]| ensures !Breaks(script[1..][i]) {
          assert script[1..][i] == script[i + 1];
        }
      }
      if !script[0].WouldBlock? {
        SteadyHalt(script[1..]);
      }
    }
  }

  /** The reading side of a connection: the answers it is going to give, then
      "would block". */
  class Io {
    var script: seq<IoRead>

    constructor (script: seq<IoRead>)
      ensures this.script == script
    {
      this.script := script;
    }

    /** Appends what one read returns to the buffer. */
    method ReadInto(buf: BytesMut) returns (r: Poll<nat>)
      modifies this, buf`data
      ensures old(script) == [] ==> r == NotReady && script == [] && buf.data == old(buf.data)
      ensures old(script) != [] ==>
                && script == old(script)[1..]
                && match old(script)[0]
                   case Received(d) => r == Ready(|d|) && buf.data == old(buf.data) + d
                   case WouldBlock => r == NotReady && buf.data == old(buf.data)
                   case Failure => r == Error && buf.data == old(buf.data)
      ensures old(buf.data) <= buf.data
      ensures BytesOf(old(script)) == buf.data[|old(buf.data)|..] + BytesOf(script)
    {
      if |script| == 0 {
        return NotReady;
      }
      var next := script[0];
      script := script[1..];
      match next {
        case Received(d) =>
          ghost var before := buf.data;
          buf.Extend(d);
          assert buf.data[|before|..] == d;
          r := Ready(|d|);
        case WouldBlock => r := NotReady;
        case Failure => r := Error;
      }
    }
  }

  lemma ResumeEmit(o: Data, r: Outcome, more: Data)
    requires r.Going? ==> WellFormed(r.kind)
    ensures Resume(Emit(o, r), more) == Emit(o, Resume(r, more))
  {
    if r.Going? {
      EmitEmit(o, r.out, Run(r.kind, more));
    }
  }

  /** More input behind a run that has been carried out in part. */
  lemma MoreInput(k0: Kind, s0: Data, out: Data, k: Kind, s: Data, d: Data)
    requires WellFormed(k0) && WellFormed(k)
    requires Run(k0, s0) == Emit(out, Run(k, s))
    ensures Run(k0, s0 + d) == Emit(out, Run(k, s + d))
  {
    RunSplit(k0, s0, d);
    RunSplit(k, s, d);
    ResumeEmit(out, Run(k, s), d);
  }

  lemma EmitNothing(out: Data, k: Kind)
    requires WellFormed(k) && !IsEof(k)
    ensures Going(k, out) == Emit(out, Run(k, []))
  {
    assert out + [] == out;
  }

  /** The receiver's data after `out` has been fed. */
  ghost predicate Fed(tx: Payload.Inner, before: Data, out: Data)
    reads tx
  {
    tx.alive ==> Concat(tx.items) == before + out
  }

  /** A body being received. */
  class PayloadInfo {
    const tx: Payload.Inner
    const decoder: Decoder

    ghost predicate Valid()
      reads this, tx, decoder
    {
      tx.Valid() && WellFormed(decoder.kind)
    }

    constructor (tx: Payload.Inner, decoder: Decoder)
      requires tx.Valid() && WellFormed(decoder.kind)
      ensures Valid() && this.tx == tx && this.decoder == decoder
    {
      this.tx := tx;
      this.decoder := decoder;
    }

    method Feed(d: Data)
      requires Valid()
      modifies tx
      ensures Valid() && tx.alive == old(tx.alive) && tx.eof == old(tx.eof) && tx.err == old(tx.err)
      ensures tx.alive ==> Concat(tx.items) == old(Concat(tx.items)) + d
    {
      ConcatPush(tx.items, d);
      tx.FeedData(d);
    }

    /** One call of the decoder: data is passed on, and so are the end of the
        body and an error; `stop` is the answer if nothing more can be decoded. */
    method DecodeOne(buf: BytesMut) returns (stop: Option<Poll<()>>, ghost d: Data)
      requires Valid()
      modifies tx, decoder, buf`data
      ensures Valid() && tx.alive == old(tx.alive) && Fed(tx, old(Concat(tx.items)), d)
      ensures var run := Run(old(decoder.kind), old(buf.data));
              match stop
              case None =>
                && run == Emit(d, Run(decoder.kind, buf.data))
                && |buf.data| < |old(buf.data)| && !IsEof(decoder.kind)
              case Some(Ready(_)) => run == Ended(d, buf.data) && IsEof(decoder.kind)
              case Some(NotReady) => run == Going(decoder.kind, d) && buf.data == []
              case Some(Error) => run == Failed(d, buf.data)
      ensures tx.alive ==>
                && (tx.eof <==> old(tx.eof) || (stop.Some? && stop.value.Ready?))
                && (tx.err <==> old(tx.err) || (stop.Some? && stop.value.Error?))
    {
      d := [];
      var polled := decoder.Decode(buf);
      match polled {
        case Ready(Some(data)) =>
          d := data;
          Feed(data);
          if IsEof(decoder.kind) {
            tx.FeedEof();
            return Some(Ready(())), d;
          }
          stop := None;
        case Ready(None) =>
          tx.FeedEof();
          stop := Some(Ready(()));
        case NotReady => stop := Some(NotReady);
        case Error =>
          tx.SetError();
          stop := Some(Poll.Error);
      }
    }

    /** Decodes everything in the buffer: data as far as it goes, then the end
        of the body, an error, or a wait for more input. */
    method DecodeAll(buf: BytesMut) returns (r: Poll<()>, ghost out: Data)
      requires Valid()
      modifies tx, decoder, buf`data
      ensures Valid() && tx.alive == old(tx.alive)
      ensures Fed(tx, old(Concat(tx.items)), out)
      ensures match r
              case Ready(_) => Run(old(decoder.kind), old(buf.data)) == Ended(out, buf.data) && IsEof(decoder.kind)
              case NotReady => Run(old(decoder.kind), old(buf.data)) == Going(decoder.kind, out) && buf.data == []
              case Error => Run(old(decoder.kind), old(buf.data)) == Failed(out, buf.data)
      ensures tx.alive ==> (tx.eof <==> old(tx.eof) || r.Ready?) && (tx.err <==> old(tx.err) || r.Error?)
    {
      ghost var k0, s0 := decoder.kind, buf.data;
      out := [];
      EmitEmpty(Run(k0, s0));
      while true
        invariant Valid() && tx.alive == old(tx.alive)
        invariant tx.alive ==> tx.eof == old(tx.eof) && tx.err == old(tx.err)
        invariant Fed(tx, old(Concat(tx.items)), out)
        invariant Run(k0, s0) == Emit(out, Run(decoder.kind, buf.data))
        decreases |buf.data|
      {
        var stop;
        ghost var d;
        stop, d := DecodeOne(buf);
        Assoc(old(Concat(tx.items)), out, d);
        if stop.Some? {
          return stop.value, out + d;
        }
        EmitEmit(out, d, Run(decoder.kind, buf.data));
        out := out + d;
      }
    }
  }

  class Reader {
    var payload: Option<PayloadInfo>

    /** How often a body has been polled for, and how often with success: with a
        receiver that is there and wants to read. */
    ghost var polled: nat
    ghost var served: nat

    constructor ()
      ensures payload == None && polled == served == 0
    {
      payload := None;
      polled, served := 0, 0;
    }

    /** The body bytes that came with the message head. An empty buffer is not
        even looked at, so a body of length 0 is only found complete later. */
    method Decode(buf: BytesMut, info: PayloadInfo) returns (r: Poll<()>, ghost out: Data)
      requires info.Valid()
      modifies info.tx, info.decoder, buf`data
      ensures info.Valid() && info.tx.alive == old(info.tx.alive)
      ensures Fed(info.tx, old(Concat(info.tx.items)), out)
      ensures old(buf.data) == [] ==>
                r == NotReady && out == [] && buf.data == [] && info.decoder.kind == old(info.decoder.kind)
      ensures old(buf.data) != [] ==>
                match r
                case Ready(_) => Run(old(info.decoder.kind), old(buf.data)) == Ended(out, buf.data)
                case NotReady => Run(old(info.decoder.kind), old(buf.data)) == Going(info.decoder.kind, out) && buf.data == []
                case Error => Run(old(info.decoder.kind), old(buf.data)) == Failed(out, buf.data)
      ensures info.tx.alive ==>
                && (info.tx.eof <==> old(info.tx.eof) || r.Ready?)
                && (info.tx.err <==> old(info.tx.err) || r.Error?)
    {
      ghost var k0, s0 := info.decoder.kind, buf.data;
      out := [];
      EmitEmpty(Run(k0, s0));
      while |buf.data| > 0
        invariant info.Valid() && info.tx.alive == old(info.tx.alive)
        invariant Fed(info.tx, old(Concat(info.tx.items)), out)
        invariant Run(k0, s0) == Emit(out, Run(info.decoder.kind, buf.data))
        invariant s0 == [] ==> buf.data == [] && info.decoder.kind == k0 && out == []
        invariant info.tx.alive ==> info.tx.eof == old(info.tx.eof) && info.tx.err == old(info.tx.err)
        invariant s0 != [] && buf.data == [] ==> !IsEof(info.decoder.kind)
        decreases |buf.data|
      {
        var stop;
        ghost var d;
        stop, d := info.DecodeOne(buf);
        Assoc(old(Concat(info.tx.items)), out, d);
        if stop.Some? {
          return stop.value, out + d;
        }
        EmitEmit(out, d, Run(info.decoder.kind, buf.data));
        out := out + d;
      }
      r := NotReady;
    }

    /** One read; what has been read and decoded so far still fits together. */
    method ReadOn(io: Io, buf: BytesMut, info: PayloadInfo, ghost k0: Kind, ghost s0: Data, ghost got: Data, ghost out: Data)
      returns (n: Poll<nat>, ghost got': Data)
      requires WellFormed(k0) && WellFormed(info.decoder.kind)
      requires Run(k0, s0 + got) == Emit(out, Run(info.decoder.kind, buf.data))
      modifies io, buf`data
      ensures Run(k0, s0 + got') == Emit(out, Run(info.decoder.kind, buf.data))
      ensures got + BytesOf(old(io.script)) == got' + BytesOf(io.script)
      ensures n.NotReady? ==> FirstHalt(old(io.script)) == Halt(false, io.script)
      ensures n.Error? || n == Ready(0) ==> FirstHalt(old(io.script)) == Halt(true, io.script)
      ensures n.Ready? ==> |io.script| < |old(io.script)|
      ensures n.Ready? && n.value > 0 ==> FirstHalt(io.script) == FirstHalt(old(io.script))
    {
      ghost var before := buf.data;
      n := io.ReadInto(buf);
      ghost var d := buf.data[|before|..];
      assert buf.data == before + d;
      Assoc(got, d, BytesOf(io.script));
      Assoc(s0, got, d);
      MoreInput(k0, s0 + got, out, info.decoder.kind, before, d);
      got' := got + d;
    }

    /** One turn of the reading loop: a read, and then the decoding of what is
        there; `stop` is the answer if it goes no further. */
    method Turn(io: Io, buf: BytesMut, info: PayloadInfo,
                ghost k0: Kind, ghost s0: Data, ghost got: Data, ghost out: Data, ghost before: Data)
      returns (stop: Option<Poll<()>>, ghost got': Data, ghost out': Data)
      requires info.Valid() && WellFormed(k0) && Fed(info.tx, before, out)
      requires Run(k0, s0 + got) == Emit(out, Run(info.decoder.kind, buf.data))
      modifies info.tx, info.decoder, io, buf`data
      ensures info.Valid() && info.tx.alive == old(info.tx.alive) && Fed(info.tx, before, out')
      ensures info.tx.alive ==>
                && (info.tx.eof <==> old(info.tx.eof) || (stop.Some? && stop.value.Ready?))
                && (info.tx.err <==> old(info.tx.err) || (stop.Some? && stop.value.Error?))
      ensures got + BytesOf(old(io.script)) == got' + BytesOf(io.script)
      ensures match stop
              case None =>
                && Run(k0, s0 + got') == Emit(out', Run(info.decoder.kind, buf.data))
                && |io.script| < |old(io.script)| && FirstHalt(old(io.script)) == FirstHalt(io.script)
              case Some(Ready(_)) => Run(k0, s0 + got') == Ended(out', buf.data)
              case Some(NotReady) =>
                && Run(k0, s0 + got') == Going(info.decoder.kind, out') && buf.data == []
                && FirstHalt(old(io.script)) == Halt(false, io.script)
              case Some(Error) =>
                && out' <= Run(k0, s0 + got').out
                && (Run(k0, s0 + got') == Failed(out', buf.data) || FirstHalt(old(io.script)) == Halt(true, io.script))
    {
      out' := out;
      var n;
      n, got' := ReadOn(io, buf, info, k0, s0, got, out);
      if n.Error? || n == Ready(0) {
        info.tx.SetError();
        return Some(Poll.Error), got', out';
      }
      var polled;
      ghost var more;
      polled, more := info.DecodeAll(buf);
      Assoc(before, out, more);
      out' := out + more;
      if polled.NotReady? && !n.NotReady? {
        EmitNothing(out', info.decoder.kind);
        stop := None;
      } else {
        stop := Some(polled);
      }
    }

    /** One poll for body bytes: reads the connection until it would block, the
        body is complete, or something fails. `got` is what was read. */
    method ReadPayload(io: Io, buf: BytesMut) returns (r: Poll<()>, ghost got: Data, ghost out: Data)
      requires payload.Some? && payload.value.Valid()
      modifies this`payload, payload.value.tx, payload.value.decoder, io, buf`data
      ensures old(payload.value).Valid() && old(payload.value).tx.alive == old(payload.value.tx.alive)
      ensures payload == if r.Ready? then None else old(payload)
      ensures BytesOf(old(io.script)) == got + BytesOf(io.script)
      ensures r.NotReady? ==> FirstHalt(old(io.script)) == Halt(false, io.script)
      ensures Fed(old(payload.value).tx, old(Concat(payload.value.tx.items)), out)
      ensures var whole := Run(old(payload.value.decoder.kind), old(buf.data) + got);
              match r
              case Ready(_) => whole == Ended(out, buf.data)
              case NotReady => whole == Going(old(payload.value).decoder.kind, out) && buf.data == []
              case Error =>
                && out <= whole.out
                && (whole == Failed(out, buf.data) || FirstHalt(old(io.script)) == Halt(true, io.script))
      ensures old(payload.value).tx.alive ==>
                && (old(payload.value).tx.eof <==> old(payload.value.tx.eof) || r.Ready?)
                && (old(payload.value).tx.err <==> old(payload.value.tx.err) || r.Error?)
    {
      var info := payload.value;
      ghost var k0, s0 := info.decoder.kind, buf.data;
      got, out := [], [];
      assert s0 + [] == s0;
      EmitEmpty(Run(k0, s0));
      while true
        invariant info.Valid() && info.tx.alive == old(info.tx.alive) && payload == Some(info)
        invariant info.tx.alive ==> info.tx.eof == old(info.tx.eof) && info.tx.err == old(info.tx.err)
        invariant BytesOf(old(io.script)) == got + BytesOf(io.script)
        invariant FirstHalt(old(io.script)) == FirstHalt(io.script)
        invariant Fed(info.tx, old(Concat(info.tx.items)), out)
        invariant Run(k0, s0 + got) == Emit(out, Run(info.decoder.kind, buf.data))
        decreases |io.script|
      {
        var stop;
        stop, got, out := Turn(io, buf, info, k0, s0, got, out, old(Concat(info.tx.items)));
        if stop.Some? {
          if stop.value.Ready? {
            payload := None;
          }
          return stop.value, got, out;
        }
      }
    }

    /** The payload part of a parse: nothing is read while the receiver has
        enough, and a receiver that is gone is an error. */
    method PollPayload(io: Io, buf: BytesMut) returns (r: Poll<()>, ghost got: Data, ghost out: Data)
      requires payload.Some? && payload.value.Valid()
      modifies this, payload.value.tx, payload.value.decoder, io, buf`data
      ensures old(payload.value).Valid() && old(payload.value).tx.alive == old(payload.value.tx.alive)
      ensures payload == if r.Ready? then None else old(payload)
      ensures polled == old(polled) + 1
      ensures served == old(served) + if old(payload.value.tx.alive) && old(payload.value.tx.needRead) then 1 else 0
      ensures BytesOf(old(io.script)) == got + BytesOf(io.script)
      ensures served == old(served) ==>
                && r == (if old(payload.value.tx.alive) then NotReady else Error)
                && got == [] && out == [] && io.script == old(io.script) && buf.data == old(buf.data)
                && payload.value.decoder.kind == old(payload.value.decoder.kind) && unchanged(payload.value.tx)
      ensures served > old(served) ==>
                && Concat(old(payload.value).tx.items) == old(Concat(payload.value.tx.items)) + out
                && (old(payload.value).tx.eof <==> old(payload.value.tx.eof) || r.Ready?)
                && (old(payload.value).tx.err <==> old(payload.value.tx.err) || r.Error?)
      ensures served > old(served) ==>
                Serves(old(payload.value.decoder.kind), old(buf.data), old(io.script), got, out,
                       r, old(payload.value).decoder.kind, buf.data, io.script)
    {
      got, out := [], [];
      polled := polled + 1;
      var status := payload.value.tx.NeedRead();
      match status {
        case Read =>
          served := served + 1;
          r, got, out := ReadPayload(io, buf);
        case Pause => r := NotReady;
        case Dropped => r := Error;
      }
    }
  }

  /** What a poll makes of decoder, buffer and connection: `got` is read and `out`
      is what it decodes to. */
  ghost predicate Serves(k: Kind, s: Data, script: seq<IoRead>, got: Data, out: Data,
                         r: Poll<()>, k': Kind, s': Data, script': seq<IoRead>)
    requires WellFormed(k)
  {
    var run := Run(k, s + got);
    match r
    case Ready(_) => run == Ended(out, s')
    case NotReady => run == Going(k', out) && s' == [] && FirstHalt(script) == Halt(false, script')
    case Error => out <= run.out && (run == Failed(out, s') || FirstHalt(script) == Halt(true, script'))
  }

  // ---- Receiving a body, while the receiver does as it likes ----

  /** The connection polls for the body; the receiver reads, puts back the last
      bytes that it has taken, or goes away. */
  datatype Step = Polling | Reading | Unreading(n: nat) | Dropping

  function Polls(steps: seq<Step>): (n: nat) {
    if steps == [] then 0 else Polls(steps[..|steps| - 1]) + if steps[|steps| - 1].Polling? then 1 else 0
  }

  /** How things are at the start. */
  datatype Start = Start(kind: Kind, data: Data, script: seq<IoRead>, before: Data, eof: bool, err: bool)

  /** Where the decoding stands: of the input so far, `out` has been fed. */
  ghost predicate Decoded(c: Start, got: Data, out: Data, r: Poll<()>, kind: Kind, data: Data)
    requires WellFormed(c.kind) && WellFormed(kind)
  {
    var run := Run(c.kind, c.data + got);
    match r
    case Ready(_) => run == Ended(out, data)
    case NotReady => run == Emit(out, Run(kind, data))
    case Error => out <= run.out
  }

  /** Where the reading stands, over `served` polls: as long as nothing is decided,
      each of them has taken up a block. */
  ghost predicate Progressed(c: Start, run: Outcome, got: Data, r: Poll<()>, script: seq<IoRead>, alive: bool, served: nat) {
    && BytesOf(c.script) == got + BytesOf(script)
    && (r.NotReady? && served > 0 ==> run.Going?)
    && (r.Error? ==> run.Failed? || !Steady(c.script) || !alive)
    && (Steady(c.script) && (r.NotReady? || (r.Error? && !run.Failed?)) ==>
          && Steady(script)
          && ((served > 0 && script == [] && run.Going?) || served + Blocks(script) <= Blocks(c.script)))
  }

  /** Where the channel stands: `taken` has been read from it. */
  ghost predicate Channeled(c: Start, out: Data, taken: Data, r: Poll<()>, last: Option<Poll<Option<Data>>>,
                            items: seq<Data>, eof: bool, err: bool)
  {
    && taken + Concat(items) == c.before + out
    && (eof ==> c.eof || r.Ready?) && (err ==> c.err || r.Error?)
    && (last == Some(Ready(None)) && !c.eof ==> r.Ready? && items == [])
    && (last == Some(Poll.Error) && !c.err ==> r.Error?)
  }

  lemma DecodedOn(c: Start, got: Data, out: Data, k: Kind, d: Data, script: seq<IoRead>,
                  more: Data, fed: Data, r: Poll<()>, k': Kind, d': Data, script': seq<IoRead>)
    requires WellFormed(c.kind) && WellFormed(k) && WellFormed(k')
    requires Decoded(c, got, out, NotReady, k, d) && Serves(k, d, script, more, fed, r, k', d', script')
    ensures Decoded(c, got + more, out + fed, r, k', d')
    ensures r.NotReady? ==> Run(c.kind, c.data + (got + more)) == Going(k', out + fed)
    ensures r.Error? ==>
              Run(c.kind, c.data + (got + more)) == Failed(out + fed, d') || FirstHalt(script) == Halt(true, script')
  {
    Assoc(c.data, got, more);
    MoreInput(c.kind, c.data + got, out, k, d, more);
    EmitOn(out, Run(k, d + more), fed);
    if r.NotReady? {
      EmitNothing(out + fed, k');
    }
  }

  lemma EmitOn(out: Data, run: Outcome, fed: Data)
    ensures run.out == fed ==> Emit(out, run).out == out + fed
    ensures fed <= run.out ==> out + fed <= Emit(out, run).out
  {
    if fed <= run.out {
      assert run.out == fed + run.out[|fed|..];
      Assoc(out, fed, run.out[|fed|..]);
    }
  }

  lemma ProgressedOn(c: Start, run: Outcome, run': Outcome, got: Data, script: seq<IoRead>, served: nat,
                     more: Data, r: Poll<()>, script': seq<IoRead>)
    requires Progressed(c, run, got, NotReady, script, true, served)
    requires BytesOf(script) == more + BytesOf(script')
    requires r.NotReady? ==> run'.Going? && FirstHalt(script) == Halt(false, script')
    requires r.Error? ==> run'.Failed? || FirstHalt(script) == Halt(true, script')
    ensures Progressed(c, run', got + more, r, script', true, served + 1)
    ensures FirstHalt(script).broken ==> !Steady(c.script)
  {
    Assoc(got, more, BytesOf(script'));
    if Steady(c.script) {
      SteadyHalt(script);
    }
  }

  /** All of it together, `n` served polls after the start. */
  ghost predicate Receiving(reader: Reader, info: PayloadInfo, io: Io, buf: BytesMut, c: Start, got: Data, out: Data,
                            r: Poll<()>, taken: Data, last: Option<Poll<Option<Data>>>, n: nat)
    reads reader, info, info.tx, info.decoder, io, buf
  {
    && info.Valid() && WellFormed(c.kind) && reader.payload == (if r.Ready? then None else Some(info))
    && Decoded(c, got, out, r, info.decoder.kind, buf.data)
    && Channeled(c, out, taken, r, last, info.tx.items, info.tx.eof, info.tx.err)
    && var run := Run(c.kind, c.data + got);
    && Progressed(c, run, got, r, io.script, info.tx.alive, n)
    && (r.NotReady? && n > 0 ==> run == Going(info.decoder.kind, out) && buf.data == [])
    && (r.Error? ==> run == Failed(out, buf.data) || !Steady(c.script) || !info.tx.alive)
  }

  /** The connection polls for the body, unless that is over. */
  method PollStep(reader: Reader, info: PayloadInfo, io: Io, buf: BytesMut, ghost c: Start, ghost got: Data, ghost out: Data,
                  r: Poll<()>, ghost taken: Data, ghost last: Option<Poll<Option<Data>>>, ghost n: nat)
    returns (r': Poll<()>, ghost got': Data, ghost out': Data, ghost n': nat)
    requires Receiving(reader, info, io, buf, c, got, out, r, taken, last, n)
    modifies reader, info.tx, info.decoder, io, buf`data
    ensures Receiving(reader, info, io, buf, c, got', out', r', taken, last, n')
    ensures info.tx.alive == old(info.tx.alive) && reader.served == old(reader.served) + (n' - n)
    ensures reader.polled == old(reader.polled) + if r.NotReady? then 1 else 0
    ensures r'.NotReady? ==> r.NotReady? && n' == n + if old(info.tx.needRead) then 1 else 0
  {
    r', got', out', n' := r, got, out, n;
    if r.NotReady? {
      ghost var k, d, script := info.decoder.kind, buf.data, io.script;
      ghost var more, fed;
      r', more, fed := reader.PollPayload(io, buf);
      if reader.served > old(reader.served) {
        got', out', n' := got + more, out + fed, n + 1;
        DecodedOn(c, got, out, k, d, script, more, fed, r', info.decoder.kind, buf.data, io.script);
        ProgressedOn(c, Run(c.kind, c.data + got), Run(c.kind, c.data + got'), got, script, n, more, r', io.script);
        Assoc(taken, Concat(old(info.tx.items)), fed);
        Assoc(c.before, out, fed);
      }
    }
  }

  /** The receiver does something, if it is there. */
  method ReceiverStep(info: PayloadInfo, step: Step, taken: Data, last: Option<Poll<Option<Data>>>,
                      ghost c: Start, ghost out: Data, ghost r: Poll<()>)
    returns (taken': Data, last': Option<Poll<Option<Data>>>)
    requires info.Valid() && Channeled(c, out, taken, r, last, info.tx.items, info.tx.eof, info.tx.err)
    modifies info.tx
    ensures info.Valid() && Channeled(c, out, taken', r, last', info.tx.items, info.tx.eof, info.tx.err)
    ensures info.tx.alive == (old(info.tx.alive) && !step.Dropping?)
  {
    taken', last' := taken, last;
    if info.tx.alive {
      match step {
        case Polling =>
        case Reading =>
          var answer := info.tx.ReadAny();
          last' := Some(answer);
          if answer.Ready? && answer.value.Some? {
            Assoc(taken, answer.value.value, Concat(info.tx.items));
            taken' := taken + answer.value.value;
          }
        case Unreading(n) =>
          var k := |taken| - Min(n, |taken|);
          Halves(taken, k);
          ConcatCons(taken[k..], info.tx.items);
          Assoc(taken[..k], taken[k..], Concat(info.tx.items));
          info.tx.UnreadData(taken[k..]);
          taken', last' := taken[..k], None;
        case Dropping => info.tx.Drop();
      }
    }
  }

  /** Nothing is decided by more than the whole body. */
  lemma OutIsPart(c: Start, got: Data, out: Data, kind: Kind, data: Data, rest: Data)
    requires WellFormed(c.kind) && WellFormed(kind) && Decoded(c, got, out, NotReady, kind, data)
    ensures |out| <= |Run(c.kind, c.data + (got + rest)).out|
  {
    Assoc(c.data, got, rest);
    RunSplit(c.kind, c.data + got, rest);
    ResumeKeeps(Run(c.kind, c.data + got), rest);
  }

  lemma ResumeKeeps(run: Outcome, more: Data)
    requires run.Going? ==> WellFormed(run.kind)
    ensures |run.out| <= |Resume(run, more).out|
  {}

  /** One step. A poll is served while the receiver is there and its capacity is
      not reached. */
  method StepOn(reader: Reader, info: PayloadInfo, io: Io, buf: BytesMut, step: Step,
                ghost c: Start, ghost got: Data, ghost out: Data,
                r: Poll<()>, taken: Data, last: Option<Poll<Option<Data>>>, ghost n: nat)
    returns (r': Poll<()>, taken': Data, last': Option<Poll<Option<Data>>>, ghost got': Data, ghost out': Data, ghost n': nat)
    requires Receiving(reader, info, io, buf, c, got, out, r, taken, last, n)
    modifies reader, info.tx, info.decoder, io, buf`data
    ensures Receiving(reader, info, io, buf, c, got', out', r', taken', last', n')
    ensures reader.served == old(reader.served) + (n' - n)
    ensures info.tx.alive == (old(info.tx.alive) && !step.Dropping?)
    ensures r'.NotReady? ==> r.NotReady? && reader.polled == old(reader.polled) + if step.Polling? then 1 else 0
    ensures r'.NotReady? && Small(c, info.tx.capacity) ==> n' == n + if step.Polling? then 1 else 0
  {
    r', taken', last', got', out', n' := r, taken, last, got, out, n;
    if r.NotReady? {
      OutIsPart(c, got, out, info.decoder.kind, buf.data, BytesOf(io.script));
    }
    if step.Polling? {
      r', got', out', n' := PollStep(reader, info, io, buf, c, got, out, r, taken, last, n);
    } else {
      taken', last' := ReceiverStep(info, step, taken, last, c, out, r);
    }
  }

  /** The whole body does not reach the capacity. */
  ghost predicate Small(c: Start, capacity: nat)
    requires WellFormed(c.kind)
  {
    |c.before| + |Run(c.kind, c.data + BytesOf(c.script)).out| < capacity
  }

  /** Any schedule of polls and of what the receiver does. `got` is what has been
      read from the connection, `out` what it decodes to, and `taken` what the
      receiver has, which together with what lies in the channel is all that was
      fed.

      Once the body is complete, `out` is what it decodes to, and the rest of the
      input is kept for the next message; until then the body goes on, with
      everything decoded if it has been read for at all; and an error is the
      decoder's, the connection's, or that of a receiver that is gone. A receiver
      that is told the end has the whole body.

      With a steady connection, a body that ends is complete once more polls have
      been served than there are blocks; and every poll is served while the
      receiver stays and its capacity is not reached. */
  method ReceiveBody(reader: Reader, io: Io, buf: BytesMut, steps: seq<Step>)
    returns (r: Poll<()>, taken: Data, last: Option<Poll<Option<Data>>>, ghost got: Data, ghost out: Data)
    requires reader.payload.Some? && reader.payload.value.Valid()
    modifies reader, reader.payload.value.tx, reader.payload.value.decoder, io, buf`data
    ensures BytesOf(old(io.script)) == got + BytesOf(io.script)
    ensures var tx := old(reader.payload.value).tx;
            && tx.Valid() && tx.alive == (old(reader.payload.value.tx.alive) && Dropping !in steps)
            && taken + Concat(tx.items) == old(Concat(reader.payload.value.tx.items)) + out
    ensures var info := old(reader.payload.value);
            var run := Run(old(reader.payload.value.decoder.kind), old(buf.data) + got);
            match r
            case Ready(_) => run == Ended(out, buf.data) && reader.payload.None?
            case NotReady =>
              && reader.payload == Some(info) && WellFormed(info.decoder.kind)
              && run == Emit(out, Run(info.decoder.kind, buf.data))
              && (reader.served > old(reader.served) ==> run == Going(info.decoder.kind, out) && buf.data == [])
            case Error =>
              && out <= run.out
              && (run == Failed(out, buf.data) || !Steady(old(io.script)) || !info.tx.alive)
    ensures last == Some(Ready(None)) && !old(reader.payload.value.tx.eof) ==>
              r.Ready? && taken == old(Concat(reader.payload.value.tx.items)) + out
    ensures last == Some(Poll.Error) && !old(reader.payload.value.tx.err) ==> r.Error?
    ensures r.NotReady? ==> reader.polled == old(reader.polled) + Polls(steps)
    ensures var whole := Run(old(reader.payload.value.decoder.kind), old(buf.data) + BytesOf(old(io.script)));
            && (r.Ready? ==> whole == Ended(out, buf.data + BytesOf(io.script)))
            && (Steady(old(io.script)) && whole.Ended? && reader.served > old(reader.served) + Blocks(old(io.script)) ==> r.Ready?)
            && (Steady(old(io.script)) && whole.Ended? && Polls(steps) > Blocks(old(io.script)) ==>
                  || r.Ready? || !old(reader.payload.value).tx.alive
                  || old(reader.payload.value).tx.capacity <= |old(Concat(reader.payload.value.tx.items))| + |whole.out|)
  {
    var info := reader.payload.value;
    ghost var c := Start(info.decoder.kind, buf.data, io.script, Concat(info.tx.items), info.tx.eof, info.tx.err);
    ghost var n := 0;
    r, taken, last, got, out := NotReady, [], None, [], [];
    Begin(c);
    var i := 0;
    while i < |steps|
      invariant i <= |steps| && Receiving(reader, info, io, buf, c, got, out, r, taken, last, n)
      invariant reader.served == old(reader.served) + n
      invariant info.tx.alive == (old(info.tx.alive) && Dropping !in steps[..i])
      invariant r.NotReady? ==> reader.polled == old(reader.polled) + Polls(steps[..i])
      invariant r.NotReady? && Small(c, info.tx.capacity) ==> n == Polls(steps[..i])
    {
      assert steps[..i + 1][..i] == steps[..i];
      r, taken, last, got, out, n := StepOn(reader, info, io, buf, steps[i], c, got, out, r, taken, last, n);
      i := i + 1;
    }
    assert steps[..i] == steps;
    Conclusion(c, got, out, r, buf.data, io.script, info.tx.alive, n);
  }

  lemma Begin(c: Start)
    requires WellFormed(c.kind)
    ensures Decoded(c, [], [], NotReady, c.kind, c.data)
    ensures Progressed(c, Run(c.kind, c.data + []), [], NotReady, c.script, true, 0)
    ensures [] + c.before == c.before + []
  {
    assert c.data + [] == c.data;
    EmitEmpty(Run(c.kind, c.data));
  }

  lemma Conclusion(c: Start, got: Data, out: Data, r: Poll<()>, data: Data, script: seq<IoRead>, alive: bool, n: nat)
    requires WellFormed(c.kind) && Progressed(c, Run(c.kind, c.data + got), got, r, script, alive, n)
    requires r.Ready? ==> Run(c.kind, c.data + got) == Ended(out, data)
    ensures var whole := Run(c.kind, c.data + BytesOf(c.script));
            && (r.Ready? ==> whole == Ended(out, data + BytesOf(script)))
            && (Steady(c.script) && whole.Ended? && n > Blocks(c.script) ==> r.Ready?)
            && (Steady(c.script) && whole.Ended? && alive && r.Error? ==> false)
  {
    Assoc(c.data, got, BytesOf(script));
    RunSplit(c.kind, c.data + got, BytesOf(script));
    if Run(c.kind, c.data + BytesOf(c.script)).Ended? {
      CannotWait(c.kind, c.data, c.script, got, script);
    }
  }

  /** A connection that stays steady and a body that ends: it cannot have failed,
      nor still be waited for when everything has been read. */
  lemma CannotWait(k0: Kind, s0: Data, script: seq<IoRead>, got: Data, rest: seq<IoRead>)
    requires WellFormed(k0) && BytesOf(script) == got + BytesOf(rest)
    requires Run(k0, s0 + BytesOf(script)).Ended?
    ensures !Run(k0, s0 + got).Failed?
    ensures rest == [] ==> !Run(k0, s0 + got).Going?
  {
    RunSplit(k0, s0 + got, BytesOf(rest));
    Assoc(s0, got, BytesOf(rest));
    if rest == [] {
      assert got + [] == got;
    }
  }

  /** A receiver that does not read, with its capacity reached: the connection has
      the rest of the body and does not block, and still no poll reads it. */
  method FullReceiverStalls(polls: nat) returns (reader: Reader, io: Io, buf: BytesMut)
    ensures reader.payload.Some? && reader.payload.value.Valid() && reader.payload.value.tx.alive && reader.polled == polls
    ensures Steady(io.script) && Blocks(io.script) == 0
    ensures Run(reader.payload.value.decoder.kind, buf.data + BytesOf(io.script)) == Ended([7], [])
  {
    var tx := new Payload.Inner(false, 1);
    tx.FeedData([0]);
    var decoder := new Decoder.Length(1);
    var info := new PayloadInfo(tx, decoder);
    reader := new Reader();
    reader.payload := Some(info);
    io := new Io([Received([7])]);
    buf := new BytesMut([]);
    LastByte();
    assert tx.items == [[0]];
    var i := 0;
    while i < polls
      invariant i <= polls && reader.polled == i && reader.payload == Some(info) && info.Valid()
      invariant tx.alive && !tx.needRead && io.script == [Received([7])] && buf.data == [] && decoder.kind == Length(1)
    {
      ghost var got, out;
      var r;
      r, got, out := reader.PollPayload(io, buf);
      i := i + 1;
    }
  }

  lemma LastByte()
    ensures Run(Length(1), [] + BytesOf([Received([7])])) == Ended([7], []) && Blocks([Received([7])]) == 0
  {
    assert [Received([7])][1..] == [];
    assert [7][1..] == [];
  }
}
