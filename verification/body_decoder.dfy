/** The incremental decoder of message bodies (src/server/h1.rs). */
module BodyDecoder {
  import opened Bytes

  datatype ChunkedState =
    | Size | SizeLws | Extension | SizeLf | Body | BodyCr | BodyLf | EndCr | EndLf | End

  datatype Kind =
    | Length(remaining: nat)
    | Chunked(state: ChunkedState, size: nat)
    | Eof(isEof: bool)

  predicate IsEof(k: Kind) {
    k == Length(0) || (k.Chunked? && k.state == End) || k == Eof(true)
  }

  /** What holds of every decoder state between two calls. A chunk size is 0
      outside the size line and the chunk body, so each one is parsed from 0. */
  predicate WellFormed(k: Kind) {
    match k
    case Length(n) => n < U64
    case Chunked(st, size) =>
      && size < U64
      && (st == Body ==> size > 0)
      && (st in {BodyCr, BodyLf, EndCr, EndLf, End} ==> size == 0)
    case Eof(_) => true
  }

  // ---- Reference: an automaton that reads one byte at a time ----

  datatype Move = Next(kind: Kind, out: Data) | Reject

  /** The value of a hexadecimal digit, upper or lower case. */
  function HexValue(b: byte): (v: Option<nat>)
    ensures v.Some? ==> v.value < 16
  {
    if 48 <= b <= 57 then Some(b - 48)
    else if 97 <= b <= 102 then Some(b + 10 - 97)
    else if 65 <= b <= 70 then Some(b + 10 - 65)
    else None
  }

  predicate IsBlank(b: byte) { b == 9 || b == 32 }

  function MoveChunked(st: ChunkedState, size: nat, b: byte): (m: Move)
    requires WellFormed(Chunked(st, size)) && st != End
    ensures m.Next? ==> m.kind.Chunked? && WellFormed(m.kind)
  {
    match st
    case Size =>
      if HexValue(b).Some? then Next(Chunked(Size, (size * 16 + HexValue(b).value) % U64), [])
      else if IsBlank(b) then Next(Chunked(SizeLws, size), [])
      else if b == 59 then Next(Chunked(Extension, size), [])
      else if b == CR then Next(Chunked(SizeLf, size), [])
      else Reject
    case SizeLws =>
      if IsBlank(b) then Next(Chunked(SizeLws, size), [])
      else if b == 59 then Next(Chunked(Extension, size), [])
      else if b == CR then Next(Chunked(SizeLf, size), [])
      else Reject
    case Extension => Next(Chunked(if b == CR then SizeLf else Extension, size), [])
    case SizeLf =>
      if b == LF then Next(Chunked(if size > 0 then Body else EndCr, size), []) else Reject
    case Body => Next(Chunked(if size > 1 then Body else BodyCr, size - 1), [b])
    case BodyCr => if b == CR then Next(Chunked(BodyLf, 0), []) else Reject
    case BodyLf => if b == LF then Next(Chunked(Size, 0), []) else Reject
    case EndCr => if b == CR then Next(Chunked(EndLf, 0), []) else Reject
    case EndLf => if b == LF then Next(Chunked(End, 0), []) else Reject
  }

  function MoveByte(k: Kind, b: byte): (m: Move)
    requires WellFormed(k) && !IsEof(k)
    ensures m.Next? ==> WellFormed(m.kind)
  {
    match k
    case Length(n) => Next(Length(n - 1), [b])
    case Chunked(st, size) => MoveChunked(st, size, b)
    case Eof(_) => Next(k, [b])
  }

  /** Where a run over some input stops: the input is used up, the body is
      complete with `rest` left unread, or a byte is refused. */
  datatype Outcome =
    | Going(kind: Kind, out: Data)
    | Ended(out: Data, rest: Data)
    | Failed(out: Data, rest: Data)

  function Emit(o: Data, r: Outcome): (r': Outcome) {
    match r
    case Going(k, out) => Going(k, o + out)
    case Ended(out, rest) => Ended(o + out, rest)
    case Failed(out, rest) => Failed(o + out, rest)
  }

  function Run(k: Kind, s: Data): (r: Outcome)
    requires WellFormed(k)
    ensures r.Going? ==> WellFormed(r.kind) && !IsEof(r.kind)
    decreases |s|
  {
    if IsEof(k) then Ended([], s)
    else if s == [] then Going(k, [])
    else
      match MoveByte(k, s[0])
      case Reject => Failed([], s[1..])
      case Next(k', o) => Emit(o, Run(k', s[1..]))
  }

  // ---- Independence of how the input is split ----

  /** Continuing a stopped run with more input. */
  function Resume(r: Outcome, more: Data): (r': Outcome)
    requires r.Going? ==> WellFormed(r.kind)
  {
    match r
    case Going(k, out) => Emit(out, Run(k, more))
    case Ended(out, rest) => Ended(out, rest + more)
    case Failed(out, rest) => Failed(out, rest + more)
  }

  lemma EmitEmpty(r: Outcome)
    ensures Emit([], r) == r
  {}

  lemma EmitEmit(a: Data, b: Data, r: Outcome)
    ensures Emit(a, Emit(b, r)) == Emit(a + b, r)
  {
    assert a + (b + r.out) == (a + b) + r.out;
  }

  /** Stopping after `a` and resuming with `b` is the run over `a + b`. */
  lemma {:induction false} RunSplit(k: Kind, a: Data, b: Data)
    requires WellFormed(k)
    ensures Run(k, a + b) == Resume(Run(k, a), b)
    decreases |a|
  {
    if IsEof(k) {
    } else if a == [] {
      assert a + b == b;
      EmitEmpty(Run(k, b));
    } else {
      assert (a + b)[1..] == a[1..] + b;
      match MoveByte(k, a[0])
      case Reject =>
      case Next(k', o) =>
        RunSplit(k', a[1..], b);
        var r := Run(k', a[1..]);
        if r.Going? {
          EmitEmit(o, r.out, Run(r.kind, b));
        }
    }
  }

  /** Feeding the pieces one after the other. */
  function RunPieces(k: Kind, pieces: seq<Data>): (r: Outcome)
    requires WellFormed(k)
    ensures r.Going? ==> WellFormed(r.kind)
    decreases |pieces|
  {
    if pieces == [] then Run(k, [])
    else Resume(RunPieces(k, pieces[..|pieces| - 1]), pieces[|pieces| - 1])
  }

  /** Output, final state and unread rest do not depend on the splitting. */
  lemma {:induction false} AnyFragmentation(k: Kind, pieces: seq<Data>)
    requires WellFormed(k)
    ensures RunPieces(k, pieces) == Run(k, Concat(pieces))
    decreases |pieces|
  {
    if pieces != [] {
      var front, last := pieces[..|pieces| - 1], pieces[|pieces| - 1];
      AnyFragmentation(k, front);
      assert pieces == front + [last];
      ConcatPush(front, last);
      RunSplit(k, Concat(front), last);
    }
  }

  // ---- Bulk steps ----

  /** A state that passes `n` bytes through unchanged. */
  predicate PassesThrough(k: Kind, n: nat) {
    match k
    case Length(m) => n <= m
    case Chunked(st, size) => n == 0 || (st == Body && n <= size)
    case Eof(e) => n == 0 || !e
  }

  function AfterPassing(k: Kind, n: nat): (k': Kind)
    requires PassesThrough(k, n)
  {
    match k
    case Length(m) => Length(m - n)
    case Chunked(st, size) =>
      if n == 0 then k else Chunked(if n < size then Body else BodyCr, size - n)
    case Eof(_) => k
  }

  lemma PassOne(k: Kind, s: Data, n: nat)
    requires WellFormed(k) && s != [] && 0 < n && PassesThrough(k, n)
    ensures PassesThrough(k, 1) && WellFormed(AfterPassing(k, 1))
    ensures Run(k, s) == Emit([s[0]], Run(AfterPassing(k, 1), s[1..]))
    ensures PassesThrough(AfterPassing(k, 1), n - 1)
    ensures AfterPassing(AfterPassing(k, 1), n - 1) == AfterPassing(k, n)
  {}

  lemma OneMore(s: Data, n: nat)
    requires 0 < n <= |s|
    ensures s[1..][n - 1..] == s[n..] && [s[0]] + s[1..][..n - 1] == s[..n]
  {}

  lemma PassNothing(k: Kind, s: Data)
    requires WellFormed(k)
    ensures Run(k, s) == Emit(s[..0], Run(k, s[0..]))
  {
    EmitEmpty(Run(k, s));
    assert s[0..] == s && s[..0] == [];
  }

  /** Taking `n` bytes at once is the same as taking them one by one. */
  lemma {:induction false} PassThrough(k: Kind, s: Data, n: nat)
    requires WellFormed(k) && n <= |s| && PassesThrough(k, n)
    ensures WellFormed(AfterPassing(k, n))
    ensures Run(k, s) == Emit(s[..n], Run(AfterPassing(k, n), s[n..]))
    decreases n
  {
    if n == 0 {
      PassNothing(k, s);
    } else {
      PassOne(k, s, n);
      var k' := AfterPassing(k, 1);
      PassThrough(k', s[1..], n - 1);
      OneMore(s, n);
      EmitEmit([s[0]], s[1..][..n - 1], Run(AfterPassing(k, n), s[n..]));
    }
  }

  lemma WrappedDigit(size: nat, digit: nat)
    requires size < U64 && digit < 16
    ensures (size * 16 % U64 + digit) % U64 == (size * 16 + digit) % U64
  {}

  /** What one step of the chunked state machine does to state and input. */
  ghost predicate StepRefines(k: Kind, s: Data, r: Poll<ChunkedState>, size': nat, s': Data, buf: Option<Data>)
    requires WellFormed(k) && k.Chunked?
  {
    match r
    case Ready(st') =>
      && WellFormed(Chunked(st', size'))
      && |s'| <= |s| && (s != [] && k.state != End ==> |s'| < |s|)
      && (k.state == End ==> st' == End)
      && (buf.Some? ==> s != [] && buf.value != [] && st' != End && k.state != End)
      && Run(k, s) == Emit(if buf.Some? then buf.value else [], Run(Chunked(st', size'), s'))
    case NotReady => s == [] && s' == [] && size' == k.size && buf.None? && k.state != End
    case Error => Run(k, s) == Failed([], s')
  }

  /** What one call of `Decode` does, whatever the decoder kind. */
  ghost predicate DecodeRefines(k: Kind, s: Data, k': Kind, s': Data, r: Poll<Option<Data>>)
    requires WellFormed(k)
  {
    && WellFormed(k')
    && match r
       case Ready(Some(out)) => out != [] && |s'| < |s| && Run(k, s) == Emit(out, Run(k', s'))
       case Ready(None) => IsEof(k') && Run(k, s) == Ended([], s')
       case NotReady => s' == [] && Run(k, s) == Going(k', [])
       case Error => Run(k, s) == Failed([], s')
  }

  class Decoder {
    var kind: Kind

    constructor Length(n: nat)
      requires n < U64
      ensures kind == Kind.Length(n) && WellFormed(kind)
    {
      kind := Kind.Length(n);
    }

    constructor Chunked()
      ensures kind == Kind.Chunked(Size, 0) && WellFormed(kind)
    {
      kind := Kind.Chunked(Size, 0);
    }

    constructor Eof()
      ensures kind == Kind.Eof(false) && WellFormed(kind)
    {
      kind := Kind.Eof(false);
    }

    /** Judges one byte of framing. The size is accumulated in 64 bits, the
        multiplication and the addition each wrapping around. */
    static method ReadFraming(state: ChunkedState, b: byte, size: nat)
      returns (r: Poll<ChunkedState>, size': nat)
      requires WellFormed(Kind.Chunked(state, size)) && state !in {Body, End}
      ensures !r.NotReady?
      ensures r.Error? <==> MoveChunked(state, size, b).Reject?
      ensures r.Ready? ==> MoveChunked(state, size, b) == Next(Kind.Chunked(r.value, size'), [])
    {
      size' := size;
      match state {
        case Size =>
          var digit := HexValue(b);
          if digit.Some? {
            WrappedDigit(size, digit.value);
            size' := size * 16 % U64;
            size' := (size' + digit.value) % U64;
            r := Ready(Size);
          } else if IsBlank(b) {
            r := Ready(SizeLws);
          } else if b == 59 {
            r := Ready(Extension);
          } else if b == CR {
            r := Ready(SizeLf);
          } else {
            r := Error;
          }
        case SizeLws =>
          if IsBlank(b) {
            r := Ready(SizeLws);
          } else if b == 59 {
            r := Ready(Extension);
          } else if b == CR {
            r := Ready(SizeLf);
          } else {
            r := Error;
          }
        case Extension => r := Ready(if b == CR then SizeLf else Extension);
        case SizeLf =>
          if b == LF && size > 0 {
            r := Ready(Body);
          } else if b == LF && size == 0 {
            r := Ready(EndCr);
          } else {
            r := Error;
          }
        case BodyCr => r := if b == CR then Ready(BodyLf) else Error;
        case BodyLf => r := if b == LF then Ready(Size) else Error;
        case EndCr => r := if b == CR then Ready(EndLf) else Error;
        case EndLf => r := if b == LF then Ready(End) else Error;
      }
    }

    /** As much of the chunk body as is there. */
    static method ReadBody(body: BytesMut, size: nat)
      returns (r: Poll<ChunkedState>, size': nat, buf: Option<Data>)
      requires WellFormed(Kind.Chunked(Body, size))
      modifies body`data
      ensures StepRefines(Kind.Chunked(Body, size), old(body.data), r, size', body.data, buf)
    {
      size', buf := size, None;
      ghost var s := body.data;
      var len := |body.data|;
      if len == 0 {
        EmitEmpty(Run(Kind.Chunked(Body, size), s));
        return Ready(Body), size', buf;
      }
      PassThrough(Kind.Chunked(Body, size), s, if size > len then len else size);
      var slice: Data;
      if size > len {
        slice := body.Take();
        size' := size - len;
        assert s[..len] == s && s[len..] == [];
      } else {
        slice := body.SplitTo(size);
        size' := 0;
      }
      buf := Some(slice);
      return Ready(if size' > 0 then Body else BodyCr), size', buf;
    }

    /** One step of the chunked state machine. */
    static method Step(state: ChunkedState, body: BytesMut, size: nat)
      returns (r: Poll<ChunkedState>, size': nat, buf: Option<Data>)
      requires WellFormed(Kind.Chunked(state, size))
      modifies body`data
      ensures StepRefines(Kind.Chunked(state, size), old(body.data), r, size', body.data, buf)
    {
      size', buf := size, None;
      if state == End {
        EmitEmpty(Run(Kind.Chunked(End, size), body.data));
        return Ready(End), size', buf;
      }
      if state == Body {
        r, size', buf := ReadBody(body, size);
        return;
      }
      if |body.data| == 0 {
        return NotReady, size', buf;
      }
      var b := body.data[0];
      var _ := body.SplitTo(1);
      r, size' := ReadFraming(state, b, size);
    }

    /** Decodes what can be decoded without waiting, or the next piece of it. */
    method Decode(body: BytesMut) returns (r: Poll<Option<Data>>)
      requires WellFormed(kind)
      modifies this, body`data
      ensures DecodeRefines(old(kind), old(body.data), kind, body.data, r)
    {
      ghost var k0, s0 := kind, body.data;
      match kind {
        case Length(remaining) =>
          if remaining == 0 {
            return Ready(None);
          }
          if |body.data| == 0 {
            return NotReady;
          }
          var len := |body.data|;
          PassThrough(kind, body.data, if remaining > len then len else remaining);
          var buf: Data;
          if remaining > len {
            buf := body.Take();
            kind := Kind.Length(remaining - len);
            assert s0[..len] == s0 && s0[len..] == [];
          } else {
            buf := body.SplitTo(remaining);
            kind := Kind.Length(0);
          }
          return Ready(Some(buf));
        case Chunked(_, _) =>
          while true
            invariant kind.Chunked? && WellFormed(kind)
            invariant Run(k0, s0) == Run(kind, body.data)
            invariant |body.data| <= |s0|
            decreases |body.data|
          {
            var st, size', buf := Step(kind.state, body, kind.size);
            match st {
              case NotReady => return NotReady;
              case Error => return Error;
              case Ready(next) =>
                kind := Kind.Chunked(next, size');
            }
            if kind.state == End {
              return Ready(None);
            }
            if buf.Some? {
              return Ready(Some(buf.value));
            }
            if |body.data| == 0 {
              return NotReady;
            }
          }
        case Eof(isEof) =>
          if isEof {
            return Ready(None);
          }
          if |body.data| == 0 {
            return NotReady;
          }
          PassThrough(kind, body.data, |body.data|);
          var buf := body.Take();
          assert s0[..|s0|] == s0 && s0[|s0|..] == [];
          return Ready(Some(buf));
      }
    }
  }
}
