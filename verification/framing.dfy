/** What the encoder prints, the decoder reads back: round trips between
    src/server/encoding.rs and src/server/h1.rs. */
module Framing {
  import opened Bytes
  import opened TransferEncoding
  import D = BodyDecoder

  const FRESH: D.Kind := D.Chunked(D.Size, 0)

  // ---- Chunked ----

  lemma DigitAccumulates(high: nat, digit: nat)
    requires digit < 16 && high * 16 + digit < U64
    ensures D.MoveByte(D.Chunked(D.Size, high), HexDigit(digit)) == D.Next(D.Chunked(D.Size, high * 16 + digit), [])
  {
    assert D.HexValue(HexDigit(digit)) == Some(digit);
  }

  /** One byte that only moves the state. */
  lemma OneStep(k: D.Kind, k': D.Kind, b: byte, rest: Data)
    requires D.WellFormed(k) && !D.IsEof(k) && D.MoveByte(k, b) == D.Next(k', [])
    ensures D.Run(k, [b] + rest) == D.Run(k', rest)
  {
    assert ([b] + rest)[1..] == rest;
    D.EmitEmpty(D.Run(k', rest));
  }

  lemma {:induction false} HexParsesBack(n: nat, rest: Data)
    requires n < U64
    ensures D.Run(FRESH, Hex(n) + rest) == D.Run(D.Chunked(D.Size, n), rest)
    decreases n
  {
    var high, digit := n / 16, n % 16;
    DigitAccumulates(high, digit);
    OneStep(D.Chunked(D.Size, high), D.Chunked(D.Size, n), HexDigit(digit), rest);
    if n < 16 {
      assert Hex(n) == [HexDigit(digit)];
    } else {
      assert Hex(n) + rest == Hex(high) + ([HexDigit(digit)] + rest);
      HexParsesBack(high, [HexDigit(digit)] + rest);
    }
  }

  // ---- Chunk sizes that do not fit ----

  predicate IsHex(ds: Data) {
    forall i | 0 <= i < |ds| :: D.HexValue(ds[i]).Some?
  }

  /** The digits read behind a number, and the number they make by themselves. */
  function HexFrom(n: nat, ds: Data): (m: nat)
    requires IsHex(ds)
    decreases |ds|
  {
    if ds == [] then n else HexFrom(16 * n + D.HexValue(ds[0]).value, ds[1..])
  }

  function HexNumber(ds: Data): (n: nat)
    requires IsHex(ds)
  {
    HexFrom(0, ds)
  }

  lemma ModStep(high: nat, digit: nat)
    ensures (high % U64 * 16 + digit) % U64 == (16 * high + digit) % U64
  {
    var q, low := high / U64, high % U64;
    assert 16 * high + digit == 16 * q * U64 + (low * 16 + digit);
    ModMultiple(16 * q, low * 16 + digit);
  }

  lemma {:induction false} ModMultiple(k: nat, x: nat)
    ensures (k * U64 + x) % U64 == x % U64
    decreases k
  {
    if k > 0 {
      ModMultiple(k - 1, x);
      assert k * U64 + x == ((k - 1) * U64 + x) + U64;
    }
  }

  /** The size that digits leave behind a size, digit by digit. */
  function Sized(size: nat, ds: Data): (size': nat)
    requires size < U64 && IsHex(ds)
    ensures size' < U64
    decreases |ds|
  {
    if ds == [] then size else Sized((size * 16 + D.HexValue(ds[0]).value) % U64, ds[1..])
  }

  lemma {:induction false} DigitsAreRead(size: nat, ds: Data, rest: Data)
    requires size < U64 && IsHex(ds)
    ensures D.Run(D.Chunked(D.Size, size), ds + rest) == D.Run(D.Chunked(D.Size, Sized(size, ds)), rest)
    decreases |ds|
  {
    if ds == [] {
      assert ds + rest == rest;
    } else {
      var next := (size * 16 + D.HexValue(ds[0]).value) % U64;
      assert ds + rest == [ds[0]] + (ds[1..] + rest);
      OneStep(D.Chunked(D.Size, size), D.Chunked(D.Size, next), ds[0], ds[1..] + rest);
      DigitsAreRead(next, ds[1..], rest);
    }
  }

  /** Any string of hexadecimal digits leaves its value modulo 2^64. */
  lemma {:induction false} SizeWraps(n: nat, ds: Data)
    requires IsHex(ds)
    ensures Sized(n % U64, ds) == HexFrom(n, ds) % U64
    decreases |ds|
  {
    if ds != [] {
      ModStep(n, D.HexValue(ds[0]).value);
      SizeWraps(16 * n + D.HexValue(ds[0]).value, ds[1..]);
    }
  }

  /** The size that the digits leave is the one they say if and only if that fits
      in 64 bits. */
  lemma SizeReadsBackIff(ds: Data)
    requires IsHex(ds)
    ensures D.Run(FRESH, ds) == D.Going(D.Chunked(D.Size, HexNumber(ds)), []) <==> HexNumber(ds) < U64
  {
    DigitsAreRead(0, ds, []);
    SizeWraps(0, ds);
    assert ds + [] == ds;
  }

  /** A one and sixteen zeros: the size line of a chunk of 2^64 bytes is read as
      that of the last chunk. */
  lemma HugeSizeIsZero(rest: Data)
    ensures var ds := [49] + Zeros(16);
            IsHex(ds) && HexNumber(ds) == U64 && D.Run(FRESH, ds + rest) == D.Run(FRESH, rest)
  {
    TwoToThe64();
    WrapsToZero([49] + Zeros(16), rest);
  }

  lemma WrapsToZero(ds: Data, rest: Data)
    requires IsHex(ds) && HexNumber(ds) == U64
    ensures D.Run(FRESH, ds + rest) == D.Run(FRESH, rest)
  {
    assert Sized(0, ds) == 0 by {
      SizeWraps(0, ds);
    }
    DigitsAreRead(0, ds, rest);
  }

  lemma TwoToThe64()
    ensures IsHex([49] + Zeros(16)) && HexNumber([49] + Zeros(16)) == U64
  {
    HexOfZeros(1, 16);
    assert ([49] + Zeros(16))[1..] == Zeros(16);
    assert Pow16(2) == 0x100 && Pow16(4) == 0x1_0000 && Pow16(6) == 0x100_0000 && Pow16(8) == 0x1_0000_0000;
    assert Pow16(10) == 0x100_0000_0000 && Pow16(12) == 0x1_0000_0000_0000 && Pow16(14) == 0x100_0000_0000_0000;
  }

  function Zeros(n: nat): (z: Data)
    ensures |z| == n
  {
    seq(n, i => 48)
  }

  function Pow16(n: nat): nat {
    if n == 0 then 1 else 16 * Pow16(n - 1)
  }

  lemma {:induction false} HexOfZeros(m: nat, n: nat)
    ensures IsHex(Zeros(n)) && HexFrom(m, Zeros(n)) == m * Pow16(n)
    decreases n
  {
    if n > 0 {
      HexOfZeros(16 * m, n - 1);
      assert Zeros(n)[1..] == Zeros(n - 1);
    }
  }

  /** Two bytes that only move the state. */
  lemma TwoSteps(k: D.Kind, k1: D.Kind, k2: D.Kind, a: byte, b: byte, rest: Data)
    requires D.WellFormed(k) && !D.IsEof(k) && D.MoveByte(k, a) == D.Next(k1, [])
    requires !D.IsEof(k1) && D.MoveByte(k1, b) == D.Next(k2, [])
    ensures D.Run(k, [a, b] + rest) == D.Run(k2, rest)
  {
    OneStep(k, k1, a, [b] + rest);
    OneStep(k1, k2, b, rest);
    assert [a, b] + rest == [a] + ([b] + rest);
  }

  lemma FrameParsesBack(msg: Data, rest: Data)
    requires 0 < |msg| < U64
    ensures D.Run(FRESH, ChunkFrame(msg) + rest) == D.Emit(msg, D.Run(FRESH, rest))
  {
    var n := |msg|;
    var afterBody := [CR, LF] + rest;
    var afterSize := [CR, LF] + (msg + afterBody);
    assert ChunkFrame(msg) + rest == Hex(n) + afterSize;
    HexParsesBack(n, afterSize);
    TwoSteps(D.Chunked(D.Size, n), D.Chunked(D.SizeLf, n), D.Chunked(D.Body, n), CR, LF, msg + afterBody);
    BodyParsesBack(msg, rest);
  }

  lemma BodyParsesBack(msg: Data, rest: Data)
    requires 0 < |msg| < U64
    ensures D.Run(D.Chunked(D.Body, |msg|), msg + ([CR, LF] + rest)) == D.Emit(msg, D.Run(FRESH, rest))
  {
    var afterBody := [CR, LF] + rest;
    assert (msg + afterBody)[..|msg|] == msg && (msg + afterBody)[|msg|..] == afterBody;
    D.PassThrough(D.Chunked(D.Body, |msg|), msg + afterBody, |msg|);
    TwoSteps(D.Chunked(D.BodyCr, 0), D.Chunked(D.BodyLf, 0), FRESH, CR, LF, rest);
  }

  lemma TerminatorParsesBack(rest: Data)
    ensures D.Run(FRESH, TERMINATOR + rest) == D.Ended([], rest)
  {
    var tail := [CR, LF] + ([CR, LF] + rest);
    assert TERMINATOR + rest == Hex(0) + tail;
    HexParsesBack(0, tail);
    TwoSteps(FRESH, D.Chunked(D.SizeLf, 0), D.Chunked(D.EndCr, 0), CR, LF, [CR, LF] + rest);
    TwoSteps(D.Chunked(D.EndCr, 0), D.Chunked(D.EndLf, 0), D.Chunked(D.End, 0), CR, LF, rest);
  }

  predicate AllSized(msgs: seq<Data>) {
    forall m | m in msgs :: |m| < U64
  }

  /** The messages before the first empty one: an empty message ends a chunked
      body and later messages are dropped. */
  function UntilEmpty(msgs: seq<Data>): (kept: seq<Data>) {
    if msgs == [] || msgs[0] == [] then [] else [msgs[0]] + UntilEmpty(msgs[1..])
  }

  lemma {:induction false} EncodeAllCons(k: EncodingKind, msgs: seq<Data>)
    requires msgs != []
    ensures var first := EncodeMsg(k, msgs[0]);
            var others := EncodeAll(first.kind, msgs[1..]);
            EncodeAll(k, msgs) == Encoded(others.kind, first.out + others.out)
    decreases |msgs|
  {
    if |msgs| == 1 {
      assert msgs[..0] == [] && msgs[1..] == [];
    } else {
      var front, first := msgs[..|msgs| - 1], EncodeMsg(k, msgs[0]);
      EncodeAllCons(k, front);
      assert front[1..] == msgs[1..][..|msgs| - 2];
      var mid := EncodeAll(first.kind, front[1..]);
      var last := EncodeMsg(mid.kind, msgs[|msgs| - 1]);
      assert EncodeAll(first.kind, msgs[1..]) == Encoded(last.kind, mid.out + last.out);
      Assoc(first.out, mid.out, last.out);
    }
  }

  lemma {:induction false} ClosedEncodesNothing(msgs: seq<Data>)
    ensures EncodeAll(Chunked(true), msgs) == Encoded(Chunked(true), [])
    decreases |msgs|
  {
    if msgs != [] {
      ClosedEncodesNothing(msgs[..|msgs| - 1]);
    }
  }

  /** Every encoded body, followed by anything, decodes to the messages before
      the first empty one and leaves exactly what follows. */
  lemma {:induction false} ChunkedRoundTrip(msgs: seq<Data>, suffix: Data)
    requires AllSized(msgs)
    ensures D.Run(FRESH, EncodeBody(Chunked(false), msgs).out + suffix)
         == D.Ended(Concat(UntilEmpty(msgs)), suffix)
    decreases |msgs|
  {
    if msgs == [] {
      assert EncodeBody(Chunked(false), msgs).out == TERMINATOR;
      TerminatorParsesBack(suffix);
    } else {
      var rest := msgs[1..];
      EncodeAllCons(Chunked(false), msgs);
      if msgs[0] == [] {
        ClosedEncodesNothing(rest);
        assert EncodeBody(Chunked(false), msgs).out == TERMINATOR;
        TerminatorParsesBack(suffix);
      } else {
        var tail := EncodeBody(Chunked(false), rest).out;
        Assoc(ChunkFrame(msgs[0]), EncodeAll(Chunked(false), rest).out, EncodeEnd(EncodeAll(Chunked(false), rest).kind).out);
        Assoc(ChunkFrame(msgs[0]), tail, suffix);
        FrameParsesBack(msgs[0], tail + suffix);
        ChunkedRoundTrip(rest, suffix);
        assert ([msgs[0]] + UntilEmpty(rest))[1..] == UntilEmpty(rest);
      }
    }
  }

  /** An empty message followed by a non-empty one. */
  predicate DropsMessages(msgs: seq<Data>) {
    exists i, j :: 0 <= i < j < |msgs| && msgs[i] == [] && msgs[j] != []
  }

  /** The chunked encoder delivers everything it was given if and only if no
      non-empty message comes after an empty one. */
  lemma {:induction false} ChunkedKeepsAllIff(msgs: seq<Data>)
    ensures Concat(UntilEmpty(msgs)) == Concat(msgs) <==> !DropsMessages(msgs)
  {
    if msgs == [] {
    } else if msgs[0] == [] {
      if j :| 0 < j < |msgs| && msgs[j] != [] {
        NonEmptyPiece(msgs, j);
      } else {
        AllEmpty(msgs);
      }
    } else {
      var rest := msgs[1..];
      ChunkedKeepsAllIff(rest);
      assert ([msgs[0]] + UntilEmpty(rest))[1..] == UntilEmpty(rest);
      assert Concat(UntilEmpty(msgs))[|msgs[0]|..] == Concat(UntilEmpty(rest));
      assert Concat(msgs)[|msgs[0]|..] == Concat(rest);
      if DropsMessages(rest) {
        var i, j :| 0 <= i < j < |rest| && rest[i] == [] && rest[j] != [];
        assert msgs[i + 1] == [] && msgs[j + 1] != [];
      }
      if DropsMessages(msgs) {
        var i, j :| 0 <= i < j < |msgs| && msgs[i] == [] && msgs[j] != [];
        assert rest[i - 1] == [] && rest[j - 1] != [];
      }
    }
  }

  lemma {:induction false} NonEmptyPiece(msgs: seq<Data>, j: nat)
    requires j < |msgs| && msgs[j] != []
    ensures Concat(msgs) != []
  {
    if j > 0 {
      NonEmptyPiece(msgs[1..], j - 1);
    }
  }

  lemma {:induction false} AllEmpty(msgs: seq<Data>)
    requires forall i :: 0 <= i < |msgs| ==> msgs[i] == []
    ensures Concat(msgs) == []
  {
    if msgs != [] {
      AllEmpty(msgs[1..]);
    }
  }

  /** The round trip whatever way the network splits the bytes. */
  lemma ChunkedRoundTripFragmented(msgs: seq<Data>, suffix: Data, pieces: seq<Data>)
    requires AllSized(msgs)
    requires Concat(pieces) == EncodeBody(Chunked(false), msgs).out + suffix
    ensures D.RunPieces(FRESH, pieces) == D.Ended(Concat(UntilEmpty(msgs)), suffix)
  {
    D.AnyFragmentation(FRESH, pieces);
    ChunkedRoundTrip(msgs, suffix);
  }

  // ---- Content-Length ----

  /** The length-limited encoder emits exactly the first `n` bytes offered. */
  lemma {:induction false} LengthEncodesPrefix(n: nat, msgs: seq<Data>)
    ensures var k := Min(n, |Concat(msgs)|);
            EncodeBody(Length(n), msgs) == Encoded(Length(n - k), Concat(msgs)[..k])
    decreases |msgs|
  {
    if msgs != [] {
      var front, last := msgs[..|msgs| - 1], msgs[|msgs| - 1];
      LengthEncodesPrefix(n, front);
      assert msgs == front + [last];
      ConcatPush(front, last);
      assert EncodeAll(Length(n), front) == EncodeBody(Length(n), front);
    }
  }

  lemma LengthDecodes(n: nat, s: Data)
    requires n < U64
    ensures D.Run(D.Length(n), s)
         == if |s| >= n then D.Ended(s[..n], s[n..]) else D.Going(D.Length(n - |s|), s)
  {
    if |s| >= n {
      D.PassThrough(D.Length(n), s, n);
      EmitLast(s[..n], D.Ended([], s[n..]));
    } else {
      D.PassThrough(D.Length(n), s, |s|);
      WholeAndNothing(s);
      EmitLast(s, D.Going(D.Length(n - |s|), []));
    }
  }

  lemma EmitLast(o: Data, r: D.Outcome)
    requires r.out == []
    ensures D.Emit(o, r) == match r
                            case Going(k, _) => D.Going(k, o)
                            case Ended(_, rest) => D.Ended(o, rest)
                            case Failed(_, rest) => D.Failed(o, rest)
  {
    assert o + [] == o;
  }

  lemma WholeAndNothing(s: Data)
    ensures s[..|s|] == s && s[|s|..] == []
  {}

  /** With a declared length, the encoder reaches its end, and the decoder
      gets the declared bytes and leaves the rest, if and only if at least the
      declared number of bytes was offered. */
  lemma LengthRoundTripIff(n: nat, msgs: seq<Data>, suffix: Data)
    requires n < U64
    ensures IsEof(EncodeBody(Length(n), msgs).kind) <==> n <= |Concat(msgs)|
    ensures D.Run(D.Length(n), EncodeBody(Length(n), msgs).out + suffix)
         == D.Ended(Concat(msgs)[..Min(n, |Concat(msgs)|)], suffix)
         <==> n <= |Concat(msgs)|
  {
    LengthEncodesPrefix(n, msgs);
    var out := EncodeBody(Length(n), msgs).out;
    LengthDecodes(n, out + suffix);
    if n <= |Concat(msgs)| {
      assert (out + suffix)[..n] == out && (out + suffix)[n..] == suffix;
    }
  }

  // ---- Until close ----

  /** Without framing, the body is everything up to the close. */
  lemma {:induction false} EofEncodes(msgs: seq<Data>)
    ensures EncodeBody(Eof, msgs) == Encoded(Eof, Concat(msgs))
    decreases |msgs|
  {
    if msgs != [] {
      var front, last := msgs[..|msgs| - 1], msgs[|msgs| - 1];
      EofEncodes(front);
      assert msgs == front + [last];
      ConcatPush(front, last);
      assert EncodeAll(Eof, front) == EncodeBody(Eof, front);
    }
  }

  lemma EofDecodes(s: Data)
    ensures D.Run(D.Eof(false), s) == D.Going(D.Eof(false), s)
  {
    D.PassThrough(D.Eof(false), s, |s|);
    assert s[..|s|] == s && s[|s|..] == [];
  }

  /** Asking for the end again appends nothing. */
  lemma EndOnce(k: EncodingKind)
    ensures EncodeEnd(EncodeEnd(k).kind) == Encoded(EncodeEnd(k).kind, [])
  {}
}
