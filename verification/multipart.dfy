/** Reading one field of a multipart body (src/multipart.rs). */
module Multipart {
  import opened Bytes
  import opened Matcher
  import opened Payload
  import opened Replies

  /** CRLF, two dashes and the boundary: what ends a field. */
  function Delimiter(boundary: Data): (d: Data) {
    [CR, LF, 45, 45] + boundary
  }

  // ---- What a field reader should answer, over the flat bytes ----

  datatype Piece = Part(data: Data) | EndOfField | Stuck

  /** The next piece of a field without a declared length: everything before a
      CR; or, in front of a CR, as many bytes as the delimiter has, unless they
      are the delimiter. */
  function Next(v: Data, delim: Data): (p: Piece)
    requires delim != []
    ensures p.Part? ==> p.data != [] && p.data <= v
    ensures p.EndOfField? ==> delim <= v
  {
    match Match([CR], 0, v)
    case None => Stuck
    case Some(n) =>
      if n > 1 then Part(v[..n - 1])
      else if |v| < |delim| then Stuck
      else if v[..|delim|] == delim then EndOfField
      else Part(v[..|delim|])
  }

  // ---- The field as a whole ----

  predicate HasAt(v: Data, delim: Data, q: nat) {
    q + |delim| <= |v| && forall j | 0 <= j < |delim| :: v[q + j] == delim[j]
  }

  /** The position of the first CR from `at` on, or the length. */
  function FirstCr(v: Data, at: nat): (q: nat)
    requires at <= |v|
    ensures at <= q <= |v| && (q < |v| ==> v[q] == CR)
    decreases |v| - at
  {
    if at == |v| || v[at] == CR then at else FirstCr(v, at + 1)
  }

  /** Where the reader stops, and whether it answers the end of the field there. */
  datatype Stop = Stop(at: nat, ended: bool)

  function StopOf(v: Data, at: nat, delim: Data): (r: Stop)
    requires delim != [] && at <= |v|
    ensures at <= r.at <= |v|
    decreases |v| - at
  {
    var q := FirstCr(v, at);
    if q == |v| then Stop(at, false)
    else if q + |delim| > |v| then Stop(q, false)
    else if HasAt(v, delim, q) then Stop(q, true)
    else StopOf(v, q + |delim|, delim)
  }

  /** The bytes handed out as content, what is left, and whether the end of the
      field was answered. */
  datatype FieldRun = FieldRun(content: Data, rest: Data, ended: bool)

  function RunField(v: Data, delim: Data): (r: FieldRun)
    requires delim != []
    ensures r.content + r.rest == v
  {
    var s := StopOf(v, 0, delim);
    Halves(v, s.at);
    FieldRun(v[..s.at], v[s.at..], s.ended)
  }

  lemma {:induction false} MatchCr(v: Data, at: nat)
    requires at <= |v|
    ensures Match([CR], 0, v[at..])
         == if FirstCr(v, at) == |v| then None else Some(FirstCr(v, at) - at + 1)
    decreases |v| - at
  {
    if at < |v| && v[at] != CR {
      MatchCr(v, at + 1);
      assert v[at..][1..] == v[at + 1..];
    }
  }

  // What has been read can be forgotten.

  lemma {:induction false} FirstCrShift(v: Data, k: nat, i: nat)
    requires k + i <= |v|
    ensures k + FirstCr(v[k..], i) == FirstCr(v, k + i)
    decreases |v| - i
  {
    if k + i < |v| && v[k + i] != CR {
      FirstCrShift(v, k, i + 1);
    }
  }

  lemma HasAtShift(v: Data, k: nat, delim: Data, q: nat)
    requires k + q <= |v|
    ensures HasAt(v[k..], delim, q) <==> HasAt(v, delim, k + q)
  {
    if k + q + |delim| <= |v| {
      forall j | 0 <= j < |delim| ensures v[k..][q + j] == delim[j] <==> v[k + q + j] == delim[j] {}
    }
  }

  /** Scanning `w` from `i` is scanning `v` from `k + i`. */
  ghost predicate Shifted(v: Data, k: nat, w: Data, delim: Data) {
    && k + |w| == |v|
    && (forall i | 0 <= i <= |w| :: k + FirstCr(w, i) == FirstCr(v, k + i))
    && forall q | 0 <= q <= |w| :: HasAt(w, delim, q) <==> HasAt(v, delim, k + q)
  }

  lemma {:induction false} StopShift(v: Data, k: nat, w: Data, i: nat, delim: Data)
    requires delim != [] && Shifted(v, k, w, delim) && i <= |w|
    ensures var r := StopOf(w, i, delim); StopOf(v, k + i, delim) == Stop(k + r.at, r.ended)
    decreases |w| - i
  {
    var p := FirstCr(w, i);
    if p + |delim| <= |w| && !HasAt(w, delim, p) {
      StopShift(v, k, w, p + |delim|, delim);
    }
  }

  lemma SuffixIsShifted(v: Data, k: nat, delim: Data)
    requires k <= |v|
    ensures Shifted(v, k, v[k..], delim)
  {
    forall i | 0 <= i <= |v[k..]| ensures k + FirstCr(v[k..], i) == FirstCr(v, k + i) {
      FirstCrShift(v, k, i);
    }
    forall q | 0 <= q <= |v[k..]| ensures HasAt(v[k..], delim, q) <==> HasAt(v, delim, k + q) {
      HasAtShift(v, k, delim, q);
    }
  }

  lemma StopFromThere(v: Data, delim: Data, k: nat)
    requires delim != [] && k <= |v|
    ensures var r := StopOf(v[k..], 0, delim); StopOf(v, k, delim) == Stop(k + r.at, r.ended)
  {
    SuffixIsShifted(v, k, delim);
    StopShift(v, k, v[k..], 0, delim);
  }

  /** Handing out the first `k` bytes and going on from there. */
  lemma GoesOn(v: Data, delim: Data, k: nat)
    requires delim != [] && k <= |v| && StopOf(v, k, delim) == StopOf(v, 0, delim)
    ensures var r := RunField(v[k..], delim);
            RunField(v, delim) == FieldRun(v[..k] + r.content, r.rest, r.ended)
  {
    StopFromThere(v, delim, k);
    Deeper(v, k, StopOf(v[k..], 0, delim).at);
  }

  lemma NextAtCr(v: Data, delim: Data)
    requires delim != []
    ensures var q := FirstCr(v, 0);
            && (q == |v| ==> Next(v, delim) == Stuck)
            && (0 < q < |v| ==> Next(v, delim) == Part(v[..q]))
            && (0 == q < |v| < |delim| ==> Next(v, delim) == Stuck)
            && (0 == q < |v| && |delim| <= |v| ==>
                  Next(v, delim) == if HasAt(v, delim, 0) then EndOfField else Part(v[..|delim|]))
  {
    assert Match([CR], 0, v) == if FirstCr(v, 0) == |v| then None else Some(FirstCr(v, 0) + 1) by {
      Nothing(v);
      MatchCr(v, 0);
    }
    if |delim| <= |v| {
      HasAtFront(v, delim);
    }
  }

  lemma StopAtCr(v: Data, delim: Data)
    requires delim != []
    ensures var q := FirstCr(v, 0);
            && (q == |v| || 0 == q < |v| < |delim| ==> StopOf(v, 0, delim) == Stop(0, false))
            && (0 < q < |v| ==> StopOf(v, q, delim) == StopOf(v, 0, delim))
            && (0 == q < |v| && |delim| <= |v| ==>
                  StopOf(v, 0, delim) == if HasAt(v, delim, 0) then Stop(0, true) else StopOf(v, |delim|, delim))
  {}

  lemma Nothing(v: Data)
    ensures v[0..] == v && v[..0] == []
  {}

  /** Reading a field piece by piece is reading it as a whole. */
  lemma PieceThenRun(v: Data, delim: Data)
    requires delim != []
    ensures match Next(v, delim)
            case Part(d) =>
              var r := RunField(v[|d|..], delim);
              RunField(v, delim) == FieldRun(d + r.content, r.rest, r.ended)
            case EndOfField => RunField(v, delim) == FieldRun([], v, true)
            case Stuck => RunField(v, delim) == FieldRun([], v, false)
  {
    NextAtCr(v, delim);
    StopAtCr(v, delim);
    var q := FirstCr(v, 0);
    if 0 < q < |v| {
      GoesOn(v, delim, q);
    } else if q < |v| && |delim| <= |v| && !HasAt(v, delim, 0) {
      GoesOn(v, delim, |delim|);
    } else {
      Nothing(v);
    }
  }

  lemma HasAtFront(v: Data, delim: Data)
    requires |delim| <= |v|
    ensures HasAt(v, delim, 0) <==> v[..|delim|] == delim
  {}

  // ---- When a field is read back exactly ----

  /** A scan of the content that takes, at each CR, as many bytes as the
      delimiter has: it never meets the delimiter and never runs past the end. */
  predicate Clean(c: Data, at: nat, delim: Data)
    requires delim != [] && at <= |c|
    decreases |c| - at
  {
    var q := FirstCr(c, at);
    q < |c| ==>
      && q + |delim| <= |c|
      && !HasAt(c, delim, q)
      && Clean(c, q + |delim|, delim)
  }

  lemma {:induction false} FirstCrOfConcat(a: Data, b: Data, at: nat)
    requires at <= |a| && b != [] && b[0] == CR
    ensures FirstCr(a + b, at) == FirstCr(a, at)
    decreases |a| - at
  {
    if at < |a| && a[at] != CR {
      FirstCrOfConcat(a, b, at + 1);
    }
  }

  lemma HasAtOfConcat(a: Data, b: Data, delim: Data, q: nat)
    requires q + |delim| <= |a|
    ensures HasAt(a + b, delim, q) <==> HasAt(a, delim, q)
  {
    forall j | 0 <= j < |delim| ensures (a + b)[q + j] == delim[j] <==> a[q + j] == delim[j] {}
  }

  /** Scanning `v` is scanning `content`, up to the delimiter behind it. */
  ghost predicate Extends(v: Data, content: Data, delim: Data) {
    && |content| <= |v| && HasAt(v, delim, |content|)
    && (forall i | 0 <= i <= |content| :: FirstCr(v, i) == FirstCr(content, i))
    && forall q | 0 <= q <= |content| - |delim| :: HasAt(v, delim, q) <==> HasAt(content, delim, q)
  }

  lemma ConcatExtends(content: Data, delim: Data, tail: Data)
    requires delim != [] && delim[0] == CR
    ensures Extends(content + (delim + tail), content, delim)
  {
    var v := content + (delim + tail);
    forall i | 0 <= i <= |content| ensures FirstCr(v, i) == FirstCr(content, i) {
      FirstCrOfConcat(content, delim + tail, i);
    }
    forall q | 0 <= q <= |content| - |delim| ensures HasAt(v, delim, q) <==> HasAt(content, delim, q) {
      HasAtOfConcat(content, delim + tail, delim, q);
    }
  }

  /** The reader stops behind the content, in front of the delimiter, if and only
      if the content is clean. */
  lemma {:induction false} StopsExactlyIff(v: Data, content: Data, at: nat, delim: Data)
    requires delim != [] && Extends(v, content, delim) && at <= |content|
    ensures StopOf(v, at, delim) == Stop(|content|, true) <==> Clean(content, at, delim)
    decreases |content| - at
  {
    var q := FirstCr(content, at);
    if q + |delim| <= |content| && !HasAt(content, delim, q) {
      StopsExactlyIff(v, content, q + |delim|, delim);
    }
  }

  /** A field `content` in front of its delimiter is read back exactly, and the
      reader stops right at the delimiter, if and only if the content is clean. */
  lemma FieldExactIff(content: Data, boundary: Data, tail: Data)
    ensures var delim := Delimiter(boundary);
            RunField(content + (delim + tail), delim) == FieldRun(content, delim + tail, true)
            <==> Clean(content, 0, delim)
  {
    var delim := Delimiter(boundary);
    var v := content + (delim + tail);
    ConcatExtends(content, delim, tail);
    StopsExactlyIff(v, content, 0, delim);
    assert v[..|content|] == content && v[|content|..] == delim + tail;
  }

  /** The delimiter does not occur in the content. */
  ghost predicate Absent(content: Data, delim: Data) {
    forall q: nat :: !HasAt(content, delim, q)
  }

  /** Enough for exactness: no delimiter in the content, and no CR so close to
      its end that the delimiter would be cut into. */
  lemma {:induction false} NoLateCrIsClean(content: Data, at: nat, delim: Data)
    requires delim != [] && at <= |content| && Absent(content, delim)
    requires forall i | 0 <= i < |content| && i > |content| - |delim| :: content[i] != CR
    ensures Clean(content, at, delim)
    decreases |content| - at
  {
    var q := FirstCr(content, at);
    if q < |content| {
      NoLateCrIsClean(content, q + |delim|, delim);
    }
  }

  /** A lone CR at the end of a field makes the reader run into the delimiter. */
  lemma TrailingCrIsLost(boundary: Data)
    ensures var delim := Delimiter(boundary);
            Absent([CR], delim) && RunField([CR] + (delim + []), delim) != FieldRun([CR], delim + [], true)
  {
    FieldExactIff([CR], boundary, []);
  }

  // ---- The readers ----

  /** Reads part of a field with a declared length. */
  method ReadLen(payload: PayloadHelper, size: nat) returns (r: Poll<Option<Data>>, size': nat)
    requires payload.Valid()
    modifies payload, payload.stream
    ensures payload.Valid()
    ensures match r
            case Ready(Some(d)) => size > 0 && size' == size - |d| && d + payload.Value() == old(payload.Value())
            case _ => size' == size && payload.Value() == old(payload.Value())
    ensures r == Ready(None) <==> size == 0
    ensures !r.Ready? ==> payload.items == []
  {
    size' := size;
    if size == 0 {
      return Ready(None), size';
    }
    ghost var v := payload.Value();
    var chunk := payload.ReadAny();
    match chunk {
      case NotReady => r := NotReady;
      case Error => r := Error;
      case Ready(None) => r := Error;
      case Ready(Some(c)) =>
        var len := if |c| < size then |c| else size;
        size' := size - len;
        ghost var now := payload.Value();
        if |c[len..]| > 0 {
          payload.UnreadData(c[len..]);
        }
        assert c == c[..len] + c[len..];
        assert c[..len] + (c[len..] + now) == v;
        r := Ready(Some(c[..len]));
    }
  }

  /** In front of a CR: as many bytes as the delimiter has, unless they are the
      delimiter; then they are put back. */
  method ReadAtCr(payload: PayloadHelper, boundary: Data) returns (r: Poll<Option<Data>>)
    requires payload.Valid() && [CR] <= payload.Buffered()
    modifies payload, payload.stream
    ensures payload.Valid()
    ensures match r
            case Ready(Some(d)) =>
              && Next(old(payload.Value()), Delimiter(boundary)) == Part(d)
              && d + payload.Value() == old(payload.Value())
            case Ready(None) =>
              && Next(old(payload.Value()), Delimiter(boundary)) == EndOfField
              && payload.Value() == old(payload.Value())
              && Delimiter(boundary) <= payload.Buffered()
            case _ =>
              && Next(payload.Buffered(), Delimiter(boundary)) == Stuck
              && payload.Value() == old(payload.Value())
              && (AllChunks(old(payload.stream.script)) ==> payload.stream.script == [])
    ensures AllChunks(old(payload.stream.script)) ==> AllChunks(payload.stream.script)
  {
    var delim := Delimiter(boundary);
    ghost var v, script := payload.Value(), payload.stream.script;
    CrAhead(v);
    var next := payload.ReadExact(|boundary| + 4);
    match next {
      case Ready(Some(d)) =>
        assert v[..|delim|] == d;
        assert d == d[..2] + d[2..4] + d[4..];
        if d[..2] == [CR, LF] && d[2..4] == [45, 45] && d[4..] == boundary {
          assert d == delim;
          payload.UnreadData(d);
          r := Ready(None);
        } else {
          assert d != delim;
          r := Ready(Some(d));
        }
      case _ =>
        CrAhead(payload.Buffered());
        if AllChunks(script) {
          GaveUpAtEnd(script, payload.stream.script, Plain(next));
        }
        r := if next.NotReady? then NotReady else Error;
    }
  }

  lemma CrAhead(v: Data)
    requires [CR] <= v
    ensures Match([CR], 0, v) == Some(1)
  {}

  /** Reads part of a field without a declared length. */
  method ReadStream(payload: PayloadHelper, boundary: Data) returns (r: Poll<Option<Data>>)
    requires payload.Valid()
    modifies payload, payload.stream
    ensures payload.Valid()
    ensures match r
            case Ready(Some(d)) =>
              && Next(old(payload.Value()), Delimiter(boundary)) == Part(d)
              && d + payload.Value() == old(payload.Value())
            case Ready(None) =>
              && Next(old(payload.Value()), Delimiter(boundary)) == EndOfField
              && payload.Value() == old(payload.Value())
              && Delimiter(boundary) <= payload.Buffered()
            case _ =>
              && Next(payload.Buffered(), Delimiter(boundary)) == Stuck
              && payload.Value() == old(payload.Value())
              && (AllChunks(old(payload.stream.script)) ==> payload.stream.script == [])
    ensures AllChunks(old(payload.stream.script)) ==> AllChunks(payload.stream.script)
  {
    ghost var v, script := payload.Value(), payload.stream.script;
    var upToCr := payload.ReadUntil([CR]);
    match upToCr {
      case Ready(Some(chunk)) =>
        EndsInCr(v, chunk, payload.Value());
        if |chunk| == 1 {
          payload.UnreadData(chunk);
          assert payload.Value() == v;
          r := ReadAtCr(payload, boundary);
        } else {
          var to := |chunk| - 1;
          ghost var now := payload.Value();
          payload.UnreadData(chunk[to..]);
          assert chunk == chunk[..to] + chunk[to..];
          assert chunk[..to] + (chunk[to..] + now) == v;
          assert v[..to] == chunk[..to];
          r := Ready(Some(chunk[..to]));
        }
      case _ =>
        if AllChunks(script) {
          GaveUpAtEnd(script, payload.stream.script, Plain(upToCr));
        }
        r := if upToCr.NotReady? then NotReady else Error;
    }
  }

  lemma EndsInCr(v: Data, chunk: Data, rest: Data)
    requires chunk + rest == v && Match([CR], 0, v) == Some(|chunk|)
    ensures chunk[|chunk| - 1] == CR
  {
    assert v[0..] == v;
    MatchIsOccurrence([CR], 0, v, 0);
    assert chunk[|chunk| - 1] == v[|chunk| - 1..|chunk|][0];
  }

  /** A field while it is being read. */
  class InnerField {
    var payload: Option<PayloadHelper>
    const helper: PayloadHelper
    const boundary: Data
    var eof: bool
    var length: Option<nat>

    ghost predicate Valid()
      reads this, helper
    {
      helper.Valid() && (payload.Some? ==> payload.value == helper)
    }

    /** The declared length is the value of the Content-Length header, if there
        is one; a value that is not a number is an error. */
    static method Create(helper: PayloadHelper, boundary: Data, header: Option<Data>) returns (field: Option<InnerField>)
      requires helper.Valid()
      ensures field.None? <==> header.Some? && ParseU64(header.value).None?
      ensures field.Some? ==>
                && fresh(field.value) && field.value.Valid() && field.value.helper == helper
                && field.value.payload == Some(helper) && field.value.boundary == boundary && !field.value.eof
                && field.value.length == if header.Some? then ParseU64(header.value) else None
    {
      var length := None;
      if header.Some? {
        length := ParseU64(header.value);
        if length.None? {
          return None;
        }
      }
      var f := new InnerField(helper, boundary, length);
      return Some(f);
    }

    constructor (helper: PayloadHelper, boundary: Data, length: Option<nat>)
      requires helper.Valid()
      ensures Valid() && this.helper == helper && this.boundary == boundary
      ensures payload == Some(helper) && this.length == length && !eof
    {
      this.helper := helper;
      this.boundary := boundary;
      payload := Some(helper);
      eof := false;
      this.length := length;
    }

    /** What the field still has to deliver, and what follows it. */
    ghost function Pending(): FieldRun
      reads this, helper, helper.stream
    {
      match length
      case None => RunField(helper.Value(), Delimiter(boundary))
      case Some(n) =>
        if n <= |helper.Value()| then FieldRun(helper.Value()[..n], helper.Value()[n..], true)
        else FieldRun(helper.Value(), [], false)
    }

    /** What is left once the end of the field has been answered: the rest of
        its last line is skipped. */
    ghost predicate SkippedLine(rest: Data, v: Data)
      reads this
    {
      match length
      case None => v == rest[Min(2, |rest|)..]
      case Some(_) => v == rest || (Match([LF], 0, rest).Some? && v == rest[Match([LF], 0, rest).value..])
    }

    /** What has arrived is not enough to go on. */
    ghost predicate Stalled()
      reads this, helper
    {
      match length
      case None => Next(helper.Buffered(), Delimiter(boundary)) == Stuck
      case Some(_) => helper.Buffered() == []
    }

    /** All of the field is at hand, down to the delimiter behind it. */
    ghost predicate AtHand()
      reads this, helper, helper.stream
    {
      length.None? && AllChunks(helper.stream.script) && Pending().ended
    }

    /** Reads on in the field. */
    method NextPiece() returns (r: Poll<Option<Data>>)
      requires Valid() && payload.Some?
      modifies this`length, helper, helper.stream
      ensures Valid() && (length.Some? <==> old(length).Some?)
      ensures match r
              case Ready(Some(d)) =>
                && d + helper.Value() == old(helper.Value())
                && old(Pending()) == FieldRun(d + Pending().content, Pending().rest, Pending().ended)
              case Ready(None) =>
                && old(Pending()) == FieldRun([], old(helper.Value()), true)
                && helper.Value() == old(helper.Value()) && Pending() == old(Pending())
                && (length.None? ==> Delimiter(boundary) <= helper.Buffered())
              case _ => helper.Value() == old(helper.Value()) && Pending() == old(Pending()) && Stalled()
      ensures old(AtHand()) ==> AtHand() && r.Ready? && (r.value.Some? ==> r.value.value != [])
    {
      ghost var v := helper.Value();
      if length.Some? {
        var left;
        r, left := ReadLen(helper, length.value);
        length := Some(left);
        if r.Ready? && r.value.Some? {
          LengthPiece(v, r.value.value, helper.Value(), left);
        }
      } else {
        r := ReadStream(helper, boundary);
        PieceThenRun(v, Delimiter(boundary));
        if r.Ready? && r.value.Some? {
          Behind(v, r.value.value, helper.Value());
        }
        if !r.Ready? && helper.stream.script == [] {
          assert helper.Buffered() + [] == helper.Buffered();
        }
      }
    }

    /** Skips the rest of the line behind the field. */
    method SkipLine() returns (line: Poll<Option<Data>>)
      requires Valid() && (length.None? ==> Delimiter(boundary) <= helper.Buffered())
      modifies helper, helper.stream
      ensures Valid()
      ensures line.Ready? ==> SkippedLine(old(helper.Value()), helper.Value())
      ensures !line.Ready? ==> helper.Value() == old(helper.Value()) && Match([LF], 0, helper.Buffered()).None?
      ensures length.None? ==> line.Ready?
    {
      ghost var v, ahead := helper.Value(), helper.Buffered();
      if length.None? {
        LineAhead(boundary, ahead);
        LineAhead(boundary, v);
      }
      line := helper.ReadLine();
      if line.Ready? && line.value.Some? {
        Behind(v, line.value.value, helper.Value());
      } else {
        StillAhead(ahead, helper.Buffered());
      }
    }

    /** One poll; `current` says whether the caller may touch the payload. */
    method Poll(current: bool) returns (r: Poll<Option<Data>>)
      requires Valid()
      modifies this, helper, helper.stream
      ensures Valid()
      ensures !(old(payload).Some? && current) ==>
                && r == (if old(payload).None? then Ready(None) else NotReady)
                && payload == old(payload) && length == old(length) && helper.Value() == old(helper.Value())
      ensures r == Ready(None) ==> payload.None?
      ensures r != Ready(None) ==> payload == old(payload)
      ensures length.Some? <==> old(length).Some?
      ensures old(payload).Some? && current ==>
                match r
                case Ready(Some(d)) =>
                  && d + helper.Value() == old(helper.Value())
                  && old(Pending()) == FieldRun(d + Pending().content, Pending().rest, Pending().ended)
                case Ready(None) =>
                  && old(Pending()) == FieldRun([], old(helper.Value()), true)
                  && SkippedLine(old(helper.Value()), helper.Value())
                case _ =>
                  && helper.Value() == old(helper.Value()) && Pending() == old(Pending())
                  && (Stalled() || (length.Some? && Match([LF], 0, helper.Buffered()).None?))
      ensures old(payload).Some? && current && old(AtHand()) ==>
                r.Ready? && (r.value.Some? ==> r.value.value != [] && AtHand())
      ensures !current && old(AtHand()) ==> AtHand()
    {
      if payload.None? {
        return Ready(None);
      }
      if !current {
        return NotReady;
      }
      r := NextPiece();
      if r == Ready(None) {
        eof := true;
        var line := SkipLine();
        match line {
          case Ready(_) => payload := None;
          case NotReady => r := NotReady;
          case Error => r := Error;
        }
      }
    }
  }

  lemma Behind(v: Data, d: Data, v': Data)
    requires d + v' == v
    ensures v[|d|..] == v'
  {}

  lemma LengthPiece(v: Data, d: Data, v': Data, left: nat)
    requires d + v' == v
    ensures left + |d| <= |v| ==>
              && v[..left + |d|] == d + v'[..left]
              && v[left + |d|..] == v'[left..]
  {}

  /** The line in front of a boundary is the CRLF that belongs to it. */
  lemma LineAhead(boundary: Data, v: Data)
    requires Delimiter(boundary) <= v
    ensures Match([LF], 0, v) == Some(2)
  {
    assert v[0] == CR && v[1] == LF;
    assert v[1..][0] == LF;
  }

  lemma StillAhead(before: Data, now: Data)
    requires before <= now
    ensures Match([LF], 0, before).Some? ==> Match([LF], 0, now).Some?
  {
    MatchSplit([LF], 0, before, now[|before|..]);
    assert before + now[|before|..] == now;
  }

  /** What a field had to deliver out of `v`, when `parts` are read, `value` is
      left and `now` is to come. */
  ghost predicate SoFar(all: FieldRun, v: Data, parts: seq<Data>, now: FieldRun, value: Data) {
    && all == FieldRun(Concat(parts) + now.content, now.rest, now.ended)
    && Concat(parts) + value == v
  }

  lemma OnePartMore(all: FieldRun, v: Data, parts: seq<Data>, d: Data, before: FieldRun, value: Data,
                    now: FieldRun, value': Data)
    requires SoFar(all, v, parts, before, value)
    requires before == FieldRun(d + now.content, now.rest, now.ended) && value == d + value'
    ensures SoFar(all, v, parts + [d], now, value') && |Concat(parts + [d])| == |Concat(parts)| + |d|
  {
    ConcatPush(parts, d);
    Assoc(Concat(parts), d, now.content);
    Assoc(Concat(parts), d, value');
  }

  lemma NothingRead(all: FieldRun, v: Data)
    ensures SoFar(all, v, [], all, v)
  {
    assert [] + all.content == all.content;
  }

  lemma PartsArePrefix(all: FieldRun, v: Data, parts: seq<Data>, now: FieldRun, value: Data)
    requires SoFar(all, v, parts, now, value)
    ensures Concat(parts) <= all.content
    ensures now.content == [] ==> Concat(parts) == all.content
  {}

  /** One poll, and what it adds to the parts. */
  method ReadPart(field: InnerField, current: bool, parts: seq<Data>, ghost all: FieldRun, ghost v: Data)
    returns (more: seq<Data>, done: bool)
    requires field.Valid() && field.payload.Some? && SoFar(all, v, parts, field.Pending(), field.helper.Value())
    modifies field, field.helper, field.helper.stream
    ensures field.Valid()
    ensures !done ==> field.payload.Some? && SoFar(all, v, more, field.Pending(), field.helper.Value())
    ensures done ==> Concat(more) == all.content && all.ended && field.SkippedLine(all.rest, field.helper.Value())
    ensures old(field.AtHand()) && !done ==> field.AtHand() && |Concat(more)| >= |Concat(parts)| + if current then 1 else 0
  {
    ghost var before, value := field.Pending(), field.helper.Value();
    var r := field.Poll(current);
    more, done := parts, r == Ready(None);
    if r.Ready? && r.value.Some? {
      OnePartMore(all, v, parts, r.value.value, before, value, field.Pending(), field.helper.Value());
      more := parts + [r.value.value];
    } else if done {
      PartsArePrefix(all, v, parts, before, value);
    }
  }

  /** Polling a field again and again, whoever is current and however the
      stream delivers: what comes out is a prefix of its content, and all of it
      once the end has been answered. */
  method ReadField(field: InnerField, current: seq<bool>) returns (parts: seq<Data>, done: bool)
    requires field.Valid() && field.payload.Some?
    modifies field, field.helper, field.helper.stream
    ensures field.Valid()
    ensures Concat(parts) <= old(field.Pending()).content
    ensures !done ==> Concat(parts) + field.helper.Value() == old(field.helper.Value())
    ensures done ==> Concat(parts) == old(field.Pending()).content && old(field.Pending()).ended
    ensures done ==> field.SkippedLine(old(field.Pending()).rest, field.helper.Value())
    ensures old(field.AtHand()) && Turns(current, |current|) > |old(field.Pending()).content| ==> done
  {
    ghost var all, v, hand := field.Pending(), field.helper.Value(), field.AtHand();
    parts, done := [], false;
    NothingRead(all, v);
    var i := 0;
    while i < |current| && !done
      invariant field.Valid() && i <= |current|
      invariant !done ==> field.payload.Some? && SoFar(all, v, parts, field.Pending(), field.helper.Value())
      invariant done ==> Concat(parts) == all.content && all.ended && field.SkippedLine(all.rest, field.helper.Value())
      invariant hand && !done ==> field.AtHand() && Turns(current, i) <= |Concat(parts)|
      decreases |current| - i
    {
      parts, done := ReadPart(field, current[i], parts, all, v);
      i := i + 1;
    }
    if !done {
      PartsArePrefix(all, v, parts, field.Pending(), field.helper.Value());
    }
  }

  /** How many of the first `n` polls are made by a current caller. */
  function Turns(current: seq<bool>, n: nat): (count: nat)
    requires n <= |current|
  {
    if n == 0 then 0 else Turns(current, n - 1) + if current[n - 1] then 1 else 0
  }

  lemma Cancel(a: Data, b: Data, c: Data)
    requires a + b == a + c
    ensures b == c
  {
    assert (a + b)[|a|..] == b && (a + c)[|a|..] == c;
  }

  /** A field whose bytes are `content`, followed by its delimiter: polled to its
      end, it has delivered exactly the content if and only if that is clean; and
      a clean one, with everything at hand, ends after more current polls than it
      has bytes. */
  method ReadContent(field: InnerField, current: seq<bool>, ghost content: Data, ghost tail: Data)
    returns (parts: seq<Data>, done: bool)
    requires field.Valid() && field.payload.Some? && field.length.None?
    requires field.helper.Value() == content + (Delimiter(field.boundary) + tail)
    modifies field, field.helper, field.helper.stream
    ensures field.Valid()
    ensures done ==> (Concat(parts) == content <==> Clean(content, 0, Delimiter(field.boundary)))
    ensures Clean(content, 0, Delimiter(field.boundary)) ==>
              AllChunks(old(field.helper.stream.script)) && Turns(current, |current|) > |content| ==> done
  {
    ghost var after := Delimiter(field.boundary) + tail;
    ghost var run := RunField(content + after, Delimiter(field.boundary));
    FieldExactIff(content, field.boundary, tail);
    parts, done := ReadField(field, current);
    if run.content == content {
      Cancel(content, run.rest, after);
    }
  }
}
