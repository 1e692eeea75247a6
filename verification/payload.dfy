/** The request payload (src/payload.rs): the channel between the connection
    and the handler, and the helper that reads a stream of chunks as one byte
    string. */
module Payload {
  import opened Bytes
  import opened Matcher

  datatype PayloadStatus = Read | Pause | Dropped

  const MAX_BUFFER_SIZE: nat := 32_768

  /** The queue shared by sender and receiver. `alive` says that the receiver
      still holds it: the sender's reference is weak. */
  class Inner {
    var len: nat
    var eof: bool
    var err: bool
    var needRead: bool
    var items: seq<Data>
    const capacity: nat
    var alive: bool

    /** Nothing is asked for only when there is as much as the capacity. */
    ghost predicate Valid()
      reads this
    {
      len == |Concat(items)| && (needRead || capacity <= len)
    }

    /** The receiver may set another capacity. */
    constructor (eof: bool, capacity: nat := MAX_BUFFER_SIZE)
      ensures Valid() && items == [] && this.eof == eof && !err && needRead && alive && this.capacity == capacity
    {
      this.eof := eof;
      this.capacity := capacity;
      len, err, needRead, items, alive := 0, false, true, [], true;
    }

    /** The receiver goes away, with all that it has not read. */
    method Drop()
      modifies this`alive
      ensures !alive
    {
      alive := false;
    }

    method SetError()
      requires Valid()
      modifies this`err
      ensures Valid() && err == (old(err) || alive)
    {
      if alive {
        err := true;
      }
    }

    method FeedEof()
      requires Valid()
      modifies this`eof
      ensures Valid() && eof == (old(eof) || alive)
    {
      if alive {
        eof := true;
      }
    }

    method FeedData(data: Data)
      requires Valid()
      modifies this`len, this`items, this`needRead
      ensures Valid()
      ensures items == if alive then old(items) + [data] else old(items)
      ensures alive ==> (needRead <==> len < capacity)
    {
      if alive {
        ConcatPush(items, data);
        len := len + |data|;
        items := items + [data];
        needRead := len < capacity;
      }
    }

    method NeedRead() returns (status: PayloadStatus)
      ensures status == if !alive then Dropped else if needRead then Read else Pause
    {
      if alive {
        status := if needRead then Read else Pause;
      } else {
        status := Dropped;
      }
    }

    /** First in, first out; an error and the end are reported only once all
        data is read, and the error only once. */
    method ReadAny() returns (r: Poll<Option<Data>>)
      requires Valid()
      modifies this`len, this`items, this`needRead, this`err
      ensures Valid()
      ensures old(items) != [] ==> r == Ready(Some(old(items)[0])) && items == old(items)[1..] && err == old(err)
      ensures old(items) == [] ==>
                && items == [] && !err
                && r == if old(err) then Error else if eof then Ready(None) else NotReady
      ensures old(items) != [] ==> (needRead <==> len < capacity)
      ensures old(items) == [] ==> needRead == (old(needRead) || r.NotReady?)
    {
      if |items| > 0 {
        var data := items[0];
        len := len - |data|;
        items := items[1..];
        needRead := len < capacity;
        r := Ready(Some(data));
      } else if err {
        err := false;
        r := Error;
      } else if eof {
        r := Ready(None);
      } else {
        needRead := true;
        r := NotReady;
      }
    }

    method UnreadData(data: Data)
      requires Valid()
      modifies this`len, this`items
      ensures Valid() && items == [data] + old(items)
    {
      assert ([data] + items)[1..] == items;
      len := len + |data|;
      items := [data] + items;
    }
  }

  /** One answer of a polled byte stream. */
  datatype Item = Pending | Chunk(data: Data) | Finished | Broken

  /** The bytes a stream will still deliver. */
  function DataOf(script: seq<Item>): (d: Data) {
    if script == [] then []
    else (if script[0].Chunk? then script[0].data else []) + DataOf(script[1..])
  }

  /** Reading on while chunks arrive, then giving up with the stream's own
      answer: pending, finished or broken. */
  ghost predicate GaveUp(before: seq<Item>, after: seq<Item>, r: Poll<()>) {
    if before == [] then after == [] && r == NotReady
    else match before[0]
         case Chunk(_) => GaveUp(before[1..], after, r)
         case Pending => r == NotReady && after == before[1..]
         case Finished => r == Ready(()) && after == before[1..]
         case Broken => r == Error && after == before[1..]
  }

  /** A stream that has everything at hand. */
  predicate AllChunks(script: seq<Item>) {
    forall i | 0 <= i < |script| :: script[i].Chunk?
  }

  lemma {:induction false} GaveUpAtEnd(before: seq<Item>, after: seq<Item>, r: Poll<()>)
    requires AllChunks(before) && GaveUp(before, after, r)
    ensures after == []
  {
    if before != [] {
      assert before[0].Chunk?;
      AllChunksTail(before);
      GaveUpAtEnd(before[1..], after, r);
    }
  }

  lemma AllChunksTail(script: seq<Item>)
    requires AllChunks(script) && script != []
    ensures AllChunks(script[1..])
  {
    forall i | 0 <= i < |script[1..]| ensures script[1..][i].Chunk? {
      assert script[1..][i] == script[i + 1];
    }
  }

  /** An answer without its value. */
  function Plain<T>(r: Poll<T>): Poll<()> {
    match r
    case Ready(_) => Ready(())
    case NotReady => NotReady
    case Error => Error
  }

  /** Any stream: the answers it is going to give, then "not ready". */
  class ByteStream {
    var script: seq<Item>

    constructor (script: seq<Item>)
      ensures this.script == script
    {
      this.script := script;
    }

    method Poll() returns (r: Poll<Option<Data>>)
      modifies this
      ensures old(script) == [] ==> r == NotReady && script == []
      ensures old(script) != [] ==>
                && script == old(script)[1..]
                && match old(script)[0]
                   case Pending => r == NotReady
                   case Chunk(d) => r == Ready(Some(d))
                   case Finished => r == Ready(None)
                   case Broken => r == Error
    {
      if |script| == 0 {
        return NotReady;
      }
      var next := script[0];
      script := script[1..];
      match next {
        case Pending => r := NotReady;
        case Chunk(d) => r := Ready(Some(d));
        case Finished => r := Ready(None);
        case Broken => r := Error;
      }
    }
  }

  /** A deque of chunks in front of a stream, to be read as one byte string. */
  class PayloadHelper {
    var len: nat
    var items: seq<Data>
    const stream: ByteStream

    ghost predicate Valid()
      reads this
    {
      len == |Concat(items)|
    }

    /** What has been received and not read yet. */
    ghost function Buffered(): Data
      reads this
    {
      Concat(items)
    }

    /** What is still to be read: the buffered bytes, then what the stream is
        going to deliver. */
    ghost function Value(): Data
      reads this, stream
    {
      Buffered() + DataOf(stream.script)
    }

    constructor (stream: ByteStream)
      ensures Valid() && items == [] && this.stream == stream
    {
      this.stream := stream;
      len := 0;
      items := [];
    }

    method PollStream() returns (r: Poll<bool>)
      requires Valid()
      modifies this, stream
      ensures Valid() && Value() == old(Value())
      ensures AllChunks(old(stream.script)) ==> AllChunks(stream.script)
      ensures r == Ready(true) ==>
                old(stream.script) != [] && old(stream.script)[0].Chunk? && stream.script == old(stream.script)[1..]
      ensures r != Ready(true) ==> GaveUp(old(stream.script), stream.script, Plain(r))
      ensures r == Ready(true) ==> old(Buffered()) <= Buffered() && |items| == |old(items)| + 1
      ensures r != Ready(true) ==> items == old(items)
    {
      if AllChunks(stream.script) && stream.script != [] {
        AllChunksTail(stream.script);
      }
      var polled := stream.Poll();
      match polled {
        case Ready(Some(data)) =>
          ConcatPush(items, data);
          Assoc(Concat(items), data, DataOf(stream.script));
          len := len + |data|;
          items := items + [data];
          r := Ready(true);
        case Ready(None) => r := Ready(false);
        case NotReady => r := NotReady;
        case Error => r := Error;
      }
    }

    /** The first chunk, whole. */
    method ReadAny() returns (r: Poll<Option<Data>>)
      requires Valid()
      modifies this, stream
      ensures Valid()
      ensures match r
              case Ready(Some(d)) => d + Value() == old(Value())
              case _ => items == [] && Value() == old(Value()) && GaveUp(old(stream.script), stream.script, Plain(r))
      ensures old(items) != [] ==> r == Ready(Some(old(items)[0])) && stream.script == old(stream.script)
      decreases |stream.script|
    {
      if |items| > 0 {
        var data := items[0];
        assert Concat(items) + DataOf(stream.script) == data + (Concat(items[1..]) + DataOf(stream.script));
        len := len - |data|;
        items := items[1..];
        return Ready(Some(data));
      }
      var polled := PollStream();
      match polled {
        case Ready(true) => r := ReadAny();
        case Ready(false) => r := Ready(None);
        case NotReady => r := NotReady;
        case Error => r := Error;
      }
    }

    method CanRead(size: nat) returns (r: Poll<Option<bool>>)
      requires Valid()
      modifies this, stream
      ensures Valid() && Value() == old(Value()) && old(Buffered()) <= Buffered()
      ensures r != Ready(Some(false))
      ensures r == Ready(Some(true)) <==> size <= |Buffered()|
      ensures r != Ready(Some(true)) ==> GaveUp(old(stream.script), stream.script, Plain(r))
      decreases |stream.script|
    {
      if size <= len {
        return Ready(Some(true));
      }
      var polled := PollStream();
      match polled {
        case Ready(true) => r := CanRead(size);
        case Ready(false) => r := Ready(None);
        case NotReady => r := NotReady;
        case Error => r := Error;
      }
    }

    /** A look at the first chunk. */
    method GetChunk() returns (r: Poll<Option<Data>>)
      requires Valid()
      modifies this, stream
      ensures Valid() && Value() == old(Value())
      ensures match r
              case Ready(Some(d)) => items != [] && d == items[0]
              case _ => items == [] && GaveUp(old(stream.script), stream.script, Plain(r))
    {
      if |items| == 0 {
        var polled := PollStream();
        match polled {
          case Ready(true) =>
          case Ready(false) => return Ready(None);
          case NotReady => return NotReady;
          case Error => return Error;
        }
      }
      return Ready(Some(items[0]));
    }

    /** Removes the first `size` buffered bytes, chunk by chunk, after the
        first chunk has been used up. */
    method TakeRest(first: Data, size: nat) returns (buf: Data)
      requires |first| <= size <= |first| + |Concat(items)|
      modifies this`items
      ensures |buf| == size
      ensures buf + Concat(items) == first + old(Concat(items))
    {
      buf := first;
      while |buf| < size
        invariant |buf| <= size
        invariant buf + Concat(items) == first + old(Concat(items))
        decreases size - |buf|, |items|
      {
        ghost var before := items;
        assert items != [];
        var chunk := items[0];
        items := items[1..];
        var rem := if size - |buf| < |chunk| then size - |buf| else |chunk|;
        assert chunk == chunk[..rem] + chunk[rem..];
        assert buf + Concat(before) == (buf + chunk[..rem]) + (chunk[rem..] + Concat(items));
        buf := buf + chunk[..rem];
        chunk := chunk[rem..];
        if |chunk| > 0 {
          assert ([chunk] + items)[1..] == items;
          items := [chunk] + items;
        }
      }
    }

    /** Exactly `size` bytes, or none. The source pops the first chunk without
        looking, so an empty buffer can only be asked for a positive size. */
    method ReadExact(size: nat) returns (r: Poll<Option<Data>>)
      requires Valid()
      requires size > 0 || items != []
      modifies this, stream
      ensures Valid()
      ensures AllChunks(old(stream.script)) ==> AllChunks(stream.script)
      ensures match r
              case Ready(Some(d)) => |d| == size && d + Value() == old(Value())
              case _ =>
                && |Buffered()| < size && old(Buffered()) <= Buffered() && Value() == old(Value())
                && GaveUp(old(stream.script), stream.script, Plain(r))
      decreases |stream.script|
    {
      ghost var v := Value();
      if size <= len {
        len := len - size;
        ghost var flat := Concat(items);
        var chunk := items[0];
        items := items[1..];
        if size < |chunk| {
          var buf := chunk[..size];
          assert chunk == buf + chunk[size..];
          assert flat == buf + (chunk[size..] + Concat(items));
          assert ([chunk[size..]] + items)[1..] == items;
          items := [chunk[size..]] + items;
          r := Ready(Some(buf));
        } else if size == |chunk| {
          r := Ready(Some(chunk));
        } else {
          var buf := TakeRest(chunk, size);
          r := Ready(Some(buf));
        }
        assert r.value.value + Concat(items) == flat;
        assert r.value.value + (Concat(items) + DataOf(stream.script)) == v;
        return;
      }
      var polled := PollStream();
      match polled {
        case Ready(true) => r := ReadExact(size);
        case Ready(false) => r := Ready(None);
        case NotReady => r := NotReady;
        case Error => r := Error;
      }
    }

    /** Forgets `size` bytes if that many are buffered, else nothing. */
    method DropPayload(size: nat)
      requires Valid()
      modifies this
      ensures Valid()
      ensures size <= |old(Buffered())| ==> Buffered() == old(Buffered())[size..]
      ensures size > |old(Buffered())| ==> items == old(items)
    {
      if size <= len {
        len := len - size;
        var dropped := 0;
        while dropped < size
          invariant dropped <= size && len == old(len) - size
          invariant dropped + |Concat(items)| == |old(Concat(items))|
          invariant Concat(items) == old(Concat(items))[dropped..]
          decreases size - dropped, |items|
        {
          ghost var flat := Concat(items);
          assert items != [];
          var chunk := items[0];
          items := items[1..];
          var rem := if size - dropped < |chunk| then size - dropped else |chunk|;
          DropInFirst(chunk, Concat(items), rem);
          Deeper(old(Concat(items)), dropped, rem);
          dropped := dropped + rem;
          if rem < |chunk| {
            ConcatCons(chunk[rem..], items);
            items := [chunk[rem..]] + items;
          }
        }
      }
    }

    /** The first `size` buffered bytes, gathered chunk by chunk; nothing if
        there is no chunk at all. */
    method CopyBuffered(size: nat) returns (buf: Option<Data>)
      requires Valid() && size <= len
      ensures buf.Some? <==> items != []
      ensures buf.Some? ==> buf.value == Buffered()[..size]
    {
      var copied := [];
      var i := 0;
      while i < |items|
        invariant i <= |items|
        invariant |copied| < size || i == 0
        invariant copied == Concat(items[..i])
      {
        assert items == items[..i + 1] + items[i + 1..];
        ConcatSplit(items[..i + 1], items[i + 1..]);
        ConcatPush(items[..i], items[i]);
        assert items[..i + 1] == items[..i] + [items[i]];
        if |copied| < size {
          var rem := if size - |copied| < |items[i]| then size - |copied| else |items[i]|;
          copied := copied + items[i][..rem];
        }
        if |copied| == size {
          return Some(copied);
        }
        i := i + 1;
      }
      assert items[..i] == items;
      return None;
    }

    /** A copy of the first `size` bytes; nothing is consumed. */
    method Copy(size: nat) returns (r: Poll<Option<Data>>)
      requires Valid()
      modifies this, stream
      ensures Valid() && Value() == old(Value()) && old(Buffered()) <= Buffered()
      ensures match r
              case Ready(Some(d)) => |d| == size && d <= Buffered()
              case _ => (|Buffered()| < size || items == []) && GaveUp(old(stream.script), stream.script, Plain(r))
      decreases |stream.script|
    {
      if size <= len {
        var buf := CopyBuffered(size);
        if buf.Some? {
          return Ready(buf);
        }
      }
      var polled := PollStream();
      match polled {
        case Ready(true) => r := Copy(size);
        case Ready(false) => r := Ready(None);
        case NotReady => r := NotReady;
        case Error => r := Error;
      }
    }

    /** Looks for `line` in the buffered chunks: `num` whole chunks and `offset`
        bytes of the next one make up the `length` bytes to read. */
    method Find(line: Data) returns (found: bool, num: nat, offset: nat, length: nat)
      requires Valid() && line != []
      ensures found <==> Match(line, 0, Buffered()).Some?
      ensures found ==> Match(line, 0, Buffered()) == Some(length)
      ensures found ==> num < |items| && 0 < offset <= |items[num]| && length == |Concat(items[..num])| + offset
    {
      found, num, offset, length := false, 0, 0, 0;
      var idx := 0;
      var no := 0;
      while no < |items|
        invariant no <= |items| && !found
        invariant length == |Concat(items[..no])|
        invariant Match(line, 0, Concat(items[..no])).None?
        invariant idx == Progress(line, 0, Concat(items[..no]))
      {
        var chunk := items[no];
        ghost var done := Concat(items[..no]);
        assert items[..no + 1] == items[..no] + [chunk];
        ConcatPush(items[..no], chunk);
        assert done + chunk[..0] == done;
        var pos := 0;
        while pos < |chunk|
          invariant pos <= |chunk|
          invariant Match(line, 0, done + chunk[..pos]).None?
          invariant idx == Progress(line, 0, done + chunk[..pos])
        {
          MatchStep(line, 0, done + chunk[..pos], chunk[pos]);
          assert done + chunk[..pos + 1] == (done + chunk[..pos]) + [chunk[pos]];
          if chunk[pos] == line[idx] {
            idx := idx + 1;
            if idx == |line| {
              num, offset, length, found := no, pos + 1, length + pos + 1, true;
              assert items == items[..no + 1] + items[no + 1..];
              ConcatSplit(items[..no + 1], items[no + 1..]);
              assert Buffered() == (done + chunk[..pos + 1]) + (chunk[pos + 1..] + Concat(items[no + 1..]));
              MatchSplit(line, 0, done + chunk[..pos + 1], chunk[pos + 1..] + Concat(items[no + 1..]));
              return;
            }
          } else {
            idx := 0;
          }
          pos := pos + 1;
        }
        assert chunk[..pos] == chunk;
        length := length + |chunk|;
        no := no + 1;
      }
      assert items[..no] == items;
    }

    /** Removes `num` whole chunks. */
    method TakeWhole(num: nat) returns (buf: Data)
      requires num <= |items|
      modifies this`items
      ensures items == old(items)[num..] && buf == Concat(old(items)[..num])
      ensures buf + Concat(items) == old(Concat(items))
    {
      buf := [];
      var i := 0;
      while i < num
        invariant i <= num
        invariant items == old(items)[i..] && buf == Concat(old(items)[..i])
      {
        ConcatPush(old(items)[..i], items[0]);
        assert old(items)[..i + 1] == old(items)[..i] + [items[0]];
        buf := buf + items[0];
        items := items[1..];
        i := i + 1;
      }
      ConcatSplit(old(items)[..num], old(items)[num..]);
      assert old(items)[..num] + old(items)[num..] == old(items);
    }

    /** Removes the first `offset` bytes of the first chunk. */
    method TakePart(offset: nat) returns (buf: Data)
      requires items != [] && 0 < offset <= |items[0]|
      modifies this`items
      ensures |buf| == offset && buf + Concat(items) == old(Concat(items))
    {
      var chunk := items[0];
      Halves(chunk, offset);
      Assoc(chunk[..offset], chunk[offset..], Concat(items[1..]));
      items := items[1..];
      buf := chunk[..offset];
      if |chunk[offset..]| > 0 {
        assert ([chunk[offset..]] + items)[1..] == items;
        items := [chunk[offset..]] + items;
      } else {
        assert chunk[offset..] + Concat(items) == Concat(items);
      }
    }

    /** Removes `num` whole chunks and `offset` bytes of the next one. */
    method TakeChunks(num: nat, offset: nat) returns (buf: Data)
      requires num < |items| && offset <= |items[num]|
      modifies this`items
      ensures buf + Concat(items) == old(Concat(items))
      ensures |buf| == |Concat(old(items)[..num])| + offset
    {
      buf := TakeWhole(num);
      if offset > 0 {
        var part := TakePart(offset);
        Assoc(buf, part, Concat(items));
        buf := buf + part;
      }
    }

    /** Reads up to and including the delimiter, wherever the chunk boundaries are. */
    method ReadUntil(line: Data) returns (r: Poll<Option<Data>>)
      requires Valid() && line != []
      modifies this, stream
      ensures Valid()
      ensures AllChunks(old(stream.script)) ==> AllChunks(stream.script)
      ensures match r
              case Ready(Some(d)) => d + Value() == old(Value()) && Match(line, 0, old(Value())) == Some(|d|)
              case _ =>
                && Match(line, 0, Buffered()).None?
                && old(Buffered()) <= Buffered()
                && Value() == old(Value())
                && GaveUp(old(stream.script), stream.script, Plain(r))
      decreases |stream.script|
    {
      var found, num, offset, length := Find(line);
      if found {
        ghost var flat := Concat(items);
        MatchSplit(line, 0, flat, DataOf(stream.script));
        var buf := TakeChunks(num, offset);
        len := len - length;
        assert buf + (Concat(items) + DataOf(stream.script)) == flat + DataOf(stream.script);
        return Ready(Some(buf));
      }
      var polled := PollStream();
      match polled {
        case Ready(true) => r := ReadUntil(line);
        case Ready(false) => r := Ready(None);
        case NotReady => r := NotReady;
        case Error => r := Error;
      }
    }

    method ReadLine() returns (r: Poll<Option<Data>>)
      requires Valid()
      modifies this, stream
      ensures Valid()
      ensures AllChunks(old(stream.script)) ==> AllChunks(stream.script)
      ensures match r
              case Ready(Some(d)) => d + Value() == old(Value()) && Match([LF], 0, old(Value())) == Some(|d|)
              case _ =>
                && Match([LF], 0, Buffered()).None?
                && old(Buffered()) <= Buffered()
                && Value() == old(Value())
                && GaveUp(old(stream.script), stream.script, Plain(r))
    {
      r := ReadUntil([LF]);
    }

    /** Puts bytes back: the inverse of every read above. */
    method UnreadData(data: Data)
      requires Valid()
      modifies this
      ensures Valid() && items == [data] + old(items)
      ensures Buffered() == data + old(Buffered()) && Value() == data + old(Value())
    {
      assert ([data] + items)[1..] == items;
      assert (data + Concat(items)) + DataOf(stream.script) == data + (Concat(items) + DataOf(stream.script));
      len := len + |data|;
      items := [data] + items;
    }
  }
}
