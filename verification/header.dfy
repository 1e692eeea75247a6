/** Rendering of the response head (src/server/h1writer.rs,
    src/server/helpers.rs). */
module Header {
  import opened Bytes
  import opened Decimal

  datatype Field = Field(name: Data, value: Data)

  const CONTENT_LENGTH: Data := Ascii("content-length")
  const DATE: Data := Ascii("date")

  function Line(f: Field): (d: Data) {
    f.name + [58, 32] + f.value + [CR, LF]
  }

  /** The header lines, without the first Content-Length if `skip` is set. */
  function Lines(fields: seq<Field>, skip: bool): (d: Data) {
    if fields == [] then []
    else if skip && fields[0].name == CONTENT_LENGTH then Lines(fields[1..], false)
    else Line(fields[0]) + Lines(fields[1..], skip)
  }

  /** Whether one of the rendered lines is a Date. */
  predicate HasDate(fields: seq<Field>) {
    exists f | f in fields :: f.name == DATE
  }

  method CopyInto(buf: array<byte>, pos: nat, src: Data)
    requires pos + |src| <= buf.Length
    modifies buf
    ensures buf[..pos + |src|] == old(buf[..pos]) + src
  {
    forall i | 0 <= i < |src| {
      buf[pos + i] := src[i];
    }
  }

  /** One line at `at`, after making room for it if need be: what is written so
      far is then handed over to the buffer and writing starts anew. */
  method PutLine(buffer: BytesMut, slice: array<byte>, at: nat, room: nat, f: Field)
    returns (buf: array<byte>, pos: nat, remaining: nat)
    requires slice == buffer.spare && at + room == slice.Length
    modifies buffer, slice
    ensures buf == buffer.spare && (buf == slice || fresh(buf))
    ensures pos + remaining == buf.Length
    ensures buffer.data + buf[..pos] == old(buffer.data + slice[..at]) + Line(f)
  {
    buf, pos, remaining := slice, at, room;
    ghost var written := buffer.data + slice[..at];
    var len := |f.name| + |f.value| + 4;
    if len > remaining {
      buffer.AdvanceMut(pos);
      pos := 0;
      buffer.Reserve(len);
      remaining := buffer.spare.Length;
      buf := buffer.spare;
      assert buffer.data + buf[..0] == written;
    }
    ghost var data, front := buffer.data, buf[..pos];
    WriteLine(buf, pos, f);
    pos := pos + len;
    remaining := remaining - len;
    Assoc(data, front, Line(f));
  }

  /** Writes the lines straight into the reserved room of the buffer, counting
      position and remaining room by hand and asking for more room when a line
      does not fit. */
  method RenderFields(buffer: BytesMut, fields: seq<Field>, skipLength: bool) returns (hasDate: bool)
    modifies buffer, buffer.spare
    ensures buffer.data == old(buffer.data) + Lines(fields, skipLength)
    ensures hasDate <==> HasDate(fields)
    ensures fresh(buffer.spare)
  {
    var skip := skipLength;
    var pos: nat := 0;
    hasDate := false;
    var remaining: nat := buffer.spare.Length;
    var buf := buffer.spare;
    assert buffer.data + buf[..0] == buffer.data;
    var i := 0;
    while i < |fields|
      invariant i <= |fields|
      invariant buf == buffer.spare && (buf == old(buffer.spare) || fresh(buf))
      invariant pos + remaining == buf.Length
      invariant old(buffer.data) + Lines(fields, skipLength) == (buffer.data + buf[..pos]) + Lines(fields[i..], skip)
      invariant hasDate <==> HasDate(fields[..i])
    {
      ghost var written := buffer.data + buf[..pos];
      var f := fields[i];
      assert fields[i..][1..] == fields[i + 1..];
      assert fields[..i + 1] == fields[..i] + [f];
      if skip && f.name == CONTENT_LENGTH {
        assert |CONTENT_LENGTH| == 14 && |DATE| == 4;
        skip := false;
      } else {
        hasDate := hasDate || f.name == DATE;
        buf, pos, remaining := PutLine(buffer, buf, pos, remaining, f);
        Assoc(written, Line(f), Lines(fields[i + 1..], skip));
      }
      i := i + 1;
    }
    assert fields[..i] == fields && fields[i..] == [];
    buffer.AdvanceMut(pos);
  }

  /** The four copies of one header line. */
  method WriteLine(buf: array<byte>, at: nat, f: Field)
    requires at + |f.name| + |f.value| + 4 <= buf.Length
    modifies buf
    ensures buf[..at + |f.name| + |f.value| + 4] == old(buf[..at]) + Line(f)
  {
    var pos := at;
    CopyInto(buf, pos, f.name);
    pos := pos + |f.name|;
    CopyInto(buf, pos, [58, 32]);
    pos := pos + 2;
    CopyInto(buf, pos, f.value);
    pos := pos + |f.value|;
    CopyInto(buf, pos, [CR, LF]);
  }

  datatype Version = Http09 | Http10 | Http11 | Http2

  function VersionText(version: Version): (d: Data) {
    match version
    case Http09 => Ascii("HTTP/0.9")
    case Http10 => Ascii("HTTP/1.0")
    case Http11 => Ascii("HTTP/1.1")
    case Http2 => Ascii("HTTP/2.1")
  }

  /** The codes whose digits the table of pairs has. */
  const CODES: nat := 10_000

  /** The digits of a status code: three, or four if there are more. */
  function CodeDigits(n: nat): (d: Data)
    requires n < CODES
  {
    (if n < 1000 then [48 + n / 100] else [48 + n / 100 / 10, 48 + n / 100 % 10]) + [48 + n % 100 / 10, 48 + n % 100 % 10]
  }

  lemma CodeReadsBack(n: nat)
    requires n < CODES
    ensures IsNumeral(CodeDigits(n)) && NumberOf(CodeDigits(n)) == n
  {
    var d := CodeDigits(n);
    var high := d[..|d| - 2];
    assert high == if n < 1000 then [48 + n / 100] else [48 + n / 100 / 10, 48 + n / 100 % 10];
    assert d[..|d| - 1] == high + [48 + n % 100 / 10] && (high + [48 + n % 100 / 10])[..|high|] == high;
    assert high[..1] == [high[0]] && [high[0]][..0] == [];
    assert NumberOf([high[0]]) == high[0] - 48;
    assert NumberOf(high) == n / 100;
    assert NumberOf(high + [48 + n % 100 / 10]) == 10 * (n / 100) + n % 100 / 10;
  }

  /** Version, space, three digits, space. A fourth digit takes the place of the
      first space, and a space is added at the end. */
  function StatusLine(version: Version, status: nat): (d: Data)
    requires status < CODES
  {
    if status < 1000 then VersionText(version) + [32] + CodeDigits(status) + [32]
    else VersionText(version) + CodeDigits(status) + [32, 32]
  }

  /** Version and code stand apart if and only if the code has three digits. */
  lemma StandApartIff(version: Version, status: nat)
    requires status < CODES
    ensures StatusLine(version, status) == VersionText(version) + [32] + CodeDigits(status) + [32] <==> status < 1000
  {
    if status >= 1000 {
      assert |VersionText(version)| == 8;
      assert StatusLine(version, status)[8] == CodeDigits(status)[0] >= 49;
      assert (VersionText(version) + [32] + CodeDigits(status) + [32])[8] == 32;
    }
  }

  /** The bytes in which a version differs from HTTP/1.1. */
  function Patched(blank: Data, version: Version): Data
    requires |blank| == 13
  {
    match version
    case Http2 => blank[5 := 50]
    case Http10 => blank[7 := 48]
    case Http09 => blank[5 := 48][7 := 57]
    case Http11 => blank
  }

  lemma VersionBytes(version: Version)
    ensures |Ascii("HTTP/1.1     ")| == 13
    ensures VersionText(version) + [32, 32, 32, 32, 32] == Patched(Ascii("HTTP/1.1     "), version)
  {}

  method FillVersion(version: Version) returns (buf: array<byte>)
    ensures fresh(buf) && buf.Length == 13
    ensures buf[..] == VersionText(version) + [32, 32, 32, 32, 32]
  {
    buf := new byte[13];
    var blank := Ascii("HTTP/1.1     ");
    CopyInto(buf, 0, blank);
    assert buf[..] == blank;
    VersionBytes(version);
    match version {
      case Http2 => buf[5] := 50;
      case Http10 => buf[7] := 48;
      case Http09 => buf[5], buf[7] := 48, 57;
      case Http11 =>
    }
    assert buf[..] == Patched(blank, version);
  }

  /** The digits, from the end of the thirteen bytes; returns where they begin. */
  method PutCode(status: nat, buf: array<byte>) returns (curr: nat)
    requires status < CODES && buf.Length == 13 && buf[12..] == [32]
    modifies buf
    ensures curr == (if status < 1000 then 9 else 8) && buf[..curr] == old(buf[..curr])
    ensures buf[curr..] == CodeDigits(status) + [32]
  {
    var n := status;
    curr := 12;
    var d1 := n % 100;
    n := n / 100;
    curr := curr - 2;
    PutPair(d1, buf, curr);
    ghost var front := buf[..10];
    if n < 10 {
      curr := curr - 1;
      PutDigit(n, buf, curr);
      assert front[..9] == old(buf[..10])[..9] == old(buf[..9]);
    } else {
      curr := curr - 2;
      PutPair(n, buf, curr);
      assert front[..8] == old(buf[..10])[..8] == old(buf[..8]);
    }
  }

  method WriteStatusLine(version: Version, status: nat, bytes: BytesMut)
    requires status < CODES
    modifies bytes`data
    ensures bytes.data == old(bytes.data) + StatusLine(version, status)
  {
    var buf := FillVersion(version);
    ghost var text := VersionText(version);
    assert |text| == 8 && buf[..8] == text && buf[..9] == text + [32] && buf[12..] == [32];
    var four := status > 999;
    var curr := PutCode(status, buf);
    assert buf[..] == buf[..curr] + buf[curr..];
    bytes.Extend(buf[..]);
    if four {
      bytes.Extend([32]);
    }
    StatusLineIs(old(bytes.data), version, status);
  }

  lemma StatusLineIs(before: Data, version: Version, status: nat)
    requires status < CODES
    ensures var text, code := VersionText(version), CodeDigits(status) + [32];
            before + StatusLine(version, status)
            == if status < 1000 then before + ((text + [32]) + code) else (before + (text + code)) + [32]
  {
    var text, code := VersionText(version), CodeDigits(status);
    Assoc(text + [32], code, [32]);
    if status >= 1000 {
      assert text + code + [32, 32] == (text + (code + [32])) + [32];
      Assoc(before, text + (code + [32]), [32]);
    }
  }
}
