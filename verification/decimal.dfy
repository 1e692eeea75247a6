/** Table-driven decimal printing (src/server/helpers.rs). */
module Decimal {
  import opened Bytes

  function Ascii(s: string): (d: Data) {
    seq(|s|, i requires 0 <= i < |s| => (s[i] as int) % 256)
  }

  // ---- Reference: canonical decimal numerals ----

  function Digits(n: nat): (d: Data)
    ensures d != []
  {
    if n < 10 then [48 + n] else Digits(n / 10) + [48 + n % 10]
  }

  predicate IsNumeral(d: Data) {
    forall i | 0 <= i < |d| :: 48 <= d[i] <= 57
  }

  function NumberOf(d: Data): (n: nat)
    requires IsNumeral(d)
  {
    if d == [] then 0 else 10 * NumberOf(d[..|d| - 1]) + (d[|d| - 1] - 48)
  }

  /** The numeral of a number has digits only, no leading zero, and reads back
      as the number. */
  lemma {:induction false} DigitsReadBack(n: nat)
    ensures IsNumeral(Digits(n))
    ensures n > 0 ==> Digits(n)[0] != 48
    ensures NumberOf(Digits(n)) == n
    decreases n
  {
    if n >= 10 {
      var high := Digits(n / 10);
      DigitsReadBack(n / 10);
      assert Digits(n)[..|Digits(n)| - 1] == high;
      assert Digits(n)[0] == high[0];
    } else {
      assert Digits(n)[..0] == [];
    }
  }

  // ---- The printer ----

  /** "000102...9899": the two digits of every number below 100. */
  const DEC_DIGITS_LUT: Data :=
    seq(200, i requires 0 <= i < 200 => if i % 2 == 0 then 48 + i / 2 / 10 else 48 + i / 2 % 10)

  method CopyPair(d: nat, buf: array<byte>, at: nat)
    requires d < 100 && at + 2 <= buf.Length
    modifies buf
    ensures buf[..at] == old(buf[..at]) && buf[at + 2..] == old(buf[at + 2..])
    ensures buf[at] == 48 + d / 10 && buf[at + 1] == 48 + d % 10
  {
    var d1 := d * 2;
    buf[at] := DEC_DIGITS_LUT[d1];
    buf[at + 1] := DEC_DIGITS_LUT[d1 + 1];
  }

  lemma TwoDigits(n: nat)
    requires n >= 100
    ensures Digits(n) == Digits(n / 100) + [48 + n % 100 / 10, 48 + n % 100 % 10]
  {
    assert n / 10 / 10 == n / 100;
    assert n / 10 % 10 == n % 100 / 10;
    assert n % 10 == n % 100 % 10;
  }

  lemma FourDigits(n: nat)
    requires n >= 10000
    ensures var rem := n % 10000;
            Digits(n) == Digits(n / 10000)
                       + [48 + rem / 100 / 10, 48 + rem / 100 % 10, 48 + rem % 100 / 10, 48 + rem % 100 % 10]
  {
    TwoDigits(n);
    TwoDigits(n / 100);
    assert n / 100 / 100 == n / 10000;
    assert n / 100 % 100 == n % 10000 / 100;
    assert n % 100 == n % 10000 % 100;
  }

  /** How far the printer has come: each group of four digits makes the number
      smaller by four digits, so a 64-bit number never runs out of room. */
  ghost predicate Room(n: nat, curr: nat) {
    || (curr == 39 && n < U64)
    || (curr == 35 && n < 1844674407370956)
    || (curr == 31 && n < 184467440738)
    || (curr == 27 && n < 18446745)
    || (curr == 23 && n < 1845)
  }

  lemma GroupFits(n: nat, curr: nat)
    requires Room(n, curr) && n >= 10000
    ensures curr >= 4 && Room(n / 10000, curr - 4)
  {}

  method PutGroup(rem: nat, buf: array<byte>, at: nat)
    requires rem < 10000 && at + 4 <= buf.Length
    modifies buf
    ensures buf[at..] == [48 + rem / 100 / 10, 48 + rem / 100 % 10, 48 + rem % 100 / 10, 48 + rem % 100 % 10]
                       + old(buf[at + 4..])
  {
    var d1, d2 := rem / 100, rem % 100;
    CopyPair(d1, buf, at);
    ghost var pair, tail := buf[..at + 2], buf[at + 4..];
    assert tail == buf[at + 2..][2..];
    CopyPair(d2, buf, at + 2);
    assert buf[at] == pair[at] && buf[at + 1] == pair[at + 1];
    assert buf[at..] == [buf[at], buf[at + 1], buf[at + 2], buf[at + 3]] + tail;
  }

  /** Appends the numeral and CRLF. The digits are put into a fixed array from
      its end, four at a time. */
  method ConvertUsize(number: nat, bytes: BytesMut)
    requires number < U64
    modifies bytes`data
    ensures bytes.data == old(bytes.data) + Digits(number) + [CR, LF]
  {
    var n := number;
    var curr: nat := 39;
    var buf := new byte[41];
    buf[39] := CR;
    buf[40] := LF;
    while n >= 10000
      invariant Room(n, curr)
      invariant Digits(number) + [CR, LF] == Digits(n) + buf[curr..]
      invariant bytes.data == old(bytes.data)
    {
      ghost var tail := buf[curr..];
      GroupFits(n, curr);
      FourDigits(n);
      var rem := n % 10000;
      ghost var group := [48 + rem / 100 / 10, 48 + rem / 100 % 10, 48 + rem % 100 / 10, 48 + rem % 100 % 10];
      Assoc(Digits(n / 10000), group, tail);
      n := n / 10000;
      curr := curr - 4;
      PutGroup(rem, buf, curr);
    }
    PrintLast(n, curr, buf, number, bytes);
  }

  method PutPair(d: nat, buf: array<byte>, at: nat)
    requires d < 100 && at + 2 <= buf.Length
    modifies buf
    ensures buf[..at] == old(buf[..at]) && buf[at..] == [48 + d / 10, 48 + d % 10] + old(buf[at + 2..])
  {
    CopyPair(d, buf, at);
    assert buf[at..] == [buf[at], buf[at + 1]] + buf[at + 2..];
  }

  method PutDigit(d: nat, buf: array<byte>, at: nat)
    requires d < 10 && at < buf.Length
    modifies buf
    ensures buf[..at] == old(buf[..at]) && buf[at..] == [d + 48] + old(buf[at + 1..])
  {
    buf[at] := d + 48;
    assert buf[at..] == [buf[at]] + buf[at + 1..];
  }

  /** The last one to four digits, and the append. */
  method PrintLast(last: nat, from: nat, buf: array<byte>, ghost number: nat, bytes: BytesMut)
    requires last < 10000 && 4 <= from <= 39 && buf.Length == 41
    requires Digits(number) + [CR, LF] == Digits(last) + buf[from..]
    modifies buf, bytes`data
    ensures bytes.data == old(bytes.data) + Digits(number) + [CR, LF]
  {
    var n, curr := last, from;
    if n >= 100 {
      var d1 := n % 100;
      TwoDigits(n);
      Assoc(Digits(n / 100), [48 + d1 / 10, 48 + d1 % 10], buf[curr..]);
      n := n / 100;
      curr := curr - 2;
      PutPair(d1, buf, curr);
    }
    ghost var tail := buf[curr..];
    if n < 10 {
      curr := curr - 1;
      PutDigit(n, buf, curr);
    } else {
      curr := curr - 2;
      PutPair(n, buf, curr);
      PairIsNumeral(n);
    }
    Assoc(bytes.data, Digits(number), [CR, LF]);
    bytes.Extend(buf[curr..]);
  }

  lemma PairIsNumeral(n: nat)
    requires 10 <= n < 100
    ensures Digits(n) == [48 + n / 10, 48 + n % 10]
  {
    assert Digits(n / 10) == [48 + n / 10];
  }

  const CONTENT_LENGTH_LINE: Data := [CR, LF] + Ascii("content-length: ")

  /** All four branches print the same line. */
  method WriteContentLength(number: nat, bytes: BytesMut)
    requires number < U64
    modifies bytes`data
    ensures bytes.data == old(bytes.data) + (CONTENT_LENGTH_LINE + Digits(number) + [CR, LF])
  {
    var n := number;
    assert |CONTENT_LENGTH_LINE| == 18;
    if n < 10 {
      var buf := CONTENT_LENGTH_LINE + [48, CR, LF];
      buf := buf[18 := n + 48];
      assert buf == CONTENT_LENGTH_LINE + [n + 48] + [CR, LF];
      bytes.Extend(buf);
    } else if n < 100 {
      var buf := new byte[22];
      FillLine(buf);
      CopyPair(n, buf, 18);
      assert buf[..18] == CONTENT_LENGTH_LINE;
      assert buf[20..] == [CR, LF];
      assert Digits(n) == [buf[18], buf[19]];
      assert buf[..] == CONTENT_LENGTH_LINE + Digits(n) + [CR, LF];
      bytes.Extend(buf[..]);
    } else if n < 1000 {
      var buf := new byte[23];
      FillLine(buf);
      TwoDigits(n);
      CopyPair(n % 100, buf, 19);
      n := n / 100;
      buf[18] := n + 48;
      assert buf[..18] == CONTENT_LENGTH_LINE;
      assert buf[21..] == [CR, LF];
      assert Digits(number) == [buf[18], buf[19], buf[20]];
      assert buf[..] == CONTENT_LENGTH_LINE + Digits(number) + [CR, LF];
      bytes.Extend(buf[..]);
    } else {
      bytes.Extend(CONTENT_LENGTH_LINE);
      ConvertUsize(n, bytes);
    }
  }

  /** The constant part of the line: the header name, zeros, CRLF. */
  method FillLine(buf: array<byte>)
    requires buf.Length >= 20
    modifies buf
    ensures buf[..18] == CONTENT_LENGTH_LINE
    ensures buf[buf.Length - 2..] == [CR, LF]
  {
    forall i | 0 <= i < buf.Length {
      buf[i] := if i < 18 then CONTENT_LENGTH_LINE[i] else 48;
    }
    buf[buf.Length - 2] := CR;
    buf[buf.Length - 1] := LF;
  }
}
