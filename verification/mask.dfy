/** Masking of WebSocket frames a word at a time (src/ws/mask.rs; section 5.3
    of RFC 6455). */
module Mask {
  import Bytes

  type byte = bv8

  datatype Endian = Little | Big

  // ---- Words in memory ----

  function Low0(w: bv32): (b: byte) { (w & 0xff) as bv8 }
  function Low1(w: bv32): (b: byte) { ((w >> 8) & 0xff) as bv8 }
  function Low2(w: bv32): (b: byte) { ((w >> 16) & 0xff) as bv8 }
  function Low3(w: bv32): (b: byte) { ((w >> 24) & 0xff) as bv8 }

  function Low(w: bv32, i: nat): (b: byte)
    requires i < 4
  {
    if i == 0 then Low0(w) else if i == 1 then Low1(w) else if i == 2 then Low2(w) else Low3(w)
  }

  /** The word with these bytes, the least significant first. */
  function FromLow(b0: byte, b1: byte, b2: byte, b3: byte): (w: bv32) {
    (b0 as bv32) | ((b1 as bv32) << 8) | ((b2 as bv32) << 16) | ((b3 as bv32) << 24)
  }

  /** The byte at offset `i` of a word in memory. */
  function ByteOf(w: bv32, i: nat, e: Endian): (b: byte)
    requires i < 4
  {
    if e == Little then Low(w, i) else Low(w, 3 - i)
  }

  /** The bytes of a word, in memory order. */
  function Key(w: bv32, e: Endian): (k: seq<byte>)
    ensures |k| == 4
  {
    [ByteOf(w, 0, e), ByteOf(w, 1, e), ByteOf(w, 2, e), ByteOf(w, 3, e)]
  }

  /** The word that four bytes in memory make up. */
  function WordOf(b0: byte, b1: byte, b2: byte, b3: byte, e: Endian): (w: bv32) {
    if e == Little then FromLow(b0, b1, b2, b3) else FromLow(b3, b2, b1, b0)
  }

  lemma KeyAt(w: bv32, i: nat, e: Endian)
    requires i < 4
    ensures Key(w, e)[i] == ByteOf(w, i, e)
  {}

  lemma LowXor0(w: bv32, m: bv32)
    ensures Low0(w ^ m) == Low0(w) ^ Low0(m)
  {}

  lemma LowXor1(w: bv32, m: bv32)
    ensures Low1(w ^ m) == Low1(w) ^ Low1(m)
  {}

  lemma LowXor2(w: bv32, m: bv32)
    ensures Low2(w ^ m) == Low2(w) ^ Low2(m)
  {}

  lemma LowXor3(w: bv32, m: bv32)
    ensures Low3(w ^ m) == Low3(w) ^ Low3(m)
  {}

  lemma LowXor(w: bv32, m: bv32, k: nat)
    requires k < 4
    ensures Low(w ^ m, k) == Low(w, k) ^ Low(m, k)
  {
    if k == 0 {
      LowXor0(w, m);
    } else if k == 1 {
      LowXor1(w, m);
    } else if k == 2 {
      LowXor2(w, m);
    } else {
      LowXor3(w, m);
    }
  }

  /** Combining words combines their bytes, in either byte order. */
  lemma KeyXor(w: bv32, m: bv32, i: nat, e: Endian)
    requires i < 4
    ensures Key(w ^ m, e)[i] == Key(w, e)[i] ^ Key(m, e)[i]
  {
    KeyAt(w ^ m, i, e);
    KeyAt(w, i, e);
    KeyAt(m, i, e);
    LowXor(w, m, if e == Little then i else 3 - i);
  }

  lemma LowOfFromLow(b0: byte, b1: byte, b2: byte, b3: byte, k: nat)
    requires k < 4
    ensures Low(FromLow(b0, b1, b2, b3), k) == (if k == 0 then b0 else if k == 1 then b1 else if k == 2 then b2 else b3)
  {}

  lemma KeyOfWord(b: seq<byte>, i: nat, e: Endian)
    requires |b| == 4 && i < 4
    ensures Key(WordOf(b[0], b[1], b[2], b[3], e), e)[i] == b[i]
  {
    WordBytes(b[0], b[1], b[2], b[3], i, e);
    KeyAt(WordOf(b[0], b[1], b[2], b[3], e), i, e);
  }

  lemma WordBytes(b0: byte, b1: byte, b2: byte, b3: byte, i: nat, e: Endian)
    requires i < 4
    ensures ByteOf(WordOf(b0, b1, b2, b3, e), i, e) == [b0, b1, b2, b3][i]
  {
    if e == Little {
      LowOfFromLow(b0, b1, b2, b3, i);
    } else {
      LowOfFromLow(b3, b2, b1, b0, 3 - i);
    }
  }

  // ---- Turning the mask ----

  function RotatedLeft(m: bv32, n: nat): (r: bv32)
    requires n < 4
  {
    if n == 0 then m else if n == 1 then m.RotateLeft(8) else if n == 2 then m.RotateLeft(16) else m.RotateLeft(24)
  }

  function RotatedRight(m: bv32, n: nat): (r: bv32)
    requires n < 4
  {
    if n == 0 then m else if n == 1 then m.RotateRight(8) else if n == 2 then m.RotateRight(16) else m.RotateRight(24)
  }

  /** The mask for data that starts `n` bytes later. */
  function Rotated(m: bv32, n: nat, e: Endian): (r: bv32)
    requires n < 4
  {
    if e == Big then RotatedLeft(m, n) else RotatedRight(m, n)
  }

  lemma RotateRight8(m: bv32)
    ensures var r := m.RotateRight(8); Low0(r) == Low1(m) && Low1(r) == Low2(m) && Low2(r) == Low3(m) && Low3(r) == Low0(m)
  {}

  lemma RotateRight16(m: bv32)
    ensures var r := m.RotateRight(16); Low0(r) == Low2(m) && Low1(r) == Low3(m) && Low2(r) == Low0(m) && Low3(r) == Low1(m)
  {}

  lemma RotateRight24(m: bv32)
    ensures var r := m.RotateRight(24); Low0(r) == Low3(m) && Low1(r) == Low0(m) && Low2(r) == Low1(m) && Low3(r) == Low2(m)
  {}

  lemma RotateLeft8(m: bv32)
    ensures var r := m.RotateLeft(8); Low0(r) == Low3(m) && Low1(r) == Low0(m) && Low2(r) == Low1(m) && Low3(r) == Low2(m)
  {}

  lemma RotateLeft16(m: bv32)
    ensures var r := m.RotateLeft(16); Low0(r) == Low2(m) && Low1(r) == Low3(m) && Low2(r) == Low0(m) && Low3(r) == Low1(m)
  {}

  lemma RotateLeft24(m: bv32)
    ensures var r := m.RotateLeft(24); Low0(r) == Low1(m) && Low1(r) == Low2(m) && Low2(r) == Low3(m) && Low3(r) == Low0(m)
  {}

  lemma RightShiftsBytes(m: bv32, n: nat, i: nat)
    requires n < 4 && i < 4
    ensures Low(RotatedRight(m, n), i) == Low(m, (i + n) % 4)
  {
    if n == 1 {
      RotateRight8(m);
    } else if n == 2 {
      RotateRight16(m);
    } else if n == 3 {
      RotateRight24(m);
    }
  }

  lemma LeftShiftsBytes(m: bv32, n: nat, i: nat)
    requires n < 4 && i < 4
    ensures Low(RotatedLeft(m, n), 3 - i) == Low(m, 3 - (i + n) % 4)
  {
    if n == 1 {
      RotateLeft8(m);
    } else if n == 2 {
      RotateLeft16(m);
    } else if n == 3 {
      RotateLeft24(m);
    }
  }

  lemma RotationShiftsBytes(m: bv32, n: nat, i: nat, e: Endian)
    requires n < 4 && i < 4
    ensures ByteOf(Rotated(m, n, e), i, e) == ByteOf(m, (i + n) % 4, e)
  {
    if e == Little {
      RightShiftsBytes(m, n, i);
    } else {
      LeftShiftsBytes(m, n, i);
    }
  }

  lemma RotatedAt(m: bv32, n: nat, j: nat, e: Endian)
    requires n < 4 && j < 4
    ensures Key(Rotated(m, n, e), e)[j] == Key(m, e)[(n + j) % 4]
  {
    RotationShiftsBytes(m, n, j, e);
    KeyAt(Rotated(m, n, e), j, e);
    KeyAt(m, (n + j) % 4, e);
  }

  // ---- Reference: element by element ----

  /** Each element combined with its element of the key. */
  function Zip<T>(s: seq<T>, key: seq<T>, f: (T, T) -> T): (r: seq<T>)
    requires |key| == 4
    ensures |r| == |s|
  {
    seq(|s|, i requires 0 <= i < |s| => f(s[i], key[i % 4]))
  }

  /** The same for `n` elements from `p` on. */
  function Step<T>(s: seq<T>, p: nat, n: nat, key: seq<T>, f: (T, T) -> T): (r: seq<T>)
    requires |key| == 4 && p + n <= |s|
    ensures |r| == |s|
  {
    s[..p] + Zip(s[p..p + n], key, f) + s[p + n..]
  }

  /** The mask in use at position `p` continues the mask in use at 0. */
  ghost predicate Continues<T>(key: seq<T>, key': seq<T>, p: nat)
    requires |key| == 4 && |key'| == 4
  {
    forall j | 0 <= j < 4 :: key'[j] == key[(p + j) % 4]
  }

  lemma SamePlace(i: nat, p: nat)
    ensures (p + i % 4) % 4 == (p + i) % 4
  {}

  lemma ZipOn<T>(s: seq<T>, p: nat, key: seq<T>, key': seq<T>, f: (T, T) -> T)
    requires |key| == 4 && |key'| == 4 && p <= |s| && Continues(key, key', p)
    ensures Zip(s, key, f) == Zip(s[..p], key, f) + Zip(s[p..], key', f)
  {
    var l, r := Zip(s, key, f), Zip(s[..p], key, f) + Zip(s[p..], key', f);
    forall i | 0 <= i < |s| ensures l[i] == r[i] {
      if i >= p {
        SamePlace(i - p, p);
        assert key'[(i - p) % 4] == key[(p + (i - p) % 4) % 4];
      }
    }
  }

  /** Going on behind what has been done. */
  lemma StepOn<T>(s: seq<T>, p: nat, n: nat, key: seq<T>, key': seq<T>, f: (T, T) -> T)
    requires |key| == 4 && |key'| == 4 && p + n <= |s| && Continues(key, key', p)
    ensures Step(Step(s, 0, p, key, f), p, n, key', f) == Step(s, 0, p + n, key, f)
  {
    var done := Step(s, 0, p, key, f);
    assert s[0..p] == s[..p] && s[..0] == [];
    assert done == Zip(s[..p], key, f) + s[p..];
    assert done[..p] == Zip(s[..p], key, f) && done[p..p + n] == s[p..p + n] && done[p + n..] == s[p + n..];
    ZipOn(s[..p + n], p, key, key', f);
    assert s[..p + n][..p] == s[..p] && s[..p + n][p..] == s[p..p + n];
    assert s[0..p + n] == s[..p + n];
  }

  lemma ContinuesOn<T>(key: seq<T>, key': seq<T>, p: nat, n: nat)
    requires |key| == 4 && |key'| == 4 && Continues(key, key', p) && n % 4 == 0
    ensures Continues(key, key', p + n)
  {
    forall j | 0 <= j < 4 ensures key'[j] == key[(p + n + j) % 4] {
      assert (p + n + j) % 4 == (p + j) % 4;
    }
  }

  lemma NothingDone<T>(s: seq<T>, key: seq<T>, f: (T, T) -> T)
    requires |key| == 4
    ensures Step(s, 0, 0, key, f) == s
  {}

  lemma AllDone<T>(s: seq<T>, key: seq<T>, f: (T, T) -> T)
    requires |key| == 4
    ensures Step(s, 0, |s|, key, f) == Zip(s, key, f)
  {
    assert s[0..|s|] == s && s[..0] == [] && s[|s|..] == [];
  }

  lemma ZipPrefix<T>(s: seq<T>, n: nat, key: seq<T>, f: (T, T) -> T)
    requires |key| == 4 && n <= |s|
    ensures Zip(s, key, f)[..n] == Zip(s[..n], key, f)
  {}

  lemma ZipHalves<T>(s: seq<T>, key: seq<T>, f: (T, T) -> T)
    requires |key| == 4 && |s| == 8
    ensures Zip(s, key, f) == Zip(s[..4], key, f) + Zip(s[4..], key, f)
  {
    assert Continues(key, key, 4);
    ZipOn(s, 4, key, key, f);
  }

  lemma Zipped<T>(s: seq<T>, key: seq<T>, f: (T, T) -> T, x: seq<T>)
    requires |s| == |key| == |x| == 4 && forall i | 0 <= i < 4 :: x[i] == f(s[i], key[i])
    ensures x == Zip(s, key, f)
  {
    forall i | 0 <= i < 4 ensures x[i] == Zip(s, key, f)[i] {
      assert i % 4 == i;
    }
  }

  function XorByte(a: byte, b: byte): (x: byte) { a ^ b }

  /** Masking, byte by byte. */
  function Masked(s: seq<byte>, key: seq<byte>): (r: seq<byte>)
    requires |key| == 4
  {
    Zip(s, key, XorByte)
  }

  lemma XorTwice(a: byte, k: byte)
    ensures XorByte(XorByte(a, k), k) == a
  {}

  /** Unmasking is masking again. */
  lemma MaskTwice(s: seq<byte>, key: seq<byte>)
    requires |key| == 4
    ensures Masked(Masked(s, key), key) == s
  {
    forall i | 0 <= i < |s| ensures Masked(Masked(s, key), key)[i] == s[i] {
      XorTwice(s[i], key[i % 4]);
    }
  }

  // ---- The programs ----

  /** A byte at a time. */
  method ApplyMaskFallback(buf: array<byte>, mask: seq<byte>)
    requires |mask| == 4
    modifies buf
    ensures buf[..] == Masked(old(buf[..]), mask)
  {
    var i := 0;
    while i < buf.Length
      invariant i <= buf.Length
      invariant forall j | 0 <= j < i :: buf[j] == XorByte(old(buf[j]), mask[j % 4])
      invariant forall j | i <= j < buf.Length :: buf[j] == old(buf[j])
    {
      buf[i] := XorByte(buf[i], mask[i % 4]);
      i := i + 1;
    }
  }

  /** Four bytes read as a word. */
  method Load(b: seq<byte>, e: Endian) returns (w: bv32)
    requires |b| == 4
    ensures forall i | 0 <= i < 4 :: Key(w, e)[i] == b[i]
  {
    w := WordOf(b[0], b[1], b[2], b[3], e);
    forall i | 0 <= i < 4 ensures Key(w, e)[i] == b[i] {
      KeyOfWord(b, i, e);
    }
  }

  /** The bytes of a word that has been combined with the mask. */
  method Unload(w: bv32, m: bv32, masked: bv32, e: Endian) returns (x: seq<byte>)
    requires masked == w ^ m
    ensures x == Zip(Key(w, e), Key(m, e), XorByte)
  {
    x := Key(masked, e);
    forall i | 0 <= i < 4 ensures x[i] == XorByte(Key(w, e)[i], Key(m, e)[i]) {
      KeyXor(w, m, i, e);
    }
    Zipped(Key(w, e), Key(m, e), XorByte, x);
  }

  /** Four bytes loaded as a word, combined with the mask, and stored again. */
  method XorLoaded(b: seq<byte>, m: bv32, e: Endian) returns (x: seq<byte>)
    requires |b| == 4
    ensures x == Zip(b, Key(m, e), XorByte)
  {
    var w := Load(b, e);
    assert Key(w, e) == b;
    x := Unload(w, m, w ^ m, e);
  }

  function Half0(w: bv64): (h: bv32) { (w & 0xffff_ffff) as bv32 }
  function Half1(w: bv64): (h: bv32) { ((w >> 32) & 0xffff_ffff) as bv32 }
  function FromHalves(low: bv32, high: bv32): (w: bv64) { (low as bv64) | ((high as bv64) << 32) }

  /** A 64-bit word is two 32-bit words; the doubled mask masks both. */
  lemma XorHalves(low: bv32, high: bv32, m: bv32)
    ensures var w := FromHalves(low, high) ^ (((m as bv64) << 32) | (m as bv64));
            Half0(w) == low ^ m && Half1(w) == high ^ m
  {}

  method XorWord(low: bv32, high: bv32, m: bv32) returns (l: bv32, h: bv32)
    ensures l == low ^ m && h == high ^ m
  {
    var w := FromHalves(low, high) ^ (((m as bv64) << 32) | (m as bv64));
    XorHalves(low, high, m);
    l, h := Half0(w), Half1(w);
  }

  /** The 64-bit operation on two neighbouring words. On a big-endian machine
      the high half comes first in memory. */
  method XorPair(first: bv32, second: bv32, m: bv32, e: Endian) returns (x: bv32, y: bv32)
    ensures x == first ^ m && y == second ^ m
  {
    if e == Little {
      x, y := XorWord(first, second, m);
    } else {
      y, x := XorWord(second, first, m);
    }
  }

  /** Eight bytes loaded as a word, combined with the doubled mask, and stored
      again. */
  method XorLoaded64(b: seq<byte>, m: bv32, e: Endian) returns (x: seq<byte>)
    requires |b| == 8
    ensures x == Zip(b, Key(m, e), XorByte)
  {
    var first := Load(b[..4], e);
    var second := Load(b[4..], e);
    assert Key(first, e) == b[..4] && Key(second, e) == b[4..];
    var f, g := XorPair(first, second, m, e);
    var low := Unload(first, m, f, e);
    var high := Unload(second, m, g, e);
    x := low + high;
    ZipHalves(b, Key(m, e), XorByte);
  }

  /** The bytes from `p` on replaced by `x`. */
  method Store(buf: array<byte>, p: nat, x: seq<byte>)
    requires p + |x| <= buf.Length
    modifies buf
    ensures buf[..] == old(buf[..p]) + x + old(buf[p + |x|..])
  {
    forall i | 0 <= i < |x| {
      buf[p + i] := x[i];
    }
  }

  /** An aligned 32-bit access. */
  method XorWord32(buf: array<byte>, base: nat, p: nat, m: bv32, e: Endian)
    requires p + 4 <= buf.Length && (base + p) % 4 == 0
    modifies buf
    ensures buf[..] == Step(old(buf[..]), p, 4, Key(m, e), XorByte)
  {
    var x := XorLoaded(buf[p..p + 4], m, e);
    Sliced(buf, p, 4);
    Store(buf, p, x);
  }

  lemma Sliced(buf: array<byte>, p: nat, n: nat)
    requires p + n <= buf.Length
    ensures buf[..][..p] == buf[..p] && buf[..][p..p + n] == buf[p..p + n] && buf[..][p + n..] == buf[p + n..]
  {}

  /** A 64-bit access, aligned to 32 bits only. */
  method XorWord64(buf: array<byte>, base: nat, p: nat, m: bv32, e: Endian)
    requires p + 8 <= buf.Length && (base + p) % 4 == 0
    modifies buf
    ensures buf[..] == Step(old(buf[..]), p, 8, Key(m, e), XorByte)
  {
    var x := XorLoaded64(buf[p..p + 8], m, e);
    Sliced(buf, p, 8);
    Store(buf, p, x);
  }

  /** Fewer than four bytes, by way of a word whose other bytes are arbitrary. */
  method XorMem(buf: array<byte>, p: nat, m: bv32, n: nat, e: Endian)
    requires n < 4 && p + n <= buf.Length
    modifies buf
    ensures buf[..] == Step(old(buf[..]), p, n, Key(m, e), XorByte)
  {
    var uninitialized: bv32 := *;
    var b := buf[p..p + n] + Key(uninitialized, e)[n..];
    var x := XorLoaded(b, m, e);
    ZipPrefix(b, n, Key(m, e), XorByte);
    assert b[..n] == buf[p..p + n];
    Sliced(buf, p, n);
    Store(buf, p, x[..n]);
  }

  /** The first `p` bytes are done, and `m` is the mask for what follows. */
  ghost predicate Done(now: seq<byte>, s: seq<byte>, p: nat, key: seq<byte>, m: bv32, e: Endian)
    requires p <= |s| && |key| == 4
  {
    now == Step(s, 0, p, key, XorByte) && Continues(key, Key(m, e), p)
  }

  lemma DoneOn(s: seq<byte>, p: nat, n: nat, key: seq<byte>, m: bv32, e: Endian, now: seq<byte>)
    requires p + n <= |s| && |key| == 4 && n % 4 == 0 && Done(now, s, p, key, m, e)
    ensures Done(Step(now, p, n, Key(m, e), XorByte), s, p + n, key, m, e)
  {
    StepOn(s, p, n, key, Key(m, e), XorByte);
    ContinuesOn(key, Key(m, e), p, n);
  }

  lemma DoneAll(s: seq<byte>, p: nat, key: seq<byte>, m: bv32, e: Endian, now: seq<byte>)
    requires p <= |s| && |key| == 4 && Done(now, s, p, key, m, e)
    ensures p == |s| ==> now == Masked(s, key)
    ensures Step(now, p, |s| - p, Key(m, e), XorByte) == Masked(s, key)
  {
    StepOn(s, p, |s| - p, key, Key(m, e), XorByte);
    AllDone(s, key, XorByte);
  }

  /** Words of eight bytes, from an aligned address on. */
  method MaskWords64(buf: array<byte>, base: nat, from: nat, m: bv32, e: Endian, ghost s: seq<byte>, ghost key: seq<byte>)
    returns (p: nat)
    requires from <= buf.Length == |s| && |key| == 4 && (from < buf.Length ==> (base + from) % 4 == 0)
    requires Done(buf[..], s, from, key, m, e)
    modifies buf
    ensures from <= p <= buf.Length < p + 8 && (p < buf.Length ==> (base + p) % 4 == 0)
    ensures Done(buf[..], s, p, key, m, e)
  {
    p := from;
    while buf.Length - p >= 8
      invariant from <= p <= buf.Length && (p < buf.Length ==> (base + p) % 4 == 0)
      invariant Done(buf[..], s, p, key, m, e)
    {
      DoneOn(s, p, 8, key, m, e, buf[..]);
      XorWord64(buf, base, p, m, e);
      p := p + 8;
    }
  }

  /** Words of four bytes, from an aligned address on. */
  method MaskWords32(buf: array<byte>, base: nat, from: nat, m: bv32, e: Endian, ghost s: seq<byte>, ghost key: seq<byte>)
    returns (p: nat)
    requires from <= buf.Length == |s| && |key| == 4 && (from < buf.Length ==> (base + from) % 4 == 0)
    requires Done(buf[..], s, from, key, m, e)
    modifies buf
    ensures from <= p <= buf.Length < p + 4
    ensures Done(buf[..], s, p, key, m, e)
  {
    p := from;
    while buf.Length - p >= 4
      invariant from <= p <= buf.Length && (p < buf.Length ==> (base + p) % 4 == 0)
      invariant Done(buf[..], s, p, key, m, e)
    {
      DoneOn(s, p, 4, key, m, e, buf[..]);
      XorWord32(buf, base, p, m, e);
      p := p + 4;
    }
  }

  /** How many bytes come before the first aligned address. */
  function HeadLength(base: nat, len: nat): (n: nat) {
    Bytes.Min(len, (8 - base % 8) % 4)
  }

  lemma HeadAligns(base: nat, len: nat)
    ensures var n := HeadLength(base, len);
            n < 4 && n <= len && (n < len ==> (base + n) % 4 == 0)
  {
    var r := base % 8;
    assert base == 8 * (base / 8) + r;
  }

  /** The mask for the data behind the first `n` bytes. */
  method Turned(mask: bv32, n: nat, e: Endian) returns (m: bv32)
    requires n < 4
    ensures Continues(Key(mask, e), Key(m, e), n)
  {
    m := if n > 0 then Rotated(mask, n, e) else mask;
    forall j | 0 <= j < 4 ensures Key(m, e)[j] == Key(mask, e)[(n + j) % 4] {
      RotatedAt(mask, n, j, e);
    }
  }

  /** Single bytes up to the first aligned address; the mask is turned to fit. */
  method MaskHead(buf: array<byte>, base: nat, mask: bv32, e: Endian) returns (head: nat, m: bv32)
    modifies buf
    ensures head <= buf.Length && (head < buf.Length ==> (base + head) % 4 == 0)
    ensures Done(buf[..], old(buf[..]), head, Key(mask, e), m, e)
  {
    HeadAligns(base, buf.Length);
    head := HeadLength(base, buf.Length);
    if head > 0 {
      XorMem(buf, 0, mask, head, e);
    } else {
      NothingDone(buf[..], Key(mask, e), XorByte);
    }
    m := Turned(mask, head, e);
  }

  /** Masks the data a word at a time: single bytes up to the first aligned
      address, then words, then the bytes that are left. `base` is the address
      of the data. */
  method ApplyMaskFast32(buf: array<byte>, base: nat, mask: bv32, e: Endian)
    modifies buf
    ensures buf[..] == Masked(old(buf[..]), Key(mask, e))
  {
    ghost var s, key := buf[..], Key(mask, e);
    var head, m := MaskHead(buf, base, mask, e);
    var q := MaskWords64(buf, base, head, m, e, s, key);
    var p := MaskWords32(buf, base, q, m, e, s, key);
    DoneAll(s, p, key, m, e, buf[..]);
    if p < buf.Length {
      XorMem(buf, p, m, buf.Length - p, e);
    }
  }

  /** The 64-bit accesses are 8-byte aligned exactly when the data starts in the
      last three bytes of an 8-byte block, or on a block. */
  lemma EightAlignedIff(base: nat, len: nat)
    requires HeadLength(base, len) < len
    ensures (base + HeadLength(base, len)) % 8 == 0 <==> base % 8 == 0 || base % 8 > 4
  {}
}
