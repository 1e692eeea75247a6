/** Byte strings, the growable buffer shared by readers and writers, and the
    answer types of polled operations. */
module Bytes {
  type byte = x: int | 0 <= x < 256
  type Data = seq<byte>

  const U64: nat := 0x1_0000_0000_0000_0000

  const CR: byte := 13
  const LF: byte := 10

  datatype Option<+T> = None | Some(value: T)

  /** The answer of a polled operation. */
  datatype Poll<+T> = Ready(value: T) | NotReady | Error

  function Min(a: nat, b: nat): nat { if a < b then a else b }

  /** All pieces in order, as one byte string. */
  function Concat(pieces: seq<Data>): (flat: Data) {
    if pieces == [] then [] else pieces[0] + Concat(pieces[1..])
  }

  lemma {:induction false} ConcatSplit(a: seq<Data>, b: seq<Data>)
    ensures Concat(a + b) == Concat(a) + Concat(b)
  {
    if a == [] {
      assert a + b == b;
    } else {
      ConcatSplit(a[1..], b);
      assert (a + b)[1..] == a[1..] + b && (a + b)[0] == a[0];
      Assoc(a[0], Concat(a[1..]), Concat(b));
    }
  }

  lemma ConcatPush(a: seq<Data>, d: Data)
    ensures Concat(a + [d]) == Concat(a) + d
  {
    ConcatSplit(a, [d]);
    assert Concat([d]) == d + Concat([]);
  }

  lemma ConcatCons(d: Data, b: seq<Data>)
    ensures Concat([d] + b) == d + Concat(b)
  {
    assert ([d] + b)[1..] == b;
  }

  /** Dropping part of the first piece. */
  lemma DropInFirst(d: Data, rest: Data, k: nat)
    requires k <= |d|
    ensures (d + rest)[k..] == d[k..] + rest
  {}

  lemma Assoc<T>(a: seq<T>, b: seq<T>, c: seq<T>)
    ensures (a + b) + c == a + (b + c)
  {}

  lemma Deeper(s: Data, k: nat, n: nat)
    requires k + n <= |s|
    ensures s[..k] + s[k..][..n] == s[..k + n]
    ensures s[k..][n..] == s[k + n..]
  {}

  lemma Halves(s: Data, k: nat)
    requires k <= |s|
    ensures s[..k] + s[k..] == s
  {}

  /** A growable byte buffer: the initialised bytes, and the reserved but
      uninitialised room behind them. */
  class BytesMut {
    var data: Data
    var spare: array<byte>

    constructor (initial: Data)
      ensures data == initial
      ensures fresh(spare)
    {
      data := initial;
      spare := new byte[0];
    }

    method SplitTo(n: nat) returns (front: Data)
      requires n <= |data|
      modifies this`data
      ensures front == old(data)[..n] && data == old(data)[n..]
    {
      front := data[..n];
      data := data[n..];
    }

    method Take() returns (all: Data)
      modifies this`data
      ensures all == old(data) && data == []
    {
      all := data;
      data := [];
    }

    /** Makes room for at least `n` more bytes; how much more is not promised. */
    method Reserve(n: nat)
      modifies this`spare
      ensures spare.Length >= n
      ensures spare == old(spare) || fresh(spare)
    {
      if spare.Length < n {
        var size: nat :| size >= n;
        spare := new byte[size];
      }
    }

    /** Declares the first `n` bytes of the room initialised. */
    method AdvanceMut(n: nat)
      requires n <= spare.Length
      modifies this
      ensures data == old(data) + old(spare[..n])
      ensures fresh(spare) && spare.Length == old(spare.Length) - n
    {
      data := data + spare[..n];
      spare := new byte[spare.Length - n];
    }

    method Extend(d: Data)
      modifies this`data
      ensures data == old(data) + d
    {
      data := data + d;
    }
  }
}
