/** The one-pass delimiter matcher inside `PayloadHelper::read_until`
    (src/payload.rs): on a mismatch it starts over without testing the current
    byte again. */
module Matcher {
  import opened Bytes

  /** How many bytes of `s` are read until `line` is complete, when `idx` bytes
      of it have been matched already. */
  function Match(line: Data, idx: nat, s: Data): (n: Option<nat>)
    requires idx < |line|
    ensures n.Some? ==> |line| - idx <= n.value <= |s|
    decreases |s|
  {
    if s == [] then None
    else if s[0] == line[idx] && idx + 1 == |line| then Some(1)
    else
      match Match(line, if s[0] == line[idx] then idx + 1 else 0, s[1..])
      case None => None
      case Some(n) => Some(n + 1)
  }

  /** How much of `line` is matched after reading all of `s` without completing it. */
  function Progress(line: Data, idx: nat, s: Data): (idx': nat)
    requires idx < |line|
    requires Match(line, idx, s).None?
    ensures idx' < |line|
    decreases |s|
  {
    if s == [] then idx
    else Progress(line, if s[0] == line[idx] then idx + 1 else 0, s[1..])
  }

  /** A search can be stopped anywhere and taken up again. */
  lemma {:induction false} MatchSplit(line: Data, idx: nat, a: Data, b: Data)
    requires idx < |line|
    ensures Match(line, idx, a).Some? ==> Match(line, idx, a + b) == Match(line, idx, a)
    ensures Match(line, idx, a).None? ==>
              var later := Match(line, Progress(line, idx, a), b);
              && Match(line, idx, a + b) == (if later.None? then None else Some(|a| + later.value))
              && (later.None? ==> Progress(line, idx, a + b) == Progress(line, Progress(line, idx, a), b))
    decreases |a|
  {
    if a == [] {
      assert a + b == b;
    } else {
      assert (a + b)[1..] == a[1..] + b;
      if !(a[0] == line[idx] && idx + 1 == |line|) {
        MatchSplit(line, if a[0] == line[idx] then idx + 1 else 0, a[1..], b);
      }
    }
  }

  lemma MatchStep(line: Data, idx: nat, a: Data, b: byte)
    requires idx < |line|
    requires Match(line, idx, a).None?
    ensures var i := Progress(line, idx, a);
            if b == line[i] && i + 1 == |line| then
              Match(line, idx, a + [b]) == Some(|a| + 1)
            else
              && Match(line, idx, a + [b]).None?
              && Progress(line, idx, a + [b]) == (if b == line[i] then i + 1 else 0)
  {
    MatchSplit(line, idx, a, [b]);
    assert [b][1..] == [];
  }

  ghost predicate OccursEndingAt(line: Data, s: Data, n: nat) {
    |line| <= n <= |s| && s[n - |line|..n] == line
  }

  lemma OccursHere(line: Data, text: Data, n: nat)
    requires |line| <= n <= |text| && forall i | 0 <= i < |line| :: text[n - |line| + i] == line[i]
    ensures OccursEndingAt(line, text, n)
  {}

  /** What is found is the delimiter. */
  lemma {:induction false} MatchIsOccurrence(line: Data, idx: nat, text: Data, at: nat)
    requires idx < |line| && idx <= at <= |text|
    requires forall i | 0 <= i < idx :: text[at - idx + i] == line[i]
    requires Match(line, idx, text[at..]).Some?
    ensures OccursEndingAt(line, text, at + Match(line, idx, text[at..]).value)
    decreases |text| - at
  {
    var s := text[at..];
    assert s[1..] == text[at + 1..];
    if s[0] != line[idx] {
      MatchIsOccurrence(line, 0, text, at + 1);
    } else if idx + 1 < |line| {
      MatchIsOccurrence(line, idx + 1, text, at + 1);
    } else {
      OccursHere(line, text, at + 1);
    }
  }

  ghost predicate FindsFirst(line: Data)
    requires line != []
  {
    forall s: Data, n: nat | OccursEndingAt(line, s, n) ::
      Match(line, 0, s).Some? && Match(line, 0, s).value <= n
  }

  ghost predicate Uniform(line: Data) {
    forall i | 0 <= i < |line| :: line[i] == line[0]
  }

  /** The last `k` bytes of the first `n`, or all of them if `n < k`, are `b`. */
  ghost predicate RunOf(b: byte, s: Data, k: nat, n: nat) {
    n <= |s| && forall i | 0 <= i < n && n - k <= i :: s[i] == b
  }

  lemma OccurrenceIsRun(line: Data, s: Data, n: nat)
    requires Uniform(line) && line != [] && OccursEndingAt(line, s, n)
    ensures RunOf(line[0], s, |line|, n)
  {
    forall i | 0 <= i < n && n - |line| <= i ensures s[i] == line[0] {
      assert s[i] == s[n - |line|..n][i - (n - |line|)];
    }
  }

  lemma {:induction false} UniformFindsFirst(line: Data, idx: nat, s: Data, n: nat)
    requires Uniform(line) && idx < |line| <= idx + n
    requires RunOf(line[0], s, |line|, n)
    ensures Match(line, idx, s).Some? && Match(line, idx, s).value <= n
    decreases |s|
  {
    assert RunOf(line[0], s[1..], |line|, n - 1);
    if s[0] != line[idx] {
      UniformFindsFirst(line, 0, s[1..], n - 1);
    } else if idx + 1 < |line| {
      UniformFindsFirst(line, idx + 1, s[1..], n - 1);
    }
  }

  /** Bytes that agree with the delimiter are counted. */
  lemma {:induction false} MatchRun(line: Data, idx: nat, s: Data, n: nat)
    requires idx + n < |line| && n <= |s| && s[..n] == line[idx..idx + n]
    ensures Match(line, idx, s)
         == match Match(line, idx + n, s[n..]) case None => None case Some(m) => Some(n + m)
    decreases n
  {
    if n == 0 {
      assert s[0..] == s;
    } else {
      assert s[0] == s[..n][0] == line[idx..idx + n][0];
      assert s[1..][..n - 1] == s[..n][1..] == line[idx + 1..idx + n];
      MatchRun(line, idx + 1, s[1..], n - 1);
      assert s[1..][n - 1..] == s[n..];
    }
  }

  /** With two different bytes in it, the delimiter is missed when its own first
      byte stands in front of it. */
  lemma MixedMissesOne(line: Data)
    requires line != [] && !Uniform(line)
    ensures Match(line, 0, [line[0]] + line).None?
    ensures OccursEndingAt(line, [line[0]] + line, |line| + 1)
  {
    var j := FirstDifferent(line);
    var text := [line[0]] + line;
    assert text[..j] == line[0..j] by {
      forall i | 0 <= i < j ensures text[i] == line[i] {}
    }
    MatchRun(line, 0, text, j);
    var rest := text[j..];
    assert rest[0] == text[j] == line[j - 1] == line[0];
    assert |rest[1..]| < |line|;
    assert Match(line, 0, rest[1..]).None?;
    assert text[1..|line| + 1] == line;
  }

  ghost function FirstDifferent(line: Data): (j: nat)
    requires line != [] && !Uniform(line)
    ensures 0 < j < |line| && line[j] != line[0]
    ensures forall i | 0 <= i < j :: line[i] == line[0]
  {
    FirstDifferentFrom(line, 1)
  }

  ghost function FirstDifferentFrom(line: Data, k: nat): (j: nat)
    requires 0 < k <= |line| && !Uniform(line)
    requires forall i | 0 <= i < k :: line[i] == line[0]
    ensures 0 < j < |line| && line[j] != line[0]
    ensures forall i | 0 <= i < j :: line[i] == line[0]
    decreases |line| - k
  {
    if k < |line| && line[k] != line[0] then k else FirstDifferentFrom(line, k + 1)
  }

  /** The matcher stops at the first occurrence in every text if and only if
      all bytes of the delimiter are the same. */
  lemma FindsFirstIff(line: Data)
    requires line != []
    ensures FindsFirst(line) <==> Uniform(line)
  {
    if Uniform(line) {
      forall s: Data, n: nat | OccursEndingAt(line, s, n)
        ensures Match(line, 0, s).Some? && Match(line, 0, s).value <= n
      {
        OccurrenceIsRun(line, s, n);
        UniformFindsFirst(line, 0, s, n);
      }
    } else {
      MixedMissesOne(line);
    }
  }

  /** The delimiter of a header block is one of those that can be missed. */
  lemma HeaderEndCanBeMissed()
    ensures Match([CR, LF, CR, LF], 0, [CR, CR, LF, CR, LF]).None?
  {
    var line := [CR, LF, CR, LF];
    assert line[1] != line[0];
    MixedMissesOne(line);
    assert [line[0]] + line == [CR, CR, LF, CR, LF];
  }
}
