/** The counter that guards the payload shared by nested multipart streams
    (`Safety` in src/multipart.rs). */
module PayloadSafety {

  /** The reference count shared by all handles, and the handles that are alive. */
  class Count {
    var strong: nat
    ghost var live: seq<Safety>

    /** The handles hold the levels from 1 up to the count, once each. */
    ghost predicate Valid()
      reads this
    {
      && strong == |live|
      && forall i | 0 <= i < |live| :: live[i].level == i + 1 && live[i].count == this
    }

    constructor ()
      ensures strong == 0 && live == []
    {
      strong, live := 0, [];
    }
  }

  class Safety {
    const level: nat
    const count: Count

    /** A further reference to the shared count; its level is the count. */
    constructor Counted(count: Count)
      requires count.Valid()
      modifies count
      ensures this.count == count && count.Valid() && level == count.strong
      ensures count.live == old(count.live) + [this]
    {
      this.count := count;
      level := count.strong + 1;
      new;
      count.strong := count.strong + 1;
      count.live := count.live + [this];
    }

    predicate Current()
      reads count
    {
      count.strong == level
    }

    /** Any handle can be cloned. */
    method Clone() returns (other: Safety)
      requires count.Valid()
      modifies count
      ensures fresh(other) && other.count == count && count.Valid()
      ensures count.live == old(count.live) + [other] && other.Current()
    {
      other := new Safety.Counted(count);
    }

    /** Only the handle on top can go without a panic; the count falls in any
        case. */
    method Drop() returns (panicked: bool)
      requires count.Valid() && this in count.live
      modifies count
      ensures panicked <==> this != old(count.live)[|old(count.live)| - 1]
      ensures count.strong == old(count.strong) - 1
      ensures !panicked ==> count.Valid() && count.live == old(count.live)[..|old(count.live)| - 1]
      ensures panicked ==> |count.live| == count.strong && multiset(count.live) == multiset(old(count.live)) - multiset{this}
    {
      OneIsCurrent(count, this);
      panicked := !Current();
      ghost var i := |count.live| - 1;
      if panicked {
        i :| 0 <= i < |count.live| && count.live[i] == this;
      }
      Without(count.live, i);
      count.live := count.live[..i] + count.live[i + 1..];
      count.strong := count.strong - 1;
    }

    /** The payload is handed out to the last of the live handles and to no
        other. */
    method GetMut<T>(payload: T) returns (r: seq<T>)
      requires count.Valid() && this in count.live
      ensures r == if this == count.live[|count.live| - 1] then [payload] else []
    {
      OneIsCurrent(count, this);
      r := if Current() then [payload] else [];
    }
  }

  lemma Without<T>(s: seq<T>, i: nat)
    requires i < |s|
    ensures multiset(s[..i] + s[i + 1..]) == multiset(s) - multiset{s[i]}
  {
    assert s == s[..i] + [s[i]] + s[i + 1..];
  }

  /** Of the handles alive, exactly the last is current. */
  lemma OneIsCurrent(count: Count, h: Safety)
    requires count.Valid() && h in count.live
    ensures h.Current() <==> h == count.live[|count.live| - 1]
  {
    var i :| 0 <= i < |count.live| && count.live[i] == h;
    assert count.live[|count.live| - 1].level == |count.live|;
  }

  datatype Use = CloneOf(i: nat) | DropOf(i: nat)

  /** Any run of clones and drops up to the first panic: exactly one handle may
      use the payload at any time. */
  method Run<T>(count: Count, uses: seq<Use>, handles: seq<Safety>, payload: T)
    returns (alive: seq<Safety>, panicked: bool, users: seq<nat>)
    requires count.Valid() && handles == count.live
    modifies count
    ensures !panicked ==> count.Valid() && alive == count.live
    ensures !panicked ==> users == if alive == [] then [] else [|alive| - 1]
  {
    alive, panicked := handles, false;
    var i := 0;
    while i < |uses| && !panicked
      invariant !panicked ==> count.Valid() && alive == count.live
    {
      match uses[i] {
        case CloneOf(k) =>
          if k < |alive| {
            var other := alive[k].Clone();
            alive := alive + [other];
          }
        case DropOf(k) =>
          if k < |alive| {
            panicked := alive[k].Drop();
            if !panicked {
              alive := alive[..|alive| - 1];
            }
          }
      }
      i := i + 1;
    }
    users := [];
    if !panicked {
      users := Users(count, alive, payload);
    }
  }

  /** The positions of the handles that get the payload when all of them ask. */
  method Users<T>(count: Count, alive: seq<Safety>, payload: T) returns (users: seq<nat>)
    requires count.Valid() && alive == count.live
    ensures users == if alive == [] then [] else [|alive| - 1]
  {
    users := [];
    var i := 0;
    while i < |alive|
      invariant i <= |alive| && users == if i == |alive| > 0 then [|alive| - 1] else []
    {
      assert alive[i].level == i + 1;
      var r := alive[i].GetMut(payload);
      if |r| > 0 {
        users := users + [i];
      }
      i := i + 1;
    }
  }
}
