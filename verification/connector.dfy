/** The client's connection pool (src/client/connector.rs): a counting protocol
    in which reservations are given back through queues and collected later. */
module Connector {
  import opened Bytes

  datatype Key = Key(host: string, port: nat, ssl: bool)

  /** An open connection and when it was opened. */
  datatype Conn = Conn(key: Key, ts: nat)

  /** An idle connection and when it was returned. */
  datatype Idle = Idle(at: nat, conn: Conn)

  // ---- Counting ----

  /** `acquired` and `acquired_per_host`. */
  datatype Counts = Counts(acquired: nat, perHost: map<Key, nat>) {
    function Of(key: Key): nat {
      if key in perHost then perHost[key] else 0
    }
  }

  function Reserved(c: Counts, key: Key): (c': Counts) {
    Counts(c.acquired + 1, c.perHost[key := c.Of(key) + 1])
  }

  function Released(c: Counts, key: Key): (c': Counts)
    requires c.acquired > 0
  {
    if key !in c.perHost then c.(acquired := c.acquired - 1)
    else if c.perHost[key] > 1 then Counts(c.acquired - 1, c.perHost[key := c.perHost[key] - 1])
    else Counts(c.acquired - 1, c.perHost - {key})
  }

  ghost function Pick(m: map<Key, nat>): (k: Key)
    requires m != map[]
    ensures k in m
  {
    var k :| k in m;
    k
  }

  ghost function Sum(m: map<Key, nat>): nat
    decreases |m|
  {
    if m == map[] then 0 else
      var k := Pick(m);
      assert |m.Keys - {k}| < |m.Keys|;
      m[k] + Sum(m - {k})
  }

  /** The total is the sum over the hosts. */
  lemma {:induction false} SumIsTotal(m: map<Key, nat>, owed: multiset<Key>)
    requires forall k :: k in m <==> owed[k] > 0
    requires forall k | k in m :: m[k] == owed[k]
    ensures Sum(m) == |owed|
    decreases |m|
  {
    if m == map[] {
      assert owed == multiset{};
    } else {
      var k := Pick(m);
      assert |m.Keys - {k}| < |m.Keys|;
      var rest := owed[k := 0];
      assert owed == rest + multiset{}[k := owed[k]];
      SumIsTotal(m - {k}, rest);
    }
  }

  /** What the counters say when these reservations are out: how many in all, and
      how many of each host; hosts without one are not listed. */
  ghost function Tally(owed: multiset<Key>): (c: Counts) {
    Counts(|owed|, map k | k in owed :: owed[k])
  }

  ghost predicate Balanced(c: Counts, owed: multiset<Key>) {
    c == Tally(owed)
  }

  lemma ReserveBalances(c: Counts, owed: multiset<Key>, key: Key)
    requires Balanced(c, owed)
    ensures Balanced(Reserved(c, key), owed + multiset{key})
  {
    var c', owed' := Reserved(c, key), owed + multiset{key};
    forall k ensures (k in c'.perHost <==> k in owed') && (k in c'.perHost ==> c'.perHost[k] == owed'[k]) {
      assert owed'[k] == owed[k] + if k == key then 1 else 0;
    }
    assert c'.perHost == Tally(owed').perHost;
  }

  /** Giving back a reservation that is out never underflows and never finds its
      host missing. */
  lemma ReleaseBalances(c: Counts, owed: multiset<Key>, key: Key)
    requires Balanced(c, owed) && key in owed
    ensures c.acquired > 0 && key in c.perHost
    ensures Balanced(Released(c, key), owed - multiset{key})
  {
    assert owed == (owed - multiset{key}) + multiset{key};
    var c', owed' := Released(c, key), owed - multiset{key};
    forall k ensures (k in c'.perHost <==> k in owed') && (k in c'.perHost ==> c'.perHost[k] == owed'[k]) {
      assert owed'[k] == owed[k] - if k == key then 1 else 0;
    }
    assert c'.perHost == Tally(owed').perHost;
  }

  // ---- Limits ----

  /** The test at the start of `acquire`. */
  predicate Refuses(limit: nat, limitPerHost: nat, c: Counts, key: Key) {
    || (limit > 0 && c.acquired >= limit)
    || (limitPerHost > 0 && key in c.perHost && limitPerHost >= c.perHost[key])
  }

  /** Total and host counts within positive limits; a host count never even
      exceeds one, since any reservation of a host within its limit makes
      `acquire` refuse the next. */
  ghost predicate Limited(limit: nat, limitPerHost: nat, c: Counts) {
    && (limit > 0 ==> c.acquired <= limit)
    && (limitPerHost > 0 ==> forall k | k in c.perHost :: c.perHost[k] == 1)
  }

  lemma ReserveLimited(limit: nat, limitPerHost: nat, c: Counts, key: Key)
    requires Limited(limit, limitPerHost, c) && !Refuses(limit, limitPerHost, c, key)
    ensures Limited(limit, limitPerHost, Reserved(c, key))
  {}

  lemma ReleaseLimited(limit: nat, limitPerHost: nat, c: Counts, key: Key)
    requires Limited(limit, limitPerHost, c) && c.acquired > 0
    ensures Limited(limit, limitPerHost, Released(c, key))
  {}

  /** What the documentation of `limit_per_host` promises. */
  predicate ShouldRefuse(limit: nat, limitPerHost: nat, c: Counts, key: Key) {
    || (limit > 0 && c.acquired >= limit)
    || (limitPerHost > 0 && c.Of(key) >= limitPerHost)
  }

  /** With room left in total, `acquire` decides as documented if and only if
      there is no limit per host, or it is one, or the host has no reservation. */
  lemma RefusesAsDocumentedIff(limit: nat, limitPerHost: nat, c: Counts, key: Key)
    requires Limited(limit, limitPerHost, c) && (limit > 0 ==> c.acquired < limit)
    ensures Refuses(limit, limitPerHost, c, key) == ShouldRefuse(limit, limitPerHost, c, key)
       <==> limitPerHost <= 1 || key !in c.perHost
  {}

  // ---- Idle connections ----

  predicate Sorted(q: seq<Idle>) {
    forall i, j | 0 <= i < j < |q| :: q[i].at <= q[j].at
  }

  /** The test with which `collect` discards the front of a queue. */
  predicate Stale(now: nat, keepAlive: nat, lifetime: nat, idle: Idle) {
    (now > idle.at && now - idle.at > keepAlive) || now - idle.conn.ts > lifetime
  }

  function Expired(now: nat, keepAlive: nat, lifetime: nat, q: seq<Idle>): (q': seq<Idle>)
    ensures |q'| <= |q| && q' == q[|q| - |q'|..]
  {
    if q != [] && Stale(now, keepAlive, lifetime, q[0]) then Expired(now, keepAlive, lifetime, q[1..]) else q
  }

  /** Idle longer than the keep-alive time. */
  predicate Overdue(now: nat, keepAlive: nat, idle: Idle) {
    now - idle.at > keepAlive
  }

  /** Stopping at the first fresh connection is enough: in a sorted queue
      nothing behind it is overdue. */
  lemma {:induction false} NothingOverdueLeft(now: nat, keepAlive: nat, lifetime: nat, q: seq<Idle>)
    requires Sorted(q)
    ensures NothingOverdue(now, keepAlive, Expired(now, keepAlive, lifetime, q))
  {
    if q != [] && Stale(now, keepAlive, lifetime, q[0]) {
      NothingOverdueLeft(now, keepAlive, lifetime, q[1..]);
    } else {
      forall i | 0 <= i < |q| ensures !Overdue(now, keepAlive, q[i]) {
        assert q[0].at <= q[i].at;
      }
    }
  }

  predicate TooOld(now: nat, lifetime: nat, idle: Idle) {
    now - idle.conn.ts > lifetime
  }

  /** A connection past its lifetime stands behind one that is fresh. */
  predicate Hidden(now: nat, keepAlive: nat, lifetime: nat, q: seq<Idle>) {
    exists i, j | 0 <= i < j < |q| :: !Stale(now, keepAlive, lifetime, q[i]) && TooOld(now, lifetime, q[j])
  }

  lemma HiddenBehind(now: nat, keepAlive: nat, lifetime: nat, q: seq<Idle>)
    requires q != [] && Stale(now, keepAlive, lifetime, q[0])
    ensures Hidden(now, keepAlive, lifetime, q) <==> Hidden(now, keepAlive, lifetime, q[1..])
  {
    var rest := q[1..];
    if Hidden(now, keepAlive, lifetime, rest) {
      var i, j :| 0 <= i < j < |rest| && !Stale(now, keepAlive, lifetime, rest[i]) && TooOld(now, lifetime, rest[j]);
      assert !Stale(now, keepAlive, lifetime, q[i + 1]) && TooOld(now, lifetime, q[j + 1]);
    }
    if Hidden(now, keepAlive, lifetime, q) {
      var i, j :| 0 <= i < j < |q| && !Stale(now, keepAlive, lifetime, q[i]) && TooOld(now, lifetime, q[j]);
      assert !Stale(now, keepAlive, lifetime, rest[i - 1]) && TooOld(now, lifetime, rest[j - 1]);
    }
  }

  lemma HiddenByFront(now: nat, keepAlive: nat, lifetime: nat, q: seq<Idle>)
    requires q != [] && !Stale(now, keepAlive, lifetime, q[0])
    ensures Hidden(now, keepAlive, lifetime, q) <==> exists j | 0 <= j < |q| :: TooOld(now, lifetime, q[j])
  {
    if j :| 0 <= j < |q| && TooOld(now, lifetime, q[j]) {
      assert !Stale(now, keepAlive, lifetime, q[0]) && TooOld(now, lifetime, q[j]);
    }
  }

  /** The lifetime is only enforced up to the first fresh connection: none past
      its lifetime is left if and only if none stands behind a fresh one. */
  lemma {:induction false} LifetimeEnforcedIff(now: nat, keepAlive: nat, lifetime: nat, q: seq<Idle>)
    ensures NoneTooOld(now, lifetime, Expired(now, keepAlive, lifetime, q)) <==> !Hidden(now, keepAlive, lifetime, q)
  {
    if q != [] {
      if Stale(now, keepAlive, lifetime, q[0]) {
        HiddenBehind(now, keepAlive, lifetime, q);
        LifetimeEnforcedIff(now, keepAlive, lifetime, q[1..]);
      } else {
        HiddenByFront(now, keepAlive, lifetime, q);
      }
    }
  }

  predicate NoneTooOld(now: nat, lifetime: nat, q: seq<Idle>) {
    forall i | 0 <= i < |q| :: !TooOld(now, lifetime, q[i])
  }

  /** The idle connections after some have been returned, each at its own time,
      unless it is past its lifetime. */
  function Returned(av: map<Key, seq<Idle>>, conns: seq<Conn>, times: seq<nat>, now: nat, lifetime: nat): (av': map<Key, seq<Idle>>)
    requires |times| == |conns|
    decreases |conns|
  {
    if conns == [] then av
    else
      var n := |conns| - 1;
      var before := Returned(av, conns[..n], times[..n], now, lifetime);
      if now - conns[n].ts < lifetime then Pushed(before, Idle(times[n], conns[n])) else before
  }

  function Pushed(av: map<Key, seq<Idle>>, idle: Idle): (av': map<Key, seq<Idle>>) {
    av[idle.conn.key := (if idle.conn.key in av then av[idle.conn.key] else []) + [idle]]
  }

  // ---- The objects ----

  /** A clock that never goes back: how far it moves between readings. */
  class Clock {
    var time: nat
    var ticks: seq<nat>

    constructor (ticks: seq<nat>)
      ensures time == 0 && this.ticks == ticks
    {
      time := 0;
      this.ticks := ticks;
    }

    method Now() returns (t: nat)
      modifies this
      ensures t == time && time >= old(time)
      ensures old(ticks) == [] ==> time == old(time) && ticks == []
    {
      if |ticks| > 0 {
        time := time + ticks[0];
        ticks := ticks[1..];
      }
      t := time;
    }

    /** Time goes by. */
    method Pass(d: nat)
      modifies this`time
      ensures time == old(time) + d
    {
      time := time + d;
    }
  }

  function KeysOf(conns: seq<Conn>): (keys: seq<Key>)
    ensures |keys| == |conns|
  {
    seq(|conns|, i requires 0 <= i < |conns| => conns[i].key)
  }

  lemma KeysOfPush(conns: seq<Conn>, c: Conn)
    ensures KeysOf(conns + [c]) == KeysOf(conns) + [c.key]
  {}

  /** What has been given back and not been collected yet. */
  class Pool {
    var keys: seq<Key>
    var toClose: seq<Conn>
    var toRelease: seq<Conn>
    var modified: bool

    /** Every token that has been made for this pool, what matters of it, and the
        hosts of those that still refer to the pool. */
    ghost var tokens: seq<AcquiredConn>
    ghost var tickets: seq<Ticket>
    ghost var held: multiset<Key>
    ghost var repr: set<AcquiredConn>

    /** What stands in the three queues. */
    ghost function Queued(): multiset<Key>
      reads this
    {
      multiset(keys) + multiset(KeysOf(toClose)) + multiset(KeysOf(toRelease))
    }

    /** All reservations that are out: held by a token, or queued. */
    ghost function Owed(): multiset<Key>
      reads this
    {
      held + Queued()
    }

    /** Whatever waits to be collected has been announced. */
    ghost predicate Announced()
      reads this
    {
      keys != [] || toClose != [] || toRelease != [] ==> modified
    }

    constructor ()
      ensures keys == [] && toClose == [] && toRelease == [] && !modified
      ensures tokens == [] && repr == {} && tickets == [] && held == multiset{}
    {
      keys, toClose, toRelease, modified := [], [], [], false;
      tokens, tickets, held, repr := [], [], multiset{}, {};
    }

    method Close(conn: Conn)
      modifies this`toClose, this`modified
      ensures toClose == old(toClose) + [conn] && modified && Queued() == old(Queued()) + multiset{conn.key}
    {
      KeysOfPush(toClose, conn);
      modified := true;
      toClose := toClose + [conn];
    }

    method Release(conn: Conn)
      modifies this`toRelease, this`modified
      ensures toRelease == old(toRelease) + [conn] && modified && Queued() == old(Queued()) + multiset{conn.key}
    {
      KeysOfPush(toRelease, conn);
      modified := true;
      toRelease := toRelease + [conn];
    }

    method ReleaseKey(key: Key)
      modifies this`keys, this`modified
      ensures keys == old(keys) + [key] && modified && Queued() == old(Queued()) + multiset{key}
    {
      modified := true;
      keys := keys + [key];
    }
  }

  /** A reservation in the hands of a user. It is given back once: by closing or
      releasing its connection, or by being dropped. */
  class AcquiredConn {
    const key: Key
    var pool: Option<Pool>
    ghost const number: nat

    constructor (key: Key, pool: Option<Pool>, ghost number: nat)
      ensures this.key == key && this.pool == pool && this.number == number
    {
      this.key := key;
      this.pool := pool;
      this.number := number;
    }

    ghost function Home(): set<object>
      reads this
    {
      if pool.Some? then {pool.value} else {}
    }

    /** As long as it refers to a pool, the token has its ticket and its
        reservation there. */
    ghost predicate Valid()
      reads this, Home()
    {
      pool.Some? ==> number < |pool.value.tickets| && key in pool.value.held
    }

    /** Takes the reference to the pool, if it is still there. */
    method Take() returns (p: Option<Pool>)
      requires Valid()
      modifies this, Home()
      ensures p == old(pool) && pool.None?
      ensures p.Some? ==>
                && p.value.held == old(p.value.held) - multiset{key}
                && p.value.tickets == old(p.value.tickets)[number := Ticket(key, false)]
                && p.value.tokens == old(p.value.tokens) && p.value.repr == old(p.value.repr)
                && p.value.keys == old(p.value.keys)
                && p.value.toClose == old(p.value.toClose) && p.value.toRelease == old(p.value.toRelease)
    {
      p := pool;
      pool := None;
      if p.Some? {
        ghost var home := p.value;
        home.held := home.held - multiset{key};
        home.tickets := home.tickets[number := Ticket(key, false)];
      }
    }

    method Close(conn: Conn)
      requires Valid() && conn.key == key
      modifies this, Home()
      ensures pool.None?
      ensures old(pool).Some? ==>
                var p := old(pool).value;
                && p.Owed() == old(p.Owed()) && p.modified && p.held == old(p.held) - multiset{key}
                && p.tokens == old(p.tokens) && p.repr == old(p.repr)
                && p.tickets == old(p.tickets)[number := Ticket(key, false)]
                && p.toClose == old(p.toClose) + [conn] && p.keys == old(p.keys) && p.toRelease == old(p.toRelease)
    {
      var p := Take();
      if p.Some? {
        Passed(old(p.value.held), p.value.Queued(), key);
        p.value.Close(conn);
      }
    }

    method Release(conn: Conn)
      requires Valid() && conn.key == key
      modifies this, Home()
      ensures pool.None?
      ensures old(pool).Some? ==>
                var p := old(pool).value;
                && p.Owed() == old(p.Owed()) && p.modified && p.held == old(p.held) - multiset{key}
                && p.tokens == old(p.tokens) && p.repr == old(p.repr)
                && p.tickets == old(p.tickets)[number := Ticket(key, false)]
                && p.toRelease == old(p.toRelease) + [conn] && p.keys == old(p.keys) && p.toClose == old(p.toClose)
    {
      var p := Take();
      if p.Some? {
        Passed(old(p.value.held), p.value.Queued(), key);
        p.value.Release(conn);
      }
    }

    method Drop()
      requires Valid()
      modifies this, Home()
      ensures pool.None?
      ensures old(pool).Some? ==>
                var p := old(pool).value;
                && p.Owed() == old(p.Owed()) && p.modified && p.held == old(p.held) - multiset{key}
                && p.tokens == old(p.tokens) && p.repr == old(p.repr)
                && p.tickets == old(p.tickets)[number := Ticket(key, false)]
                && p.keys == old(p.keys) + [key] && p.toClose == old(p.toClose) && p.toRelease == old(p.toRelease)
    {
      var p := Take();
      if p.Some? {
        Passed(old(p.value.held), p.value.Queued(), key);
        p.value.ReleaseKey(key);
      }
    }

    /** Any of the three. */
    method GiveBack(use: Use)
      requires Valid()
      modifies this, Home()
      ensures pool.None?
      ensures old(pool).Some? ==>
                var p := old(pool).value;
                && p.Owed() == old(p.Owed()) && p.modified && p.held == old(p.held) - multiset{key}
                && p.tokens == old(p.tokens) && p.repr == old(p.repr)
                && p.tickets == old(p.tickets)[number := Ticket(key, false)]
                && p.toRelease == old(p.toRelease) + if use.Releasing? then [Conn(key, use.ts)] else []
    {
      match use {
        case Closing(ts) => Close(Conn(key, ts));
        case Releasing(ts) => Release(Conn(key, ts));
        case Dropping => Drop();
      }
    }
  }

  /** What a user does with a token: `ts` is when its connection was opened. */
  datatype Use = Closing(ts: nat) | Releasing(ts: nat) | Dropping

  /** A reservation passes from a token to a queue. */
  lemma Passed(held: multiset<Key>, queued: multiset<Key>, k: Key)
    requires k in held
    ensures (held - multiset{k}) + (queued + multiset{k}) == held + queued
  {}

  /** What matters of a token: its host, and whether it refers to the pool. */
  datatype Ticket = Ticket(key: Key, open: bool)

  /** A token is as its ticket says, and knows no other pool. */
  ghost predicate Entered(t: AcquiredConn, ticket: Ticket, n: nat, home: Pool, repr: set<AcquiredConn>)
    reads t
  {
    && t in repr && t.number == n
    && ticket == Ticket(t.key, t.pool.Some?) && (t.pool.None? || t.pool.value == home)
  }

  ghost predicate AllEntered(tokens: seq<AcquiredConn>, tickets: seq<Ticket>, home: Pool, repr: set<AcquiredConn>)
    reads tokens
  {
    |tokens| == |tickets| && forall i | 0 <= i < |tokens| :: Entered(tokens[i], tickets[i], i, home, repr)
  }

  lemma EnterOne(tokens: seq<AcquiredConn>, tickets: seq<Ticket>, home: Pool, repr: set<AcquiredConn>, t: AcquiredConn, ticket: Ticket)
    requires AllEntered(tokens, tickets, home, repr) && Entered(t, ticket, |tokens|, home, repr + {t})
    ensures AllEntered(tokens + [t], tickets + [ticket], home, repr + {t})
  {
    forall i | 0 <= i < |tokens| + 1
      ensures Entered((tokens + [t])[i], (tickets + [ticket])[i], i, home, repr + {t})
    {
      if i < |tokens| {
        assert Entered(tokens[i], tickets[i], i, home, repr);
      }
    }
  }

  /** The hosts of the open ones among the first `n` tickets. */
  ghost function OpenAmong(ts: seq<Ticket>, n: nat): (m: multiset<Key>)
    requires n <= |ts|
  {
    if n == 0 then multiset{} else OpenAmong(ts, n - 1) + Opened(ts[n - 1])
  }

  ghost function Opened(t: Ticket): (m: multiset<Key>) {
    if t.open then multiset{t.key} else multiset{}
  }

  ghost function OpenKeys(ts: seq<Ticket>): (m: multiset<Key>) {
    OpenAmong(ts, |ts|)
  }

  lemma {:induction false} OpenAmongSame(ts: seq<Ticket>, ts': seq<Ticket>, n: nat)
    requires n <= |ts| && n <= |ts'| && forall i | 0 <= i < n :: ts[i] == ts'[i]
    ensures OpenAmong(ts, n) == OpenAmong(ts', n)
  {
    if n > 0 {
      OpenAmongSame(ts, ts', n - 1);
    }
  }

  lemma OpenKeysPush(ts: seq<Ticket>, t: Ticket)
    ensures OpenKeys(ts + [t]) == OpenKeys(ts) + Opened(t)
  {
    OpenAmongSame(ts, ts + [t], |ts|);
  }

  /** A token that lets go of the pool takes its reservation out. */
  lemma OpenKeysLess(ts: seq<Ticket>, i: nat)
    requires i < |ts| && ts[i].open
    ensures ts[i].key in OpenKeys(ts)
    ensures OpenKeys(ts[i := Ticket(ts[i].key, false)]) == OpenKeys(ts) - multiset{ts[i].key}
  {
    OpenAmongLess(ts, ts[i := Ticket(ts[i].key, false)], i, |ts|);
  }

  lemma {:induction false} OpenAmongLess(ts: seq<Ticket>, ts': seq<Ticket>, i: nat, n: nat)
    requires i < n <= |ts| == |ts'| && ts[i].open && !ts'[i].open
    requires forall j | 0 <= j < |ts| && j != i :: ts[j] == ts'[j]
    ensures ts[i].key in OpenAmong(ts, n)
    ensures OpenAmong(ts', n) == OpenAmong(ts, n) - multiset{ts[i].key}
    decreases n
  {
    var front, last := OpenAmong(ts, n - 1), Opened(ts[n - 1]);
    if i == n - 1 {
      OpenAmongSame(ts, ts', n - 1);
      MoreThenLess(front, ts[i].key);
    } else {
      OpenAmongLess(ts, ts', i, n - 1);
      assert ts'[n - 1] == ts[n - 1];
      LessThenMore(front, ts[i].key, last);
    }
  }

  lemma MoreThenLess(m: multiset<Key>, k: Key)
    ensures m + multiset{} == (m + multiset{k}) - multiset{k} && k in m + multiset{k}
  {}

  lemma LessThenMore(m: multiset<Key>, k: Key, more: multiset<Key>)
    requires k in m
    ensures (m - multiset{k}) + more == (m + more) - multiset{k} && k in m + more
  {}

  /** What a look at an idle connection's socket can show. */
  datatype Probe = Quiet | HasData | Dead

  datatype Acquire = Acquired(conn: Conn) | Available | NotAvailable

  class ClientConnector {
    const limit: nat
    const limitPerHost: nat
    const keepAlive: nat
    const lifetime: nat
    const pool: Pool
    const clock: Clock
    var acquired: nat
    var perHost: map<Key, nat>
    var available: map<Key, seq<Idle>>
    var toClose: seq<Conn>

    constructor (limit: nat, limitPerHost: nat, keepAlive: nat, lifetime: nat, clock: Clock)
      ensures Valid() && fresh(pool) && this.clock == clock && available == map[]
      ensures pool.tokens == [] && pool.repr == {} && pool.tickets == [] && pool.held == multiset{}
      ensures !pool.modified && pool.toRelease == [] && Count() == Counts(0, map[])
      ensures this.limit == limit && this.limitPerHost == limitPerHost
      ensures this.keepAlive == keepAlive && this.lifetime == lifetime
    {
      this.limit, this.limitPerHost, this.keepAlive, this.lifetime := limit, limitPerHost, keepAlive, lifetime;
      this.clock := clock;
      pool := new Pool();
      acquired, perHost, available, toClose := 0, map[], map[], [];
    }

    ghost function Count(): Counts
      reads this
    {
      Counts(acquired, perHost)
    }

    /** The counters agree with what is owed, and are within the limits. */
    ghost predicate Books(owed: multiset<Key>)
      reads this
    {
      Balanced(Count(), owed) && Limited(limit, limitPerHost, Count())
    }

    /** Queues and idle connections are in order. */
    ghost predicate Tidy()
      reads this, pool, clock
    {
      && pool.Announced()
      && IdleValid(available, clock.time)
      && (forall c | c in pool.toRelease :: c.ts <= clock.time)
    }

    /** What every operation keeps. */
    ghost predicate Valid()
      reads this, pool, clock
    {
      Books(pool.Owed()) && Tidy()
    }

    method Reserve(key: Key)
      modifies this`acquired, this`perHost
      ensures Count() == Reserved(old(Count()), key)
    {
      acquired := acquired + 1;
      var host := if key in perHost then perHost[key] else 0;
      perHost := perHost[key := host + 1];
    }

    method ReleaseKey(key: Key)
      requires acquired > 0
      modifies this`acquired, this`perHost
      ensures Count() == Released(old(Count()), key)
    {
      acquired := acquired - 1;
      if key !in perHost {
        return;
      }
      var host := perHost[key];
      if host > 1 {
        perHost := perHost[key := host - 1];
      } else {
        perHost := perHost - {key};
      }
    }

    /** Makes a reservation. */
    method Grant(key: Key, ghost owed: multiset<Key>)
      requires Books(owed) && !Refuses(limit, limitPerHost, Count(), key)
      modifies this`acquired, this`perHost
      ensures Books(owed + multiset{key}) && Count() == Reserved(old(Count()), key)
    {
      ReserveLimited(limit, limitPerHost, Count(), key);
      ReserveBalances(Count(), owed, key);
      Reserve(key);
    }

    /** Makes the token for a reservation. */
    method Mint(key: Key) returns (token: AcquiredConn)
      requires Books(pool.Owed() + multiset{key}) && Tidy()
      modifies pool`tokens, pool`tickets, pool`held, pool`repr
      ensures Valid() && pool.held == old(pool.held) + multiset{key}
      ensures fresh(token) && pool.repr == old(pool.repr) + {token} && token.key == key && token.pool == Some(pool)
      ensures pool.tokens == old(pool.tokens) + [token] && pool.tickets == old(pool.tickets) + [Ticket(key, true)]
      ensures token.number == |old(pool.tokens)|
    {
      token := new AcquiredConn(key, Some(pool), |pool.tokens|);
      pool.tokens, pool.tickets := pool.tokens + [token], pool.tickets + [Ticket(key, true)];
      pool.held, pool.repr := pool.held + multiset{key}, pool.repr + {token};
      OneMoreHeld(old(pool.held), pool.Queued(), key);
    }

    /** An idle connection of the host, if a usable one is left. Unusable ones
        met on the way are discarded. */
    method TakeAvailable(key: Key, probes: seq<Probe>) returns (found: Option<Conn>)
      requires IdleValid(available, clock.time)
      modifies this`available, this`toClose, clock
      ensures IdleValid(available, clock.time) && clock.time >= old(clock.time)
      ensures old(clock.ticks) == [] ==> clock.time == old(clock.time) && clock.ticks == []
      ensures available.Keys == old(available).Keys
      ensures forall k | k in available && k != key :: available[k] == old(available)[k]
      ensures found.Some? ==>
                && found.value.key == key && key in old(available)
                && UsedFrom(old(available)[key], available[key], found.value, clock.time)
      ensures found.None? ==> key !in available || available[key] == []
      ensures old(toClose) <= toClose && (key !in old(available) ==> toClose == old(toClose))
      ensures key in old(available) ==>
                && Picked(available[key], found, toClose[|old(toClose)|..])
                   == PickFrom(old(available)[key], clock.time, keepAlive, lifetime, probes)
    {
      found := None;
      if key in available {
        var now := clock.Now();
        var q, closed;
        IdleLater(available, old(clock.time), clock.time);
        q, found, closed := TakeIdle(available[key], now, keepAlive, lifetime, probes);
        PickedIsUsable(available[key], now, keepAlive, lifetime, probes);
        FrontIsValid(key, available[key], q, clock.time);
        assert (toClose + closed)[|toClose|..] == closed;
        toClose := toClose + closed;
        available := available[key := q];
      }
    }

    /** The connection was the last usable one: everything behind it is gone. */
    ghost predicate UsedFrom(before: seq<Idle>, left: seq<Idle>, conn: Conn, now: nat) {
      && left < before && before[|left|].conn == conn
      && !Overdue(now, keepAlive, before[|left|]) && !TooOld(now, lifetime, before[|left|])
    }

    /** The test of the limits. */
    method Full(key: Key) returns (full: bool)
      ensures full == Refuses(limit, limitPerHost, Count(), key)
    {
      if limit > 0 {
        if acquired >= limit {
          return true;
        }
        if limitPerHost > 0 {
          if key in perHost && limitPerHost >= perHost[key] {
            return true;
          }
        }
      } else if limitPerHost > 0 {
        if key in perHost && limitPerHost >= perHost[key] {
          return true;
        }
      }
      return false;
    }

    /** Grants or refuses a reservation; with a grant comes an idle connection of
        the host if a usable one is left. The token is made by the caller. */
    method Acquire(key: Key, probes: seq<Probe>) returns (r: Acquire)
      requires Valid()
      modifies this, clock
      ensures Books(if r.NotAvailable? then pool.Owed() else pool.Owed() + multiset{key}) && Tidy()
      ensures clock.time >= old(clock.time)
      ensures old(clock.ticks) == [] ==> clock.time == old(clock.time) && clock.ticks == []
      ensures r.NotAvailable? <==> Refuses(limit, limitPerHost, old(Count()), key)
      ensures r.NotAvailable? ==> Count() == old(Count()) && available == old(available)
      ensures !r.NotAvailable? ==> Count() == Reserved(old(Count()), key)
      ensures available.Keys == old(available).Keys
      ensures forall k | k in available && k != key :: available[k] == old(available)[k]
      ensures r.Acquired? ==>
                && r.conn.key == key && key in old(available)
                && UsedFrom(old(available)[key], available[key], r.conn, clock.time)
      ensures r.Available? ==> key !in available || available[key] == []
      ensures !r.NotAvailable? && key in old(available) ==>
                && available[key] == PickFrom(old(available)[key], clock.time, keepAlive, lifetime, probes).left
                && (r.Acquired? <==> PickFrom(old(available)[key], clock.time, keepAlive, lifetime, probes).found.Some?)
      ensures old(toClose) <= toClose
    {
      var full := Full(key);
      if full {
        return NotAvailable;
      }
      Grant(key, pool.Owed());
      var found := TakeAvailable(key, probes);
      return if found.Some? then Acquired(found.value) else Available;
    }

    /** Gives back the reservations of the given hosts. */
    method ReleaseAll(keys: seq<Key>, ghost rest: multiset<Key>)
      requires Books(rest + multiset(keys))
      modifies this`acquired, this`perHost
      ensures Books(rest)
    {
      var i := 0;
      assert keys[0..] == keys;
      while i < |keys|
        invariant i <= |keys|
        invariant Books(rest + multiset(keys[i..]))
      {
        OneLess(keys, i, rest);
        ReleaseBalances(Count(), rest + multiset(keys[i..]), keys[i]);
        ReleaseLimited(limit, limitPerHost, Count(), keys[i]);
        ReleaseKey(keys[i]);
        i := i + 1;
      }
      assert keys[i..] == [];
    }

    /** Puts a returned connection that is young enough among the idle ones. */
    method ReturnOne(conn: Conn, now: nat) returns (ghost at: nat)
      requires IdleValid(available, clock.time) && conn.ts <= now <= clock.time
      modifies this`available, clock
      ensures available == if now - conn.ts < lifetime then Pushed(old(available), Idle(at, conn)) else old(available)
      ensures IdleValid(available, clock.time) && clock.time >= at >= old(clock.time)
      ensures old(clock.ticks) == [] ==> clock.time == old(clock.time) && clock.ticks == []
    {
      at := clock.time;
      if now - conn.ts < lifetime {
        var t := clock.Now();
        IdleLater(available, old(clock.time), clock.time);
        PushKeepsIdle(available, Idle(t, conn), clock.time);
        available := Pushed(available, Idle(t, conn));
        at := t;
      }
    }

    /** Puts returned connections that are young enough among the idle ones. */
    method ReturnAll(conns: seq<Conn>, now: nat) returns (ghost times: seq<nat>)
      requires IdleValid(available, clock.time) && now <= clock.time
      requires forall c | c in conns :: c.ts <= now
      modifies this`available, clock
      ensures |times| == |conns| && available == Returned(old(available), conns, times, now, lifetime)
      ensures IdleValid(available, clock.time) && clock.time >= old(clock.time)
      ensures forall i | 0 <= i < |times| :: old(clock.time) <= times[i] <= clock.time
      ensures old(clock.ticks) == [] ==> clock.time == old(clock.time) && clock.ticks == []
    {
      times := [];
      var i := 0;
      assert conns[..0] == [];
      while i < |conns|
        invariant i <= |conns| && |times| == i
        invariant available == Returned(old(available), conns[..i], times, now, lifetime)
        invariant IdleValid(available, clock.time) && clock.time >= old(clock.time)
        invariant forall j | 0 <= j < |times| :: old(clock.time) <= times[j] <= clock.time
        invariant old(clock.ticks) == [] ==> clock.time == old(clock.time) && clock.ticks == []
      {
        assert conns[i] in conns;
        ghost var at := ReturnOne(conns[i], now);
        ReturnedMore(old(available), conns, i, times, at, now, lifetime);
        times := times + [at];
        i := i + 1;
      }
      assert conns[..i] == conns;
    }

    /** Discards the stale front of every queue. */
    method ExpireAll(now: nat)
      requires IdleValid(available, clock.time)
      modifies this`available, this`toClose
      ensures available.Keys == old(available).Keys
      ensures forall k | k in available :: available[k] == Expired(now, keepAlive, lifetime, old(available)[k])
      ensures IdleValid(available, clock.time)
      ensures old(toClose) <= toClose
    {
      var todo := available.Keys;
      while todo != {}
        invariant todo <= available.Keys == old(available).Keys
        invariant forall k | k in available ::
          available[k] == if k in todo then old(available)[k] else Expired(now, keepAlive, lifetime, old(available)[k])
        invariant old(toClose) <= toClose
        decreases todo
      {
        var k :| k in todo;
        var q, closed := ExpireFront(available[k], now, keepAlive, lifetime);
        available := available[k := q];
        toClose := toClose + closed;
        todo := todo - {k};
      }
      ExpiredAllValid(old(available), available, now, keepAlive, lifetime, clock.time);
    }

    /** Empties the three queues: every reservation in them is given back, and
        connections to be closed are kept for that. */
    method TakeBack(ghost held: multiset<Key>) returns (released: seq<Conn>)
      requires Books(held + pool.Queued())
      modifies this`acquired, this`perHost, this`toClose, pool`keys, pool`toClose, pool`toRelease
      ensures Books(held)
      ensures pool.keys == [] && pool.toClose == [] && pool.toRelease == []
      ensures released == old(pool.toRelease) && toClose == old(toClose) + old(pool.toClose)
    {
      ghost var closeKeys, releaseKeys := multiset(KeysOf(pool.toClose)), multiset(KeysOf(pool.toRelease));
      var keys, closed := pool.keys, pool.toClose;
      released := pool.toRelease;
      Reorder(held, multiset(keys), closeKeys, releaseKeys);
      pool.keys := [];
      ReleaseAll(keys, held + releaseKeys + closeKeys);
      pool.toClose := [];
      ReleaseAll(KeysOf(closed), held + releaseKeys);
      toClose := toClose + closed;
      pool.toRelease := [];
      ReleaseAll(KeysOf(released), held);
    }

    /** Takes in everything that has been given back, and discards idle
        connections that are stale. */
    method Collect() returns (ghost now: nat, ghost times: seq<nat>)
      requires Valid()
      modifies this, pool`keys, pool`toClose, pool`toRelease, pool`modified, clock
      ensures Valid() && clock.time >= now >= old(clock.time)
      ensures old(clock.ticks) == [] ==> clock.time == old(clock.time) && clock.ticks == []
      ensures pool.keys == [] && pool.toClose == [] && pool.toRelease == [] && !pool.modified
      ensures |times| == |old(pool.toRelease)| && forall i | 0 <= i < |times| :: now <= times[i] <= clock.time
      ensures RefilledFrom(Returned(old(available), old(pool.toRelease), times, now, lifetime), now)
      ensures old(toClose) + old(pool.toClose) <= toClose
    {
      var t := clock.Now();
      now := t;
      IdleLater(available, old(clock.time), clock.time);
      var released := TakeModified(pool.held);
      times := Refill(released, t);
      pool.modified := false;
    }

    /** The queues are only looked at when something has been announced. */
    method TakeModified(ghost held: multiset<Key>) returns (released: seq<Conn>)
      requires Books(held + pool.Queued()) && pool.Announced()
      modifies this`acquired, this`perHost, this`toClose, pool`keys, pool`toClose, pool`toRelease
      ensures Books(held + pool.Queued()) && pool.keys == [] && pool.toClose == [] && pool.toRelease == []
      ensures released == old(pool.toRelease) && toClose == old(toClose) + old(pool.toClose)
    {
      if pool.modified {
        released := TakeBack(held);
        assert held + pool.Queued() == held;
      } else {
        released := [];
      }
    }

    /** Idle connections after a collection at `now`: stale fronts are gone, and
        with them everything idle for longer than the keep-alive time. */
    ghost predicate RefilledFrom(returned: map<Key, seq<Idle>>, now: nat)
      reads this
    {
      && available.Keys == returned.Keys
      && (forall k | k in available :: available[k] == Expired(now, keepAlive, lifetime, returned[k]))
      && (forall k | k in available :: NothingOverdue(now, keepAlive, available[k]))
    }

    /** The idle connections: returned ones come in, stale ones go. */
    method Refill(released: seq<Conn>, now: nat) returns (ghost times: seq<nat>)
      requires IdleValid(available, clock.time) && now <= clock.time
      requires forall c | c in released :: c.ts <= now
      modifies this`available, this`toClose, clock
      ensures IdleValid(available, clock.time) && clock.time >= old(clock.time)
      ensures |times| == |released| && forall i | 0 <= i < |times| :: old(clock.time) <= times[i] <= clock.time
      ensures old(clock.ticks) == [] ==> clock.time == old(clock.time) && clock.ticks == []
      ensures RefilledFrom(Returned(old(available), released, times, now, lifetime), now)
      ensures old(toClose) <= toClose
    {
      times := ReturnAll(released, now);
      ghost var returned := available;
      ExpireAll(now);
      forall k | k in available ensures NothingOverdue(now, keepAlive, available[k]) {
        assert QueueValid(k, returned[k], clock.time);
        NothingOverdueLeft(now, keepAlive, lifetime, returned[k]);
      }
    }
  }

  // ---- Requests for connections ----

  datatype Protocol = Http | Https | Ws | Wss {
    predicate IsHttp() { Http? || Https? }
    predicate IsSecure() { Https? || Wss? }
    function Port(): nat { if Http? || Ws? then 80 else 443 }
  }

  function ProtocolOf(scheme: string): (p: Option<Protocol>) {
    if scheme == "http" then Some(Http)
    else if scheme == "https" then Some(Https)
    else if scheme == "ws" then Some(Ws)
    else if scheme == "wss" then Some(Wss)
    else None
  }

  datatype Uri = Uri(scheme: Option<string>, host: Option<string>, port: Option<nat>) {
    /** A host and a supported scheme are required. */
    predicate Usable() {
      host.Some? && scheme.Some? && ProtocolOf(scheme.value).Some?
    }

    function Proto(): Protocol
      requires Usable()
    {
      ProtocolOf(scheme.value).value
    }

    function HostKey(): Key
      requires Usable()
    {
      Key(host.value, if port.Some? then port.value else Proto().Port(), Proto().IsSecure())
    }
  }

  /** How a request for a connection is answered: with an idle connection, with
      leave to open one (for a protocol outside the pool, with a token that has
      no reservation), by waiting, or with an error. */
  datatype Answer =
    | Reuse(conn: Conn, token: AcquiredConn)
    | Open(token: AcquiredConn)
    | Wait
    | InvalidUrl
    | SslIsNotSupported

  /** A reservation of the host and its token, or a wait. */
  method Obtain(c: ClientConnector, key: Key, probes: seq<Probe>) returns (r: Answer)
    requires c.Valid()
    modifies c, c.pool`tokens, c.pool`tickets, c.pool`held, c.pool`repr, c.clock
    ensures c.Valid() && c.clock.time >= old(c.clock.time) && (r.Reuse? || r.Open? || r.Wait?)
    ensures old(c.clock.ticks) == [] ==> c.clock.time == old(c.clock.time) && c.clock.ticks == []
    ensures r == Wait <==> Refuses(c.limit, c.limitPerHost, old(c.Count()), key)
    ensures r == Wait ==> c.Count() == old(c.Count())
    ensures r == Wait ==>
              && c.pool.tokens == old(c.pool.tokens) && c.pool.tickets == old(c.pool.tickets)
              && c.pool.repr == old(c.pool.repr) && c.pool.held == old(c.pool.held)
    ensures r == Wait ==> c.available == old(c.available)
    ensures r != Wait ==>
              && fresh(r.token) && r.token.key == key && r.token.pool == Some(c.pool)
              && c.pool.tokens == old(c.pool.tokens) + [r.token] && c.Count() == Reserved(old(c.Count()), key)
              && c.pool.tickets == old(c.pool.tickets) + [Ticket(key, true)] && r.token.number == |old(c.pool.tokens)|
              && c.pool.repr == old(c.pool.repr) + {r.token} && c.pool.held == old(c.pool.held) + multiset{key}
    ensures r.Reuse? ==> r.conn.key == key
    ensures c.available.Keys == old(c.available).Keys
  {
    var a := c.Acquire(key, probes);
    if a.NotAvailable? {
      return Wait;
    }
    var token := c.Mint(key);
    r := if a.Acquired? then Reuse(a.conn, token) else Open(token);
  }

  /** The handler of a connect request; `tls` says whether secure protocols are
      supported. */
  method Connect(c: ClientConnector, uri: Uri, tls: bool, paused: bool, probes: seq<Probe>) returns (r: Answer)
    requires c.Valid()
    modifies c, c.pool, c.clock
    ensures c.Valid() && c.clock.time >= old(c.clock.time)
    ensures old(c.clock.ticks) == [] ==> c.clock.time == old(c.clock.time) && c.clock.ticks == []
    ensures r == InvalidUrl <==> !uri.Usable()
    ensures r == SslIsNotSupported <==> uri.Usable() && uri.Proto().IsSecure() && !tls
    ensures uri.Usable() && r != SslIsNotSupported ==>
              && (paused ==> r == Wait)
              && (!paused && !uri.Proto().IsHttp() ==> r.Open? && r.token.pool.None?)
              && (!paused && r == Wait ==> Refuses(c.limit, c.limitPerHost, c.Count(), uri.HostKey()))
              && (r.Reuse? ==> r.conn.key == uri.HostKey())
              && (r.Reuse? || r.Open? ==> fresh(r.token) && r.token.key == uri.HostKey())
    ensures (r.Reuse? || r.Open?) && uri.Proto().IsHttp() ==>
              && r.token.pool == Some(c.pool) && r.token.number == |old(c.pool.tokens)|
              && c.pool.tokens == old(c.pool.tokens) + [r.token]
              && c.pool.tickets == old(c.pool.tickets) + [Ticket(r.token.key, true)]
              && c.pool.repr == old(c.pool.repr) + {r.token} && c.pool.held == old(c.pool.held) + multiset{r.token.key}
    ensures !((r.Reuse? || r.Open?) && uri.Proto().IsHttp()) ==>
              && c.pool.tokens == old(c.pool.tokens) && c.pool.tickets == old(c.pool.tickets)
              && c.pool.repr == old(c.pool.repr) && c.pool.held == old(c.pool.held)
    ensures !old(c.pool.modified) ==> !c.pool.modified && c.available.Keys == old(c.available).Keys
    ensures !old(c.pool.modified) ==> c.pool.toRelease == old(c.pool.toRelease)
    ensures !old(c.pool.modified) && uri.Usable() && uri.Proto().IsHttp() && !paused && r != SslIsNotSupported ==>
              && (r == Wait <==> Refuses(c.limit, c.limitPerHost, old(c.Count()), uri.HostKey()))
              && c.Count() == if r == Wait then old(c.Count()) else Reserved(old(c.Count()), uri.HostKey())
  {
    if c.pool.modified {
      var _, _ := c.Collect();
    }
    if !uri.Usable() {
      return InvalidUrl;
    }
    if uri.Proto().IsSecure() && !tls {
      return SslIsNotSupported;
    }
    if paused {
      return Wait;
    }
    if uri.Proto().IsHttp() {
      r := Obtain(c, uri.HostKey(), probes);
    } else {
      var token := new AcquiredConn(uri.HostKey(), None, 0);
      r := Open(token);
    }
  }

  /** A token for a waiter, if there is one. */
  method TryObtain(c: ClientConnector, key: Key, probes: seq<Probe>) returns (token: Option<AcquiredConn>)
    requires c.Valid()
    modifies c, c.pool, c.clock
    ensures c.Valid() && c.clock.time >= old(c.clock.time) && fresh(c.pool.repr - old(c.pool.repr))
    ensures token.None? ==>
              && Refuses(c.limit, c.limitPerHost, c.Count(), key)
              && c.pool.tokens == old(c.pool.tokens) && c.pool.tickets == old(c.pool.tickets)
              && c.pool.repr == old(c.pool.repr) && c.pool.held == old(c.pool.held)
    ensures token.Some? ==>
              && fresh(token.value) && token.value.key == key && token.value.pool == Some(c.pool)
              && token.value.number == |old(c.pool.tokens)| && c.pool.tokens == old(c.pool.tokens) + [token.value]
              && c.pool.tickets == old(c.pool.tickets) + [Ticket(key, true)] && c.pool.repr == old(c.pool.repr) + {token.value}
              && c.pool.held == old(c.pool.held) + multiset{key}
  {
    var r := Obtain(c, key, probes);
    token := if r == Wait then None else Some(r.token);
  }

  /** `tokens` are all that the pool has made, as their tickets say. */
  ghost predicate Whole(c: ClientConnector, tokens: seq<AcquiredConn>)
    reads c.pool, tokens
  {
    && c.pool.tokens == tokens && AllEntered(tokens, c.pool.tickets, c.pool, c.pool.repr)
    && c.pool.held == OpenKeys(c.pool.tickets)
  }

  /** A token that has just been made joins the others. */
  method Enlist(c: ClientConnector, tokens: seq<AcquiredConn>, token: Option<AcquiredConn>,
                ghost tickets: seq<Ticket>, ghost repr: set<AcquiredConn>)
    returns (more: seq<AcquiredConn>)
    requires AllEntered(tokens, tickets, c.pool, repr)
    requires token.None? ==>
               && c.pool.tokens == tokens && c.pool.tickets == tickets && c.pool.repr == repr
               && c.pool.held == OpenKeys(tickets)
    requires token.Some? ==>
               && token.value.pool == Some(c.pool) && token.value.number == |tokens|
               && c.pool.tokens == tokens + [token.value] && c.pool.repr == repr + {token.value}
               && c.pool.tickets == tickets + [Ticket(token.value.key, true)]
               && c.pool.held == OpenKeys(tickets) + multiset{token.value.key}
    ensures Whole(c, more) && tokens <= more
  {
    more := tokens;
    if token.Some? {
      EnterOne(tokens, tickets, c.pool, repr, token.value, Ticket(token.value.key, true));
      OpenKeysPush(tickets, Ticket(token.value.key, true));
      more := tokens + [token.value];
    }
  }

  /** Serving one waiter; `tokens` are all that the pool has made. */
  method ServeOne(c: ClientConnector, key: Key, probes: seq<Probe>, tokens: seq<AcquiredConn>)
    returns (more: seq<AcquiredConn>)
    requires c.Valid() && Whole(c, tokens)
    modifies c, c.pool, c.clock
    ensures c.Valid() && Whole(c, more)
    ensures fresh(c.pool.repr - old(c.pool.repr)) && tokens <= more
  {
    ghost var tickets, repr := c.pool.tickets, c.pool.repr;
    var token := TryObtain(c, key, probes);
    assert AllEntered(tokens, tickets, c.pool, repr);
    more := Enlist(c, tokens, token, tickets, repr);
  }

  /** The first waiters have been served, with `tokens`, and the next one has been
      refused or not. */
  ghost predicate Underway(c: ClientConnector, key: Key, canceled: seq<bool>, first: nat, tokens: seq<AcquiredConn>,
                           had: seq<AcquiredConn>, refused: bool)
    reads c, c.pool, c.clock
  {
    && c.Valid() && first <= |canceled| && |tokens| == Waiting(canceled, first) && c.pool.tokens == had + tokens
    && (refused ==> first < |canceled| && !canceled[first] && Refuses(c.limit, c.limitPerHost, c.Count(), key))
  }

  /** The next waiter. */
  method ServeNext(c: ClientConnector, key: Key, canceled: seq<bool>, probes: seq<Probe>, first: nat,
                   tokens: seq<AcquiredConn>, ghost had: seq<AcquiredConn>)
    returns (more: seq<AcquiredConn>, refused: bool)
    requires Underway(c, key, canceled, first, tokens, had, false) && first < |canceled|
    modifies c, c.pool, c.clock
    ensures Underway(c, key, canceled, if refused then first else first + 1, more, had, refused)
  {
    more, refused := tokens, false;
    if !canceled[first] {
      var token := TryObtain(c, key, probes);
      if token.Some? {
        Assoc(had, tokens, [token.value]);
        more := tokens + [token.value];
      } else {
        refused := true;
      }
    }
  }

  /** Serving the waiters of a host, in order, until a reservation is refused;
      `canceled` says of each whether it has gone. `first` is the first that is
      not served, and stays in front; `tokens` go to those that are. */
  method Serve(c: ClientConnector, key: Key, canceled: seq<bool>, probes: seq<Probe>)
    returns (first: nat, tokens: seq<AcquiredConn>)
    requires c.Valid()
    modifies c, c.pool, c.clock
    ensures c.Valid()
    ensures first <= |canceled| && |tokens| == Waiting(canceled, first)
    ensures c.pool.tokens == old(c.pool.tokens) + tokens
    ensures first < |canceled| ==> !canceled[first] && Refuses(c.limit, c.limitPerHost, c.Count(), key)
  {
    first, tokens := 0, [];
    var refused := false;
    while first < |canceled| && !refused
      invariant Underway(c, key, canceled, first, tokens, old(c.pool.tokens), refused)
      decreases |canceled| - first, !refused
    {
      tokens, refused := ServeNext(c, key, canceled, probes, first, tokens, old(c.pool.tokens));
      first := if refused then first else first + 1;
    }
  }

  lemma OneMoreHeld(held: multiset<Key>, queued: multiset<Key>, key: Key)
    ensures (held + multiset{key}) + queued == (held + queued) + multiset{key}
  {}

  lemma Reorder(held: multiset<Key>, keys: multiset<Key>, close: multiset<Key>, release: multiset<Key>)
    ensures held + (keys + close + release) == (held + release + close) + keys
  {}

  /** How many of the first `n` have not gone. */
  function Waiting(canceled: seq<bool>, n: nat): (count: nat)
    requires n <= |canceled|
  {
    if n == 0 then 0 else Waiting(canceled, n - 1) + if canceled[n - 1] then 0 else 1
  }

  /** A user does something with a token, be it for the first time or not. */
  method UseToken(c: ClientConnector, t: AcquiredConn, use: Use)
    requires c.Valid() && t.Valid() && (t.pool.Some? ==> t.pool.value == c.pool)
    requires use.Releasing? ==> use.ts <= c.clock.time
    modifies t, c.pool
    ensures c.Valid() && t.pool.None?
    ensures c.pool.Owed() == old(c.pool.Owed()) && c.pool.tokens == old(c.pool.tokens) && c.pool.repr == old(c.pool.repr)
    ensures old(t.pool).None? ==> unchanged(c.pool)
    ensures old(t.pool).Some? ==>
              && c.pool.tickets == old(c.pool.tickets)[t.number := Ticket(t.key, false)]
              && c.pool.held == old(c.pool.held) - multiset{t.key}
    ensures old(t.pool).Some? && use.Releasing? ==>
              c.pool.toRelease == old(c.pool.toRelease) + [Conn(t.key, use.ts)] && c.pool.modified
  {
    t.GiveBack(use);
  }

  datatype Event =
    | Connecting(uri: Uri, tls: bool, paused: bool, probes: seq<Probe>)
    | Serving(key: Key, gone: bool, probes: seq<Probe>)
    | Using(i: nat, use: Use)
    | Collecting
    | Passing(d: nat)

  /** Any run: whatever happens, in whatever order, and whichever of the tokens
      that were ever handed out are used, again and again, the counters agree with
      the tokens that still refer to the pool and the entries of its queues, the
      limits hold, and what waits to be collected has been announced. */
  method Run(c: ClientConnector, events: seq<Event>, handed: seq<AcquiredConn>)
    returns (tokens: seq<AcquiredConn>)
    requires c.Valid() && Whole(c, handed)
    modifies c, c.pool, c.clock, c.pool.repr
    ensures c.Valid() && Whole(c, tokens) && handed <= tokens
    ensures c.acquired == Sum(c.perHost)
    ensures forall k :: c.Count().Of(k) == OpenKeys(c.pool.tickets)[k] + c.pool.Queued()[k]
    ensures c.limit > 0 ==> c.acquired <= c.limit
    ensures c.limitPerHost > 0 ==> forall k :: c.Count().Of(k) <= c.limitPerHost
    ensures c.pool.keys != [] || c.pool.toClose != [] || c.pool.toRelease != [] ==> c.pool.modified
  {
    tokens := handed;
    var i := 0;
    while i < |events|
      invariant c.Valid() && Whole(c, tokens) && i <= |events|
      invariant handed <= tokens && fresh(c.pool.repr - old(c.pool.repr))
    {
      tokens := Happen(c, events[i], tokens);
      i := i + 1;
    }
    SumIsTotal(c.perHost, c.pool.Owed());
  }

  method PassTime(c: ClientConnector, d: nat)
    requires c.Valid()
    modifies c.clock`time
    ensures c.Valid() && c.clock.time == old(c.clock.time) + d
  {
    IdleLater(c.available, c.clock.time, c.clock.time + d);
    c.clock.Pass(d);
  }

  /** One event. */
  method Happen(c: ClientConnector, event: Event, tokens: seq<AcquiredConn>) returns (more: seq<AcquiredConn>)
    requires c.Valid() && Whole(c, tokens)
    modifies c, c.pool, c.clock, c.pool.repr
    ensures c.Valid() && Whole(c, more)
    ensures tokens <= more && fresh(c.pool.repr - old(c.pool.repr))
  {
    more := tokens;
    match event {
      case Connecting(uri, tls, paused, probes) => more := Connected(c, uri, tls, paused, probes, tokens);
      case Serving(key, gone, probes) =>
        if !gone {
          more := ServeOne(c, key, probes, tokens);
        }
      case Using(k, use) =>
        if k < |tokens| && (use.Releasing? ==> use.ts <= c.clock.time) {
          assert Entered(tokens[k], c.pool.tickets[k], k, c.pool, c.pool.repr);
          Used(c, tokens, k, use);
        }
      case Collecting =>
        var _, _ := c.Collect();
      case Passing(d) => PassTime(c, d);
    }
  }

  /** The token of the pool that a connect request brings, if any. */
  method TryConnect(c: ClientConnector, uri: Uri, tls: bool, paused: bool, probes: seq<Probe>)
    returns (token: Option<AcquiredConn>)
    requires c.Valid()
    modifies c, c.pool, c.clock
    ensures c.Valid() && fresh(c.pool.repr - old(c.pool.repr))
    ensures token.None? ==>
              && c.pool.tokens == old(c.pool.tokens) && c.pool.tickets == old(c.pool.tickets)
              && c.pool.repr == old(c.pool.repr) && c.pool.held == old(c.pool.held)
    ensures token.Some? ==>
              && fresh(token.value) && token.value.pool == Some(c.pool)
              && token.value.number == |old(c.pool.tokens)| && c.pool.tokens == old(c.pool.tokens) + [token.value]
              && c.pool.tickets == old(c.pool.tickets) + [Ticket(token.value.key, true)]
              && c.pool.repr == old(c.pool.repr) + {token.value}
              && c.pool.held == old(c.pool.held) + multiset{token.value.key}
  {
    var r := Connect(c, uri, tls, paused, probes);
    token := if (r.Reuse? || r.Open?) && uri.Proto().IsHttp() then Some(r.token) else None;
  }

  method Connected(c: ClientConnector, uri: Uri, tls: bool, paused: bool, probes: seq<Probe>, tokens: seq<AcquiredConn>)
    returns (more: seq<AcquiredConn>)
    requires c.Valid() && Whole(c, tokens)
    modifies c, c.pool, c.clock
    ensures c.Valid() && Whole(c, more)
    ensures fresh(c.pool.repr - old(c.pool.repr)) && tokens <= more
  {
    ghost var tickets, repr := c.pool.tickets, c.pool.repr;
    var token := TryConnect(c, uri, tls, paused, probes);
    assert AllEntered(tokens, tickets, c.pool, repr);
    more := Enlist(c, tokens, token, tickets, repr);
  }

  method Used(c: ClientConnector, tokens: seq<AcquiredConn>, k: nat, use: Use)
    requires c.Valid() && Whole(c, tokens) && k < |tokens|
    requires use.Releasing? ==> use.ts <= c.clock.time
    modifies c.pool, tokens[k]
    ensures c.Valid() && Whole(c, tokens) && c.pool.repr == old(c.pool.repr)
  {
    ghost var tickets, repr := c.pool.tickets, c.pool.repr;
    assert Entered(tokens[k], tickets[k], k, c.pool, repr);
    if tickets[k].open {
      OpenKeysLess(tickets, k);
    }
    UseToken(c, tokens[k], use);
    forall i | 0 <= i < |tokens| ensures Entered(tokens[i], c.pool.tickets[i], i, c.pool, repr) {
      assert old(Entered(tokens[i], c.pool.tickets[i], i, c.pool, c.pool.repr));
    }
  }

  predicate NothingOverdue(now: nat, keepAlive: nat, q: seq<Idle>) {
    forall i | 0 <= i < |q| :: !Overdue(now, keepAlive, q[i])
  }

  lemma ExpiredIsValid(key: Key, q: seq<Idle>, now: nat, keepAlive: nat, lifetime: nat, time: nat)
    requires QueueValid(key, q, time)
    ensures QueueValid(key, Expired(now, keepAlive, lifetime, q), time)
  {}

  lemma ExpiredAllValid(av: map<Key, seq<Idle>>, av': map<Key, seq<Idle>>, now: nat, keepAlive: nat, lifetime: nat, time: nat)
    requires IdleValid(av, time) && av'.Keys == av.Keys
    requires forall k | k in av' :: av'[k] == Expired(now, keepAlive, lifetime, av[k])
    ensures IdleValid(av', time)
  {
    forall k | k in av' ensures QueueValid(k, av'[k], time) {
      ExpiredIsValid(k, av[k], now, keepAlive, lifetime, time);
    }
  }

  /** `q` is what is left of `idle` once the connections in `closed` have been
      popped off its front. */
  ghost predicate Popped(idle: seq<Idle>, closed: seq<Conn>, q: seq<Idle>) {
    && |closed| <= |idle| && q == idle[|closed|..]
    && forall i | 0 <= i < |closed| :: closed[i] == idle[i].conn
  }

  lemma PopOne(idle: seq<Idle>, closed: seq<Conn>, q: seq<Idle>)
    requires Popped(idle, closed, q) && q != []
    ensures Popped(idle, closed + [q[0].conn], q[1..])
  {}

  /** Pops stale connections off the front, stopping at the first fresh one. */
  method ExpireFront(idle: seq<Idle>, now: nat, keepAlive: nat, lifetime: nat) returns (q: seq<Idle>, closed: seq<Conn>)
    ensures q == Expired(now, keepAlive, lifetime, idle) && Popped(idle, closed, q)
  {
    q, closed := idle, [];
    assert idle[0..] == idle;
    while |q| > 0
      invariant Expired(now, keepAlive, lifetime, idle) == Expired(now, keepAlive, lifetime, q)
      invariant Popped(idle, closed, q)
      decreases |q|
    {
      if Stale(now, keepAlive, lifetime, q[0]) {
        PopOne(idle, closed, q);
        closed := closed + [q[0].conn];
        q := q[1..];
      } else {
        return;
      }
    }
  }

  /** Idle connections: kept under their own host, in the order of their return,
      which is not in the future. */
  ghost predicate IdleValid(av: map<Key, seq<Idle>>, time: nat) {
    forall k | k in av :: QueueValid(k, av[k], time)
  }

  ghost predicate QueueValid(key: Key, q: seq<Idle>, time: nat) {
    && Sorted(q)
    && forall i | 0 <= i < |q| :: q[i].conn.key == key && q[i].at <= time && q[i].conn.ts <= time
  }

  lemma IdleLater(av: map<Key, seq<Idle>>, time: nat, later: nat)
    requires IdleValid(av, time) && time <= later
    ensures IdleValid(av, later)
  {}

  lemma FrontIsValid(key: Key, q: seq<Idle>, front: seq<Idle>, time: nat)
    requires QueueValid(key, q, time) && front <= q
    ensures QueueValid(key, front, time)
  {}

  lemma ReturnedMore(av: map<Key, seq<Idle>>, conns: seq<Conn>, i: nat, times: seq<nat>, at: nat, now: nat, lifetime: nat)
    requires i < |conns| && |times| == i
    ensures var before := Returned(av, conns[..i], times, now, lifetime);
            Returned(av, conns[..i + 1], times + [at], now, lifetime)
            == (if now - conns[i].ts < lifetime then Pushed(before, Idle(at, conns[i])) else before)
  {
    assert conns[..i + 1][..i] == conns[..i] && (times + [at])[..i] == times;
  }

  lemma PushKeepsIdle(av: map<Key, seq<Idle>>, idle: Idle, time: nat)
    requires IdleValid(av, time) && idle.at == time && idle.conn.ts <= time
    ensures IdleValid(Pushed(av, idle), time)
  {}

  lemma OneLess(keys: seq<Key>, i: nat, rest: multiset<Key>)
    requires i < |keys|
    ensures keys[i] in rest + multiset(keys[i..])
    ensures rest + multiset(keys[i..]) - multiset{keys[i]} == rest + multiset(keys[i + 1..])
  {
    assert keys[i..] == [keys[i]] + keys[i + 1..];
  }

  /** What taking a connection leaves, finds, and sets aside for closing. */
  datatype Picked = Picked(left: seq<Idle>, found: Option<Conn>, closed: seq<Conn>)

  /** From the back: connections overdue or too old are closed; the others are
      looked at in turn, and the first that is quiet is the one. */
  function PickFrom(q: seq<Idle>, now: nat, keepAlive: nat, lifetime: nat, probes: seq<Probe>): (p: Picked)
    decreases |q|
  {
    if q == [] then Picked([], None, [])
    else
      var last, rest := q[|q| - 1], q[..|q| - 1];
      if Overdue(now, keepAlive, last) || TooOld(now, lifetime, last) then
        CloseFirst([last.conn], PickFrom(rest, now, keepAlive, lifetime, probes))
      else if probes == [] || probes[0] == Quiet then Picked(rest, Some(last.conn), [])
      else
        CloseFirst(if probes[0] == HasData then [last.conn] else [],
                   PickFrom(rest, now, keepAlive, lifetime, probes[1..]))
  }

  function CloseFirst(closed: seq<Conn>, p: Picked): Picked {
    p.(closed := closed + p.closed)
  }

  lemma CloseBoth(a: seq<Conn>, b: seq<Conn>, p: Picked)
    ensures CloseFirst(a, CloseFirst(b, p)) == CloseFirst(a + b, p)
  {
    assert a + (b + p.closed) == (a + b) + p.closed;
  }

  /** What is left is a front of the queue; what is found stood right behind it
      and may be used; and if nothing is found, nothing is left. */
  lemma {:induction false} PickedIsUsable(q: seq<Idle>, now: nat, keepAlive: nat, lifetime: nat, probes: seq<Probe>)
    ensures var p := PickFrom(q, now, keepAlive, lifetime, probes);
            && p.left <= q && (p.found.None? ==> p.left == [])
            && (p.found.Some? ==>
                  && p.left < q && q[|p.left|].conn == p.found.value
                  && !Overdue(now, keepAlive, q[|p.left|]) && !TooOld(now, lifetime, q[|p.left|]))
    decreases |q|
  {
    if q != [] {
      var last, rest := q[|q| - 1], q[..|q| - 1];
      if Overdue(now, keepAlive, last) || TooOld(now, lifetime, last) {
        PickedIsUsable(rest, now, keepAlive, lifetime, probes);
      } else if probes != [] {
        PickedIsUsable(rest, now, keepAlive, lifetime, probes[1..]);
      }
    }
  }

  /** Takes idle connections from the back of a queue until one is usable. */
  method TakeIdle(idle: seq<Idle>, now: nat, keepAlive: nat, lifetime: nat, probes: seq<Probe>)
    returns (q: seq<Idle>, found: Option<Conn>, closed: seq<Conn>)
    ensures Picked(q, found, closed) == PickFrom(idle, now, keepAlive, lifetime, probes)
  {
    q, closed := idle, [];
    var coming := probes;
    while |q| > 0
      invariant PickFrom(idle, now, keepAlive, lifetime, probes)
             == CloseFirst(closed, PickFrom(q, now, keepAlive, lifetime, coming))
      decreases |q|
    {
      var last := q[|q| - 1];
      q := q[..|q| - 1];
      if Overdue(now, keepAlive, last) || TooOld(now, lifetime, last) {
        CloseBoth(closed, [last.conn], PickFrom(q, now, keepAlive, lifetime, coming));
        closed := closed + [last.conn];
      } else {
        var probe := if |coming| > 0 then coming[0] else Quiet;
        if probe == Quiet {
          return q, Some(last.conn), closed;
        }
        coming := coming[1..];
        if probe == HasData {
          CloseBoth(closed, [last.conn], PickFrom(q, now, keepAlive, lifetime, coming));
          closed := closed + [last.conn];
        } else {
          CloseBoth(closed, [], PickFrom(q, now, keepAlive, lifetime, coming));
          assert closed + [] == closed;
        }
      }
    }
    found := None;
  }

  // ---- Two runs ----

  const EXAMPLE_URI: Uri := Uri(Some("http"), Some("host"), None)
  const EXAMPLE_KEY: Key := Key("host", 80, false)

  /** With two connections allowed per host, the second is refused. */
  method SecondIsRefused() returns (c: ClientConnector, first: Answer, second: Answer)
    ensures c.Valid() && c.limit == 0 && c.limitPerHost == 2 && first != Wait && second == Wait
    ensures c.Count().Of(EXAMPLE_KEY) == 1 && !ShouldRefuse(c.limit, c.limitPerHost, c.Count(), EXAMPLE_KEY)
  {
    var clock := new Clock([]);
    c := new ClientConnector(0, 2, 15, 75, clock);
    first := Connect(c, EXAMPLE_URI, false, false, []);
    second := Connect(c, EXAMPLE_URI, false, false, []);
  }

  /** The idle connections of a host. */
  function QueueOf(av: map<Key, seq<Idle>>, key: Key): (q: seq<Idle>) {
    if key in av then av[key] else []
  }

  /** One connection is returned to its queue, whose front is fresh. */
  lemma ReturnedQueue(av: map<Key, seq<Idle>>, conn: Conn, now: nat, keepAlive: nat, lifetime: nat)
    requires now - conn.ts < lifetime
    requires var q := QueueOf(av, conn.key) + [Idle(now, conn)]; !Stale(now, keepAlive, lifetime, q[0])
    ensures var q := QueueOf(av, conn.key) + [Idle(now, conn)];
            QueueOf(Returned(av, [conn], [now], now, lifetime), conn.key) == q && Expired(now, keepAlive, lifetime, q) == q
  {
    assert [conn][..0] == [] && [now][..0] == [];
  }

  /** A released connection is collected, while the clock stands still and the
      front of its queue is fresh. */
  method ReleaseAndCollect(c: ClientConnector, t: AcquiredConn, ts: nat)
    requires c.Valid() && t.Valid() && t.pool == Some(c.pool) && ts <= c.clock.time
    requires c.clock.ticks == [] && c.pool.toRelease == [] && c.clock.time - ts < c.lifetime
    requires var q := QueueOf(c.available, t.key) + [Idle(c.clock.time, Conn(t.key, ts))];
             !Stale(c.clock.time, c.keepAlive, c.lifetime, q[0])
    modifies c, c.pool, t, c.clock
    ensures c.Valid() && c.clock.time == old(c.clock.time) && c.clock.ticks == []
    ensures c.pool.toRelease == [] && !c.pool.modified
    ensures c.pool.held == old(c.pool.held) - multiset{t.key} && |c.pool.tickets| == |old(c.pool.tickets)|
    ensures QueueOf(c.available, t.key) == QueueOf(old(c.available), t.key) + [Idle(c.clock.time, Conn(t.key, ts))]
  {
    ghost var q := QueueOf(c.available, t.key) + [Idle(c.clock.time, Conn(t.key, ts))];
    ReturnedQueue(c.available, Conn(t.key, ts), c.clock.time, c.keepAlive, c.lifetime);
    UseToken(c, t, Releasing(ts));
    CollectOne(c, Conn(t.key, ts), q);
  }

  /** A collection while the clock stands still, as one host sees it. */
  method CollectAt(c: ClientConnector, ghost key: Key) returns (ghost times: seq<nat>, ghost back: map<Key, seq<Idle>>)
    requires c.Valid() && c.clock.ticks == []
    modifies c, c.pool`keys, c.pool`toClose, c.pool`toRelease, c.pool`modified, c.clock
    ensures c.Valid() && c.clock.time == old(c.clock.time) && c.clock.ticks == []
    ensures c.pool.toRelease == [] && !c.pool.modified
    ensures |times| == |old(c.pool.toRelease)| && forall i | 0 <= i < |times| :: times[i] == c.clock.time
    ensures back == Returned(old(c.available), old(c.pool.toRelease), times, c.clock.time, c.lifetime)
    ensures QueueOf(c.available, key) == Expired(c.clock.time, c.keepAlive, c.lifetime, QueueOf(back, key))
  {
    ghost var now;
    now, times := c.Collect();
    back := Returned(old(c.available), old(c.pool.toRelease), times, now, c.lifetime);
  }

  method CollectOne(c: ClientConnector, conn: Conn, ghost q: seq<Idle>)
    requires c.Valid() && c.clock.ticks == [] && c.pool.toRelease == [conn]
    requires QueueOf(Returned(c.available, [conn], [c.clock.time], c.clock.time, c.lifetime), conn.key) == q
    requires Expired(c.clock.time, c.keepAlive, c.lifetime, q) == q
    modifies c, c.pool`keys, c.pool`toClose, c.pool`toRelease, c.pool`modified, c.clock
    ensures c.Valid() && c.clock.time == old(c.clock.time) && c.clock.ticks == []
    ensures c.pool.toRelease == [] && !c.pool.modified && QueueOf(c.available, conn.key) == q
  {
    ghost var times, back := CollectAt(c, conn.key);
    assert times == [c.clock.time];
  }

  lemma FreshFrontStays(now: nat, keepAlive: nat, lifetime: nat, q: seq<Idle>)
    requires q != [] && !Stale(now, keepAlive, lifetime, q[0])
    ensures Expired(now, keepAlive, lifetime, q) == q
  {}

  method OneToken() returns (c: ClientConnector, t: AcquiredConn)
    ensures fresh(c) && fresh(c.pool) && fresh(c.clock) && fresh(t)
    ensures c.Valid() && c.lifetime == 25 && c.keepAlive == 15 && c.limit == 0 && c.limitPerHost == 0
    ensures c.clock.time == 0 && c.clock.ticks == [] && c.pool.toRelease == [] && c.available == map[]
    ensures !c.pool.modified && |c.pool.tickets| == |c.pool.tokens| == 1 && c.pool.held == multiset{EXAMPLE_KEY}
    ensures t.pool == Some(c.pool) && t.key == EXAMPLE_KEY && t.number == 0
  {
    var clock := new Clock([]);
    c := new ClientConnector(0, 0, 15, 25, clock);
    t := NextToken(c);
  }

  /** Two connections of a host, asked for at 0 and at 10. */
  method TwoTokens() returns (c: ClientConnector, older: AcquiredConn, younger: AcquiredConn)
    ensures fresh(c) && fresh(c.pool) && fresh(c.clock) && fresh(older) && fresh(younger) && older != younger
    ensures c.Valid() && c.lifetime == 25 && c.keepAlive == 15 && c.clock.time == 10 && c.clock.ticks == []
    ensures c.pool.toRelease == [] && c.available == map[]
    ensures !c.pool.modified && |c.pool.tickets| == 2 && c.pool.held == multiset{EXAMPLE_KEY, EXAMPLE_KEY}
    ensures older.pool == Some(c.pool) && older.key == EXAMPLE_KEY && older.number == 0
    ensures younger.pool == Some(c.pool) && younger.key == EXAMPLE_KEY && younger.number == 1
  {
    c, older := OneToken();
    PassTime(c, 10);
    younger := NextToken(c);
  }

  method NextToken(c: ClientConnector) returns (t: AcquiredConn)
    requires c.Valid() && c.limit == 0 && c.limitPerHost == 0
    requires c.clock.ticks == [] && !c.pool.modified && c.pool.toRelease == [] && c.available == map[]
    modifies c, c.pool, c.clock
    ensures c.Valid() && c.clock.time == old(c.clock.time) && c.clock.ticks == []
    ensures !c.pool.modified && c.pool.toRelease == [] && c.available == map[]
    ensures fresh(t) && t.pool == Some(c.pool) && t.key == EXAMPLE_KEY && t.number == |old(c.pool.tokens)|
    ensures |c.pool.tokens| == |old(c.pool.tokens)| + 1 && |c.pool.tickets| == |old(c.pool.tickets)| + 1
    ensures c.pool.held == old(c.pool.held) + multiset{EXAMPLE_KEY}
  {
    var r := Connect(c, EXAMPLE_URI, false, false, []);
    t := r.token;
    assert c.available.Keys == {};
  }

  /** The younger of the two is returned at 20. */
  method YoungerIsBack() returns (c: ClientConnector, older: AcquiredConn)
    ensures fresh(c) && fresh(c.pool) && fresh(c.clock) && fresh(older)
    ensures c.Valid() && older.Valid() && older.pool == Some(c.pool) && older.key == EXAMPLE_KEY
    ensures c.lifetime == 25 && c.keepAlive == 15 && c.clock.time == 20 && c.clock.ticks == []
    ensures c.pool.toRelease == [] && QueueOf(c.available, EXAMPLE_KEY) == [Idle(20, Conn(EXAMPLE_KEY, 10))]
  {
    var younger;
    c, older, younger := TwoTokens();
    PassTime(c, 10);
    ReleaseAndCollect(c, younger, 10);
  }

  /** A connection opened at 0 is returned behind one opened at 10; at 30 the first
      is past its lifetime of 25 and still there after a collection, since the
      other one is fresh. */
  method OverAgeIsKept() returns (c: ClientConnector)
    ensures c.Valid() && c.lifetime == 25 && c.keepAlive == 15 && c.clock.time == 30 && !c.pool.modified
    ensures var q := QueueOf(c.available, EXAMPLE_KEY);
            && q == [Idle(20, Conn(EXAMPLE_KEY, 10)), Idle(21, Conn(EXAMPLE_KEY, 0))]
            && TooOld(c.clock.time, c.lifetime, q[1])
  {
    var older;
    c, older := YoungerIsBack();
    PassTime(c, 1);
    ReleaseAndCollect(c, older, 0);
    PassTime(c, 9);
    CollectNone(c);
  }

  method CollectNone(c: ClientConnector)
    requires c.Valid() && c.clock.ticks == [] && c.pool.toRelease == [] && QueueOf(c.available, EXAMPLE_KEY) != []
    requires !Stale(c.clock.time, c.keepAlive, c.lifetime, QueueOf(c.available, EXAMPLE_KEY)[0])
    modifies c, c.pool, c.clock
    ensures c.Valid() && c.clock.time == old(c.clock.time) && !c.pool.modified
    ensures QueueOf(c.available, EXAMPLE_KEY) == QueueOf(old(c.available), EXAMPLE_KEY)
  {
    ghost var now, times := c.Collect();
    FreshFrontStays(now, c.keepAlive, c.lifetime, QueueOf(old(c.available), EXAMPLE_KEY));
  }
}
