/** Pipelined responses over one writer: the task loop of the connection together
    with the responses that it drives (src/server/h1.rs, src/pipeline.rs). */
module Connection {
  import opened Bytes
  import opened Replies
  import opened Writer
  import opened Pipeline
  import E = TransferEncoding
  import S = Scheduler

  // ---- The wire ----

  /** The head of a response and its framed body. */
  ghost function FullForm(task: ProcessResponse): Data
    requires task.Fixed()
  {
    var kind := ForServer(task.req, task.reply, BodyOf(task.source)).kind;
    task.HeadBytes() + E.EncodeBody(kind, task.All()).out
  }

  ghost predicate FormOf(task: ProcessResponse, form: Data) {
    task.Fixed() && form == FullForm(task)
  }

  ghost predicate FormsOf(tasks: seq<ProcessResponse>, forms: seq<Data>) {
    |tasks| == |forms| && forall i {:trigger FormOf(tasks[i], forms[i])} | 0 <= i < |tasks| :: FormOf(tasks[i], forms[i])
  }

  ghost predicate NotBegun(task: ProcessResponse)
    reads task
  {
    task.Fixed() && task.iostate.Response? && task.running != Paused && !task.drain
  }

  ghost predicate RestNotBegun(tasks: seq<ProcessResponse>, i: nat)
    reads tasks
  {
    forall j | i <= j < |tasks| :: NotBegun(tasks[j])
  }

  ghost predicate Distinct(tasks: seq<ProcessResponse>) {
    forall i, j | 0 <= i < j < |tasks| :: tasks[i] != tasks[j]
  }

  ghost predicate AtRest(io: H1Writer)
    reads io, io.encoder
  {
    io.Valid() && !io.started && !io.upgrade && !io.keepAlive && !io.disconnected
  }

  /** The response is under way, behind `wire`. */
  ghost predicate Underway(task: ProcessResponse, io: H1Writer, wire: Data)
    reads task, io, io.encoder, io.socket, io.buffer
  {
    && task.Fixed() && task.Sending(io) && task.base == wire + task.HeadBytes()
    && task.kind == ForServer(task.req, task.reply, BodyOf(task.source)).kind
    && (Sound(task.source) ==> task.StillSound())
  }

  /** The response is under way, or may begin. */
  ghost predicate Current(task: ProcessResponse, io: H1Writer, wire: Data)
    reads task, io, io.encoder, io.socket, io.buffer
  {
    if task.iostate.Response? then NotBegun(task) && AtRest(io) && io.Wire() == wire else Underway(task, io, wire)
  }

  /** The body of a response is shorter than declared. */
  ghost predicate TooShort(task: ProcessResponse) {
    var kind := ForServer(task.req, task.reply, BodyOf(task.source)).kind;
    kind.Length? && |Concat(task.All())| < kind.remaining
  }

  /** One poll of a response; when it is complete, the writer is reset. */
  method PollResponse(tasks: seq<ProcessResponse>, n: nat, io: H1Writer, ghost forms: seq<Data>, ghost wire: Data)
    returns (r: Progress)
    requires FormsOf(tasks, forms) && n < |tasks| && Current(tasks[n], io, wire)
    modifies tasks[n], io.Repr()
    ensures fresh(io.Repr() - old(io.Repr()))
    ensures r == Pending ==> Underway(tasks[n], io, wire)
    ensures r == Completed ==> AtRest(io) && io.Wire() == wire + forms[n]
    ensures Healthy(old(io.socket.script)) ==> Healthy(io.socket.script)
    ensures r == Failed && Healthy(old(io.socket.script)) ==> !Sound(tasks[n].source) || TooShort(tasks[n])
  {
    var task := tasks[n];
    r := task.PollIo(io);
    if r == Completed {
      assert task.sent + [] == task.sent;
      Assoc(wire, task.HeadBytes(), E.EncodeBody(task.kind, task.All()).out);
      assert FormOf(task, forms[n]);
      io.Reset();
    }
  }

  lemma OthersDiffer(tasks: seq<ProcessResponse>, n: nat, j: nat)
    requires Distinct(tasks) && n < j < |tasks|
    ensures tasks[j] != tasks[n]
  {}

  /** The later ones stay as they are. */
  method PollOneOf(tasks: seq<ProcessResponse>, n: nat, io: H1Writer, ghost forms: seq<Data>, ghost wire: Data)
    returns (r: Progress)
    requires FormsOf(tasks, forms) && Distinct(tasks)
    requires n < |tasks| && RestNotBegun(tasks, n + 1)
    requires Current(tasks[n], io, wire)
    modifies tasks[n], io.Repr()
    ensures fresh(io.Repr() - old(io.Repr())) && RestNotBegun(tasks, n + 1)
    ensures r == Pending ==> Underway(tasks[n], io, wire)
    ensures r == Completed ==> AtRest(io) && io.Wire() == wire + forms[n]
    ensures Healthy(old(io.socket.script)) ==> Healthy(io.socket.script)
    ensures r == Failed && Healthy(old(io.socket.script)) ==> !Sound(tasks[n].source) || TooShort(tasks[n])
  {
    r := PollResponse(tasks, n, io, forms, wire);
    forall j | n < j < |tasks| ensures NotBegun(tasks[j]) {
      OthersDiffer(tasks, n, j);
      assert old(NotBegun(tasks[j]));
    }
  }

  /** All before `n` is complete, with `wire` put out, and the next response is
      under way or may begin. */
  ghost predicate Standing(tasks: seq<ProcessResponse>, n: nat, io: H1Writer, wire: Data)
    reads tasks, io, io.encoder, io.socket, io.buffer
  {
    && RestNotBegun(tasks, n + 1)
    && if n < |tasks| then Current(tasks[n], io, wire) else AtRest(io) && io.Wire() == wire
  }

  ghost predicate Ahead(wire: Data, base: Data, forms: seq<Data>, n: nat) {
    n <= |forms| && wire == base + Concat(forms[..n])
  }

  /** What is on the wire: the first `n` responses in full, and what the next one
      has put out if it is under way. */
  ghost predicate Wired(tasks: seq<ProcessResponse>, forms: seq<Data>, n: nat, io: H1Writer, base: Data)
    reads tasks, io, io.encoder, io.socket, io.buffer
  {
    && n <= |tasks| == |forms|
    && forall wire {:trigger Ahead(wire, base, forms, n)} | Ahead(wire, base, forms, n) :: Standing(tasks, n, io, wire)
  }

  ghost predicate Begun(tasks: seq<ProcessResponse>, n: nat)
    reads tasks
  {
    n < |tasks| && !tasks[n].iostate.Response?
  }

  lemma OneMore(forms: seq<Data>, n: nat, base: Data)
    requires n < |forms|
    ensures base + Concat(forms[..n + 1]) == (base + Concat(forms[..n])) + forms[n]
  {
    assert forms[..n + 1] == forms[..n] + [forms[n]];
    ConcatPush(forms[..n], forms[n]);
    Assoc(base, Concat(forms[..n]), forms[n]);
  }

  /** The next response goes on. */
  method Continue(tasks: seq<ProcessResponse>, n: nat, io: H1Writer, ghost forms: seq<Data>, ghost base: Data)
    returns (r: Progress)
    requires FormsOf(tasks, forms) && Distinct(tasks) && n < |tasks| && Wired(tasks, forms, n, io, base)
    modifies tasks[n], io.Repr()
    ensures fresh(io.Repr() - old(io.Repr()))
    ensures r == Pending ==> Wired(tasks, forms, n, io, base) && !tasks[n].iostate.Response?
    ensures r == Completed ==> Wired(tasks, forms, n + 1, io, base) && (n + 1 < |tasks| ==> tasks[n + 1].iostate.Response?)
    ensures Healthy(old(io.socket.script)) ==> Healthy(io.socket.script)
    ensures r == Failed && Healthy(old(io.socket.script)) ==> !Sound(tasks[n].source) || TooShort(tasks[n])
  {
    ghost var wire := base + Concat(forms[..n]);
    assert Ahead(wire, base, forms, n);
    r := PollOneOf(tasks, n, io, forms, wire);
    OneMore(forms, n, base);
  }

  // ---- The log ----

  /** Exactly the first `n` tasks have reported; and if the next response is under
      way, its task was given the writer at `at`. */
  ghost predicate Logged(log: S.Log, n: nat, busy: bool, at: nat) {
    && (forall id: nat :: id in S.Summed(log).answered <==> id < n)
    && (busy ==> at < |log| && log[at] == S.Gave(n))
  }

  /** A task that may write is one of those that have reported, or the next. */
  lemma MayWrite(tasks: seq<S.Entry>, log: S.Log, nextId: nat, idx: nat, n: nat, busy: bool, at: nat)
    requires S.Consistent(tasks, S.Summed(log), nextId) && idx < |tasks| && S.AnsweredBefore(tasks, S.Summed(log), idx)
    requires Logged(log, n, busy, at)
    ensures tasks[idx].id <= n && tasks[idx].id < nextId
  {
    S.FitsAt(tasks, S.Summed(log).done, S.Summed(log).left, idx);
    S.EarlierAnswered(tasks, S.Summed(log), nextId, idx);
    assert n < tasks[idx].id ==> n in S.Summed(log).answered;
  }

  lemma AllReported(tasks: seq<S.Entry>, log: S.Log, nextId: nat, n: nat, busy: bool, at: nat)
    requires S.Consistent(tasks, S.Summed(log), nextId) && S.AnsweredBefore(tasks, S.Summed(log), |tasks|)
    requires Logged(log, n, busy, at)
    ensures nextId <= n
  {
    if nextId > 0 {
      var s := S.Summed(log);
      if tasks == [] {
        assert nextId - 1 in s.done;
      } else {
        S.FitsAt(tasks, s.done, s.left, |tasks| - 1);
      }
    }
  }

  lemma LoggedOn(log: S.Log, n: nat, busy: bool, at: nat, id: nat, answer: S.IoAnswer, busy': bool)
    requires Logged(log, n, busy, at) && id <= n
    requires busy' ==> !(answer.Ready? && id == n) && (busy || id == n)
    ensures var log' := log + [S.Gave(id)] + S.Reports(id, answer);
            Logged(log', if answer.Ready? && id == n then n + 1 else n, busy', if busy then at else |log|)
  {
    var given := log + [S.Gave(id)];
    assert given[..|log|] == log;
    var log' := given + S.Reports(id, answer);
    if answer.Ready? {
      assert log'[..|given|] == given;
    } else {
      assert log' == given;
    }
  }

  /** A report while a later response is under way. */
  lemma CutShort(log: S.Log, n: nat, at: nat, id: nat, done: bool)
    requires Logged(log, n, true, at) && id < n
    ensures S.Interrupts(log + [S.Gave(id)] + [S.Said(id, done)])
  {
    var given := log + [S.Gave(id)];
    var log' := given + [S.Said(id, done)];
    assert given[..|log|] == log && log'[..|given|] == given;
    assert log'[at] == S.Gave(n);
    assert S.CutsShort(log', at, |given|);
  }

  lemma {:induction false} LoggedClean(tasks: seq<S.Entry>, log: S.Log, n: nat, busy: bool, at: nat)
    requires Logged(log, n, busy, at)
    ensures Logged(S.Cleaned(tasks, log).log, n, busy, at)
    decreases |tasks|
  {
    if tasks != [] && tasks[0].eof && tasks[0].finished {
      var log' := log + [S.Left(tasks[0].id)];
      assert log'[..|log|] == log;
      LoggedClean(tasks[1..], log', n, busy, at);
    }
  }

  // ---- The connection ----

  /** How a connection goes on: a response or its task may fail, a report may come
      while a later response is under way, and a parse error may lose what has not
      been sent. */
  datatype Outcome = Open | ResponseFailed | TaskFailed | Interrupted | Lost

  class Channel {
    const http: S.Http1
    const io: H1Writer

    /** The responses to all requests that are going to come, in their order. */
    const tasks: seq<ProcessResponse>

    /** How many of them are complete. */
    var complete: nat

    ghost const base: Data
    ghost const forms: seq<Data>
    ghost var at: nat

    constructor (http: S.Http1, io: H1Writer, tasks: seq<ProcessResponse>)
      requires http.Valid() && http.log == [] && http.nextId == 0
      requires AtRest(io) && RestNotBegun(tasks, 0) && Distinct(tasks)
      ensures Valid() && this.http == http && this.io == io && this.tasks == tasks
      ensures base == io.Wire() && complete == 0
    {
      this.http, this.io, this.tasks := http, io, tasks;
      complete, at, base := 0, 0, io.Wire();
      ghost var f := FormsExist(tasks);
      forms := f;
      new;
      assert base + Concat(forms[..0]) == base;
    }

    ghost predicate Fit() {
      FormsOf(tasks, forms) && Distinct(tasks)
    }

    ghost predicate Valid()
      reads this, http, tasks, io, io.encoder, io.socket, io.buffer
    {
      && Fit() && Wired(tasks, forms, complete, io, base)
      && http.Valid() && complete <= http.nextId <= |tasks| && Logged(http.log, complete, Begun(tasks, complete), at)
    }

    /** The task of a complete response is asked again: its middlewares or its
        actor may still be at work, or have failed. */
    method AskAgain() returns (answer: S.IoAnswer, outcome: Outcome)
      requires Fit() && Wired(tasks, forms, complete, io, base)
      modifies http.env, io`written, io`started, io`upgrade, io`keepAlive, io`disconnected
      ensures outcome == (match answer
                          case Failed => TaskFailed
                          case NotReady => Open
                          case Ready(_) => if Begun(tasks, complete) then Interrupted else Open)
      ensures outcome != Interrupted ==> Wired(tasks, forms, complete, io, base)
    {
      var k := http.env.Choose(3);
      if k == 0 {
        return S.NotReady, Open;
      } else if k == 1 {
        return S.Failed, TaskFailed;
      }
      answer, outcome := S.Ready(true), Open;
      assert Ahead(base + Concat(forms[..complete]), base, forms, complete);
      if complete < |tasks| && !tasks[complete].iostate.Response? {
        outcome := Interrupted;
      }
      io.Reset();
    }

    /** The next response goes on. */
    method Proceed() returns (r: Progress)
      requires Fit() && Wired(tasks, forms, complete, io, base) && complete < |tasks|
      modifies this`complete, tasks[complete], io.Repr()
      ensures fresh(io.Repr() - old(io.Repr()))
      ensures complete == old(complete) + if r == Completed then 1 else 0
      ensures r != Failed ==> Wired(tasks, forms, complete, io, base)
      ensures r == Completed ==> !Begun(tasks, complete)
      ensures Healthy(old(io.socket.script)) ==> Healthy(io.socket.script)
      ensures r == Failed && Healthy(old(io.socket.script)) ==> Faulty()
    {
      r := Continue(tasks, complete, io, forms, base);
      if r == Completed {
        complete := complete + 1;
      }
    }

    /** The task of the next response is asked: as long as it has not begun, its
        handler may still be at work. */
    method AskNext() returns (answer: S.IoAnswer, outcome: Outcome)
      requires Fit() && Wired(tasks, forms, complete, io, base) && complete < |tasks|
      modifies this`complete, tasks[complete], io.Repr(), http.env
      ensures fresh(io.Repr() - old(io.Repr()))
      ensures outcome == if answer == S.Failed then ResponseFailed else Open
      ensures complete == old(complete) + if answer.Ready? then 1 else 0
      ensures answer != S.Failed ==> Wired(tasks, forms, complete, io, base)
      ensures answer.Ready? ==> !Begun(tasks, complete)
      ensures Healthy(old(io.socket.script)) ==> Healthy(io.socket.script)
      ensures outcome == ResponseFailed && Healthy(old(io.socket.script)) ==> Faulty()
    {
      var ready := http.env.Decide();
      var done := http.env.Decide();
      answer, outcome := S.NotReady, Open;
      if ready || !tasks[complete].iostate.Response? {
        var r := Proceed();
        match r {
          case Pending =>
          case Failed => answer, outcome := S.Failed, ResponseFailed;
          case Completed => answer := S.Ready(done);
        }
      }
    }

    /** A task is given the writer. */
    method Ask(id: nat) returns (answer: S.IoAnswer, outcome: Outcome)
      requires Fit() && Wired(tasks, forms, complete, io, base) && id <= complete && id < |tasks|
      modifies this`complete, tasks, io.Repr(), http.env
      ensures fresh(io.Repr() - old(io.Repr()))
      ensures complete == old(complete) + if answer.Ready? && id == old(complete) then 1 else 0
      ensures outcome == Open ==> Wired(tasks, forms, complete, io, base) && answer != S.Failed
      ensures outcome == Open && Begun(tasks, complete) ==> old(Begun(tasks, complete)) || id == old(complete)
      ensures outcome == Open && answer.Ready? && id == old(complete) ==> !Begun(tasks, complete)
      ensures outcome == Interrupted ==> answer.Ready? && id < old(complete) && old(Begun(tasks, complete))
      ensures outcome != Lost
      ensures Healthy(old(io.socket.script)) ==> Healthy(io.socket.script)
      ensures outcome == ResponseFailed && Healthy(old(io.socket.script)) ==> Faulty()
    {
      if id < complete {
        answer, outcome := AskAgain();
      } else {
        answer, outcome := AskNext();
      }
    }

    /** Where the task loop is, which began after `before` happenings: everyone before
        `idx` has reported, or someone has been given the writer and keeps it. */
    ghost predicate AtTask(idx: nat, taken: bool, upto: nat, before: nat)
      reads http
    {
      && http.Valid() && upto <= idx <= |http.tasks| && S.AnsweredBefore(http.tasks, S.Summed(http.log), upto)
      && before <= |http.log| && if taken then Kept(before) else upto == idx
    }

    ghost predicate Kept(before: nat)
      reads http
    {
      before < |http.log| && http.log[|http.log| - 1].Gave?
    }

    /** The log, after a task has been given the writer and has answered. */
    method TakeDown(idx: nat, answer: S.IoAnswer, outcome: Outcome, ghost n: nat, ghost busy: bool) returns (taken: bool)
      requires http.Valid() && idx < |http.tasks| && S.AnsweredBefore(http.tasks, S.Summed(http.log), idx)
      requires !http.tasks[idx].eof && !http.tasks[idx].error && http.tasks[idx].id <= n && Logged(http.log, n, busy, at)
      requires outcome == Open ==>
                 && complete == n + (if answer.Ready? && http.tasks[idx].id == n then 1 else 0)
                 && (Begun(tasks, complete) ==> !(answer.Ready? && http.tasks[idx].id == n) && (busy || http.tasks[idx].id == n))
      requires outcome == Interrupted ==> answer.Ready? && http.tasks[idx].id < n && busy
      modifies this`at, http`tasks, http`log
      ensures http.Valid() && |http.tasks| == |old(http.tasks)| && http.nextId == old(http.nextId)
      ensures (taken <==> answer == S.NotReady) && |old(http.log)| <= |http.log| && (taken ==> Kept(|old(http.log)|))
      ensures S.AnsweredBefore(http.tasks, S.Summed(http.log), if answer.Ready? then idx + 1 else idx)
      ensures outcome == Open ==> Logged(http.log, complete, Begun(tasks, complete), at)
      ensures outcome == Interrupted ==> S.Interrupts(http.log)
    {
      var id := http.tasks[idx].id;
      ghost var log := http.log;
      var v;
      v, taken := http.GiveWriter(idx, answer);
      if outcome == Open {
        LoggedOn(log, n, busy, at, id, answer, Begun(tasks, complete));
        at := if busy then at else |log|;
      } else if outcome == Interrupted {
        CutShort(log, n, at, id, answer.done);
      }
    }

    /** The writer is free and goes to a task. */
    method GiveTo(idx: nat) returns (answer: S.IoAnswer, taken: bool, outcome: Outcome)
      requires Valid() && idx < |http.tasks| && S.AnsweredBefore(http.tasks, S.Summed(http.log), idx)
      requires !http.tasks[idx].eof && !http.tasks[idx].error
      modifies this`complete, this`at, http`tasks, http`log, http.env, tasks, io.Repr()
      ensures fresh(io.Repr() - old(io.Repr())) && http.Valid() && |http.tasks| == |old(http.tasks)| && outcome != Lost
      ensures outcome == Open ==> Valid() && answer != S.Failed && (taken <==> answer == S.NotReady)
      ensures |old(http.log)| <= |http.log| && (taken ==> Kept(|old(http.log)|))
      ensures S.AnsweredBefore(http.tasks, S.Summed(http.log), if answer.Ready? then idx + 1 else idx)
      ensures outcome == Interrupted ==> S.Interrupts(http.log)
      ensures Healthy(old(io.socket.script)) ==> Healthy(io.socket.script)
      ensures outcome == ResponseFailed && Healthy(old(io.socket.script)) ==> Faulty()
    {
      ghost var n, busy := complete, Begun(tasks, complete);
      MayWrite(http.tasks, http.log, http.nextId, idx, n, busy, at);
      answer, outcome := Ask(http.tasks[idx].id);
      assert http.Valid();
      taken := TakeDown(idx, answer, outcome, n, busy);
    }

    /** A task is polled without the writer. */
    method PollWithout(idx: nat, taken: bool, ghost upto: nat, ghost before: nat) returns (ghost upto': nat)
      requires Valid() && AtTask(idx, taken, upto, before) && idx < |http.tasks| && (taken || http.tasks[idx].eof)
      modifies http`tasks, http.env
      ensures Valid() && AtTask(idx + 1, taken, upto', before) && |http.tasks| == |old(http.tasks)|
    {
      var k := http.env.Choose(3);
      http.PollTask(idx, S.PollAnswerOf(k), upto);
      upto' := if taken then upto else idx + 1;
    }

    /** One turn of the task loop: the task is given the writer if that is free, and
        is otherwise polled without it. */
    method Turn(idx: nat, taken: bool, ghost upto: nat, ghost before: nat)
      returns (stop: bool, taken': bool, outcome: Outcome, ghost upto': nat)
      requires Valid() && AtTask(idx, taken, upto, before) && idx < |http.tasks|
      modifies this`complete, this`at, http`tasks, http`log, http.env, tasks, io.Repr()
      ensures fresh(io.Repr() - old(io.Repr())) && |http.tasks| == |old(http.tasks)| && outcome != Lost
      ensures outcome == Open ==> Valid() && (!stop ==> AtTask(idx + 1, taken', upto', before))
      ensures outcome == Interrupted ==> http.Valid() && S.Interrupts(http.log)
      ensures Healthy(old(io.socket.script)) ==> Healthy(io.socket.script)
      ensures outcome == ResponseFailed && Healthy(old(io.socket.script)) ==> Faulty()
    {
      stop, taken', outcome, upto' := false, taken, Open, upto;
      if !taken && !http.tasks[idx].eof {
        if http.tasks[idx].error {
          stop := true;
        } else {
          var answer;
          answer, taken', outcome := GiveTo(idx);
          upto' := if answer.Ready? then idx + 1 else idx;
          if taken' {
            // the payload may want to be read first
            stop := http.env.Decide();
          }
        }
      } else {
        upto' := PollWithout(idx, taken, upto, before);
      }
    }

    /** The next response has a source that fails, or a body that is too short. */
    ghost predicate Faulty()
      reads this
    {
      complete < |tasks| && (!Sound(tasks[complete].source) || TooShort(tasks[complete]))
    }

    /** The task loop. Unless it stops early, all responses asked for are complete, or
        some task has been given the writer and keeps it. */
    method RunTasks() returns (stopped: bool, outcome: Outcome)
      requires Valid()
      modifies this`complete, this`at, http`tasks, http`log, http.env, tasks, io.Repr()
      ensures fresh(io.Repr() - old(io.Repr())) && |http.tasks| == |old(http.tasks)| && outcome != Lost
      ensures outcome == Open ==> Valid()
      ensures outcome == Open && !stopped ==> complete == http.nextId || Kept(|old(http.log)|)
      ensures outcome == Interrupted ==> http.Valid() && S.Interrupts(http.log)
      ensures Healthy(old(io.socket.script)) ==> Healthy(io.socket.script)
      ensures outcome == ResponseFailed && Healthy(old(io.socket.script)) ==> Faulty()
    {
      var taken, idx := false, 0;
      ghost var upto := 0;
      stopped, outcome := false, Open;
      while idx < |http.tasks| && !stopped && outcome == Open
        invariant fresh(io.Repr() - old(io.Repr())) && |http.tasks| == |old(http.tasks)| && idx <= |http.tasks| && outcome != Lost
        invariant outcome == Open ==> Valid() && (!stopped ==> AtTask(idx, taken, upto, |old(http.log)|))
        invariant outcome == Interrupted ==> http.Valid() && S.Interrupts(http.log)
        invariant Healthy(old(io.socket.script)) ==> Healthy(io.socket.script)
        invariant outcome == ResponseFailed && Healthy(old(io.socket.script)) ==> Faulty()
        decreases |http.tasks| - idx
      {
        stopped, taken, outcome, upto := Turn(idx, taken, upto, |old(http.log)|);
        idx := idx + 1;
      }
      if outcome == Open && !stopped && !taken {
        AllReported(http.tasks, http.log, http.nextId, complete, Begun(tasks, complete), at);
      }
    }

    /** Tasks that are over leave. */
    method Cleanup() returns (popped: bool)
      requires Valid()
      modifies http`tasks, http`log
      ensures Valid() && popped == (|http.tasks| < |old(http.tasks)|) && |http.tasks| <= |old(http.tasks)|
    {
      LoggedClean(http.tasks, http.log, complete, Begun(tasks, complete), at);
      popped := http.Cleanup();
    }

    method Flush() returns (outcome: Outcome)
      requires Valid()
      modifies io.socket, io.buffer`data
      ensures outcome == Open ==> Valid()
      ensures outcome in {Open, ResponseFailed}
      ensures Healthy(old(io.socket.script)) ==> Healthy(io.socket.script) && outcome == Open
    {
      assert Ahead(base + Concat(forms[..complete]), base, forms, complete);
      var r := io.PollCompleted(false);
      outcome := if r.Error? then ResponseFailed else Open;
    }

    method Arrive(count: nat)
      requires Valid()
      modifies http
      ensures Valid()
    {
      var i := 0;
      while i < count && http.nextId < |tasks|
        invariant Valid()
      {
        http.Arrive();
        i := i + 1;
      }
    }

    /** Requests arrive; then one may be broken, or the peer may be gone, and what
        is in the buffer is given up. */
    method Read(count: nat, broken: bool) returns (outcome: Outcome)
      requires Valid()
      modifies http, io.buffer`data
      ensures outcome == (if broken && old(io.buffer.data) != [] then Lost else Open)
      ensures outcome == Open ==> Valid()
    {
      Arrive(count);
      outcome := Open;
      if broken {
        if |io.buffer.data| > 0 {
          outcome := Lost;
        }
        assert Ahead(base + Concat(forms[..complete]), base, forms, complete);
        io.Disconnected();
        http.error := true;
        if |http.tasks| == 0 && outcome == Open {
          Arrive(1);
        }
      }
    }

    /** One poll of the connection. When tasks have left a full queue, it starts over
        to read on. */
    method PollIo(count: nat, broken: bool) returns (outcome: Outcome)
      requires Valid()
      modifies this`complete, this`at, http, http.env, tasks, io.Repr()
      ensures fresh(io.Repr() - old(io.Repr()))
      ensures outcome == Open ==> Valid()
      ensures outcome == Interrupted ==> http.Valid() && S.Interrupts(http.log)
      ensures outcome == Lost ==> broken
      ensures Healthy(old(io.socket.script)) ==> Healthy(io.socket.script)
      ensures outcome == ResponseFailed && Healthy(old(io.socket.script)) ==> Faulty()
      decreases |http.tasks|
    {
      var needRead := http.error || |http.tasks| >= S.MAX_PIPELINED_MESSAGES;
      outcome := Open;
      if !needRead {
        outcome := Read(count, broken);
        if outcome != Open {
          return;
        }
      }
      var stopped;
      stopped, outcome := RunTasks();
      if stopped || outcome != Open {
        return;
      }
      var popped := Cleanup();
      if needRead && popped {
        outcome := PollIo(count, broken);
      } else {
        outcome := Flush();
      }
    }
  }

  /** One poll: how many requests arrive at most, and whether there is a parse error. */
  datatype Round = Round(count: nat, broken: bool)

  /** Any run of the connection, whatever the handlers, the peer and the socket do:
      as long as it is open, the wire holds the full forms of the complete responses,
      back to back in the order of the requests, and what the next one has put out.
      A report comes while a later response is under way only if the writer has gone
      back; buffered data is lost only with a parse error; and on a healthy socket a
      response fails only if its source does or its body is too short. */
  method Serve(c: Channel, rounds: seq<Round>) returns (outcome: Outcome)
    requires c.Valid()
    modifies c, c.http, c.http.env, c.tasks, c.io.Repr()
    ensures outcome == Open ==> c.Valid() && Wired(c.tasks, c.forms, c.complete, c.io, c.base)
    ensures outcome == Open && c.complete == |c.tasks| ==> c.io.Wire() == c.base + Concat(c.forms) && FormsOf(c.tasks, c.forms)
    ensures outcome == Interrupted ==> S.GoesBack(c.http.log)
    ensures outcome == Lost ==> exists i | 0 <= i < |rounds| :: rounds[i].broken
    ensures outcome == ResponseFailed && Healthy(old(c.io.socket.script)) ==> c.Faulty()
  {
    outcome := Open;
    var i := 0;
    while i < |rounds| && outcome == Open
      invariant i <= |rounds| && fresh(c.io.Repr() - old(c.io.Repr()))
      invariant outcome == Open ==> c.Valid()
      invariant outcome == Interrupted ==> c.http.Valid() && S.Interrupts(c.http.log)
      invariant outcome == Lost ==> exists i | 0 <= i < |rounds| :: rounds[i].broken
      invariant Healthy(old(c.io.socket.script)) ==> Healthy(c.io.socket.script)
      invariant outcome == ResponseFailed && Healthy(old(c.io.socket.script)) ==> c.Faulty()
      decreases |rounds| - i
    {
      outcome := c.PollIo(rounds[i].count, rounds[i].broken);
      i := i + 1;
    }
    if outcome == Interrupted {
      S.InterruptMeansBack(c.http.log);
    } else if outcome == Open {
      WholeWire(c);
    }
  }

  lemma WholeWire(c: Channel)
    requires c.Valid()
    ensures c.complete == |c.tasks| ==> c.io.Wire() == c.base + Concat(c.forms) && FormsOf(c.tasks, c.forms)
  {
    assert c.forms[..|c.forms|] == c.forms;
    assert Ahead(c.base + Concat(c.forms[..c.complete]), c.base, c.forms, c.complete);
  }

  /** There is one full form for each response. */
  lemma {:induction false} FormsExist(tasks: seq<ProcessResponse>) returns (forms: seq<Data>)
    requires forall t | t in tasks :: t.Fixed()
    ensures FormsOf(tasks, forms)
    decreases |tasks|
  {
    if tasks == [] {
      forms := [];
    } else {
      var n := |tasks| - 1;
      var front := FormsExist(tasks[..n]);
      assert tasks == tasks[..n] + [tasks[n]];
      forms := OneFormMore(tasks[..n], front, tasks[n]);
    }
  }

  lemma FormExists(task: ProcessResponse) returns (form: Data)
    requires task.Fixed()
    ensures FormOf(task, form)
  {
    form := FullForm(task);
  }

  lemma OneFormMore(tasks: seq<ProcessResponse>, forms: seq<Data>, task: ProcessResponse) returns (forms': seq<Data>)
    requires FormsOf(tasks, forms) && task.Fixed()
    ensures FormsOf(tasks + [task], forms')
  {
    var form := FormExists(task);
    FormsPush(tasks, forms, task, form);
    forms' := forms + [form];
  }

  lemma FormsPush(tasks: seq<ProcessResponse>, forms: seq<Data>, task: ProcessResponse, form: Data)
    requires FormsOf(tasks, forms) && FormOf(task, form)
    ensures FormsOf(tasks + [task], forms + [form])
  {
    var tasks', forms' := tasks + [task], forms + [form];
    forall i | 0 <= i < |tasks'| ensures FormOf(tasks'[i], forms'[i]) {
      if i < |tasks| {
        assert FormOf(tasks[i], forms[i]) && tasks'[i] == tasks[i] && forms'[i] == forms[i];
      } else {
        assert tasks'[i] == task && forms'[i] == form;
      }
    }
  }
}
