/** Pipelined requests on one connection (`Http1::poll_io` in src/server/h1.rs):
    responses have to go out in the order of the requests (section 6.3.2 of
    RFC 7230). */
module Scheduler {

  /** What happens to the tasks, numbered in the order of their arrival: one is
      given the writer, reports that its response is done (and whether the task
      itself is, too), or leaves the queue. */
  datatype Happening = Gave(id: nat) | Said(id: nat, done: bool) | Left(id: nat)

  type Log = seq<Happening>

  // ---- Properties of a log ----

  /** Who was given the writer last and has not reported since. */
  datatype Holder = Nobody | Task(id: nat)

  /** What a log says in sum: who holds the writer, who has reported, who has
      reported done, and how many have left. */
  datatype Summary = Summary(holder: Holder, answered: set<nat>, done: set<nat>, left: nat)

  function Sum(s: Summary, h: Happening): (s': Summary) {
    match h
    case Gave(id) => s.(holder := Task(id))
    case Said(id, done) =>
      s.(holder := Nobody, answered := s.answered + {id}, done := if done then s.done + {id} else s.done)
    case Left(_) => s.(left := s.left + 1)
  }

  function Summed(log: Log): (s: Summary) {
    if log == [] then Summary(Nobody, {}, {}, 0) else Sum(Summed(log[..|log| - 1]), log[|log| - 1])
  }

  /** One more happening is in order: a task is given the writer only when every
      earlier task has reported at least once and it has not reported done
      itself; it reports only while it holds the writer; and tasks leave one after
      the other, after reporting done. */
  ghost predicate InOrder(s: Summary, h: Happening) {
    match h
    case Gave(id) => (forall earlier: nat | earlier < id :: earlier in s.answered) && id !in s.done
    case Said(id, _) => s.holder == Task(id)
    case Left(id) => id == s.left && id in s.done
  }

  /** Everything in a log is in order at its time. */
  ghost predicate Orderly(log: Log) {
    log == [] || (Orderly(log[..|log| - 1]) && InOrder(Summed(log[..|log| - 1]), log[|log| - 1]))
  }

  lemma {:induction false} OrderlyAt(log: Log, i: nat)
    requires Orderly(log) && i < |log|
    ensures InOrder(Summed(log[..i]), log[i])
    decreases |log|
  {
    if i < |log| - 1 {
      OrderlyAt(log[..|log| - 1], i);
      assert log[..|log| - 1][..i] == log[..i];
    }
  }

  lemma OrderlyPush(log: Log, h: Happening)
    requires Orderly(log) && InOrder(Summed(log), h)
    ensures Orderly(log + [h]) && Summed(log + [h]) == Sum(Summed(log), h)
  {
    assert (log + [h])[..|log|] == log;
  }

  lemma {:induction false} SummedGrows(log: Log, i: nat)
    requires i <= |log|
    ensures Summed(log[..i]).done <= Summed(log).done && Summed(log[..i]).answered <= Summed(log).answered
    decreases |log| - i
  {
    if i == |log| {
      assert log[..i] == log;
    } else {
      assert log[..i + 1][..i] == log[..i];
      SummedGrows(log, i + 1);
    }
  }

  /** The writer goes from task to task and never back. */
  ghost predicate Monotone(log: Log) {
    forall i, j | 0 <= i < j < |log| && log[i].Gave? && log[j].Gave? :: log[i].id <= log[j].id
  }

  /** A task has reported that its response is done but not itself; after that a
      later task has been given the writer, and then this one again. */
  ghost predicate GoesBack(log: Log) {
    exists p, i, j | 0 <= p < i < j < |log| :: Between(log[p], log[i], log[j])
  }

  ghost predicate Between(first: Happening, second: Happening, third: Happening) {
    && first.Said? && !first.done && second.Gave? && third.Gave?
    && third.id == first.id && second.id > first.id
  }

  /** Who has answered has said so. */
  lemma {:induction false} SaidBefore(log: Log, id: nat) returns (p: nat)
    requires id in Summed(log).answered
    ensures p < |log| && log[p].Said? && log[p].id == id && (log[p].done ==> id in Summed(log).done)
    decreases |log|
  {
    var n := |log| - 1;
    if log[n].Said? && log[n].id == id {
      p := n;
    } else {
      p := SaidBefore(log[..n], id);
    }
  }

  /** In an orderly log, the writer goes from task to task if and only if no task
      takes it back after a report that left it unfinished. */
  lemma MonotoneIff(log: Log)
    requires Orderly(log)
    ensures Monotone(log) <==> !GoesBack(log)
  {
    if !Monotone(log) {
      var i, j :| 0 <= i < j < |log| && log[i].Gave? && log[j].Gave? && log[i].id > log[j].id;
      OrderlyAt(log, i);
      OrderlyAt(log, j);
      var p := SaidBefore(log[..i], log[j].id);
      SummedGrows(log[..j], i);
      assert log[..j][..i] == log[..i];
      assert Between(log[p], log[i], log[j]);
    }
  }

  /** A report comes while a later task's response is under way. Every report
      resets the writer, so the rest of that response goes out unframed. */
  ghost predicate Interrupts(log: Log) {
    exists i, j | 0 <= i < j < |log| :: CutsShort(log, i, j)
  }

  ghost predicate CutsShort(log: Log, i: nat, j: nat)
    requires i < j < |log|
  {
    log[i].Gave? && log[j].Said? && log[j].id < log[i].id && log[i].id !in Summed(log[..j]).answered
  }

  /** Who holds the writer was given it last. */
  lemma {:induction false} HolderWasGiven(log: Log) returns (k: nat)
    requires Summed(log).holder.Task?
    ensures k < |log| && log[k] == Gave(Summed(log).holder.id)
    ensures forall i | k < i < |log| :: !log[i].Gave?
    decreases |log|
  {
    var n := |log| - 1;
    if log[n].Gave? {
      k := n;
    } else {
      k := HolderWasGiven(log[..n]);
    }
  }

  /** No response is cut short unless the writer goes back. */
  lemma InterruptMeansBack(log: Log)
    requires Orderly(log) && Interrupts(log)
    ensures GoesBack(log)
  {
    var i, j :| 0 <= i < j < |log| && CutsShort(log, i, j);
    OrderlyAt(log, j);
    var k := HolderWasGiven(log[..j]);
    assert log[..j][i].Gave? && log[k].id < log[i].id;
    GivenBack(log, i, k);
  }

  lemma GivenBack(log: Log, i: nat, k: nat)
    requires Orderly(log) && i < k < |log| && log[i].Gave? && log[k].Gave? && log[k].id < log[i].id
    ensures GoesBack(log)
  {
    MonotoneIff(log);
  }

  // ---- The scheduler ----

  datatype Entry = Entry(id: nat, eof: bool, error: bool, finished: bool)

  /** Answers of a task that is given the writer, or polled without it. */
  datatype IoAnswer = Ready(done: bool) | NotReady | Failed
  datatype PollAnswer = Finished | Waiting | Broken

  datatype Visit = NextTask | Stop

  // ---- What a poll does, choice by choice ----

  /** One choice out of `n`, and the choices that are left. */
  datatype Choice = Choice(k: nat, rest: seq<nat>)

  function Chosen(script: seq<nat>, n: nat): (c: Choice)
    requires n > 0
    ensures c.k < n && |c.rest| <= |script| && (c.k > 0 ==> |c.rest| < |script|)
  {
    if script == [] then Choice(0, []) else Choice(script[0] % n, script[1..])
  }

  function IoAnswerOf(k: nat): IoAnswer {
    if k == 0 then NotReady else if k == 1 then Ready(true) else if k == 2 then Ready(false) else Failed
  }

  function PollAnswerOf(k: nat): PollAnswer {
    if k == 0 then Waiting else if k == 1 then Finished else Broken
  }

  /** The queue after new requests have come in. */
  datatype Queue = Queue(tasks: seq<Entry>, nextId: nat, error: bool, script: seq<nat>)

  function Enqueued(q: Queue): (q': Queue) {
    q.(tasks := q.tasks + [Entry(q.nextId, false, false, false)], nextId := q.nextId + 1)
  }

  function Arrivals(q: Queue): (q': Queue)
    decreases |q.script|
  {
    var more := Chosen(q.script, 2);
    if more.k == 0 then q.(script := more.rest) else Arrivals(Enqueued(q.(script := more.rest)))
  }

  function Reading(q: Queue): (q': Queue)
    ensures q.error || |q.tasks| >= MAX_PIPELINED_MESSAGES ==> q' == q
  {
    if q.error || |q.tasks| >= MAX_PIPELINED_MESSAGES then q
    else
      var all := Arrivals(q);
      var broken := Chosen(all.script, 2);
      if broken.k == 0 then all.(script := broken.rest)
      else
        var respond := Chosen(broken.rest, 2);
        var failed := all.(error := true, script := respond.rest);
        if all.tasks == [] && respond.k == 1 then Enqueued(failed) else failed
  }

  /** The tasks after some turns of the loop. */
  datatype Turns = Turns(tasks: seq<Entry>, log: Log, script: seq<nat>, stopped: bool)

  /** One turn: what it makes of the tasks and the log, whether it is the last,
      and whether the writer is taken after it. */
  datatype Turned = Turned(tasks: seq<Entry>, log: Log, v: Visit, io: bool)

  function Visited(tasks: seq<Entry>, log: Log, idx: nat, io: bool, ioAnswer: IoAnswer, pollAnswer: PollAnswer): (t: Turned)
    requires idx < |tasks|
    ensures |t.tasks| == |tasks|
  {
    var e := tasks[idx];
    if io || e.eof then Turned(tasks[idx := Polled(e, pollAnswer)], log, NextTask, io)
    else if e.error then Turned(tasks, log, Stop, io)
    else
      Turned(tasks[idx := After(e, ioAnswer)], log + [Gave(e.id)] + Reports(e.id, ioAnswer),
             if ioAnswer == Failed then Stop else NextTask, ioAnswer == NotReady)
  }

  function Looped(tasks: seq<Entry>, log: Log, script: seq<nat>, idx: nat, io: bool): (r: Turns)
    requires idx <= |tasks|
    ensures |r.tasks| == |tasks|
    decreases |tasks| - idx
  {
    if idx == |tasks| then Turns(tasks, log, script, false)
    else
      var a := Chosen(script, 4);
      var b := Chosen(a.rest, 3);
      var t := Visited(tasks, log, idx, io, IoAnswerOf(a.k), PollAnswerOf(b.k));
      if t.v == Stop then Turns(t.tasks, t.log, b.rest, true)
      else if t.io && !io then
        var readFirst := Chosen(b.rest, 2);
        if readFirst.k == 1 then Turns(t.tasks, t.log, readFirst.rest, true)
        else Looped(t.tasks, t.log, readFirst.rest, idx + 1, t.io)
      else Looped(t.tasks, t.log, b.rest, idx + 1, t.io)
  }

  /** The queue without the tasks at its front that are over. */
  datatype Rest = Rest(tasks: seq<Entry>, log: Log)

  function Cleaned(tasks: seq<Entry>, log: Log): (r: Rest)
    ensures |r.tasks| <= |tasks|
  {
    if tasks != [] && tasks[0].eof && tasks[0].finished then Cleaned(tasks[1..], log + [Left(tasks[0].id)])
    else Rest(tasks, log)
  }

  /** Everything that a poll changes. */
  datatype State = State(tasks: seq<Entry>, nextId: nat, error: bool, log: Log, script: seq<nat>)

  function Polling(st: State): (st': State)
    decreases |st.tasks|
  {
    var needRead := st.error || |st.tasks| >= MAX_PIPELINED_MESSAGES;
    var q := Reading(Queue(st.tasks, st.nextId, st.error, st.script));
    var t := Looped(q.tasks, st.log, q.script, 0, false);
    if t.stopped then State(t.tasks, q.nextId, q.error, t.log, t.script)
    else
      var r := Cleaned(t.tasks, t.log);
      var after := State(r.tasks, q.nextId, q.error, r.log, t.script);
      if needRead && |r.tasks| < |t.tasks| then Polling(after) else after
  }

  // ---- The scheduler's objects ----

  /** Everything that is not under the scheduler's control, as a stream of
      choices. */
  class Environment {
    var script: seq<nat>

    constructor (script: seq<nat>)
      ensures this.script == script
    {
      this.script := script;
    }

    method Choose(n: nat) returns (k: nat)
      requires n > 0
      modifies this
      ensures Choice(k, script) == Chosen(old(script), n)
    {
      k := 0;
      if |script| > 0 {
        k := script[0] % n;
        script := script[1..];
      }
    }

    method Decide() returns (b: bool)
      modifies this
      ensures Choice(if b then 1 else 0, script) == Chosen(old(script), 2)
    {
      var k := Choose(2);
      b := k == 1;
    }
  }

  const MAX_PIPELINED_MESSAGES: nat := 16

  class Http1 {
    var tasks: seq<Entry>
    var nextId: nat
    var error: bool
    const env: Environment
    ghost var log: Log

    constructor (env: Environment)
      ensures Valid() && this.env == env && tasks == [] && log == [] && nextId == 0 && !error
    {
      this.env := env;
      tasks, nextId, error, log := [], 0, false, [];
    }

    ghost predicate Valid()
      reads this
    {
      Orderly(log) && Consistent(tasks, Summed(log), nextId)
    }

    ghost function Now(): (st: State)
      reads this, env
    {
      State(tasks, nextId, error, log, env.script)
    }

    /** A new request. */
    method Arrive()
      requires Valid()
      modifies this
      ensures Valid() && log == old(log) && error == old(error) && nextId == old(nextId) + 1
      ensures tasks == old(tasks) + [Entry(old(nextId), false, false, false)]
    {
      FitsPush(tasks, Summed(log).done, Summed(log).left, Entry(nextId, false, false, false));
      tasks := tasks + [Entry(nextId, false, false, false)];
      nextId := nextId + 1;
    }

    method Record(h: Happening)
      requires Orderly(log) && InOrder(Summed(log), h)
      modifies this`log
      ensures log == old(log) + [h] && Orderly(log) && Summed(log) == Sum(Summed(old(log)), h)
    {
      OrderlyPush(log, h);
      log := log + [h];
    }

    /** The first task that may still write is given the writer. */
    method GiveWriter(idx: nat, answer: IoAnswer) returns (v: Visit, io: bool)
      requires Valid() && idx < |tasks| && AnsweredBefore(tasks, Summed(log), idx)
      requires !tasks[idx].eof && !tasks[idx].error
      modifies this`tasks, this`log
      ensures Valid()
      ensures v == if answer == Failed then Stop else NextTask
      ensures io <==> answer == NotReady
      ensures log == old(log) + [Gave(old(tasks)[idx].id)] + Reports(old(tasks)[idx].id, answer)
      ensures tasks == old(tasks)[idx := After(old(tasks)[idx], answer)]
      ensures AnsweredBefore(tasks, Summed(log), if answer.Ready? then idx + 1 else idx)
    {
      EarlierAnswered(tasks, Summed(log), nextId, idx);
      ConsistentAfter(tasks, Summed(log), nextId, idx, answer);
      Record(Gave(tasks[idx].id));
      v, io := Settle(idx, answer);
    }

    /** Takes note of what the task answered. */
    method Settle(idx: nat, answer: IoAnswer) returns (v: Visit, io: bool)
      requires idx < |tasks| && !tasks[idx].eof && Orderly(log) && Summed(log).holder == Task(tasks[idx].id)
      modifies this`tasks, this`log
      ensures v == if answer == Failed then Stop else NextTask
      ensures io <==> answer == NotReady
      ensures log == old(log) + Reports(old(tasks)[idx].id, answer) && Orderly(log)
      ensures Summed(log) == SumReports(Summed(old(log)), old(tasks)[idx].id, answer)
      ensures tasks == old(tasks)[idx := After(old(tasks)[idx], answer)]
    {
      v, io := NextTask, false;
      match answer {
        case Ready(done) => Report(idx, done);
        case NotReady => io := true;
        case Failed =>
          tasks := tasks[idx := tasks[idx].(error := true)];
          v := Stop;
      }
    }

    method Report(idx: nat, done: bool)
      requires idx < |tasks| && !tasks[idx].eof && Orderly(log) && Summed(log).holder == Task(tasks[idx].id)
      modifies this`tasks, this`log
      ensures log == old(log) + [Said(old(tasks)[idx].id, done)]
      ensures Orderly(log) && Summed(log) == Sum(Summed(old(log)), Said(old(tasks)[idx].id, done))
      ensures tasks == old(tasks)[idx := After(old(tasks)[idx], Ready(done))]
    {
      var item := tasks[idx];
      Record(Said(item.id, done));
      if done {
        item := item.(finished := true, eof := true);
      } else {
        item := item.(finished := true);
      }
      tasks := tasks[idx := item];
    }

    /** One turn of the task loop: `io` says that some task before has kept the
        writer; then, or if its own response is over, a task is only polled. */
    method VisitTask(idx: nat, io: bool, ioAnswer: IoAnswer, pollAnswer: PollAnswer, ghost upto: nat)
      returns (v: Visit, io': bool)
      requires Valid() && upto <= idx < |tasks| && AnsweredBefore(tasks, Summed(log), upto) && (!io ==> upto == idx)
      modifies this`tasks, this`log
      ensures Valid() && |tasks| == |old(tasks)| && AnsweredBefore(tasks, Summed(log), upto)
      ensures v == NextTask && !io' ==> AnsweredBefore(tasks, Summed(log), idx + 1)
      ensures old(log) <= log
      ensures Turned(tasks, log, v, io') == Visited(old(tasks), old(log), idx, io, ioAnswer, pollAnswer)
    {
      var item := tasks[idx];
      if !io && !item.eof {
        if item.error {
          return Stop, io;
        }
        v, io' := GiveWriter(idx, ioAnswer);
      } else {
        v, io' := NextTask, io;
        PollTask(idx, pollAnswer, upto);
      }
    }

    /** A task is polled without the writer, unless it is finished. */
    method PollTask(idx: nat, answer: PollAnswer, ghost upto: nat)
      requires Valid() && upto <= idx < |tasks| && AnsweredBefore(tasks, Summed(log), upto)
      modifies this`tasks
      ensures Valid() && tasks == old(tasks)[idx := Polled(old(tasks)[idx], answer)]
      ensures AnsweredBefore(tasks, Summed(log), upto)
      ensures upto == idx && old(tasks)[idx].eof ==> AnsweredBefore(tasks, Summed(log), idx + 1)
    {
      ConsistentPolled(tasks, Summed(log), nextId, idx, answer);
      var item := tasks[idx];
      if !item.finished {
        match answer {
          case Finished => tasks := tasks[idx := item.(finished := true)];
          case Waiting =>
          case Broken => tasks := tasks[idx := item.(error := true)];
        }
      }
    }

    method Leave()
      requires Valid() && tasks != [] && tasks[0].eof
      modifies this`tasks, this`log
      ensures Valid() && tasks == old(tasks)[1..] && log == old(log) + [Left(old(tasks)[0].id)]
    {
      ConsistentWithout(tasks, Summed(log), nextId);
      Record(Left(tasks[0].id));
      tasks := tasks[1..];
    }

    /** The first task leaves if it is over. */
    method LeaveIfOver() returns (over: bool)
      requires Valid() && tasks != []
      modifies this`tasks, this`log
      ensures Valid() && old(log) <= log && over == old(tasks)[0].eof && (over ==> old(tasks)[0].finished)
      ensures tasks == if over then old(tasks)[1..] else old(tasks)
      ensures log == if over then old(log) + [Left(old(tasks)[0].id)] else old(log)
    {
      over := tasks[0].eof && tasks[0].finished;
      if over {
        Leave();
      }
    }

    /** The tasks at the front that are over leave. */
    method Cleanup() returns (popped: bool)
      requires Valid()
      modifies this`tasks, this`log
      ensures Valid() && old(log) <= log
      ensures |tasks| <= |old(tasks)| && tasks == old(tasks)[|old(tasks)| - |tasks|..]
      ensures popped <==> |tasks| < |old(tasks)|
      ensures tasks != [] ==> !tasks[0].eof
      ensures Rest(tasks, log) == Cleaned(old(tasks), old(log))
    {
      popped := false;
      while |tasks| > 0
        invariant Valid() && old(log) <= log
        invariant |tasks| <= |old(tasks)| && tasks == old(tasks)[|old(tasks)| - |tasks|..]
        invariant popped <==> |tasks| < |old(tasks)|
        invariant Cleaned(old(tasks), old(log)) == Cleaned(tasks, log)
        decreases |tasks|
      {
        TailOfTail(old(tasks), |old(tasks)| - |tasks|);
        var over := LeaveIfOver();
        if over {
          popped := true;
        } else {
          break;
        }
      }
    }

    /** One turn of the task loop, with the choices that it takes. */
    method Turn(idx: nat, io: bool, ghost upto: nat) returns (stop: bool, io': bool)
      requires Valid() && upto <= idx < |tasks| && AnsweredBefore(tasks, Summed(log), upto)
      requires if io then upto < idx && HeldBy(log, tasks[upto].id) else upto == idx
      modifies this`tasks, this`log, env
      ensures Valid() && |tasks| == |old(tasks)| && old(log) <= log && AnsweredBefore(tasks, Summed(log), upto)
      ensures Looped(old(tasks), old(log), old(env.script), idx, io)
           == if stop then Turns(tasks, log, env.script, true) else Looped(tasks, log, env.script, idx + 1, io')
      ensures !stop && !io' ==> !io && AnsweredBefore(tasks, Summed(log), idx + 1)
      ensures !stop && io' ==> HeldBy(log, tasks[upto].id) && (!io ==> |old(log)| < |log|)
    {
      var a := env.Choose(4);
      var b := env.Choose(3);
      var v;
      v, io' := VisitTask(idx, io, IoAnswerOf(a), PollAnswerOf(b), upto);
      stop := v == Stop;
      if !stop && io' && !io {
        // the payload may want to be read first
        stop := env.Decide();
      }
    }

    /** The task loop is at `idx`, and the rest of it makes `all`; `before` happenings
        were there when it began. */
    ghost predicate Midway(all: Turns, before: nat, idx: nat, io: bool, stopped: bool, upto: nat)
      reads this, env
    {
      && Valid() && upto <= idx <= |tasks| && before <= |log| && AnsweredBefore(tasks, Summed(log), upto)
      && all == (if stopped then Turns(tasks, log, env.script, true) else Looped(tasks, log, env.script, idx, io))
      && (!stopped ==> if io then upto < idx && before < |log| && HeldBy(log, tasks[upto].id) else upto == idx)
    }

    method Advance(ghost all: Turns, ghost before: nat, idx: nat, io: bool, ghost upto: nat)
      returns (stopped: bool, io': bool, ghost upto': nat)
      requires Midway(all, before, idx, io, false, upto) && idx < |tasks|
      modifies this`tasks, this`log, env
      ensures Midway(all, before, idx + 1, io', stopped, upto') && |tasks| == |old(tasks)| && old(log) <= log
    {
      stopped, io' := Turn(idx, io, upto);
      upto' := if !stopped && !io' then idx + 1 else upto;
    }

    /** The task loop: every task in turn. Unless it stops early, all tasks before
        `upto` have reported, and the one at `upto`, if there is one, has been
        given the writer and keeps it. */
    method RunTasks() returns (stopped: bool, ghost upto: nat)
      requires Valid()
      modifies this`tasks, this`log, env
      ensures Valid() && |tasks| == |old(tasks)| && old(log) <= log
      ensures Turns(tasks, log, env.script, stopped) == Looped(old(tasks), old(log), old(env.script), 0, false)
      ensures !stopped ==> upto <= |tasks| && AnsweredBefore(tasks, Summed(log), upto)
      ensures !stopped && upto < |tasks| ==> |old(log)| < |log| && HeldBy(log, tasks[upto].id)
    {
      ghost var all := Looped(tasks, log, env.script, 0, false);
      var io, idx := false, 0;
      stopped, upto := false, 0;
      while idx < |tasks| && !stopped
        invariant Midway(all, |old(log)|, idx, io, stopped, upto)
        invariant |tasks| == |old(tasks)| && old(log) <= log
        decreases |tasks| - idx
      {
        stopped, io, upto := Advance(all, |old(log)|, idx, io, upto);
        idx := idx + 1;
      }
    }

    /** New requests, unless reading has failed or too many wait already; on a
        broken request with nothing to answer an error response is queued. */
    method ReadRequests() returns (needRead: bool)
      requires Valid()
      modifies this, env
      ensures Valid() && log == old(log) && old(tasks) <= tasks
      ensures needRead <==> old(error) || |old(tasks)| >= MAX_PIPELINED_MESSAGES
      ensures Queue(tasks, nextId, error, env.script) == Reading(Queue(old(tasks), old(nextId), old(error), old(env.script)))
    {
      if error || |tasks| >= MAX_PIPELINED_MESSAGES {
        return true;
      }
      var more := env.Decide();
      while more
        invariant Valid() && log == old(log) && old(tasks) <= tasks && error == old(error)
        invariant var q := Queue(tasks, nextId, error, env.script);
                  Arrivals(Queue(old(tasks), old(nextId), old(error), old(env.script)))
                  == if more then Arrivals(Enqueued(q)) else q
        decreases |env.script|, more
      {
        Arrive();
        more := env.Decide();
      }
      var broken := env.Decide();
      if broken {
        error := true;
        var respond := env.Decide();
        if |tasks| == 0 && respond {
          Arrive();
        }
      }
      return false;
    }

    /** One poll of the connection, up to the flush. When tasks have left a full
        queue, it starts over to read on. */
    method PollIo()
      requires Valid()
      modifies this, env
      ensures Valid() && old(log) <= log
      ensures Now() == Polling(old(Now()))
      decreases |tasks|
    {
      var needRead := ReadRequests();
      var stopped;
      ghost var upto;
      stopped, upto := RunTasks();
      if stopped {
        return;
      }
      var popped := Cleanup();
      if needRead && popped {
        PollIo();
      }
    }
  }

  /** Any run of the connection: a task is given the writer only after every task
      before it has reported, and tasks leave in the order of their arrival, each
      after reporting done. */
  method Serve(conn: Http1, polls: nat)
    requires conn.Valid()
    modifies conn, conn.env
    ensures conn.Valid() && Orderly(conn.log)
    ensures Monotone(conn.log) <==> !GoesBack(conn.log)
  {
    var i := 0;
    while i < polls
      invariant conn.Valid()
    {
      conn.PollIo();
      i := i + 1;
    }
    MonotoneIff(conn.log);
  }

  const FIRST: Entry := Entry(0, false, false, false)
  const SECOND: Entry := Entry(1, false, false, false)

  lemma TwoArrive(later: seq<nat>)
    ensures Reading(Queue([], 0, false, [1, 1, 0, 0] + later)) == Queue([FIRST, SECOND], 2, false, later)
  {
    var one, two := Queue([FIRST], 1, false, [1, 0, 0] + later), Queue([FIRST, SECOND], 2, false, [0, 0] + later);
    assert ([1, 1, 0, 0] + later)[1..] == [1, 0, 0] + later && ([1, 0, 0] + later)[1..] == [0, 0] + later;
    assert ([0, 0] + later)[1..] == [0] + later && ([0] + later)[1..] == later;
    assert Enqueued(Queue([], 0, false, [1, 0, 0] + later)) == one;
    assert Enqueued(one.(script := [0, 0] + later)) == two;
    assert Arrivals(two) == two.(script := [0] + later);
    assert Arrivals(one) == Arrivals(two);
    assert Arrivals(Queue([], 0, false, [1, 1, 0, 0] + later)) == Arrivals(one);
  }

  lemma OneGoesOn(later: seq<nat>)
    ensures Looped([FIRST, SECOND], [], [2, 0, 0, 0, 0] + later, 0, false)
         == Turns([FIRST.(finished := true), SECOND], [Gave(0), Said(0, false), Gave(1)], later, false)
  {
    var on, script := FIRST.(finished := true), [2, 0, 0, 0, 0] + later;
    var log := [Gave(0), Said(0, false)];
    assert script[1..][1..] == [0, 0, 0] + later && ([0, 0, 0] + later)[1..][1..] == [0] + later && ([0] + later)[1..] == later;
    assert Visited([FIRST, SECOND], [], 0, false, Ready(false), Waiting) == Turned([on, SECOND], log, NextTask, false);
    assert Looped([FIRST, SECOND], [], script, 0, false) == Looped([on, SECOND], log, [0, 0, 0] + later, 1, false);
    assert Visited([on, SECOND], log, 1, false, NotReady, Waiting) == Turned([on, SECOND], log + [Gave(1)], NextTask, true);
    assert Looped([on, SECOND], log, [0, 0, 0] + later, 1, false) == Looped([on, SECOND], log + [Gave(1)], later, 2, true);
  }

  lemma OneIsBack(log: Log)
    ensures Looped([FIRST.(finished := true), SECOND], log, [1], 0, false)
         == Turns([FIRST.(finished := true, eof := true), SECOND], log + [Gave(0), Said(0, true), Gave(1)], [], false)
  {
    var tasks, over := [FIRST.(finished := true), SECOND], [FIRST.(finished := true, eof := true), SECOND];
    var more := log + [Gave(0), Said(0, true)];
    assert more == log + [Gave(0)] + [Said(0, true)] && more + [Gave(1)] == log + [Gave(0), Said(0, true), Gave(1)];
    assert Visited(tasks, log, 0, false, Ready(true), Waiting) == Turned(over, more, NextTask, false);
    assert Looped(tasks, log, [1], 0, false) == Looped(over, more, [], 1, false);
    assert Visited(over, more, 1, false, NotReady, Waiting) == Turned(over, more + [Gave(1)], NextTask, true);
    assert Looped(over, more, [], 1, false) == Looped(over, more + [Gave(1)], [], 2, true);
  }

  lemma FirstPoll(st: State, later: seq<nat>)
    requires st == State([], 0, false, [], [1, 1, 0, 0] + ([2, 0, 0, 0, 0] + later))
    ensures Polling(st) == State([FIRST.(finished := true), SECOND], 2, false, [Gave(0), Said(0, false), Gave(1)], later)
  {
    TwoArrive([2, 0, 0, 0, 0] + later);
    OneGoesOn(later);
  }

  lemma SecondPoll(st: State)
    requires st.tasks == [FIRST.(finished := true), SECOND] && !st.error && st.script == [0, 0, 1]
    ensures Polling(st).log == st.log + [Gave(0), Said(0, true), Gave(1)] + [Left(0)]
  {
    var q := Queue(st.tasks, st.nextId, false, [0, 0, 1]);
    assert Arrivals(q) == q.(script := [0, 1]);
    assert Reading(q) == q.(script := [1]);
    OneIsBack(st.log);
    var over, log := [FIRST.(finished := true, eof := true), SECOND], st.log + [Gave(0), Said(0, true), Gave(1)];
    assert over[1..] == [SECOND];
    assert Cleaned([SECOND], log + [Left(0)]) == Rest([SECOND], log + [Left(0)]);
  }

  /** The writer does go back: two requests arrive, the first task reports its
      response done but goes on itself, the second keeps the writer; at the next
      poll the first one is given it again, and its second report comes while the
      second response is under way. */
  method WriterGoesBack() returns (conn: Http1)
    ensures conn.Valid() && !Monotone(conn.log) && Interrupts(conn.log)
  {
    var env := new Environment([1, 1, 0, 0, 2, 0, 0, 0, 0, 0, 0, 1]);
    conn := new Http1(env);
    assert [1, 1, 0, 0] + ([2, 0, 0, 0, 0] + [0, 0, 1]) == [1, 1, 0, 0, 2, 0, 0, 0, 0, 0, 0, 1];
    FirstPoll(conn.Now(), [0, 0, 1]);
    conn.PollIo();
    ghost var log := conn.log;
    SecondPoll(conn.Now());
    conn.PollIo();
    BackInLog(log, conn.log);
  }

  lemma BackInLog(log: Log, log': Log)
    requires log == [Gave(0), Said(0, false), Gave(1)] && log' == log + [Gave(0), Said(0, true), Gave(1)] + [Left(0)]
    ensures !Monotone(log') && Interrupts(log')
  {
    assert log'[2] == Gave(1) && log'[3] == Gave(0) && log'[4] == Said(0, true);
    var front := log'[..4];
    assert front == [Gave(0), Said(0, false), Gave(1), Gave(0)];
    assert front[..3] == log && log[..2] == [Gave(0), Said(0, false)] && log[..2][..1] == [Gave(0)] && [Gave(0)][..0] == [];
    assert Summed([Gave(0)]).answered == {};
    assert Summed(log[..2]).answered == {0};
    assert Summed(log).answered == {0};
    assert Summed(front).answered == {0};
    assert CutsShort(log', 2, 4);
  }

  /** The queue holds the latest arrivals in order; all before it have left, and
      exactly the tasks marked EOF have reported done. */
  ghost predicate Consistent(tasks: seq<Entry>, s: Summary, nextId: nat) {
    && s.left + |tasks| == nextId
    && EntriesFit(tasks, s.done, s.left)
    && (forall id: nat | id < s.left :: id in s.done)
    && (forall id | id in s.done :: id < nextId)
    && s.done <= s.answered
  }

  ghost predicate EntryFits(e: Entry, done: set<nat>, id: nat) {
    e.id == id && (e.eof <==> id in done) && (e.eof ==> e.finished)
  }

  /** The entries have the numbers from `from` on. */
  ghost predicate EntriesFit(tasks: seq<Entry>, done: set<nat>, from: nat) {
    tasks == [] || (EntryFits(tasks[0], done, from) && EntriesFit(tasks[1..], done, from + 1))
  }

  lemma {:induction false} FitsAt(tasks: seq<Entry>, done: set<nat>, from: nat, i: nat)
    requires EntriesFit(tasks, done, from) && i < |tasks|
    ensures EntryFits(tasks[i], done, from + i)
  {
    if i > 0 {
      FitsAt(tasks[1..], done, from + 1, i - 1);
    }
  }

  lemma {:induction false} FitsPush(tasks: seq<Entry>, done: set<nat>, from: nat, e: Entry)
    requires EntriesFit(tasks, done, from) && EntryFits(e, done, from + |tasks|)
    ensures EntriesFit(tasks + [e], done, from)
  {
    if tasks != [] {
      FitsPush(tasks[1..], done, from + 1, e);
      assert (tasks + [e])[1..] == tasks[1..] + [e];
    } else {
      assert (tasks + [e])[1..] == [];
    }
  }

  lemma {:induction false} FitsSame(tasks: seq<Entry>, done: set<nat>, done': set<nat>, from: nat)
    requires EntriesFit(tasks, done, from)
    requires forall id | from <= id < from + |tasks| :: id in done <==> id in done'
    ensures EntriesFit(tasks, done', from)
  {
    if tasks != [] {
      FitsSame(tasks[1..], done, done', from + 1);
    }
  }

  lemma {:induction false} FitsUpdate(tasks: seq<Entry>, done: set<nat>, done': set<nat>, from: nat, idx: nat, e: Entry)
    requires EntriesFit(tasks, done, from) && idx < |tasks| && EntryFits(e, done', from + idx)
    requires forall id | from <= id < from + |tasks| && id != from + idx :: id in done <==> id in done'
    ensures EntriesFit(tasks[idx := e], done', from)
    decreases idx
  {
    var tasks' := tasks[idx := e];
    if idx == 0 {
      FitsSame(tasks[1..], done, done', from + 1);
      assert tasks'[1..] == tasks[1..];
    } else {
      FitsUpdate(tasks[1..], done, done', from + 1, idx - 1, e);
      assert tasks'[1..] == tasks[1..][idx - 1 := e];
    }
  }

  /** The task has just been given the writer. */
  ghost predicate HeldBy(log: Log, id: nat) {
    log != [] && log[|log| - 1] == Gave(id)
  }

  /** Every task before position `idx` has reported at least once. */
  ghost predicate AnsweredBefore(tasks: seq<Entry>, s: Summary, idx: nat)
    requires idx <= |tasks|
  {
    forall i | 0 <= i < idx :: tasks[i].id in s.answered
  }

  function After(e: Entry, answer: IoAnswer): Entry {
    match answer
    case Ready(done) => e.(finished := true, eof := done)
    case NotReady => e
    case Failed => e.(error := true)
  }

  function Polled(e: Entry, answer: PollAnswer): Entry {
    if e.finished then e
    else match answer
         case Finished => e.(finished := true)
         case Waiting => e
         case Broken => e.(error := true)
  }

  lemma ConsistentPolled(tasks: seq<Entry>, s: Summary, nextId: nat, idx: nat, answer: PollAnswer)
    requires Consistent(tasks, s, nextId) && idx < |tasks|
    ensures Consistent(tasks[idx := Polled(tasks[idx], answer)], s, nextId)
    ensures tasks[idx].eof ==> tasks[idx].id in s.answered
  {
    FitsAt(tasks, s.done, s.left, idx);
    FitsUpdate(tasks, s.done, s.done, s.left, idx, Polled(tasks[idx], answer));
  }

  /** What an answer adds to the log. */
  function Reports(id: nat, answer: IoAnswer): Log {
    if answer.Ready? then [Said(id, answer.done)] else []
  }

  function SumReports(s: Summary, id: nat, answer: IoAnswer): Summary {
    if answer.Ready? then Sum(s, Said(id, answer.done)) else s
  }

  lemma ConsistentAfter(tasks: seq<Entry>, s: Summary, nextId: nat, idx: nat, answer: IoAnswer)
    requires Consistent(tasks, s, nextId) && idx < |tasks| && !tasks[idx].eof
    ensures var id := tasks[idx].id;
            var s'' := SumReports(Sum(s, Gave(id)), id, answer);
            && Consistent(tasks[idx := After(tasks[idx], answer)], s'', nextId)
            && (AnsweredBefore(tasks, s, idx) ==>
                  AnsweredBefore(tasks[idx := After(tasks[idx], answer)], s'', if answer.Ready? then idx + 1 else idx))
  {
    var id := tasks[idx].id;
    var s'' := SumReports(Sum(s, Gave(id)), id, answer);
    FitsAt(tasks, s.done, s.left, idx);
    FitsUpdate(tasks, s.done, s''.done, s.left, idx, After(tasks[idx], answer));
  }

  lemma TailOfTail(tasks: seq<Entry>, k: nat)
    requires k < |tasks|
    ensures tasks[k..][1..] == tasks[k + 1..]
  {}

  lemma ConsistentWithout(tasks: seq<Entry>, s: Summary, nextId: nat)
    requires Consistent(tasks, s, nextId) && tasks != [] && tasks[0].eof
    ensures InOrder(s, Left(tasks[0].id)) && Consistent(tasks[1..], Sum(s, Left(tasks[0].id)), nextId)
  {
  }

  lemma EarlierAnswered(tasks: seq<Entry>, s: Summary, nextId: nat, idx: nat)
    requires Consistent(tasks, s, nextId) && idx < |tasks| && AnsweredBefore(tasks, s, idx)
    ensures forall earlier: nat | earlier < tasks[idx].id :: earlier in s.answered
    ensures tasks[idx].eof <==> tasks[idx].id in s.done
  {
    FitsAt(tasks, s.done, s.left, idx);
    forall earlier: nat | earlier < tasks[idx].id ensures earlier in s.answered {
      if earlier >= s.left {
        var i := earlier - s.left;
        FitsAt(tasks, s.done, s.left, i);
      }
    }
  }
}
