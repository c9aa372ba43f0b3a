/**
 * The life of child processes: `spawn`, `exec` and `fork` queue a body, `kill`
 * may come at any time, and 'exit' and 'close' are emitted from microtasks.
 * Emitting 'error' with no listener throws: a body whose command or module
 * throws then ends before it settles the child.
 */
module ChildProcess {
  import opened Words

  /** `exec` has a callback; a forked module has no output streams and no exit code of its own. */
  datatype Kind = Spawned | Executed | Forked

  /** `heard`: an 'error' listener is registered. */
  datatype Child = Child(kind: Kind, heard: bool, exited: bool, killed: bool, cancelled: bool,
                         exitCode: Option<int>, signalCode: Option<string>)

  datatype Entry = Entry(exitCode: Option<int>, signal: Option<string>, settled: bool)

  datatype Task =
    | Body(pid: nat)
    | Exit(pid: nat, code: Option<int>, signal: Option<string>)
    | Close(pid: nat, code: Option<int>, signal: Option<string>)

  datatype Event =
    | Stdout(pid: nat, data: string)
    | Stderr(pid: nat, data: string)
    | Errored(pid: nat)
    | Callback(pid: nat, ok: bool)
    | StreamsEnd(pid: nat)
    | Exited(pid: nat, code: Option<int>, signal: Option<string>)
    | Closed(pid: nat, code: Option<int>, signal: Option<string>)

  /** What the command or module of a body does: it ends with a result or throws, and may be killed on the way. */
  datatype Outcome = Result(stdout: string, stderr: string, code: int) | Threw

  datatype Run = Run(outcome: Outcome, killedBy: Option<string>)

  /** One child with its table entry, and what an operation on it queues and emits. */
  datatype Local = Local(c: Child, e: Entry, tasks: seq<Task>, events: seq<Event>)

  const SIGTERM := "SIGTERM"

  // ---------- operations on one child ----------

  function Emit(l: Local, e: Event): Local {
    l.(events := l.events + [e])
  }

  function EmitText(l: Local, e: Event): Local
    requires e.Stdout? || e.Stderr?
  {
    if e.data == "" then l else Emit(l, e)
  }

  /** Only the first exit counts: it settles the table entry and queues the events. */
  function EmitExit(l: Local, pid: nat, code: Option<int>, signal: Option<string>): Local {
    if l.c.exited then l
    else
      l.(c := l.c.(exited := true, exitCode := code), e := Entry(code, signal, true),
         tasks := l.tasks + [Exit(pid, code, signal)])
  }

  function Kill(l: Local, pid: nat, signal: string): Local {
    if l.c.killed then l
    else
      var s := Some(if signal == "" then SIGTERM else signal);
      EmitExit(l.(c := l.c.(killed := true, cancelled := true, signalCode := s, exitCode := None)), pid, None, s)
  }

  /** The callback of `exec`. */
  function CallBack(l: Local, pid: nat, ok: bool): Local {
    if l.c.kind == Executed then Emit(l, Callback(pid, ok)) else l
  }

  /** The part of a body after the command or module has run. */
  function Finish(l: Local, pid: nat, outcome: Outcome): Local {
    if l.c.cancelled then l
    else
      match outcome
      case Threw => Fail(l, pid)
      case Result(out, err, code) =>
        if l.c.kind == Forked then EmitExit(l, pid, Some(0), None) else Deliver(l, pid, out, err, code)
  }

  /** Emitting the error throws if nobody listens, and nothing after it happens. */
  function Fail(l: Local, pid: nat): Local {
    if !l.c.heard then l else CallBack(EmitExit(Emit(l, Errored(pid)), pid, Some(1), None), pid, false)
  }

  function Deliver(l: Local, pid: nat, out: string, err: string, code: int): Local {
    var shown := EmitText(EmitText(l, Stdout(pid, out)), Stderr(pid, err));
    CallBack(EmitExit(shown, pid, Some(code), None), pid, code == 0)
  }

  function RunBody(l: Local, pid: nat, run: Run): Local {
    if l.c.cancelled then l
    else Finish(if run.killedBy.Some? then Kill(l, pid, run.killedBy.value) else l, pid, run.outcome)
  }

  function RunTask(l: Local, t: Task, run: Run): Local {
    match t
    case Body(pid) => RunBody(l, pid, run)
    case Exit(pid, code, signal) =>
      Emit(Emit(l, StreamsEnd(pid)), Exited(pid, code, signal)).(tasks := l.tasks + [Close(pid, code, signal)])
    case Close(pid, code, signal) => Emit(l, Closed(pid, code, signal))
  }

  // ---------- all children ----------

  datatype World = World(children: map<nat, Child>, table: map<nat, Entry>, queue: seq<Task>, log: seq<Event>, nextPid: nat)

  function Look(w: World, pid: nat): Local
    requires pid in w.children && pid in w.table
  {
    Local(w.children[pid], w.table[pid], [], [])
  }

  function Put(w: World, pid: nat, l: Local): World {
    w.(children := w.children[pid := l.c], table := w.table[pid := l.e], queue := w.queue + l.tasks, log := w.log + l.events)
  }

  /** The same child with nothing queued or emitted yet. */
  function Fresh(l: Local): Local {
    l.(tasks := [], events := [])
  }

  /** What `m` did comes after what `l` did. */
  function After(l: Local, m: Local): Local {
    m.(tasks := l.tasks + m.tasks, events := l.events + m.events)
  }

  lemma PutPut(w: World, pid: nat, l: Local, m: Local)
    ensures Put(Put(w, pid, l), pid, m) == Put(w, pid, After(l, m))
  {
    assert w.queue + l.tasks + m.tasks == w.queue + (l.tasks + m.tasks);
    assert w.log + l.events + m.events == w.log + (l.events + m.events);
  }

  lemma FinishExtends(l: Local, pid: nat, outcome: Outcome)
    ensures Finish(l, pid, outcome) == After(l, Finish(Fresh(l), pid, outcome))
  {
    hide EmitText, EmitExit, CallBack;
    match outcome
    case Threw =>
      FailExtends(l, pid);
    case Result(out, err, code) =>
      ExitExtends(l, pid, Some(0));
      DeliverExtends(l, pid, out, err, code);
  }

  lemma FailExtends(l: Local, pid: nat)
    ensures Fail(l, pid) == After(l, Fail(Fresh(l), pid))
  {
    hide EmitText, EmitExit, CallBack;
    if l.c.heard {
      var f := Emit(Fresh(l), Errored(pid));
      ExitExtends(Emit(l, Errored(pid)), pid, Some(1));
      ExitExtends(f, pid, Some(1));
      CallExtends(EmitExit(Emit(l, Errored(pid)), pid, Some(1), None), pid, false);
      CallExtends(EmitExit(f, pid, Some(1), None), pid, false);
    }
  }

  lemma DeliverExtends(l: Local, pid: nat, out: string, err: string, code: int)
    ensures Deliver(l, pid, out, err, code) == After(l, Deliver(Fresh(l), pid, out, err, code))
  {
    hide EmitText, EmitExit, CallBack;
    var x, f := EmitText(l, Stdout(pid, out)), EmitText(Fresh(l), Stdout(pid, out));
    TextExtends(l, Stdout(pid, out));
    var y, g := EmitText(x, Stderr(pid, err)), EmitText(f, Stderr(pid, err));
    TextExtends(x, Stderr(pid, err));
    TextExtends(f, Stderr(pid, err));
    ExitExtends(y, pid, Some(code));
    ExitExtends(g, pid, Some(code));
    CallExtends(EmitExit(y, pid, Some(code), None), pid, code == 0);
    CallExtends(EmitExit(g, pid, Some(code), None), pid, code == 0);
  }

  lemma ExitExtends(l: Local, pid: nat, code: Option<int>)
    ensures EmitExit(l, pid, code, None) == After(l, EmitExit(Fresh(l), pid, code, None))
  {
  }

  lemma CallExtends(l: Local, pid: nat, ok: bool)
    ensures CallBack(l, pid, ok) == After(l, CallBack(Fresh(l), pid, ok))
  {
  }

  lemma TextExtends(l: Local, e: Event)
    requires e.Stdout? || e.Stderr?
    ensures EmitText(l, e) == After(l, EmitText(Fresh(l), e))
  {
  }

  datatype Action =
    | SpawnAct(kind: Kind)
    | ListenAct(pid: nat, on: bool)
    | KillAct(pid: nat, signal: string)
    | TickAct(run: Run)

  predicate Usable(w: World) {
    && w.children.Keys == w.table.Keys
    && forall k :: 0 <= k < |w.queue| ==> w.queue[k].pid in w.children
  }

  /** `on`, `off` and `kill` need a child to be called on. */
  predicate Allowed(w: World, a: Action) {
    a.KillAct? || a.ListenAct? ==> a.pid in w.children
  }

  /** A new child, nobody listening yet. */
  function Born(kind: Kind, pid: nat): Local {
    Local(Child(kind, false, false, false, false, None, None), Entry(None, None, false), [Body(pid)], [])
  }

  function Start(w: World, kind: Kind): World {
    Put(w, w.nextPid, Born(kind, w.nextPid)).(nextPid := w.nextPid + 1)
  }

  /** The user adds the first or removes the last 'error' listener. */
  function Listen(l: Local, on: bool): Local {
    l.(c := l.c.(heard := on))
  }

  /** The next microtask, if any, runs. */
  function Tick(w: World, run: Run): World
    requires Usable(w)
  {
    if w.queue == [] then w
    else
      var t := w.queue[0];
      Put(w.(queue := w.queue[1..]), t.pid, RunTask(Look(w, t.pid), t, run))
  }

  function Apply(w: World, a: Action): World
    requires Usable(w) && Allowed(w, a)
  {
    match a
    case SpawnAct(kind) => Start(w, kind)
    case ListenAct(pid, on) => Put(w, pid, Listen(Look(w, pid), on))
    case KillAct(pid, signal) => Put(w, pid, Kill(Look(w, pid), pid, signal))
    case TickAct(run) => Tick(w, run)
  }

  const START := World(map[], map[], [], [], 1000)

  // ---------- the code ----------

  /** The process table, the microtask queue and the children's fields. */
  class ProcessHost {
    var children: map<nat, Child>
    var processTable: map<nat, Entry>
    var microtasks: seq<Task>
    var events: seq<Event>
    var pidCounter: nat

    ghost function View(): World
      reads this
    {
      World(children, processTable, microtasks, events, pidCounter)
    }

    constructor ()
      ensures View() == START
    {
      children, processTable, microtasks, events, pidCounter := map[], map[], [], [], 1000;
    }

    method NewChild(kind: Kind) returns (pid: nat)
      modifies this
      ensures View() == Start(old(View()), kind) && pid == old(pidCounter)
    {
      pid := pidCounter;
      pidCounter := pidCounter + 1;
      children := children[pid := Child(kind, false, false, false, false, None, None)];
      processTable := processTable[pid := Entry(None, None, false)];
      microtasks := microtasks + [Body(pid)];
    }

    method SetListener(pid: nat, on: bool)
      requires pid in children && pid in processTable
      modifies this`children
      ensures children == old(children)[pid := old(children)[pid].(heard := on)]
      ensures View() == Put(old(View()), pid, Listen(Look(old(View()), pid), on))
    {
      children := children[pid := children[pid].(heard := on)];
    }

    method ExitOnce(pid: nat, code: Option<int>, signal: Option<string>)
      requires pid in children && pid in processTable
      modifies this
      ensures View() == Put(old(View()), pid, EmitExit(Look(old(View()), pid), pid, code, signal))
    {
      if children[pid].exited {
        return;
      }
      children := children[pid := children[pid].(exited := true, exitCode := code)];
      processTable := processTable[pid := Entry(code, signal, true)];
      microtasks := microtasks + [Exit(pid, code, signal)];
    }

    method KillChild(pid: nat, signal: string)
      requires pid in children && pid in processTable
      modifies this
      ensures View() == Put(old(View()), pid, Kill(Look(old(View()), pid), pid, signal))
    {
      hide EmitExit;
      if children[pid].killed {
        return;
      }
      var s := Some(if signal == "" then SIGTERM else signal);
      children := children[pid := children[pid].(killed := true)];
      children := children[pid := children[pid].(cancelled := true)];
      children := children[pid := children[pid].(signalCode := s, exitCode := None)];
      ExitOnce(pid, None, s);
    }

    method Log(e: Event)
      modifies this`events
      ensures events == old(events) + [e]
    {
      events := events + [e];
    }

    /** The queued bodies of `spawn`, `exec` and `fork`. */
    method ExecuteBody(pid: nat, run: Run)
      requires pid in children && pid in processTable
      modifies this
      ensures View() == Put(old(View()), pid, RunBody(Look(old(View()), pid), pid, run))
    {
      hide Kill, Finish;
      ghost var was := View();
      if children[pid].cancelled {
        return;
      }
      match run.killedBy {
        case Some(s) => KillChild(pid, s);
        case None =>
      }
      ghost var l := if run.killedBy.Some? then Kill(Look(was, pid), pid, run.killedBy.value) else Look(was, pid);
      assert View() == Put(was, pid, l);
      FinishBody(pid, run.outcome);
      FinishExtends(l, pid, run.outcome);
      PutPut(was, pid, l, Finish(Fresh(l), pid, run.outcome));
    }

    /** What comes after the command or module has run. */
    method FinishBody(pid: nat, outcome: Outcome)
      requires pid in children && pid in processTable
      modifies this
      ensures View() == Put(old(View()), pid, Finish(Look(old(View()), pid), pid, outcome))
    {
      if children[pid].cancelled {
        return;
      }
      hide Fail, Deliver;
      match outcome
      case Threw =>
        Caught(pid);
      case Result(out, err, code) =>
        if children[pid].kind == Forked {
          if !children[pid].exited {
            ExitOnce(pid, Some(0), None);
          }
        } else {
          Output(pid, out, err, code);
        }
    }

    method Caught(pid: nat)
      requires pid in children && pid in processTable
      modifies this
      ensures View() == Put(old(View()), pid, Fail(Look(old(View()), pid), pid))
    {
      if !children[pid].heard {
        return;
      }
      Log(Errored(pid));
      ExitOnce(pid, Some(1), None);
      if children[pid].kind == Executed {
        Log(Callback(pid, false));
      }
    }

    method Output(pid: nat, out: string, err: string, code: int)
      requires pid in children && pid in processTable
      modifies this
      ensures View() == Put(old(View()), pid, Deliver(Look(old(View()), pid), pid, out, err, code))
    {
      if out != "" {
        Log(Stdout(pid, out));
      }
      if err != "" {
        Log(Stderr(pid, err));
      }
      ExitOnce(pid, Some(code), None);
      if children[pid].kind == Executed {
        Log(Callback(pid, code == 0));
      }
    }

    /** The event loop takes one microtask. */
    method RunMicrotask(run: Run)
      requires Usable(View())
      modifies this
      ensures View() == Tick(old(View()), run)
    {
      if microtasks == [] {
        return;
      }
      var t := microtasks[0];
      microtasks := microtasks[1..];
      match t
      case Body(pid) =>
        ExecuteBody(pid, run);
      case Exit(pid, code, signal) =>
        Log(StreamsEnd(pid));
        Log(Exited(pid, code, signal));
        microtasks := microtasks + [Close(pid, code, signal)];
      case Close(pid, code, signal) =>
        Log(Closed(pid, code, signal));
    }
  }

  // ---------- one child's tasks and events ----------

  function TasksOf(queue: seq<Task>, pid: nat): seq<Task> {
    if queue == [] then []
    else (if queue[0].pid == pid then [queue[0]] else []) + TasksOf(queue[1..], pid)
  }

  function EventsOf(log: seq<Event>, pid: nat): seq<Event> {
    if log == [] then []
    else (if log[0].pid == pid then [log[0]] else []) + EventsOf(log[1..], pid)
  }

  predicate TasksFor(ts: seq<Task>, pid: nat) {
    forall k :: 0 <= k < |ts| ==> ts[k].pid == pid
  }

  predicate EventsFor(es: seq<Event>, pid: nat) {
    forall k :: 0 <= k < |es| ==> es[k].pid == pid
  }

  lemma TasksUnfold(es: seq<Task>, pid: nat)
    ensures TasksOf(es, pid) == if es == [] then [] else (if es[0].pid == pid then [es[0]] else []) + TasksOf(es[1..], pid)
  {
  }

  lemma {:induction false} TasksJoin(a: seq<Task>, b: seq<Task>, pid: nat)
    ensures TasksOf(a + b, pid) == TasksOf(a, pid) + TasksOf(b, pid)
  {
    hide TasksOf;
    TasksUnfold(a, pid);
    if a == [] {
      assert a + b == b;
    } else {
      TasksUnfold(a + b, pid);
      assert (a + b)[0] == a[0] && (a + b)[1..] == a[1..] + b;
      TasksJoin(a[1..], b, pid);
      var head := if a[0].pid == pid then [a[0]] else [];
      Associative(head, TasksOf(a[1..], pid), TasksOf(b, pid));
    }
  }

  lemma EventsUnfold(es: seq<Event>, pid: nat)
    ensures EventsOf(es, pid) == if es == [] then [] else (if es[0].pid == pid then [es[0]] else []) + EventsOf(es[1..], pid)
  {
  }

  lemma {:induction false} EventsJoin(a: seq<Event>, b: seq<Event>, pid: nat)
    ensures EventsOf(a + b, pid) == EventsOf(a, pid) + EventsOf(b, pid)
  {
    hide EventsOf;
    EventsUnfold(a, pid);
    if a == [] {
      assert a + b == b;
    } else {
      EventsUnfold(a + b, pid);
      assert (a + b)[0] == a[0] && (a + b)[1..] == a[1..] + b;
      EventsJoin(a[1..], b, pid);
      var head := if a[0].pid == pid then [a[0]] else [];
      Associative(head, EventsOf(a[1..], pid), EventsOf(b, pid));
    }
  }

  lemma {:induction false} TasksAllOrNone(ts: seq<Task>, p: nat, q: nat)
    requires TasksFor(ts, p)
    ensures TasksOf(ts, q) == if p == q then ts else []
  {
    if ts != [] {
      TasksAllOrNone(ts[1..], p, q);
    }
  }

  lemma {:induction false} EventsAllOrNone(es: seq<Event>, p: nat, q: nat)
    requires EventsFor(es, p)
    ensures EventsOf(es, q) == if p == q then es else []
  {
    if es != [] {
      EventsAllOrNone(es[1..], p, q);
    }
  }

  predicate IsData(e: Event) {
    e.Stdout? || e.Stderr? || e.Errored? || e.Callback?
  }

  predicate OnlyData(es: seq<Event>) {
    forall k :: 0 <= k < |es| ==> IsData(es[k])
  }

  // ---------- the invariant ----------

  /** `Lost`: the body threw and nobody listened; only a kill can still end such a child. */
  datatype Stage = Waiting | Condemned | Lost | Leaving | Closing | Gone

  /** The tasks a child has in the queue at a stage. */
  function Pending(stage: Stage, pid: nat, e: Entry): seq<Task> {
    match stage
    case Waiting => [Body(pid)]
    case Condemned => [Body(pid), Exit(pid, e.exitCode, e.signal)]
    case Leaving => [Exit(pid, e.exitCode, e.signal)]
    case Closing => [Close(pid, e.exitCode, e.signal)]
    case Lost => []
    case Gone => []
  }

  /** The events that end its story, after the data. */
  function Ending(stage: Stage, pid: nat, e: Entry): seq<Event> {
    var exit := [StreamsEnd(pid), Exited(pid, e.exitCode, e.signal)];
    match stage
    case Closing => exit
    case Gone => exit + [Closed(pid, e.exitCode, e.signal)]
    case _ => []
  }

  /** The flags, and the fields of the child against its table entry: a kill overwrites them even after the exit. */
  predicate Fields(stage: Stage, c: Child, e: Entry) {
    && c.exited == e.settled == (stage != Waiting && stage != Lost) && c.cancelled == c.killed
    && (stage == Waiting || stage == Lost ==> !c.killed) && (stage == Condemned ==> c.killed)
    && (c.killed ==> c.exitCode == None && c.signalCode.Some?)
    && (!c.killed ==> c.exitCode == e.exitCode && c.signalCode == None && e.signal == None)
    && (!e.settled ==> e == Entry(None, None, false))
    && (e.settled ==> (e.exitCode.Some? <==> e.signal.None?))
    && (e.signal.Some? ==> c.signalCode == e.signal)
  }

  /** One child's whole story: `data` is what it put out, in order. */
  predicate At(stage: Stage, pid: nat, c: Child, e: Entry, data: seq<Event>, tasks: seq<Task>, es: seq<Event>) {
    && Fields(stage, c, e) && tasks == Pending(stage, pid, e)
    && OnlyData(data) && (stage == Waiting || stage == Condemned || stage == Lost ==> data == [])
    && es == data + Ending(stage, pid, e)
  }

  ghost predicate ChildOk(w: World, pid: nat)
    requires pid in w.children && pid in w.table
  {
    exists stage, data ::
      At(stage, pid, w.children[pid], w.table[pid], data, TasksOf(w.queue, pid), EventsOf(w.log, pid))
  }

  ghost predicate Inv(w: World) {
    && Usable(w)
    && (forall pid :: pid in w.children ==> pid < w.nextPid && ChildOk(w, pid))
    && (forall pid :: pid !in w.children ==> TasksOf(w.queue, pid) == [] && EventsOf(w.log, pid) == [])
  }

  lemma {:induction false} HeadOf(queue: seq<Task>, pid: nat)
    requires queue != []
    ensures TasksOf(queue[1..], pid) ==
            if queue[0].pid == pid then TasksOf(queue, pid)[1..] else TasksOf(queue, pid)
    ensures queue[0].pid == pid ==> TasksOf(queue, pid) != [] && TasksOf(queue, pid)[0] == queue[0]
  {
  }

  /** An operation on one child leaves the story of the others alone. */
  lemma PutStory(w: World, p: nat, l: Local, q: nat)
    requires TasksFor(l.tasks, p) && EventsFor(l.events, p)
    ensures TasksOf(Put(w, p, l).queue, q) == TasksOf(w.queue, q) + if p == q then l.tasks else []
    ensures EventsOf(Put(w, p, l).log, q) == EventsOf(w.log, q) + if p == q then l.events else []
  {
    hide TasksOf, EventsOf;
    TasksJoin(w.queue, l.tasks, q);
    EventsJoin(w.log, l.events, q);
    TasksAllOrNone(l.tasks, p, q);
    EventsAllOrNone(l.events, p, q);
  }

  // ---------- what an operation does to the story ----------

  lemma KillStory(stage: Stage, pid: nat, c: Child, e: Entry, data: seq<Event>, tasks: seq<Task>, es: seq<Event>, signal: string)
    returns (next: Stage)
    requires At(stage, pid, c, e, data, tasks, es)
    ensures var l := Kill(Local(c, e, [], []), pid, signal);
            && TasksFor(l.tasks, pid) && l.events == [] && l.c.killed
            && At(next, pid, l.c, l.e, data, tasks + l.tasks, es)
            && (e.settled ==> l.e == e)
  {
    next := if stage == Waiting then Condemned else if stage == Lost then Leaving else stage;
    var l := Kill(Local(c, e, [], []), pid, signal);
    assert tasks + [] == tasks;
    assert [Body(pid)] + [Exit(pid, l.e.exitCode, l.e.signal)] == Pending(Condemned, pid, l.e);
    assert [] + [Exit(pid, l.e.exitCode, l.e.signal)] == Pending(Leaving, pid, l.e);
  }

  lemma BodyStory(stage: Stage, pid: nat, c: Child, e: Entry, data: seq<Event>, tasks: seq<Task>, es: seq<Event>, run: Run)
    returns (next: Stage, out: seq<Event>)
    requires At(stage, pid, c, e, data, tasks, es) && (stage == Waiting || stage == Condemned)
    ensures var l := RunBody(Local(c, e, [], []), pid, run);
            && TasksFor(l.tasks, pid) && EventsFor(l.events, pid)
            && At(next, pid, l.c, l.e, out, tasks[1..] + l.tasks, es + l.events)
            && (c.killed ==> out == [] && l.e == e && l.c == c)
  {
    var l := RunBody(Local(c, e, [], []), pid, run);
    out := l.events;
    next := if l.c.exited then Leaving else Lost;
    if stage == Waiting && run.killedBy.None? {
      FinishIs(Local(c, e, [], []), pid, run.outcome);
      hide Finish;
      assert out + [] == out && [] + out == out;
    }
    assert tasks[1..] + l.tasks == Pending(next, pid, l.e);
  }

  /** A body that is not killed: data, then the exit with a code; or nothing at all. */
  lemma FinishIs(l: Local, pid: nat, outcome: Outcome)
    requires !l.c.cancelled && !l.c.exited && l.tasks == [] && l.events == []
    ensures var r := Finish(l, pid, outcome);
            if outcome.Threw? && !l.c.heard then r == l
            else
              && r.e.exitCode.Some? && r.e == Entry(r.e.exitCode, None, true)
              && r.c == l.c.(exited := true, exitCode := r.e.exitCode)
              && r.tasks == [Exit(pid, r.e.exitCode, None)] && EventsFor(r.events, pid) && OnlyData(r.events)
  {
    if outcome.Result? {
      var Result(out, err, code) := outcome;
      DeliverIs(l, pid, out, err, code);
    }
    hide Deliver;
  }

  lemma ExitStory(pid: nat, c: Child, e: Entry, data: seq<Event>, tasks: seq<Task>, es: seq<Event>, run: Run)
    requires At(Leaving, pid, c, e, data, tasks, es)
    ensures var l := RunTask(Local(c, e, [], []), tasks[0], run);
            && TasksFor(l.tasks, pid) && EventsFor(l.events, pid) && l.c == c && l.e == e
            && At(Closing, pid, c, e, data, tasks[1..] + l.tasks, es + l.events)
  {
    var l := RunTask(Local(c, e, [], []), tasks[0], run);
    assert tasks[1..] + l.tasks == Pending(Closing, pid, e);
    assert l.events == Ending(Closing, pid, e);
    assert data + [] == data;
  }

  lemma CloseStory(pid: nat, c: Child, e: Entry, data: seq<Event>, tasks: seq<Task>, es: seq<Event>, run: Run)
    requires At(Closing, pid, c, e, data, tasks, es)
    ensures var l := RunTask(Local(c, e, [], []), tasks[0], run);
            && TasksFor(l.tasks, pid) && EventsFor(l.events, pid) && l.c == c && l.e == e
            && At(Gone, pid, c, e, data, tasks[1..] + l.tasks, es + l.events)
  {
    var l := RunTask(Local(c, e, [], []), tasks[0], run);
    assert tasks[1..] + l.tasks == [];
    assert data + Ending(Closing, pid, e) + l.events == data + Ending(Gone, pid, e);
  }

  // ---------- every step ----------

  /** The stage of a child, and its data, in a state of the invariant. */
  lemma StoryOf(w: World, pid: nat) returns (stage: Stage, data: seq<Event>)
    requires Inv(w) && pid in w.children
    ensures At(stage, pid, w.children[pid], w.table[pid], data, TasksOf(w.queue, pid), EventsOf(w.log, pid))
  {
    assert ChildOk(w, pid);
    stage, data :| At(stage, pid, w.children[pid], w.table[pid], data, TasksOf(w.queue, pid), EventsOf(w.log, pid));
  }

  /** What a step may do to a child: nothing a settled entry or a killed child's output would show. */
  ghost predicate Steady(w: World, x: World, pid: nat)
    requires pid in w.children && pid in w.table && pid in x.children && pid in x.table
  {
    && (w.table[pid].settled ==> x.table[pid] == w.table[pid])
    && (w.children[pid].killed ==> x.children[pid].killed && DataOf(EventsOf(x.log, pid)) == DataOf(EventsOf(w.log, pid)))
  }

  /** The data events of a story. */
  function DataOf(es: seq<Event>): seq<Event> {
    if es == [] then [] else (if IsData(es[0]) then [es[0]] else []) + DataOf(es[1..])
  }

  lemma DataUnfold(es: seq<Event>)
    ensures DataOf(es) == if es == [] then [] else (if IsData(es[0]) then [es[0]] else []) + DataOf(es[1..])
  {
  }

  lemma {:induction false} DataAppend(a: seq<Event>, b: seq<Event>)
    ensures DataOf(a + b) == DataOf(a) + DataOf(b)
  {
    hide DataOf;
    DataUnfold(a);
    if a == [] {
      assert a + b == b;
    } else {
      DataUnfold(a + b);
      assert (a + b)[0] == a[0] && (a + b)[1..] == a[1..] + b;
      DataAppend(a[1..], b);
      var head := if IsData(a[0]) then [a[0]] else [];
      Associative(head, DataOf(a[1..]), DataOf(b));
    }
  }

  lemma {:induction false} DataOnly(es: seq<Event>)
    requires OnlyData(es)
    ensures DataOf(es) == es
  {
    if es != [] {
      DataOnly(es[1..]);
    }
  }

  lemma DataIs(stage: Stage, pid: nat, c: Child, e: Entry, data: seq<Event>, tasks: seq<Task>, es: seq<Event>)
    requires At(stage, pid, c, e, data, tasks, es)
    ensures DataOf(es) == data
  {
    var end := Ending(stage, pid, e);
    DataAppend(data, end);
    DataOnly(data);
    EndingHasNoData(stage, pid, e);
    assert data + [] == data;
  }

  lemma EndingHasNoData(stage: Stage, pid: nat, e: Entry)
    ensures DataOf(Ending(stage, pid, e)) == []
  {
    if stage == Closing || stage == Gone {
      NoData(Ending(stage, pid, e));
    }
  }

  lemma {:induction false} NoData(es: seq<Event>)
    requires forall k :: 0 <= k < |es| ==> !IsData(es[k])
    ensures DataOf(es) == []
  {
    if es != [] {
      NoData(es[1..]);
    }
  }

  // ---------- steps ----------

  lemma StartInv(w: World, kind: Kind)
    requires Inv(w)
    ensures Inv(Start(w, kind))
    ensures forall pid :: pid in w.children ==> Steady(w, Start(w, kind), pid)
  {
    hide TasksOf, EventsOf, ChildOk, DataOf, At;
    var p := w.nextPid;
    var x := Start(w, kind);
    var born := Born(kind, p);
    forall q ensures TasksOf(x.queue, q) == TasksOf(w.queue, q) + if p == q then [Body(p)] else []
      ensures EventsOf(x.log, q) == EventsOf(w.log, q) {
      PutStory(w, p, born, q);
    }
    forall pid | pid in x.children ensures pid < x.nextPid && ChildOk(x, pid) {
      if pid == p {
        BornOk(x, p, kind);
      } else {
        SameStory(w, x, pid);
      }
    }
  }

  lemma BornOk(x: World, p: nat, kind: Kind)
    requires p in x.children && p in x.table
    requires x.children[p] == Born(kind, p).c && x.table[p] == Born(kind, p).e
    requires TasksOf(x.queue, p) == [Body(p)] && EventsOf(x.log, p) == []
    ensures ChildOk(x, p)
  {
    assert At(Waiting, p, x.children[p], x.table[p], [], TasksOf(x.queue, p), EventsOf(x.log, p));
  }

  /** A child an operation does not touch keeps its story. */
  lemma SameStory(w: World, x: World, pid: nat)
    requires Inv(w) && pid in w.children && pid in x.children && pid in x.table
    requires x.children[pid] == w.children[pid] && x.table[pid] == w.table[pid]
    requires TasksOf(x.queue, pid) == TasksOf(w.queue, pid) && EventsOf(x.log, pid) == EventsOf(w.log, pid)
    ensures ChildOk(x, pid)
  {
    hide TasksOf, EventsOf, At;
    var stage, data := StoryOf(w, pid);
    assert At(stage, pid, x.children[pid], x.table[pid], data, TasksOf(x.queue, pid), EventsOf(x.log, pid));
  }

  /** An operation on the child `p`, after `w` may have lost the first task of `p`. */
  lemma PutInv(w: World, v: World, p: nat, l: Local, stage: Stage, data: seq<Event>)
    requires Inv(w) && p in w.children
    requires v == w || (w.queue != [] && w.queue[0].pid == p && v == w.(queue := w.queue[1..]))
    requires TasksFor(l.tasks, p) && EventsFor(l.events, p)
    requires At(stage, p, l.c, l.e, data, TasksOf(v.queue, p) + l.tasks, EventsOf(v.log, p) + l.events)
    ensures Inv(Put(v, p, l))
  {
    hide TasksOf, EventsOf, ChildOk, At;
    var x := Put(v, p, l);
    forall q ensures q != p ==> TasksOf(x.queue, q) == TasksOf(w.queue, q) && EventsOf(x.log, q) == EventsOf(w.log, q) {
      PutStory(v, p, l, q);
      if w.queue != [] {
        HeadOf(w.queue, q);
      }
    }
    forall pid | pid in x.children ensures pid < x.nextPid && ChildOk(x, pid) {
      if pid == p {
        PutStory(v, p, l, p);
        TouchedOk(x, p, stage, data);
      } else {
        SameStory(w, x, pid);
      }
    }
    assert x.children.Keys == w.children.Keys && x.table.Keys == w.table.Keys;
    forall k | 0 <= k < |x.queue| ensures x.queue[k].pid in x.children {
      if k < |v.queue| {
        assert v.queue[k] in w.queue;
      }
    }
  }

  lemma TouchedOk(x: World, p: nat, stage: Stage, data: seq<Event>)
    requires p in x.children && p in x.table
    requires At(stage, p, x.children[p], x.table[p], data, TasksOf(x.queue, p), EventsOf(x.log, p))
    ensures ChildOk(x, p)
  {
  }

  lemma KillInv(w: World, p: nat, signal: string)
    requires Inv(w) && p in w.children
    ensures var x := Put(w, p, Kill(Look(w, p), p, signal));
            && Inv(x) && forall pid :: pid in w.children ==> Steady(w, x, pid)
  {
    hide TasksOf, EventsOf, ChildOk, At, Kill, DataOf;
    var stage, data := StoryOf(w, p);
    var tasks, es := TasksOf(w.queue, p), EventsOf(w.log, p);
    var next := KillStory(stage, p, w.children[p], w.table[p], data, tasks, es, signal);
    var l := Kill(Look(w, p), p, signal);
    assert es + l.events == es;
    PutInv(w, w, p, l, next, data);
    forall pid | pid in w.children ensures Steady(w, Put(w, p, l), pid) {
      PutStory(w, p, l, pid);
      assert EventsOf(w.log, pid) + [] == EventsOf(w.log, pid);
    }
  }

  /** Listening or not is no part of the story. */
  lemma ListenInv(w: World, p: nat, on: bool)
    requires Inv(w) && p in w.children
    ensures var x := Put(w, p, Listen(Look(w, p), on));
            && Inv(x) && forall pid :: pid in w.children ==> Steady(w, x, pid)
  {
    hide TasksOf, EventsOf, ChildOk, DataOf;
    var stage, data := StoryOf(w, p);
    var l := Listen(Look(w, p), on);
    assert TasksOf(w.queue, p) + l.tasks == TasksOf(w.queue, p) && EventsOf(w.log, p) + l.events == EventsOf(w.log, p);
    PutInv(w, w, p, l, stage, data);
    assert w.log + l.events == w.log;
  }

  /** The first task runs: its child goes one stage on. */
  lemma TaskStory(stage: Stage, pid: nat, c: Child, e: Entry, data: seq<Event>, tasks: seq<Task>, es: seq<Event>, run: Run)
    returns (next: Stage, out: seq<Event>)
    requires At(stage, pid, c, e, data, tasks, es) && tasks != []
    ensures var l := RunTask(Local(c, e, [], []), tasks[0], run);
            && TasksFor(l.tasks, pid) && EventsFor(l.events, pid)
            && At(next, pid, l.c, l.e, out, tasks[1..] + l.tasks, es + l.events)
            && (e.settled ==> l.e == e) && (c.killed ==> l.c.killed && out == data)
  {
    hide RunBody;
    if stage == Waiting || stage == Condemned {
      next, out := BodyStory(stage, pid, c, e, data, tasks, es, run);
    } else if stage == Leaving {
      next, out := Closing, data;
      ExitStory(pid, c, e, data, tasks, es, run);
    } else {
      next, out := Gone, data;
      CloseStory(pid, c, e, data, tasks, es, run);
    }
  }

  lemma TickInv(w: World, run: Run)
    requires Inv(w)
    ensures Inv(Tick(w, run)) && forall pid :: pid in w.children ==> Steady(w, Tick(w, run), pid)
  {
    hide TasksOf, EventsOf, ChildOk, At, RunTask, DataOf;
    if w.queue != [] {
      var t, v := w.queue[0], w.(queue := w.queue[1..]);
      var p := t.pid;
      var stage, data := StoryOf(w, p);
      var tasks, es := TasksOf(w.queue, p), EventsOf(w.log, p);
      HeadOf(w.queue, p);
      var next, out := TaskStory(stage, p, w.children[p], w.table[p], data, tasks, es, run);
      var l := RunTask(Look(v, p), t, run);
      PutInv(w, v, p, l, next, out);
      DataIs(stage, p, w.children[p], w.table[p], data, tasks, es);
      DataIs(next, p, l.c, l.e, out, tasks[1..] + l.tasks, es + l.events);
      forall pid | pid in w.children ensures Steady(w, Put(v, p, l), pid) {
        PutStory(v, p, l, pid);
        assert EventsOf(w.log, pid) + [] == EventsOf(w.log, pid);
      }
    }
  }

  lemma StepGrows(w: World, a: Action)
    requires Inv(w) && Allowed(w, a)
    ensures w.children.Keys <= Apply(w, a).children.Keys
  {
    hide Inv, Kill, RunTask;
  }

  lemma StepInv(w: World, a: Action)
    requires Inv(w) && Allowed(w, a)
    ensures Inv(Apply(w, a))
    ensures w.children.Keys <= Apply(w, a).children.Keys == Apply(w, a).table.Keys && w.children.Keys == w.table.Keys
    ensures forall pid :: pid in w.children ==> Steady(w, Apply(w, a), pid)
  {
    StepGrows(w, a);
    hide Steady, Tick, Start, Kill, Put;
    match a
    case SpawnAct(kind) => StartInv(w, kind);
    case ListenAct(pid, on) => ListenInv(w, pid, on);
    case KillAct(pid, signal) => KillInv(w, pid, signal);
    case TickAct(run) => TickInv(w, run);
  }

  /** The callback of `exec`, where there is one. */
  function CallbackOf(kind: Kind, pid: nat, ok: bool): seq<Event> {
    if kind == Executed then [Callback(pid, ok)] else []
  }

  /** Whether a body ends without settling its child. */
  predicate Loses(c: Child, run: Run) {
    run.killedBy.None? && run.outcome.Threw? && !c.heard
  }

  /** All that a body puts out before its exit: non-empty output only, nothing for a fork, after a kill or for an unheard error. */
  function OutputOf(c: Child, pid: nat, run: Run): seq<Event> {
    if run.killedBy.Some? || Loses(c, run) then []
    else
      match run.outcome
      case Threw => [Errored(pid)] + CallbackOf(c.kind, pid, false)
      case Result(out, err, code) =>
        if c.kind == Forked then []
        else
          (if out != "" then [Stdout(pid, out)] else []) + (if err != "" then [Stderr(pid, err)] else [])
          + CallbackOf(c.kind, pid, code == 0)
  }

  /** The pair a body settles for, if it settles. */
  function PairOf(c: Child, run: Run): Entry {
    match run.killedBy
    case Some(s) => Entry(None, Some(if s == "" then SIGTERM else s), true)
    case None =>
      match run.outcome
      case Threw => if c.heard then Entry(Some(1), None, true) else Entry(None, None, false)
      case Result(_, _, code) => Entry(Some(if c.kind == Forked then 0 else code), None, true)
  }

  /**
   * When the body of a child not killed runs, exactly its output is put out and
   * exactly its pair is settled; and it settles exactly if it is killed on the
   * way, returns, or throws with an 'error' listener there.
   */
  lemma TickRunsBody(w: World, run: Run)
    requires Inv(w) && w.queue != [] && w.queue[0].Body? && !w.children[w.queue[0].pid].killed
    ensures var p, x := w.queue[0].pid, Tick(w, run);
            && p in x.table && x.table[p] == PairOf(w.children[p], run)
            && (x.table[p].settled <==> run.killedBy.Some? || run.outcome.Result? || w.children[p].heard)
            && EventsOf(x.log, p) == OutputOf(w.children[p], p, run)
  {
    hide TasksOf, EventsOf, ChildOk;
    var p, v := w.queue[0].pid, w.(queue := w.queue[1..]);
    var stage, data := StoryOf(w, p);
    HeadOf(w.queue, p);
    assert stage == Waiting && EventsOf(w.log, p) == [];
    BodyIs(Look(v, p), p, run);
    hide RunBody, OutputOf;
    var l := RunBody(Look(v, p), p, run);
    PutStory(v, p, l, p);
    assert [] + l.events == l.events;
  }

  lemma BodyIs(l: Local, pid: nat, run: Run)
    requires !l.c.exited && !l.c.cancelled && !l.c.killed && l.tasks == [] && l.events == []
    requires l.e == Entry(None, None, false)
    ensures var r := RunBody(l, pid, run);
            && r.e == PairOf(l.c, run) && r.events == OutputOf(l.c, pid, run)
            && TasksFor(r.tasks, pid) && EventsFor(r.events, pid)
  {
    if run.killedBy.None? && run.outcome.Result? {
      var Result(out, err, code) := run.outcome;
      DeliverIs(l, pid, out, err, code);
    }
    hide Deliver;
  }

  lemma DeliverIs(l: Local, pid: nat, out: string, err: string, code: int)
    requires !l.c.exited && l.tasks == [] && l.events == []
    ensures var r := Deliver(l, pid, out, err, code);
            && r.e == Entry(Some(code), None, true) && r.c == l.c.(exited := true, exitCode := Some(code))
            && r.tasks == [Exit(pid, Some(code), None)] && EventsFor(r.events, pid) && OnlyData(r.events)
            && r.events == (if out != "" then [Stdout(pid, out)] else []) + (if err != "" then [Stderr(pid, err)] else [])
                           + CallbackOf(l.c.kind, pid, code == 0)
  {
  }

  /** A kill settles a child that has not settled, with no code and its signal; it emits nothing itself. */
  lemma KillSettles(w: World, pid: nat, signal: string)
    requires Inv(w) && pid in w.children
    ensures var x := Put(w, pid, Kill(Look(w, pid), pid, signal));
            && x.children[pid].killed && x.log == w.log
            && x.table[pid] == if w.table[pid].settled then w.table[pid]
                               else Entry(None, Some(if signal == "" then SIGTERM else signal), true)
  {
    hide TasksOf, EventsOf, ChildOk;
    var stage, data := StoryOf(w, pid);
  }

  // ---------- runs ----------

  ghost predicate IsRun(ws: seq<World>, acts: seq<Action>) {
    && |ws| == |acts| + 1 && ws[0] == START
    && forall i :: 0 <= i < |acts| ==> Usable(ws[i]) && Allowed(ws[i], acts[i]) && ws[i + 1] == Apply(ws[i], acts[i])
  }

  lemma {:induction false} RunInv(ws: seq<World>, acts: seq<Action>, i: nat)
    requires IsRun(ws, acts) && i < |ws|
    ensures Inv(ws[i])
  {
    if i > 0 {
      hide Apply, Inv;
      RunInv(ws, acts, i - 1);
      StepInv(ws[i - 1], acts[i - 1]);
    }
  }

  lemma KeysMatch(w: World)
    requires Inv(w)
    ensures w.children.Keys == w.table.Keys
  {
  }

  lemma RunStep(ws: seq<World>, acts: seq<Action>, k: nat, pid: nat)
    requires IsRun(ws, acts) && k < |acts| && pid in ws[k].children
    ensures |ws| == |acts| + 1 && pid in ws[k].table && pid in ws[k + 1].children && pid in ws[k + 1].table
    ensures Steady(ws[k], ws[k + 1], pid)
  {
    hide Inv, Apply, Steady;
    RunInv(ws, acts, k);
    StepInv(ws[k], acts[k]);
  }

  /** Children are never forgotten. */
  lemma {:induction false} RunRemembers(ws: seq<World>, acts: seq<Action>, i: nat, j: nat, pid: nat)
    requires IsRun(ws, acts) && i <= j < |ws| && pid in ws[i].children
    ensures pid in ws[j].children && pid in ws[j].table && pid in ws[i].table
  {
    hide IsRun, Steady, Inv;
    if i < j {
      RunRemembers(ws, acts, i, j - 1, pid);
      RunSize(ws, acts);
      RunStep(ws, acts, j - 1, pid);
    } else {
      RunInv(ws, acts, i);
      KeysMatch(ws[i]);
    }
  }

  lemma RunSize(ws: seq<World>, acts: seq<Action>)
    requires IsRun(ws, acts)
    ensures |ws| == |acts| + 1
  {
  }

  /** A settled table entry never changes. */
  lemma {:induction false} RunSettled(ws: seq<World>, acts: seq<Action>, i: nat, j: nat, pid: nat)
    requires IsRun(ws, acts) && i <= j < |ws|
    requires pid in ws[i].children && pid in ws[i].table && ws[i].table[pid].settled
    ensures pid in ws[j].table && ws[j].table[pid] == ws[i].table[pid]
    decreases j
  {
    hide IsRun, EventsOf, DataOf;
    if i < j {
      RunSettled(ws, acts, i, j - 1, pid);
      RunRemembers(ws, acts, i, j - 1, pid);
      RunSize(ws, acts);
      RunStep(ws, acts, j - 1, pid);
    }
  }

  /** From a kill on, a child puts out nothing more: no output, no error, no callback. */
  lemma {:induction false} RunSilenced(ws: seq<World>, acts: seq<Action>, i: nat, j: nat, pid: nat)
    requires IsRun(ws, acts) && i <= j < |ws|
    requires pid in ws[i].children && ws[i].children[pid].killed
    ensures pid in ws[j].children && ws[j].children[pid].killed
    ensures DataOf(EventsOf(ws[j].log, pid)) == DataOf(EventsOf(ws[i].log, pid))
    decreases j
  {
    hide IsRun, EventsOf, DataOf;
    if i < j {
      RunSilenced(ws, acts, i, j - 1, pid);
      RunRemembers(ws, acts, i, j - 1, pid);
      RunSize(ws, acts);
      RunStep(ws, acts, j - 1, pid);
    }
  }

  /** Killed before its body runs, a child never puts out anything. */
  lemma RunKilledEarly(ws: seq<World>, acts: seq<Action>, i: nat, j: nat, pid: nat)
    requires IsRun(ws, acts) && i <= j < |ws|
    requires pid in ws[i].children && ws[i].children[pid].killed && Body(pid) in TasksOf(ws[i].queue, pid)
    ensures DataOf(EventsOf(ws[j].log, pid)) == []
  {
    hide TasksOf, EventsOf, Inv;
    RunInv(ws, acts, i);
    RunRemembers(ws, acts, i, i, pid);
    var stage, data := StoryOf(ws[i], pid);
    var w := ws[i];
    DataIs(stage, pid, w.children[pid], w.table[pid], data, TasksOf(w.queue, pid), EventsOf(w.log, pid));
    RunSilenced(ws, acts, i, j, pid);
  }

  /**
   * The events of one child, in any state of any run: 'exit' and 'close' come at
   * most once, 'close' right after 'exit' with the same pair, which is the one in
   * the settled table entry; and no data comes after 'exit'.
   */
  lemma RunEvents(ws: seq<World>, acts: seq<Action>, n: nat, pid: nat)
    requires IsRun(ws, acts) && n < |ws| && pid in ws[n].children
    ensures pid in ws[n].table
    ensures var es, e := EventsOf(ws[n].log, pid), ws[n].table[pid];
            && (forall i, j :: 0 <= i < |es| && 0 <= j < |es| && es[i].Exited? && es[j].Exited? ==> i == j)
            && (forall i, j :: 0 <= i < |es| && 0 <= j < |es| && es[i].Closed? && es[j].Closed? ==> i == j)
            && (forall j :: 0 <= j < |es| && es[j].Exited? ==> e == Entry(es[j].code, es[j].signal, true))
            && (forall j :: 0 <= j < |es| && es[j].Closed? ==> j > 0 && es[j - 1] == Exited(pid, es[j].code, es[j].signal))
            && (forall i, j :: 0 <= i < j < |es| && es[i].Exited? ==> !IsData(es[j]))
  {
    hide TasksOf, EventsOf, Inv;
    RunInv(ws, acts, n);
    RunRemembers(ws, acts, n, n, pid);
    var w := ws[n];
    var stage, data := StoryOf(w, pid);
    var es := EventsOf(w.log, pid);
    var end := Ending(stage, pid, w.table[pid]);
    assert forall k :: 0 <= k < |data| ==> es[k] == data[k];
    assert forall k :: |data| <= k < |es| ==> es[k] == end[k - |data|];
  }

  /** The pair is an exit code or a signal, never both and never neither. */
  lemma RunPair(ws: seq<World>, acts: seq<Action>, n: nat, pid: nat)
    requires IsRun(ws, acts) && n < |ws| && pid in ws[n].children
    ensures pid in ws[n].table
    ensures ws[n].table[pid].settled ==> (ws[n].table[pid].exitCode.Some? <==> ws[n].table[pid].signal.None?)
  {
    hide TasksOf, EventsOf, Inv;
    RunInv(ws, acts, n);
    RunRemembers(ws, acts, n, n, pid);
    var stage, data := StoryOf(ws[n], pid);
  }

  /**
   * The fields of the child object tell the same story as its settled table entry
   * exactly if it was never killed or was killed before it exited.
   */
  lemma RunFieldsAgree(ws: seq<World>, acts: seq<Action>, n: nat, pid: nat)
    requires IsRun(ws, acts) && n < |ws| && pid in ws[n].children
    ensures pid in ws[n].table
    ensures var c, e := ws[n].children[pid], ws[n].table[pid];
            e.settled ==> (c.exitCode == e.exitCode && c.signalCode == e.signal <==> (c.killed ==> e.signal.Some?))
  {
    hide TasksOf, EventsOf, Inv;
    RunInv(ws, acts, n);
    RunRemembers(ws, acts, n, n, pid);
    var stage, data := StoryOf(ws[n], pid);
  }

  // ---------- the loop drains ----------

  function Weight(queue: seq<Task>): nat {
    if queue == [] then 0
    else (match queue[0] case Body(_) => 3 case Exit(_, _, _) => 2 case Close(_, _, _) => 1) + Weight(queue[1..])
  }

  lemma {:induction false} WeightJoin(a: seq<Task>, b: seq<Task>)
    ensures Weight(a + b) == Weight(a) + Weight(b)
  {
    if a == [] {
      assert a + b == b;
    } else {
      assert (a + b)[1..] == a[1..] + b;
      WeightJoin(a[1..], b);
    }
  }

  /** Every microtask brings the queue closer to empty. */
  lemma TickDrains(w: World, run: Run)
    requires Inv(w) && w.queue != []
    ensures Weight(Tick(w, run).queue) < Weight(w.queue)
  {
    var t := w.queue[0];
    var l := RunTask(Look(w, t.pid), t, run);
    TaskWeight(Look(w, t.pid), t, run);
    hide RunTask;
    WeightJoin(w.queue[1..], l.tasks);
  }

  lemma TaskWeight(l: Local, t: Task, run: Run)
    requires l.tasks == []
    ensures Weight(RunTask(l, t, run).tasks) < Weight([t])
  {
    assert [t][1..] == [];
    var ts := RunTask(l, t, run).tasks;
    if t.Body? {
      BodyQueues(l, t.pid, run);
    }
    if ts != [] {
      assert ts[1..] == [];
    }
  }

  lemma BodyQueues(l: Local, pid: nat, run: Run)
    requires l.tasks == []
    ensures var ts := RunBody(l, pid, run).tasks; |ts| <= 1 && (ts != [] ==> ts[0].Exit?)
  {
  }

  /** Once nothing is queued, a child has exited and closed exactly if its table entry is settled; else it is lost. */
  lemma DrainedAllClosed(w: World, pid: nat)
    requires Inv(w) && w.queue == [] && pid in w.children
    ensures var es, e := EventsOf(w.log, pid), w.table[pid];
            && (e.settled <==> |es| >= 3 && es[|es| - 2..] == [Exited(pid, e.exitCode, e.signal), Closed(pid, e.exitCode, e.signal)])
            && (!e.settled <==> es == [])
            && (!e.settled <==> IsLost(w, pid))
  {
    hide EventsOf;
    var stage, data := StoryOf(w, pid);
    assert TasksOf(w.queue, pid) == [];
    assert stage == Gone || stage == Lost;
    var es := EventsOf(w.log, pid);
    var end := Ending(stage, pid, w.table[pid]);
    assert forall k :: |data| <= k < |es| ==> es[k] == end[k - |data|];
  }

  // ---------- lost children ----------

  /** Neither settled nor with anything queued. */
  predicate IsLost(w: World, pid: nat)
    requires pid in w.table
  {
    !w.table[pid].settled && TasksOf(w.queue, pid) == []
  }

  /** The microtask that runs the body of `pid` loses the child. */
  predicate LosesAt(w: World, a: Action, pid: nat) {
    && a.TickAct? && w.queue != [] && w.queue[0] == Body(pid)
    && pid in w.children && !w.children[pid].killed && Loses(w.children[pid], a.run)
  }

  /** A step loses a child exactly by an unheard error, and only a kill ends a lost child. */
  lemma StepLost(w: World, a: Action, pid: nat)
    requires Inv(w) && Allowed(w, a) && pid in w.children
    ensures var x := Apply(w, a);
            && pid in x.table
            && (IsLost(x, pid) <==> LosesAt(w, a, pid) || (IsLost(w, pid) && !(a.KillAct? && a.pid == pid)))
  {
    hide EventsOf, ChildOk;
    var stage, data := StoryOf(w, pid);
    match a
    case SpawnAct(kind) =>
      TasksJoin(w.queue, [Body(w.nextPid)], pid);
      TasksAllOrNone([Body(w.nextPid)], w.nextPid, pid);
      hide TasksOf;
      assert TasksOf(w.queue, pid) + [] == TasksOf(w.queue, pid);
    case ListenAct(p, on) =>
      assert w.queue + [] == w.queue;
    case KillAct(p, signal) =>
      var l := Kill(Look(w, p), p, signal);
      PutStory(w, p, l, pid);
      hide TasksOf;
      assert TasksOf(w.queue, pid) + [] == TasksOf(w.queue, pid);
    case TickAct(run) =>
      if w.queue != [] {
        TickLost(w, run, pid, stage, data);
      }
  }

  lemma TickLost(w: World, run: Run, pid: nat, stage: Stage, data: seq<Event>)
    requires Inv(w) && w.queue != [] && pid in w.children
    requires At(stage, pid, w.children[pid], w.table[pid], data, TasksOf(w.queue, pid), EventsOf(w.log, pid))
    ensures pid in Tick(w, run).table
    ensures IsLost(Tick(w, run), pid) <==> LosesAt(w, TickAct(run), pid) || IsLost(w, pid)
  {
    hide TasksOf, EventsOf, ChildOk;
    var t, v := w.queue[0], w.(queue := w.queue[1..]);
    var p := t.pid;
    HeadOf(w.queue, pid);
    var stageP, dataP := StoryOf(w, p);
    HeadOf(w.queue, p);
    var l := RunTask(Look(v, p), t, run);
    var next, out := TaskStory(stageP, p, w.children[p], w.table[p], dataP, TasksOf(w.queue, p), EventsOf(w.log, p), run);
    PutStory(v, p, l, pid);
    assert TasksOf(v.queue, pid) + [] == TasksOf(v.queue, pid);
    if p == pid && t.Body? && !w.children[p].killed {
      BodyIs(Look(v, p), p, run);
    }
    hide RunTask, RunBody, OutputOf;
  }

  /**
   * In a run: a child is lost exactly if some microtask lost it, for want of an
   * 'error' listener at that moment, and no kill came since.
   */
  lemma {:induction false} RunLost(ws: seq<World>, acts: seq<Action>, n: nat, pid: nat)
    requires IsRun(ws, acts) && n < |ws| && pid in ws[n].children
    ensures pid in ws[n].table
    ensures IsLost(ws[n], pid) <==> exists i :: LostSince(ws, acts, i, n, pid)
  {
    hide Inv, IsLost, LosesAt, LostSince, Apply, Allowed;
    RunRemembers(ws, acts, n, n, pid);
    if n == 0 {
      NoneLostYet(ws, acts, pid);
    } else {
      var w, a := ws[n - 1], acts[n - 1];
      RunInv(ws, acts, n - 1);
      if pid in w.children {
        RunLost(ws, acts, n - 1, pid);
        StepLost(w, a, pid);
        LostSinceStep(ws, acts, n - 1, n, pid);
      } else {
        NotLostAtBirth(w, a, pid);
        LostNeedsChild(ws, acts, n, pid);
      }
    }
  }

  lemma NoneLostYet(ws: seq<World>, acts: seq<Action>, pid: nat)
    requires IsRun(ws, acts)
    ensures pid !in ws[0].children && !exists i :: LostSince(ws, acts, i, 0, pid)
  {
  }

  /** Step `i` lost the child and no kill came before state `n`. */
  predicate LostSince(ws: seq<World>, acts: seq<Action>, i: int, n: nat, pid: nat)
    requires |ws| == |acts| + 1 && n < |ws|
  {
    && 0 <= i < n && LosesAt(ws[i], acts[i], pid)
    && forall j :: i < j < n ==> !(acts[j].KillAct? && acts[j].pid == pid)
  }

  lemma LostSinceStep(ws: seq<World>, acts: seq<Action>, n: nat, m: nat, pid: nat)
    requires |ws| == |acts| + 1 && n < |acts| && m == n + 1
    ensures (exists i :: LostSince(ws, acts, i, m, pid)) <==>
            LosesAt(ws[n], acts[n], pid)
            || ((exists i :: LostSince(ws, acts, i, n, pid)) && !(acts[n].KillAct? && acts[n].pid == pid))
  {
    hide LosesAt;
    if i :| LostSince(ws, acts, i, m, pid) && i < n {
      assert LostSince(ws, acts, i, n, pid);
    }
    if LosesAt(ws[n], acts[n], pid) {
      assert LostSince(ws, acts, n, m, pid);
    }
    if i :| LostSince(ws, acts, i, n, pid) {
      if !(acts[n].KillAct? && acts[n].pid == pid) {
        assert LostSince(ws, acts, i, m, pid);
      }
    }
  }

  lemma NotLostAtBirth(w: World, a: Action, pid: nat)
    requires Inv(w) && Allowed(w, a) && pid !in w.children && pid in Apply(w, a).children && pid in Apply(w, a).table
    ensures !IsLost(Apply(w, a), pid)
  {
    hide EventsOf, ChildOk, Kill, RunTask;
    assert a.SpawnAct? && pid == w.nextPid;
    TasksJoin(w.queue, [Body(pid)], pid);
    TasksAllOrNone([Body(pid)], pid, pid);
  }

  lemma LostNeedsChild(ws: seq<World>, acts: seq<Action>, n: nat, pid: nat)
    requires IsRun(ws, acts) && 0 < n < |ws| && pid !in ws[n - 1].children
    ensures !exists i :: LostSince(ws, acts, i, n, pid)
  {
    forall i ensures !LostSince(ws, acts, i, n, pid) {
      if 0 <= i < n && pid in ws[i].children {
        RunRemembers(ws, acts, i, n - 1, pid);
      }
    }
  }

  /**
   * When the queue of a run is empty, a child has exited and closed exactly
   * unless its error went unheard and no kill came since.
   */
  lemma RunDrained(ws: seq<World>, acts: seq<Action>, n: nat, pid: nat)
    requires IsRun(ws, acts) && n < |ws| && pid in ws[n].children && ws[n].queue == []
    ensures pid in ws[n].table
    ensures var es, e := EventsOf(ws[n].log, pid), ws[n].table[pid];
            && (e.settled <==> |es| >= 3 && es[|es| - 2..] == [Exited(pid, e.exitCode, e.signal), Closed(pid, e.exitCode, e.signal)])
            && (e.settled <==> !exists i :: LostSince(ws, acts, i, n, pid))
  {
    hide Inv, EventsOf, IsLost;
    RunInv(ws, acts, n);
    RunLost(ws, acts, n, pid);
    DrainedAllClosed(ws[n], pid);
  }

  /** A module that cannot be loaded, forked with no 'error' listener: nothing is queued, emitted or settled any more. */
  lemma UnheardFork()
    ensures var w := Tick(Start(START, Forked), Run(Threw, None));
            w.queue == [] && w.log == [] && !w.table[1000].settled && IsLost(w, 1000)
  {
  }
}
