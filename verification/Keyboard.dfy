/** The keyboard buffer and blocking reads from it. */
module Keyboard {
  import opened Basics
  import opened Scheduler

  const KB_BUF_SIZE: nat := 256

  /** The bytes from `tail` up to `head`, around the end of the buffer. */
  function Slots(buf: seq<byte>, tail: nat, head: nat): seq<byte>
    requires tail <= |buf| && head <= |buf|
  {
    if tail <= head then buf[tail..head] else buf[tail..] + buf[..head]
  }

  /** A byte that does not fit is dropped. */
  function Pushed(buffer: seq<byte>, c: byte): seq<byte> {
    if |buffer| < KB_BUF_SIZE - 1 then buffer + [c] else buffer
  }

  /** The slot after `i`, around the end of the buffer. */
  function NextSlot(i: nat): nat {
    if i == KB_BUF_SIZE - 1 then 0 else i + 1
  }

  lemma Wraps(i: nat)
    requires i < KB_BUF_SIZE
    ensures (i + 1) % KB_BUF_SIZE == NextSlot(i)
  {
  }

  lemma Append(buf: seq<byte>, a: nat, i: nat, c: byte)
    requires a <= i < |buf|
    ensures buf[i := c][a..i + 1] == buf[a..i] + [c]
  {
  }

  /** Storing at the head and moving it appends, unless the buffer is full with one slot to spare. */
  lemma SlotsPush(buf: seq<byte>, tail: nat, head: nat, c: byte)
    requires |buf| == KB_BUF_SIZE && tail < KB_BUF_SIZE && head < KB_BUF_SIZE
    ensures if NextSlot(head) == tail then |Slots(buf, tail, head)| == KB_BUF_SIZE - 1
            else
        && |Slots(buf, tail, head)| < KB_BUF_SIZE - 1
        && Slots(buf[head := c], tail, NextSlot(head)) == Slots(buf, tail, head) + [c]
  {
    var b := buf[head := c];
    if tail <= head {
      Append(buf, tail, head, c);
      if head == KB_BUF_SIZE - 1 {
        assert b[tail..] + b[..0] == b[tail..head + 1];
      }
    } else if head + 1 < tail {
      Append(buf, 0, head, c);
      assert b[tail..] == buf[tail..];
      assert b[..head + 1] == b[0..head + 1] && buf[..head] == buf[0..head];
      assert buf[tail..] + (buf[..head] + [c]) == buf[tail..] + buf[..head] + [c];
    }
  }

  class KbBuffer {
    const buf: array<byte>
    var head: nat
    var tail: nat

    ghost predicate Valid()
      reads this
    {
      buf.Length == KB_BUF_SIZE && head < KB_BUF_SIZE && tail < KB_BUF_SIZE
    }

    ghost function Contents(): seq<byte>
      requires Valid()
      reads this, buf
    {
      Slots(buf[..], tail, head)
    }

    constructor ()
      ensures Valid() && Contents() == [] && fresh(buf)
    {
      buf := new byte[KB_BUF_SIZE](_ => 0);
      head, tail := 0, 0;
    }

    method Push(c: byte)
      requires Valid()
      modifies this, buf
      ensures Valid() && Contents() == Pushed(old(Contents()), c)
    {
      SlotsPush(buf[..], tail, head, c);
      Wraps(head);
      var next := (head + 1) % KB_BUF_SIZE;
      if next != tail {
        buf[head] := c;
        assert buf[..] == old(buf[..])[head := c];
        head := next;
      }
    }

    method Pop() returns (r: Option<byte>)
      requires Valid()
      modifies `tail
      ensures Valid() && (r.None? <==> old(Contents()) == [])
      ensures r.None? ==> Contents() == []
      ensures r.Some? ==> old(Contents()) == [r.value] + Contents()
    {
      if head == tail {
        return None;
      }
      Wraps(tail);
      r := Some(buf[tail]);
      tail := (tail + 1) % KB_BUF_SIZE;
    }
  }

  // ----- blocking reads

  /** Where a process is in `wait_key`: not in it, before `cli`, before the buffer check with the flag it
      saved, found the buffer empty, marked asleep. */
  datatype Pc = Outside | Top | Checking(saved: bool) | Empty | Marked

  /** One CPU: the scheduler, the buffer, the interrupt flag, and each process's place. */
  datatype Machine = Machine(sched: Sched, buffer: seq<byte>, flag: bool, pc: map<nat, Pc>)

  datatype Event =
    | KeyIrq(c: byte)
    | TimerIrq
    | Call
    | Cli
    | Check
    | MarkAsleep
    | Switch
    | Take
    | Start(p: nat, pr: Process)
    | Quit(state: ProcessState)
    | Yield
    | WakeOne(p: nat)

  /** After `schedule`: a process switched to runs with interrupts on, and one that slept in `wait_key` goes
      back to the top of the loop. */
  function Resume(m: Machine, s: Sched): Machine {
    if s.current.None? || s.current == m.sched.current then m.(sched := s)
    else
      var n := s.current.value;
      Machine(s, m.buffer, true, if n in m.pc && m.pc[n].Marked? then m.pc[n := Top] else m.pc)
  }

  predicate HasCurrent(m: Machine) {
    Known(m.sched) && m.sched.current.Some? && m.sched.current.value in m.pc
  }

  /** Interrupts need the flag; the rest is what the current process does next. */
  predicate Enabled(m: Machine, idle: nat, e: Event)
    requires HasCurrent(m)
  {
    var p := m.sched.current.value;
    match e
    case KeyIrq(_) => m.flag
    case TimerIrq => m.flag
    case Call => m.pc[p].Outside? && p != idle && m.sched.procs[p].state == Running
    case Cli => m.pc[p].Top?
    case Check => m.pc[p].Checking?
    case MarkAsleep => m.pc[p].Empty?
    case Switch => m.pc[p].Marked?
    case Take => m.pc[p].Outside?
    case Start(q, pr) => m.pc[p].Outside? && q !in m.sched.procs && pr.state != Running && pr.slice == pr.base
    case Quit(state) => m.pc[p].Outside? && p != idle && (state == Sleeping || state == Dead)
    case Yield => m.pc[p].Outside?
    case WakeOne(_) => m.pc[p].Outside?
  }

  function Next(m: Machine, e: Event): Machine
    requires HasCurrent(m)
  {
    var p := m.sched.current.value;
    match e
    case KeyIrq(c) => m.(buffer := Pushed(m.buffer, c), sched := WakeAll(m.sched))
    case TimerIrq => Resume(m, Scheduler.Tick(m.sched))
    case Call => m.(pc := m.pc[p := Top])
    case Cli => m.(flag := false, pc := m.pc[p := Checking(m.flag)])
    case Check =>
      if m.buffer == [] then m.(pc := m.pc[p := Empty])
      else m.(buffer := m.buffer[1..], flag := m.flag || (m.pc[p].Checking? && m.pc[p].saved), pc := m.pc[p := Outside])
    case MarkAsleep => m.(sched := Mark(m.sched, Sleeping), pc := m.pc[p := Marked])
    case Switch => Resume(m, Schedule(m.sched))
    case Take => m.(buffer := if m.buffer == [] then [] else m.buffer[1..])
    case Start(q, pr) => m.(sched := Spawn(m.sched, q, pr), pc := m.pc[q := Outside])
    case Quit(state) => m.(sched := Mark(m.sched, state))
    case Yield => Resume(m, Schedule(m.sched))
    case WakeOne(q) => m.(sched := Wake(m.sched, q))
  }

  /** The process is asleep in `wait_key`. */
  predicate Asleep(m: Machine, p: nat) {
    p in m.pc && p in m.sched.procs && m.pc[p].Marked? && m.sched.procs[p].state == Sleeping
  }

  /** The idle process is current or waits runnable. */
  predicate IdleReady(s: Sched, idle: nat) {
    && idle in s.procs
    && if s.current == Some(idle) then s.procs[idle].state == Running else idle in s.queue && IsRunnable(s.procs, idle)
  }

  predicate PlaceOk(m: Machine, p: nat)
    requires p in m.pc && p in m.sched.procs
  {
    match m.pc[p]
    case Outside => true
    case Top => true
    case Checking(_) => m.sched.current == Some(p) && !m.flag
    case Empty => m.sched.current == Some(p) && !m.flag && m.buffer == []
    case Marked =>
      && p in Members(m.sched)
      && (m.sched.current == Some(p) ==> !m.flag && m.sched.procs[p].state == Sleeping)
      && (m.sched.procs[p].state == Sleeping ==> m.buffer == [])
      && (m.sched.procs[p].state == Sleeping || m.sched.procs[p].state == Runnable)
  }

  predicate Sound(m: Machine, idle: nat) {
    && Inv(m.sched) && m.sched.current.Some? && m.pc.Keys == m.sched.procs.Keys
    && IdleReady(m.sched, idle) && m.pc[idle].Outside?
    && (forall p :: p in m.pc ==> PlaceOk(m, p))
  }

  // ----- no lost wake-up

  predicate StateKept(s: Sched, s': Sched, p: nat) {
    && p in s.procs && p in s'.procs
    && (|| s'.procs[p].state == s.procs[p].state
        || (s.current == Some(p) && s.procs[p].state == Running && s'.procs[p].state == Runnable))
  }

  lemma IdleWaits(s: Sched, idle: nat)
    requires Inv(s) && IdleReady(s, idle)
    ensures idle in Requeue(s).queue && IsRunnable(Requeue(s).procs, idle)
  {
    if s.current != Some(idle) {
      var i :| 0 <= i < |s.queue| && s.queue[i] == idle;
      assert Requeue(s).queue[i] == idle;
    } else {
      assert Requeue(s).queue[|s.queue|] == idle;
    }
  }

  /** What `schedule` does while an idle process is ready: someone becomes current, and only the process
      given up and the one picked change state. */
  lemma ScheduleFacts(s: Sched, idle: nat)
    requires Inv(s) && IdleReady(s, idle)
    ensures var s' := Schedule(s);
      && Inv(s') && s'.procs.Keys == s.procs.Keys && s'.current.Some? && IdleReady(s', idle) && DropsOnlyEnded(s, s')
      && (s.current == s'.current ==>
          s.procs[s.current.value].state == Running || s.procs[s.current.value].state == Runnable)
      && (forall p :: p in s.procs && s'.current != Some(p) ==> StateKept(s, s', p))
  {
    ScheduleKeeps(s);
    RequeueKeeps(s);
    var r := Requeue(s);
    IdleWaits(s, idle);
    PickKeeps(r);
    assert !NoneRunnable(r.queue, r.procs) by {
      var i :| 0 <= i < |r.queue| && r.queue[i] == idle;
      assert IsRunnable(r.procs, r.queue[i]);
    }
    var b := Best(r.queue, r.procs);
    assert b >= 0 && IsBest(r.queue, r.procs, b);
    RemoveFacts(r.queue, b);
    hide Best, RemoveAt, Inv, DropsOnlyEnded, IsBest;
    forall p | p in s.procs && Schedule(s).current != Some(p) ensures StateKept(s, Schedule(s), p) {
      assert Schedule(s).procs[p] == r.procs[p];
    }
  }

  lemma KnownCurrent(s: Sched)
    requires Inv(s) && s.current.Some?
    ensures s.current.value in s.procs
  {
  }

  lemma SwitchPlace(m: Machine, s: Sched, p: nat)
    requires m.sched.current.Some? && s.current.Some? && m.sched.current.value in m.pc
    requires m.sched.current.value in m.sched.procs
    requires p in m.pc && p in m.sched.procs && p in s.procs && PlaceOk(m, p)
    requires !m.pc[m.sched.current.value].Checking? && !m.pc[m.sched.current.value].Empty?
    requires DropsOnlyEnded(m.sched, s) && (s.current != Some(p) ==> StateKept(m.sched, s, p))
    requires s.current == m.sched.current ==>
      m.sched.procs[s.current.value].state == Running || m.sched.procs[s.current.value].state == Runnable
    ensures PlaceOk(Resume(m, s), p)
  {
  }

  lemma SwitchSound(m: Machine, idle: nat)
    requires Sound(m, idle) && !m.pc[m.sched.current.value].Checking? && !m.pc[m.sched.current.value].Empty?
    ensures Sound(Resume(m, Schedule(m.sched)), idle)
  {
    hide Schedule, Inv, IdleReady, PlaceOk, DropsOnlyEnded, StateKept, Members;
    KnownCurrent(m.sched);
    ScheduleFacts(m.sched, idle);
    var s := Schedule(m.sched);
    var m' := Resume(m, s);
    assert PlaceOk(m, m.sched.current.value);
    forall p | p in m'.pc ensures PlaceOk(m', p) {
      assert PlaceOk(m, p);
      SwitchPlace(m, s, p);
    }
  }

  lemma CountSound(m: Machine, idle: nat)
    requires Sound(m, idle)
    ensures Sound(m.(sched := CountDown(m.sched)), idle) && CountDown(m.sched).current == m.sched.current
  {
    CountDownKeeps(m.sched);
    var m' := m.(sched := CountDown(m.sched));
    forall p | p in m'.pc ensures PlaceOk(m', p) {
      assert PlaceOk(m, p);
    }
  }

  lemma TickSound(m: Machine, idle: nat)
    requires Sound(m, idle) && m.flag
    ensures Sound(Next(m, TimerIrq), idle)
  {
    assert PlaceOk(m, m.sched.current.value);
    CountDownKeeps(m.sched);
    var m1 := m.(sched := CountDown(m.sched));
    CountSound(m, idle);
    if Preempts(m.sched) {
      hide Sound, CountDown, Schedule;
      SwitchSound(m1, idle);
      assert Resume(m1, Schedule(m1.sched)) == Resume(m, Schedule(m1.sched));
    }
  }

  lemma KeySound(m: Machine, idle: nat, c: byte)
    requires Sound(m, idle) && m.flag
    ensures Sound(Next(m, KeyIrq(c)), idle)
  {
    WakeAllKeeps(m.sched);
    var m' := Next(m, KeyIrq(c));
    assert m.sched.queue[..|m.sched.queue|] == m.sched.queue;
    forall p | p in m'.pc ensures PlaceOk(m', p) {
      assert PlaceOk(m, p);
    }
  }

  /** The events that do not schedule. */
  lemma OwnSound(m: Machine, idle: nat, e: Event)
    requires Sound(m, idle) && Enabled(m, idle, e) && !e.KeyIrq? && !e.TimerIrq? && !e.Switch? && !e.Yield?
    ensures Sound(Next(m, e), idle)
  {
    var m' := Next(m, e);
    assert PlaceOk(m, m.sched.current.value);
    if e.Start? {
      SpawnKeeps(m.sched, e.p, e.pr);
      forall p | p in m'.pc ensures PlaceOk(m', p) {
        if p in m.pc { assert PlaceOk(m, p); }
      }
    } else {
      forall p | p in m'.pc ensures PlaceOk(m', p) {
        assert PlaceOk(m, p);
      }
    }
  }

  /** Every event keeps the machine sound. */
  lemma StepSound(m: Machine, idle: nat, e: Event)
    requires Sound(m, idle) && Enabled(m, idle, e)
    ensures Sound(Next(m, e), idle)
  {
    var p := m.sched.current.value;
    assert PlaceOk(m, p);
    match e
    case KeyIrq(c) => KeySound(m, idle, c);
    case TimerIrq => TickSound(m, idle);
    case Switch => SwitchSound(m, idle);
    case Yield => SwitchSound(m, idle);
    case _ => OwnSound(m, idle, e);
  }

  ghost predicate EventAt(ms: seq<Machine>, es: seq<Event>, idle: nat, i: nat)
    requires i < |es| && |ms| == |es| + 1
  {
    HasCurrent(ms[i]) && Enabled(ms[i], idle, es[i]) && ms[i + 1] == Next(ms[i], es[i])
  }

  /** An interleaving of processes and interrupts from a sound start. */
  ghost predicate Interleaving(ms: seq<Machine>, es: seq<Event>, idle: nat) {
    && |ms| == |es| + 1 && Sound(ms[0], idle)
    && forall i :: 0 <= i < |es| ==> EventAt(ms, es, idle, i)
  }

  /** The machine may start in any scheduler state with no process in `wait_key` and the idle process ready. */
  lemma BootSound(m: Machine, idle: nat)
    requires Inv(m.sched) && m.sched.current.Some? && m.pc.Keys == m.sched.procs.Keys && IdleReady(m.sched, idle)
    requires forall p :: p in m.pc ==> m.pc[p] == Outside
    ensures Sound(m, idle)
  {
    hide Inv;
    forall p | p in m.pc ensures PlaceOk(m, p) {}
  }

  lemma {:induction false} StaysSound(ms: seq<Machine>, es: seq<Event>, idle: nat, n: nat)
    requires Interleaving(ms, es, idle) && n < |ms|
    ensures Sound(ms[n], idle)
  {
    hide Sound, Next, Enabled;
    if n > 0 {
      StaysSound(ms, es, idle, n - 1);
      assert EventAt(ms, es, idle, n - 1);
      StepSound(ms[n - 1], idle, es[n - 1]);
    }
  }

  /** In every interleaving, no process is asleep in `wait_key` while the buffer holds a byte. */
  lemma NoLostWakeup(ms: seq<Machine>, es: seq<Event>, idle: nat, n: nat, p: nat)
    requires Interleaving(ms, es, idle) && n < |ms| && Asleep(ms[n], p)
    ensures ms[n].buffer == []
  {
    StaysSound(ms, es, idle, n);
    assert PlaceOk(ms[n], p);
  }

  // ----- keys arrive in order

  /** The bytes of the first `n` events that found room in the buffer. */
  ghost function Typed(ms: seq<Machine>, es: seq<Event>, n: nat): seq<byte>
    requires n <= |es| && |ms| == |es| + 1
  {
    if n == 0 then []
    else Typed(ms, es, n - 1) + if es[n - 1].KeyIrq? && |ms[n - 1].buffer| < 255 then [es[n - 1].c] else []
  }

  /** The bytes that `wait_key` and `read_char` returned in them. */
  ghost function Returned(ms: seq<Machine>, es: seq<Event>, n: nat): seq<byte>
    requires n <= |es| && |ms| == |es| + 1
  {
    if n == 0 then []
    else
      Returned(ms, es, n - 1)
      + if (es[n - 1].Check? || es[n - 1].Take?) && ms[n - 1].buffer != [] then [ms[n - 1].buffer[0]] else []
  }

  lemma BufferStep(m: Machine, e: Event)
    requires HasCurrent(m)
    ensures m.buffer + (if e.KeyIrq? && |m.buffer| < 255 then [e.c] else []) ==
      (if (e.Check? || e.Take?) && m.buffer != [] then [m.buffer[0]] else []) + Next(m, e).buffer
  {
  }

  /** In every interleaving the bytes that found room are returned once each and in order, or still wait. */
  lemma {:induction false} KeysInOrder(ms: seq<Machine>, es: seq<Event>, idle: nat, n: nat)
    requires Interleaving(ms, es, idle) && n <= |es|
    ensures ms[0].buffer + Typed(ms, es, n) == Returned(ms, es, n) + ms[n].buffer
  {
    if n > 0 {
      KeysInOrder(ms, es, idle, n - 1);
      assert EventAt(ms, es, idle, n - 1);
      BufferStep(ms[n - 1], es[n - 1]);
      hide Next, Enabled, Sound;
      var a, t, r, b := ms[0].buffer, Typed(ms, es, n - 1), Returned(ms, es, n - 1), ms[n - 1].buffer;
      assert a + (t + (if es[n - 1].KeyIrq? && |b| < 255 then [es[n - 1].c] else []))
          == (a + t) + (if es[n - 1].KeyIrq? && |b| < 255 then [es[n - 1].c] else []);
    }
  }

  lemma MarkedSound(m: Machine, idle: nat)
    requires Sound(m, idle) && m.pc[m.sched.current.value].Empty?
    ensures HasCurrent(m)
    ensures var p, m1 := m.sched.current.value, Next(m, MarkAsleep);
      && Sound(m1, idle) && HasCurrent(m1) && m1.sched == Mark(m.sched, Sleeping) && m1.sched.current == Some(p)
      && m1.pc == m.pc[p := Marked]
  {
    assert HasCurrent(m);
    hide Inv, IdleReady, PlaceOk;
    StepSound(m, idle, MarkAsleep);
  }

  lemma SwitchAway(m: Machine, p: nat)
    requires HasCurrent(m) && m.sched.current == Some(p) && m.pc[p].Marked?
    requires var s := Schedule(m.sched);
      s.current.Some? && s.current != Some(p) && p in s.procs && s.procs[p].state == Sleeping
    ensures var m' := Next(m, Switch);
      m'.sched == Schedule(m.sched) && m'.flag && Asleep(m', p)
  {
    hide Schedule, Known;
  }

  /** A process that finds the buffer empty goes to sleep and another runs, with interrupts on. */
  lemma WaiterSleeps(m: Machine, idle: nat)
    requires Sound(m, idle) && m.pc[m.sched.current.value].Empty?
    ensures HasCurrent(m) && HasCurrent(Next(m, MarkAsleep))
    ensures var p, m' := m.sched.current.value, Next(Next(m, MarkAsleep), Switch);
      Asleep(m', p) && m'.sched.current.Some? && m'.sched.current != Some(p) && p in m'.sched.queue && m'.flag
  {
    MarkedSound(m, idle);
    var p, m1 := m.sched.current.value, Next(m, MarkAsleep);
    assert Inv(m.sched) && Inv(m1.sched) && IdleReady(m1.sched, idle);
    hide Next, Sound, Inv, IdleReady, Schedule, Mark, Resume;
    SleepEffect(m.sched);
    ScheduleFacts(m1.sched, idle);
    hide StateKept, DropsOnlyEnded;
    SwitchAway(m1, p);
  }

  /** A key wakes every process that sleeps in `wait_key`. */
  lemma KeyWakes(m: Machine, idle: nat, c: byte, p: nat)
    requires Sound(m, idle) && Asleep(m, p)
    ensures HasCurrent(m) && p in Next(m, KeyIrq(c)).sched.procs
    ensures Next(m, KeyIrq(c)).sched.procs[p].state == Runnable
  {
    assert PlaceOk(m, p);
    assert m.sched.queue[..|m.sched.queue|] == m.sched.queue;
  }

  /** And one that finds a byte returns it, with the interrupt flag it found. */
  lemma CheckReturns(m: Machine, idle: nat)
    requires Sound(m, idle) && m.pc[m.sched.current.value].Checking? && m.buffer != []
    ensures HasCurrent(m)
    ensures var p, m' := m.sched.current.value, Next(m, Check);
      m'.pc[p].Outside? && m'.flag == m.pc[p].saved && m.buffer == [m.buffer[0]] + m'.buffer
  {
    assert PlaceOk(m, m.sched.current.value);
  }
}
