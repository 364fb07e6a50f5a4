/** The run queue: picking, preempting, sleeping and waking processes. */
module Scheduler {
  import opened Basics

  datatype ProcessState = Running | Runnable | Sleeping | Zombie | Dead

  datatype Process = Process(state: ProcessState, priority: nat, slice: nat, base: nat)

  /** The run queue, the current process, and the processes by number. */
  datatype Sched = Sched(queue: seq<nat>, current: Option<nat>, procs: map<nat, Process>)

  // ----- picking

  predicate IsRunnable(procs: map<nat, Process>, p: nat) {
    p in procs && procs[p].state == Runnable
  }

  /** Position `i` is where the queue is taken from: runnable, no runnable entry has a better priority, and
      none ahead of it an equal one. */
  predicate IsBest(queue: seq<nat>, procs: map<nat, Process>, i: nat) {
    && i < |queue| && IsRunnable(procs, queue[i])
    && (forall j :: 0 <= j < |queue| && IsRunnable(procs, queue[j]) ==>
          procs[queue[i]].priority <= procs[queue[j]].priority)
    && (forall j :: 0 <= j < i && IsRunnable(procs, queue[j]) ==> procs[queue[i]].priority < procs[queue[j]].priority)
  }

  predicate NoneRunnable(queue: seq<nat>, procs: map<nat, Process>) {
    forall j :: 0 <= j < |queue| ==> !IsRunnable(procs, queue[j])
  }

  lemma BestExtends(queue: seq<nat>, procs: map<nat, Process>, b: int)
    requires queue != [] && -1 <= b < |queue| - 1
    requires b < 0 ==> NoneRunnable(queue[..|queue| - 1], procs)
    requires b >= 0 ==> IsBest(queue[..|queue| - 1], procs, b)
    ensures forall j :: 0 <= j < |queue| - 1 ==> queue[..|queue| - 1][j] == queue[j]
    ensures b < 0 && !IsRunnable(procs, queue[|queue| - 1]) ==> NoneRunnable(queue, procs)
  {
    var t := queue[..|queue| - 1];
    forall j | 0 <= j < |queue| - 1 ensures t[j] == queue[j] {}
    if b < 0 && !IsRunnable(procs, queue[|queue| - 1]) {
      forall j | 0 <= j < |queue| ensures !IsRunnable(procs, queue[j]) {
        if j < |queue| - 1 { assert t[j] == queue[j]; }
      }
    }
  }

  /** The position picked, or -1. */
  function Best(queue: seq<nat>, procs: map<nat, Process>): (r: int)
    ensures -1 <= r < |queue|
    ensures r < 0 <==> NoneRunnable(queue, procs)
    ensures r >= 0 ==> IsBest(queue, procs, r)
  {
    if queue == [] then -1
    else
      var n := |queue| - 1;
      var b := Best(queue[..n], procs);
      BestExtends(queue, procs, b);
      if IsRunnable(procs, queue[n]) && (b < 0 || procs[queue[n]].priority < procs[queue[b]].priority) then n else b
  }

  function RemoveAt(queue: seq<nat>, i: nat): seq<nat>
    requires i < |queue|
  {
    queue[..i] + queue[i + 1..]
  }

  // ----- the steps

  /** The first half of `schedule`: the current process goes to the back of the queue unless it has ended. */
  function Requeue(s: Sched): Sched
    requires s.current.Some? ==> s.current.value in s.procs
  {
    if s.current.None? then s
    else
      var p := s.current.value;
      var was := s.procs[p];
      var now := if was.state == Running then was.(state := Runnable, slice := was.base) else was;
      Sched(if now.state == Dead || now.state == Zombie then s.queue else s.queue + [p], None, s.procs[p := now])
  }

  /** The second half: the best entry of the queue becomes current. */
  function PickNext(s: Sched): Sched {
    var b := Best(s.queue, s.procs);
    if b < 0 then s.(current := None)
    else
      var p := s.queue[b];
      Sched(RemoveAt(s.queue, b), Some(p), s.procs[p := s.procs[p].(state := Running)])
  }

  function Schedule(s: Sched): Sched
    requires s.current.Some? ==> s.current.value in s.procs
  {
    PickNext(Requeue(s))
  }

  function Mark(s: Sched, state: ProcessState): Sched
    requires s.current.Some? ==> s.current.value in s.procs
  {
    if s.current.None? then s else s.(procs := s.procs[s.current.value := s.procs[s.current.value].(state := state)])
  }

  /** Whether this timer tick uses up the current process's slice. */
  predicate Preempts(s: Sched) {
    s.current.Some? && s.current.value in s.procs && s.procs[s.current.value].slice <= 1
  }

  function CountDown(s: Sched): Sched
    requires s.current.Some? ==> s.current.value in s.procs
  {
    if s.current.None? then s
    else
      var p := s.current.value;
      var slice := s.procs[p].slice;
      s.(procs := s.procs[p := s.procs[p].(slice := if slice > 0 then slice - 1 else 0)])
  }

  function Tick(s: Sched): Sched
    requires s.current.Some? ==> s.current.value in s.procs
  {
    if Preempts(s) then Schedule(CountDown(s)) else CountDown(s)
  }

  function Awake(pr: Process): Process {
    if pr.state == Sleeping then pr.(state := Runnable) else pr
  }

  /** The processes of the first `n` queue entries awakened. */
  function AwakeTo(queue: seq<nat>, procs: map<nat, Process>, n: nat): (r: map<nat, Process>)
    requires n <= |queue| && forall i :: 0 <= i < |queue| ==> queue[i] in procs
    ensures r.Keys == procs.Keys
    ensures forall p :: p in procs ==> r[p] == if p in queue[..n] then Awake(procs[p]) else procs[p]
  {
    if n == 0 then procs
    else
      var r := AwakeTo(queue, procs, n - 1);
      assert queue[..n] == queue[..n - 1] + [queue[n - 1]];
      r[queue[n - 1] := Awake(r[queue[n - 1]])]
  }

  lemma AwakeSame(procs: map<nat, Process>)
    ensures forall p :: p in procs && procs[p].state != Sleeping ==> procs[p := Awake(procs[p])] == procs
  {
  }

  lemma AwakeNext(queue: seq<nat>, procs: map<nat, Process>, i: nat)
    requires i < |queue| && forall j :: 0 <= j < |queue| ==> queue[j] in procs
    ensures var r := AwakeTo(queue, procs, i);
      AwakeTo(queue, procs, i + 1) ==
        if r[queue[i]].state == Sleeping then r[queue[i] := r[queue[i]].(state := Runnable)] else r
  {
    AwakeSame(AwakeTo(queue, procs, i));
  }

  /** Every queued process and the current one exist. */
  predicate Known(s: Sched) {
    && (forall i :: 0 <= i < |s.queue| ==> s.queue[i] in s.procs)
    && (s.current.Some? ==> s.current.value in s.procs)
  }

  function WakeAll(s: Sched): Sched
    requires Known(s)
  {
    var procs := AwakeTo(s.queue, s.procs, |s.queue|);
    s.(procs := if s.current.None? then procs else procs[s.current.value := Awake(procs[s.current.value])])
  }

  function Wake(s: Sched, p: nat): Sched
    requires Known(s)
  {
    if p in s.queue then s.(procs := s.procs[p := Awake(s.procs[p])]) else s
  }

  function Spawn(s: Sched, p: nat, pr: Process): Sched {
    Sched(s.queue + [p], s.current, s.procs[p := pr])
  }

  // ----- what every step keeps

  /** Queue and current process together. */
  function Members(s: Sched): set<nat> {
    (set p | p in s.queue) + (if s.current.Some? then {s.current.value} else {})
  }

  predicate SliceOk(procs: map<nat, Process>, p: nat) {
    p in procs && procs[p].slice <= procs[p].base
  }

  /** No process appears twice, no queued process is running, and no slice exceeds its base. */
  predicate Inv(s: Sched) {
    && Known(s) && Distinct(s.queue) && (s.current.Some? ==> s.current.value !in s.queue)
    && (forall i :: 0 <= i < |s.queue| ==> s.procs[s.queue[i]].state != Running)
    && (forall p :: p in s.procs ==> SliceOk(s.procs, p))
  }

  /** The operations, each under the run queue's lock. */
  datatype Op =
    | DoSpawn(pid: nat, proc: Process)
    | DoSchedule
    | DoTick
    | MarkSleeping
    | MarkDead
    | DoWake(pid: nat)
    | DoWakeAll

  /** A process is spawned once, runnable or asleep, with a full slice. */
  predicate Allowed(s: Sched, op: Op) {
    op.DoSpawn? ==> op.pid !in s.procs && op.proc.state != Running && op.proc.slice == op.proc.base
  }

  function Apply(s: Sched, op: Op): Sched
    requires Known(s)
  {
    match op
    case DoSpawn(p, pr) => Spawn(s, p, pr)
    case DoSchedule => Schedule(s)
    case DoTick => Tick(s)
    case MarkSleeping => Mark(s, Sleeping)
    case MarkDead => Mark(s, Dead)
    case DoWake(p) => Wake(s, p)
    case DoWakeAll => WakeAll(s)
  }

  lemma RequeueKeeps(s: Sched)
    requires Inv(s)
    ensures Inv(Requeue(s)) && Requeue(s).current.None? && Requeue(s).procs.Keys == s.procs.Keys
    ensures s.queue <= Requeue(s).queue
    ensures forall p :: p in s.procs && s.current != Some(p) ==> Requeue(s).procs[p] == s.procs[p]
  {
  }

  lemma RemoveFacts(q: seq<nat>, i: nat)
    requires i < |q| && Distinct(q)
    ensures Distinct(RemoveAt(q, i)) && q[i] !in RemoveAt(q, i)
    ensures forall j :: 0 <= j < |q| - 1 ==> RemoveAt(q, i)[j] == if j < i then q[j] else q[j + 1]
    ensures forall p :: p in q ==> p == q[i] || p in RemoveAt(q, i)
    ensures forall p :: p in RemoveAt(q, i) ==> p in q
  {
    var r := RemoveAt(q, i);
    forall p | p in q && p != q[i] ensures p in r {
      var j :| 0 <= j < |q| && q[j] == p;
      assert r[if j < i then j else j - 1] == p;
    }
  }

  lemma PickKeeps(s: Sched)
    requires Inv(s) && s.current.None?
    ensures Inv(PickNext(s)) && Members(PickNext(s)) == Members(s) && PickNext(s).procs.Keys == s.procs.Keys
    ensures PickNext(s).current.None? <==> NoneRunnable(s.queue, s.procs)
  {
    var b := Best(s.queue, s.procs);
    if b >= 0 {
      hide Best;
      RemoveFacts(s.queue, b);
      hide RemoveAt, Distinct;
    }
  }

  /** A process leaves the scheduler only by having ended while current. */
  ghost predicate DropsOnlyEnded(s: Sched, s': Sched) {
    forall p :: p in Members(s) && p !in Members(s') ==>
      s.current == Some(p) && p in s.procs && (s.procs[p].state == Dead || s.procs[p].state == Zombie)
  }

  lemma RequeueMembers(s: Sched)
    requires Inv(s)
    ensures DropsOnlyEnded(s, Requeue(s))
  {
    var r := Requeue(s);
    forall p | p in s.queue ensures p in r.queue {
      var j :| 0 <= j < |s.queue| && s.queue[j] == p;
      assert r.queue[j] == p;
    }
  }

  lemma ScheduleKeeps(s: Sched)
    requires Inv(s)
    ensures Inv(Schedule(s)) && DropsOnlyEnded(s, Schedule(s)) && Schedule(s).procs.Keys == s.procs.Keys
  {
    hide PickNext, Inv;
    RequeueKeeps(s);
    PickKeeps(Requeue(s));
    RequeueMembers(s);
  }

  lemma CountDownKeeps(s: Sched)
    requires Inv(s)
    ensures Inv(CountDown(s)) && Members(CountDown(s)) == Members(s)
    ensures s.current.Some? ==> CountDown(s).procs[s.current.value].state == s.procs[s.current.value].state
  {
  }

  lemma WakeAllKeeps(s: Sched)
    requires Inv(s)
    ensures Inv(WakeAll(s)) && Members(WakeAll(s)) == Members(s)
  {
    var s' := WakeAll(s);
    assert s.queue[..|s.queue|] == s.queue;
    forall p | p in s'.procs ensures SliceOk(s'.procs, p) {
      assert SliceOk(s.procs, p);
    }
  }

  lemma SpawnKeeps(s: Sched, p: nat, pr: Process)
    requires Inv(s) && p !in s.procs && pr.state != Running && pr.slice == pr.base
    ensures Inv(Spawn(s, p, pr)) && DropsOnlyEnded(s, Spawn(s, p, pr))
  {
    var s' := Spawn(s, p, pr);
    forall x | x in s'.procs ensures SliceOk(s'.procs, x) {
      if x != p { assert SliceOk(s.procs, x); }
    }
    forall x | x in s.queue ensures x in s'.queue {}
  }

  /** Every step keeps the invariant and drops only ended processes. */
  lemma StepKeeps(s: Sched, op: Op)
    requires Inv(s) && Allowed(s, op)
    ensures Inv(Apply(s, op)) && DropsOnlyEnded(s, Apply(s, op))
  {
    match op
    case DoSchedule => ScheduleKeeps(s);
    case DoTick =>
      CountDownKeeps(s);
      if Preempts(s) {
        ScheduleKeeps(CountDown(s));
      }
    case DoWakeAll => WakeAllKeeps(s);
    case DoSpawn(p, pr) => SpawnKeeps(s, p, pr);
    case DoWake(p) =>
    case MarkSleeping =>
    case MarkDead =>
  }

  ghost predicate StepAt(ss: seq<Sched>, ops: seq<Op>, i: nat)
    requires i < |ops| && |ss| == |ops| + 1
  {
    Known(ss[i]) && Allowed(ss[i], ops[i]) && ss[i + 1] == Apply(ss[i], ops[i])
  }

  /** A run: each state follows from the one before by an allowed operation. */
  ghost predicate Run(ss: seq<Sched>, ops: seq<Op>) {
    && |ss| == |ops| + 1 && Inv(ss[0])
    && forall i :: 0 <= i < |ops| ==> StepAt(ss, ops, i)
  }

  lemma {:induction false} RunKeeps(ss: seq<Sched>, ops: seq<Op>, n: nat)
    requires Run(ss, ops) && n < |ss|
    ensures Inv(ss[n])
  {
    if n > 0 {
      RunKeeps(ss, ops, n - 1);
      assert StepAt(ss, ops, n - 1);
      StepKeeps(ss[n - 1], ops[n - 1]);
    }
  }

  // ----- bounded waiting

  function IndexOf(q: seq<nat>, p: nat): (i: nat)
    requires p in q
    ensures i < |q| && q[i] == p && p !in q[..i]
  {
    if q[0] == p then 0 else 1 + IndexOf(q[1..], p)
  }

  lemma IndexUnique(q: seq<nat>, p: nat, i: nat)
    requires Distinct(q) && i < |q| && q[i] == p
    ensures IndexOf(q, p) == i
  {
  }

  /** Whether this operation runs `schedule`. */
  predicate Schedules(s: Sched, op: Op) {
    op.DoSchedule? || (op.DoTick? && Preempts(s))
  }

  /** The queue that `schedule` picks from. */
  function PickState(s: Sched, op: Op): Sched
    requires Known(s)
  {
    if op.DoTick? then Requeue(CountDown(s)) else Requeue(s)
  }

  /** No runnable process in the queue has a strictly better priority than `p`. */
  predicate NoBetter(s: Sched, p: nat) {
    && p in s.procs
    && forall j :: 0 <= j < |s.queue| && IsRunnable(s.procs, s.queue[j]) ==>
         s.procs[p].priority <= s.procs[s.queue[j]].priority
  }

  lemma RemoveAhead(q: seq<nat>, b: nat, p: nat)
    requires Distinct(q) && p in q && b < IndexOf(q, p)
    ensures p in RemoveAt(q, b) && IndexOf(RemoveAt(q, b), p) == IndexOf(q, p) - 1
  {
    var i, r := IndexOf(q, p), RemoveAt(q, b);
    RemoveFacts(q, b);
    hide RemoveAt, IndexOf;
    assert r[i - 1] == p;
    IndexUnique(r, p, i - 1);
  }

  lemma PickAdvances(s: Sched, p: nat)
    requires Inv(s) && p in s.queue && IsRunnable(s.procs, p) && NoBetter(s, p)
    ensures var s' := PickNext(s);
      s'.current == Some(p) ||
      (&& p in s'.queue && IsRunnable(s'.procs, p) && s'.procs[p] == s.procs[p]
       && IndexOf(s'.queue, p) == IndexOf(s.queue, p) - 1)
  {
    var b := Best(s.queue, s.procs);
    var i := IndexOf(s.queue, p);
    assert b >= 0 && IsBest(s.queue, s.procs, b);
    hide Best, IndexOf, RemoveAt;
    if b != i {
      assert b < i && s.queue[b] != p;
      RemoveAhead(s.queue, b, p);
    }
  }

  lemma RequeueWaits(s: Sched, p: nat)
    requires Inv(s) && p in s.queue && IsRunnable(s.procs, p)
    ensures var r := Requeue(s);
      && Inv(r) && p in r.queue && r.procs[p] == s.procs[p] && s.current != Some(p)
      && IndexOf(r.queue, p) == IndexOf(s.queue, p)
  {
    RequeueKeeps(s);
    var i := IndexOf(s.queue, p);
    assert Requeue(s).queue[i] == p;
    IndexUnique(Requeue(s).queue, p, i);
  }

  /** One operation seen by a waiting process: it stays runnable in the queue, and each `schedule` moves it
      up one place or makes it current. */
  lemma WaitStep(s: Sched, op: Op, p: nat)
    requires Inv(s) && Allowed(s, op) && p in s.queue && IsRunnable(s.procs, p)
    requires Schedules(s, op) ==> NoBetter(PickState(s, op), p)
    ensures var s' := Apply(s, op);
      || s'.current == Some(p)
      || (&& p in s'.queue && IsRunnable(s'.procs, p)
          && IndexOf(s'.queue, p) == IndexOf(s.queue, p) - (if Schedules(s, op) then 1 else 0))
  {
    assert s.current != Some(p);
    match op
    case DoSchedule =>
      RequeueWaits(s, p);
      hide Requeue, PickNext, Inv, NoBetter;
      PickAdvances(Requeue(s), p);
    case DoTick =>
      CountDownKeeps(s);
      if Preempts(s) {
        var c := CountDown(s);
        assert c.queue == s.queue && c.procs[p] == s.procs[p];
        hide CountDown;
        RequeueWaits(c, p);
        hide Requeue, PickNext, Inv, NoBetter;
        PickAdvances(Requeue(c), p);
      }
    case DoSpawn(q, pr) =>
      var i := IndexOf(s.queue, p);
      SpawnKeeps(s, q, pr);
      assert Spawn(s, q, pr).queue[i] == p;
      IndexUnique(Spawn(s, q, pr).queue, p, i);
    case DoWake(q) =>
    case DoWakeAll =>
    case MarkSleeping =>
    case MarkDead =>
  }

  /** How many of the first `n` operations of a run scheduled. */
  ghost function Scheduled(ss: seq<Sched>, ops: seq<Op>, n: nat): nat
    requires n <= |ops| && |ss| == |ops| + 1
  {
    if n == 0 then 0 else Scheduled(ss, ops, n - 1) + (if Schedules(ss[n - 1], ops[n - 1]) then 1 else 0)
  }

  ghost predicate NoBetterAt(ss: seq<Sched>, ops: seq<Op>, p: nat, i: nat)
    requires i < |ops| && |ss| == |ops| + 1
  {
    Known(ss[i]) && (Schedules(ss[i], ops[i]) ==> NoBetter(PickState(ss[i], ops[i]), p))
  }

  /** A runnable process with k entries ahead of it becomes current within k + 1 calls of `schedule`, whatever
      else happens, while no strictly better process is runnable at those calls: as long as it has not
      been current, at most k calls were made. */
  lemma {:induction false} BoundedWaiting(ss: seq<Sched>, ops: seq<Op>, p: nat, n: nat)
    requires Run(ss, ops) && n <= |ops| && p in ss[0].queue && IsRunnable(ss[0].procs, p)
    requires forall i :: 0 <= i < n ==> NoBetterAt(ss, ops, p, i)
    requires forall i :: 0 <= i <= n ==> ss[i].current != Some(p)
    ensures p in ss[n].queue && IsRunnable(ss[n].procs, p)
    ensures IndexOf(ss[n].queue, p) == IndexOf(ss[0].queue, p) - Scheduled(ss, ops, n)
    ensures Scheduled(ss, ops, n) <= IndexOf(ss[0].queue, p)
  {
    hide Apply, Inv, NoBetter, IndexOf, PickState, Known, Allowed, IsRunnable, Schedules;
    if n > 0 {
      BoundedWaiting(ss, ops, p, n - 1);
      RunKeeps(ss, ops, n - 1);
      assert StepAt(ss, ops, n - 1) && NoBetterAt(ss, ops, p, n - 1);
      WaitStep(ss[n - 1], ops[n - 1], p);
    }
  }

  // ----- what a turn is

  /** What `schedule` does to a process: a current process that was running waits with a full slice, the one
      picked runs, and everything else about every process stays. */
  ghost predicate Rescheduled(s: Sched, s': Sched, q: nat) {
    q in s.procs ==>
      && q in s'.procs
      && var was, now := s.procs[q], s'.procs[q];
      && now.priority == was.priority && now.base == was.base
      && now.slice == (if s.current == Some(q) && was.state == Running then was.base else was.slice)
      && now.state == if s'.current == Some(q) then Running
                      else if s.current == Some(q) && was.state == Running then Runnable else was.state
  }

  /** The processes in line: the queue, and behind it the current process unless it has ended. */
  function InLine(s: Sched): seq<nat> {
    if s.current.Some? && s.current.value in s.procs && s.procs[s.current.value].state !in {Dead, Zombie}
    then s.queue + [s.current.value] else s.queue
  }

  lemma RemoveSplit(q: seq<nat>, b: nat)
    requires b < |q|
    ensures b <= |RemoveAt(q, b)| && q == RemoveAt(q, b)[..b] + [q[b]] + RemoveAt(q, b)[b..]
  {
  }

  /** The two halves of `schedule`, process by process. */
  lemma RequeueEffect(s: Sched, q: nat)
    requires Known(s) && q in s.procs
    ensures Requeue(s).current.None? && Requeue(s).queue == InLine(s) && q in Requeue(s).procs
    ensures Requeue(s).procs[q] ==
      if s.current == Some(q) && s.procs[q].state == Running
      then s.procs[q].(state := Runnable, slice := s.procs[q].base) else s.procs[q]
  {
  }

  lemma PickEffect(s: Sched, q: nat)
    requires s.current.None? && q in s.procs
    ensures q in PickNext(s).procs
    ensures PickNext(s).procs[q] ==
      if PickNext(s).current == Some(q) then s.procs[q].(state := Running) else s.procs[q]
  {
    hide Best, RemoveAt;
  }

  lemma ProcessEffect(s: Sched, q: nat)
    requires Inv(s)
    ensures Rescheduled(s, Schedule(s), q)
  {
    if q in s.procs {
      RequeueEffect(s, q);
      hide Requeue, PickNext, InLine, Inv;
      PickEffect(Requeue(s), q);
    }
  }

  /** Every runnable process left has no better priority than the current one, and those that stood in the first
      `b` places a worse one. */
  predicate FirstOfBest(s: Sched, b: nat) {
    && s.current.Some? && s.current.value in s.procs
    && forall j :: 0 <= j < |s.queue| && IsRunnable(s.procs, s.queue[j]) ==>
         && s.procs[s.current.value].priority <= s.procs[s.queue[j]].priority
         && (j < b ==> s.procs[s.current.value].priority < s.procs[s.queue[j]].priority)
  }

  lemma PickedFirst(s: Sched)
    requires Inv(s) && PickNext(s).current.Some?
    ensures Best(s.queue, s.procs) >= 0 && FirstOfBest(PickNext(s), Best(s.queue, s.procs))
  {
    var b := Best(s.queue, s.procs);
    assert IsBest(s.queue, s.procs, b);
    RemoveFacts(s.queue, b);
    hide Best, RemoveAt;
    var s' := PickNext(s);
    forall j | 0 <= j < |s'.queue| && IsRunnable(s'.procs, s'.queue[j])
      ensures s'.procs[s'.current.value].priority <= s'.procs[s'.queue[j]].priority
      ensures j < b ==> s'.procs[s'.current.value].priority < s'.procs[s'.queue[j]].priority
    {
      assert IsRunnable(s.procs, s.queue[if j < b then j else j + 1]);
    }
  }

  lemma PickLine(s: Sched)
    requires Inv(s) && s.current.None?
    ensures var s' := PickNext(s);
      && (s'.current.None? ==> s'.queue == s.queue && NoneRunnable(s'.queue, s'.procs))
      && (s'.current.Some? ==>
           exists b: nat ::
             && b <= |s'.queue| && s.queue == s'.queue[..b] + [s'.current.value] + s'.queue[b..]
             && FirstOfBest(s', b))
  {
    var b := Best(s.queue, s.procs);
    if b >= 0 {
      PickedFirst(s);
      RemoveSplit(s.queue, b);
      hide RemoveAt, Best, Inv, FirstOfBest, NoneRunnable;
      var s' := PickNext(s);
      assert s.queue == s'.queue[..b] + [s'.current.value] + s'.queue[b..];
    }
  }

  lemma LineEffect(s: Sched)
    requires Inv(s)
    ensures var s' := Schedule(s);
      && (s'.current.None? ==> s'.queue == InLine(s) && NoneRunnable(s'.queue, s'.procs))
      && (s'.current.Some? ==>
           exists b: nat ::
             && b <= |s'.queue| && InLine(s) == s'.queue[..b] + [s'.current.value] + s'.queue[b..]
             && FirstOfBest(s', b))
  {
    RequeueKeeps(s);
    assert Requeue(s).queue == InLine(s);
    hide Requeue, PickNext, InLine, Inv, NoneRunnable, FirstOfBest;
    PickLine(Requeue(s));
  }

  /** `schedule` takes the process picked out of the line and leaves the rest in order; it picks none exactly
      if nobody in line can run. */
  lemma ScheduleEffect(s: Sched, q: nat)
    requires Inv(s)
    ensures var s' := Schedule(s);
      && Rescheduled(s, s', q)
      && (s'.current.None? ==> s'.queue == InLine(s) && NoneRunnable(s'.queue, s'.procs))
      && (s'.current.Some? ==>
           exists b: nat ::
             && b <= |s'.queue| && InLine(s) == s'.queue[..b] + [s'.current.value] + s'.queue[b..]
             && FirstOfBest(s', b))
  {
    ProcessEffect(s, q);
    LineEffect(s);
    hide *;
  }

  /** A tick with more than one unit left costs one; any other makes the current process give way. */
  lemma TickEffect(s: Sched, p: nat)
    requires Inv(s) && s.current == Some(p)
    ensures p in s.procs && p in Tick(s).procs
    ensures s.procs[p].slice > 1 ==>
      Tick(s) == s.(procs := s.procs[p := s.procs[p].(slice := s.procs[p].slice - 1)])
    ensures s.procs[p].slice <= 1 ==>
      && var was, now := s.procs[p], Tick(s).procs[p];
      && now.slice == (if was.state == Running then was.base else 0)
      && Tick(s) == Schedule(s.(procs := s.procs[p := s.procs[p].(slice := 0)]))
  {
    if s.procs[p].slice <= 1 {
      CountDownKeeps(s);
      ScheduleEffect(CountDown(s), p);
    }
  }

  function Ticks(ops: seq<Op>, n: nat): nat
    requires n <= |ops|
  {
    if n == 0 then 0 else Ticks(ops, n - 1) + (if ops[n - 1].DoTick? then 1 else 0)
  }

  lemma TurnStep(s: Sched, op: Op, p: nat)
    requires Inv(s) && Allowed(s, op) && s.current == Some(p) && !op.DoSchedule?
    requires op.DoTick? ==> s.procs[p].slice > 1
    ensures var s' := Apply(s, op);
      && s'.current == Some(p) && p in s'.procs && s'.procs[p].base == s.procs[p].base
      && s'.procs[p].slice == s.procs[p].slice - (if op.DoTick? then 1 else 0)
  {
    if op.DoTick? {
      TickEffect(s, p);
    }
  }

  /** How many ticks a process with that much of its slice left can stand, the last of which preempts it. */
  function TicksLeft(pr: Process): nat {
    if pr.slice == 0 then 1 else pr.slice
  }

  lemma TickIs(s: Sched, op: Op)
    requires Known(s) && op.DoTick?
    ensures Apply(s, op) == Tick(s)
  {
  }

  /** A process that is current with n units left, and does not give way itself, stays current for n - 1 ticks and
      gives way at the n-th; with nothing left, at the first. */
  lemma {:induction false} TurnLength(ss: seq<Sched>, ops: seq<Op>, p: nat, n: nat)
    requires Run(ss, ops) && n <= |ops| && ss[0].current == Some(p)
    requires forall i :: 0 <= i < n ==> !ops[i].DoSchedule?
    requires p in ss[0].procs && Ticks(ops, n) < TicksLeft(ss[0].procs[p])
    ensures ss[n].current == Some(p) && p in ss[n].procs && ss[n].procs[p].base == ss[0].procs[p].base
    ensures ss[n].procs[p].slice + Ticks(ops, n) == ss[0].procs[p].slice
    ensures n < |ops| && ops[n].DoTick? ==>
      if Ticks(ops, n) + 1 == TicksLeft(ss[0].procs[p])
      then ss[n + 1] == Schedule(ss[n].(procs := ss[n].procs[p := ss[n].procs[p].(slice := 0)]))
      else ss[n + 1].current == Some(p) && p in ss[n + 1].procs && ss[n + 1].procs[p].slice == ss[n].procs[p].slice - 1
    decreases n
  {
    hide Apply, Inv, Schedule;
    if n > 0 {
      TurnLength(ss, ops, p, n - 1);
      RunKeeps(ss, ops, n - 1);
      assert StepAt(ss, ops, n - 1);
      TurnStep(ss[n - 1], ops[n - 1], p);
    }
    if n < |ops| && ops[n].DoTick? {
      RunKeeps(ss, ops, n);
      assert StepAt(ss, ops, n);
      TickIs(ss[n], ops[n]);
      TickEffect(ss[n], p);
    }
  }

  /** In particular, while it stays current its ticks number less than its slice. */
  lemma {:induction false} TurnBound(ss: seq<Sched>, ops: seq<Op>, p: nat, n: nat)
    requires Run(ss, ops) && n <= |ops| && ss[0].current == Some(p)
    requires forall i :: 0 <= i < n ==> !Schedules(ss[i], ops[i])
    ensures ss[n].current == Some(p) && p in ss[n].procs && p in ss[0].procs
    ensures ss[n].procs[p].slice + Ticks(ops, n) == ss[0].procs[p].slice
    ensures Ticks(ops, n) > 0 ==> Ticks(ops, n) < ss[0].procs[p].slice <= ss[0].procs[p].base
  {
    RunKeeps(ss, ops, 0);
    assert SliceOk(ss[0].procs, p);
    if n > 0 {
      TurnBound(ss, ops, p, n - 1);
      RunKeeps(ss, ops, n - 1);
      assert StepAt(ss, ops, n - 1) && !Schedules(ss[n - 1], ops[n - 1]);
      hide Inv;
      TurnStep(ss[n - 1], ops[n - 1], p);
    }
  }

  /** A process that waits keeps its slice. */
  lemma WaitsStep(s: Sched, op: Op, p: nat)
    requires Inv(s) && Allowed(s, op) && p in s.procs && s.current != Some(p)
    ensures p in Apply(s, op).procs
    ensures Apply(s, op).procs[p].slice == s.procs[p].slice && Apply(s, op).procs[p].base == s.procs[p].base
  {
    match op
    case DoSchedule => ScheduleEffect(s, p);
    case DoTick =>
      CountDownKeeps(s);
      if Preempts(s) {
        ScheduleEffect(CountDown(s), p);
      }
    case DoWakeAll =>
    case DoSpawn(q, pr) =>
    case DoWake(q) =>
    case MarkSleeping =>
    case MarkDead =>
  }

  lemma {:induction false} SliceWaits(ss: seq<Sched>, ops: seq<Op>, p: nat, a: nat, n: nat)
    requires Run(ss, ops) && a <= n <= |ops| && p in ss[a].procs
    requires forall i :: a <= i < n ==> ss[i].current != Some(p)
    ensures p in ss[n].procs
    ensures ss[n].procs[p].slice == ss[a].procs[p].slice && ss[n].procs[p].base == ss[a].procs[p].base
    decreases n
  {
    hide Apply, Inv;
    if n > a {
      SliceWaits(ss, ops, p, a, n - 1);
      RunKeeps(ss, ops, n - 1);
      assert StepAt(ss, ops, n - 1);
      WaitsStep(ss[n - 1], ops[n - 1], p);
    }
  }

  /** A running process that had to give way starts its next turn, whenever that is, with a full slice; so that
      turn lasts exactly `base` ticks unless it gives way itself. */
  lemma NextTurnFull(ss: seq<Sched>, ops: seq<Op>, p: nat, n: nat)
    requires Run(ss, ops) && 0 < n <= |ops| && ss[0].current == Some(p) && Schedules(ss[0], ops[0])
    requires p in ss[0].procs && ss[0].procs[p].state == Running
    requires forall i :: 1 <= i < n ==> ss[i].current != Some(p)
    ensures p in ss[n].procs && ss[n].procs[p].slice == ss[n].procs[p].base == ss[0].procs[p].base
  {
    RunKeeps(ss, ops, 0);
    assert StepAt(ss, ops, 0);
    if ops[0].DoTick? {
      TickEffect(ss[0], p);
      CountDownKeeps(ss[0]);
      ScheduleEffect(CountDown(ss[0]), p);
    } else {
      ScheduleEffect(ss[0], p);
    }
    hide Apply, Inv, Schedule, Tick;
    SliceWaits(ss, ops, p, 1, n);
  }

  lemma MarkKeeps(s: Sched, state: ProcessState)
    requires Inv(s) && state != Running
    ensures Inv(Mark(s, state)) && Mark(s, state).current == s.current
  {
  }

  /** A process that goes to sleep is queued, asleep, and not current. */
  lemma SleepEffect(s: Sched)
    requires Inv(s) && s.current.Some?
    ensures var p, s' := s.current.value, Schedule(Mark(s, Sleeping));
      s'.current != Some(p) && p in s'.queue && p in s'.procs && s'.procs[p] == s.procs[p].(state := Sleeping)
  {
    var p, t := s.current.value, Mark(s, Sleeping);
    MarkKeeps(s, Sleeping);
    var r := Requeue(t);
    RequeueKeeps(t);
    assert r.queue[|r.queue| - 1] == p && !IsRunnable(r.procs, p);
    var b := Best(r.queue, r.procs);
    assert b >= 0 ==> IsRunnable(r.procs, r.queue[b]);
    hide Best, Inv;
    if b >= 0 {
      RemoveSplit(r.queue, b);
      assert RemoveAt(r.queue, b)[|r.queue| - 2] == p;
    }
  }

  /** One that ends is in the scheduler no more. */
  lemma ExitEffect(s: Sched)
    requires Inv(s) && s.current.Some?
    ensures var p, s' := s.current.value, Schedule(Mark(s, Dead));
      s'.current != Some(p) && p !in s'.queue && p in s'.procs && s'.procs[p] == s.procs[p].(state := Dead)
  {
    var p, t := s.current.value, Mark(s, Dead);
    MarkKeeps(s, Dead);
    var r := Requeue(t);
    RequeueKeeps(t);
    assert r.queue == s.queue && p !in r.queue;
    var b := Best(r.queue, r.procs);
    hide Best;
    if b >= 0 {
      RemoveFacts(r.queue, b);
      hide RemoveAt, Inv;
    }
  }

  // ----- the run queue

  class RunQueue {
    var queue: seq<nat>
    var current: Option<nat>
    var procs: map<nat, Process>

    ghost function View(): Sched
      reads this
    {
      Sched(queue, current, procs)
    }

    constructor ()
      ensures View() == Sched([], None, map[])
    {
      queue, current, procs := [], None, map[];
    }

    method Push(p: nat, pr: Process)
      modifies this
      ensures View() == Spawn(old(View()), p, pr)
    {
      procs := procs[p := pr];
      queue := queue + [p];
    }

    /** `pick_next`: the first runnable entry of least priority, taken out of the queue. */
    method TakeNext() returns (next: Option<nat>)
      requires Known(View())
      modifies `queue
      ensures next.None? <==> Best(old(queue), procs) < 0
      ensures next.None? ==> queue == old(queue)
      ensures next.Some? ==>
        next.value == old(queue)[Best(old(queue), procs)] && queue == RemoveAt(old(queue), Best(old(queue), procs))
    {
      var best := -1;
      var i := 0;
      while i < |queue|
        invariant i <= |queue| && -1 <= best < i && best == Best(queue[..i], procs)
      {
        assert queue[..i + 1][..i] == queue[..i];
        if procs[queue[i]].state == Runnable && (best < 0 || procs[queue[i]].priority < procs[queue[best]].priority) {
          best := i;
        }
        i := i + 1;
      }
      assert queue[..i] == queue;
      if best < 0 {
        return None;
      }
      next := Some(queue[best]);
      queue := RemoveAt(queue, best);
    }

    /** `schedule`, up to the context switch. */
    method Reschedule()
      requires Known(View())
      modifies this
      ensures View() == Schedule(old(View()))
    {
      if current.Some? {
        var p := current.value;
        if procs[p].state == Running {
          procs := procs[p := procs[p].(state := Runnable, slice := procs[p].base)];
        }
        if procs[p].state != Dead && procs[p].state != Zombie {
          queue := queue + [p];
        }
        current := None;
      }
      assert procs == Requeue(old(View())).procs;
      assert View() == Requeue(old(View()));
      var next := TakeNext();
      if next.Some? {
        procs := procs[next.value := procs[next.value].(state := Running)];
      }
      current := next;
    }

    /** `tick`. */
    method TimerTick()
      requires Known(View())
      modifies this
      ensures View() == Tick(old(View()))
    {
      hide Schedule;
      var preempt := false;
      if current.Some? {
        var p := current.value;
        if procs[p].slice > 0 {
          procs := procs[p := procs[p].(slice := procs[p].slice - 1)];
        }
        preempt := procs[p].slice == 0;
      }
      assert procs == CountDown(old(View())).procs;
      if preempt {
        Reschedule();
      }
    }

    /** `sleep_current`. */
    method SleepCurrent()
      requires Known(View())
      modifies this
      ensures View() == Schedule(Mark(old(View()), Sleeping))
      ensures old(Inv(View()) && current.Some?) ==>
        && var p := old(current.value);
        && current != Some(p) && p in queue && p in procs && procs[p] == old(procs[p]).(state := Sleeping)
    {
      if current.Some? && Inv(View()) {
        SleepEffect(View());
      }
      hide Schedule, Inv;
      if current.Some? {
        procs := procs[current.value := procs[current.value].(state := Sleeping)];
      }
      Reschedule();
    }

    /** The scheduling part of `exit`. */
    method ExitCurrent()
      requires Known(View())
      modifies this
      ensures View() == Schedule(Mark(old(View()), Dead))
      ensures old(Inv(View()) && current.Some?) ==>
        && var p := old(current.value);
        && current != Some(p) && p !in queue && p in procs && procs[p] == old(procs[p]).(state := Dead)
    {
      if current.Some? && Inv(View()) {
        ExitEffect(View());
      }
      hide Schedule, Inv;
      if current.Some? {
        procs := procs[current.value := procs[current.value].(state := Dead)];
      }
      Reschedule();
    }

    /** `wake_up`: the first queue entry with this number, if it sleeps. */
    method WakeUp(pid: nat)
      requires Inv(View())
      modifies `procs
      ensures View() == Wake(old(View()), pid)
      ensures procs.Keys == old(procs.Keys)
      ensures forall q :: q in procs ==> procs[q] == if q == pid && q in queue && old(procs)[q].state == Sleeping
                                                     then old(procs)[q].(state := Runnable) else old(procs)[q]
    {
      var i := 0;
      while i < |queue|
        invariant i <= |queue| && procs == old(procs)
        invariant forall j :: 0 <= j < i ==> queue[j] != pid || procs[queue[j]].state != Sleeping
      {
        if queue[i] == pid && procs[queue[i]].state == Sleeping {
          procs := procs[queue[i] := procs[queue[i]].(state := Runnable)];
          return;
        }
        i := i + 1;
      }
      if pid in queue {
        assert procs[pid := procs[pid]] == procs;
      }
    }

    /** `wake_up_all_sleeping`: the queue and the current process. */
    method WakeUpAllSleeping()
      requires Known(View())
      modifies `procs
      ensures View() == WakeAll(old(View()))
      ensures procs.Keys == old(procs.Keys)
      ensures forall q :: q in procs ==>
        procs[q] == if (q in queue || current == Some(q)) && old(procs)[q].state == Sleeping
                    then old(procs)[q].(state := Runnable) else old(procs)[q]
    {
      hide AwakeTo;
      var i := 0;
      while i < |queue|
        invariant i <= |queue| && procs == AwakeTo(queue, old(procs), i)
      {
        AwakeNext(queue, old(procs), i);
        if procs[queue[i]].state == Sleeping {
          procs := procs[queue[i] := procs[queue[i]].(state := Runnable)];
        }
        i := i + 1;
      }
      assert queue[..i] == queue;
      AwakeSame(procs);
      if current.Some? && procs[current.value].state == Sleeping {
        procs := procs[current.value := procs[current.value].(state := Runnable)];
      }
    }
  }
}
