/** Spin locks that save and clear the interrupt flag, on one CPU. */
module SpinLocks {

  /** A held lock with the interrupt flag saved when it was taken. */
  datatype Guard = Guard(lock: nat, saved: bool)

  /** The interrupt flag and the guards held, oldest first. */
  datatype Cpu = Cpu(flag: bool, guards: seq<Guard>)

  predicate Holds(c: Cpu, lock: nat) {
    exists i :: 0 <= i < |c.guards| && c.guards[i].lock == lock
  }

  /** `SpinLock::lock` of a free lock. */
  function Lock(c: Cpu, lock: nat): Cpu {
    Cpu(false, c.guards + [Guard(lock, c.flag)])
  }

  /** `SpinGuard::drop` of the `i`-th guard. */
  function Unlock(c: Cpu, i: nat): Cpu
    requires i < |c.guards|
  {
    Cpu(c.guards[i].saved || c.flag, c.guards[..i] + c.guards[i + 1..])
  }

  /** Interrupts are off while any lock is held, and at most the oldest guard saved them as on. */
  predicate Quiet(c: Cpu) {
    && (c.guards != [] ==> !c.flag)
    && (forall i :: 0 < i < |c.guards| ==> !c.guards[i].saved)
  }

  /** The interrupt flag outside all locks. */
  function Outer(c: Cpu): bool {
    if c.guards == [] then c.flag else c.guards[0].saved
  }

  datatype Op = Take(lock: nat) | Drop(at: nat)

  /** A free lock is taken, or some guard dropped. */
  predicate Allowed(c: Cpu, op: Op) {
    match op
    case Take(l) => !Holds(c, l)
    case Drop(i) => i < |c.guards|
  }

  predicate LastIn(c: Cpu, op: Op) {
    op.Drop? ==> op.at == |c.guards| - 1
  }

  function Apply(c: Cpu, op: Op): Cpu
    requires Allowed(c, op)
  {
    match op
    case Take(l) => Lock(c, l)
    case Drop(i) => Unlock(c, i)
  }

  /** Dropping a guard keeps interrupts off under the remaining locks exactly when it is not the oldest of
      several guards with interrupts saved as on. */
  lemma DropQuietIff(c: Cpu, i: nat)
    requires Quiet(c) && i < |c.guards|
    ensures Quiet(Unlock(c, i)) <==> !(i == 0 && |c.guards| > 1 && c.guards[0].saved)
  {
    var r := Unlock(c, i).guards;
    forall j | 0 < j < |r| ensures !r[j].saved {
      assert r[j] == if j < i then c.guards[j] else c.guards[j + 1];
    }
  }

  lemma StepQuiet(c: Cpu, op: Op)
    requires Quiet(c) && Allowed(c, op) && LastIn(c, op)
    ensures Quiet(Apply(c, op)) && Outer(Apply(c, op)) == Outer(c)
  {
    if op.Drop? {
      DropQuietIff(c, op.at);
    }
  }

  ghost predicate StepAt(cs: seq<Cpu>, ops: seq<Op>, i: nat)
    requires i < |ops| && |cs| == |ops| + 1
  {
    Allowed(cs[i], ops[i]) && LastIn(cs[i], ops[i]) && cs[i + 1] == Apply(cs[i], ops[i])
  }

  /** A run in which guards are dropped last in, first out. */
  ghost predicate Nested(cs: seq<Cpu>, ops: seq<Op>) {
    && |cs| == |ops| + 1 && cs[0].guards == []
    && forall i :: 0 <= i < |ops| ==> StepAt(cs, ops, i)
  }

  /** Interrupts stay off while a lock is held, and are as at the start whenever none is. */
  lemma {:induction false} NestedQuiet(cs: seq<Cpu>, ops: seq<Op>, n: nat)
    requires Nested(cs, ops) && n < |cs|
    ensures Quiet(cs[n]) && Outer(cs[n]) == cs[0].flag
    ensures if cs[n].guards == [] then cs[n].flag == cs[0].flag else !cs[n].flag
  {
    if n > 0 {
      NestedQuiet(cs, ops, n - 1);
      assert StepAt(cs, ops, n - 1);
      StepQuiet(cs[n - 1], ops[n - 1]);
    }
  }

  /** Dropped first in, first out, two guards leave interrupts on under the second lock. */
  lemma OutOfOrder(a: nat, b: nat)
    requires a != b
    ensures var c := Lock(Lock(Cpu(true, []), a), b);
      Quiet(c) && Unlock(c, 0).flag && Holds(Unlock(c, 0), b)
  {
    var c := Lock(Lock(Cpu(true, []), a), b);
    assert c.guards == [Guard(a, true), Guard(b, false)];
    assert Unlock(c, 0).guards == [Guard(b, false)];
    assert Unlock(c, 0).guards[0].lock == b;
  }
}
