/**
 * The pool of src/rayoff.rs and its per-dispatch Job.
 *
 * A Job is shared by `senders.len() + 1` participants: every background
 * worker that received the job over its channel, and the dispatching thread.
 * Each participant runs `Job::execute`, a loop of atomic steps on two shared
 * counters and one in-place write per claimed index. The model keeps the
 * program counter of every participant in `phase` and lets a scheduler pick
 * which participant takes the next atomic step, so every interleaving of the
 * threads is a run of the model.
 *
 * Unlike the older job (src/job.rs), `done_index` here counts participants
 * that found the work exhausted, so `wait` returns only after every
 * participant has made its last access to the job.
 */
module Rayoff {
  import opened Tally

  datatype Option<T> = None | Some(value: T)

  /** Where one participant stands in the loop of `Job::execute`. */
  datatype Phase =
    | Claiming              // next: fetch_add on work_index
    | Applying(index: nat)  // claimed an index below num; next: call func on it
    | Exhausting            // claimed an index at or beyond num; next: fetch_add on done_index
    | Exhausted             // left the loop

  function IsApplying(ph: Phase): nat { if ph.Applying? then 1 else 0 }

  function IsPastEnd(ph: Phase): nat { if ph.Exhausting? || ph.Exhausted? then 1 else 0 }

  function IsExhausted(ph: Phase): nat { if ph.Exhausted? then 1 else 0 }

  /** Steps a participant in this phase may still take, weighted so that every step lowers the potential. */
  function Cost(ph: Phase): nat
  {
    match ph
    case Claiming => 2
    case Applying(_) => 3
    case Exhausting => 1
    case Exhausted => 0
  }

  class Job<T> {
    /** The caller's slice `elems`, borrowed for one dispatch. */
    const buf: array<T>
    const num: nat
    /** The per-element closure, `func(&mut slice[index])`, as a value transformer. */
    const f: T -> T
    var workIndex: nat
    var doneIndex: nat
    /** The program counter of each participant (thread-local state in the source). */
    var phase: seq<Phase>

    /** The buffer as it was when the job was built. */
    ghost const orig: seq<T>
    /** How many times `func` has been called on each index. */
    ghost var times: seq<nat>

    /**
     * The protocol invariant. Applying participants hold distinct, claimed,
     * not yet applied indices; every index has been applied at most once and
     * the buffer shows exactly the applications made; the counters agree with
     * the participants' phases.
     */
    ghost predicate Valid()
      reads this, buf
    {
      && buf.Length == num == |orig| == |times|
      && (forall p :: 0 <= p < |phase| && phase[p].Applying? ==>
            phase[p].index < num && phase[p].index < workIndex && times[phase[p].index] == 0)
      && (forall p, q :: 0 <= p < q < |phase| && phase[p].Applying? && phase[q].Applying? ==>
            phase[p].index != phase[q].index)
      && (forall i :: 0 <= i < num ==> times[i] <= 1)
      && (forall i :: workIndex <= i < num ==> times[i] == 0)
      && (forall i :: 0 <= i < num ==> buf[i] == if times[i] == 0 then orig[i] else f(orig[i]))
      && Total(times, Identity) + Total(phase, IsApplying) == Min(workIndex, num)
      && Total(phase, IsPastEnd) == workIndex - Min(workIndex, num)
      && doneIndex == Total(phase, IsExhausted)
    }

    /** A measure every atomic step lowers. */
    ghost function Potential(): nat
      reads this
    {
      2 * (num - Min(workIndex, num)) + Total(phase, Cost)
    }

    /** The Job built in `dispatch_mut`, shared by `participants` threads. */
    constructor (elems: array<T>, func: T -> T, participants: nat)
      ensures Valid()
      ensures buf == elems && num == elems.Length && f == func && orig == elems[..]
      ensures workIndex == 0 && doneIndex == 0
      ensures |phase| == participants && forall p :: 0 <= p < participants ==> phase[p] == Claiming
    {
      buf := elems;
      num := elems.Length;
      f := func;
      orig := elems[..];
      workIndex := 0;
      doneIndex := 0;
      phase := seq(participants, _ => Claiming);
      times := seq(elems.Length, _ => 0);
      new;
      TotalZeroIff(times, Identity);
      TotalZeroIff(phase, IsApplying);
      TotalZeroIff(phase, IsPastEnd);
      TotalZeroIff(phase, IsExhausted);
    }

    /**
     * `work_index.fetch_add(1)` by participant `p`: it gets the current value,
     * the counter goes up by one, and the participant either holds an index to
     * apply or has found the work exhausted.
     */
    method Claim(p: nat) returns (index: nat)
      requires Valid() && p < |phase| && phase[p] == Claiming
      modifies this
      ensures Valid()
      ensures index == old(workIndex) && workIndex == old(workIndex) + 1
      ensures phase == old(phase)[p := if index < num then Applying(index) else Exhausting]
      ensures doneIndex == old(doneIndex) && times == old(times)
      ensures Potential() < old(Potential())
    {
      ghost var before := phase;
      index := workIndex;
      workIndex := workIndex + 1;
      var next := if index < num then Applying(index) else Exhausting;
      phase := phase[p := next];
      TotalUpdate(before, p, next, IsApplying);
      TotalUpdate(before, p, next, IsPastEnd);
      TotalUpdate(before, p, next, IsExhausted);
      TotalUpdate(before, p, next, Cost);
    }

    /** `(self.func)(elems, num, index)`: participant `p` updates its claimed element in place. */
    method Apply(p: nat)
      requires Valid() && p < |phase| && phase[p].Applying?
      modifies this, buf
      ensures Valid()
      ensures var i := old(phase[p].index);
        && buf[..] == old(buf[..])[i := f(old(buf[i]))]
        && old(times[i]) == 0 && times == old(times)[i := 1]
      ensures phase == old(phase)[p := Claiming]
      ensures workIndex == old(workIndex) && doneIndex == old(doneIndex)
      ensures Potential() < old(Potential())
    {
      ghost var before := phase;
      ghost var counted := times;
      var i := phase[p].index;
      buf[i] := f(buf[i]);
      times := times[i := times[i] + 1];
      phase := phase[p := Claiming];
      TotalUpdate(counted, i, 1, Identity);
      TotalUpdate(before, p, Claiming, IsApplying);
      TotalUpdate(before, p, Claiming, IsPastEnd);
      TotalUpdate(before, p, Claiming, IsExhausted);
      TotalUpdate(before, p, Claiming, Cost);
    }

    /** `done_index.fetch_add(1)` and `break`: participant `p` reports that it found the work exhausted. */
    method Exhaust(p: nat)
      requires Valid() && p < |phase| && phase[p] == Exhausting
      modifies this
      ensures Valid()
      ensures doneIndex == old(doneIndex) + 1
      ensures phase == old(phase)[p := Exhausted]
      ensures workIndex == old(workIndex) && times == old(times)
      ensures Potential() < old(Potential())
    {
      ghost var before := phase;
      doneIndex := doneIndex + 1;
      phase := phase[p := Exhausted];
      TotalUpdate(before, p, Exhausted, IsApplying);
      TotalUpdate(before, p, Exhausted, IsPastEnd);
      TotalUpdate(before, p, Exhausted, IsExhausted);
      TotalUpdate(before, p, Exhausted, Cost);
    }

    /** The next atomic step of participant `p`, whichever it is. */
    method Step(p: nat)
      requires Valid() && p < |phase| && !phase[p].Exhausted?
      modifies this, buf
      ensures Valid() && |phase| == old(|phase|)
      ensures forall q :: 0 <= q < |phase| && q != p ==> phase[q] == old(phase[q])
      ensures doneIndex == old(doneIndex) + (if phase[p].Exhausted? then 1 else 0)
      ensures workIndex == old(workIndex) + (if old(phase[p]).Claiming? then 1 else 0)
      ensures old(phase[p]).Claiming? ==>
        phase[p] == if old(workIndex) < num then Applying(old(workIndex)) else Exhausting
      ensures old(phase[p]).Applying? ==> phase[p] == Claiming
      ensures old(phase[p]).Exhausting? ==> phase[p] == Exhausted
      ensures old(phase[p]).Applying? ==>
        && buf[..] == old(buf[..])[old(phase[p].index) := f(old(buf[phase[p].index]))]
        && times == old(times)[old(phase[p].index) := 1]
      ensures !old(phase[p]).Applying? ==> buf[..] == old(buf[..]) && times == old(times)
      ensures Potential() < old(Potential())
    {
      match phase[p]
      case Claiming =>
        var index := Claim(p);
      case Applying(_) =>
        Apply(p);
      case Exhausting =>
        Exhaust(p);
    }

    /**
     * `Job::execute` run by participant `p`, while the scheduler `sched`
     * interleaves steps of the other participants. It returns once `p` has
     * claimed an index at or beyond `num`, having added exactly one to
     * `done_index` itself. `steps` is the number of atomic steps taken, so
     * that a caller can hand the rest of the schedule to its next phase.
     */
    method Execute(p: nat, sched: nat -> nat) returns (steps: nat)
      requires Valid() && p < |phase| && phase[p] == Claiming
      modifies this, buf
      ensures Valid() && |phase| == old(|phase|)
      ensures steps > 0
      ensures phase[p] == Exhausted
      ensures workIndex >= old(workIndex)
      ensures doneIndex >= old(doneIndex) + 1
      ensures workIndex > num
    {
      var k := 0;
      while !phase[p].Exhausted?
        invariant Valid() && |phase| == old(|phase|)
        invariant workIndex >= old(workIndex)
        invariant doneIndex >= old(doneIndex) + (if phase[p].Exhausted? then 1 else 0)
        invariant k == 0 ==> phase[p] == Claiming
        decreases Potential()
      {
        var q := sched(k) % |phase|;
        if phase[q].Exhausted? {
          q := p;
        }
        Step(q);
        k := k + 1;
      }
      steps := k;
      TotalZeroIff(phase, IsPastEnd);
    }

    /** No more participants than there are can report exhaustion. */
    lemma DoneBounded()
      requires Valid()
      ensures doneIndex <= |phase|
    {
      TotalBound(phase, IsExhausted);
    }

    /**
     * Once as many participants as there are have reported, every one of them
     * has left the loop and every index below `num` has been applied exactly
     * once: the buffer is the original mapped by `f`.
     */
    lemma AllExhaustedComplete()
      requires Valid() && |phase| > 0 && doneIndex >= |phase|
      ensures forall q :: 0 <= q < |phase| ==> phase[q] == Exhausted
      ensures forall i :: 0 <= i < num ==> times[i] == 1
      ensures buf[..] == Mapped(f, orig)
    {
      TotalBound(phase, IsExhausted);
      TotalFullIff(phase, IsExhausted);
      TotalFullIff(phase, IsPastEnd);
      TotalZeroIff(phase, IsApplying);
      TotalFullIff(times, Identity);
    }

    /** One load of `done_index` in `Job::wait(n)`: whether the wait is over. */
    method Poll(n: nat) returns (ready: bool)
      requires Valid()
      ensures ready <==> doneIndex >= n
      ensures ready && n == |phase| && n > 0 ==>
        && (forall q :: 0 <= q < |phase| ==> phase[q] == Exhausted)
        && buf[..] == Mapped(f, orig)
    {
      ready := doneIndex >= n;
      if ready && n == |phase| && n > 0 {
        AllExhaustedComplete();
      }
    }

    /**
     * `Job::wait(n)`: poll `done_index` until it reaches `n`; between polls
     * the dispatching thread yields and some participant that has not yet
     * left its loop takes a step.
     */
    method Wait(n: nat, sched: nat -> nat)
      requires Valid() && n <= |phase|
      modifies this, buf
      ensures Valid() && |phase| == old(|phase|)
      ensures workIndex >= old(workIndex)
      ensures doneIndex >= n
      ensures n == |phase| && n > 0 ==>
        && (forall q :: 0 <= q < |phase| ==> phase[q] == Exhausted)
        && buf[..] == Mapped(f, orig)
    {
      var k := 0;
      while true
        invariant Valid() && |phase| == old(|phase|)
        invariant workIndex >= old(workIndex)
        decreases Potential()
      {
        var ready := Poll(n);
        if ready {
          break;
        }
        TotalFullIff(phase, IsExhausted);
        var q := sched(k) % |phase|;
        if phase[q].Exhausted? {
          q :| 0 <= q < |phase| && !phase[q].Exhausted?;
        }
        Step(q);
        k := k + 1;
      }
    }
  }

  /**
   * `sys_info::cpu_num().unwrap_or(16) - 1`: the number of background
   * workers, so that they and the dispatching thread together match the CPU
   * count (16 when the query fails). The subtraction underflows, and the
   * source panics, when the query reports zero CPUs.
   */
  function WorkerCount(cpu: Option<nat>): (r: Option<nat>)
    ensures r.Some? <==> cpu != Some(0)
    ensures r.Some? ==> r.value + 1 == (if cpu.Some? then cpu.value else 16)
  {
    match cpu
    case None => Some(15)
    case Some(c) => if c == 0 then None else Some(c - 1)
  }

  /** An element of the zipped vector in `Pool::map`: the input and the output slot it writes. */
  datatype Slot<A, B> = Slot(input: A, output: B)

  function Outputs<A, B>(s: seq<Slot<A, B>>): seq<B>
  {
    seq(|s|, i requires 0 <= i < |s| => s[i].output)
  }

  class Pool {
    /** One channel end per background worker. */
    var senders: seq<nat>
    /** One thread handle per background worker. */
    var threads: seq<nat>

    /** `Pool::default`: spawn one worker per CPU but one. */
    constructor Default(cpu: Option<nat>)
      requires cpu != Some(0)
      ensures WorkerCount(cpu) == Some(|senders|)
      ensures |threads| == |senders|
    {
      var count := WorkerCount(cpu).value;
      var s: seq<nat> := [];
      var t: seq<nat> := [];
      var k := 0;
      while k < count
        invariant k <= count && |s| == k && |t| == k
      {
        s := s + [k];
        t := t + [k];
        k := k + 1;
      }
      senders := s;
      threads := t;
    }

    /**
     * `Pool::dispatch_mut`: every worker receives the job, the calling thread
     * executes it too and then waits for all `senders.len() + 1`
     * participants. `sched` is one schedule for the whole dispatch: the
     * steps taken while the calling thread executes come first, and the
     * steps taken while it waits continue from where they left off. Whatever
     * the interleaving, each element ends up updated by `func` exactly once.
     */
    method DispatchMut<T>(elems: array<T>, func: T -> T, sched: nat -> nat)
      modifies elems
      ensures elems[..] == Mapped(func, old(elems[..]))
    {
      var job := new Job(elems, func, |senders| + 1);
      var steps := job.Execute(|senders|, sched);
      job.Wait(|senders| + 1, (k: nat) => sched(steps + k));
    }

    /**
     * `Pool::map`: pair each input with a default-initialised output slot,
     * dispatch the pairs, and collect the outputs in input order.
     */
    method Map<A, B>(inputs: seq<A>, func: A -> B, default: B, sched: nat -> nat) returns (outs: seq<B>)
      ensures |outs| == |inputs|
      ensures forall i :: 0 <= i < |inputs| ==> outs[i] == func(inputs[i])
    {
      var elems := new Slot<A, B>[|inputs|](i requires 0 <= i < |inputs| => Slot(inputs[i], default));
      DispatchMut(elems, (item: Slot<A, B>) => item.(output := func(item.input)), sched);
      outs := Outputs(elems[..]);
    }
  }

  /** `test_pool`: 100 zeros, each incremented once, become 100 ones, for any CPU count and schedule. */
  method TestPool(cpu: Option<nat>, sched: nat -> nat) returns (result: seq<nat>)
    requires cpu != Some(0)
    ensures result == seq(100, _ => 1)
  {
    var pool := new Pool.Default(cpu);
    var elems := new nat[100](_ => 0);
    pool.DispatchMut(elems, (v: nat) => v + 1, sched);
    result := elems[..];
  }

  /** `test_map`: mapping 100 zeros with `+1` yields 100 ones, for any CPU count and schedule. */
  method TestMap(cpu: Option<nat>, sched: nat -> nat) returns (result: seq<nat>)
    requires cpu != Some(0)
    ensures result == seq(100, _ => 1)
  {
    var pool := new Pool.Default(cpu);
    result := pool.Map<nat, nat>(seq(100, _ => 0), (v: nat) => v + 1, 0, sched);
  }
}
