/**
 * The older Job of src/job.rs.
 *
 * Participants run the same claiming loop as in src/rayoff.rs, but
 * `done_index` counts processed elements: it goes up by one after each call
 * of `func`, and is left alone when a participant finds the work exhausted.
 * `wait` spins until it reaches `num`. As in the newer job, the program
 * counter of every participant is kept in `phase` and a scheduler picks which
 * participant takes the next atomic step.
 */
module LegacyJob {
  import opened Tally

  /** Where one participant stands in the loop of `Job::execute`. */
  datatype Phase =
    | Claiming              // next: fetch_add on work_index
    | Applying(index: nat)  // claimed an index below num; next: call func on it
    | Reporting             // func returned; next: fetch_add on done_index
    | Exhausted             // claimed an index at or beyond num and left the loop

  function IsApplying(ph: Phase): nat { if ph.Applying? then 1 else 0 }

  function IsReporting(ph: Phase): nat { if ph.Reporting? then 1 else 0 }

  function IsExhausted(ph: Phase): nat { if ph.Exhausted? then 1 else 0 }

  /** Steps a participant in this phase may still take, weighted so that every step lowers the potential. */
  function Cost(ph: Phase): nat
  {
    match ph
    case Claiming => 1
    case Applying(_) => 3
    case Reporting => 2
    case Exhausted => 0
  }

  class Job<T> {
    /** The caller's slice `elems`. */
    const buf: array<T>
    const num: nat
    /** The closure behind the trampoline, `func(&mut elems[index])`, as a value transformer. */
    const f: T -> T
    var workIndex: nat
    var doneIndex: nat
    /** The program counter of each participant (thread-local state in the source). */
    var phase: seq<Phase>

    /** The buffer as it was when the job was built. */
    ghost const orig: seq<T>
    /** How many times `func` has been called on each index. */
    ghost var times: seq<nat>

    /**
     * The protocol invariant. Applying participants hold distinct, claimed,
     * not yet applied indices; every index has been applied at most once and
     * the buffer shows exactly the applications made; `done_index` is the
     * number of applications minus those not yet reported.
     */
    ghost predicate Valid()
      reads this, buf
    {
      && buf.Length == num == |orig| == |times|
      && (forall p :: 0 <= p < |phase| && phase[p].Applying? ==>
            phase[p].index < num && phase[p].index < workIndex && times[phase[p].index] == 0)
      && (forall p, q :: 0 <= p < q < |phase| && phase[p].Applying? && phase[q].Applying? ==>
            phase[p].index != phase[q].index)
      && (forall i :: 0 <= i < num ==> times[i] <= 1)
      && (forall i :: workIndex <= i < num ==> times[i] == 0)
      && (forall i :: 0 <= i < num ==> buf[i] == if times[i] == 0 then orig[i] else f(orig[i]))
      && Total(times, Identity) + Total(phase, IsApplying) == Min(workIndex, num)
      && Total(phase, IsExhausted) == workIndex - Min(workIndex, num)
      && doneIndex + Total(phase, IsReporting) == Total(times, Identity)
    }

    /** A measure every atomic step lowers. */
    ghost function Potential(): nat
      reads this
    {
      3 * (num - Min(workIndex, num)) + Total(phase, Cost)
    }

    /** `Job::new`, with the participants that will later run `execute`. */
    constructor (elems: array<T>, func: T -> T, participants: nat)
      ensures Valid()
      ensures buf == elems && num == elems.Length && f == func && orig == elems[..]
      ensures workIndex == 0 && doneIndex == 0
      ensures |phase| == participants && forall p :: 0 <= p < participants ==> phase[p] == Claiming
    {
      buf := elems;
      num := elems.Length;
      f := func;
      orig := elems[..];
      workIndex := 0;
      doneIndex := 0;
      phase := seq(participants, _ => Claiming);
      times := seq(elems.Length, _ => 0);
      new;
      TotalZeroIff(times, Identity);
      TotalZeroIff(phase, IsApplying);
      TotalZeroIff(phase, IsReporting);
      TotalZeroIff(phase, IsExhausted);
    }

    /**
     * `work_index.fetch_add(1)` by participant `p`: it gets the current value,
     * the counter goes up by one, and the participant either holds an index to
     * apply or leaves the loop without touching `done_index`.
     */
    method Claim(p: nat) returns (index: nat)
      requires Valid() && p < |phase| && phase[p] == Claiming
      modifies this
      ensures Valid()
      ensures index == old(workIndex) && workIndex == old(workIndex) + 1
      ensures phase == old(phase)[p := if index < num then Applying(index) else Exhausted]
      ensures doneIndex == old(doneIndex) && times == old(times)
      ensures Potential() < old(Potential())
    {
      ghost var before := phase;
      index := workIndex;
      workIndex := workIndex + 1;
      var next := if index < num then Applying(index) else Exhausted;
      phase := phase[p := next];
      TotalUpdate(before, p, next, IsApplying);
      TotalUpdate(before, p, next, IsReporting);
      TotalUpdate(before, p, next, IsExhausted);
      TotalUpdate(before, p, next, Cost);
    }

    /** `(self.func)(ctx, elems, index)`: participant `p` updates `elems[index]` in place. */
    method Apply(p: nat)
      requires Valid() && p < |phase| && phase[p].Applying?
      modifies this, buf
      ensures Valid()
      ensures var i := old(phase[p].index);
        && buf[..] == old(buf[..])[i := f(old(buf[i]))]
        && old(times[i]) == 0 && times == old(times)[i := 1]
      ensures phase == old(phase)[p := Reporting]
      ensures workIndex == old(workIndex) && doneIndex == old(doneIndex)
      ensures Potential() < old(Potential())
    {
      ghost var before := phase;
      ghost var counted := times;
      var i := phase[p].index;
      buf[i] := f(buf[i]);
      times := times[i := times[i] + 1];
      phase := phase[p := Reporting];
      TotalUpdate(counted, i, 1, Identity);
      TotalUpdate(before, p, Reporting, IsApplying);
      TotalUpdate(before, p, Reporting, IsReporting);
      TotalUpdate(before, p, Reporting, IsExhausted);
      TotalUpdate(before, p, Reporting, Cost);
    }

    /** `done_index.fetch_add(1)` after `func` returned: one more element processed. */
    method Report(p: nat)
      requires Valid() && p < |phase| && phase[p] == Reporting
      modifies this
      ensures Valid()
      ensures doneIndex == old(doneIndex) + 1
      ensures phase == old(phase)[p := Claiming]
      ensures workIndex == old(workIndex) && times == old(times)
      ensures Potential() < old(Potential())
    {
      ghost var before := phase;
      doneIndex := doneIndex + 1;
      phase := phase[p := Claiming];
      TotalUpdate(before, p, Claiming, IsApplying);
      TotalUpdate(before, p, Claiming, IsReporting);
      TotalUpdate(before, p, Claiming, IsExhausted);
      TotalUpdate(before, p, Claiming, Cost);
    }

    /** The next atomic step of participant `p`, whichever it is. */
    method Step(p: nat)
      requires Valid() && p < |phase| && !phase[p].Exhausted?
      modifies this, buf
      ensures Valid() && |phase| == old(|phase|)
      ensures forall q :: 0 <= q < |phase| && q != p ==> phase[q] == old(phase[q])
      ensures doneIndex == old(doneIndex) + (if old(phase[p]).Reporting? then 1 else 0)
      ensures workIndex == old(workIndex) + (if old(phase[p]).Claiming? then 1 else 0)
      ensures old(phase[p]).Claiming? ==>
        phase[p] == if old(workIndex) < num then Applying(old(workIndex)) else Exhausted
      ensures old(phase[p]).Applying? ==> phase[p] == Reporting
      ensures old(phase[p]).Reporting? ==> phase[p] == Claiming
      ensures old(phase[p]).Applying? ==>
        && buf[..] == old(buf[..])[old(phase[p].index) := f(old(buf[phase[p].index]))]
        && times == old(times)[old(phase[p].index) := 1]
      ensures !old(phase[p]).Applying? ==> buf[..] == old(buf[..]) && times == old(times)
      ensures Potential() < old(Potential())
    {
      match phase[p]
      case Claiming =>
        var index := Claim(p);
      case Applying(_) =>
        Apply(p);
      case Reporting =>
        Report(p);
    }

    /**
     * `Job::execute` run by participant `p`, while the scheduler `sched`
     * interleaves steps of the other participants. It returns once `p` has
     * claimed an index at or beyond `num`.
     */
    method Execute(p: nat, sched: nat -> nat)
      requires Valid() && p < |phase| && phase[p] == Claiming
      modifies this, buf
      ensures Valid() && |phase| == old(|phase|)
      ensures phase[p] == Exhausted
      ensures workIndex >= old(workIndex)
      ensures workIndex > num
      ensures doneIndex >= old(doneIndex)
    {
      var k := 0;
      while !phase[p].Exhausted?
        invariant Valid() && |phase| == old(|phase|)
        invariant workIndex >= old(workIndex)
        invariant doneIndex >= old(doneIndex)
        decreases Potential()
      {
        var q := sched(k) % |phase|;
        if phase[q].Exhausted? {
          q := p;
        }
        Step(q);
        k := k + 1;
      }
      TotalZeroIff(phase, IsExhausted);
    }

    /**
     * While fewer than `num` elements have been reported, some participant
     * is still inside its loop, so a spinning `wait` always has someone to
     * yield to.
     */
    lemma SomeoneRunning()
      requires Valid() && |phase| > 0 && doneIndex < num
      ensures exists q :: 0 <= q < |phase| && !phase[q].Exhausted?
    {
      TotalDisjoint(phase, IsExhausted, IsApplying);
      TotalDisjoint(phase, IsExhausted, IsReporting);
      TotalFullIff(phase, IsExhausted);
    }

    /**
     * One load of `done_index` in `Job::wait`: whether the wait is over.
     * When it is, every element has been processed exactly once and no call
     * of `func` is in flight.
     */
    method Poll() returns (ready: bool)
      requires Valid()
      ensures ready <==> doneIndex >= num
      ensures doneIndex <= Min(workIndex, num)
      ensures ready ==>
        && (forall q :: 0 <= q < |phase| ==> !phase[q].Applying? && !phase[q].Reporting?)
        && (forall i :: 0 <= i < num ==> times[i] == 1)
        && buf[..] == Mapped(f, orig)
    {
      ready := doneIndex >= num;
      if ready {
        TotalBound(times, Identity);
        TotalFullIff(times, Identity);
        TotalZeroIff(phase, IsApplying);
        TotalZeroIff(phase, IsReporting);
      }
    }

    /**
     * `Job::wait`: poll `done_index` until it reaches `num`; between polls
     * the waiting thread yields and some participant that has not yet left
     * its loop takes a step. With `num == 0` it returns at the first poll,
     * without any participant having run.
     */
    method Wait(sched: nat -> nat)
      requires Valid() && (num == 0 || |phase| > 0)
      modifies this, buf
      ensures Valid() && |phase| == old(|phase|)
      ensures workIndex >= old(workIndex)
      ensures doneIndex >= num
      ensures buf[..] == Mapped(f, orig)
      ensures num == 0 ==> workIndex == old(workIndex) && phase == old(phase)
    {
      var k := 0;
      while true
        invariant Valid() && |phase| == old(|phase|)
        invariant workIndex >= old(workIndex)
        invariant num == 0 ==> workIndex == old(workIndex) && phase == old(phase)
        decreases Potential()
      {
        var ready := Poll();
        if ready {
          break;
        }
        SomeoneRunning();
        var q := sched(k) % |phase|;
        if phase[q].Exhausted? {
          q :| 0 <= q < |phase| && !phase[q].Exhausted?;
        }
        Step(q);
        k := k + 1;
      }
    }
  }

  /**
   * Two participants share a one-element job. The first claims index 0,
   * applies it and reports; `wait` then sees `done_index == num` and returns,
   * while the second participant has not yet made the claim with which it
   * will leave its loop: it will still `fetch_add` on `work_index` of a job
   * its owner may already have dropped.
   */
  method EarlyWaitReturn() returns (ready: bool, lagging: Phase)
    ensures ready && lagging == Claiming
  {
    var elems := new int[1](_ => 0);
    var job := new Job(elems, (v: int) => v + 1, 2);
    var index := job.Claim(0);
    job.Apply(0);
    job.Report(0);
    ready := job.Poll();
    lagging := job.phase[1];
  }
}
