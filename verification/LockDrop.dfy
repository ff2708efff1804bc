/**
 * The drop of a guard, with reading the payload back and removing the file as separate steps:
 * exactly when a guard that has been overtaken deletes its successor's file.
 */
module LockDrop {
  import opened Lock

  /** A removal takes away the file of a process that has read its payload back and will remove the path. */
  ghost predicate Overtakes(s: State, step: Step) {
    && ((step.RemoveStale? && At(s, step.p).SawStale?) || (step.WriteFails? && At(s, step.p).Created?))
    && s.file.Some?
    && exists q :: q in s.phases && s.phases[q] == Matched(s.file.value.id)
  }

  /** No step of the run does so. */
  ghost predicate OvertakeFree(s: State, steps: seq<Step>, after: nat) {
    forall i | 0 <= i < |steps| && Run(s, steps[..i], after).Some? ::
      !Overtakes(Run(s, steps[..i], after).value, steps[i])
  }

  /** Payloads are told apart, and whoever is about to remove the file finds its own. */
  ghost predicate RemovesOwn(s: State) {
    && (s.file.Some? ==> s.file.value.id < s.next)
    && (forall p | p in s.phases && Owns(s.phases[p]) :: s.phases[p].id < s.next)
    && (forall p, q | p in s.phases && q in s.phases && Owns(s.phases[p]) && Owns(s.phases[q])
                      && s.phases[p].id == s.phases[q].id :: p == q)
    && (forall p | p in s.phases && s.phases[p].Matched? :: s.file.Some? && s.file.value.id == s.phases[p].id)
  }

  lemma CreateKeepsOwn(s: State, p: nat, after: nat)
    requires RemovesOwn(s) && Next(s, TryCreate(p), after).Some?
    ensures RemovesOwn(Next(s, TryCreate(p), after).value)
  {
  }

  lemma RemovalKeepsOwn(s: State, step: Step, after: nat)
    requires RemovesOwn(s) && !Overtakes(s, step) && Next(s, step, after).Some?
    requires step.RemoveStale? || step.WriteFails? || step.RemoveOwn?
    ensures RemovesOwn(Next(s, step, after).value)
  {
  }

  lemma WriteKeepsOwn(s: State, p: nat, after: nat)
    requires RemovesOwn(s) && Next(s, Write(p), after).Some?
    ensures RemovesOwn(Next(s, Write(p), after).value)
  {
  }

  lemma DropKeepsOwn(s: State, step: Step, after: nat)
    requires RemovesOwn(s) && Next(s, step, after).Some? && (step.StartDrop? || step.ReadBack?)
    ensures RemovesOwn(Next(s, step, after).value)
  {
  }

  lemma OtherKeepsOwn(s: State, step: Step, after: nat)
    requires RemovesOwn(s) && Next(s, step, after).Some? && (step.Stat? || step.Crash? || step.Pass?)
    ensures RemovesOwn(Next(s, step, after).value)
  {
  }

  lemma KeepsOwn(s: State, step: Step, after: nat)
    requires RemovesOwn(s) && !Overtakes(s, step) && Next(s, step, after).Some?
    ensures RemovesOwn(Next(s, step, after).value)
  {
    hide RemovesOwn, Next, Overtakes;
    if step.TryCreate? {
      CreateKeepsOwn(s, step.p, after);
    } else if step.RemoveStale? || step.WriteFails? || step.RemoveOwn? {
      RemovalKeepsOwn(s, step, after);
    } else if step.Write? {
      WriteKeepsOwn(s, step.p, after);
    } else if step.StartDrop? || step.ReadBack? {
      DropKeepsOwn(s, step, after);
    } else {
      OtherKeepsOwn(s, step, after);
    }
  }

  lemma PrefixIsFree(s: State, steps: seq<Step>, n: nat, after: nat)
    requires n <= |steps| && OvertakeFree(s, steps, after)
    ensures OvertakeFree(s, steps[..n], after)
  {
    hide Run, Overtakes;
    forall i | 0 <= i < n ensures steps[..n][..i] == steps[..i] && steps[..n][i] == steps[i] {
    }
  }

  lemma {:induction false} OwnRun(s: State, steps: seq<Step>, after: nat)
    requires RemovesOwn(s) && OvertakeFree(s, steps, after) && Run(s, steps, after).Some?
    ensures RemovesOwn(Run(s, steps, after).value)
    decreases |steps|
  {
    hide RemovesOwn, Overtakes, Next;
    if steps != [] {
      var n := |steps| - 1;
      RunPrefix(s, steps, n, after);
      PrefixIsFree(s, steps, n, after);
      OwnRun(s, steps[..n], after);
      var t := Run(s, steps[..n], after).value;
      Then(s, steps[..n], t, steps[n], after);
      assert steps == steps[..n] + [steps[n]];
      KeepsOwn(t, steps[n], after);
    }
  }

  /**
   * Any number of processes, any order of file operations, any deaths: a drop removes the
   * dropper's own file, and that file is there, unless a removal has overtaken one.
   */
  lemma DropRemovesOwn(steps: seq<Step>, p: nat, after: nat)
    requires OvertakeFree(START, steps, after) && Run(START, steps, after).Some?
    requires Next(Run(START, steps, after).value, RemoveOwn(p), after).Some?
    ensures var s := Run(START, steps, after).value;
      s.file.Some? && s.file.value.id == At(s, p).id
  {
    hide Run, OvertakeFree;
    OwnRun(START, steps, after);
  }

  /** The next step of `p` deletes the file of the guard that `q` holds. */
  predicate DropHits(s: State, p: nat, q: nat) {
    && p != q && At(s, p).Matched? && HasGuard(s, q)
    && s.file.Some? && s.file.value.id == At(s, q).id
  }

  /** Up to the step `n` the run can go on, without another overtaking, until a drop deletes a successor's file. */
  ghost predicate LeadsToHit(steps: seq<Step>, n: nat, more: seq<Step>, after: nat) {
    && n <= |steps|
    && Run(START, steps[..n], after).Some?
    && OvertakeFree(Run(START, steps[..n], after).value, more, after)
    && Run(START, steps[..n] + more, after).Some?
    && exists p, q :: DropHits(Run(START, steps[..n] + more, after).value, p, q)
  }

  lemma NoRemovalFree(s: State, steps: seq<Step>, after: nat)
    requires forall i | 0 <= i < |steps| :: !steps[i].RemoveStale? && !steps[i].WriteFails?
    ensures OvertakeFree(s, steps, after)
  {
    hide Run;
  }

  /** Whoever has overtaken takes the lock for itself, and the overtaken drop deletes its file. */
  lemma OvertakingHits(s: State, step: Step, q: nat, after: nat)
    requires Overtakes(s, step) && q in s.phases && s.phases[q] == Matched(s.file.value.id)
    ensures var t := Next(s, step, after);
      var more := [TryCreate(step.p), Write(step.p)];
      && t.Some? && Run(t.value, more, after).Some?
      && DropHits(Run(t.value, more, after).value, q, step.p)
  {
    hide Run;
    var t := Next(s, step, after).value;
    RunOne(t, TryCreate(step.p), after);
    var u := Next(t, TryCreate(step.p), after).value;
    Then(t, [TryCreate(step.p)], u, Write(step.p), after);
    assert [TryCreate(step.p)] + [Write(step.p)] == [TryCreate(step.p), Write(step.p)];
  }

  lemma OvertakingLeadsToHit(steps: seq<Step>, n: nat, after: nat) returns (more: seq<Step>)
    requires n < |steps| && Run(START, steps[..n], after).Some?
    requires Overtakes(Run(START, steps[..n], after).value, steps[n])
    ensures LeadsToHit(steps, n + 1, more, after)
  {
    hide Run, OvertakeFree, Next, DropHits;
    var s := Run(START, steps[..n], after).value;
    var q :| q in s.phases && s.phases[q] == Matched(s.file.value.id);
    var p := steps[n].p;
    more := [TryCreate(p), Write(p)];
    OvertakingHits(s, steps[n], q, after);
    var t := Next(s, steps[n], after).value;
    Then(START, steps[..n], s, steps[n], after);
    assert steps[..n] + [steps[n]] == steps[..n + 1];
    NoRemovalFree(t, more, after);
    RunAppend(START, steps[..n + 1], more, after);
    assert DropHits(Run(START, steps[..n + 1] + more, after).value, q, p);
  }

  lemma FreeNeverHits(steps: seq<Step>, n: nat, more: seq<Step>, after: nat)
    requires n <= |steps| && OvertakeFree(START, steps, after) && Run(START, steps, after).Some?
    ensures !LeadsToHit(steps, n, more, after)
  {
    hide Run, OvertakeFree, Next;
    PrefixIsFree(START, steps, n, after);
    RunPrefix(START, steps, n, after);
    OwnRun(START, steps[..n], after);
    if LeadsToHit(steps, n, more, after) {
      var s := Run(START, steps[..n], after).value;
      RunAppend(START, steps[..n], more, after);
      OwnRun(s, more, after);
    }
  }

  /**
   * Exactly when a drop can delete the successor's file: a part of the run has a continuation,
   * without another overtaking, into such a drop if and only if the run has overtaken one.
   */
  lemma HitsExactlyAfterOvertaking(steps: seq<Step>, after: nat)
    requires Run(START, steps, after).Some?
    ensures (exists n, more :: LeadsToHit(steps, n, more, after)) <==> !OvertakeFree(START, steps, after)
  {
    hide Run, Overtakes;
    if OvertakeFree(START, steps, after) {
      forall n: nat, more | n <= |steps| ensures !LeadsToHit(steps, n, more, after) {
        FreeNeverHits(steps, n, more, after);
      }
    } else {
      var n: nat :| n < |steps| && Run(START, steps[..n], after).Some?
                    && Overtakes(Run(START, steps[..n], after).value, steps[n]);
      var more := OvertakingLeadsToHit(steps, n, after);
    }
  }

  // ---- runs without a hit -------------------------------------------------------------------------------

  lemma NoHitNoOvertaking(s: State, step: Step)
    requires Exclusive(s) && !Hits(s, step)
    ensures !Overtakes(s, step)
  {
  }

  /** Where exclusion holds, drops are safe too: a run that removes no live owner's file as abandoned overtakes none. */
  lemma HitFreeIsOvertakeFree(steps: seq<Step>, after: nat)
    requires HitFree(START, steps, after)
    ensures OvertakeFree(START, steps, after)
  {
    hide Run, HitFree, Overtakes, Exclusive;
    forall i | 0 <= i < |steps| && Run(START, steps[..i], after).Some?
      ensures !Overtakes(Run(START, steps[..i], after).value, steps[i])
    {
      HitFreePrefix(START, steps, i, after);
      assert Exclusive(START) by {
        NothingExclusive();
      }
      ExclusiveRun(START, steps[..i], after);
      NoHitOnTheWay(START, steps, i, after);
      NoHitNoOvertaking(Run(START, steps[..i], after).value, steps[i]);
    }
  }

  lemma NothingExclusive()
    ensures Exclusive(START)
  {
  }

  lemma {:induction false} NoHitOnTheWay(s: State, steps: seq<Step>, n: nat, after: nat)
    requires n < |steps| && HitFree(s, steps, after) && Run(s, steps[..n], after).Some?
    ensures !Hits(Run(s, steps[..n], after).value, steps[n])
    decreases n
  {
    hide Next, Hits;
    if n > 0 {
      assert steps[..n][1..] == steps[1..][..n - 1];
      NoHitOnTheWay(Next(s, steps[0], after).value, steps[1..], n - 1, after);
    }
  }
}
