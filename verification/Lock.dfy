/**
 * The cross-process lock file as a step machine: every file operation of every process is a step
 * of its own, and a process may die between any two.
 */
module Lock {
  import opened Text

  /** The lock file: whose payload it is for, whether that has been written, and when. */
  datatype File = File(id: nat, written: bool, mtime: nat)

  datatype Phase =
    | Idle | Created(id: nat) | Holding(id: nat) | SawExists | SawStale | Dropping(id: nat) | Matched(id: nat)

  /** Payloads name a process and an instant; they are told apart by `next`. */
  datatype State = State(file: Option<File>, now: nat, next: nat, phases: map<nat, Phase>)

  datatype Step =
    | TryCreate(p: nat) | Write(p: nat) | WriteFails(p: nat) | Stat(p: nat) | RemoveStale(p: nat)
    | StartDrop(p: nat) | ReadBack(p: nat) | RemoveOwn(p: nat) | Crash(p: nat) | Pass(time: nat)

  function At(s: State, p: nat): Phase {
    if p in s.phases then s.phases[p] else Idle
  }

  function Become(s: State, p: nat, phase: Phase): State {
    s.(phases := s.phases[p := phase])
  }

  predicate Stale(s: State, after: nat) {
    s.file.Some? && s.now > s.file.value.mtime + after
  }

  /** One file operation; None if the process is not at that point. */
  function Next(s: State, step: Step, after: nat): Option<State> {
    match step
    case TryCreate(p) =>
      if At(s, p) != Idle then None
      else if s.file.Some? then Some(Become(s, p, SawExists))
      else Some(Become(s.(file := Some(File(s.next, false, s.now)), next := s.next + 1), p, Created(s.next)))
    case Write(p) =>
      if !At(s, p).Created? then None
      else
        var id := At(s, p).id;
        var mine := s.file.Some? && s.file.value.id == id;
        Some(Become(if mine then s.(file := Some(File(id, true, s.now))) else s, p, Holding(id)))
    case WriteFails(p) => if At(s, p).Created? then Some(Become(s.(file := None), p, Idle)) else None
    case Stat(p) => if At(s, p).SawExists? then Some(Become(s, p, if Stale(s, after) then SawStale else Idle)) else None
    case RemoveStale(p) => if At(s, p).SawStale? then Some(Become(s.(file := None), p, Idle)) else None
    case StartDrop(p) => if At(s, p).Holding? then Some(Become(s, p, Dropping(At(s, p).id))) else None
    case ReadBack(p) =>
      if !At(s, p).Dropping? then None
      else
        var id := At(s, p).id;
        var mine := s.file.Some? && s.file.value.id == id && s.file.value.written;
        Some(Become(s, p, if mine then Matched(id) else Idle))
    case RemoveOwn(p) => if At(s, p).Matched? then Some(Become(s.(file := None), p, Idle)) else None
    case Crash(p) => Some(Become(s, p, Idle))
    case Pass(time) => Some(s.(now := s.now + time))
  }

  const START := State(None, 0, 0, map[])

  function Run(s: State, steps: seq<Step>, after: nat): Option<State>
    decreases |steps|
  {
    if steps == [] then Some(s)
    else
      match Next(s, steps[0], after)
      case Some(t) => Run(t, steps[1..], after)
      case None => None
  }

  /** A guard exists from the finished write to the end of its drop. */
  predicate HasGuard(s: State, p: nat) {
    At(s, p).Holding? || At(s, p).Dropping? || At(s, p).Matched?
  }

  predicate Owns(phase: Phase) {
    phase.Created? || phase.Holding? || phase.Dropping? || phase.Matched?
  }

  // ---- removals that hit a live owner ---------------------------------------------------------------------

  /** Whoever has created the file and not dropped it owns the file that is there. */
  ghost predicate Exclusive(s: State) {
    && (forall p | p in s.phases && Owns(s.phases[p]) ::
          && s.file.Some? && s.file.value.id == s.phases[p].id
          && (!s.phases[p].Created? ==> s.file.value.written))
    && (forall p, q | p in s.phases && q in s.phases && Owns(s.phases[p]) && Owns(s.phases[q]) :: p == q)
  }

  /** The file `p` judged abandoned, or one that has taken its place, is removed while its owner lives. */
  ghost predicate Hits(s: State, step: Step) {
    && step.RemoveStale? && At(s, step.p).SawStale?
    && exists q :: q in s.phases && Owns(s.phases[q]) && s.file.Some? && s.file.value.id == s.phases[q].id
  }

  /** No step of the run removes the file of a live owner as abandoned. */
  ghost predicate HitFree(s: State, steps: seq<Step>, after: nat)
    decreases |steps|
  {
    steps == [] || (!Hits(s, steps[0])
                    && match Next(s, steps[0], after)
                       case Some(t) => HitFree(t, steps[1..], after)
                       case None => true)
  }

  /** Every other step keeps exclusion: a drop, a failed write, a death, and a takeover from the dead. */
  lemma ExclusiveStep(s: State, step: Step, after: nat)
    requires Exclusive(s) && !Hits(s, step) && Next(s, step, after).Some?
    ensures Exclusive(Next(s, step, after).value)
  {
  }

  lemma {:induction false} ExclusiveRun(s: State, steps: seq<Step>, after: nat)
    requires Exclusive(s) && HitFree(s, steps, after) && Run(s, steps, after).Some?
    ensures Exclusive(Run(s, steps, after).value)
    decreases |steps|
  {
    hide Next, Exclusive, Hits;
    if steps != [] {
      ExclusiveStep(s, steps[0], after);
      ExclusiveRun(Next(s, steps[0], after).value, steps[1..], after);
    }
  }

  ghost predicate TwoGuards(s: State) {
    exists p, q :: p != q && HasGuard(s, p) && HasGuard(s, q)
  }

  /**
   * Any number of processes, any order of file operations, any deaths: two guards never exist at
   * once unless the file of a live owner has been removed as abandoned.
   */
  lemma MutualExclusion(steps: seq<Step>, after: nat)
    requires HitFree(START, steps, after) && Run(START, steps, after).Some?
    ensures !TwoGuards(Run(START, steps, after).value)
  {
    ExclusiveRun(START, steps, after);
  }

  // ---- after a hit two guards are near --------------------------------------------------------------------

  /** What the contender `p` does next, and the owner `q` if it has yet to write. */
  function Rush(s: State, p: nat, q: nat): seq<Step> {
    [TryCreate(p), Write(p)] + if At(s, q).Created? then [Write(q)] else []
  }

  lemma {:induction false} NoRemovalNoHit(s: State, steps: seq<Step>, after: nat)
    requires forall i | 0 <= i < |steps| :: !steps[i].RemoveStale?
    ensures HitFree(s, steps, after)
    decreases |steps|
  {
    hide Next;
    if steps != [] {
      var t := Next(s, steps[0], after);
      if t.Some? {
        NoRemovalNoHit(t.value, steps[1..], after);
      }
    }
  }

  lemma RushesIn(s: State, p: nat, q: nat, after: nat)
    requires p != q && At(s, p) == Idle && s.file == None && Owns(At(s, q))
    ensures Run(s, Rush(s, p, q), after).Some?
    ensures HasGuard(Run(s, Rush(s, p, q), after).value, p) && HasGuard(Run(s, Rush(s, p, q), after).value, q)
  {
    hide Run;
    RunOne(s, TryCreate(p), after);
    var s1 := Next(s, TryCreate(p), after).value;
    Then(s, [TryCreate(p)], s1, Write(p), after);
    var s2 := Next(s1, Write(p), after).value;
    assert [TryCreate(p)] + [Write(p)] == [TryCreate(p), Write(p)];
    assert At(s2, q) == At(s, q);
    if At(s, q).Created? {
      Then(s, [TryCreate(p), Write(p)], s2, Write(q), after);
    } else {
      assert Rush(s, p, q) == [TryCreate(p), Write(p)];
    }
  }

  /** Up to the step `n` the run can go on, without another hit, to two guards. */
  ghost predicate LeadsToTwo(steps: seq<Step>, n: nat, more: seq<Step>, after: nat) {
    && n <= |steps|
    && Run(START, steps[..n], after).Some?
    && HitFree(Run(START, steps[..n], after).value, more, after)
    && Run(START, steps[..n] + more, after).Some?
    && TwoGuards(Run(START, steps[..n] + more, after).value)
  }

  lemma HitLeadsToTwo(steps: seq<Step>, n: nat, s: State, after: nat) returns (more: seq<Step>)
    requires n < |steps| && Run(START, steps[..n], after) == Some(s) && Hits(s, steps[n])
    ensures LeadsToTwo(steps, n + 1, more, after)
  {
    hide Run, HitFree, Exclusive;
    var p := steps[n].p;
    var q :| q in s.phases && Owns(s.phases[q]);
    var t := Next(s, steps[n], after).value;
    Then(START, steps[..n], s, steps[n], after);
    assert steps[..n] + [steps[n]] == steps[..n + 1];
    more := Rush(t, p, q);
    RushesIn(t, p, q, after);
    NoRemovalNoHit(t, more, after);
    RunAppend(START, steps[..n + 1], more, after);
    assert TwoGuards(Run(t, more, after).value);
  }

  lemma {:induction false} HitFreePrefix(s: State, steps: seq<Step>, n: nat, after: nat)
    requires n <= |steps| && HitFree(s, steps, after)
    ensures HitFree(s, steps[..n], after)
    decreases n
  {
    hide Next, Hits;
    if n > 0 {
      assert steps[..n][1..] == steps[1..][..n - 1];
      var t := Next(s, steps[0], after);
      if t.Some? {
        HitFreePrefix(t.value, steps[1..], n - 1, after);
      }
    }
  }

  lemma {:induction false} RunPrefix(s: State, steps: seq<Step>, n: nat, after: nat)
    requires n <= |steps| && Run(s, steps, after).Some?
    ensures Run(s, steps[..n], after).Some?
    decreases n
  {
    hide Next;
    if n > 0 {
      assert steps[..n][1..] == steps[1..][..n - 1];
      RunPrefix(Next(s, steps[0], after).value, steps[1..], n - 1, after);
    }
  }

  /** A run that is not free of hits has one. */
  lemma {:induction false} SomeHit(s: State, steps: seq<Step>, after: nat) returns (n: nat)
    requires Run(s, steps, after).Some? && !HitFree(s, steps, after)
    ensures n < |steps| && Run(s, steps[..n], after).Some?
    ensures Hits(Run(s, steps[..n], after).value, steps[n])
    decreases |steps|
  {
    hide Next, Hits;
    if Hits(s, steps[0]) {
      n := 0;
    } else {
      var t := Next(s, steps[0], after).value;
      var m := SomeHit(t, steps[1..], after);
      n := m + 1;
      assert steps[..n][1..] == steps[1..][..m];
    }
  }

  /**
   * Exactly when the lock can fail: a part of the run has a continuation without further hits into
   * two guards if and only if the run removed the file of a live owner as abandoned.
   */
  lemma FailsExactlyAfterHit(steps: seq<Step>, after: nat)
    requires Run(START, steps, after).Some?
    ensures (exists n, more :: LeadsToTwo(steps, n, more, after)) <==> !HitFree(START, steps, after)
  {
    if !HitFree(START, steps, after) {
      var n := SomeHit(START, steps, after);
      var more := HitLeadsToTwo(steps, n, Run(START, steps[..n], after).value, after);
    } else {
      forall n: nat, more | n <= |steps| ensures !LeadsToTwo(steps, n, more, after) {
        StaysExclusive(steps, n, more, after);
      }
    }
  }

  lemma StaysExclusive(steps: seq<Step>, n: nat, more: seq<Step>, after: nat)
    requires n <= |steps| && HitFree(START, steps, after) && Run(START, steps, after).Some?
    ensures !LeadsToTwo(steps, n, more, after)
  {
    hide Run, HitFree, Next;
    HitFreePrefix(START, steps, n, after);
    RunPrefix(START, steps, n, after);
    ExclusiveRun(START, steps[..n], after);
    if LeadsToTwo(steps, n, more, after) {
      var s := Run(START, steps[..n], after).value;
      RunAppend(START, steps[..n], more, after);
      ExclusiveRun(s, more, after);
    }
  }

  // ---- no holder outlives the threshold -------------------------------------------------------------------

  /** Along the run no lock file grows older than the threshold: every holder drops it in time. */
  predicate Timely(s: State, steps: seq<Step>, after: nat)
    decreases |steps|
  {
    && (s.file.Some? ==> s.now <= s.file.value.mtime + after)
    && (steps == []
        || match Next(s, steps[0], after)
           case Some(t) => Timely(t, steps[1..], after)
           case None => true)
  }

  ghost predicate NobodySawStale(s: State) {
    forall p | p in s.phases :: !s.phases[p].SawStale?
  }

  /** Then nobody is ever found abandoned, so such a run is free of hits and exclusion holds. */
  lemma {:induction false} TimelyIsHitFree(s: State, steps: seq<Step>, after: nat)
    requires NobodySawStale(s) && Timely(s, steps, after)
    ensures HitFree(s, steps, after)
    decreases |steps|
  {
    if steps != [] {
      var t := Next(s, steps[0], after);
      if t.Some? {
        TimelyIsHitFree(t.value, steps[1..], after);
      }
    }
  }

  // ---- what the threshold is for --------------------------------------------------------------------------

  lemma {:induction false} RunAppend(s: State, a: seq<Step>, b: seq<Step>, after: nat)
    requires Run(s, a, after).Some?
    ensures Run(s, a + b, after) == Run(Run(s, a, after).value, b, after)
    decreases |a|
  {
    hide Next;
    if a == [] {
      assert a + b == b;
    } else {
      RunAppend(Next(s, a[0], after).value, a[1..], b, after);
      assert (a + b)[1..] == a[1..] + b;
    }
  }

  lemma RunOne(s: State, step: Step, after: nat)
    ensures Run(s, [step], after) == Next(s, step, after)
  {
    hide Next;
    assert [step][1..] == [];
    assert forall t: State :: Run(t, [], after) == Some(t);
  }

  lemma Then(s: State, done: seq<Step>, t: State, step: Step, after: nat)
    requires Run(s, done, after) == Some(t)
    ensures Run(s, done + [step], after) == Next(t, step, after)
  {
    RunAppend(s, done, [step], after);
    RunOne(t, step, after);
  }

  /** The run leads to `t` and hits no live owner. */
  ghost predicate Clean(done: seq<Step>, t: State, after: nat) {
    Run(START, done, after) == Some(t) && HitFree(START, done, after)
  }

  lemma NothingRun(after: nat)
    ensures Clean([], START, after)
  {
  }

  lemma {:induction false} HitFreeThen(s: State, done: seq<Step>, t: State, step: Step, after: nat)
    requires Run(s, done, after) == Some(t) && HitFree(s, done, after) && !Hits(t, step)
    ensures HitFree(s, done + [step], after)
    decreases |done|
  {
    hide Next, Hits;
    if done == [] {
      assert done + [step] == [step];
    } else {
      HitFreeThen(Next(s, done[0], after).value, done[1..], t, step, after);
      assert (done + [step])[1..] == done[1..] + [step];
    }
  }

  lemma CleanStep(done: seq<Step>, t: State, step: Step, after: nat)
    requires Clean(done, t, after) && !Hits(t, step) && Next(t, step, after).Some?
    ensures Clean(done + [step], Next(t, step, after).value, after)
  {
    hide Run, HitFree, Next, Hits;
    Then(START, done, t, step, after);
    HitFreeThen(START, done, t, step, after);
  }

  /** A holder has died, and its file has outlived the threshold. */
  function LeftBehind(after: nat): State {
    State(Some(File(0, true, 0)), after + 1, 1, map[0 := Idle])
  }

  lemma DiesWithFile(after: nat)
    ensures exists steps :: Clean(steps, LeftBehind(after), after)
  {
    hide Run, HitFree, Clean;
    NothingRun(after);
    CleanStep([], START, TryCreate(0), after);
    var s1 := Next(START, TryCreate(0), after).value;
    var a := [] + [TryCreate(0)];
    CleanStep(a, s1, Write(0), after);
    var s2 := Next(s1, Write(0), after).value;
    CleanStep(a + [Write(0)], s2, Crash(0), after);
    var s3 := Next(s2, Crash(0), after).value;
    var b := a + [Write(0)] + [Crash(0)];
    CleanStep(b, s3, Pass(after + 1), after);
    assert s3.phases == map[0 := Idle];
    assert Next(s3, Pass(after + 1), after) == Some(LeftBehind(after));
  }

  /** A holder has died and its file has become stale; two contenders have seen that. */
  function BothSawStale(after: nat): State {
    LeftBehind(after).(phases := map[0 := Idle, 1 := SawStale, 2 := SawStale])
  }

  lemma CrashedHolder(after: nat)
    ensures exists steps :: Clean(steps, BothSawStale(after), after)
  {
    hide Clean, HitFree, Run;
    DiesWithFile(after);
    var s4 := LeftBehind(after);
    var e :| Clean(e, s4, after);
    CleanStep(e, s4, TryCreate(1), after);
    var s5 := Become(s4, 1, SawExists);
    CleanStep(e + [TryCreate(1)], s5, TryCreate(2), after);
    var s6 := Become(s5, 2, SawExists);
    var f := e + [TryCreate(1)] + [TryCreate(2)];
    CleanStep(f, s6, Stat(1), after);
    var s7 := Become(s6, 1, SawStale);
    CleanStep(f + [Stat(1)], s7, Stat(2), after);
    assert Become(s7, 2, SawStale).phases == BothSawStale(after).phases;
  }

  /**
   * Once a file has outlived the threshold, exclusion can fail, whatever the threshold: the first
   * contender takes over, and the second removes the new file, having judged the old one.
   */
  lemma TwoGuardsAfterCrash(after: nat)
    ensures exists steps ::
              && Run(START, steps, after).Some?
              && HasGuard(Run(START, steps, after).value, 1)
              && HasGuard(Run(START, steps, after).value, 2)
  {
    hide Run, HitFree;
    CrashedHolder(after);
    var start :| Clean(start, BothSawStale(after), after);
    var s0 := BothSawStale(after);
    Then(START, start, s0, RemoveStale(1), after);
    var s1 := Next(s0, RemoveStale(1), after).value;
    var a := start + [RemoveStale(1)];
    Then(START, a, s1, TryCreate(1), after);
    var s2 := Next(s1, TryCreate(1), after).value;
    Then(START, a + [TryCreate(1)], s2, Write(1), after);
    var s3 := Next(s2, Write(1), after).value;
    var b := a + [TryCreate(1)] + [Write(1)];
    Then(START, b, s3, RemoveStale(2), after);
    var s4 := Next(s3, RemoveStale(2), after).value;
    Then(START, b + [RemoveStale(2)], s4, TryCreate(2), after);
    var s5 := Next(s4, TryCreate(2), after).value;
    var c := b + [RemoveStale(2)] + [TryCreate(2)];
    Then(START, c, s5, Write(2), after);
    assert HasGuard(Next(s5, Write(2), after).value, 1) && HasGuard(Next(s5, Write(2), after).value, 2);
    assert Run(START, c + [Write(2)], after).Some?;
  }

  lemma {:induction false} StaleIsNotTimely(s: State, done: seq<Step>, more: seq<Step>, after: nat)
    requires Run(s, done, after).Some? && Stale(Run(s, done, after).value, after)
    ensures !Timely(s, done + more, after)
    decreases |done|
  {
    hide Next;
    if done == [] {
      assert done + more == more;
    } else {
      StaleIsNotTimely(Next(s, done[0], after).value, done[1..], more, after);
      assert (done + more)[1..] == done[1..] + more;
    }
  }

  function TakenOver(after: nat): State {
    State(Some(File(1, true, after + 1)), after + 1, 2, map[0 := Idle, 1 := Holding(1)])
  }

  /** What the threshold is for: one contender takes over a dead holder's file and holds the lock alone. */
  lemma TakeoverFromTheDead(after: nat)
    ensures exists steps :: !Timely(START, steps, after) && Clean(steps, TakenOver(after), after)
  {
    hide Run, HitFree, Timely;
    var s4 := LeftBehind(after);
    DiesWithFile(after);
    var a :| Clean(a, s4, after);
    var s5 := Become(s4, 1, SawExists);
    CleanStep(a, s4, TryCreate(1), after);
    var s6 := Become(s5, 1, SawStale);
    CleanStep(a + [TryCreate(1)], s5, Stat(1), after);
    var b := a + [TryCreate(1)] + [Stat(1)];
    var s7 := Become(s6.(file := None), 1, Idle);
    CleanStep(b, s6, RemoveStale(1), after);
    var s8 := State(Some(File(1, false, after + 1)), after + 1, 2, s7.phases[1 := Created(1)]);
    CleanStep(b + [RemoveStale(1)], s7, TryCreate(1), after);
    var c := b + [RemoveStale(1)] + [TryCreate(1)];
    CleanStep(c, s8, Write(1), after);
    assert s8.phases[1 := Holding(1)] == map[0 := Idle, 1 := Holding(1)];
    var rest := [TryCreate(1)] + [Stat(1)] + [RemoveStale(1)] + [TryCreate(1)] + [Write(1)];
    StaleIsNotTimely(START, a, rest, after);
    assert a + rest == c + [Write(1)];
  }
}
