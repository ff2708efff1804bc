/** The lock with takeovers: attempts and drops taken as atomic, payloads distinct. */
module LockTakeover {
  import opened Text
  import L = Lock

  /** What the path holds: a payload and when it was written. */
  datatype File = File(payload: nat, mtime: nat)

  /** Live guards by their holder, each with the payload it wrote. */
  datatype World = World(file: Option<File>, now: nat, next: nat, guards: map<nat, nat>)

  /** `Attempt` is one `try_acquire` with the contender's own threshold. */
  datatype Event = Attempt(p: nat, after: nat) | Drop(p: nat) | Die(p: nat) | Pass(time: nat)

  datatype Outcome = Acquired | Removed | Busy

  predicate Abandoned(w: World, after: nat) {
    w.file.Some? && w.now > w.file.value.mtime + after
  }

  function Result(w: World, after: nat): Outcome {
    if w.file.None? then Acquired else if Abandoned(w, after) then Removed else Busy
  }

  function Attempted(w: World, p: nat, after: nat): World {
    match Result(w, after)
    case Acquired => World(Some(File(w.next, w.now)), w.now, w.next + 1, w.guards[p := w.next])
    case Removed => w.(file := None)
    case Busy => w
  }

  predicate OwnsFile(w: World, p: nat) {
    p in w.guards && w.file.Some? && w.file.value.payload == w.guards[p]
  }

  /** The file goes only if it still holds the guard's payload. */
  function Dropped(w: World, p: nat): World
    requires p in w.guards
  {
    World(if OwnsFile(w, p) then None else w.file, w.now, w.next, w.guards - {p})
  }

  /** A holder with a guard does not try again. */
  predicate Enabled(w: World, e: Event) {
    match e
    case Attempt(p, _) => p !in w.guards
    case Drop(p) => p in w.guards
    case Die(_) => true
    case Pass(_) => true
  }

  function Next(w: World, e: Event): World
    requires Enabled(w, e)
  {
    match e
    case Attempt(p, after) => Attempted(w, p, after)
    case Drop(p) => Dropped(w, p)
    case Die(p) => w.(guards := w.guards - {p})
    case Pass(time) => w.(now := w.now + time)
  }

  const START := World(None, 0, 0, map[])

  predicate Possible(w: World, events: seq<Event>)
    decreases |events|
  {
    events == [] || (Enabled(w, events[0]) && Possible(Next(w, events[0]), events[1..]))
  }

  function Run(w: World, events: seq<Event>): World
    requires Possible(w, events)
    decreases |events|
  {
    if events == [] then w else Run(Next(w, events[0]), events[1..])
  }

  /** Payloads are told apart. */
  predicate Distinct(w: World) {
    && (forall p | p in w.guards :: w.guards[p] < w.next)
    && (w.file.Some? ==> w.file.value.payload < w.next)
    && (forall p, q | p in w.guards && q in w.guards && w.guards[p] == w.guards[q] :: p == q)
  }

  lemma {:induction false} RunDistinct(w: World, events: seq<Event>)
    requires Distinct(w) && Possible(w, events)
    ensures Distinct(Run(w, events))
    decreases |events|
  {
    if events != [] {
      RunDistinct(Next(w, events[0]), events[1..]);
    }
  }

  /**
   * Over every run with takeovers: at most one live guard owns the file, and a drop removes
   * nobody else's file, so the successor of a stale holder still owns it afterwards.
   */
  lemma DropSparesSuccessors(events: seq<Event>, p: nat, q: nat)
    requires Possible(START, events)
    ensures var w := Run(START, events);
      && (OwnsFile(w, p) && OwnsFile(w, q) ==> p == q)
      && (p in w.guards && p != q && OwnsFile(w, q) ==> OwnsFile(Dropped(w, p), q))
      && (p in w.guards && OwnsFile(w, p) ==> Dropped(w, p).file == None)
  {
    RunDistinct(START, events);
  }

  /** A guard loses its file only by its own drop or death, or to a contender for whom it is too old. */
  lemma LosesOnlyWhenStale(events: seq<Event>, e: Event, q: nat)
    requires Possible(START, events) && Enabled(Run(START, events), e)
    requires OwnsFile(Run(START, events), q) && !OwnsFile(Next(Run(START, events), e), q)
    ensures var w := Run(START, events);
      e == Drop(q) || e == Die(q) || (e.Attempt? && w.now > w.file.value.mtime + e.after)
  {
    RunDistinct(START, events);
  }

  /** Left alone for some time, a file past the threshold falls to a contender in two attempts; before that it stands. */
  lemma TakenOverWhenOld(w: World, p: nat, after: nat, time: nat)
    requires w.file.Some? && p !in w.guards
    ensures var late := w.now + time > w.file.value.mtime + after;
      var once := Next(Next(w, Pass(time)), Attempt(p, after));
      && once.guards == w.guards && once.file == (if late then None else w.file)
      && (late ==>
            var twice := Next(once, Attempt(p, after));
            && twice.guards.Keys == w.guards.Keys + {p} && (forall q | q in w.guards :: twice.guards[q] == w.guards[q])
            && twice.file == Some(File(twice.guards[p], w.now + time)) && twice.guards[p] == w.next)
  {
  }

  /** While no attempt finds the file abandoned, a guard and the ownership of the file are the same thing. */
  predicate NoTakeover(w: World, events: seq<Event>)
    requires Possible(w, events)
    decreases |events|
  {
    events == []
    || (&& (events[0].Attempt? && w.file.Some? ==> w.now <= w.file.value.mtime + events[0].after)
        && NoTakeover(Next(w, events[0]), events[1..]))
  }

  predicate GuardsOwn(w: World) {
    forall p | p in w.guards :: OwnsFile(w, p)
  }

  lemma GuardsOwnNext(w: World, e: Event)
    requires Distinct(w) && GuardsOwn(w) && Enabled(w, e) && (e.Attempt? ==> !Abandoned(w, e.after))
    ensures GuardsOwn(Next(w, e))
  {
    assert e.Drop? ==> OwnsFile(w, e.p);
    assert forall p | p in w.guards :: OwnsFile(w, p);
  }

  lemma {:induction false} GuardsKeepOwning(w: World, events: seq<Event>)
    requires Distinct(w) && GuardsOwn(w) && Possible(w, events) && NoTakeover(w, events)
    ensures GuardsOwn(Run(w, events))
    decreases |events|
  {
    if events != [] {
      var e := events[0];
      GuardsOwnNext(w, e);
      GuardsKeepOwning(Next(w, e), events[1..]);
    }
  }

  /** Hence two live guards without a takeover are one and the same. */
  lemma OneGuardWithoutTakeover(events: seq<Event>, p: nat, q: nat)
    requires Possible(START, events) && NoTakeover(START, events)
    requires p in Run(START, events).guards && q in Run(START, events).guards
    ensures p == q
  {
    GuardsKeepOwning(START, events);
    RunDistinct(START, events);
  }

  // ---- in separate steps a drop is not safe ---------------------------------------------------------------

  /** The holder has read its payload back, meaning to remove the file, when a contender finds it stale. */
  function ReadBeforeTakeover(after: nat): L.State {
    L.State(Some(L.File(0, true, 0)), after + 1, 1, map[0 := L.Matched(0), 1 := L.SawStale])
  }

  lemma ReadBeforeTakeoverIsReached(after: nat)
    ensures exists steps :: L.Clean(steps, ReadBeforeTakeover(after), after)
  {
    hide L.HitFree, L.Run, L.Clean;
    L.NothingRun(after);
    var a: seq<L.Step> := [];
    L.CleanStep(a, L.START, L.TryCreate(0), after);
    var s1 := L.Next(L.START, L.TryCreate(0), after).value;
    var b := a + [L.TryCreate(0)];
    L.CleanStep(b, s1, L.Write(0), after);
    var s2 := L.Next(s1, L.Write(0), after).value;
    L.CleanStep(b + [L.Write(0)], s2, L.StartDrop(0), after);
    var s3 := L.Next(s2, L.StartDrop(0), after).value;
    var c := b + [L.Write(0)] + [L.StartDrop(0)];
    L.CleanStep(c, s3, L.ReadBack(0), after);
    var s4 := L.Next(s3, L.ReadBack(0), after).value;
    L.CleanStep(c + [L.ReadBack(0)], s4, L.TryCreate(1), after);
    var s5 := L.Next(s4, L.TryCreate(1), after).value;
    var d := c + [L.ReadBack(0)] + [L.TryCreate(1)];
    L.CleanStep(d, s5, L.Pass(after + 1), after);
    var s6 := L.Next(s5, L.Pass(after + 1), after).value;
    L.CleanStep(d + [L.Pass(after + 1)], s6, L.Stat(1), after);
    assert L.Next(s6, L.Stat(1), after).value.phases == ReadBeforeTakeover(after).phases;
    assert L.Next(s6, L.Stat(1), after) == Some(ReadBeforeTakeover(after));
  }

  /** With reading and removing apart, the old holder removes its successor's file. */
  lemma LateRemovalHitsSuccessor(after: nat)
    ensures exists done :: L.Clean(done, ReadBeforeTakeover(after), after)
    ensures var s := ReadBeforeTakeover(after);
      var steps := [L.RemoveStale(1), L.TryCreate(1), L.Write(1)];
      && L.Run(s, steps, after).Some?
      && var t := L.Run(s, steps, after).value;
         && L.HasGuard(t, 1) && t.file.Some? && t.file.value.id == L.At(t, 1).id
         && L.Next(t, L.RemoveOwn(0), after).Some? && L.Next(t, L.RemoveOwn(0), after).value.file == None
  {
    hide L.Clean;
    ReadBeforeTakeoverIsReached(after);
    var s := ReadBeforeTakeover(after);
    var a, b, c := L.RemoveStale(1), L.TryCreate(1), L.Write(1);
    L.RunOne(s, a, after);
    var s1 := L.Next(s, a, after).value;
    L.Then(s, [a], s1, b, after);
    var s2 := L.Next(s1, b, after).value;
    L.Then(s, [a] + [b], s2, c, after);
    assert [a] + [b] + [c] == [a, b, c];
  }

  // ---- the retry loop as it runs ---------------------------------------------------------------------------

  const RETRY_INTERVAL := 50

  class LockFile {
    var file: Option<File>
    var now: nat
    var next: nat
    const after: nat

    constructor (after: nat)
      ensures file == None && this.after == after
    {
      this.after := after;
      file, now, next := None, 0, 0;
    }

    method TryAcquire() returns (outcome: Outcome, payload: nat)
      modifies this
      ensures now == old(now)
      ensures outcome.Acquired? <==> old(file) == None
      ensures outcome.Acquired? ==> file == Some(File(payload, now)) && payload == old(next) && next == old(next) + 1
      ensures outcome.Removed? <==> old(file.Some? && now > file.value.mtime + after)
      ensures outcome.Removed? ==> file == None && next == old(next)
      ensures outcome.Busy? ==> file == old(file) && next == old(next)
    {
      payload := next;
      if file.None? {
        file, next := Some(File(next, now)), next + 1;
        return Acquired, payload;
      }
      if now > file.value.mtime + after {
        file := None;
        return Removed, payload;
      }
      return Busy, payload;
    }

    /** While this process sleeps, others may do anything to the file under payloads of their own. */
    method Sleep()
      modifies this
      ensures now == old(now) + RETRY_INTERVAL && next >= old(next)
    {
      now := now + RETRY_INTERVAL;
      file := *;
      var taken: nat :| taken >= 0;
      next := next + taken;
    }

    /** Either the file is ours, or at the deadline, no later than one interval, somebody holds it who is not too old. */
    method AcquireTimeout(timeout: nat) returns (payload: Option<nat>)
      modifies this
      ensures payload.Some? ==> file == Some(File(payload.value, now)) && old(next) <= payload.value < next
      ensures payload.None? ==> now >= old(now) + timeout && file.Some? && now <= file.value.mtime + after
      ensures now < old(now) + timeout + RETRY_INTERVAL
    {
      var deadline := now + timeout;
      var removed := false;
      while true
        invariant old(next) <= next && deadline == old(now) + timeout && now < deadline + RETRY_INTERVAL
        invariant removed ==> file == None
        decreases if now < deadline then deadline - now else 0, !removed && file.Some?
      {
        var outcome, mine := TryAcquire();
        match outcome
        case Acquired => return Some(mine);
        case Removed => removed := true;
        case Busy =>
          if now >= deadline {
            return None;
          }
          Sleep();
          removed := false;
      }
    }

    method DropGuard(payload: nat)
      modifies this
      ensures file == if old(file.Some? && file.value.payload == payload) then None else old(file)
      ensures now == old(now) && next == old(next)
    {
      if file.Some? && file.value.payload == payload {
        file := None;
      }
    }
  }
}
