/** cam_run of smoke.c over a real camera object, step for step what the pipeline's threads do. */
module CameraThread {
  import opened Machine
  import opened Backends
  import opened Wire
  import opened Pipeline
  import C = Camera

  /** What the world shows one round of the loop. */
  datatype Turn = Turn(stop: bool, arrival: Arrival, clock: i64, send: C.SendResult)

  /** What a tick amounts to: the backend may time out or fail before anything is sent. */
  function ActionOf(i: nat, p: Producer, t: Turn): Action
    requires CanTake(p.backend, t.arrival)
  {
    var code := CodeOf(p.backend, t.arrival);
    if code > 0 then AcquireTimesOut(i, t.arrival)
    else if code < 0 then AcquireFails(i, t.arrival)
    else
      match t.send
      case Accepted => Send(i, t.arrival, t.clock)
      case QueueFull => Refuse(i, t.arrival, t.clock)
      case SendFailed => SendFails(i, t.arrival, t.clock)
  }

  function Entered(p: Producer): Producer {
    p.(place := InTick)
  }

  function Ticked(setup: Setup, p: Producer, t: Turn): Producer
    requires CanTake(p.backend, t.arrival)
  {
    ThreadAct(setup, false, Entered(p), ActionOf(0, p, t))
  }

  /** Where a tick that did not fail leaves the loop. */
  function Counted(q: Producer): Producer {
    q.(place := AtGuard, ticks := q.ticks + 1)
  }

  /** The loop goes round: neither stopped nor done. */
  predicate GoesOn(setup: Setup, p: Producer, turns: seq<Turn>) {
    turns != [] && !turns[0].stop && WantsMore(setup, p)
  }

  /** Every arrival is one its backend can be met with; a mock is never woken early. */
  ghost predicate Timely(setup: Setup, p: Producer, turns: seq<Turn>)
    decreases |turns|
  {
    GoesOn(setup, p, turns) ==>
      && CanTake(p.backend, turns[0].arrival)
      && var q := Ticked(setup, p, turns[0]);
         q.place == Finished || Timely(setup, Counted(q), turns[1..])
  }

  /** The loop until it leaves, fails, or these turns are used up. */
  function LoopOver(setup: Setup, p: Producer, turns: seq<Turn>): Producer
    requires Timely(setup, p, turns)
    decreases |turns|
  {
    if turns == [] then p
    else if !GoesOn(setup, p, turns) then p.(place := Finished)
    else
      var q := Ticked(setup, p, turns[0]);
      if q.place == Finished then q else LoopOver(setup, Counted(q), turns[1..])
  }

  lemma LoopStep(setup: Setup, p: Producer, turns: seq<Turn>, rest: seq<Turn>)
    requires GoesOn(setup, p, turns) && rest == turns[1..] && Timely(setup, p, turns)
    requires Ticked(setup, p, turns[0]).place != Finished
    ensures var next := Counted(Ticked(setup, p, turns[0]));
            Timely(setup, next, rest) && LoopOver(setup, p, turns) == LoopOver(setup, next, rest)
  {
  }

  // ---- the loop inside a run ----

  /** These actions lead to this state, whether or not somebody called a stop on the way. */
  ghost predicate Leads(setup: Setup, start: Run, actions: seq<Action>, t: Run)
    requires Initial(setup, start)
  {
    Happens(setup, start, actions) && After(setup, start, actions).(stop := t.stop) == t
  }

  ghost predicate Reaches(setup: Setup, start: Run, before: seq<Action>, t: Run)
    requires Initial(setup, start)
  {
    exists more :: Leads(setup, start, before + more, t)
  }

  lemma Here(setup: Setup, start: Run, before: seq<Action>, t: Run)
    requires Initial(setup, start) && Leads(setup, start, before, t)
    ensures Reaches(setup, start, before, t)
  {
    assert before + [] == before;
  }

  lemma Later(setup: Setup, start: Run, before: seq<Action>, a: Action, t: Run)
    requires Initial(setup, start) && Reaches(setup, start, before + [a], t)
    ensures Reaches(setup, start, before, t)
  {
    var more :| Leads(setup, start, before + [a] + more, t);
    assert before + [a] + more == before + ([a] + more);
    assert Leads(setup, start, before + ([a] + more), t);
  }

  lemma LaterStill(setup: Setup, start: Run, before: seq<Action>, a: Action, b: Action, t: Run)
    requires Initial(setup, start) && Reaches(setup, start, before + [a] + [b], t)
    ensures Reaches(setup, start, before, t)
  {
    Later(setup, start, before + [a], b, t);
    Later(setup, start, before, a, t);
  }

  /** What one camera's thread makes of a run. */
  function With(s: Run, i: nat, q: Producer): Run
    requires i < |s.producers|
  {
    s.(producers := s.producers[i := q])
  }

  /** A thread's step, taken where the run stands. */
  lemma ThreadMoves(setup: Setup, start: Run, before: seq<Action>, i: nat, a: Action)
    requires Initial(setup, start) && Happens(setup, start, before)
    requires IsThreadAction(a) && a.i == i < |After(setup, start, before).producers|
    requires var s := After(setup, start, before); ThreadEnabled(setup, s.stop, s.producers[i], a)
    ensures Happens(setup, start, before + [a])
    ensures var s := After(setup, start, before);
            After(setup, start, before + [a]) == With(s, i, ThreadAct(setup, s.stop, s.producers[i], a))
  {
    Then(setup, start, before, a);
  }

  lemma LeavesHere(setup: Setup, start: Run, before: seq<Action>, i: nat, s: Run)
    requires Initial(setup, start) && Happens(setup, start, before) && After(setup, start, before) == s
    requires i < |s.producers| && s.producers[i].place == AtGuard && (s.stop || !WantsMore(setup, s.producers[i]))
    ensures Reaches(setup, start, before, With(s, i, s.producers[i].(place := Finished)))
  {
    ThreadMoves(setup, start, before, i, LeaveLoop(i));
    Here(setup, start, before + [LeaveLoop(i)], With(s, i, s.producers[i].(place := Finished)));
    Later(setup, start, before, LeaveLoop(i), With(s, i, s.producers[i].(place := Finished)));
  }

  /** Seeing the stop flag: somebody sets it, and the thread leaves. */
  lemma StopsHere(setup: Setup, start: Run, before: seq<Action>, i: nat, s: Run)
    requires Initial(setup, start) && Happens(setup, start, before) && After(setup, start, before) == s
    requires i < |s.producers| && s.producers[i].place == AtGuard
    ensures Reaches(setup, start, before, With(s, i, s.producers[i].(place := Finished)))
  {
    var stopped, end := s.(stop := true), s.producers[i].(place := Finished);
    Then(setup, start, before, Interrupt);
    LeavesHere(setup, start, before + [Interrupt], i, stopped);
    assert Reaches(setup, start, before + [Interrupt], With(stopped, i, end));
    StopIgnored(setup, start, before + [Interrupt], With(stopped, i, end), With(s, i, end));
    Later(setup, start, before, Interrupt, With(s, i, end));
  }

  lemma StopIgnored(setup: Setup, start: Run, before: seq<Action>, t: Run, u: Run)
    requires Initial(setup, start) && Reaches(setup, start, before, t) && t.(stop := u.stop) == u
    ensures Reaches(setup, start, before, u)
  {
    var more :| Leads(setup, start, before + more, t);
    assert Leads(setup, start, before + more, u);
  }

  lemma WithTwice(s: Run, i: nat, p: Producer, q: Producer)
    requires i < |s.producers|
    ensures With(With(s, i, p), i, q) == With(s, i, q)
  {
  }

  /** A tick is an action of the pipeline's threads, whichever camera's. */
  lemma TickIsAction(setup: Setup, i: nat, p: Producer, t: Turn)
    requires CanTake(p.backend, t.arrival)
    ensures IsThreadAction(ActionOf(i, p, t)) && ActionOf(i, p, t).i == i
    ensures ThreadEnabled(setup, false, Entered(p), ActionOf(i, p, t))
    ensures ThreadAct(setup, false, Entered(p), ActionOf(i, p, t)) == Ticked(setup, p, t)
  {
  }

  /** One round of the loop. */
  lemma TicksHere(setup: Setup, start: Run, before: seq<Action>, i: nat, s: Run, t: Turn)
    requires Initial(setup, start) && Happens(setup, start, before) && After(setup, start, before) == s
    requires i < |s.producers| && s.producers[i].place == AtGuard && !s.stop && WantsMore(setup, s.producers[i])
    requires CanTake(s.producers[i].backend, t.arrival)
    ensures var acts := before + [EnterTick(i)] + [ActionOf(i, s.producers[i], t)];
            && Happens(setup, start, acts)
            && After(setup, start, acts) == With(s, i, Ticked(setup, s.producers[i], t))
  {
    var p := s.producers[i];
    ThreadMoves(setup, start, before, i, EnterTick(i));
    TickIsAction(setup, i, p, t);
    ThreadMoves(setup, start, before + [EnterTick(i)], i, ActionOf(i, p, t));
    WithTwice(s, i, Entered(p), Ticked(setup, p, t));
  }

  /**
    Whatever the loop does can happen in any run that has come to its guard: with nothing
    but that thread's own steps, and the stop it saw if it saw one.
   */
  lemma {:induction false} LoopHappens(
      setup: Setup, start: Run, before: seq<Action>, i: nat, s: Run, turns: seq<Turn>)
    requires Initial(setup, start) && Happens(setup, start, before) && After(setup, start, before) == s
    requires i < |s.producers| && s.producers[i].place == AtGuard && !s.stop
    requires Timely(setup, s.producers[i], turns)
    ensures Reaches(setup, start, before, With(s, i, LoopOver(setup, s.producers[i], turns)))
    decreases |turns|
  {
    var p := s.producers[i];
    if turns == [] {
      Here(setup, start, before, With(s, i, p));
    } else if turns[0].stop {
      StopsHere(setup, start, before, i, s);
    } else if !WantsMore(setup, p) {
      LeavesHere(setup, start, before, i, s);
    } else {
      var q, end := Ticked(setup, p, turns[0]), With(s, i, LoopOver(setup, p, turns));
      var acts := before + [EnterTick(i)] + [ActionOf(i, p, turns[0])];
      TicksHere(setup, start, before, i, s, turns[0]);
      if q.place == Finished {
        Here(setup, start, acts, end);
      } else {
        ThreadMoves(setup, start, acts, i, CountTick(i));
        LoopStep(setup, p, turns, turns[1..]);
        LoopHappens(setup, start, acts + [CountTick(i)], i, With(s, i, Counted(q)), turns[1..]);
        Later(setup, start, acts, CountTick(i), end);
      }
      LaterStill(setup, start, before, EnterTick(i), ActionOf(i, p, turns[0]), end);
    }
  }

  /** The loop may go round once more from here. */
  predicate RoundDue(want: u32, ticks: nat, t: Turn) {
    !t.stop && (want == 0 || ticks < want)
  }

  /** Where the loop is after n full rounds of these turns, from p to q. */
  ghost predicate EndsAfter(want: u32, p: Producer, q: Producer, turns: seq<Turn>, n: nat) {
    && n <= |turns|
    && (forall k :: 0 <= k < n ==> RoundDue(want, p.ticks + k, turns[k]))
    && q.ticks == p.ticks + n
    && q.sent + q.dropped + q.timeouts == p.sent + p.dropped + p.timeouts + n
    && (q.failed ==> q.place == Finished && n < |turns| && RoundDue(want, q.ticks, turns[n]))
    && (!q.failed && n == |turns| ==> q.place == p.place)
    && (!q.failed && n < |turns| ==> q.place == Finished && !RoundDue(want, q.ticks, turns[n]))
  }

  lemma EndsLater(want: u32, p: Producer, next: Producer, q: Producer, turns: seq<Turn>, n: nat)
    requires turns != [] && RoundDue(want, p.ticks, turns[0]) && EndsAfter(want, next, q, turns[1..], n)
    requires next.ticks == p.ticks + 1 && next.place == p.place
    requires next.sent + next.dropped + next.timeouts == p.sent + p.dropped + p.timeouts + 1
    ensures EndsAfter(want, p, q, turns, n + 1)
  {
    forall k | 0 <= k < n + 1
      ensures RoundDue(want, p.ticks + k, turns[k])
    {
      assert k > 0 ==> RoundDue(want, next.ticks + (k - 1), turns[1..][k - 1]);
    }
  }

  lemma OneRound(setup: Setup, p: Producer, t: Turn)
    requires CanTake(p.backend, t.arrival) && !p.failed && WantsMore(setup, p)
    ensures var q := Ticked(setup, p, t);
            && q.ticks == p.ticks && (q.place == Finished <==> q.failed)
            && q.sent + q.dropped + q.timeouts == p.sent + p.dropped + p.timeouts + (if q.failed then 0 else 1)
  {
  }

  /**
    How the loop ends, by what it counted: it goes round exactly while no stop is seen and
    ticks are left, each full round one frame sent, dropped or timed out, and leaves early
    only where a tick fails.
   */
  lemma {:induction false} LoopEnds(setup: Setup, p: Producer, turns: seq<Turn>)
    requires p.place == AtGuard && !p.failed && Timely(setup, p, turns)
    ensures exists n: nat :: EndsAfter(setup.want, p, LoopOver(setup, p, turns), turns, n)
    decreases |turns|
  {
    var q := LoopOver(setup, p, turns);
    if !GoesOn(setup, p, turns) {
      assert EndsAfter(setup.want, p, q, turns, 0);
    } else {
      var ticked := Ticked(setup, p, turns[0]);
      OneRound(setup, p, turns[0]);
      if ticked.failed {
        assert EndsAfter(setup.want, p, q, turns, 0);
      } else {
        LoopStep(setup, p, turns, turns[1..]);
        LoopEnds(setup, Counted(ticked), turns[1..]);
        var n: nat :| EndsAfter(setup.want, Counted(ticked), q, turns[1..], n);
        EndsLater(setup.want, p, Counted(ticked), q, turns, n);
      }
    }
  }

  // ---- the loop itself ----

  /** A tick, read off its return code and the send. */
  lemma TickedIs(setup: Setup, p: Producer, t: Turn)
    requires CanTake(p.backend, t.arrival)
    ensures var q, code := Ticked(setup, p, t), CodeOf(p.backend, t.arrival);
            var accepted := code == 0 && t.send.Accepted?;
            var failed := code < 0 || (code == 0 && t.send.SendFailed?);
            && q.id == p.id && q.capacity == p.capacity && q.ticks == p.ticks
            && q.backend == AfterTaking(p.backend, t.arrival)
            && q.sent == p.sent + (if accepted then 1 else 0)
            && q.dropped == p.dropped + (if code == 0 && t.send.QueueFull? then 1 else 0)
            && q.queue == p.queue + (if accepted then [Encode(FrameOf(p, t.arrival, t.clock))] else [])
            && q.failed == (p.failed || failed) && (q.place == Finished <==> failed)
  {
  }

  class CameraLoop {
    const camera: C.Camera
    const want: u32
    var ticks: nat
    var rc: int
    var queue: seq<seq<byte>>

    constructor (camera: C.Camera, want: u32)
      ensures this.camera == camera && this.want == want && ticks == 0 && rc == 0 && queue == []
    {
      this.camera, this.want, ticks, rc, queue := camera, want, 0, 0, [];
    }

    /** The pipeline's view of this thread. */
    ghost predicate Shows(p: Producer)
      reads this, camera, camera.frame, camera.driver.Objects()
    {
      && camera.Valid() && camera.driver.Up()
      && p.id == camera.cameraId && p.capacity == camera.frame.capacity
      && p.backend == camera.driver.Value()
      && p.ticks == ticks && p.sent == camera.sent && p.dropped == camera.dropped
      && p.queue == queue && p.failed == (rc < 0)
    }

    method Tick(setup: Setup, t: Turn, ghost p: Producer) returns (failed: bool)
      requires Shows(p) && rc == 0 && CanTake(camera.driver.Value(), t.arrival)
      modifies this`rc, this`queue
      modifies camera`sent, camera`dropped, camera.scratch, camera.frame, camera.frame.support, camera.frame.signal
      modifies camera.driver.Objects()
      ensures Shows(Ticked(setup, p, t)) && failed == (Ticked(setup, p, t).place == Finished) && failed == (rc < 0)
      ensures !failed ==> rc == 0
      ensures camera.frame.support == old(camera.frame.support) && camera.frame.signal == old(camera.frame.signal)
    {
      TickedIs(setup, p, t);
      var result, published := camera.Tick(t.arrival, t.clock, t.send);
      if published.Some? {
        queue := queue + [published.value];
      }
      failed := result < 0;
      if failed {
        rc := result;
      }
    }

    /** cam_run, for as long as the turns last. */
    method CamRun(setup: Setup, turns: seq<Turn>, ghost start: Producer)
      requires Shows(start) && rc == 0 && start.place == AtGuard && setup.want == want && Timely(setup, start, turns)
      modifies this
      modifies camera`sent, camera`dropped, camera.scratch, camera.frame, camera.frame.support, camera.frame.signal
      modifies camera.driver.Objects()
      ensures Shows(LoopOver(setup, start, turns))
    {
      ghost var p := start;
      var i := 0;
      while i < |turns| && !turns[i].stop && (want == 0 || ticks < want)
        invariant i <= |turns| && Shows(p) && rc == 0 && p.place == AtGuard
        invariant camera.frame.support == old(camera.frame.support) && camera.frame.signal == old(camera.frame.signal)
        invariant Timely(setup, p, turns[i..])
        invariant LoopOver(setup, p, turns[i..]) == LoopOver(setup, start, turns)
        decreases |turns| - i
      {
        ghost var rest := turns[i..];
        assert rest[0] == turns[i] && rest[1..] == turns[i + 1..];
        var failed := Tick(setup, turns[i], p);
        if failed {
          return;
        }
        LoopStep(setup, p, rest, turns[i + 1..]);
        ticks := ticks + 1;
        p := Counted(Ticked(setup, p, turns[i]));
        i := i + 1;
      }
    }
  }
}
