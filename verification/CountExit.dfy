/** A run can end because enough arrived: any synthetic cameras, any number of frames. */
module CountExit {
  import opened Machine
  import opened SinkModel
  import opened Backends
  import opened Pipeline
  import opened PipelineInvariant
  import opened PipelineLaws
  import opened DrainLoop
  import CameraThread
  import PipelineExits

  /** Some run leaves the drain loop by count. */
  ghost predicate CanLeaveByCount(setup: Setup, start: Run)
    requires Initial(setup, start)
  {
    exists actions :: LeavesByCount(setup, start, actions)
  }

  ghost predicate LeavesByCount(setup: Setup, start: Run, actions: seq<Action>)
    requires Initial(setup, start)
  {
    Happens(setup, start, actions) && After(setup, start, actions).main == Exited(ByCount)
  }

  /** The clock lasts for this many more frames of a synthetic camera. */
  ghost predicate ClockLasts(p: Producer, n: nat)
    requires p.backend.Mock?
  {
    p.backend.st.next + n * p.backend.st.period <= I63
  }

  /** The run can come to t from here. */
  ghost predicate Comes(setup: Setup, start: Run, before: seq<Action>, t: Run)
    requires Initial(setup, start)
  {
    exists more :: ComesBy(setup, start, before, more, t)
  }

  ghost predicate ComesBy(setup: Setup, start: Run, before: seq<Action>, more: seq<Action>, t: Run)
    requires Initial(setup, start)
  {
    Happens(setup, start, before + more) && After(setup, start, before + more) == t
  }

  lemma ComesJoined(setup: Setup, start: Run, before: seq<Action>, acts: seq<Action>, more: seq<Action>, t: Run)
    requires Initial(setup, start) && ComesBy(setup, start, before + acts, more, t)
    ensures ComesBy(setup, start, before, acts + more, t)
  {
    assert before + (acts + more) == before + acts + more;
  }

  lemma ProceedingComes(setup: Setup, start: Run, before: seq<Action>, acts: seq<Action>, t: Run)
    requires Initial(setup, start) && Proceeds(setup, start, before + acts, t)
    ensures Comes(setup, start, before, t)
  {
    var more :| ProceedsBy(setup, start, before + acts, more, t);
    assert ComesBy(setup, start, before + acts, more, t);
    ComesJoined(setup, start, before, acts, more, t);
  }

  // ---- one frame, delivered ----

  /** Between frames: nothing queued, nothing ever refused. */
  ghost predicate AtRest(want: u32, p: Producer) {
    && p.place == AtGuard && !p.failed && p.queue == [] && p.dropped == 0 && p.ticks <= want
    && p.backend.Mock? && ClockLasts(p, want - p.ticks)
  }

  ghost predicate AllAtRest(want: u32, s: Run) {
    && s.main == Polling(0) && !s.stop
    && forall i :: 0 <= i < |s.producers| ==> AtRest(want, s.producers[i])
  }

  lemma OneLess(n: nat, period: nat)
    requires n > 0
    ensures n * period == (n - 1) * period + period
  {
  }

  /** Woken exactly at its deadline, its frame accepted at once. */
  function Prompt(p: Producer): CameraThread.Turn
    requires p.backend.Mock? && -I63 <= p.backend.st.next < I63
  {
    CameraThread.Turn(false, Woken(p.backend.st.next), 0, CameraThread.C.Accepted)
  }

  lemma WakeFits(want: u32, p: Producer)
    requires AtRest(want, p) && Sound(want, p) && p.ticks < want
    ensures -I63 <= p.backend.st.next < I63 && CanTake(p.backend, Woken(p.backend.st.next))
  {
    OneLess(want - p.ticks, p.backend.st.period);
    LeastProduct(want - p.ticks - 1, p.backend.st.period);
  }

  lemma LeastProduct(n: nat, period: nat)
    ensures n * period >= 0
  {
  }

  /** After a prompt tick: one message queued, the deadline one period on. */
  lemma TickQueues(setup: Setup, p: Producer)
    requires AtRest(setup.want, p) && Sound(setup.want, p) && p.ticks < setup.want
    requires -I63 <= p.backend.st.next < I63 && CanTake(p.backend, Woken(p.backend.st.next))
    ensures var q := CameraThread.Counted(CameraThread.Ticked(setup, p, Prompt(p)));
            Delivers(setup.want, q)
    ensures CameraThread.Ticked(setup, p, Prompt(p)).place == AfterTick
  {
    OneLess(setup.want - p.ticks, p.backend.st.period);
  }

  /** A camera that has one message in its queue and is otherwise between frames. */
  ghost predicate Delivers(want: u32, q: Producer) {
    |q.queue| == 1 && AtRest(want, q.(queue := []))
  }

  lemma TickActions(before: seq<Action>, i: nat, a: Action)
    ensures before + [EnterTick(i)] + [a] + [CountTick(i)] == before + [EnterTick(i), a, CountTick(i)]
  {
  }

  lemma TickHappens(setup: Setup, start: Run, before: seq<Action>, i: nat, s: Run, t: CameraThread.Turn)
    requires Initial(setup, start) && Happens(setup, start, before) && After(setup, start, before) == s
    requires i < |s.producers| && s.producers[i].place == AtGuard && !s.stop && WantsMore(setup, s.producers[i])
    requires CanTake(s.producers[i].backend, t.arrival)
    requires CameraThread.Ticked(setup, s.producers[i], t).place == AfterTick
    ensures var p := s.producers[i];
            ComesBy(setup, start, before, [EnterTick(i), CameraThread.ActionOf(i, p, t), CountTick(i)],
                    CameraThread.With(s, i, CameraThread.Counted(CameraThread.Ticked(setup, p, t))))
  {
    var a, ticked := CameraThread.ActionOf(i, s.producers[i], t), CameraThread.Ticked(setup, s.producers[i], t);
    CameraThread.TicksHere(setup, start, before, i, s, t);
    CameraThread.ThreadMoves(setup, start, before + [EnterTick(i)] + [a], i, CountTick(i));
    CameraThread.WithTwice(s, i, ticked, CameraThread.Counted(ticked));
    TickActions(before, i, a);
  }

  lemma TickRuns(setup: Setup, start: Run, before: seq<Action>, i: nat, s: Run)
    requires Initial(setup, start) && Happens(setup, start, before) && After(setup, start, before) == s
    requires AllAtRest(setup.want, s) && i < |s.producers| && s.producers[i].ticks < setup.want
    requires Sound(setup.want, s.producers[i])
    ensures exists acts, q :: ComesBy(setup, start, before, acts, CameraThread.With(s, i, q)) && Delivers(setup.want, q)
  {
    var p := s.producers[i];
    WakeFits(setup.want, p);
    TickQueues(setup, p);
    TickHappens(setup, start, before, i, s, Prompt(p));
  }

  /** The run after the message of camera i has come in. */
  function Received(setup: Setup, s: Run, i: nat, q: Producer, main: MainPlace): Run
    requires i < |s.producers| && |q.queue| == 1
  {
    s.(producers := s.producers[i := q.(queue := [])], main := main, stop := main.Exited?,
       trace := s.trace + [q.queue[0]], sink := Receive(setup.sinkConfig, s.trace + [q.queue[0]]))
  }

  lemma BringsIt(setup: Setup, s: Run, i: nat, q: Producer, main: MainPlace)
    requires i < |s.producers| && |q.queue| == 1
    ensures Brings(setup.sinkConfig, CameraThread.With(s, i, q), i, Received(setup, s, i, q, main))
  {
    assert q.queue[1..] == [];
    assert s.producers[i := q][i := q.(queue := [])] == s.producers[i := q.(queue := [])];
  }

  lemma MessageComesIn(setup: Setup, start: Run, before: seq<Action>, i: nat, s: Run, q: Producer, main: MainPlace)
    requires Initial(setup, start) && Happens(setup, start, before) && i < |s.producers| && |q.queue| == 1
    requires After(setup, start, before) == CameraThread.With(s, i, q) && s.main == Polling(0) && !s.stop
    requires Decides(setup.want, s.producers[i := q.(queue := [])], |s.trace| + 1, 0, main)
    ensures Comes(setup, start, before, Received(setup, s, i, q, main))
  {
    BringsIt(setup, s, i, q, main);
    TurnWithMessage(setup, start, before, i, Received(setup, s, i, q, main));
    ProceedingComes(setup, start, before, [ReceiveFrom(i)], Received(setup, s, i, q, main));
  }

  // ---- somebody still has something to send ----

  ghost predicate AllMade(want: u32, ps: seq<Producer>) {
    forall i :: 0 <= i < |ps| ==> |Taken(ps[i])| >= want
  }

  lemma {:induction false} AllMadeIsEnough(want: u32, ps: seq<Producer>)
    requires AllMade(want, ps)
    ensures TakenTotal(ps) >= want * |ps|
    decreases |ps|
  {
    if ps != [] {
      AllMadeIsEnough(want, ps[..|ps| - 1]);
      PipelineExits.Times(want, |ps|);
    }
  }

  lemma RestedTaken(want: u32, p: Producer)
    requires AtRest(want, p) && Sound(want, p)
    ensures |Taken(p)| == p.ticks
  {
  }

  lemma SomeoneLacks(setup: Setup, s: Run)
    requires Inv(setup, s) && AllAtRest(setup.want, s) && |s.trace| < setup.want * |s.producers|
    ensures exists i :: 0 <= i < |s.producers| && s.producers[i].ticks < setup.want
  {
    if forall i :: 0 <= i < |s.producers| ==> s.producers[i].ticks >= setup.want {
      forall i | 0 <= i < |s.producers|
        ensures |Taken(s.producers[i])| >= setup.want
      {
        RestedTaken(setup.want, s.producers[i]);
      }
      AllMadeIsEnough(setup.want, s.producers);
      assert false;
    }
  }

  // ---- until enough has arrived ----

  lemma RestAgain(setup: Setup, s: Run, i: nat, q: Producer)
    requires AllAtRest(setup.want, s) && i < |s.producers| && Delivers(setup.want, q)
    ensures AllAtRest(setup.want, Received(setup, s, i, q, Polling(0)))
  {
  }

  lemma SomeTurn(want: u32, ps: seq<Producer>, received: nat) returns (main: MainPlace)
    ensures Decides(want, ps, received, 0, main) && (main == Exited(ByCount) || main == Polling(0))
  {
    main := if want > 0 && received >= want * |ps| then Exited(ByCount) else Polling(0);
  }

  ghost predicate Advances(setup: Setup, s: Run, t: Run) {
    && |t.producers| == |s.producers| && |t.trace| == |s.trace| + 1
    && (t.main == Exited(ByCount) || AllAtRest(setup.want, t))
  }

  lemma Advanced(setup: Setup, s: Run, i: nat, q: Producer, main: MainPlace)
    requires AllAtRest(setup.want, s) && i < |s.producers| && Delivers(setup.want, q)
    requires main == Exited(ByCount) || main == Polling(0)
    ensures Advances(setup, s, Received(setup, s, i, q, main))
  {
    if main == Polling(0) {
      RestAgain(setup, s, i, q);
    }
  }

  /** One more frame of a camera that has one left: the loop leaves, or all is at rest again. */
  lemma OneMoreFrame(setup: Setup, start: Run, before: seq<Action>, s: Run, i: nat)
    requires Initial(setup, start) && Happens(setup, start, before) && After(setup, start, before) == s
    requires AllAtRest(setup.want, s) && i < |s.producers| && s.producers[i].ticks < setup.want
    ensures exists more, t :: ComesBy(setup, start, before, more, t) && Advances(setup, s, t)
  {
    CameraIsSound(setup, start, before, i);
    TickRuns(setup, start, before, i, s);
    var acts, q :| ComesBy(setup, start, before, acts, CameraThread.With(s, i, q)) && Delivers(setup.want, q);
    var main := SomeTurn(setup.want, s.producers[i := q.(queue := [])], |s.trace| + 1);
    var t := Received(setup, s, i, q, main);
    MessageComesIn(setup, start, before + acts, i, s, q, main);
    var more :| ComesBy(setup, start, before + acts, more, t);
    ComesJoined(setup, start, before, acts, more, t);
    Advanced(setup, s, i, q, main);
  }

  lemma {:induction false} FramesUntilEnough(setup: Setup, start: Run, before: seq<Action>, s: Run)
    requires Initial(setup, start) && Happens(setup, start, before) && After(setup, start, before) == s
    requires s.main == Exited(ByCount) || AllAtRest(setup.want, s)
    requires setup.want > 0
    ensures CanLeaveByCount(setup, start)
    decreases setup.want * |s.producers| - |s.trace|
  {
    if s.main == Exited(ByCount) {
      assert LeavesByCount(setup, start, before);
    } else {
      StillShort(setup, start, before);
      Reachable(setup, start, before);
      SomeoneLacks(setup, s);
      var i: nat :| i < |s.producers| && s.producers[i].ticks < setup.want;
      OneMoreFrame(setup, start, before, s, i);
      var more, t :| ComesBy(setup, start, before, more, t) && Advances(setup, s, t);
      FramesUntilEnough(setup, start, before + more, t);
    }
  }

  lemma StillShort(setup: Setup, start: Run, before: seq<Action>)
    requires Initial(setup, start) && Happens(setup, start, before) && setup.want > 0
    requires After(setup, start, before).main == Polling(0)
    ensures var s := After(setup, start, before); |s.trace| < setup.want * |s.producers|
  {
    CountsSoFar(setup, start, before);
    SomeCamera(setup, start, before);
    SomethingAsked(setup.want, |After(setup, start, before).producers|);
  }

  // ---- starting the threads ----

  /** The first k threads started. */
  ghost predicate StartedTo(start: Run, s: Run, k: nat) {
    && |s.producers| == |start.producers| && !s.stop
    && (forall i :: 0 <= i < k && i < |start.producers| ==>
          s.producers[i] == start.producers[i].(place := AtGuard))
    && (forall i :: k <= i < |start.producers| ==> s.producers[i] == start.producers[i])
  }

  lemma StartsOne(setup: Setup, start: Run, before: seq<Action>, s: Run, k: nat)
    requires Initial(setup, start) && Happens(setup, start, before) && After(setup, start, before) == s
    requires s.main == Spawning(k) && k < |start.producers| && StartedTo(start, s, k)
    ensures Happens(setup, start, before + [Spawn])
    ensures var t := After(setup, start, before + [Spawn]);
            && StartedTo(start, t, k + 1)
            && t.main == if k + 1 == |start.producers| then Polling(0) else Spawning(k + 1)
  {
    Then(setup, start, before, Spawn);
  }

  /** A synthetic camera about to start whose clock lasts for everything asked of it. */
  ghost predicate CanFinish(want: u32, p: Producer) {
    p.backend.Mock? && ClockLasts(p, want)
  }

  lemma StartedRests(setup: Setup, start: Run, s: Run)
    requires Initial(setup, start) && StartedTo(start, s, |start.producers|) && s.main == Polling(0)
    requires forall i :: 0 <= i < |start.producers| ==> CanFinish(setup.want, start.producers[i])
    ensures AllAtRest(setup.want, s)
  {
    forall i | 0 <= i < |s.producers|
      ensures AtRest(setup.want, s.producers[i])
    {
      assert FreshProducer(start.producers[i]) && CanFinish(setup.want, start.producers[i]);
    }
  }

  lemma {:induction false} StartsAll(setup: Setup, start: Run, before: seq<Action>, s: Run, k: nat)
    requires Initial(setup, start) && Happens(setup, start, before) && After(setup, start, before) == s
    requires s.main == Spawning(k) && k < |start.producers| && StartedTo(start, s, k)
    requires forall i :: 0 <= i < |start.producers| ==> CanFinish(setup.want, start.producers[i])
    requires setup.want > 0
    ensures CanLeaveByCount(setup, start)
    decreases |start.producers| - k
  {
    StartsOne(setup, start, before, s, k);
    var t := After(setup, start, before + [Spawn]);
    if k + 1 == |start.producers| {
      StartedRests(setup, start, t);
      FramesUntilEnough(setup, start, before + [Spawn], t);
    } else {
      StartsAll(setup, start, before + [Spawn], t, k + 1);
    }
  }

  /**
    The count exit is no empty promise: any synthetic cameras, asked for any number of frames
    their clocks last for, have a run that ends because all of them arrived.
   */
  lemma CountExitHappens(setup: Setup, start: Run)
    requires Initial(setup, start) && setup.want > 0
    requires forall i :: 0 <= i < |start.producers| ==>
               start.producers[i].backend.Mock? && ClockLasts(start.producers[i], setup.want)
    ensures CanLeaveByCount(setup, start)
  {
    forall i | 0 <= i < |start.producers|
      ensures CanFinish(setup.want, start.producers[i])
    {
    }
    StartsAll(setup, start, [], start, 0);
  }
}
