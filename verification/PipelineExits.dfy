/** What each way of leaving the drain loop entitles one to conclude. */
module PipelineExits {
  import opened Machine
  import opened SinkModel
  import opened Backends
  import opened Pipeline
  import opened PipelineInvariant
  import opened PipelineLaws

  // ---- leaving by count ----

  /** A camera that delivered everything it was asked for, and nothing else happened to it. */
  predicate Delivered(want: u32, p: Producer) {
    p.sent == want && p.dropped == p.timeouts == 0 && p.queue == [] && !p.failed
  }

  lemma Times(want: nat, n: nat)
    requires n > 0
    ensures want * n == want * (n - 1) + want
  {
  }

  ghost predicate NoneOver(want: u32, ps: seq<Producer>) {
    forall i :: 0 <= i < |ps| ==> |Taken(ps[i])| <= want
  }

  lemma {:induction false} AtMostAll(want: u32, ps: seq<Producer>)
    requires NoneOver(want, ps)
    ensures TakenTotal(ps) <= want * |ps|
    decreases |ps|
  {
    if ps != [] {
      AtMostAll(want, ps[..|ps| - 1]);
      Times(want, |ps|);
    }
  }

  lemma {:induction false} AllTaken(want: u32, ps: seq<Producer>, i: nat)
    requires NoneOver(want, ps) && TakenTotal(ps) >= want * |ps| && i < |ps|
    ensures |Taken(ps[i])| == want
    decreases |ps|
  {
    var last := |ps| - 1;
    Times(want, |ps|);
    AtMostAll(want, ps[..last]);
    if i < last {
      AllTaken(want, ps[..last], i);
    }
  }

  lemma TakesAtMost(want: u32, p: Producer)
    requires want > 0 && Sound(want, p)
    ensures |Taken(p)| <= want
  {
  }

  lemma TakenMeansDelivered(want: u32, p: Producer)
    requires want > 0 && Sound(want, p) && |Taken(p)| == want
    ensures Delivered(want, p)
  {
  }

  /**
    Leaving the drain loop because enough arrived is conclusive, from then on: every
    camera sent exactly what it was asked for, nothing was dropped and nothing is queued.
   */
  lemma CountExitIsConclusive(setup: Setup, start: Run, actions: seq<Action>, i: nat)
    requires Initial(setup, start) && Happens(setup, start, actions)
    requires After(setup, start, actions).main == Exited(ByCount)
    requires i < |After(setup, start, actions).producers|
    ensures Delivered(setup.want, After(setup, start, actions).producers[i])
  {
    var s := After(setup, start, actions);
    Reachable(setup, start, actions);
    assert setup.want > 0;
    forall k | 0 <= k < |s.producers|
      ensures |Taken(s.producers[k])| <= setup.want
    {
      TakesAtMost(setup.want, s.producers[k]);
    }
    AllTaken(setup.want, s.producers, i);
    TakenMeansDelivered(setup.want, s.producers[i]);
  }

  /** A camera with no refusals at all has none between any two frames. */
  lemma DeliveredUnrefused(want: u32, p: Producer)
    requires Sound(want, p) && p.backend.Mock? && Delivered(want, p)
    ensures RefusedWithin(p) == 0 && Unwrapped(p)
  {
    AllCounted(p.fates);
    var ps, r := Positions(p.fates), |Taken(p)|;
    if r > 0 {
      RefusalsSplit(p.fates, 0, ps[0], |p.fates|);
      RefusalsSplit(p.fates, ps[0], ps[r - 1], |p.fates|);
    }
  }

  /** And with synthetic cameras only, the report is a PASS. */
  lemma CountExitPasses(setup: Setup, start: Run, actions: seq<Action>)
    requires Initial(setup, start) && Happens(setup, start, actions) && AllMock(start)
    requires After(setup, start, actions).main == Exited(ByCount)
    ensures Verdict(After(setup, start, actions).sink) == 0
  {
    var s := After(setup, start, actions);
    Reachable(setup, start, actions);
    MockStaysMock(setup, start, actions);
    forall i | 0 <= i < |s.producers|
      ensures RefusedWithin(s.producers[i]) == 0 && Unwrapped(s.producers[i])
    {
      CountExitIsConclusive(setup, start, actions, i);
      DeliveredUnrefused(setup.want, s.producers[i]);
    }
    VerdictIff(setup, s);
  }

  // ---- leaving because it went quiet ----

  /**
    Leaving because nothing arrives means every camera is done for good: it never
    started, failed, or made all its attempts.
   */
  lemma QuietExitMeansFinished(setup: Setup, start: Run, actions: seq<Action>, i: nat)
    requires Initial(setup, start) && Happens(setup, start, actions)
    requires After(setup, start, actions).main == Exited(ByQuiet)
    requires i < |After(setup, start, actions).producers|
    ensures var p := After(setup, start, actions).producers[i];
            || p.place == NotStarted || p.failed
            || (setup.want > 0 && p.ticks == p.sent + p.dropped + p.timeouts == setup.want)
  {
    var s := After(setup, start, actions);
    Reachable(setup, start, actions);
    assert Sound(setup.want, s.producers[i]);
    assert !Producing(setup, s.producers[i]);
  }

  /** How many times in a row, at the end, the sink was polled in vain. */
  function TrailingQuiet(actions: seq<Action>): nat {
    if actions == [] then 0
    else
      var front, last := actions[..|actions| - 1], actions[|actions| - 1];
      if last.ReceiveNothing? then TrailingQuiet(front) + 1
      else if last.ReceiveFrom? then 0
      else TrailingQuiet(front)
  }

  ghost predicate CountsQuiet(main: MainPlace, quiet: nat) {
    match main
    case Spawning(_) => quiet == 0
    case Polling(q) => q == quiet
    case Counting(q) => q == quiet
    case Scanning(q, _) => q == quiet
    case Watching(q) => q == quiet
    case Exited(why) => why == ByQuiet ==> quiet >= 2
  }

  lemma QuietStepCounts(setup: Setup, s: Run, a: Action, quiet: nat)
    requires Enabled(setup, s, a) && |s.sink.table.ids| == |s.sink.table.slots| && CountsQuiet(s.main, quiet)
    requires s.main.Exited? ==> s.stop
    ensures CountsQuiet(Act(setup, s, a).main,
                        if a.ReceiveNothing? then quiet + 1 else if a.ReceiveFrom? then 0 else quiet)
  {
  }

  lemma {:induction false} QuietCounted(setup: Setup, start: Run, actions: seq<Action>)
    requires Initial(setup, start) && Happens(setup, start, actions)
    ensures CountsQuiet(After(setup, start, actions).main, TrailingQuiet(actions))
    decreases |actions|
  {
    if actions != [] {
      var before := actions[..|actions| - 1];
      QuietCounted(setup, start, before);
      Reachable(setup, start, before);
      QuietStepCounts(setup, After(setup, start, before), actions[|actions| - 1], TrailingQuiet(before));
    }
  }

  /** Nobody leaves quietly before two polls in a row found nothing. */
  lemma QuietExitSawTwo(setup: Setup, start: Run, actions: seq<Action>)
    requires Initial(setup, start) && Happens(setup, start, actions)
    requires After(setup, start, actions).main == Exited(ByQuiet)
    ensures TrailingQuiet(actions) >= 2
  {
    QuietCounted(setup, start, actions);
  }

  // ---- what a quiet exit leaves behind ----

  ghost predicate QueuesEmpty(ps: seq<Producer>) {
    forall i :: 0 <= i < |ps| ==> ps[i].queue == []
  }

  /** Every poll that found nothing found every queue empty: no message was still on its way. */
  ghost predicate Prompt(setup: Setup, start: Run, actions: seq<Action>)
    requires Initial(setup, start) && Happens(setup, start, actions)
    decreases |actions|
  {
    actions == [] ||
    (var before := actions[..|actions| - 1];
     Prompt(setup, start, before)
     && (actions[|actions| - 1].ReceiveNothing? ==> QueuesEmpty(After(setup, start, before).producers)))
  }

  /** What camera i sent after the last poll in vain. */
  function SendsSincePoll(actions: seq<Action>, i: nat): nat {
    if actions == [] then 0
    else
      var front, last := actions[..|actions| - 1], actions[|actions| - 1];
      if last.ReceiveNothing? then 0
      else if last.Send? && last.i == i then SendsSincePoll(front, i) + 1
      else SendsSincePoll(front, i)
  }

  /** What one step does to a queue. */
  lemma QueueStep(setup: Setup, s: Run, a: Action, i: nat)
    requires Enabled(setup, s, a) && |s.sink.table.ids| == |s.sink.table.slots| && !a.ReceiveFrom?
    requires i < |s.producers|
    ensures var t := Act(setup, s, a);
            && |t.producers| == |s.producers|
            && |t.producers[i].queue| == |s.producers[i].queue| + (if a.Send? && a.i == i then 1 else 0)
  {
  }

  /** From the last poll in vain on, a queue holds exactly what was sent since. */
  lemma {:induction false} QueueIsLateSends(setup: Setup, start: Run, actions: seq<Action>, i: nat)
    requires Initial(setup, start) && Happens(setup, start, actions) && Prompt(setup, start, actions)
    requires TrailingQuiet(actions) > 0 && i < |After(setup, start, actions).producers|
    ensures |After(setup, start, actions).producers[i].queue| == SendsSincePoll(actions, i)
    decreases |actions|
  {
    var before, a := actions[..|actions| - 1], actions[|actions| - 1];
    var s := After(setup, start, before);
    CamerasStay(setup, start, before);
    CamerasStay(setup, start, actions);
    QueueStep(setup, s, a, i);
    if a.ReceiveNothing? {
      assert s.producers[i].queue == [];
    } else {
      QueueIsLateSends(setup, start, before, i);
    }
  }

  /**
    If polls find nothing only when nothing is queued, leaving quietly leaves something of a
    camera behind exactly when that camera sent after the last poll in vain.
   */
  lemma QuietExitStrandsIff(setup: Setup, start: Run, actions: seq<Action>, i: nat)
    requires Initial(setup, start) && Happens(setup, start, actions) && Prompt(setup, start, actions)
    requires After(setup, start, actions).main == Exited(ByQuiet)
    requires i < |After(setup, start, actions).producers|
    ensures After(setup, start, actions).producers[i].queue != [] <==> SendsSincePoll(actions, i) > 0
  {
    QuietExitSawTwo(setup, start, actions);
    QueueIsLateSends(setup, start, actions, i);
  }

  function SentTotal(ps: seq<Producer>): nat {
    if ps == [] then 0 else SentTotal(ps[..|ps| - 1]) + ps[|ps| - 1].sent
  }

  /** What each camera sent was taken or is queued. */
  ghost predicate Balanced(ps: seq<Producer>) {
    forall i :: 0 <= i < |ps| ==> |Taken(ps[i])| + |ps[i].queue| == ps[i].sent
  }

  lemma SoundBalanced(want: u32, p: Producer)
    requires Sound(want, p)
    ensures |Taken(p)| + |p.queue| == p.sent
  {
  }

  lemma {:induction false} TakenIsSent(ps: seq<Producer>)
    requires Balanced(ps)
    ensures TakenTotal(ps) <= SentTotal(ps)
    ensures TakenTotal(ps) == SentTotal(ps) <==> QueuesEmpty(ps)
    decreases |ps|
  {
    if ps != [] {
      var front, last := ps[..|ps| - 1], ps[|ps| - 1];
      TakenIsSent(front);
      assert QueuesEmpty(ps) <==> QueuesEmpty(front) && last.queue == [];
    }
  }

  /** Whether anything was left behind can be read off the counters: received against sent. */
  lemma NothingQueuedIff(setup: Setup, start: Run, actions: seq<Action>)
    requires Initial(setup, start) && Happens(setup, start, actions)
    ensures var s := After(setup, start, actions);
            QueuesEmpty(s.producers) <==> s.sink.received == SentTotal(s.producers)
  {
    var s := After(setup, start, actions);
    Reachable(setup, start, actions);
    MessagesAreFrames(setup.sinkConfig, s.trace);
    forall i | 0 <= i < |s.producers|
      ensures |Taken(s.producers[i])| + |s.producers[i].queue| == s.producers[i].sent
    {
      SoundBalanced(setup.want, s.producers[i]);
    }
    TakenIsSent(s.producers);
  }

  /** One camera that has started and sent nothing, polled once in vain. */
  lemma QuietStart(setup: Setup, start: Run)
    requires Initial(setup, start) && |start.producers| == 1 && setup.want == 1
    ensures var actions := [] + [Spawn] + [ReceiveNothing] + [CheckCount] + [ScanProducer] + [WatchdogWaits]
                           + [ReceiveNothing];
            Happens(setup, start, actions)
            && After(setup, start, actions)
               == start.(producers := [start.producers[0].(place := AtGuard)], main := Counting(2))
  {
    Then(setup, start, [], Spawn);
    Then(setup, start, [] + [Spawn], ReceiveNothing);
    Then(setup, start, [] + [Spawn] + [ReceiveNothing], CheckCount);
    Then(setup, start, [] + [Spawn] + [ReceiveNothing] + [CheckCount], ScanProducer);
    Then(setup, start, [] + [Spawn] + [ReceiveNothing] + [CheckCount] + [ScanProducer], WatchdogWaits);
    Then(setup, start, [] + [Spawn] + [ReceiveNothing] + [CheckCount] + [ScanProducer] + [WatchdogWaits],
         ReceiveNothing);
  }

  lemma CameraMoves(setup: Setup, start: Run, before: seq<Action>, p: Producer, a: Action)
    requires Initial(setup, start) && Happens(setup, start, before)
    requires After(setup, start, before) == start.(producers := [p], main := Counting(2))
    requires IsThreadAction(a) && a.i == 0 && ThreadEnabled(setup, start.stop, p, a)
    ensures Happens(setup, start, before + [a])
    ensures After(setup, start, before + [a])
            == start.(producers := [ThreadAct(setup, start.stop, p, a)], main := Counting(2))
  {
    Then(setup, start, before, a);
  }

  lemma QuietEnd(setup: Setup, start: Run, before: seq<Action>, p: Producer)
    requires Initial(setup, start) && Happens(setup, start, before) && setup.want == 1
    requires After(setup, start, before) == start.(producers := [p], main := Counting(2))
    requires p.ticks == 1
    ensures var actions := before + [CheckCount] + [ScanProducer] + [ScanEnds];
            Happens(setup, start, actions)
            && After(setup, start, actions) == start.(producers := [p], main := Exited(ByQuiet), stop := true)
  {
    Then(setup, start, before, CheckCount);
    Then(setup, start, before + [CheckCount], ScanProducer);
    Then(setup, start, before + [CheckCount] + [ScanProducer], ScanEnds);
  }

  /** Some run leaves quietly with a message still queued. */
  ghost predicate CanStrand(setup: Setup, start: Run)
    requires Initial(setup, start)
  {
    exists actions ::
      && Happens(setup, start, actions)
      && After(setup, start, actions).main == Exited(ByQuiet)
      && !QueuesEmpty(After(setup, start, actions).producers)
  }

  lemma StrandEnd(setup: Setup, start: Run, before: seq<Action>, p: Producer)
    requires Initial(setup, start) && Happens(setup, start, before) && setup.want == 1
    requires After(setup, start, before) == start.(producers := [p], main := Counting(2))
    requires p.ticks == 1 && p.queue != []
    ensures CanStrand(setup, start)
  {
    QuietEnd(setup, start, before, p);
    assert After(setup, start, before + [CheckCount] + [ScanProducer] + [ScanEnds]).producers[0].queue != [];
  }

  lemma CountStrands(setup: Setup, start: Run, before: seq<Action>, p: Producer)
    requires Initial(setup, start) && Happens(setup, start, before) && setup.want == 1
    requires After(setup, start, before) == start.(producers := [p], main := Counting(2))
    requires p.place == AfterTick && p.ticks == 0 && p.queue != []
    ensures CanStrand(setup, start)
  {
    var q := p.(place := AtGuard, ticks := 1);
    CameraMoves(setup, start, before, p, CountTick(0));
    assert ThreadAct(setup, start.stop, p, CountTick(0)) == q;
    StrandEnd(setup, start, before + [CountTick(0)], q);
  }

  /** It sends its only frame between the poll and the check of who is still producing. */
  lemma LateSendStrands(
      setup: Setup, start: Run, before: seq<Action>, p: Producer, arrival: Arrival, clock: i64)
    requires Initial(setup, start) && Happens(setup, start, before) && setup.want == 1
    requires After(setup, start, before) == start.(producers := [p], main := Counting(2))
    requires p.place == InTick && p.ticks == 0 && Acquires(p, arrival)
    ensures CanStrand(setup, start)
  {
    CameraMoves(setup, start, before, p, Send(0, arrival, clock));
    CountStrands(setup, start, before + [Send(0, arrival, clock)], Sent(p, arrival, clock));
  }

  /** Leaving quietly does not mean the queues are empty: a last frame can be left behind. */
  lemma QuietExitCanStrand(setup: Setup, start: Run, arrival: Arrival, clock: i64)
    requires Initial(setup, start) && |start.producers| == 1 && setup.want == 1
    requires Acquires(start.producers[0], arrival)
    ensures CanStrand(setup, start)
  {
    var polled := [] + [Spawn] + [ReceiveNothing] + [CheckCount] + [ScanProducer] + [WatchdogWaits]
                           + [ReceiveNothing];
    var p := start.producers[0].(place := AtGuard);
    QuietStart(setup, start);
    CameraMoves(setup, start, polled, p, EnterTick(0));
    LateSendStrands(setup, start, polled + [EnterTick(0)], p.(place := InTick), arrival, clock);
  }
}
