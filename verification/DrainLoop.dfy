/** The drain loop as a whole: what each turn decides, why it ends, and what that leaves behind. */
module DrainLoop {
  import opened Machine
  import opened SinkModel
  import opened Pipeline
  import opened PipelineInvariant
  import opened PipelineLaws

  // ---- enough is noticed ----

  lemma Heard(setup: Setup, start: Run, actions: seq<Action>)
    requires Initial(setup, start) && Happens(setup, start, actions)
    ensures var s := After(setup, start, actions);
            s.sink.received == |s.trace| && s.sink == Receive(setup.sinkConfig, s.trace)
  {
    Reachable(setup, start, actions);
    MessagesAreFrames(setup.sinkConfig, After(setup, start, actions).trace);
  }

  lemma SomeCamera(setup: Setup, start: Run, actions: seq<Action>)
    requires Initial(setup, start) && Happens(setup, start, actions)
    ensures After(setup, start, actions).producers != []
  {
    CamerasStay(setup, start, actions);
  }

  lemma CountsSoFar(setup: Setup, start: Run, actions: seq<Action>)
    requires Initial(setup, start) && Happens(setup, start, actions)
    ensures var s := After(setup, start, actions);
            s.main.Counting? || s.main.Exited? || Short(setup, s)
  {
    Reachable(setup, start, actions);
  }

  /** As soon as everything asked for has arrived the loop is about to leave, or has left. */
  lemma {:induction false} EnoughIsNoticed(setup: Setup, start: Run, actions: seq<Action>)
    requires Initial(setup, start) && Happens(setup, start, actions)
    ensures var s := After(setup, start, actions);
            setup.want * |s.producers| > 0 && s.sink.received >= setup.want * |s.producers| ==>
              s.main.Counting? || s.main.Exited?
  {
    Heard(setup, start, actions);
    CountsSoFar(setup, start, actions);
  }

  // ---- one turn ----

  predicate IsMainAction(a: Action) {
    !IsThreadAction(a) && !a.Interrupt?
  }

  /** The main thread's own steps between two polls. */
  predicate IsLoopAction(a: Action) {
    a.CheckCount? || a.ScanProducer? || a.ScanEnds? || a.WatchdogWaits?
  }

  ghost predicate AllLoopActions(actions: seq<Action>) {
    forall k :: 0 <= k < |actions| ==> IsLoopAction(actions[k])
  }

  /** Nothing but the main thread moving, and no deadline passing, the run comes to t. */
  ghost predicate Proceeds(setup: Setup, start: Run, before: seq<Action>, t: Run)
    requires Initial(setup, start)
  {
    exists more :: ProceedsBy(setup, start, before, more, t)
  }

  ghost predicate ProceedsBy(setup: Setup, start: Run, before: seq<Action>, more: seq<Action>, t: Run)
    requires Initial(setup, start)
  {
    AllLoopActions(more) && Happens(setup, start, before + more) && After(setup, start, before + more) == t
  }

  lemma Arrives(setup: Setup, start: Run, before: seq<Action>, t: Run)
    requires Initial(setup, start) && Happens(setup, start, before) && After(setup, start, before) == t
    ensures Proceeds(setup, start, before, t)
  {
    assert before + [] == before;
    assert ProceedsBy(setup, start, before, [], t);
  }

  lemma OneMoreLoopAction(a: Action, more: seq<Action>)
    requires IsLoopAction(a) && AllLoopActions(more)
    ensures AllLoopActions([a] + more)
  {
  }

  lemma ProceedsLonger(setup: Setup, start: Run, before: seq<Action>, a: Action, more: seq<Action>, t: Run)
    requires Initial(setup, start) && ProceedsBy(setup, start, before + [a], more, t)
    requires AllLoopActions([a] + more)
    ensures ProceedsBy(setup, start, before, [a] + more, t)
  {
    assert before + ([a] + more) == before + [a] + more;
  }

  lemma ProceedsFrom(setup: Setup, start: Run, before: seq<Action>, a: Action, t: Run)
    requires Initial(setup, start) && IsLoopAction(a) && Proceeds(setup, start, before + [a], t)
    ensures Proceeds(setup, start, before, t)
  {
    var more :| ProceedsBy(setup, start, before + [a], more, t);
    OneMoreLoopAction(a, more);
    ProceedsLonger(setup, start, before, a, more, t);
  }

  /** A camera that may still send: started, not failed, attempts left. */
  ghost predicate Sending(want: u32, p: Producer) {
    p.place != NotStarted && !p.failed && (want == 0 || p.ticks < want)
  }

  ghost predicate Idle(want: u32, ps: seq<Producer>) {
    forall i :: 0 <= i < |ps| ==> !Sending(want, ps[i])
  }

  lemma WatchdogLets(setup: Setup, start: Run, before: seq<Action>, s: Run, quiet: nat)
    requires Initial(setup, start) && Happens(setup, start, before) && After(setup, start, before) == s
    requires s.main == Watching(quiet)
    ensures Proceeds(setup, start, before, s.(main := Polling(quiet)))
  {
    Then(setup, start, before, WatchdogWaits);
    Arrives(setup, start, before + [WatchdogWaits], s.(main := Polling(quiet)));
    ProceedsFrom(setup, start, before, WatchdogWaits, s.(main := Polling(quiet)));
  }

  ghost predicate IdleBefore(want: u32, ps: seq<Producer>, n: nat) {
    forall i :: 0 <= i < n && i < |ps| ==> !Sending(want, ps[i])
  }

  /** Where a scan ends. */
  function Scanned(s: Run, quiet: nat, leaves: bool): Run {
    s.(main := if leaves then Exited(ByQuiet) else Polling(quiet), stop := s.stop || leaves)
  }

  lemma ScanFinds(setup: Setup, start: Run, before: seq<Action>, s: Run, quiet: nat, at: nat)
    requires Initial(setup, start) && Happens(setup, start, before) && After(setup, start, before) == s
    requires s.main == Scanning(quiet, at) && at < |s.producers| && Sending(setup.want, s.producers[at])
    ensures Proceeds(setup, start, before, Scanned(s, quiet, false))
  {
    Then(setup, start, before, ScanProducer);
    WatchdogLets(setup, start, before + [ScanProducer], s.(main := Watching(quiet)), quiet);
    ProceedsFrom(setup, start, before, ScanProducer, Scanned(s, quiet, false));
  }

  lemma ScanSkips(setup: Setup, start: Run, before: seq<Action>, s: Run, quiet: nat, at: nat)
    requires Initial(setup, start) && Happens(setup, start, before) && After(setup, start, before) == s
    requires s.main == Scanning(quiet, at) && at < |s.producers| && !Sending(setup.want, s.producers[at])
    ensures Happens(setup, start, before + [ScanProducer])
    ensures After(setup, start, before + [ScanProducer]) == s.(main := Scanning(quiet, at + 1))
  {
    Then(setup, start, before, ScanProducer);
  }

  lemma ScanOver(setup: Setup, start: Run, before: seq<Action>, s: Run, quiet: nat)
    requires Initial(setup, start) && Happens(setup, start, before) && After(setup, start, before) == s
    requires s.main == Scanning(quiet, |s.producers|)
    ensures Proceeds(setup, start, before, Scanned(s, quiet, quiet >= 2))
  {
    Then(setup, start, before, ScanEnds);
    if quiet >= 2 {
      Arrives(setup, start, before + [ScanEnds], Scanned(s, quiet, true));
    } else {
      WatchdogLets(setup, start, before + [ScanEnds], s.(main := Watching(quiet)), quiet);
    }
    ProceedsFrom(setup, start, before, ScanEnds, Scanned(s, quiet, quiet >= 2));
  }

  lemma {:induction false} ScanRuns(setup: Setup, start: Run, before: seq<Action>, s: Run, quiet: nat, at: nat)
    requires Initial(setup, start) && Happens(setup, start, before) && After(setup, start, before) == s
    requires s.main == Scanning(quiet, at) && at <= |s.producers| && IdleBefore(setup.want, s.producers, at)
    ensures Proceeds(setup, start, before, Scanned(s, quiet, Idle(setup.want, s.producers) && quiet >= 2))
    decreases |s.producers| - at
  {
    if at == |s.producers| {
      ScanOver(setup, start, before, s, quiet);
    } else if Sending(setup.want, s.producers[at]) {
      ScanFinds(setup, start, before, s, quiet, at);
    } else {
      var t := s.(main := Scanning(quiet, at + 1));
      ScanSkips(setup, start, before, s, quiet, at);
      ScanRuns(setup, start, before + [ScanProducer], t, quiet, at + 1);
      ProceedsFrom(setup, start, before, ScanProducer,
                   Scanned(t, quiet, Idle(setup.want, s.producers) && quiet >= 2));
    }
  }

  /** Where a turn ends that has received so many messages and been quiet for so many polls. */
  ghost predicate Decides(want: u32, ps: seq<Producer>, received: nat, quiet: nat, main: MainPlace) {
    if want > 0 && received >= want * |ps| then main == Exited(ByCount)
    else if Idle(want, ps) && quiet >= 2 then main == Exited(ByQuiet)
    else main == Polling(quiet)
  }

  lemma SomethingAsked(want: u32, n: nat)
    requires n > 0
    ensures want * n > 0 <==> want > 0
  {
  }

  lemma CountRuns(setup: Setup, start: Run, before: seq<Action>, s: Run, quiet: nat, main: MainPlace)
    requires Initial(setup, start) && Happens(setup, start, before) && After(setup, start, before) == s
    requires s.main == Counting(quiet) && s.producers != [] && s.sink.received == |s.trace| && !s.stop
    requires Decides(setup.want, s.producers, |s.trace|, quiet, main)
    ensures Proceeds(setup, start, before, s.(main := main, stop := main.Exited?))
  {
    SomethingAsked(setup.want, |s.producers|);
    Then(setup, start, before, CheckCount);
    if main == Exited(ByCount) {
      Arrives(setup, start, before + [CheckCount], s.(main := main, stop := true));
    } else {
      ScanRuns(setup, start, before + [CheckCount], s.(main := Scanning(quiet, 0)), quiet, 0);
    }
    ProceedsFrom(setup, start, before, CheckCount, s.(main := main, stop := main.Exited?));
  }

  /** What a poll leaves behind when it brings the oldest message of camera i. */
  ghost predicate Brings(cfg: Config, s: Run, i: nat, t: Run)
    requires i < |s.producers| && s.producers[i].queue != []
  {
    var p := s.producers[i];
    && t.producers == s.producers[i := p.(queue := p.queue[1..])]
    && t.trace == s.trace + [p.queue[0]] && t.sink == Receive(cfg, t.trace)
  }

  /**
    A poll that brings a message. The main thread alone, no deadline passing, ends the turn
    exactly as the counts say: by count, quietly, or at the next poll with no quiet ones.
   */
  lemma TurnWithMessage(setup: Setup, start: Run, before: seq<Action>, i: nat, t: Run)
    requires Initial(setup, start) && Happens(setup, start, before)
    requires var s := After(setup, start, before);
             && s.main.Polling? && !s.stop
             && i < |s.producers| && s.producers[i].queue != [] && Brings(setup.sinkConfig, s, i, t)
             && Decides(setup.want, t.producers, |t.trace|, 0, t.main) && t.stop == t.main.Exited?
    ensures Happens(setup, start, before + [ReceiveFrom(i)])
    ensures Proceeds(setup, start, before + [ReceiveFrom(i)], t)
  {
    var u := After(setup, start, before).(
      producers := t.producers, trace := t.trace, sink := t.sink, main := Counting(0));
    Then(setup, start, before, ReceiveFrom(i));
    Heard(setup, start, before + [ReceiveFrom(i)]);
    CountRuns(setup, start, before + [ReceiveFrom(i)], u, 0, t.main);
  }

  lemma PollsInVain(setup: Setup, start: Run, before: seq<Action>, s: Run)
    requires Initial(setup, start) && Happens(setup, start, before) && After(setup, start, before) == s
    requires s.main.Polling? && !s.stop
    ensures Happens(setup, start, before + [ReceiveNothing])
    ensures After(setup, start, before + [ReceiveNothing]) == s.(main := Counting(s.main.quiet + 1))
  {
    Then(setup, start, before, ReceiveNothing);
  }

  /** A poll that brings nothing: the same, with one more quiet poll. */
  lemma TurnInVain(setup: Setup, start: Run, before: seq<Action>, main: MainPlace)
    requires Initial(setup, start) && Happens(setup, start, before)
    requires var s := After(setup, start, before);
             && s.main.Polling? && !s.stop
             && Decides(setup.want, s.producers, |s.trace|, s.main.quiet + 1, main)
    ensures Happens(setup, start, before + [ReceiveNothing])
    ensures Proceeds(setup, start, before + [ReceiveNothing],
                     After(setup, start, before).(main := main, stop := main.Exited?))
  {
    var s := After(setup, start, before);
    var t := s.(main := Counting(s.main.quiet + 1));
    Heard(setup, start, before);
    SomeCamera(setup, start, before);
    PollsInVain(setup, start, before, s);
    CountRuns(setup, start, before + [ReceiveNothing], t, s.main.quiet + 1, main);
  }

  /** The run can take this action here, and is then at t. */
  ghost predicate Takes(setup: Setup, start: Run, before: seq<Action>, a: Action, t: Run)
    requires Initial(setup, start)
  {
    Happens(setup, start, before + [a]) && After(setup, start, before + [a]) == t
  }

  /** A failed receive ends the loop, whenever it is polling. */
  lemma ReceiveFailureEnds(setup: Setup, start: Run, before: seq<Action>, s: Run)
    requires Initial(setup, start) && Happens(setup, start, before) && After(setup, start, before) == s
    requires s.main.Polling? && !s.stop
    ensures Takes(setup, start, before, ReceiveFails, s.(main := Exited(SinkFailed), stop := true))
  {
    Then(setup, start, before, ReceiveFails);
  }

  /** A deadline that has passed ends it, once the turn has found no other reason to. */
  lemma DeadlineEnds(setup: Setup, start: Run, before: seq<Action>, s: Run)
    requires Initial(setup, start) && Happens(setup, start, before) && After(setup, start, before) == s
    requires s.main.Watching? && setup.watched
    ensures Takes(setup, start, before, WatchdogFires, s.(main := Exited(TimedOut), stop := true))
  {
    Then(setup, start, before, WatchdogFires);
  }

  /** A stop ends it before the next poll, and nothing else does then. */
  lemma StopEnds(setup: Setup, start: Run, before: seq<Action>, s: Run, a: Action)
    requires Initial(setup, start) && Happens(setup, start, before) && After(setup, start, before) == s
    requires s.main.Polling? && s.stop
    ensures Takes(setup, start, before, SeeStop, s.(main := Exited(Stopped)))
    ensures IsMainAction(a) && Enabled(setup, s, a) ==> a == SeeStop
  {
    Then(setup, start, before, SeeStop);
  }

  /** Threads are started one after the other; the loop begins when all are, or when one cannot be. */
  lemma StartsOrGivesUp(setup: Setup, start: Run, before: seq<Action>, s: Run, k: nat)
    requires Initial(setup, start) && Happens(setup, start, before) && After(setup, start, before) == s
    requires s.main == Spawning(k) && k < |s.producers|
    ensures var started := s.producers[k := s.producers[k].(place := AtGuard)];
            var next := if k + 1 < |s.producers| then Spawning(k + 1) else Polling(0);
            Takes(setup, start, before, Spawn, s.(producers := started, main := next))
    ensures Takes(setup, start, before, SpawnFails, s.(stop := true, main := Polling(0)))
  {
    Then(setup, start, before, Spawn);
    Then(setup, start, before, SpawnFails);
  }

  /** An interrupt may come at any time and only raises the flag. */
  lemma InterruptRaises(setup: Setup, start: Run, before: seq<Action>, s: Run)
    requires Initial(setup, start) && Happens(setup, start, before) && After(setup, start, before) == s
    ensures Takes(setup, start, before, Interrupt, s.(stop := true))
  {
    Then(setup, start, before, Interrupt);
  }

  // ---- why it ends ----

  /** Some action of this kind was taken. */
  ghost predicate Any(actions: seq<Action>, kind: Action -> bool) {
    exists k :: 0 <= k < |actions| && kind(actions[k])
  }

  lemma AnyLast(actions: seq<Action>, kind: Action -> bool)
    requires actions != []
    ensures Any(actions, kind) <==> Any(actions[..|actions| - 1], kind) || kind(actions[|actions| - 1])
  {
    var last := |actions| - 1;
    if Any(actions, kind) {
      var k :| 0 <= k < |actions| && kind(actions[k]);
      assert k < last ==> kind(actions[..last][k]);
    }
  }

  function IsInterrupt(): Action -> bool {
    (a: Action) => a.Interrupt?
  }

  function IsSpawnFailure(): Action -> bool {
    (a: Action) => a.SpawnFails?
  }

  function IsReceiveFailure(): Action -> bool {
    (a: Action) => a.ReceiveFails?
  }

  function IsDeadline(): Action -> bool {
    (a: Action) => a.WatchdogFires?
  }

  ghost predicate AllStarted(ps: seq<Producer>) {
    forall i :: 0 <= i < |ps| ==> ps[i].place != NotStarted
  }

  /** The stop flag and the way out, given what interrupted the run. */
  ghost predicate Explained(watched: bool, s: Run, interrupted: bool, unspawned: bool, broke: bool, late: bool) {
    && (s.stop <==> interrupted || unspawned || s.main.Exited?)
    && (s.main == Exited(Stopped) ==> interrupted || unspawned)
    && (unspawned ==> s.main == Polling(0) || s.main == Exited(Stopped))
    && (s.main == Exited(SinkFailed) <==> broke)
    && (s.main == Exited(TimedOut) <==> late)
    && (late ==> watched)
    && (s.main.Spawning? || unspawned || AllStarted(s.producers))
  }

  lemma ExplainedStep(
      setup: Setup, s: Run, a: Action, interrupted: bool, unspawned: bool, broke: bool, late: bool)
    requires Enabled(setup, s, a) && |s.sink.table.ids| == |s.sink.table.slots|
    requires s.main.Spawning? ==> StartedBefore(s.producers, s.main.next)
    requires Explained(setup.watched, s, interrupted, unspawned, broke, late)
    ensures Explained(setup.watched, Act(setup, s, a), interrupted || a.Interrupt?, unspawned || a.SpawnFails?,
                      broke || a.ReceiveFails?, late || a.WatchdogFires?)
  {
  }

  ghost predicate StartedBefore(ps: seq<Producer>, n: nat) {
    forall i :: 0 <= i < n && i < |ps| ==> ps[i].place != NotStarted
  }

  lemma StartedStep(setup: Setup, s: Run, a: Action)
    requires Enabled(setup, s, a) && |s.sink.table.ids| == |s.sink.table.slots|
    requires s.main.Spawning? ==> StartedBefore(s.producers, s.main.next)
    ensures var t := Act(setup, s, a); t.main.Spawning? ==> StartedBefore(t.producers, t.main.next)
  {
  }

  lemma {:induction false} StartedInOrder(setup: Setup, start: Run, actions: seq<Action>)
    requires Initial(setup, start) && Happens(setup, start, actions)
    ensures var s := After(setup, start, actions); s.main.Spawning? ==> StartedBefore(s.producers, s.main.next)
    decreases |actions|
  {
    if actions != [] {
      var before := actions[..|actions| - 1];
      StartedInOrder(setup, start, before);
      StartedStep(setup, After(setup, start, before), actions[|actions| - 1]);
    }
  }

  /**
    Why a run stands where it stands. The stop flag is up exactly after an interrupt, a thread
    that could not be started, or the loop's own end; the loop ends for the sink's sake or the
    deadline's exactly when a receive failed or the deadline passed, which takes a deadline; it
    ends as stopped only if somebody asked for it; and every camera runs unless one failed to
    start, after which the loop can only end as stopped.
   */
  lemma {:induction false} EndsExplained(setup: Setup, start: Run, actions: seq<Action>)
    requires Initial(setup, start) && Happens(setup, start, actions)
    ensures Explained(setup.watched, After(setup, start, actions), Any(actions, IsInterrupt()),
                      Any(actions, IsSpawnFailure()), Any(actions, IsReceiveFailure()), Any(actions, IsDeadline()))
    decreases |actions|
  {
    if actions != [] {
      var before, a := actions[..|actions| - 1], actions[|actions| - 1];
      EndsExplained(setup, start, before);
      StartedInOrder(setup, start, before);
      AnyLast(actions, IsInterrupt());
      AnyLast(actions, IsSpawnFailure());
      AnyLast(actions, IsReceiveFailure());
      AnyLast(actions, IsDeadline());
      ExplainedStep(setup, After(setup, start, before), a, Any(before, IsInterrupt()),
                    Any(before, IsSpawnFailure()), Any(before, IsReceiveFailure()), Any(before, IsDeadline()));
    }
  }

  // ---- the loop always has exactly one thing to do ----

  /** Some step of the main thread is enabled. */
  ghost predicate LoopCanMove(setup: Setup, s: Run) {
    exists a :: IsMainAction(a) && Enabled(setup, s, a)
  }

  lemma SomethingEnabled(setup: Setup, s: Run)
    requires !s.main.Exited?
    requires s.main.Scanning? ==> s.main.at <= |s.producers|
    requires s.main.Spawning? ==> s.main.next < |s.producers|
    ensures LoopCanMove(setup, s)
  {
    var a :=
      match s.main
      case Spawning(_) => Spawn
      case Polling(_) => if s.stop then SeeStop else ReceiveNothing
      case Counting(_) => CheckCount
      case Scanning(_, at) => if at < |s.producers| then ScanProducer else ScanEnds
      case Watching(_) => WatchdogWaits
      case Exited(_) => Interrupt;
    assert IsMainAction(a) && Enabled(setup, s, a);
  }

  lemma NothingEnabled(setup: Setup, s: Run, a: Action)
    requires s.main.Exited?
    ensures !(IsMainAction(a) && Enabled(setup, s, a))
  {
  }

  lemma NoChoice(setup: Setup, s: Run, a: Action, b: Action)
    requires IsLoopAction(a) && IsLoopAction(b) && Enabled(setup, s, a) && Enabled(setup, s, b)
    ensures a == b
  {
  }

  lemma PlacesInside(setup: Setup, s: Run)
    requires MainAgrees(setup, s)
    ensures s.main.Scanning? ==> s.main.at <= |s.producers|
    ensures s.main.Spawning? ==> s.main.next < |s.producers|
  {
  }

  /** The loop never blocks before it has ended, and never moves afterwards. */
  lemma LoopNeverStuck(setup: Setup, start: Run, actions: seq<Action>)
    requires Initial(setup, start) && Happens(setup, start, actions)
    ensures LoopCanMove(setup, After(setup, start, actions)) <==> !After(setup, start, actions).main.Exited?
  {
    var s := After(setup, start, actions);
    Reachable(setup, start, actions);
    PlacesInside(setup, s);
    if s.main.Exited? {
      forall a ensures !(IsMainAction(a) && Enabled(setup, s, a)) {
        NothingEnabled(setup, s, a);
      }
    } else {
      SomethingEnabled(setup, s);
    }
  }

  // ---- after the end, and after a stop ----

  /** How many acquires camera i has made or is about to make. */
  function Attempts(p: Producer): nat {
    p.sent + p.dropped + p.timeouts + One(p.failed) + One(p.place == InTick)
  }

lemma NextNotStarted(setup: Setup, start: Run, actions: seq<Action>, i: nat)
    requires Initial(setup, start) && Happens(setup, start, actions) && i < |After(setup, start, actions).producers|
    ensures var s := After(setup, start, actions);
            s.main.Spawning? && s.main.next == i ==> s.producers[i].place == NotStarted
  {
    Reachable(setup, start, actions);
  }

  lemma StopStep(setup: Setup, s: Run, a: Action, i: nat)
    requires Enabled(setup, s, a) && |s.sink.table.ids| == |s.sink.table.slots| && s.stop && i < |s.producers|
    requires s.producers[i].failed ==> s.producers[i].place == Finished
    requires s.main.Spawning? && s.main.next == i ==> s.producers[i].place == NotStarted
    ensures var t := Act(setup, s, a);
            && t.stop && |t.producers| == |s.producers| && Attempts(t.producers[i]) == Attempts(s.producers[i])
  {
  }

  /** A stop is final: from then on every camera at most finishes the tick it is in. */
  lemma {:induction false} StopIsFinal(setup: Setup, start: Run, before: seq<Action>, more: seq<Action>, i: nat)
    requires Initial(setup, start) && Happens(setup, start, before) && Happens(setup, start, before + more)
    requires After(setup, start, before).stop && i < |After(setup, start, before).producers|
    ensures var s, t := After(setup, start, before), After(setup, start, before + more);
            t.stop && |t.producers| == |s.producers| && Attempts(t.producers[i]) == Attempts(s.producers[i])
    decreases |more|
  {
    if more == [] {
      assert before + more == before;
    } else {
      var front, a := more[..|more| - 1], more[|more| - 1];
      assert (before + more)[..|before + more| - 1] == before + front;
      StopIsFinal(setup, start, before, front, i);
      Reachable(setup, start, before + front);
      CameraIsSound(setup, start, before + front, i);
      NextNotStarted(setup, start, before + front, i);
      StopStep(setup, After(setup, start, before + front), a, i);
    }
  }

  lemma ExitStep(setup: Setup, s: Run, a: Action)
    requires Enabled(setup, s, a) && |s.sink.table.ids| == |s.sink.table.slots| && s.main.Exited?
    ensures var t := Act(setup, s, a); t.main == s.main && t.sink == s.sink && t.trace == s.trace
  {
  }

  /** So is the loop's end: what the sink has then seen is what is reported. */
  lemma {:induction false} ExitIsFinal(setup: Setup, start: Run, before: seq<Action>, more: seq<Action>)
    requires Initial(setup, start) && Happens(setup, start, before) && Happens(setup, start, before + more)
    requires After(setup, start, before).main.Exited?
    ensures var s, t := After(setup, start, before), After(setup, start, before + more);
            t.main == s.main && t.sink == s.sink && t.trace == s.trace
    decreases |more|
  {
    if more == [] {
      assert before + more == before;
    } else {
      var front, a := more[..|more| - 1], more[|more| - 1];
      assert (before + more)[..|before + more| - 1] == before + front;
      ExitIsFinal(setup, start, before, front);
      ExitStep(setup, After(setup, start, before + front), a);
    }
  }

  // ---- how a thread ends ----

  function FailsAt(i: nat): Action -> bool {
    (a: Action) => (a.SendFails? || a.AcquireFails?) && a.i == i
  }

  ghost predicate LeftFor(want: u32, stop: bool, p: Producer, broke: bool) {
    && (p.failed <==> broke)
    && (p.place == Finished && !p.failed ==> stop || (want > 0 && p.ticks >= want))
  }

  lemma LeftStep(setup: Setup, s: Run, a: Action, i: nat, broke: bool)
    requires Enabled(setup, s, a) && |s.sink.table.ids| == |s.sink.table.slots| && i < |s.producers|
    requires s.producers[i].place == Finished || !broke
    requires s.main.Spawning? && s.main.next == i ==> s.producers[i].place == NotStarted
    requires LeftFor(setup.want, s.stop, s.producers[i], broke)
    ensures var t := Act(setup, s, a);
            i < |t.producers| && LeftFor(setup.want, t.stop, t.producers[i], broke || FailsAt(i)(a))
  {
  }

  /**
    How a camera's thread ends: it failed exactly if one of its own acquires or sends did, and
    otherwise it leaves only when a stop was asked for or all its attempts are made.
   */
  lemma {:induction false} ThreadEnds(setup: Setup, start: Run, actions: seq<Action>, i: nat)
    requires Initial(setup, start) && Happens(setup, start, actions) && i < |After(setup, start, actions).producers|
    ensures var s := After(setup, start, actions);
            LeftFor(setup.want, s.stop, s.producers[i], Any(actions, FailsAt(i)))
    decreases |actions|
  {
    if actions != [] {
      var before, a := actions[..|actions| - 1], actions[|actions| - 1];
      var s := After(setup, start, before);
      CamerasStay(setup, start, before);
      CamerasStay(setup, start, actions);
      ThreadEnds(setup, start, before, i);
      CameraIsSound(setup, start, before, i);
      NextNotStarted(setup, start, before, i);
      AnyLast(actions, FailsAt(i));
      LeftStep(setup, s, a, i, Any(before, FailsAt(i)));
    }
  }

  // ---- what smoke returns ----

  function ExitCode(s: Run): int {
    if s.main == Exited(TimedOut) then 1 else Verdict(s.sink)
  }

  /**
    An all-synthetic run returns 0 exactly when no deadline passed, something arrived and no
    camera had a frame refused between the first and the last the sink took from it.
   */
  lemma ReturnsZeroIff(setup: Setup, start: Run, actions: seq<Action>)
    requires Initial(setup, start) && Happens(setup, start, actions) && AllMock(start)
    requires AllUnwrapped(After(setup, start, actions).producers)
    ensures var s := After(setup, start, actions);
            ExitCode(s) == 0 <==>
              !Any(actions, IsDeadline()) && s.trace != [] && NothingRefusedWithin(s.producers)
  {
    EndsExplained(setup, start, actions);
    MockVerdict(setup, start, actions);
    Heard(setup, start, actions);
  }
}
