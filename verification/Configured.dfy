/** From a configuration to a running pipeline: what was built is what runs. */
module Configured {
  import opened Machine
  import opened Wire
  import opened IniModel
  import opened SinkModel
  import opened Backends
  import opened BackendConfig
  import opened Pipeline
  import opened PipelineInvariant
  import opened PipelineLaws
  import opened RigModel
  import PipelineExits
  import RigLaws

  // ---- what main starts ----

  /** A built camera as a thread not started yet. */
  function ProducerOf(cam: Slot): Producer
    requires cam.backend.Some? && cam.camera.Some?
  {
    Producer(cam.camera.value.id, cam.camera.value.capacity, cam.backend.value, NotStarted,
             0, 0, 0, 0, false, [], [], [])
  }

  ghost predicate AllUp(cams: seq<Slot>) {
    forall k :: 0 <= k < |cams| ==> cams[k].backend.Some? && cams[k].camera.Some?
  }

  function ProducersOf(cams: seq<Slot>): (ps: seq<Producer>)
    requires AllUp(cams)
    ensures |ps| == |cams| && forall k :: 0 <= k < |cams| ==> ps[k] == ProducerOf(cams[k])
  {
    seq(|cams|, k requires 0 <= k < |cams| => ProducerOf(cams[k]))
  }

  /** The specs go to the sink; frames per camera to every thread. */
  function SetupOf(rig: Rig, check: Check, want: u32, watched: bool): Setup {
    Setup(Config(check, rig.specs), want, watched)
  }

  function StartOf(rig: Rig): Run
    requires AllUp(rig.cams)
  {
    Run(ProducersOf(rig.cams), Spawning(0), false, EMPTY, [])
  }

  // ---- it is a run the pipeline's laws are about ----

  /** Nothing has been acquired yet, and a mock's first deadline lies ahead. */
  ghost predicate Unstarted(b: Backend) {
    b.Mock? ==> b.st.next > 0 && b.st.sequence == 0
  }

  ghost predicate AllUnstarted(cams: seq<Slot>) {
    forall k :: 0 <= k < |cams| && cams[k].backend.Some? && cams[k].camera.Some? ==>
      Unstarted(cams[k].backend.value)
  }

  lemma VisitUnstarted(w: World, t: Table, want: u32, rig: Rig, section: string)
    requires AllUnstarted(rig.cams) && Visit(w, t, want, rig, section).ok
    ensures AllUnstarted(Visit(w, t, want, rig, section).rig.cams)
  {
    if RigLaws.Selects(t, section) {
      MadeProper(w.numbers, t, section, Get(t, section, "backend").value);
    }
  }

  lemma {:induction false} FirstUnstarted(w: World, t: Table, want: u32, n: nat)
    requires n <= |t| && BuildFirst(w, t, want, n).ok
    ensures AllUnstarted(BuildFirst(w, t, want, n).rig.cams)
    decreases n
  {
    if n > 0 {
      FirstUnstarted(w, t, want, n - 1);
      VisitUnstarted(w, t, want, BuildFirst(w, t, want, n - 1).rig, t[n - 1].name);
    }
  }

  lemma FreshOf(cam: Slot, spec: CamSpec)
    requires RigLaws.Complete(cam, spec) && Unstarted(cam.backend.value)
    ensures var p := ProducerOf(cam);
            FreshProducer(p) && p.id == spec.cameraId && p.capacity == spec.maxSites
  {
  }

  /**
    Every successful build with a camera in it starts a run the pipeline's theorems are
    about: at most sixteen cameras under distinct ids, each with a frame, a spec and a
    backend of one size, none of which has acquired anything.
   */
  lemma BuiltRunIsInitial(w: World, t: Table, want: u32, check: Check, watched: bool)
    requires BuildCameras(w, t, want).ok && BuildCameras(w, t, want).rig.cams != []
    ensures var rig := BuildCameras(w, t, want).rig;
            AllUp(rig.cams) && Initial(SetupOf(rig, check, want, watched), StartOf(rig))
  {
    var rig := BuildCameras(w, t, want).rig;
    RigLaws.BuiltAgrees(w, t, want);
    FirstUnstarted(w, t, want, |t|);
    assert AllUp(rig.cams) by {
      forall k | 0 <= k < |rig.cams|
        ensures rig.cams[k].backend.Some? && rig.cams[k].camera.Some?
      {
        assert RigLaws.Complete(rig.cams[k], rig.specs[k]);
      }
    }
    StartIsInitial(rig, check, want, watched);
  }

  lemma StartIsInitial(rig: Rig, check: Check, want: u32, watched: bool)
    requires RigLaws.Agrees(rig) && rig.cams != [] && AllUp(rig.cams) && AllUnstarted(rig.cams)
    ensures Initial(SetupOf(rig, check, want, watched), StartOf(rig))
  {
    var ps := ProducersOf(rig.cams);
    forall k | 0 <= k < |ps|
      ensures FreshProducer(ps[k]) && ps[k].id == rig.specs[k].cameraId && ps[k].capacity == rig.specs[k].maxSites
    {
      assert RigLaws.Complete(rig.cams[k], rig.specs[k]);
      FreshOf(rig.cams[k], rig.specs[k]);
    }
    forall i, j | 0 <= i < j < |ps|
      ensures ps[i].id != ps[j].id
    {
      assert rig.specs[i].cameraId != rig.specs[j].cameraId;
    }
  }

  // ---- what that says of a configuration file ----

  /** Every camera the configuration enables is a synthetic one. */
  ghost predicate OnlyMocks(t: Table) {
    forall k :: 0 <= k < |t| && RigLaws.Selects(t, t[k].name) ==> Get(t, t[k].name, "backend") == Some("mock")
  }

  lemma {:induction false} SelectedAreListed(t: Table, n: nat, k: nat)
    requires n <= |t| && k < |RigLaws.Selected(t, n)|
    ensures exists i :: 0 <= i < |t| && t[i].name == RigLaws.Selected(t, n)[k] && RigLaws.Selects(t, t[i].name)
    decreases n
  {
    if k < |RigLaws.Selected(t, n - 1)| {
      SelectedAreListed(t, n - 1, k);
    } else {
      assert t[n - 1].name == RigLaws.Selected(t, n)[k];
    }
  }

  lemma MockSections(w: World, t: Table, want: u32)
    requires BuildCameras(w, t, want).ok && OnlyMocks(t) && AllUp(BuildCameras(w, t, want).rig.cams)
    ensures AllMock(StartOf(BuildCameras(w, t, want).rig))
  {
    var rig, names := BuildCameras(w, t, want).rig, RigLaws.Selected(t, |t|);
    RigLaws.EverySectionBuilt(w, t, want, |t|);
    forall k | 0 <= k < |rig.cams|
      ensures rig.cams[k].backend.value.Mock?
    {
      SelectedAreListed(t, |t|, k);
      assert RigLaws.BuiltFrom(w, t, want, rig.cams[k], rig.specs[k], names[k]);
      MadeProper(w.numbers, t, names[k], "mock");
    }
  }

  /**
    From the file to the verdict: a configuration that enables synthetic cameras only, and
    builds, never makes the sink count a bad message, a backward stamp, an index or value out
    of range or an unexpected camera; and a run that leaves by count passes.
   */
  lemma MockConfigurationsPass(
      w: World, t: Table, want: u32, check: Check, watched: bool, actions: seq<Action>)
    requires BuildCameras(w, t, want).ok && BuildCameras(w, t, want).rig.cams != [] && OnlyMocks(t)
    requires var rig := BuildCameras(w, t, want).rig;
             AllUp(rig.cams) && Initial(SetupOf(rig, check, want, watched), StartOf(rig))
             && Happens(SetupOf(rig, check, want, watched), StartOf(rig), actions)
    ensures var rig := BuildCameras(w, t, want).rig;
            var s := After(SetupOf(rig, check, want, watched), StartOf(rig), actions);
            && s.sink.badParse == 0 && (forall kind :: NeverByMock(kind) ==> s.sink.table.found[kind] == 0)
            && (s.main == Exited(ByCount) ==> Verdict(s.sink) == 0)
  {
    var rig := BuildCameras(w, t, want).rig;
    var setup, start := SetupOf(rig, check, want, watched), StartOf(rig);
    MockSections(w, t, want);
    MockRunsAreSafe(setup, start, actions);
    if After(setup, start, actions).main == Exited(ByCount) {
      PipelineExits.CountExitPasses(setup, start, actions);
    }
  }

  lemma FitsItsSpec(cfg: Config, ps: seq<Producer>, i: nat, j: nat)
    requires Named(cfg.specs, ps) && i < |ps| && j < |ps[i].queue|
    requires Queued(ps[i].queue, ps[i].log) && AllFit(ps[i].id, ps[i].capacity, ps[i].log)
    ensures var parsed := Parse(ps[i].queue[j]);
            parsed.Success? && parsed.value.cameraId == cfg.specs[i].cameraId
            && |parsed.value.support| <= cfg.specs[i].maxSites
  {
    var p := ps[i];
    var f := p.log[|p.log| - |p.queue| + j];
    assert Carries(p.queue[j], f);
    assert Fits(p.id, p.capacity, f);
    RoundTrip(f);
  }

  /**
    No message a configured camera can have queued is ever wider than its spec, so a decode
    buffer that holds the widest spec never has to grow.
   */
  lemma QueuedFitsTheDecoder(setup: Setup, start: Run, actions: seq<Action>, i: nat, j: nat, capacity: nat)
    requires Initial(setup, start) && Happens(setup, start, actions)
    requires forall k :: 0 <= k < |setup.sinkConfig.specs| ==> setup.sinkConfig.specs[k].maxSites <= capacity
    requires var ps := After(setup, start, actions).producers; i < |ps| && j < |ps[i].queue|
    ensures var parsed := Parse(After(setup, start, actions).producers[i].queue[j]);
            parsed.Success? && |parsed.value.support| <= capacity
  {
    Reachable(setup, start, actions);
    var ps := After(setup, start, actions).producers;
    assert Sound(setup.want, ps[i]);
    FitsItsSpec(setup.sinkConfig, ps, i, j);
  }
}
