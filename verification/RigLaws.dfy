/** What a build leaves behind: agreeing capacities, distinct ids, and nothing released twice or never. */
module RigLaws {
  import opened Machine
  import opened IniModel
  import opened SinkModel
  import opened Backends
  import opened BackendConfig
  import opened RigModel

  // ---- capacities and ids agree ----

  /** Spec, frame and backend of every camera have the same size, and no two share an id. */
  ghost predicate Agrees(rig: Rig) {
    && |rig.cams| == |rig.specs| <= 16
    && (forall k :: 0 <= k < |rig.cams| ==> Complete(rig.cams[k], rig.specs[k]))
    && forall i, j :: 0 <= i < j < |rig.specs| ==> rig.specs[i].cameraId != rig.specs[j].cameraId
  }

  ghost predicate Complete(cam: Slot, spec: CamSpec) {
    && cam.backend.Some? && cam.camera.Some?
    && Proper(cam.backend.value)
    && cam.camera.value.id == spec.cameraId
    && 0 < cam.backend.value.Sites() == cam.camera.value.capacity == spec.maxSites
  }

  lemma AttachAgrees(w: World, rig: Rig, cam: Slot, b: Backend, id: u32, fps: real)
    requires Agrees(rig) && |rig.specs| < MAX_CAMERAS && !IdTaken(rig.specs, id) && Proper(b)
    requires Attach(w, rig, cam, b, id, fps).ok
    ensures Agrees(Attach(w, rig, cam, b, id, fps).rig)
  {
    var up := w.camera(cam.section);
    ReadyKeepsSites(b, up.now, Some(up.granted));
    assert Complete(CameraOver(cam, b, id, up), SpecOf(b, id, fps));
  }

  lemma VisitAgrees(w: World, t: Table, want: u32, rig: Rig, section: string)
    requires Agrees(rig) && Visit(w, t, want, rig, section).ok
    ensures Agrees(Visit(w, t, want, rig, section).rig)
  {
    if Selects(t, section) {
      var driver := Get(t, section, "backend").value;
      var id := GetAs<u32>(t, section, "id", w.numbers.parseU32, 0);
      var fps := GetAs<real>(t, section, "fps", w.numbers.parseF64, 30.0);
      var b := FromIni(w.numbers, t, section, driver);
      MadeProper(w.numbers, t, section, driver);
      AttachAgrees(w, rig, Slot(section, driver, want, None, None), b.value, id.value, fps.value);
    }
  }

  lemma {:induction false} FirstAgrees(w: World, t: Table, want: u32, n: nat)
    requires n <= |t| && BuildFirst(w, t, want, n).ok
    ensures Agrees(BuildFirst(w, t, want, n).rig)
    decreases n
  {
    if n > 0 {
      FirstAgrees(w, t, want, n - 1);
      VisitAgrees(w, t, want, BuildFirst(w, t, want, n - 1).rig, t[n - 1].name);
    }
  }

  /** A successful build: at most sixteen cameras, distinct ids, one size each end to end. */
  lemma BuiltAgrees(w: World, t: Table, want: u32)
    requires BuildCameras(w, t, want).ok
    ensures Agrees(BuildCameras(w, t, want).rig)
  {
    FirstAgrees(w, t, want, |t|);
  }

  // ---- which sections were built ----

  predicate Selects(t: Table, section: string) {
    IsCameraSection(section) && GetAs<bool>(t, section, "enabled", ParseBool, true) == Some(true)
  }

  /** The enabled camera sections among the first n, in file order. */
  function Selected(t: Table, n: nat): seq<string>
    requires n <= |t|
    decreases t, n
  {
    if n == 0 then []
    else Selected(t, n - 1) + (if Selects(t, t[n - 1].name) then [t[n - 1].name] else [])
  }

  /** A camera and its spec are what their section says. */
  ghost predicate BuiltFrom(w: World, t: Table, want: u32, cam: Slot, spec: CamSpec, section: string) {
    && cam.section == section && cam.want == want
    && Get(t, section, "backend") == Some(cam.driver) && cam.driver in BACKENDS
    && w.camera(section).CameraUp?
    && (var made, up := FromIni(w.numbers, t, section, cam.driver), w.camera(section);
        made.Some? && cam.backend == Some(Ready(made.value, up.now, Some(up.granted))))
    && GetAs<u32>(t, section, "id", w.numbers.parseU32, 0) == Some(spec.cameraId)
    && exists fps :: GetAs<real>(t, section, "fps", w.numbers.parseF64, 30.0) == Some(fps)
                     && spec.expectPeriodMs == ExpectedPeriod(fps)
  }

  ghost predicate AllBuiltFrom(w: World, t: Table, want: u32, rig: Rig, names: seq<string>) {
    && |rig.cams| == |rig.specs| == |names|
    && forall k :: 0 <= k < |names| ==> BuiltFrom(w, t, want, rig.cams[k], rig.specs[k], names[k])
  }

  /**
    A successful build has one camera for every enabled camera section, in file order,
    with that section's backend, id and rate.
   */
  lemma {:induction false} EverySectionBuilt(w: World, t: Table, want: u32, n: nat)
    requires n <= |t| && BuildFirst(w, t, want, n).ok
    ensures AllBuiltFrom(w, t, want, BuildFirst(w, t, want, n).rig, Selected(t, n))
    decreases n
  {
    if n > 0 {
      var before, name := BuildFirst(w, t, want, n - 1).rig, t[n - 1].name;
      EverySectionBuilt(w, t, want, n - 1);
      if Selects(t, name) {
        VisitBuilds(w, t, want, before, name);
        OneMoreBuilt(w, t, want, before, Selected(t, n - 1), Visit(w, t, want, before, name).rig, name);
      }
    }
  }

  /** The camera a section adds at the end, and nothing else changed. */
  ghost predicate Adds(w: World, t: Table, want: u32, before: Rig, after: Rig, section: string) {
    && |after.cams| == |before.cams| + 1 && |after.specs| == |before.specs| + 1
    && after.cams[..|before.cams|] == before.cams && after.specs[..|before.specs|] == before.specs
    && BuiltFrom(w, t, want, after.cams[|before.cams|], after.specs[|before.specs|], section)
  }

  lemma VisitBuilds(w: World, t: Table, want: u32, rig: Rig, section: string)
    requires Selects(t, section) && Visit(w, t, want, rig, section).ok
    ensures Adds(w, t, want, rig, Visit(w, t, want, rig, section).rig, section)
  {
    var after := Visit(w, t, want, rig, section).rig;
    var fps := GetAs<real>(t, section, "fps", w.numbers.parseF64, 30.0);
    assert fps.Some? && after.specs[|rig.specs|].expectPeriodMs == ExpectedPeriod(fps.value);
  }

  lemma OneMoreBuilt(w: World, t: Table, want: u32, before: Rig, names: seq<string>, after: Rig, name: string)
    requires AllBuiltFrom(w, t, want, before, names) && Adds(w, t, want, before, after, name)
    ensures AllBuiltFrom(w, t, want, after, names + [name])
  {
    forall k | 0 <= k < |names|
      ensures BuiltFrom(w, t, want, after.cams[k], after.specs[k], (names + [name])[k])
    {
      assert after.cams[k] == before.cams[k] && after.specs[k] == before.specs[k];
    }
  }

  // ---- released exactly once ----

  /** How often an event occurs. */
  function Times(log: seq<Event>, e: Event): nat {
    if log == [] then 0 else Times(log[..|log| - 1], e) + One(log[|log| - 1] == e)
  }

  function HitAt(log: seq<Event>, i: nat, e: Event): nat {
    if i < |log| then One(log[i] == e) else 0
  }

  /** Up to three events can be counted one by one. */
  lemma {:induction false} TimesOfFew(log: seq<Event>, e: Event)
    requires |log| <= 3
    ensures Times(log, e) == HitAt(log, 0, e) + HitAt(log, 1, e) + HitAt(log, 2, e)
    decreases |log|
  {
    if log != [] {
      TimesOfFew(log[..|log| - 1], e);
    }
  }

  lemma {:induction false} TimesOfNone(log: seq<Event>, e: Event)
    requires forall i :: 0 <= i < |log| ==> log[i] != e
    ensures Times(log, e) == 0
    decreases |log|
  {
    if log != [] {
      TimesOfNone(log[..|log| - 1], e);
    }
  }

  lemma {:induction false} TimesAppend(a: seq<Event>, b: seq<Event>, e: Event)
    ensures Times(a + b, e) == Times(a, e) + Times(b, e)
    decreases |b|
  {
    if b == [] {
      assert a + b == a;
    } else {
      TimesAppend(a, b[..|b| - 1], e);
      assert (a + b)[..|a + b| - 1] == a + b[..|b| - 1];
    }
  }

  lemma {:induction false} TimesPositive(log: seq<Event>, i: nat)
    requires i < |log|
    ensures Times(log, log[i]) > 0
    decreases |log|
  {
    if i < |log| - 1 {
      TimesPositive(log[..|log| - 1], i);
    }
  }

  /** A build's log says of each slot what the slot says of itself. */
  ghost predicate Logged(log: seq<Event>, k: nat, cam: Slot) {
    && Times(log, BackendCreated(k)) == One(cam.backend.Some?)
    && Times(log, CameraCreated(k)) == One(cam.camera.Some?)
    && Times(log, BackendStopped(k)) <= One(cam.backend.Some? && cam.camera.None?)
    && Times(log, CameraDeleted(k)) == Times(log, BackendDestroyed(k)) == 0
    && (cam.camera.Some? ==> cam.backend.Some?)
  }

  function SlotAt(cams: seq<Slot>, k: nat): Slot {
    if k < |cams| then cams[k] else VACANT
  }

  ghost predicate AllLogged(rig: Rig) {
    forall k: nat :: Logged(rig.log, k, SlotAt(rig.cams, k))
  }

  /** New events of one slot change no other slot's counts. */
  lemma LoggedElsewhere(log: seq<Event>, more: seq<Event>, k: nat, cam: Slot)
    requires Logged(log, k, cam) && forall i :: 0 <= i < |more| ==> more[i].slot != k
    ensures Logged(log + more, k, cam)
  {
    forall e: Event | e.slot == k
      ensures Times(log + more, e) == Times(log, e)
    {
      TimesAppend(log, more, e);
      TimesOfNone(more, e);
    }
  }

  /** The events of a build's last slot, after a log that does not know it. */
  lemma NewSlotLogged(log: seq<Event>, more: seq<Event>, k: nat, cam: Slot)
    requires Logged(log, k, VACANT) && cam.backend.Some?
    requires if cam.camera.Some? then more == [BackendCreated(k), CameraCreated(k)]
             else more == [BackendCreated(k)] || more == [BackendCreated(k), BackendStopped(k)]
    ensures Logged(log + more, k, cam)
  {
    FewMore(log, more, BackendCreated(k));
    FewMore(log, more, CameraCreated(k));
    FewMore(log, more, BackendStopped(k));
    FewMore(log, more, CameraDeleted(k));
    FewMore(log, more, BackendDestroyed(k));
  }

  lemma FewMore(log: seq<Event>, more: seq<Event>, e: Event)
    requires |more| <= 2
    ensures Times(log + more, e) == Times(log, e) + HitAt(more, 0, e) + HitAt(more, 1, e)
  {
    TimesAppend(log, more, e);
    TimesOfFew(more, e);
  }

  /** A log grew by events of the slot that was filled. */
  lemma FilledLogged(before: Rig, after: Rig, more: seq<Event>, cam: Slot)
    requires AllLogged(before) && cam.backend.Some?
    requires after.cams == before.cams + [cam] && after.log == before.log + more
    requires var k := |before.cams|;
             if cam.camera.Some? then more == [BackendCreated(k), CameraCreated(k)]
             else more == [BackendCreated(k)] || more == [BackendCreated(k), BackendStopped(k)]
    ensures AllLogged(after)
  {
    forall k: nat
      ensures Logged(after.log, k, SlotAt(after.cams, k))
    {
      assert Logged(before.log, k, SlotAt(before.cams, k));
      if k == |before.cams| {
        NewSlotLogged(before.log, more, k, cam);
      } else {
        LoggedElsewhere(before.log, more, k, SlotAt(before.cams, k));
      }
    }
  }

  lemma AttachLogged(w: World, rig: Rig, cam: Slot, b: Backend, id: u32, fps: real)
    requires AllLogged(rig) && cam.camera.None?
    ensures AllLogged(Attach(w, rig, cam, b, id, fps).rig)
  {
    var after := Attach(w, rig, cam, b, id, fps).rig;
    var more := after.log[|rig.log|..];
    assert after.log == rig.log + more;
    FilledLogged(rig, after, more, after.cams[|rig.cams|]);
  }

  /** A slot whose backend could not be created counts as vacant. */
  lemma UncreatedLogged(rig: Rig, cam: Slot)
    requires AllLogged(rig) && cam.backend.None? && cam.camera.None?
    ensures AllLogged(rig.(cams := rig.cams + [cam]))
  {
    var after := rig.(cams := rig.cams + [cam]);
    forall k: nat
      ensures Logged(after.log, k, SlotAt(after.cams, k))
    {
      assert Logged(rig.log, k, SlotAt(rig.cams, k));
    }
  }

  lemma CreateLogged(w: World, t: Table, rig: Rig, cam: Slot, id: u32, fps: real)
    requires AllLogged(rig) && cam.driver in BACKENDS && cam.backend.None? && cam.camera.None?
    ensures AllLogged(Create(w, t, rig, cam, id, fps).rig)
  {
    match FromIni(w.numbers, t, cam.section, cam.driver)
    case None => UncreatedLogged(rig, cam);
    case Some(b) => AttachLogged(w, rig, cam, b, id, fps);
  }

  lemma AddLogged(w: World, t: Table, want: u32, rig: Rig, section: string, driver: string)
    requires AllLogged(rig) && driver in BACKENDS
    ensures AllLogged(AddCamera(w, t, want, rig, section, driver).rig)
  {
    var id := GetAs<u32>(t, section, "id", w.numbers.parseU32, 0);
    var fps := GetAs<real>(t, section, "fps", w.numbers.parseF64, 30.0);
    if id.Some? && fps.Some? {
      CreateLogged(w, t, rig, Slot(section, driver, want, None, None), id.value, fps.value);
    }
  }

  lemma VisitLogged(w: World, t: Table, want: u32, rig: Rig, section: string)
    requires AllLogged(rig)
    ensures AllLogged(Visit(w, t, want, rig, section).rig)
  {
    var driver := Get(t, section, "backend");
    if driver.Some? && driver.value in BACKENDS {
      AddLogged(w, t, want, rig, section, driver.value);
    }
  }

  lemma {:induction false} FirstLogged(w: World, t: Table, want: u32, n: nat)
    requires n <= |t|
    ensures AllLogged(BuildFirst(w, t, want, n).rig)
    decreases n
  {
    if n > 0 {
      FirstLogged(w, t, want, n - 1);
      VisitLogged(w, t, want, BuildFirst(w, t, want, n - 1).rig, t[n - 1].name);
    }
  }

  // ---- the release ----

  lemma OthersUntouched(cam: Slot, k: nat, e: Event)
    ensures e.slot != k || cam == VACANT ==> Times(ReleaseOf(cam, k), e) == 0
  {
    TimesOfFew(ReleaseOf(cam, k), e);
  }

  /** How often a release shows an event of a slot. */
  function TimesReleased(cam: Slot, k: nat, e: Event): nat {
    Times(ReleaseOf(cam, k), e)
  }

  lemma ReleaseStep(cams: seq<Slot>, k: nat, e: Event)
    requires k < |cams|
    ensures Times(ReleaseLog(cams[..k + 1]), e)
            == Times(ReleaseLog(cams[..k]), e) + (if e.slot == k then TimesReleased(cams[k], k, e) else 0)
  {
    ReleaseSnoc(cams, k);
    TimesAppend(ReleaseLog(cams[..k]), ReleaseOf(cams[k], k), e);
    OthersUntouched(cams[k], k, e);
  }

  /** Among the first n slots, only its own slot's release shows an event. */
  lemma {:induction false} ReleaseBySlot(cams: seq<Slot>, n: nat, e: Event)
    requires n <= |cams|
    ensures Times(ReleaseLog(cams[..n]), e) == if e.slot < n then TimesReleased(cams[e.slot], e.slot, e) else 0
    decreases n
  {
    if n > 0 {
      ReleaseBySlot(cams, n - 1, e);
      ReleaseStep(cams, n - 1, e);
    }
  }

  /** Counts for one slot after everything was built and released. */
  ghost predicate ReleasedOnce(log: seq<Event>, k: nat) {
    && Times(log, BackendCreated(k)) == Times(log, BackendDestroyed(k)) <= 1
    && Times(log, CameraCreated(k)) == Times(log, CameraDeleted(k)) <= Times(log, BackendStopped(k)) <= 1
  }

  lemma SlotReleasedOnce(rig: Rig, k: nat)
    requires AllLogged(rig)
    ensures ReleasedOnce(rig.log + ReleaseLog(rig.cams), k)
  {
    var cam := SlotAt(rig.cams, k);
    assert Logged(rig.log, k, cam);
    SlotEvents(rig.log, rig.cams, k, BackendCreated(k));
    SlotEvents(rig.log, rig.cams, k, BackendDestroyed(k));
    SlotEvents(rig.log, rig.cams, k, CameraCreated(k));
    SlotEvents(rig.log, rig.cams, k, CameraDeleted(k));
    SlotEvents(rig.log, rig.cams, k, BackendStopped(k));
  }

  lemma SlotEvents(log: seq<Event>, cams: seq<Slot>, k: nat, e: Event)
    requires e.slot == k
    ensures var release := ReleaseOf(SlotAt(cams, k), k);
            Times(log + ReleaseLog(cams), e)
            == Times(log, e) + HitAt(release, 0, e) + HitAt(release, 1, e) + HitAt(release, 2, e)
  {
    TimesOfFew(ReleaseOf(SlotAt(cams, k), k), e);
    TimesAppend(log, ReleaseLog(cams), e);
    ReleaseBySlot(cams, |cams|, e);
    assert cams[..|cams|] == cams;
    OthersUntouched(VACANT, k, e);
  }

  /** Once a backend is destroyed nothing more happens to it or its camera. */
  ghost predicate DestroyedLast(log: seq<Event>) {
    forall i, j :: 0 <= i < j < |log| && log[i].BackendDestroyed? ==> log[j].slot != log[i].slot
  }

  /** A camera is deleted only after its backend was stopped. */
  ghost predicate StoppedFirst(log: seq<Event>) {
    forall i :: 0 <= i < |log| && log[i].CameraDeleted? ==> StoppedBefore(log, i, log[i].slot)
  }

  ghost predicate StoppedBefore(log: seq<Event>, i: nat, k: nat)
    requires i <= |log|
  {
    exists j :: 0 <= j < i && log[j] == BackendStopped(k)
  }

  lemma StoppedFirstAppend(log: seq<Event>, more: seq<Event>)
    requires StoppedFirst(log) && StoppedFirst(more)
    ensures StoppedFirst(log + more)
  {
    forall i | 0 <= i < |log + more| && (log + more)[i].CameraDeleted?
      ensures StoppedBefore(log + more, i, (log + more)[i].slot)
    {
      if i < |log| {
        assert StoppedBefore(log, i, log[i].slot);
        var j :| 0 <= j < i && log[j] == BackendStopped(log[i].slot);
        assert (log + more)[j] == log[j];
      } else {
        var at := i - |log|;
        assert StoppedBefore(more, at, more[at].slot);
        var j :| 0 <= j < at && more[j] == BackendStopped(more[at].slot);
        assert (log + more)[|log| + j] == more[j];
      }
    }
  }

  lemma ReleaseStopsFirst(cam: Slot, k: nat)
    ensures StoppedFirst(ReleaseOf(cam, k))
  {
    var log := ReleaseOf(cam, k);
    if cam.camera.Some? {
      assert log[0] == BackendStopped(k);
    }
  }

  lemma {:induction false} ReleasesStopFirst(cams: seq<Slot>)
    ensures StoppedFirst(ReleaseLog(cams))
  {
    if cams != [] {
      ReleasesStopFirst(cams[..|cams| - 1]);
      ReleaseStopsFirst(cams[|cams| - 1], |cams| - 1);
      StoppedFirstAppend(ReleaseLog(cams[..|cams| - 1]), ReleaseOf(cams[|cams| - 1], |cams| - 1));
    }
  }

  lemma LaterSlot(log: seq<Event>, more: seq<Event>, k: nat)
    requires DestroyedLast(log) && forall i :: 0 <= i < |log| ==> log[i].slot < k
    requires DestroyedLast(more) && forall i :: 0 <= i < |more| ==> more[i].slot == k
    ensures DestroyedLast(log + more) && forall i :: 0 <= i < |log + more| ==> (log + more)[i].slot <= k
  {
  }

  lemma {:induction false} ReleaseDestroysLast(cams: seq<Slot>)
    ensures DestroyedLast(ReleaseLog(cams))
    ensures forall i :: 0 <= i < |ReleaseLog(cams)| ==> ReleaseLog(cams)[i].slot < |cams|
  {
    if cams != [] {
      var k := |cams| - 1;
      ReleaseDestroysLast(cams[..k]);
      assert DestroyedLast(ReleaseOf(cams[k], k));
      LaterSlot(ReleaseLog(cams[..k]), ReleaseOf(cams[k], k), k);
    }
  }

  lemma BuildDestroysNothing(rig: Rig, i: nat)
    requires AllLogged(rig) && i < |rig.log|
    ensures !rig.log[i].BackendDestroyed? && !rig.log[i].CameraDeleted?
  {
    var k := rig.log[i].slot;
    assert Logged(rig.log, k, SlotAt(rig.cams, k));
    TimesPositive(rig.log, i);
  }

  /**
    On every path, complete or failed at any section: each backend created is destroyed
    exactly once, each camera built is deleted exactly once after its backend was stopped, and
    once a backend is destroyed nothing more happens to it or its camera.
   */
  lemma EverythingReleasedOnce(w: World, t: Table, want: u32)
    ensures var rig := BuildCameras(w, t, want).rig;
            var log := rig.log + ReleaseLog(rig.cams);
            DestroyedLast(log) && StoppedFirst(log) && forall k: nat :: ReleasedOnce(log, k)
  {
    var rig := BuildCameras(w, t, want).rig;
    FirstLogged(w, t, want, |t|);
    ReleaseDestroysLast(rig.cams);
    ReleasesStopFirst(rig.cams);
    forall i | 0 <= i < |rig.log|
      ensures !rig.log[i].BackendDestroyed? && !rig.log[i].CameraDeleted?
    {
      BuildDestroysNothing(rig, i);
    }
    StoppedFirstAppend(rig.log, ReleaseLog(rig.cams));
    forall k: nat
      ensures ReleasedOnce(rig.log + ReleaseLog(rig.cams), k)
    {
      SlotReleasedOnce(rig, k);
    }
  }

  // ---- fixed tables ----

  /** The tables of sixteen are always large enough, even for a half built camera. */
  lemma {:induction false} NeverOverflows(w: World, t: Table, want: u32, n: nat)
    requires n <= |t|
    ensures var rig := BuildFirst(w, t, want, n).rig;
            |rig.specs| <= |rig.cams| <= MAX_CAMERAS
            && (BuildFirst(w, t, want, n).ok ==> |rig.cams| == |rig.specs|)
    decreases n
  {
    if n > 0 {
      NeverOverflows(w, t, want, n - 1);
    }
  }

  lemma {:induction false} FailureStays(w: World, t: Table, want: u32, i: nat, n: nat)
    requires i <= n <= |t| && !BuildFirst(w, t, want, i).ok
    ensures BuildFirst(w, t, want, n) == BuildFirst(w, t, want, i)
    decreases n
  {
    if i < n {
      FailureStays(w, t, want, i, n - 1);
    }
  }

  lemma ReleaseSnoc(cams: seq<Slot>, k: nat)
    requires k < |cams|
    ensures ReleaseLog(cams[..k + 1]) == ReleaseLog(cams[..k]) + ReleaseOf(cams[k], k)
  {
    assert cams[..k + 1][..k] == cams[..k];
  }

  /** Vacant slots are released without a trace. */
  lemma {:induction false} VacantReleased(cams: seq<Slot>, n: nat)
    requires n <= |cams| && forall k :: n <= k < |cams| ==> cams[k] == VACANT
    ensures ReleaseLog(cams) == ReleaseLog(cams[..n])
    decreases |cams|
  {
    if n < |cams| {
      VacantReleased(cams[..|cams| - 1], n);
      assert cams[..|cams| - 1][..n] == cams[..n];
    } else {
      assert cams[..n] == cams;
    }
  }
}
