/** How smoke.c turns a configuration into cameras and specs, and who gets released when. */
module RigModel {
  import opened Machine
  import opened IniModel
  import opened SinkModel
  import opened Backends
  import opened BackendConfig

  const MAX_CAMERAS := 16
  const CAMERA_PREFIX := "cam."

  // ---- building ----

  /** What happened to backends and cameras, by the slot that owns them. */
  datatype Event =
    | BackendCreated(slot: nat)
    | CameraCreated(slot: nat)
    | BackendStopped(slot: nat)
    | CameraDeleted(slot: nat)
    | BackendDestroyed(slot: nat)

  /** camera_new: up at this time, with this image size granted to a webcam; a failure past the
      allocation has already stopped the backend. */
  datatype NewCamera = CameraUp(now: nat, granted: (u32, u32)) | CameraFailed(stopped: bool)

  /** The camera over a backend: its id, and the capacity its frame was allocated with. */
  datatype Publisher = Publisher(id: u32, capacity: u32)

  /** One entry of the cams table. */
  datatype Slot = Slot(
    section: string, driver: string, want: u32, backend: Option<Backend>, camera: Option<Publisher>)

  const VACANT := Slot("", "", 0, None, None)

  /** The tables as filled so far; the last slot of a failed build may be half built. */
  datatype Rig = Rig(cams: seq<Slot>, specs: seq<CamSpec>, log: seq<Event>)

  const NO_RIG := Rig([], [], [])

  /** What the model does not compute: number parsing, and how building a camera turns out. */
  datatype World = World(numbers: Numbers, camera: string -> NewCamera)

  predicate IdTaken(specs: seq<CamSpec>, id: u32) {
    exists j :: 0 <= j < |specs| && specs[j].cameraId == id
  }

  datatype Built = Built(rig: Rig, ok: bool)

  /** The period a spec expects; a rate that is not positive disables the cadence check. */
  function ExpectedPeriod(fps: real): (ms: real)
    ensures if fps > 0.0 then ms * fps == 1000.0 else ms == 0.0
  {
    if fps > 0.0 then 1000.0 / fps else 0.0
  }

  /** The slot and the spec of a camera that came up: both sizes are 32-bit casts of the site count. */
  function CameraOver(cam: Slot, b: Backend, id: u32, up: NewCamera): Slot
    requires up.CameraUp?
  {
    cam.(backend := Some(Ready(b, up.now, Some(up.granted))), camera := Some(Publisher(id, b.Sites() % U32)))
  }

  function SpecOf(b: Backend, id: u32, fps: real): CamSpec {
    CamSpec(id, b.Sites() % U32, ExpectedPeriod(fps))
  }

  function Attach(w: World, rig: Rig, cam: Slot, b: Backend, id: u32, fps: real): Built {
    var k := |rig.cams|;
    var created := rig.log + [BackendCreated(k)];
    var half := rig.cams + [cam.(backend := Some(b))];
    if b.Sites() == 0 || b.Sites() >= U32 then Built(Rig(half, rig.specs, created), false)
    else
      var up := w.camera(cam.section);
      match up
      case CameraFailed(stopped) =>
        Built(Rig(half, rig.specs, created + (if stopped then [BackendStopped(k)] else [])), false)
      case CameraUp(_, _) =>
        Built(Rig(rig.cams + [CameraOver(cam, b, id, up)], rig.specs + [SpecOf(b, id, fps)],
                  created + [CameraCreated(k)]),
              true)
  }

  /** The backend first, then the camera over it, into the next slot. */
  function Create(w: World, t: Table, rig: Rig, cam: Slot, id: u32, fps: real): Built
    requires cam.driver in BACKENDS
  {
    match FromIni(w.numbers, t, cam.section, cam.driver)
    case None => Built(rig.(cams := rig.cams + [cam]), false)
    case Some(b) => Attach(w, rig, cam, b, id, fps)
  }

  /** An enabled camera section with a known backend. */
  function AddCamera(w: World, t: Table, want: u32, rig: Rig, section: string, driver: string): Built
    requires driver in BACKENDS
  {
    var id := GetAs<u32>(t, section, "id", w.numbers.parseU32, 0);
    var fps := GetAs<real>(t, section, "fps", w.numbers.parseF64, 30.0);
    if id.None? || fps.None? || IdTaken(rig.specs, id.value) then Built(rig, false)
    else Create(w, t, rig, Slot(section, driver, want, None, None), id.value, fps.value)
  }

  predicate IsCameraSection(name: string) {
    CAMERA_PREFIX <= name
  }

  function Visit(w: World, t: Table, want: u32, rig: Rig, section: string): Built {
    if !IsCameraSection(section) then Built(rig, true)
    else
      match GetAs<bool>(t, section, "enabled", ParseBool, true)
      case None => Built(rig, false)
      case Some(enabled) =>
        if !enabled then Built(rig, true)
        else if |rig.specs| >= MAX_CAMERAS then Built(rig, false)
        else
          match Get(t, section, "backend")
          case None => Built(rig, false)
          case Some(name) =>
            if name !in BACKENDS then Built(rig, false) else AddCamera(w, t, want, rig, section, name)
  }

  /** The first n sections, in order, up to the first failure. */
  function BuildFirst(w: World, t: Table, want: u32, n: nat): Built
    requires n <= |t|
    decreases t, n
  {
    if n == 0 then Built(NO_RIG, true)
    else
      var before := BuildFirst(w, t, want, n - 1);
      if before.ok then Visit(w, t, want, before.rig, t[n - 1].name) else before
  }

  function BuildCameras(w: World, t: Table, want: u32): Built {
    BuildFirst(w, t, want, |t|)
  }

  // ---- releasing ----

  /** What cams_release does to one slot: the camera first, which stops the backend. */
  function ReleaseOf(cam: Slot, k: nat): seq<Event> {
    (if cam.camera.Some? then [BackendStopped(k), CameraDeleted(k)] else [])
    + (if cam.backend.Some? then [BackendDestroyed(k)] else [])
  }

  function ReleaseLog(cams: seq<Slot>): seq<Event> {
    if cams == [] then [] else ReleaseLog(cams[..|cams| - 1]) + ReleaseOf(cams[|cams| - 1], |cams| - 1)
  }
}
