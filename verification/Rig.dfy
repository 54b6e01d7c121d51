/** build_cameras and cams_release over the fixed tables of smoke.c. */
module Rig {
  import opened Machine
  import opened IniModel
  import opened SinkModel
  import opened Backends
  import opened BackendConfig
  import opened RigModel
  import Ini
  import RigLaws

  class CameraTable {
    const cams: array<Slot>
    const specs: array<CamSpec>
    var n: nat
    ghost var used: nat
    ghost var log: seq<Event>

    ghost predicate Valid()
      reads this, cams
    {
      && cams.Length == specs.Length == MAX_CAMERAS
      && n <= used <= MAX_CAMERAS
      && forall k :: used <= k < MAX_CAMERAS ==> cams[k] == VACANT
    }

    ghost function Value(): RigModel.Rig
      requires Valid()
      reads this, cams, specs
    {
      RigModel.Rig(cams[..used], specs[..n], log)
    }

    constructor Zeroed()
      ensures Valid() && Value() == NO_RIG && fresh(cams) && fresh(specs)
    {
      cams := new Slot[MAX_CAMERAS](_ => VACANT);
      specs := new CamSpec[MAX_CAMERAS](_ => CamSpec(0, 0, 0.0));
      n, used, log := 0, 0, [];
    }

    method IdTakenBy(id: u32) returns (taken: bool)
      requires Valid()
      ensures taken == IdTaken(specs[..n], id)
    {
      taken := false;
      for j := 0 to n
        invariant !taken && forall k :: 0 <= k < j ==> specs[k].cameraId != id
      {
        if specs[j].cameraId == id {
          assert specs[..n][j].cameraId == id;
          return true;
        }
      }
    }

    /** The second half of one round: the camera over a backend, if its sites fit 32 bits. */
    method AttachCamera(w: World, cam: Slot, b: Backend, id: u32, fps: real) returns (ok: bool)
      requires Valid() && n == used < MAX_CAMERAS
      modifies this, cams, specs
      ensures Valid() && (ok ==> n == used)
      ensures Built(Value(), ok) == Attach(w, old(Value()), cam, b, id, fps)
    {
      cams[n] := cam.(backend := Some(b));
      used := n + 1;
      log := log + [BackendCreated(n)];
      var sites := b.Sites();
      if sites == 0 || sites > U32 - 1 {
        return false;
      }
      var up := w.camera(cam.section);
      match up
      case CameraFailed(stopped) =>
        log := log + (if stopped then [BackendStopped(n)] else []);
        ok := false;
      case CameraUp(_, _) =>
        log := log + [CameraCreated(n)];
        cams[n] := CameraOver(cam, b, id, up);
        specs[n] := SpecOf(b, id, fps);
        n := n + 1;
        ok := true;
    }

    /** backend->create through the registry, then the camera. */
    method Build(w: World, ini: Ini.Ini, ghost t: Table, cam: Slot, id: u32, fps: real) returns (ok: bool)
      requires Valid() && n == used < MAX_CAMERAS && ini.Valid() && ini.Contents() == t && cam.driver in BACKENDS
      modifies this, cams, specs
      ensures Valid() && (ok ==> n == used)
      ensures Built(Value(), ok) == Create(w, t, old(Value()), cam, id, fps)
    {
      var made: Option<Backend>;
      if cam.driver == "mock" {
        made := CreateMock(w.numbers, ini, cam.section);
      } else {
        made := CreateWebcam(w.numbers, ini, cam.section);
      }
      if made.None? {
        cams[n] := cam;
        used := n + 1;
        return false;
      }
      ok := AttachCamera(w, cam, made.value, id, fps);
    }

    method Add(w: World, ini: Ini.Ini, ghost t: Table, want: u32, section: string, driver: string)
      returns (ok: bool)
      requires Valid() && n == used < MAX_CAMERAS && ini.Valid() && ini.Contents() == t && driver in BACKENDS
      modifies this, cams, specs
      ensures Valid() && (ok ==> n == used)
      ensures Built(Value(), ok) == AddCamera(w, t, want, old(Value()), section, driver)
    {
      var id := LookupAs<u32>(ini, section, "id", w.numbers.parseU32, 0);
      var fps := LookupAs<real>(ini, section, "fps", w.numbers.parseF64, 30.0);
      if id.None? || fps.None? {
        return false;
      }
      var taken := IdTakenBy(id.value);
      if taken {
        return false;
      }
      ok := Build(w, ini, t, Slot(section, driver, want, None, None), id.value, fps.value);
    }

    /** One section of the configuration. */
    method Consider(w: World, ini: Ini.Ini, ghost t: Table, want: u32, section: string) returns (ok: bool)
      requires Valid() && n == used && ini.Valid() && ini.Contents() == t
      modifies this, cams, specs
      ensures Valid() && (ok ==> n == used)
      ensures Built(Value(), ok) == Visit(w, t, want, old(Value()), section)
    {
      if !IsCameraSection(section) {
        return true;
      }
      var enabled := LookupAs<bool>(ini, section, "enabled", ParseBool, true);
      if enabled.None? || !enabled.value {
        return enabled.Some?;
      }
      if n >= MAX_CAMERAS {
        return false;
      }
      var name := ini.Lookup(section, "backend");
      if name.None? || name.value !in BACKENDS {
        return false;
      }
      ok := Add(w, ini, t, want, section, name.value);
    }

    /** build_cameras: the number of cameras, or -1 with whatever was built still in the tables. */
    method BuildCameras(w: World, ini: Ini.Ini, want: u32) returns (rc: int)
      requires Valid() && Value() == NO_RIG && used == 0 && ini.Valid()
      modifies this, cams, specs
      ensures Valid()
      ensures var b := RigModel.BuildCameras(w, old(ini.Contents()), want);
              Value() == b.rig && rc == if b.ok then n else -1
    {
      ghost var t := ini.Contents();
      for i := 0 to ini.count
        invariant Valid() && n == used && ini.Valid() && ini.Contents() == t
        invariant BuildFirst(w, t, want, i) == Built(Value(), true)
      {
        var ok := Consider(w, ini, t, want, ini.sections[i].name);
        if !ok {
          RigLaws.FailureStays(w, t, want, i + 1, |t|);
          return -1;
        }
      }
      rc := n;
    }

    /** cams_release: cameras before their backends, each slot cleared as it goes. */
    method Release(slots: nat)
      requires Valid() && slots <= MAX_CAMERAS
      modifies this`log, cams
      ensures log == old(log) + ReleaseLog(old(cams[..slots]))
      ensures forall k :: 0 <= k < slots ==> cams[k].backend.None? && cams[k].camera.None?
    {
      ghost var before := cams[..];
      for k := 0 to slots
        invariant log == old(log) + ReleaseLog(before[..k])
        invariant forall i :: 0 <= i < k ==> cams[i].backend.None? && cams[i].camera.None?
        invariant forall i :: k <= i < MAX_CAMERAS ==> cams[i] == before[i]
      {
        RigLaws.ReleaseSnoc(before, k);
        if cams[k].camera.Some? {
          log := log + [BackendStopped(k), CameraDeleted(k)];
          cams[k] := cams[k].(camera := None);
        }
        if cams[k].backend.Some? {
          log := log + [BackendDestroyed(k)];
          cams[k] := cams[k].(backend := None);
        }
      }
      assert before[..slots] == old(cams[..slots]);
    }

    /** The tables' life in main: built, run if that worked, and released on every path. */
    method Lifetime(w: World, ini: Ini.Ini, want: u32) returns (rc: int)
      requires Valid() && Value() == NO_RIG && used == 0 && ini.Valid()
      modifies this, cams, specs
      ensures var rig := RigModel.BuildCameras(w, old(ini.Contents()), want).rig;
              log == rig.log + ReleaseLog(rig.cams)
      ensures RigLaws.DestroyedLast(log) && RigLaws.StoppedFirst(log)
      ensures forall k: nat :: RigLaws.ReleasedOnce(log, k)
    {
      rc := BuildCameras(w, ini, want);
      ghost var t := old(ini.Contents());
      ghost var rig := RigModel.BuildCameras(w, t, want).rig;
      RigLaws.NeverOverflows(w, t, want, |t|);
      var slots := if rc < 0 then MAX_CAMERAS else n;
      RigLaws.VacantReleased(cams[..slots], used);
      assert cams[..slots][..used] == rig.cams;
      Release(slots);
      RigLaws.EverythingReleasedOnce(w, t, want);
    }
  }
}
