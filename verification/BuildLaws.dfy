/** When a configuration can be built, said of what its sections say. */
module BuildLaws {
  import opened Machine
  import opened IniModel
  import opened MockModel
  import opened Yuyv
  import opened SinkModel
  import opened Backends
  import opened BackendConfig
  import opened RigModel
  import IniLaws
  import RigLaws

  // ---- what a section says ----

  /** This letter, in either case. */
  predicate SameLetter(c: char, lower: char) {
    c == lower || ('A' <= c <= 'Z' && c as int + 32 == lower as int)
  }

  /** This word, ignoring case. */
  ghost predicate IsWord(s: string, lower: string) {
    |s| == |lower| && forall i :: 0 <= i < |s| ==> SameLetter(s[i], lower[i])
  }

  ghost predicate IsYes(s: string) {
    IsWord(s, "true") || IsWord(s, "yes") || IsWord(s, "on") || IsWord(s, "1")
  }

  ghost predicate IsNo(s: string) {
    IsWord(s, "false") || IsWord(s, "no") || IsWord(s, "off") || IsWord(s, "0")
  }

  ghost predicate InLowerCase(s: string) {
    forall i :: 0 <= i < |s| ==> !('A' <= s[i] <= 'Z')
  }

  lemma LowerIsWord(s: string, word: string)
    requires InLowerCase(word)
    ensures LowerAll(s) == word <==> IsWord(s, word)
  {
    if LowerAll(s) == word {
      forall i | 0 <= i < |s|
        ensures SameLetter(s[i], word[i])
      {
        assert LowerAll(s)[i] == word[i];
      }
    }
    if IsWord(s, word) {
      forall i | 0 <= i < |s|
        ensures LowerAll(s)[i] == word[i]
      {
        assert SameLetter(s[i], word[i]);
      }
    }
  }

  /** Which words are booleans. */
  lemma BooleanWords(s: string)
    ensures ParseBool(s) == Some(true) <==> IsYes(s)
    ensures ParseBool(s) == Some(false) <==> IsNo(s)
    ensures ParseBool(s) == None <==> !IsYes(s) && !IsNo(s)
  {
    LowerIsWord(s, "true");
    LowerIsWord(s, "yes");
    LowerIsWord(s, "on");
    LowerIsWord(s, "1");
    LowerIsWord(s, "false");
    LowerIsWord(s, "no");
    LowerIsWord(s, "off");
    LowerIsWord(s, "0");
  }

  /** A text with a default: never empty when given. */
  predicate TextIs(t: Table, section: string, key: string, absent: string, text: string) {
    match Get(t, section, key)
    case None => text == absent
    case Some(raw) => raw == text && raw != ""
  }

  /** A number with a default. */
  ghost predicate NumberIs<T>(t: Table, section: string, key: string, parse: string -> Option<T>, absent: T, v: T) {
    match Get(t, section, key)
    case None => v == absent
    case Some(raw) => parse(raw) == Some(v)
  }

  /** A grid with no empty side. */
  ghost predicate GridIs(numbers: Numbers, text: string, rows: u32, cols: u32) {
    numbers.scanGrid(text) == Some((rows, cols)) && rows > 0 && cols > 0
  }

  /** The section exists and has no other keys than these. */
  ghost predicate KeysAmong(t: Table, section: string, allowed: set<string>) {
    exists i :: IniLaws.FirstNamed(t, section, i) && OnlyKeys(t[i].pairs, allowed)
  }

  ghost predicate OnlyKeys(pairs: seq<Pair>, allowed: set<string>) {
    forall j :: 0 <= j < |pairs| ==> pairs[j].key in allowed
  }

  lemma KeysIff(t: Table, section: string, keys: seq<string>, allowed: set<string>)
    requires forall key :: key in keys <==> key in allowed
    ensures CheckKeys(t, section, keys) == AllKnown <==> KeysAmong(t, section, allowed)
  {
    var i := SectionIndex(t, section, 0);
    if i < |t| {
      assert IniLaws.FirstNamed(t, section, i);
      OnlyKeysIff(t[i].pairs, keys, allowed);
    }
  }

  lemma OnlyKeysIff(pairs: seq<Pair>, keys: seq<string>, allowed: set<string>)
    requires forall key :: key in keys <==> key in allowed
    ensures UnknownAt(pairs, keys, 0) == |pairs| <==> OnlyKeys(pairs, allowed)
  {
    var j := UnknownAt(pairs, keys, 0);
    if j < |pairs| {
      assert pairs[j].key !in allowed;
    }
  }

  // ---- which backend a section describes ----

  /** A synthetic camera as its section says: grid 64x64, 256 sites, 30 frames a second unless told. */
  ghost predicate SaysMock(numbers: Numbers, t: Table, section: string, b: Backend) {
    && KeysAmong(t, section, {"backend", "enabled", "id", "fps", "grid", "sites"})
    && b.Mock? && b.st.next == 0 && b.st.sequence == 0
    && (exists text :: TextIs(t, section, "grid", "64x64", text) && GridIs(numbers, text, b.cfg.rows, b.cfg.cols))
    && NumberIs<u32>(t, section, "sites", numbers.parseU32, 256, b.cfg.sites) && b.cfg.sites > 0
    && exists fps :: NumberIs<real>(t, section, "fps", numbers.parseF64, 30.0, fps) && fps > 0.0
                     && b.st.period > 0
                     && b.st.period as real <= 1000000000.0 / fps < b.st.period as real + 1.0
  }

  lemma MockKeys()
    ensures forall key :: key in MOCK_KEYS <==> key in {"backend", "enabled", "id", "fps", "grid", "sites"}
  {
  }

  lemma FloorIsOne(q: real, a: nat, b: nat)
    requires a as real <= q < a as real + 1.0 && b as real <= q < b as real + 1.0
    ensures a == b
  {
  }

  lemma TextIff(t: Table, section: string, key: string, absent: string, text: string)
    ensures GetText(t, section, key, absent) == Some(text) <==> TextIs(t, section, key, absent, text)
  {
  }

  lemma NumberIff<T>(t: Table, section: string, key: string, parse: string -> Option<T>, absent: T, v: T)
    ensures GetAs<T>(t, section, key, parse, absent) == Some(v) <==> NumberIs<T>(t, section, key, parse, absent, v)
  {
  }

  lemma MockSaid(numbers: Numbers, t: Table, section: string, b: Backend)
    requires MockFromIni(numbers, t, section) == Some(b)
    ensures SaysMock(numbers, t, section, b)
  {
    MockKeys();
    KeysIff(t, section, MOCK_KEYS, {"backend", "enabled", "id", "fps", "grid", "sites"});
    var text := GetText(t, section, "grid", "64x64").value;
    var fps := GetAs<real>(t, section, "fps", numbers.parseF64, 30.0).value;
    TextIff(t, section, "grid", "64x64", text);
    NumberIff<u32>(t, section, "sites", numbers.parseU32, 256, b.cfg.sites);
    NumberIff<real>(t, section, "fps", numbers.parseF64, 30.0, fps);
    assert GridIs(numbers, text, b.cfg.rows, b.cfg.cols);
    assert b.st.period == PeriodOf(fps) > 0;
  }

  lemma MockMade(numbers: Numbers, t: Table, section: string, b: Backend)
    requires SaysMock(numbers, t, section, b)
    ensures MockFromIni(numbers, t, section) == Some(b)
  {
    MockKeys();
    KeysIff(t, section, MOCK_KEYS, {"backend", "enabled", "id", "fps", "grid", "sites"});
    var text :| TextIs(t, section, "grid", "64x64", text) && GridIs(numbers, text, b.cfg.rows, b.cfg.cols);
    var fps :| NumberIs<real>(t, section, "fps", numbers.parseF64, 30.0, fps) && fps > 0.0
               && b.st.period > 0
               && b.st.period as real <= 1000000000.0 / fps < b.st.period as real + 1.0;
    TextIff(t, section, "grid", "64x64", text);
    NumberIff<u32>(t, section, "sites", numbers.parseU32, 256, b.cfg.sites);
    NumberIff<real>(t, section, "fps", numbers.parseF64, 30.0, fps);
    FloorIsOne(1000000000.0 / fps, b.st.period, PeriodOf(fps));
  }

  /** Exactly which synthetic camera a section describes. */
  lemma MockFromIniIff(numbers: Numbers, t: Table, section: string, b: Backend)
    ensures MockFromIni(numbers, t, section) == Some(b) <==> SaysMock(numbers, t, section, b)
  {
    if MockFromIni(numbers, t, section) == Some(b) {
      MockSaid(numbers, t, section, b);
    }
    if SaysMock(numbers, t, section, b) {
      MockMade(numbers, t, section, b);
    }
  }

  /** A webcam as its section says, with the defaults of each key and the limits checked. */
  ghost predicate SaysWebcam(numbers: Numbers, t: Table, section: string, b: Backend) {
    && KeysAmong(t, section, {"backend", "enabled", "id", "fps", "device", "grid", "resolution", "threshold",
                              "buffers", "timeout_ms"})
    && b.Video? && b.geometry.width == 0 && b.geometry.height == 0
    && (exists device :: TextIs(t, section, "device", "/dev/video0", device))
    && SaysResolution(numbers, t, section)
    && (exists text :: TextIs(t, section, "grid", "64x64", text)
                       && GridIs(numbers, text, b.geometry.gridRows, b.geometry.gridCols))
    && NumberIs<u32>(t, section, "threshold", numbers.parseU32, 32, b.geometry.threshold)
    && (exists buffers: u32 :: NumberIs<u32>(t, section, "buffers", numbers.parseU32, 4, buffers) && buffers >= 2)
    && exists timeout: u32 :: NumberIs<u32>(t, section, "timeout_ms", numbers.parseU32, 2000, timeout)
  }

  ghost predicate SaysResolution(numbers: Numbers, t: Table, section: string) {
    exists text, height, width :: TextIs(t, section, "resolution", "480x640", text)
                                  && GridIs(numbers, text, height, width)
  }

  lemma WebcamKeys()
    ensures forall key :: key in WEBCAM_KEYS <==>
              key in {"backend", "enabled", "id", "fps", "device", "grid", "resolution", "threshold", "buffers",
                      "timeout_ms"}
  {
  }

  lemma ResolutionIff(numbers: Numbers, t: Table, section: string)
    ensures var size := GetText(t, section, "resolution", "480x640");
            SaysResolution(numbers, t, section) <==> size.Some? && ParseGrid(numbers, size.value).Some?
  {
    var size := GetText(t, section, "resolution", "480x640");
    if SaysResolution(numbers, t, section) {
      var text, height, width :| TextIs(t, section, "resolution", "480x640", text)
                                 && GridIs(numbers, text, height, width);
      TextIff(t, section, "resolution", "480x640", text);
    }
    if size.Some? && ParseGrid(numbers, size.value).Some? {
      var image := ParseGrid(numbers, size.value).value;
      TextIff(t, section, "resolution", "480x640", size.value);
      assert GridIs(numbers, size.value, image.0, image.1);
    }
  }

  lemma WebcamSaid(numbers: Numbers, t: Table, section: string, b: Backend)
    requires WebcamFromIni(numbers, t, section) == Some(b)
    ensures SaysWebcam(numbers, t, section, b)
  {
    WebcamKeys();
    KeysIff(t, section, WEBCAM_KEYS,
            {"backend", "enabled", "id", "fps", "device", "grid", "resolution", "threshold", "buffers", "timeout_ms"});
    ResolutionIff(numbers, t, section);
    var text := GetText(t, section, "grid", "64x64").value;
    var device := GetText(t, section, "device", "/dev/video0").value;
    var buffers := GetAs<u32>(t, section, "buffers", numbers.parseU32, 4).value;
    var timeout := GetAs<u32>(t, section, "timeout_ms", numbers.parseU32, 2000).value;
    TextIff(t, section, "grid", "64x64", text);
    TextIff(t, section, "device", "/dev/video0", device);
    NumberIff<u32>(t, section, "threshold", numbers.parseU32, 32, b.geometry.threshold);
    NumberIff<u32>(t, section, "buffers", numbers.parseU32, 4, buffers);
    NumberIff<u32>(t, section, "timeout_ms", numbers.parseU32, 2000, timeout);
    assert GridIs(numbers, text, b.geometry.gridRows, b.geometry.gridCols);
  }

  lemma WebcamOfParts(
      numbers: Numbers, t: Table, section: string, device: string, size: string, raw: string,
      threshold: u32, buffers: u32, timeout: u32)
    requires CheckKeys(t, section, WEBCAM_KEYS) == AllKnown
    requires GetText(t, section, "device", "/dev/video0") == Some(device)
    requires GetText(t, section, "resolution", "480x640") == Some(size) && ParseGrid(numbers, size).Some?
    requires GetText(t, section, "grid", "64x64") == Some(raw) && ParseGrid(numbers, raw).Some?
    requires GetAs<u32>(t, section, "threshold", numbers.parseU32, 32) == Some(threshold) && threshold <= 255
    requires GetAs<u32>(t, section, "buffers", numbers.parseU32, 4) == Some(buffers) && buffers >= 2
    requires GetAs<u32>(t, section, "timeout_ms", numbers.parseU32, 2000) == Some(timeout)
    ensures var grid := ParseGrid(numbers, raw).value;
            WebcamFromIni(numbers, t, section) == Some(Video(Geometry(grid.0, grid.1, threshold, 0, 0)))
  {
  }

  lemma WebcamMade(numbers: Numbers, t: Table, section: string, b: Backend)
    requires SaysWebcam(numbers, t, section, b)
    ensures WebcamFromIni(numbers, t, section) == Some(b)
  {
    WebcamKeys();
    KeysIff(t, section, WEBCAM_KEYS,
            {"backend", "enabled", "id", "fps", "device", "grid", "resolution", "threshold", "buffers", "timeout_ms"});
    ResolutionIff(numbers, t, section);
    var text :| TextIs(t, section, "grid", "64x64", text)
                && GridIs(numbers, text, b.geometry.gridRows, b.geometry.gridCols);
    var device :| TextIs(t, section, "device", "/dev/video0", device);
    var buffers: u32 :| NumberIs<u32>(t, section, "buffers", numbers.parseU32, 4, buffers) && buffers >= 2;
    var timeout: u32 :| NumberIs<u32>(t, section, "timeout_ms", numbers.parseU32, 2000, timeout);
    TextIff(t, section, "grid", "64x64", text);
    TextIff(t, section, "device", "/dev/video0", device);
    NumberIff<u32>(t, section, "threshold", numbers.parseU32, 32, b.geometry.threshold);
    NumberIff<u32>(t, section, "buffers", numbers.parseU32, 4, buffers);
    NumberIff<u32>(t, section, "timeout_ms", numbers.parseU32, 2000, timeout);
    var size := GetText(t, section, "resolution", "480x640").value;
    WebcamOfParts(numbers, t, section, device, size, text, b.geometry.threshold, buffers, timeout);
  }

  /** Exactly which webcam a section describes. */
  lemma WebcamFromIniIff(numbers: Numbers, t: Table, section: string, b: Backend)
    ensures WebcamFromIni(numbers, t, section) == Some(b) <==> SaysWebcam(numbers, t, section, b)
  {
    if WebcamFromIni(numbers, t, section) == Some(b) {
      WebcamSaid(numbers, t, section, b);
    }
    if SaysWebcam(numbers, t, section, b) {
      WebcamMade(numbers, t, section, b);
    }
  }

  // ---- when a build succeeds ----

  /** A name that starts with "cam.". */
  predicate NamesCamera(name: string) {
    |name| >= 4 && name[0] == 'c' && name[1] == 'a' && name[2] == 'm' && name[3] == '.'
  }

  /** Its `enabled` is absent or a boolean. */
  ghost predicate SwitchReads(t: Table, section: string) {
    var raw := Get(t, section, "enabled");
    raw.None? || IsYes(raw.value) || IsNo(raw.value)
  }

  /** A camera section that is not switched off. */
  ghost predicate Wanted(t: Table, section: string) {
    NamesCamera(section) && (Get(t, section, "enabled").None? || IsYes(Get(t, section, "enabled").value))
  }

  /** The sections among the first n that ask for a camera, by position. */
  ghost function WantedAmong(t: Table, n: nat): set<nat>
    requires n <= |t|
  {
    set i: nat | i < n && Wanted(t, t[i].name)
  }

  ghost predicate HasId(w: World, t: Table, section: string, id: u32) {
    NumberIs<u32>(t, section, "id", w.numbers.parseU32, 0, id)
  }

  /** The backend its section describes, of the kind it names. */
  ghost predicate Describes(w: World, t: Table, section: string, b: Backend) {
    if Get(t, section, "backend") == Some("mock") then SaysMock(w.numbers, t, section, b)
    else Get(t, section, "backend") == Some("v4l2") && SaysWebcam(w.numbers, t, section, b)
  }

  /** Its backend is known and made, with a site count between 1 and 2^32 - 1. */
  ghost predicate BackendMade(w: World, t: Table, section: string) {
    exists b: Backend ::
      1 <= b.Sites() <= 0xFFFF_FFFF && Describes(w, t, section, b)
  }

  /** All a single section has to meet. */
  ghost predicate Works(w: World, t: Table, section: string) {
    && (exists id :: HasId(w, t, section, id))
    && (exists fps :: NumberIs<real>(t, section, "fps", w.numbers.parseF64, 30.0, fps))
    && BackendMade(w, t, section) && w.camera(section).CameraUp?
  }

  ghost predicate IdsDiffer(w: World, t: Table, n: nat)
    requires n <= |t|
  {
    forall i, j :: 0 <= i < j < n && Wanted(t, t[i].name) && Wanted(t, t[j].name) ==>
      !SameId(w, t, t[i].name, t[j].name)
  }

  ghost predicate SameId(w: World, t: Table, one: string, other: string) {
    exists id :: HasId(w, t, one, id) && HasId(w, t, other, id)
  }

  ghost predicate SwitchesRead(t: Table, n: nat)
    requires n <= |t|
  {
    forall i :: 0 <= i < n && NamesCamera(t[i].name) ==> SwitchReads(t, t[i].name)
  }

  ghost predicate AllWork(w: World, t: Table, n: nat)
    requires n <= |t|
  {
    forall i :: 0 <= i < n && Wanted(t, t[i].name) ==> Works(w, t, t[i].name)
  }

  /** What the first n sections have to meet together. */
  ghost predicate Buildable(w: World, t: Table, n: nat)
    requires n <= |t|
  {
    SwitchesRead(t, n) && |WantedAmong(t, n)| <= 16 && AllWork(w, t, n) && IdsDiffer(w, t, n)
  }

  lemma SwitchIs(t: Table, section: string)
    ensures IsCameraSection(section) <==> NamesCamera(section)
    ensures GetAs<bool>(t, section, "enabled", ParseBool, true).Some? <==> SwitchReads(t, section)
    ensures RigLaws.Selects(t, section) <==> Wanted(t, section)
  {
    var raw := Get(t, section, "enabled");
    if raw.Some? {
      BooleanWords(raw.value);
    }
    if NamesCamera(section) {
      assert section[..4] == "cam.";
    }
  }

  /** The backend a section's driver makes of it, if its name is known and its sites fit. */
  ghost predicate MakesBackend(w: World, t: Table, section: string) {
    var name := Get(t, section, "backend");
    && name.Some? && name.value in BACKENDS
    && var b := FromIni(w.numbers, t, section, name.value);
       b.Some? && 0 < b.value.Sites() < U32
  }

  lemma BackendIff(w: World, t: Table, section: string)
    ensures BackendMade(w, t, section) <==> MakesBackend(w, t, section)
  {
    forall b
      ensures MockFromIni(w.numbers, t, section) == Some(b) <==> SaysMock(w.numbers, t, section, b)
      ensures WebcamFromIni(w.numbers, t, section) == Some(b) <==> SaysWebcam(w.numbers, t, section, b)
    {
      MockFromIniIff(w.numbers, t, section, b);
      WebcamFromIniIff(w.numbers, t, section, b);
    }
  }

  lemma WorksIff(w: World, t: Table, section: string)
    ensures Works(w, t, section) <==>
            && GetAs<u32>(t, section, "id", w.numbers.parseU32, 0).Some?
            && GetAs<real>(t, section, "fps", w.numbers.parseF64, 30.0).Some?
            && BackendMade(w, t, section) && w.camera(section).CameraUp?
  {
    var id, fps := GetAs<u32>(t, section, "id", w.numbers.parseU32, 0),
                   GetAs<real>(t, section, "fps", w.numbers.parseF64, 30.0);
    if id.Some? {
      assert HasId(w, t, section, id.value);
    }
    if fps.Some? {
      assert NumberIs<real>(t, section, "fps", w.numbers.parseF64, 30.0, fps.value);
    }
  }

  lemma IdIs(w: World, t: Table, section: string, id: u32)
    ensures HasId(w, t, section, id) <==> GetAs<u32>(t, section, "id", w.numbers.parseU32, 0) == Some(id)
  {
  }

  /** Whether one section can be added to what is there. */
  ghost predicate Fits(w: World, t: Table, rig: Rig, section: string) {
    NamesCamera(section) ==>
      && SwitchReads(t, section)
      && (Wanted(t, section) ==>
            && |rig.specs| < 16 && Works(w, t, section)
            && forall id :: HasId(w, t, section, id) ==> !IdTaken(rig.specs, id))
  }

  lemma CreateOk(w: World, t: Table, rig: Rig, cam: Slot, id: u32, fps: real)
    requires cam.driver in BACKENDS && Get(t, cam.section, "backend") == Some(cam.driver)
    ensures Create(w, t, rig, cam, id, fps).ok <==> MakesBackend(w, t, cam.section) && w.camera(cam.section).CameraUp?
  {
  }

  lemma AddOk(w: World, t: Table, want: u32, rig: Rig, section: string, driver: string)
    requires driver in BACKENDS && Get(t, section, "backend") == Some(driver)
    ensures AddCamera(w, t, want, rig, section, driver).ok <==>
            var id := GetAs<u32>(t, section, "id", w.numbers.parseU32, 0);
            && id.Some? && !IdTaken(rig.specs, id.value)
            && GetAs<real>(t, section, "fps", w.numbers.parseF64, 30.0).Some?
            && MakesBackend(w, t, section) && w.camera(section).CameraUp?
  {
    var id := GetAs<u32>(t, section, "id", w.numbers.parseU32, 0);
    var fps := GetAs<real>(t, section, "fps", w.numbers.parseF64, 30.0);
    if id.Some? && fps.Some? {
      CreateOk(w, t, rig, Slot(section, driver, want, None, None), id.value, fps.value);
    }
  }

  lemma SelectedOk(w: World, t: Table, want: u32, rig: Rig, section: string)
    requires RigLaws.Selects(t, section)
    ensures Visit(w, t, want, rig, section).ok <==>
            var id := GetAs<u32>(t, section, "id", w.numbers.parseU32, 0);
            && |rig.specs| < 16 && id.Some? && !IdTaken(rig.specs, id.value)
            && GetAs<real>(t, section, "fps", w.numbers.parseF64, 30.0).Some?
            && MakesBackend(w, t, section) && w.camera(section).CameraUp?
  {
    var name := Get(t, section, "backend");
    if name.Some? && name.value in BACKENDS {
      AddOk(w, t, want, rig, section, name.value);
    }
  }

  lemma UnselectedOk(w: World, t: Table, want: u32, rig: Rig, section: string)
    requires !RigLaws.Selects(t, section)
    ensures Visit(w, t, want, rig, section).rig == rig
    ensures Visit(w, t, want, rig, section).ok <==>
            IsCameraSection(section) ==> GetAs<bool>(t, section, "enabled", ParseBool, true).Some?
  {
  }

  lemma VisitIff(w: World, t: Table, want: u32, rig: Rig, section: string)
    ensures Visit(w, t, want, rig, section).ok <==> Fits(w, t, rig, section)
    ensures !Wanted(t, section) ==> Visit(w, t, want, rig, section).rig == rig
  {
    SwitchIs(t, section);
    if RigLaws.Selects(t, section) {
      var id := GetAs<u32>(t, section, "id", w.numbers.parseU32, 0);
      SelectedOk(w, t, want, rig, section);
      BackendIff(w, t, section);
      WorksIff(w, t, section);
      if id.Some? {
        IdIs(w, t, section, id.value);
      }
    } else {
      UnselectedOk(w, t, want, rig, section);
    }
  }

  lemma VisitAdds(w: World, t: Table, want: u32, rig: Rig, section: string)
    requires Wanted(t, section) && Visit(w, t, want, rig, section).ok
    ensures exists spec: CamSpec :: HasId(w, t, section, spec.cameraId)
                           && Visit(w, t, want, rig, section).rig.specs == rig.specs + [spec]
  {
    SwitchIs(t, section);
    RigLaws.VisitBuilds(w, t, want, rig, section);
    var specs := Visit(w, t, want, rig, section).rig.specs;
    assert specs == rig.specs + [specs[|rig.specs|]];
  }

  /** The specs so far are those of the sections wanted so far. */
  ghost predicate Covers(w: World, t: Table, n: nat, specs: seq<CamSpec>)
    requires n <= |t|
  {
    && |specs| == |WantedAmong(t, n)|
    && forall id :: IdTaken(specs, id) <==> exists i :: 0 <= i < n && Wanted(t, t[i].name) && HasId(w, t, t[i].name, id)
  }

  lemma WantedGrows(t: Table, n: nat)
    requires n < |t|
    ensures |WantedAmong(t, n + 1)| == |WantedAmong(t, n)| + (if Wanted(t, t[n].name) then 1 else 0)
  {
    if Wanted(t, t[n].name) {
      assert WantedAmong(t, n + 1) == WantedAmong(t, n) + {n};
    } else {
      assert WantedAmong(t, n + 1) == WantedAmong(t, n);
    }
  }

  lemma TakenGrows(specs: seq<CamSpec>, spec: CamSpec, id: u32)
    ensures IdTaken(specs + [spec], id) <==> IdTaken(specs, id) || spec.cameraId == id
  {
    var longer := specs + [spec];
    assert longer[|specs|] == spec;
    if IdTaken(specs, id) {
      var j :| 0 <= j < |specs| && specs[j].cameraId == id;
      assert longer[j].cameraId == id;
    }
  }

  lemma CoversMore(w: World, t: Table, n: nat, specs: seq<CamSpec>, spec: CamSpec)
    requires n < |t| && Covers(w, t, n, specs) && Wanted(t, t[n].name) && HasId(w, t, t[n].name, spec.cameraId)
    ensures Covers(w, t, n + 1, specs + [spec])
  {
    WantedGrows(t, n);
    forall id
      ensures IdTaken(specs + [spec], id) <==>
              exists i :: 0 <= i < n + 1 && Wanted(t, t[i].name) && HasId(w, t, t[i].name, id)
    {
      TakenGrows(specs, spec, id);
    }
  }

  lemma CoversSame(w: World, t: Table, n: nat, specs: seq<CamSpec>)
    requires n < |t| && Covers(w, t, n, specs) && !Wanted(t, t[n].name)
    ensures Covers(w, t, n + 1, specs)
  {
    WantedGrows(t, n);
  }

  lemma VisitCovers(w: World, t: Table, want: u32, rig: Rig, n: nat)
    requires n < |t| && Covers(w, t, n, rig.specs) && Visit(w, t, want, rig, t[n].name).ok
    ensures Covers(w, t, n + 1, Visit(w, t, want, rig, t[n].name).rig.specs)
  {
    var name := t[n].name;
    if Wanted(t, name) {
      VisitAdds(w, t, want, rig, name);
      var spec: CamSpec :| HasId(w, t, name, spec.cameraId)
                           && Visit(w, t, want, rig, name).rig.specs == rig.specs + [spec];
      CoversMore(w, t, n, rig.specs, spec);
    } else {
      VisitIff(w, t, want, rig, name);
      CoversSame(w, t, n, rig.specs);
    }
  }

  lemma {:induction false} FirstCovers(w: World, t: Table, want: u32, n: nat)
    requires n <= |t| && BuildFirst(w, t, want, n).ok
    ensures Covers(w, t, n, BuildFirst(w, t, want, n).rig.specs)
    decreases n
  {
    if n == 0 {
      assert WantedAmong(t, 0) == {};
    } else {
      FirstCovers(w, t, want, n - 1);
      VisitCovers(w, t, want, BuildFirst(w, t, want, n - 1).rig, n - 1);
    }
  }

  /** No section wanted before has this section's id. */
  ghost predicate IdIsNew(w: World, t: Table, n: nat)
    requires n < |t|
  {
    forall i :: 0 <= i < n && Wanted(t, t[i].name) ==> !SameId(w, t, t[i].name, t[n].name)
  }

  lemma NewIdIff(w: World, t: Table, n: nat, specs: seq<CamSpec>)
    requires n < |t| && Covers(w, t, n, specs)
    ensures (forall id :: HasId(w, t, t[n].name, id) ==> !IdTaken(specs, id)) <==> IdIsNew(w, t, n)
  {
  }

  lemma OneMoreDiffers(w: World, t: Table, n: nat)
    requires n < |t|
    ensures IdsDiffer(w, t, n + 1) <==> IdsDiffer(w, t, n) && (Wanted(t, t[n].name) ==> IdIsNew(w, t, n))
  {
    if IdsDiffer(w, t, n) && (Wanted(t, t[n].name) ==> IdIsNew(w, t, n)) {
      forall i, j | 0 <= i < j < n + 1 && Wanted(t, t[i].name) && Wanted(t, t[j].name)
        ensures !SameId(w, t, t[i].name, t[j].name)
      {
        if j == n {
          assert IdIsNew(w, t, n);
        }
      }
    }
  }

  lemma OneMoreWorks(w: World, t: Table, n: nat)
    requires n < |t|
    ensures SwitchesRead(t, n + 1) <==> SwitchesRead(t, n) && (NamesCamera(t[n].name) ==> SwitchReads(t, t[n].name))
    ensures AllWork(w, t, n + 1) <==> AllWork(w, t, n) && (Wanted(t, t[n].name) ==> Works(w, t, t[n].name))
  {
  }

  lemma OneMoreBuildable(w: World, t: Table, n: nat, rig: Rig)
    requires n < |t| && Covers(w, t, n, rig.specs)
    ensures Buildable(w, t, n + 1) <==> Buildable(w, t, n) && Fits(w, t, rig, t[n].name)
  {
    WantedGrows(t, n);
    OneMoreDiffers(w, t, n);
    OneMoreWorks(w, t, n);
    NewIdIff(w, t, n, rig.specs);
  }

  lemma BuildableEarlier(w: World, t: Table, n: nat)
    requires n < |t| && Buildable(w, t, n + 1)
    ensures Buildable(w, t, n)
  {
    WantedGrows(t, n);
    OneMoreDiffers(w, t, n);
    OneMoreWorks(w, t, n);
  }

  lemma NothingToBuild(w: World, t: Table)
    ensures Buildable(w, t, 0)
  {
    assert WantedAmong(t, 0) == {};
  }

  lemma VisitBuildable(w: World, t: Table, want: u32, rig: Rig, n: nat)
    requires n < |t| && Covers(w, t, n, rig.specs) && Buildable(w, t, n)
    ensures Visit(w, t, want, rig, t[n].name).ok <==> Buildable(w, t, n + 1)
  {
    VisitIff(w, t, want, rig, t[n].name);
    OneMoreBuildable(w, t, n, rig);
  }

  lemma NextBuildsIff(w: World, t: Table, want: u32, n: nat)
    requires n < |t| && (BuildFirst(w, t, want, n).ok <==> Buildable(w, t, n))
    ensures BuildFirst(w, t, want, n + 1).ok <==> Buildable(w, t, n + 1)
  {
    var before := BuildFirst(w, t, want, n);
    OneMoreVisited(w, t, want, n);
    if before.ok {
      FirstCovers(w, t, want, n);
      VisitBuildable(w, t, want, before.rig, n);
    } else if Buildable(w, t, n + 1) {
      BuildableEarlier(w, t, n);
    }
  }

  lemma OneMoreVisited(w: World, t: Table, want: u32, n: nat)
    requires n < |t|
    ensures var before := BuildFirst(w, t, want, n);
            BuildFirst(w, t, want, n + 1)
            == if before.ok then Visit(w, t, want, before.rig, t[n].name) else before
  {
  }

  lemma {:induction false} FirstBuildsIff(w: World, t: Table, want: u32, n: nat)
    requires n <= |t|
    ensures BuildFirst(w, t, want, n).ok <==> Buildable(w, t, n)
    decreases n
  {
    if n == 0 {
      NothingToBuild(w, t);
    } else {
      FirstBuildsIff(w, t, want, n - 1);
      NextBuildsIff(w, t, want, n - 1);
    }
  }

  /**
    Exactly which configurations build: every camera section's `enabled` is absent or a
    boolean, at most sixteen sections are wanted, no two of those have one id, and each of them
    names a known backend that its section describes with 1 to 2^32 - 1 sites, has an id and a
    rate that parse, and its camera comes up.
   */
  lemma BuildSucceedsIff(w: World, t: Table, want: u32)
    ensures BuildCameras(w, t, want).ok <==>
            && (forall i :: 0 <= i < |t| && NamesCamera(t[i].name) ==> SwitchReads(t, t[i].name))
            && |set i: nat | i < |t| && Wanted(t, t[i].name)| <= 16
            && (forall i :: 0 <= i < |t| && Wanted(t, t[i].name) ==> Works(w, t, t[i].name))
            && (forall i, j :: 0 <= i < j < |t| && Wanted(t, t[i].name) && Wanted(t, t[j].name) ==>
                  !SameId(w, t, t[i].name, t[j].name))
  {
    FirstBuildsIff(w, t, want, |t|);
    assert WantedAmong(t, |t|) == set i: nat | i < |t| && Wanted(t, t[i].name);
  }

  // ---- what a section that cannot be added leaves behind ----

  lemma DescribedIsMade(w: World, t: Table, section: string, b: Backend)
    requires Describes(w, t, section, b)
    ensures var name := Get(t, section, "backend");
            name.Some? && name.value in BACKENDS && FromIni(w.numbers, t, section, name.value) == Some(b)
  {
    MockFromIniIff(w.numbers, t, section, b);
    WebcamFromIniIff(w.numbers, t, section, b);
  }

  lemma VisitIsAttach(
      w: World, t: Table, want: u32, rig: Rig, section: string, driver: string, id: u32, fps: real, b: Backend)
    requires RigLaws.Selects(t, section) && |rig.specs| < 16 && Get(t, section, "backend") == Some(driver)
    requires driver in BACKENDS && FromIni(w.numbers, t, section, driver) == Some(b) && !IdTaken(rig.specs, id)
    requires GetAs<u32>(t, section, "id", w.numbers.parseU32, 0) == Some(id)
    requires GetAs<real>(t, section, "fps", w.numbers.parseF64, 30.0) == Some(fps)
    ensures Visit(w, t, want, rig, section)
            == Attach(w, rig, Slot(section, driver, want, None, None), b, id, fps)
  {
  }

  /** A build that stopped at this section: its slot, its backend in it, and the log of that. */
  lemma FailureLeaves(w: World, t: Table, want: u32, rig: Rig, section: string, b: Backend, id: u32, fps: real)
    requires Wanted(t, section) && !Visit(w, t, want, rig, section).ok
    requires Describes(w, t, section, b) && |rig.specs| < 16
    requires HasId(w, t, section, id) && !IdTaken(rig.specs, id)
    requires NumberIs<real>(t, section, "fps", w.numbers.parseF64, 30.0, fps)
    ensures var after, k := Visit(w, t, want, rig, section).rig, |rig.cams|;
            var stopped := 0 < b.Sites() < 0x1_0000_0000 && w.camera(section) == CameraFailed(true);
            && after.specs == rig.specs && |after.cams| == k + 1 && after.cams[..k] == rig.cams
            && after.cams[k].backend == Some(b) && after.cams[k].camera == None
            && after.log == rig.log + [BackendCreated(k)] + (if stopped then [BackendStopped(k)] else [])
  {
    SwitchIs(t, section);
    IdIs(w, t, section, id);
    NumberIff<real>(t, section, "fps", w.numbers.parseF64, 30.0, fps);
    DescribedIsMade(w, t, section, b);
    VisitIsAttach(w, t, want, rig, section, Get(t, section, "backend").value, id, fps, b);
  }

  /** And a section that can be: one slot, one spec, and the log of both halves. */
  lemma SuccessAdds(w: World, t: Table, want: u32, rig: Rig, section: string)
    requires Wanted(t, section) && Visit(w, t, want, rig, section).ok
    ensures var after, k := Visit(w, t, want, rig, section).rig, |rig.cams|;
            && |after.cams| == k + 1 && after.cams[..k] == rig.cams
            && |after.specs| == |rig.specs| + 1 && after.specs[..|rig.specs|] == rig.specs
            && after.log == rig.log + [BackendCreated(k), CameraCreated(k)]
  {
    SwitchIs(t, section);
    AddsLogged(w, t, want, rig, section);
    RigLaws.VisitBuilds(w, t, want, rig, section);
  }

  lemma AttachLogs(w: World, rig: Rig, cam: Slot, b: Backend, id: u32, fps: real)
    requires Attach(w, rig, cam, b, id, fps).ok
    ensures Attach(w, rig, cam, b, id, fps).rig.log
            == rig.log + [BackendCreated(|rig.cams|), CameraCreated(|rig.cams|)]
  {
  }

  lemma AddsLogged(w: World, t: Table, want: u32, rig: Rig, section: string)
    requires RigLaws.Selects(t, section) && Visit(w, t, want, rig, section).ok
    ensures Visit(w, t, want, rig, section).rig.log
            == rig.log + [BackendCreated(|rig.cams|), CameraCreated(|rig.cams|)]
  {
    var driver := Get(t, section, "backend").value;
    var id := GetAs<u32>(t, section, "id", w.numbers.parseU32, 0).value;
    var fps := GetAs<real>(t, section, "fps", w.numbers.parseF64, 30.0).value;
    var b := FromIni(w.numbers, t, section, driver).value;
    VisitIsAttach(w, t, want, rig, section, driver, id, fps, b);
    AttachLogs(w, rig, Slot(section, driver, want, None, None), b, id, fps);
  }
}
