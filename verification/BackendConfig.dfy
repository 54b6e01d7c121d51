/** Typed lookups and the two backend constructors of smoke.c: from a section to a backend. */
module BackendConfig {
  import opened Machine
  import opened MockModel
  import opened Yuyv
  import opened Backends
  import opened IniModel
  import Ini

  // ---- typed lookups ----

  function Lower(c: char): char {
    if 'A' <= c <= 'Z' then (c as int + 32) as char else c
  }

  function LowerAll(s: string): string {
    seq(|s|, i requires 0 <= i < |s| => Lower(s[i]))
  }

  function ParseBool(raw: string): Option<bool> {
    if LowerAll(raw) in ["true", "yes", "on", "1"] then Some(true)
    else if LowerAll(raw) in ["false", "no", "off", "0"] then Some(false)
    else None
  }

  /** An absent key means the default; a malformed value is None. */
  function GetAs<T>(t: Table, section: string, key: string, parse: string -> Option<T>, absent: T): Option<T> {
    match Get(t, section, key)
    case None => Some(absent)
    case Some(raw) => parse(raw)
  }

  /** An absent key means the default; a value given but empty is malformed. */
  function GetText(t: Table, section: string, key: string, absent: string): Option<string> {
    match Get(t, section, key)
    case None => Some(absent)
    case Some(raw) => if raw == [] then None else Some(raw)
  }

  /** The C library's number parsing, not modelled here. */
  datatype Numbers = Numbers(
    parseU32: string -> Option<u32>,
    parseF64: string -> Option<real>,
    scanGrid: string -> Option<(u32, u32)>)

  /** parse_grid: two numbers, neither of them zero. */
  function ParseGrid(numbers: Numbers, raw: string): (grid: Option<(u32, u32)>)
    ensures grid.Some? ==> grid.value.0 > 0 && grid.value.1 > 0
  {
    var scanned := numbers.scanGrid(raw);
    if scanned.None? || scanned.value.0 == 0 || scanned.value.1 == 0 then None else scanned
  }

  const MOCK_KEYS: seq<string> := ["backend", "enabled", "id", "fps", "grid", "sites"]
  const WEBCAM_KEYS: seq<string> :=
    ["backend", "enabled", "id", "fps", "device", "grid", "resolution", "threshold", "buffers", "timeout_ms"]

  // ---- the backends ----

  /** mock_ctx_create: a camera not started yet, or nothing without a positive period. */
  function NewMock(cfg: MockConfig, fps: real): Option<Backend>
    requires fps > 0.0
  {
    if PeriodOf(fps) == 0 then None else Some(Mock(cfg, MockState(PeriodOf(fps), 0, 0)))
  }

  function MockFromIni(numbers: Numbers, t: Table, section: string): Option<Backend> {
    var raw := GetText(t, section, "grid", "64x64");
    var sites := GetAs<u32>(t, section, "sites", numbers.parseU32, 256);
    var fps := GetAs<real>(t, section, "fps", numbers.parseF64, 30.0);
    if CheckKeys(t, section, MOCK_KEYS) != AllKnown || raw.None? || sites.None? || fps.None? then None
    else
      var grid := ParseGrid(numbers, raw.value);
      if grid.None? || fps.value <= 0.0 || sites.value == 0 then None
      else NewMock(MockConfig(grid.value.0, grid.value.1, sites.value), fps.value)
  }

  /** A webcam before it is opened: the image size is the driver's to grant. */
  function WebcamFromIni(numbers: Numbers, t: Table, section: string): Option<Backend> {
    var device := GetText(t, section, "device", "/dev/video0");
    var size := GetText(t, section, "resolution", "480x640");
    var raw := GetText(t, section, "grid", "64x64");
    var threshold := GetAs<u32>(t, section, "threshold", numbers.parseU32, 32);
    var buffers := GetAs<u32>(t, section, "buffers", numbers.parseU32, 4);
    var timeout := GetAs<u32>(t, section, "timeout_ms", numbers.parseU32, 2000);
    if CheckKeys(t, section, WEBCAM_KEYS) != AllKnown || device.None? || size.None? || raw.None?
       || threshold.None? || buffers.None? || timeout.None? then None
    else
      var grid := ParseGrid(numbers, raw.value);
      if ParseGrid(numbers, size.value).None? || grid.None? || threshold.value > 255 || buffers.value < 2 then None
      else Some(Video(Geometry(grid.value.0, grid.value.1, threshold.value, 0, 0)))
  }

  const BACKENDS: seq<string> := ["mock", "v4l2"]

  /** The registry: the backend a driver's name stands for, made from its section. */
  function FromIni(numbers: Numbers, t: Table, section: string, driver: string): Option<Backend>
    requires driver in BACKENDS
  {
    if driver == "mock" then MockFromIni(numbers, t, section) else WebcamFromIni(numbers, t, section)
  }

  /** Made from a section: a grid with cells in it, and a mock with a period, not started yet. */
  ghost predicate Proper(b: Backend) {
    match b
    case Mock(cfg, st) => cfg.rows > 0 && cfg.cols > 0 && cfg.sites > 0 && st.period > 0 && st.sequence == 0
    case Video(g) => g.gridRows > 0 && g.gridCols > 0
  }

  lemma MadeProper(numbers: Numbers, t: Table, section: string, driver: string)
    requires driver in BACKENDS && FromIni(numbers, t, section, driver).Some?
    ensures Proper(FromIni(numbers, t, section, driver).value)
    ensures FromIni(numbers, t, section, driver).value.Mock? <==> driver == "mock"
  {
  }

  /** Being started, or granted an image size, changes no site count. */
  lemma ReadyKeepsSites(b: Backend, now: int, granted: Option<(u32, u32)>)
    requires Proper(b)
    ensures Proper(Ready(b, now, granted)) && Ready(b, now, granted).Sites() == b.Sites()
  {
  }

  // ---- the same, over the loaded configuration ----

  method LookupAs<T>(ini: Ini.Ini, section: string, key: string, parse: string -> Option<T>, absent: T)
    returns (value: Option<T>)
    requires ini.Valid()
    ensures value == GetAs(ini.Contents(), section, key, parse, absent)
  {
    var raw := ini.Lookup(section, key);
    value := if raw.None? then Some(absent) else parse(raw.value);
  }

  /** ini_get_str with a default. */
  method LookupText(ini: Ini.Ini, section: string, key: string, absent: string) returns (value: Option<string>)
    requires ini.Valid()
    ensures value == GetText(ini.Contents(), section, key, absent)
  {
    var raw := ini.Lookup(section, key);
    value := if raw.None? then Some(absent) else if raw.value == [] then None else raw;
  }

  /** mock_from_ini. */
  method CreateMock(numbers: Numbers, ini: Ini.Ini, section: string) returns (b: Option<Backend>)
    requires ini.Valid()
    ensures b == MockFromIni(numbers, ini.Contents(), section)
  {
    var keys := ini.Check(section, MOCK_KEYS);
    if keys != AllKnown {
      return None;
    }
    var raw := LookupText(ini, section, "grid", "64x64");
    var sites := LookupAs<u32>(ini, section, "sites", numbers.parseU32, 256);
    var fps := LookupAs<real>(ini, section, "fps", numbers.parseF64, 30.0);
    if raw.None? || sites.None? || fps.None? {
      return None;
    }
    var grid := ParseGrid(numbers, raw.value);
    if grid.None? || fps.value <= 0.0 || sites.value == 0 {
      return None;
    }
    b := NewMock(MockConfig(grid.value.0, grid.value.1, sites.value), fps.value);
  }

  /** v4l2_from_ini. */
  method CreateWebcam(numbers: Numbers, ini: Ini.Ini, section: string) returns (b: Option<Backend>)
    requires ini.Valid()
    ensures b == WebcamFromIni(numbers, ini.Contents(), section)
  {
    var keys := ini.Check(section, WEBCAM_KEYS);
    if keys != AllKnown {
      return None;
    }
    var device := LookupText(ini, section, "device", "/dev/video0");
    var size := LookupText(ini, section, "resolution", "480x640");
    var raw := LookupText(ini, section, "grid", "64x64");
    var threshold := LookupAs<u32>(ini, section, "threshold", numbers.parseU32, 32);
    var buffers := LookupAs<u32>(ini, section, "buffers", numbers.parseU32, 4);
    var timeout := LookupAs<u32>(ini, section, "timeout_ms", numbers.parseU32, 2000);
    if device.None? || size.None? || raw.None? || threshold.None? || buffers.None? || timeout.None? {
      return None;
    }
    var image := ParseGrid(numbers, size.value);
    var grid := ParseGrid(numbers, raw.value);
    if image.None? || grid.None? || threshold.value > 255 || buffers.value < 2 {
      return None;
    }
    b := Some(Video(Geometry(grid.value.0, grid.value.1, threshold.value, 0, 0)));
  }
}
