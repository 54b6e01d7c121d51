/** The two registered backends as values: what one acquire takes, yields and leaves behind. */
module Backends {
  import opened Machine
  import opened Frames
  import opened MockModel
  import opened Yuyv
  import Binary32
  import Webcam

  datatype Backend = Mock(cfg: MockConfig, st: MockState) | Video(geometry: Geometry)
  {
    /** The backend's max_sites. */
    function Sites(): nat {
      match this
      case Mock(cfg, _) => cfg.Total()
      case Video(g) => g.MaxSites()
    }

    /** Nothing it acquires can hold a value outside [0, 1]; known before the first frame. */
    ghost predicate Safe() {
      Video? ==> Webcam.SafeGrid(geometry)
    }
  }

  /** A backend as its init leaves it. */
  function Ready(b: Backend, now: int, granted: Option<(u32, u32)>): Backend {
    match b
    case Mock(cfg, st) => Mock(cfg, Started(st.period, now))
    case Video(g) =>
      if granted.None? then b else Video(g.(width := granted.value.0, height := granted.value.1))
  }

  /** What the world brings to one acquire: the time of a wake, or a capture. */
  datatype Arrival = Woken(wake: i64) | Brought(capture: Webcam.Capture)

  /** A mock is woken at or after its deadline; an image has the size the driver granted. */
  predicate CanTake(b: Backend, a: Arrival) {
    match b
    case Mock(cfg, st) => a.Woken? && 0 < cfg.Total() < U32 && a.wake >= st.next
    case Video(g) => a.Brought? && (a.capture.Fills() ==> Fits(g, a.capture.img) && g.MaxSites() < U32)
  }

  /** The return code of acquire: 0 for a frame, positive for a timeout, negative for a failure. */
  function CodeOf(b: Backend, a: Arrival): int
    requires CanTake(b, a)
  {
    match b
    case Mock(_, _) => 0
    case Video(_) => Webcam.CodeOf(a.capture)
  }

  /** The frame of a successful acquire. */
  function Filled(b: Backend, a: Arrival, cameraId: u32, capacity: u32): (f: FrameValue)
    requires CanTake(b, a) && CodeOf(b, a) == 0
    ensures f.cameraId == cameraId && |f.support| == |f.signal| <= capacity
  {
    match b
    case Mock(cfg, st) => Acquired(cfg, st, cameraId, capacity, a.wake)
    case Video(g) => Webcam.Captured(g, cameraId, capacity, a.capture.img, a.capture.tNs, a.capture.sequence)
  }

  /** A mock advances with every acquire; what a webcam's driver does is not visible. */
  function AfterTaking(b: Backend, a: Arrival): (after: Backend)
    requires CanTake(b, a)
    ensures after.Mock? == b.Mock? && after.Sites() == b.Sites()
  {
    match b
    case Mock(cfg, st) => Mock(cfg, AfterAcquire(st, a.wake))
    case Video(_) => b
  }

  /** A backend that stamps nothing gets the system clock. */
  function Stamped(f: FrameValue, clock: i64): FrameValue {
    if f.tNs == 0 then f.(tNs := clock) else f
  }

  /** Everything an acquire can be met with: any wake from the deadline on, any answer, any image of the size. */
  lemma ArrivalsAre(b: Backend, a: Arrival)
    ensures CanTake(b, a) <==>
            match b
            case Mock(cfg, st) => a.Woken? && 0 < cfg.rows * cfg.cols < 0x1_0000_0000 && a.wake >= st.next
            case Video(g) =>
              a.Brought? &&
              (a.capture.Shot? || a.capture.RequeueFailed? ==>
                 && a.capture.img.width == g.width && a.capture.img.height == g.height
                 && 2 * (g.width * g.height) <= |a.capture.img.raw| < 0x1_0000_0000
                 && g.Rows() * g.Cols() < 0x1_0000_0000)
  {
  }

  /** A synthetic camera always has a frame; a webcam has one for an image handed back, or a code. */
  lemma CodesAre(b: Backend, a: Arrival)
    requires CanTake(b, a)
    ensures CodeOf(b, a) == match a
                            case Woken(_) => 0
                            case Brought(capture) =>
                              match capture
                              case Closed => -1
                              case PollTimeout => 1
                              case PollFailed => -2
                              case NothingYet => 1
                              case DequeueFailed => -3
                              case BadIndex => -4
                              case Shot(_, _, _) => 0
                              case RequeueFailed(_, _, _) => -5
  {
  }

  /** Whatever the backend: indices below its site count, and values in [0, 1] if it is safe. */
  lemma FilledHealthy(b: Backend, a: Arrival, cameraId: u32, capacity: u32)
    requires CanTake(b, a) && CodeOf(b, a) == 0
    ensures var f := Filled(b, a, cameraId, capacity);
            && f.WellFormed() && |f.support| <= capacity
            && (forall i :: 0 <= i < |f.support| ==> f.support[i] < b.Sites())
            && (b.Safe() ==> forall i :: 0 <= i < |f.signal| ==> !Binary32.OutsideUnitInterval(f.signal[i]))
  {
    match b
    case Mock(cfg, st) => FramesHealthy(cfg, st, cameraId, capacity, a.wake);
    case Video(g) =>
      var c := a.capture;
      Webcam.CapturedOnGrid(g, cameraId, capacity, c.img, c.tNs, c.sequence);
      if b.Safe() {
        Webcam.CapturedInRange(g, cameraId, capacity, c.img, c.tNs, c.sequence);
      }
  }
}
