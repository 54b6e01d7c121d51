/** The publisher of camera.c over either backend: one acquire, one pack, one send. */
module Camera {
  import opened Machine
  import opened Frames
  import opened Wire
  import opened WireBuffers
  import opened Backends
  import M = MockCamera
  import W = Webcam

  /** What a non-blocking send came back with. */
  datatype SendResult = Accepted | QueueFull | SendFailed

  /** The backend object behind a camera. */
  datatype Driver = Synthetic(mock: M.MockCamera) | Capturing(webcam: W.Webcam)
  {
    function Objects(): set<object> {
      match this
      case Synthetic(mock) => {mock}
      case Capturing(webcam) => {webcam}
    }

    /** A mock that was never started, or was stopped, acquires nothing. */
    predicate Up()
      reads Objects()
    {
      Synthetic? ==> mock.up
    }

    ghost function Value(): Backend
      reads Objects()
    {
      match this
      case Synthetic(mock) => Mock(mock.cfg, mock.State())
      case Capturing(webcam) => Video(webcam.geometry)
    }
  }

  class Camera {
    const cameraId: u32
    const frame: Frame
    const scratch: array<byte>
    const scratchCap: nat
    const driver: Driver
    var sent: nat
    var dropped: nat

    /** The scratch buffer has room for a full frame; nothing is shared. */
    ghost predicate Valid()
      reads this, frame
    {
      && frame.Valid()
      && scratchCap == MessageSize(frame.capacity) <= scratch.Length
    }

    constructor Publishing(cameraId: u32, frame: Frame, driver: Driver)
      requires frame.Valid()
      ensures Valid() && sent == 0 && dropped == 0 && fresh(scratch)
      ensures this.cameraId == cameraId && this.frame == frame && this.driver == driver
    {
      this.cameraId, this.frame, this.driver := cameraId, frame, driver;
      scratchCap := MessageSize(frame.capacity);
      scratch := new byte[MessageSize(frame.capacity)];
      sent, dropped := 0, 0;
    }

    /** The backend's init, at this time and with whatever image size a driver grants. */
    static method InitDriver(driver: Driver, now: int, granted: Option<(u32, u32)>) returns (rc: int)
      modifies driver.Objects()
      ensures driver.Synthetic? ==> driver.mock.period == old(driver.mock.period)
      ensures rc == 0 <==> if driver.Synthetic? then old(driver.mock.period) > 0 else granted.Some?
      ensures rc == 0 ==> driver.Up() && driver.Value() == Ready(old(driver.Value()), now, granted)
    {
      match driver
      case Synthetic(mock) => rc := mock.Init(now);
      case Capturing(webcam) => rc := webcam.Init(granted);
    }

    /** camera_new past its sockets: a frame and a scratch buffer sized alike, then backend init. */
    static method New(cameraId: u32, frameCap: nat, driver: Driver, now: int, granted: Option<(u32, u32)>)
      returns (camera: Camera?)
      modifies driver.Objects()
      ensures camera == null <==>
              frameCap == 0 || (if driver.Synthetic? then old(driver.mock.period) == 0 else granted.None?)
      ensures camera == null && frameCap != 0 && driver.Synthetic? ==> !driver.Up()
      ensures camera != null ==>
                && fresh(camera) && camera.Valid() && camera.driver == driver && camera.cameraId == cameraId
                && camera.frame.capacity == frameCap % U32 && camera.sent == camera.dropped == 0
                && driver.Up() && driver.Value() == Ready(old(driver.Value()), now, granted)
    {
      var frame := Frame.NewFrames(frameCap);
      if frame == null {
        return null;
      }
      frame.cameraId := cameraId;
      var rc := InitDriver(driver, now, granted);
      if rc != 0 {
        if driver.Synthetic? {
          driver.mock.Deinit();
        }
        return null;
      }
      camera := new Camera.Publishing(cameraId, frame, driver);
    }

    /** interface->acquire. */
    method Acquire(arrival: Arrival) returns (rc: int)
      requires Valid() && frame.Readable() && (driver.Up() ==> CanTake(driver.Value(), arrival))
      modifies frame`count, frame`tNs, frame`sequence, frame.support, frame.signal, driver.Objects()
      ensures rc == if old(driver.Up()) then CodeOf(old(driver.Value()), arrival) else -1
      ensures driver.Up() == old(driver.Up())
      ensures !old(driver.Up()) ==> driver.Value() == old(driver.Value())
      ensures old(driver.Up()) ==> driver.Value() == AfterTaking(old(driver.Value()), arrival)
      ensures frame.Readable()
      ensures rc == 0 ==> frame.Value() == Filled(old(driver.Value()), arrival, frame.cameraId, frame.capacity)
    {
      match driver
      case Synthetic(mock) =>
        if mock.up {
          rc := mock.Acquire(frame, arrival.wake);
        } else {
          rc := -1;
        }
      case Capturing(webcam) =>
        rc := webcam.Acquire(frame, arrival.capture);
    }

    /** The second half of camera_tick: stamp if need be, pack, send. */
    method Publish(clock: i64, send: SendResult) returns (rc: int, published: Option<seq<byte>>)
      requires Valid() && frame.Readable()
      modifies this`sent, this`dropped, scratch, frame`tNs
      ensures Valid()
      ensures rc == match send { case Accepted => 0 case QueueFull => 1 case SendFailed => -3 }
      ensures sent == old(sent) + (if send.Accepted? then 1 else 0)
      ensures dropped == old(dropped) + (if send.QueueFull? then 1 else 0)
      ensures var acquired := old(frame.Value());
              var f := acquired.(tNs := if acquired.tNs == 0 then clock else acquired.tNs);
              |f.support| < U32 && published == if send.Accepted? then Some(Encode(f)) else None
    {
      if frame.tNs == 0 {
        frame.tNs := clock;
      }
      published := None;
      var n := Pack(frame, scratch, scratchCap);
      if n == 0 {
        return -2, None;
      }
      match send
      case QueueFull =>
        dropped := dropped + 1;
        rc := 1;
      case SendFailed =>
        rc := -3;
      case Accepted =>
        published := Some(scratch[..n]);
        sent := sent + 1;
        rc := 0;
    }

    /**
      camera_tick. What the backend's acquire says other than 0 is passed on. An acquired
      frame always fits the scratch buffer, so -2 is never its own; a refused send costs the
      frame and is counted.
     */
    method Tick(arrival: Arrival, clock: i64, send: SendResult) returns (rc: int, published: Option<seq<byte>>)
      requires Valid() && (driver.Up() ==> CanTake(driver.Value(), arrival))
      modifies this`sent, this`dropped, scratch, frame, frame.support, frame.signal, driver.Objects()
      ensures Valid() && frame.support == old(frame.support) && frame.signal == old(frame.signal)
      ensures rc == if !old(driver.Up()) then -1
                    else
                      var code := CodeOf(old(driver.Value()), arrival);
                      if code != 0 then code
                      else match send { case Accepted => 0 case QueueFull => 1 case SendFailed => -3 }
      ensures driver.Up() == old(driver.Up())
      ensures old(driver.Up()) ==> driver.Value() == AfterTaking(old(driver.Value()), arrival)
      ensures !old(driver.Up()) ==> driver.Value() == old(driver.Value())
      ensures var acquired := old(driver.Up()) && CodeOf(old(driver.Value()), arrival) == 0;
              && sent == old(sent) + (if acquired && send.Accepted? then 1 else 0)
              && dropped == old(dropped) + (if acquired && send.QueueFull? then 1 else 0)
      ensures rc != 0 ==> published == None
      ensures rc == 0 ==>
                var acquired := Filled(old(driver.Value()), arrival, cameraId, frame.capacity);
                var f := acquired.(tNs := if acquired.tNs == 0 then clock else acquired.tNs);
                |f.support| < U32 && published == Some(Encode(f))
    {
      published := None;
      frame.Reset();
      frame.cameraId := cameraId;
      rc := Acquire(arrival);
      if rc != 0 {
        return;
      }
      rc, published := Publish(clock, send);
    }
  }
}
