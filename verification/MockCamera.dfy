/** The synthetic backend as mock_camera.c runs it. */
module MockCamera {
  import opened Machine
  import opened Frames
  import opened MockModel

  class MockCamera {
    const cfg: MockConfig
    var period: nat
    var next: int
    var sequence: u64
    var up: bool

    ghost function State(): MockState
      reads this
    {
      MockState(period, next, sequence)
    }

    constructor Zeroed(cfg: MockConfig, period: nat)
      ensures this.cfg == cfg && this.period == period && !up && next == 0 && sequence == 0
    {
      this.cfg, this.period, next, sequence, up := cfg, period, 0, 0, false;
    }

    /** mock_ctx_create: null for an empty grid, or a rate without a positive period. */
    static method Create(cfg: MockConfig, fps: real) returns (ctx: MockCamera?)
      ensures ctx == null <==> cfg.rows == 0 || cfg.cols == 0 || fps <= 0.0 || fps > 1000000000.0
      ensures ctx != null ==> fresh(ctx) && ctx.cfg == cfg && !ctx.up && ctx.period == PeriodOf(fps) > 0
      ensures ctx != null ==> ctx.State() == MockState(PeriodOf(fps), 0, 0)
    {
      if cfg.rows == 0 || cfg.cols == 0 || fps <= 0.0 {
        return null;
      }
      var period := PeriodOf(fps);
      if period <= 0 {
        return null;
      }
      ctx := new MockCamera.Zeroed(cfg, period);
    }

    /** mock_max_sites. */
    method MaxSites() returns (n: nat)
      ensures n == cfg.Total()
    {
      n := cfg.rows * cfg.cols;
    }

    method Init(now: int) returns (rc: int)
      modifies this
      ensures rc == if period > 0 then 0 else -1
      ensures rc == 0 ==> up && State() == MockState(old(period), now + old(period), 0)
      ensures rc != 0 ==> unchanged(this)
    {
      if period <= 0 {
        return -1;
      }
      sequence, next, up := 0, now + period, true;
      rc := 0;
    }

    /** Idempotent, and safe when Init never ran. */
    method Deinit()
      modifies this`up, this`next
      ensures !up && next == 0
    {
      up, next := false, 0;
    }

    /** mock_acquire, woken at or after the deadline. The driver has refused grids beyond 32 bits. */
    method Acquire(out: Frame, wake: i64) returns (rc: int)
      requires out.Valid() && (up ==> cfg.Valid() && wake >= next)
      modifies this`next, this`sequence, out`count, out`tNs, out`sequence, out.support, out.signal
      ensures rc == if up then 0 else -1
      ensures !up ==> State() == old(State())
      ensures up ==> out.Readable() && State() == AfterAcquire(old(State()), wake)
      ensures up ==> out.Value() == Acquired(cfg, old(State()), out.cameraId, out.capacity, wake)
    {
      if !up {
        return -1;
      }
      next := next + period;
      if next <= wake {
        next := wake + period;
      }
      var total := cfg.rows * cfg.cols;
      var n: nat := cfg.sites;
      if n > total {
        n := total;
      }
      if n > out.capacity {
        n := out.capacity;
      }
      var base := sequence % total;
      ghost var support := BandSupport(cfg, sequence, n);
      FillBand(out, base, n, total, support);
      assert out.support[..n] == support;
      assert out.signal[..n] == BandSignal(support);
      out.count, out.tNs, out.sequence := n, wake, sequence;
      sequence := (sequence + 1) % U64;
      rc := 0;
    }

    static method FillBand(out: Frame, base: u32, n: nat, total: nat, ghost band: seq<u32>)
      requires out.Valid() && 0 < total < U32 && n == |band| <= out.capacity
      requires forall i :: 0 <= i < n ==> band[i] == WrappedSite(base, i, total)
      modifies out.support, out.signal
      ensures forall i :: 0 <= i < n ==> out.support[i] == band[i] && out.signal[i] == SiteSignal(band[i])
    {
      for i := 0 to n
        invariant forall k :: 0 <= k < i ==> out.support[k] == band[k] && out.signal[k] == SiteSignal(band[k])
      {
        var site := (base + i) % U32 % total;
        assert site == band[i];
        out.support[i] := site;
        out.signal[i] := SiteSignal(site);
      }
    }
  }
}
