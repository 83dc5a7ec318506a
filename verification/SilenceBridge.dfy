/** The silence bridge of internal/broadcast/server.go: silent frames fill input gaps, but only while
    delivery is behind a wall-clock byte budget. Times are seconds and budgets bytes, both as reals. */
module SilenceBridge {
  import opened Seqs
  import opened Mounts

  /** Go's conversion of a float to an integer: toward zero. */
  function Trunc(r: real): (n: int)
    ensures r - 1.0 < n as real < r + 1.0
    ensures 0.0 <= r ==> 0.0 <= n as real <= r
    ensures r <= 0.0 ==> r <= n as real <= 0.0
  {
    if r >= 0.0 then r.Floor else -((-r).Floor)
  }

  /** Bytes that play from one time to another. */
  function Earned(from: real, to: real, rate: real): real { (to - from) * rate }

  /** The budget may not drift further than `slack` from what was delivered, either way: one that has is moved to the
      edge it passed. */
  function Clamp(budget: real, out: nat, slack: real): (b: real)
    requires 0.0 <= slack
    ensures out as real - slack <= b <= out as real + slack
    ensures b < budget ==> b == out as real + slack
    ensures budget < b ==> b == out as real - slack
  {
    if budget > out as real + slack then out as real + slack
    else if budget < out as real - slack then out as real - slack
    else budget
  }

  class Bridge {
    const mount: Mount
    const silentFrame: Chunk
    const byteRate: real
    const slack: real   // bytes
    const grace: real
    var budget: real
    var last: real
    var filling: bool

    ghost predicate Valid()
      reads this, mount, mount.buffer, mount.buffer.data
    {
      mount.Valid() && silentFrame != [] && 0.0 < byteRate && 0.0 <= slack
    }

    /** The budget starts at what was already delivered: earlier bytes are history, not debt. */
    constructor (mount: Mount, silentFrame: Chunk, maxSlack: real, grace: real, start: real)
      requires mount.Valid() && silentFrame != [] && 0.0 <= maxSlack
      ensures Valid() && this.mount == mount && this.silentFrame == silentFrame && this.grace == grace
      ensures byteRate == (if mount.bitrate * 1000 / 8 <= 0 then 16000 else mount.bitrate * 1000 / 8) as real
      ensures slack == maxSlack * byteRate
      ensures budget == mount.bytesOut as real && last == start && !filling
    {
      this.mount, this.silentFrame, this.grace := mount, silentFrame, grace;
      var rate := (mount.bitrate * 1000 / 8) as real;
      if rate <= 0.0 {
        rate := 16000.0;
      }
      byteRate, slack := rate, maxSlack * rate;
      budget, last, filling := mount.bytesOut as real, start, false;
    }

    /** Advance the budget to `now` and clamp it around what was delivered. */
    method AdvanceBudget(now: real)
      requires Valid()
      modifies this`budget, this`last
      ensures Valid() && last == now
      ensures budget == Clamp(old(budget) + (now - old(last)) * byteRate, mount.bytesOut, slack)
    {
      budget := budget + (now - last) * byteRate;
      last := now;
      var out := mount.bytesOut;
      if budget > out as real + slack {
        budget := out as real + slack;
      } else if budget < out as real - slack {
        budget := out as real - slack;
      }
    }

    /** One tick: advance and clamp the budget, then in a gap emit frames until none fits. */
    method Poll(now: real, clock: real)
      requires Valid()
      modifies this`budget, this`last, this`filling, mount`bytesOut, mount.buffer`pos, mount.buffer.data, mount.clients
      ensures Valid() && last == now
      ensures budget == Clamp(old(budget) + (now - old(last)) * byteRate, old(mount.bytesOut), slack)
      ensures mount.lastFedAt == None || mount.inputCount != 0 || mount.clients == {} || clock - mount.lastFedAt.value <= grace
              ==> mount.bytesOut == old(mount.bytesOut) && !filling
      ensures mount.lastFedAt.Some? && mount.inputCount == 0 && mount.clients != {} && clock - mount.lastFedAt.value > grace
              ==> Trunc(budget) < mount.bytesOut + |silentFrame|
      ensures mount.bytesOut == if mount.InGap(clock, grace) then Filled(old(mount.bytesOut), |silentFrame|, Trunc(budget)) else old(mount.bytesOut)
      ensures var frames := if mount.InGap(clock, grace) then FramesDue(old(mount.bytesOut), |silentFrame|, Trunc(budget)) else 0;
              && mount.Carried(old(mount.buffer.Recent()), old(mount.Channels()), Repeat(silentFrame, frames))
              && (filling <==> mount.InGap(clock, grace) && (old(filling) || frames > 0))
    {
      hide Clamp, Trunc, Filled, FramesDue, Repeat, OfferAll, Flatten, LastN;
      AdvanceBudget(now);
      if !mount.InGap(clock, grace) {
        filling := false;
        mount.NothingCarried();
        assert Repeat(silentFrame, 0) == [];
        return;
      }
      var emitted := mount.FillGap(silentFrame, Trunc(budget), clock, grace);
      if emitted && !filling {
        filling := true;
      }
    }
  }
}
