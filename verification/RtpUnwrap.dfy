/** Unwrapping of the 32-bit RTP timestamp in the RTSP trace (RFC 3550, section 5.1).

The trace sees raw timestamps and keeps a 64-bit count.  A packet's true tick count is a
ghost of the model: the raw timestamp is what 32 bits show of it.
*/
module RtpUnwrap {
  const WRAP := 0x1_0000_0000
  const HALF := 0x7fff_ffff
  const CLOCK_RATE := 90000

  /** The base for a raw timestamp after the one before it. */
  function NextBase(base: nat, previousRaw: nat, raw: nat): nat {
    if raw < previousRaw && previousRaw - raw > HALF then base + WRAP else base
  }

  /** A forward step of less than a full turn is counted right exactly when it does not
      cross the end of the 32 bits, or is at most half a turn. */
  lemma ForwardStep(base: nat, previousRaw: nat, step: nat)
    requires previousRaw < WRAP && step < WRAP
    ensures var raw := (previousRaw + step) % WRAP;
            NextBase(base, previousRaw, raw) + raw == base + previousRaw + step
            <==> previousRaw + step < WRAP || step <= HALF + 1
  {
    if previousRaw + step < WRAP {
      assert (previousRaw + step) % WRAP == previousRaw + step;
    } else {
      assert (previousRaw + step) % WRAP == previousRaw + step - WRAP;
    }
  }

  /** The raw timestamp of a tick count moves with it. */
  lemma RawOfStep(ticks: nat, step: nat)
    ensures (ticks + step) % WRAP == (ticks % WRAP + step) % WRAP
  {
  }

  /** A steady step moves the count by the true number of ticks. */
  lemma SteadyStep(base: nat, was: nat, ticks: nat)
    requires was <= ticks <= was + HALF + 1
    ensures NextBase(base, was % WRAP, ticks % WRAP) + ticks % WRAP == base + was % WRAP + (ticks - was)
    ensures ticks % WRAP == was % WRAP <==> ticks == was
  {
    var step, raw := ticks - was, was % WRAP;
    RawOfStep(was, step);
    ForwardStep(base, raw, step);
    if raw + step < WRAP {
      assert (raw + step) % WRAP == raw + step;
    } else {
      assert (raw + step) % WRAP == raw + step - WRAP;
    }
  }

  /** What the trace has counted: first and last unwrapped values, the raw value of the
      last, and the sum of the deltas in between. */
  datatype Count = Count(first: nat, last: nat, raw: nat, deltaSum: nat, backwards: nat)

  /** The count of a steady stream is exact: its span is the true number of ticks, the
      sum of the deltas telescopes to it, and the measurement is not over. */
  ghost predicate Exact(c: Count, base: nat, firstTicks: nat, lastTicks: nat, limit: nat) {
    && c.raw == lastTicks % WRAP && c.last == base + c.raw && firstTicks <= lastTicks
    && c.last - c.first == c.deltaSum == lastTicks - firstTicks < limit
    && c.backwards == 0
  }

  /** One new timestamp in the count. */
  function Counted(c: Count, unwrapped: nat, raw: nat): Count {
    c.(last := unwrapped, raw := raw,
       deltaSum := c.deltaSum + if unwrapped >= c.last then unwrapped - c.last else 0,
       backwards := c.backwards + if unwrapped < c.last then 1 else 0)
  }

  /** Whatever the stream does, the deltas add up to the span exactly while no timestamp
      has gone backwards, and to more than the span once one has. */
  ghost predicate Conserved(c: Count) {
    c.last - c.first <= c.deltaSum && (c.backwards == 0 <==> c.last - c.first == c.deltaSum)
  }

  lemma ConservedAtFirst(raw: nat)
    ensures Conserved(Count(raw, raw, raw, 0, 0))
  {
  }

  lemma CountedConserves(c: Count, unwrapped: nat, raw: nat)
    requires Conserved(c)
    ensures Conserved(Counted(c, unwrapped, raw))
    ensures Counted(c, unwrapped, raw).last == unwrapped && Counted(c, unwrapped, raw).first == c.first
    ensures unwrapped < c.last <==> Counted(c, unwrapped, raw).backwards == c.backwards + 1
  {
  }

  lemma ExactStep(c: Count, base: nat, firstTicks: nat, was: nat, ticks: nat, limit: nat)
    requires Exact(c, base, firstTicks, was, limit) && was <= ticks <= was + HALF + 1
    ensures var raw := ticks % WRAP;
            var next := NextBase(base, c.raw, raw);
            var unwrapped := next + raw;
            && unwrapped >= c.last && unwrapped - c.first == ticks - firstTicks
            && (raw != c.raw <==> ticks != was)
            && (raw == c.raw ==> next == base)
            && (ticks - firstTicks < limit ==> Exact(Counted(c, unwrapped, raw), next, firstTicks, ticks, limit))
  {
    SteadyStep(base, was, ticks);
  }

  class Trace {
    const durationSec: nat
    var started: bool
    var complete: bool
    var count: Count
    var wrapBase: nat
    var packets: nat
    var markers: nat
    var timestamps: nat

    /** True ticks of the first and the last packet, and whether the stream has so far
        never gone back nor leapt by more than half a turn. */
    ghost var firstTicks: nat
    ghost var lastTicks: nat
    ghost var steady: bool

    ghost predicate Valid()
      reads this
    {
      && durationSec > 0
      && (if started then timestamps > 0
          else timestamps == 0 && !complete && wrapBase == 0 && count == Count(0, 0, 0, 0, 0) && steady)
      && (started && steady && !complete ==> Exact(count, wrapBase, firstTicks, lastTicks, durationSec * CLOCK_RATE))
    }

    constructor (duration: nat)
      requires duration > 0
      ensures Valid() && !started && durationSec == duration && steady && Conserved(count)
    {
      durationSec, started, complete, count, wrapBase := duration, false, false, Count(0, 0, 0, 0, 0), 0;
      packets, markers, timestamps := 0, 0, 0;
      firstTicks, lastTicks, steady := 0, 0, true;
    }

    /** rtsp_sync_process_rtp_buffer for a packet with a valid header.  On a steady stream
        the measurement ends with the first packet that is the full duration behind the
        first one, and then for good. */
    method Process(raw: nat, marker: bool, ghost ticks: nat)
      requires Valid() && Conserved(count) && raw == ticks % WRAP
      modifies this
      ensures Valid() && (old(complete) ==> unchanged(this))
      ensures !old(complete) ==>
                && started && lastTicks == ticks
                && steady == (old(steady) && (old(started) ==> old(lastTicks) <= ticks <= old(lastTicks) + HALF + 1))
                && firstTicks == (if old(started) then old(firstTicks) else ticks)
                && (steady ==> (complete <==> ticks - firstTicks >= durationSec * CLOCK_RATE))
                && packets == old(packets) + (if complete then 0 else 1)
                && markers == old(markers) + (if marker && !complete then 1 else 0)
      ensures Conserved(count)
    {
      hide NextBase, Exact, Counted, Conserved;
      if complete {
        return;
      }
      if !started {
        First(raw, marker, ticks);
        ConservedAtFirst(raw);
        return;
      }
      ghost var was := lastTicks;
      steady := steady && was <= ticks <= was + HALF + 1;
      lastTicks := ticks;
      if steady {
        ExactStep(count, wrapBase, firstTicks, was, ticks, durationSec * CLOCK_RATE);
        NotOver(count, wrapBase, firstTicks, was, durationSec * CLOCK_RATE);
      }
      var newTimestamp := raw != count.raw;
      wrapBase := NextBase(wrapBase, count.raw, raw);
      var unwrapped := wrapBase + raw;
      if newTimestamp && unwrapped >= count.first && unwrapped - count.first >= durationSec * CLOCK_RATE {
        complete := true;
        return;
      }
      packets := packets + 1;
      if marker {
        markers := markers + 1;
      }
      if newTimestamp {
        CountedConserves(count, unwrapped, raw);
        count := Counted(count, unwrapped, raw);
        timestamps := timestamps + 1;
      }
    }

    lemma NotOver(c: Count, base: nat, first: nat, last: nat, limit: nat)
      requires Exact(c, base, first, last, limit)
      ensures last - first < limit
    {
    }

    /** The first packet starts the count. */
    method First(raw: nat, marker: bool, ghost ticks: nat)
      requires Valid() && !started && raw == ticks % WRAP
      modifies this
      ensures Valid() && started && !complete && steady && firstTicks == lastTicks == ticks
      ensures packets == old(packets) + 1 && markers == old(markers) + if marker then 1 else 0
      ensures count == Count(raw, raw, raw, 0, 0)
    {
      started := true;
      count := Count(raw, raw, raw, 0, 0);
      packets, timestamps := packets + 1, 1;
      if marker {
        markers := markers + 1;
      }
      firstTicks, lastTicks := ticks, ticks;
    }
  }
}
