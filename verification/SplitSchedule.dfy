/** The recording split scheduler: every tick it measures how far each channel's file
boundary lies from the target second, and either moves on to the next target, issues the
start-up alignment split, or forces a split of all channels.

Clocks are parameters of a tick: the wall clock's minute, second and unix time, and two
readings of the monotonic clock.  How a split is carried out is not part of this model.
*/
module SplitSchedule {
  import opened Wrappers

  const MINUTE_MS := 60000
  const MAX_SNAPBACK_DRIFT_MS := 30000
  const GRACE_MS := 58000
  const MIN_INTERVAL_US := 5000000
  const UNSET := -1

  /** A position in the minute, or UNSET. */
  type Msec = m: int | -1 <= m < 60000

  /** One channel as a tick sees it: is it recorded, has it started, where in the minute
      its newest file began (or UNSET), and that file's running time if it is fresh. */
  datatype Channel = Channel(enabled: bool, disconnected: bool, started: bool, splitMsec: Msec,
                             runningTime: Option<nat>)

  predicate Live(c: Channel) { c.enabled && !c.disconnected }

  predicate Counted(c: Channel) { Live(c) && c.splitMsec != UNSET }

  // ----- time arithmetic

  /** split_rel_msec: milliseconds since the target second. */
  function RelMsec(sm: int, startSec: nat): int
    requires 0 <= sm < MINUTE_MS
  {
    (sm - startSec % 60 * 1000 + MINUTE_MS) % MINUTE_MS
  }

  /** The signed distance from the target second. */
  function SignedMsec(sm: int, startSec: nat): int
    requires 0 <= sm < MINUTE_MS
  {
    var rel := RelMsec(sm, startSec);
    if rel > MAX_SNAPBACK_DRIFT_MS then rel - MINUTE_MS else rel
  }

  function Abs(x: int): (a: nat)
    ensures a == x || a == -x
  {
    if x < 0 then -x else x
  }

  /** A position is graced when the target second is at most two seconds after it. */
  lemma JustBefore(sm: int, startSec: nat, ahead: int)
    requires 0 <= sm < MINUTE_MS && 0 < ahead <= MINUTE_MS && (sm + ahead) % 60000 == startSec % 60 * 1000
    ensures 0 <= RelMsec(sm, startSec) < 60000 && (startSec % 60 * 1000 + RelMsec(sm, startSec)) % 60000 == sm
    ensures RelMsec(sm, startSec) >= GRACE_MS <==> ahead <= 2000
  {
    assert (RelMsec(sm, startSec) + ahead) % 60000 == 0;
  }

  /** It is the circular distance: it leads from the target second to sm on the minute's
      circle, and no shorter way does. */
  lemma SignedIsCircular(sm: int, startSec: nat, way: int)
    requires 0 <= sm < MINUTE_MS
    ensures -MAX_SNAPBACK_DRIFT_MS < SignedMsec(sm, startSec) <= MAX_SNAPBACK_DRIFT_MS
    ensures (startSec % 60 * 1000 + SignedMsec(sm, startSec)) % MINUTE_MS == sm
    ensures (startSec % 60 * 1000 + way) % MINUTE_MS == sm ==> Abs(SignedMsec(sm, startSec)) <= Abs(way)
  {
    var signed := SignedMsec(sm, startSec);
    if (startSec % 60 * 1000 + way) % MINUTE_MS == sm {
      assert (way - signed) % MINUTE_MS == 0;
      var turns := (way - signed) / MINUTE_MS;
      assert way == signed + turns * MINUTE_MS;
    }
  }

  /** How many seconds the clock is past the target, folded once into the half hour. */
  function Diff(min: nat, sec: nat, targetMin: nat, startSec: nat): int {
    var diff := min * 60 + sec - (targetMin * 60 + startSec);
    if diff < -1800 then diff + 3600 else if diff > 1800 then diff - 3600 else diff
  }

  /** Folded, it lies within half an hour and leads back to the target within the hour. */
  lemma DiffIsFolded(min: nat, sec: nat, targetMin: nat, startSec: nat)
    requires min < 60 && sec < 60 && targetMin < 60 && startSec < 256
    ensures -1800 <= Diff(min, sec, targetMin, startSec) <= 1800
    ensures var plain := min * 60 + sec - (targetMin * 60 + startSec);
            -1800 <= plain <= 1800 ==> Diff(min, sec, targetMin, startSec) == plain
    ensures (min * 60 + sec - Diff(min, sec, targetMin, startSec)) % 3600 == (targetMin * 60 + startSec) % 3600
    ensures startSec < 60 ==>
              var at := (min * 60 + sec - Diff(min, sec, targetMin, startSec)) % 3600;
              at / 60 == targetMin && at % 60 == startSec
  {
  }

  // ----- alignment of the channels

  /** Every counted channel is near the target second. */
  ghost predicate OnTime(channels: seq<Channel>, startSec: nat, maxMsec: int)
  {
    forall i | 0 <= i < |channels| && Counted(channels[i]) :: Abs(SignedMsec(channels[i].splitMsec, startSec)) < maxMsec
  }

  ghost predicate AllFresh(channels: seq<Channel>) {
    forall i | 0 <= i < |channels| && Counted(channels[i]) :: channels[i].runningTime.Some?
  }

  /** What two channels are compared by: running times if all have fresh ones, in
      milliseconds, else the signed distances. */
  ghost function Apart(channels: seq<Channel>, startSec: nat, i: nat, j: nat): int
    requires i < |channels| && j < |channels| && Counted(channels[i]) && Counted(channels[j])
  {
    if AllFresh(channels) then (channels[i].runningTime.value - channels[j].runningTime.value) / 1000000
    else SignedMsec(channels[i].splitMsec, startSec) - SignedMsec(channels[j].splitMsec, startSec)
  }

  /** No two counted channels are diffMsec apart. */
  ghost predicate Together(channels: seq<Channel>, startSec: nat, diffMsec: int)
  {
    forall i: nat, j: nat | i < |channels| && j < |channels| && i != j && Counted(channels[i])
      && Counted(channels[j]) ::
      Apart(channels, startSec, i, j) < diffMsec
  }

  /** Is a forced split to wait: some counted channel is just before the target second
      and the tick just after it. */
  ghost predicate Graced(channels: seq<Channel>, startSec: nat, diff: int, maxMsec: int)
  {
    diff * 1000 < maxMsec
    && exists i :: 0 <= i < |channels| && Counted(channels[i]) && RelMsec(channels[i].splitMsec, startSec) >= GRACE_MS
  }

  /** high and low are the extreme signed distances of the first n channels. */
  ghost predicate IsRange(channels: seq<Channel>, n: nat, startSec: nat, h: nat, l: nat, high: int, low: int)
    requires n <= |channels|
  {
    && h < n && Counted(channels[h]) && SignedMsec(channels[h].splitMsec, startSec) == high
    && l < n && Counted(channels[l]) && SignedMsec(channels[l].splitMsec, startSec) == low
    && forall k | 0 <= k < n && Counted(channels[k]) :: low <= SignedMsec(channels[k].splitMsec, startSec) <= high
  }

  ghost predicate IsRunningRange(channels: seq<Channel>, n: nat, h: nat, l: nat, high: nat, low: nat)
    requires n <= |channels|
  {
    && h < n && Counted(channels[h]) && channels[h].runningTime == Some(high)
    && l < n && Counted(channels[l]) && channels[l].runningTime == Some(low)
    && forall k | 0 <= k < n && Counted(channels[k]) && channels[k].runningTime.Some? ::
         low <= channels[k].runningTime.value <= high
  }

  lemma WallSpread(channels: seq<Channel>, startSec: nat, h: nat, l: nat, high: int, low: int, diffMsec: int,
                   one: nat, two: nat)
    requires IsRange(channels, |channels|, startSec, h, l, high, low) && !AllFresh(channels)
    requires one < |channels| && two < |channels| && one != two && Counted(channels[one]) && Counted(channels[two])
    ensures high - low < diffMsec <==> Together(channels, startSec, diffMsec)
  {
    hide SignedMsec, RelMsec;
    if Together(channels, startSec, diffMsec) {
      assert Apart(channels, startSec, one, two) < diffMsec && Apart(channels, startSec, two, one) < diffMsec;
      if h != l { assert Apart(channels, startSec, h, l) < diffMsec; }
    }
  }

  lemma RunningSpread(channels: seq<Channel>, startSec: nat, h: nat, l: nat, high: nat, low: nat, diffMsec: int,
                      one: nat, two: nat)
    requires IsRunningRange(channels, |channels|, h, l, high, low) && AllFresh(channels)
    requires one < |channels| && two < |channels| && one != two && Counted(channels[one]) && Counted(channels[two])
    ensures (high - low) / 1000000 < diffMsec <==> Together(channels, startSec, diffMsec)
  {
    hide SignedMsec, RelMsec;
    if Together(channels, startSec, diffMsec) {
      assert Apart(channels, startSec, one, two) < diffMsec && Apart(channels, startSec, two, one) < diffMsec;
      if h != l { assert Apart(channels, startSec, h, l) < diffMsec; }
    }
  }

  lemma WallRangeStep(channels: seq<Channel>, i: nat, startSec: nat, first: bool, h: nat, l: nat, high: int, low: int)
    requires i < |channels| && Counted(channels[i])
    requires if first then forall k | 0 <= k < i :: !Counted(channels[k])
             else IsRange(channels, i, startSec, h, l, high, low)
    ensures var signed := SignedMsec(channels[i].splitMsec, startSec);
            var up, down := first || signed > high, first || signed < low;
            IsRange(channels, i + 1, startSec, if up then i else h, if down then i else l,
                    if up then signed else high, if down then signed else low)
  {
    hide SignedMsec, RelMsec;
  }

  lemma RunningRangeStep(channels: seq<Channel>, i: nat, first: bool, h: nat, l: nat, high: nat, low: nat)
    requires i < |channels| && Counted(channels[i]) && channels[i].runningTime.Some?
    requires if first then forall k | 0 <= k < i :: !Counted(channels[k])
             else IsRunningRange(channels, i, h, l, high, low)
    ensures var rt := channels[i].runningTime.value;
            var up, down := first || rt > high, first || rt < low;
            IsRunningRange(channels, i + 1, if up then i else h, if down then i else l,
                           if up then rt else high, if down then rt else low)
  {
  }

  lemma RangesSkip(channels: seq<Channel>, i: nat, startSec: nat)
    requires i < |channels| && !Counted(channels[i])
    ensures forall h, l, high, low ::
              IsRange(channels, i, startSec, h, l, high, low) ==> IsRange(channels, i + 1, startSec, h, l, high, low)
    ensures forall h, l, high, low ::
              IsRunningRange(channels, i, h, l, high, low) ==> IsRunningRange(channels, i + 1, h, l, high, low)
  {
    hide SignedMsec, RelMsec;
  }

  /** The measuring loop: one pass for the largest and smallest of both kinds. */
  method Measure(channels: seq<Channel>, startSec: nat, maxMsec: int, diffMsec: int) returns (aligned: bool)
    ensures aligned <==> OnTime(channels, startSec, maxMsec) && Together(channels, startSec, diffMsec)
  {
    hide SignedMsec, RelMsec, IsRange, IsRunningRange;
    aligned := true;
    var active: nat, usable := 0, true;
    var high, low := 0, 0;
    var rtMax: nat, rtMin: nat := 0, 0;
    ghost var h: nat, l: nat, rh: nat, rl: nat := 0, 0, 0, 0;
    ghost var one: nat, two: nat := 0, 0;
    var i: nat := 0;
    while i < |channels|
      invariant i <= |channels|
      invariant aligned <==> forall k | 0 <= k < i && Counted(channels[k]) ::
                Abs(SignedMsec(channels[k].splitMsec, startSec)) < maxMsec
      invariant usable <==> forall k | 0 <= k < i && Counted(channels[k]) :: channels[k].runningTime.Some?
      invariant active == 0 <==> forall k | 0 <= k < i :: !Counted(channels[k])
      invariant active == 1 ==> forall k | 0 <= k < i && Counted(channels[k]) :: k == one
      invariant active > 0 ==> one < i && Counted(channels[one])
      invariant active > 1 ==> two < i && two != one && Counted(channels[two])
      invariant active > 0 ==> IsRange(channels, i, startSec, h, l, high, low)
      invariant active > 0 && usable ==> IsRunningRange(channels, i, rh, rl, rtMax, rtMin)
    {
      var c := channels[i];
      if c.enabled && !c.disconnected && c.splitMsec != UNSET {
        var signed := SignedMsec(c.splitMsec, startSec);
        WallRangeStep(channels, i, startSec, active == 0, h, l, high, low);
        if Abs(signed) >= maxMsec {
          aligned := false;
        }
        ghost var up, down := active == 0 || signed > high, active == 0 || signed < low;
        if active == 0 || signed > high {
          high := signed;
        }
        if active == 0 || signed < low {
          low := signed;
        }
        h, l := if up then i else h, if down then i else l;
        if c.runningTime.Some? {
          var rt := c.runningTime.value;
          if usable { RunningRangeStep(channels, i, active == 0, rh, rl, rtMax, rtMin); }
          up, down := active == 0 || rt > rtMax, active == 0 || rt < rtMin;
          if active == 0 || rt > rtMax {
            rtMax := rt;
          }
          if active == 0 || rt < rtMin {
            rtMin := rt;
          }
          rh, rl := if up then i else rh, if down then i else rl;
        } else {
          usable := false;
        }
        if active == 0 {
          one := i;
        } else {
          two := i;
        }
        active := active + 1;
      } else {
        RangesSkip(channels, i, startSec);
      }
      i := i + 1;
    }
    if active > 1 {
      var skew := if usable then (rtMax - rtMin) / 1000000 else high - low;
      if usable {
        RunningSpread(channels, startSec, rh, rl, rtMax, rtMin, diffMsec, one, two);
      } else {
        WallSpread(channels, startSec, h, l, high, low, diffMsec, one, two);
      }
      if skew >= diffMsec {
        aligned := false;
      }
    }
  }

  method HasGrace(channels: seq<Channel>, startSec: nat, diff: int, maxMsec: int) returns (graced: bool)
    ensures graced <==> Graced(channels, startSec, diff, maxMsec)
  {
    graced := false;
    var i := 0;
    while i < |channels|
      invariant i <= |channels| && !graced
      invariant diff * 1000 < maxMsec ==>
                  forall k | 0 <= k < i && Counted(channels[k]) :: RelMsec(channels[k].splitMsec, startSec) < GRACE_MS
    {
      var c := channels[i];
      if c.enabled && !c.disconnected && c.splitMsec != UNSET && RelMsec(c.splitMsec, startSec) >= GRACE_MS
        && diff * 1000 < maxMsec {
        return true;
      }
      i := i + 1;
    }
  }

  /** A split asks every live channel for a new file; its position is not known yet. */
  function AfterSplit(channels: seq<Channel>): (after: seq<Channel>)
    ensures |after| == |channels|
    ensures forall i | 0 <= i < |channels| ::
              if channels[i].enabled && !channels[i].disconnected
              then after[i] == Channel(true, false, channels[i].started, UNSET, None)
              else after[i] == channels[i]
  {
    seq(|channels|, i requires 0 <= i < |channels| =>
      if Live(channels[i]) then channels[i].(splitMsec := UNSET, runningTime := None) else channels[i])
  }

  // ----- rounds

  datatype Kind = NotStarted | NoRound | Aligned | Initial | Forced

  predicate IsRound(k: Kind) { k == Aligned || k == Initial || k == Forced }

  /** A decided round: the minute of its tick, when it was decided, and when it was done. */
  datatype Round = Round(kind: Kind, min: nat, begin: int, end: int)

  /** The history of rounds: the start-up split comes before every forced round and only
      once; time goes on; and a forced round keeps its distance from the round before it
      when that was in the same minute. */
  ghost predicate Orderly(rounds: seq<Round>) {
    AllRounds(rounds) && InitialFirst(rounds) && InTime(rounds) && Spaced(rounds)
  }

  ghost predicate AllRounds(rounds: seq<Round>) {
    forall i | 0 <= i < |rounds| :: IsRound(rounds[i].kind) && rounds[i].begin <= rounds[i].end
  }

  ghost predicate InitialFirst(rounds: seq<Round>) {
    forall i, j | 0 <= i < j < |rounds| && rounds[j].kind == Initial :: rounds[i].kind == Aligned
  }

  ghost predicate InTime(rounds: seq<Round>) {
    forall i | 0 < i < |rounds| :: rounds[i - 1].end <= rounds[i].begin
  }

  ghost predicate Spaced(rounds: seq<Round>) {
    forall i | 0 < i < |rounds| && rounds[i].kind == Forced && rounds[i - 1].min == rounds[i].min ::
      rounds[i].begin - rounds[i - 1].end >= MIN_INTERVAL_US
  }

  /** The start-up alignment split happens at most once, and never after a forced round. */
  lemma InitialSplitOnce(rounds: seq<Round>, i: nat, j: nat)
    requires Orderly(rounds) && i < j < |rounds| && (rounds[i].kind == Initial || rounds[i].kind == Forced)
    ensures rounds[j].kind != Initial
  {
    assert rounds[i].kind != Aligned;
  }

  /** Two forced rounds with nothing but rounds of the same minute in between are at
      least five seconds apart. */
  lemma {:induction false} ForcedRoundsApart(rounds: seq<Round>, i: nat, j: nat)
    requires Orderly(rounds) && i < j < |rounds| && rounds[j].kind == Forced
    requires forall k | i <= k <= j :: rounds[k].min == rounds[j].min
    ensures rounds[j].begin - rounds[i].end >= MIN_INTERVAL_US
  {
    TimeGoesOn(rounds, i, j - 1);
  }

  lemma {:induction false} TimeGoesOn(rounds: seq<Round>, i: nat, j: nat)
    requires Orderly(rounds) && i <= j < |rounds|
    ensures rounds[i].end <= rounds[j].end
    decreases j
  {
    if i < j {
      TimeGoesOn(rounds, i, j - 1);
      assert rounds[j - 1].end <= rounds[j].begin <= rounds[j].end;
    }
  }

  class Scheduler {
    const duration: nat
    const maxMsec: int
    const diffMsec: int
    var started: bool
    var needFirstSplit: bool
    var targetMin: nat
    var lastSplitTs: int
    var lastSplitMin: int
    var targetEpoch: int
    ghost var rounds: seq<Round>

    ghost predicate Valid()
      reads this
    {
      && Orderly(rounds) && targetMin < 60
      && (!started ==> rounds == [])
      && (rounds != [] ==> var last := rounds[|rounds| - 1]; last.end == lastSplitTs && last.min == lastSplitMin)
      && (needFirstSplit ==> forall r | r in rounds :: r.kind == Aligned)
    }

    constructor (d: nat, most: int, apart: int)
      ensures Valid() && duration == d && maxMsec == most && diffMsec == apart && !started && rounds == []
    {
      duration, maxMsec, diffMsec := d, most, apart;
      started, needFirstSplit, targetMin, lastSplitTs, lastSplitMin, targetEpoch := false, false, 0, 0, -1, 0;
      rounds := [];
    }

    /** The first tick on which every live channel has started. */
    method Start(min: nat, sec: nat, startSec: nat, now: int, channels: seq<Channel>)
      requires Valid() && min < 60 && sec < 60 && startSec < 256
      modifies this`started, this`needFirstSplit, this`targetMin, this`lastSplitTs, this`lastSplitMin
      ensures Valid()
      ensures started <==>
              (old(started) || forall i | 0 <= i < |channels| && channels[i].enabled && !channels[i].disconnected ::
                 channels[i].started)
      ensures old(started) || !started ==> unchanged(this)
      ensures !old(started) && started ==>
                && needFirstSplit == (sec != startSec) && lastSplitTs == now && lastSplitMin == min
                && targetMin == if sec != startSec then (min + 1) % 60 else min
    {
      if !started {
        var i := 0;
        while i < |channels|
          invariant i <= |channels| && forall k | 0 <= k < i && Live(channels[k]) :: channels[k].started
        {
          if channels[i].enabled && !channels[i].disconnected && !channels[i].started {
            return;
          }
          i := i + 1;
        }
        targetMin := if sec != startSec then (min + 1) % 60 else min;
        needFirstSplit := sec != startSec;
        started := true;
        lastSplitTs, lastSplitMin := now, min;
      }
    }

    /** splitCheck.  Within five seconds of the last round a split that is due is forced
        exactly when the minute is another one.  The wall clock reads min, sec and unix;
        the monotonic clock reads t0 at the start, t1 before a forced split and t2 after
        the round. */
    method SplitCheck(min: nat, sec: nat, unix: int, startSec: nat, t0: int, t1: int, t2: int, channels: seq<Channel>)
      returns (kind: Kind, after: seq<Channel>)
      requires Valid() && min < 60 && sec < 60 && startSec < 256
      requires (started ==> lastSplitTs <= t0) && t0 <= t1 <= t2
      modifies this
      ensures Valid()
      ensures kind == NotStarted <==> !started
      ensures started <==>
              (old(started) || forall i | 0 <= i < |channels| && channels[i].enabled && !channels[i].disconnected ::
                 channels[i].started)
      ensures started ==>
                var first := !old(started);
                var due := if first then (if sec != startSec then (min + 1) % 60 else min) else old(targetMin);
                var need := if first then sec != startSec else old(needFirstSplit);
                var recent := if first then t1 - t0 < MIN_INTERVAL_US
                              else min == old(lastSplitMin) && t1 - old(lastSplitTs) < MIN_INTERVAL_US;
                var diff := Diff(min, sec, due, startSec);
                var aligned := OnTime(channels, startSec, maxMsec) && Together(channels, startSec, diffMsec);
                && targetEpoch == unix - diff
                && targetMin == (if IsRound(kind) then (due + duration) % 60 else due)
                && (kind == Initial <==> diff >= 0 && aligned && need)
                && (kind == Aligned <==> diff >= 0 && aligned && !need)
                && (kind == Forced <==> diff >= 0 && !aligned && !Graced(channels, startSec, diff, maxMsec) && !recent)
                && needFirstSplit == (need && kind != Initial && kind != Forced)
      ensures var diff := Diff(min, sec, old(targetMin), startSec);
              var aligned := OnTime(channels, startSec, maxMsec) && Together(channels, startSec, diffMsec);
              var late := diff >= 0 && !aligned && !Graced(channels, startSec, diff, maxMsec);
              old(started) && late && t1 - old(lastSplitTs) < MIN_INTERVAL_US ==>
                (kind == Forced <==> min != old(lastSplitMin))
      ensures rounds == old(rounds) + if IsRound(kind) then [Round(kind, min, t1, t2)] else []
      ensures after == if kind == Initial || kind == Forced then AfterSplit(channels) else channels
      ensures IsRound(kind) ==> lastSplitTs == t2 && lastSplitMin == min
      ensures !IsRound(kind) && started ==>
              if old(started) then lastSplitTs == old(lastSplitTs) && lastSplitMin == old(lastSplitMin)
                                            else lastSplitTs == t0 && lastSplitMin == min
    {
      hide OnTime, Together, Graced, Diff, AfterSplit, Orderly;
      after := channels;
      Start(min, sec, startSec, t0, channels);
      if !started {
        return NotStarted, after;
      }
      var diff := Diff(min, sec, targetMin, startSec);
      targetEpoch := unix - diff;
      if diff < 0 {
        return NoRound, after;
      }
      var aligned := Measure(channels, startSec, maxMsec, diffMsec);
      if aligned {
        kind := Aligned;
        if needFirstSplit {
          after := AfterSplit(channels);
          needFirstSplit := false;
          kind := Initial;
        }
        FinishRound(kind, min, t1, t2);
        return;
      }
      var graced := HasGrace(channels, startSec, diff, maxMsec);
      if graced || (min == lastSplitMin && t1 - lastSplitTs < MIN_INTERVAL_US) {
        return NoRound, after;
      }
      after := AfterSplit(channels);
      needFirstSplit := false;
      FinishRound(Forced, min, t1, t2);
      return Forced, after;
    }

    /** The round is decided: on to the next target. */
    method FinishRound(kind: Kind, min: nat, t1: int, t2: int)
      requires Orderly(rounds) && started && targetMin < 60 && IsRound(kind)
      requires lastSplitTs <= t1 <= t2
      requires rounds != [] ==> var last := rounds[|rounds| - 1]; last.end == lastSplitTs && last.min == lastSplitMin
      requires kind == Initial || needFirstSplit ==> forall r | r in rounds :: r.kind == Aligned
      requires kind == Forced ==> !(min == lastSplitMin && t1 - lastSplitTs < MIN_INTERVAL_US)
      requires needFirstSplit ==> kind == Aligned
      modifies this`targetMin, this`lastSplitTs, this`lastSplitMin, this`rounds
      ensures Valid() && targetMin == (old(targetMin) + duration) % 60 && lastSplitTs == t2 && lastSplitMin == min
      ensures rounds == old(rounds) + [Round(kind, min, t1, t2)]
    {
      hide Orderly;
      OrderlyWithOneMore(rounds, Round(kind, min, t1, t2));
      targetMin := (targetMin + duration) % 60;
      lastSplitTs, lastSplitMin := t2, min;
      rounds := rounds + [Round(kind, min, t1, t2)];
    }
  }

  lemma InitialFirstWithOneMore(rounds: seq<Round>, r: Round)
    requires InitialFirst(rounds) && (r.kind == Initial ==> forall x | x in rounds :: x.kind == Aligned)
    ensures InitialFirst(rounds + [r])
  {
    assert forall i | 0 <= i < |rounds| :: rounds[i] in rounds;
  }

  lemma InTimeWithOneMore(rounds: seq<Round>, r: Round)
    requires InTime(rounds) && (rounds != [] ==> rounds[|rounds| - 1].end <= r.begin)
    ensures InTime(rounds + [r])
  {
  }

  lemma SpacedWithOneMore(rounds: seq<Round>, r: Round)
    requires Spaced(rounds)
    requires rounds != [] && r.kind == Forced && rounds[|rounds| - 1].min == r.min ==>
               r.begin - rounds[|rounds| - 1].end >= MIN_INTERVAL_US
    ensures Spaced(rounds + [r])
  {
  }

  lemma OrderlyWithOneMore(rounds: seq<Round>, r: Round)
    requires Orderly(rounds) && IsRound(r.kind) && r.begin <= r.end
    requires r.kind == Initial ==> forall x | x in rounds :: x.kind == Aligned
    requires rounds != [] ==> rounds[|rounds| - 1].end <= r.begin
    requires rounds != [] && r.kind == Forced && rounds[|rounds| - 1].min == r.min ==>
               r.begin - rounds[|rounds| - 1].end >= MIN_INTERVAL_US
    ensures Orderly(rounds + [r])
  {
    hide InitialFirst, InTime, Spaced;
    InitialFirstWithOneMore(rounds, r);
    InTimeWithOneMore(rounds, r);
    SpacedWithOneMore(rounds, r);
  }

  /** Across jumps of the wall clock the five seconds do not hold: three forced rounds in
      minutes 10, 11 and 10 again, within one second. */
  method ClockJumpsBringForcedRoundsTogether() returns (s: Scheduler)
    ensures s.Valid() && |s.rounds| == 3 && s.rounds[0].kind == s.rounds[2].kind == Forced
    ensures s.rounds[0].min == s.rounds[2].min && s.rounds[2].begin - s.rounds[0].end == 1000000
  {
    hide Orderly, OnTime, Graced, Together, AfterSplit;
    s := new Scheduler(58, 500, 500);
    var late := [Channel(true, false, true, 20000, None)];
    OffByTwenty(late);
    var kind, after := s.SplitCheck(10, 0, 0, 0, 0, 0, 0, late);
    assert kind == NoRound && s.targetMin == 10;
    kind, after := s.SplitCheck(10, 5, 5, 0, 5000000, 5000000, 5000000, late);
    assert kind == Forced && s.targetMin == 8;
    kind, after := s.SplitCheck(11, 0, 60, 0, 5500000, 5500000, 5500000, late);
    assert kind == Forced && s.targetMin == 6;
    kind, after := s.SplitCheck(10, 0, 0, 0, 6000000, 6000000, 6000000, late);
    assert kind == Forced;
  }

  lemma OffByTwenty(late: seq<Channel>)
    requires late == [Channel(true, false, true, 20000, None)]
    ensures !OnTime(late, 0, 500) && forall diff :: !Graced(late, 0, diff, 500)
  {
    assert Counted(late[0]) && SignedMsec(20000, 0) == 20000;
  }
}
