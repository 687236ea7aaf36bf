/** One RTSP channel: publication and retirement of its appsrc, back-pressure, and
the gate that resumes on a keyframe.

Each method is one section under the channel's lock, or one step of the streaming
thread outside it; any thread may take any of them in any order.  A media is known
by its generation number and its own appsrc element.  Reference counts, caps and
the tracing hooks are not part of this model.
*/
module MediaGate {
  import opened Wrappers

  // ----- runs of samples

  /** Offers are sample numbers in order; each is a keyframe or directly follows the
      sample offered before it. */
  ghost predicate Runs(offers: seq<nat>, samples: seq<bool>) {
    && (forall p | 0 <= p < |offers| :: offers[p] < |samples|)
    && (forall p | 0 <= p < |offers| - 1 :: offers[p] < offers[p + 1])
    && (forall p | 0 <= p < |offers| :: samples[offers[p]] || (p > 0 && offers[p] == offers[p - 1] + 1))
  }

  /** May sample i be offered next: it is a keyframe, or follows the last offer. */
  ghost predicate Continues(offers: seq<nat>, samples: seq<bool>, i: nat) {
    && i < |samples|
    && (offers != [] ==> offers[|offers| - 1] < i)
    && (samples[i] || (offers != [] && offers[|offers| - 1] + 1 == i))
  }

  lemma RunsExtend(offers: seq<nat>, samples: seq<bool>, i: nat)
    requires Runs(offers, samples) && Continues(offers, samples, i)
    ensures Runs(offers + [i], samples)
  {
  }

  lemma NoOffersRun(samples: seq<bool>)
    ensures Runs([], samples)
  {
  }

  lemma RunsWithMoreSamples(offers: seq<nat>, samples: seq<bool>, key: bool)
    requires Runs(offers, samples)
    ensures Runs(offers, samples + [key])
  {
    assert forall p | 0 <= p < |offers| :: offers[p] < |samples| && (samples + [key])[offers[p]] == samples[offers[p]];
  }

  /** Every offered sample can be decoded: it comes with its keyframe and with every
      sample in between, without a gap. */
  lemma {:induction false} EveryOfferHasItsKeyframe(offers: seq<nat>, samples: seq<bool>, p: nat) returns (q: nat)
    requires Runs(offers, samples) && p < |offers|
    ensures q <= p && samples[offers[q]]
    ensures forall k | q <= k <= p :: offers[k] == offers[q] + (k - q)
  {
    if samples[offers[p]] {
      q := p;
    } else {
      q := EveryOfferHasItsKeyframe(offers, samples, p - 1);
      assert offers[p] == offers[p - 1] + 1;
    }
  }

  // ----- the channel

  /** The streaming thread's own copy of a gated sample, until it is pushed. */
  datatype Snapshot = Snapshot(appsrc: nat, sample: nat)

  /** Publications: every generation has its own appsrc, and the current pair is one
      of them, not detached before. */
  ghost predicate Publications(appsrc: Option<nat>, generation: Option<nat>, published: map<nat, nat>,
                               retired: set<nat>,
                               offered: map<nat, seq<nat>>, serial: nat) {
    && appsrc.Some? == generation.Some?
    && (generation.Some? ==> generation.value in published && published[generation.value] == appsrc.value
                             && generation.value !in retired)
    && (forall g, h | g in published && h in published && published[g] == published[h] :: g == h)
    && (forall g | g in published :: g <= serial && published[g] in offered)
    && (forall g | g in retired :: g in published)
  }

  lemma NewPublication(appsrc: Option<nat>, generation: Option<nat>, published: map<nat, nat>, retired: set<nat>,
                       offered: map<nat, seq<nat>>, serial: nat, g: nat, a: nat)
    requires Publications(appsrc, generation, published, retired, offered, serial)
    requires g <= serial && g !in published && a !in offered
    ensures Publications(Some(a), Some(g), published[g := a],
                         retired + (if generation.Some? then {generation.value} else {}), offered[a := []], serial)
  {
  }

  /** The samples offered to each appsrc, and what the gate may admit next: while it
      is open, the last sample went to the current appsrc. */
  ghost predicate Gated(offered: map<nat, seq<nat>>, samples: seq<bool>, snapshot: Option<Snapshot>,
                        appsrc: Option<nat>,
                        waitKeyframe: bool, interrupted: bool) {
    && (forall a | a in offered :: Runs(offered[a], samples))
    && (snapshot.Some? ==> snapshot.value.sample == |samples| - 1)
    && (snapshot.Some? && !interrupted ==>
          snapshot.value.appsrc in offered && Continues(offered[snapshot.value.appsrc], samples, snapshot.value.sample))
    && (appsrc.Some? && !waitKeyframe && !interrupted ==>
          && samples != []
          && (if snapshot.Some? then snapshot.value.appsrc == appsrc.value
              else appsrc.value in offered && offered[appsrc.value] != []
                   && offered[appsrc.value][|offered[appsrc.value]| - 1] == |samples| - 1))
  }

  lemma GatedAfterPublish(offered: map<nat, seq<nat>>, samples: seq<bool>, snapshot: Option<Snapshot>,
                          appsrc: Option<nat>,
                          waitKeyframe: bool, interrupted: bool, a: nat)
    requires Gated(offered, samples, snapshot, appsrc, waitKeyframe, interrupted) && a !in offered
    ensures Gated(offered[a := []], samples, snapshot, Some(a), true, interrupted)
  {
    NoOffersRun(samples);
  }

  lemma GatedAfterGate(offered: map<nat, seq<nat>>, samples: seq<bool>, appsrc: Option<nat>, waitKeyframe: bool,
                       interrupted: bool, key: bool, full: bool)
    requires Gated(offered, samples, None, appsrc, waitKeyframe, interrupted)
    requires appsrc.Some? ==> appsrc.value in offered
    ensures var drop := full || (waitKeyframe && !key);
            Gated(offered, samples + [key],
                  if !drop && appsrc.Some? then Some(Snapshot(appsrc.value, |samples|)) else None,
                  appsrc, drop, interrupted)
  {
    hide Runs;
    forall a | a in offered
      ensures Runs(offered[a], samples + [key])
    {
      RunsWithMoreSamples(offered[a], samples, key);
    }
    var drop := full || (waitKeyframe && !key);
    if !drop && appsrc.Some? && !interrupted {
      RunsBelow(offered[appsrc.value], samples);
      assert Continues(offered[appsrc.value], samples + [key], |samples|);
    }
  }

  lemma RunsBelow(offers: seq<nat>, samples: seq<bool>)
    requires Runs(offers, samples)
    ensures offers != [] ==> offers[|offers| - 1] < |samples|
  {
  }

  lemma GatedAfterPush(offered: map<nat, seq<nat>>, samples: seq<bool>, s: Snapshot, appsrc: Option<nat>,
                       waitKeyframe: bool)
    requires Gated(offered, samples, Some(s), appsrc, waitKeyframe, false)
    ensures s.appsrc in offered
    ensures Gated(offered[s.appsrc := offered[s.appsrc] + [s.sample]], samples, None, appsrc, waitKeyframe, false)
  {
    hide Runs;
    RunsExtend(offered[s.appsrc], samples, s.sample);
  }

  /** The full flag belongs to the current generation. */
  ghost predicate FlagOwned(full: bool, generation: Option<nat>, fullBy: nat) {
    full && generation.Some? ==> fullBy == generation.value
  }

  /** rtsp_sync_generation_is_active, on the flags of all generations. */
  predicate IsActive(g: nat, active: set<nat>, cancelled: set<nat>) { g in active && g !in cancelled }

  /** The samples offered to each appsrc, the appsrc of each published generation, the
      generations detached for good, and the generation that last raised the full flag. */
  datatype History = History(offered: map<nat, seq<nat>>, published: map<nat, nat>, retired: set<nat>, fullBy: nat)

  class Channel {
    const video: bool
    var appsrc: Option<nat>
    var generation: Option<nat>
    var serial: nat
    var full: bool
    var waitKeyframe: bool
    var interrupted: bool
    var active: set<nat>
    var cancelled: set<nat>
    var snapshot: Option<Snapshot>

    /** The keyframe flags of the samples pulled so far; a sample is known by its position. */
    var samples: seq<bool>

    ghost var history: History

    ghost predicate Valid()
      reads this
    {
      && Publications(appsrc, generation, history.published, history.retired, history.offered, serial)
      && FlagOwned(full, generation, history.fullBy)
      && (snapshot.Some? ==> snapshot.value.appsrc in history.offered)
      && (video ==> Gated(history.offered, samples, snapshot, appsrc, waitKeyframe, interrupted))
    }

    constructor (isVideo: bool)
      ensures Valid() && video == isVideo && appsrc == None && !full && samples == []
    {
      video, appsrc, generation, serial := isVideo, None, None, 0;
      full, waitKeyframe, interrupted, active, cancelled, snapshot := false, false, false, {}, {}, None;
      samples, history := [], History(map[], map[], {}, 0);
    }

    // ----- media_configure

    /** The section that numbers a new generation. */
    method NewGeneration() returns (g: nat)
      requires Valid()
      modifies this`serial
      ensures Valid() && g == old(serial) + 1 && g !in history.published && serial == g
    {
      serial := serial + 1;
      g := serial;
    }

    /** The section that publishes a new media's appsrc, which is a new element. */
    method Publish(g: nat, a: nat) returns (previous: Option<nat>)
      requires Valid() && 0 < g <= serial && g !in history.published && a !in history.offered
      modifies this
      ensures unchanged(this`serial, this`interrupted, this`cancelled, this`snapshot, this`samples)
      ensures Valid() && appsrc == Some(a) && generation == Some(g) && previous == old(generation)
      ensures !full && waitKeyframe == video && active == old(active) + (if g !in cancelled then {g} else {})
      ensures var h := old(history);
              history == History(h.offered[a := []], h.published[g := a],
                                 h.retired + (if previous.Some? then {previous.value} else {}), h.fullBy)
    {
      hide Publications, Gated;
      if video { GatedAfterPublish(history.offered, samples, snapshot, appsrc, waitKeyframe, interrupted, a); }
      previous := generation;
      NewPublication(appsrc, generation, history.published, history.retired, history.offered, serial, g, a);
      ghost var retired := history.retired + if generation.Some? then {generation.value} else {};
      history := History(history.offered[a := []], history.published[g := a], retired, history.fullBy);
      appsrc, generation := Some(a), Some(g);
      if g !in cancelled {
        active := active + {g};
      }
      full := false;
      waitKeyframe := video;
    }

    /** The section taken when a media has no appsrc: the old one is detached. */
    method DetachStale() returns (previous: Option<nat>)
      requires Valid()
      modifies this`appsrc, this`generation, this`history
      ensures Valid() && appsrc == None && generation == None && previous == old(generation)
      ensures history == old(history).(retired := history.retired)
      ensures history.retired == old(history).retired + (if previous.Some? then {previous.value} else {})
    {
      previous := generation;
      history := history.(retired := history.retired + if generation.Some? then {generation.value} else {});
      appsrc, generation := None, None;
    }

    /** rtsp_sync_generation_deactivate. */
    method Deactivate(g: nat)
      requires Valid()
      modifies this`active, this`cancelled
      ensures Valid() && active == old(active) - {g} && cancelled == old(cancelled) + {g}
    {
      cancelled := cancelled + {g};
      active := active - {g};
    }

    // ----- media_unprepared_cb

    /** What a media can bring along: the pair it was published with, or nothing that
        ever was published. */
    ghost predicate IsMedia(g: Option<nat>, a: Option<nat>, own: Option<nat>)
      reads this`history
    {
      match own
      case Some(h) =>
        && h in history.published && (g.Some? ==> g == own) && (a.Some? ==> a.value == history.published[h])
        && (g == None ==> h in history.retired)
      case None => g == None && (a.Some? ==> forall h | h in history.published :: history.published[h] != a.value)
    }

    /** Its locked section, for a media with its appsrc a (if it can still be looked up)
        and its generation g (if it was not taken before); own is the generation it was
        published with, none if its configuration gave up first.  The appsrc of any other
        media stays where it is, and the comparison by element never decides: it detaches
        exactly when the media's generation is the current one. */
    method Unprepared(g: Option<nat>, a: Option<nat>, ghost own: Option<nat>) returns (detached: bool)
      requires Valid() && IsMedia(g, a, own)
      modifies this`appsrc, this`generation, this`history
      ensures Valid() && (own.Some? ==> own.value in history.retired)
      ensures detached <==> own.Some? && old(generation) == own
      ensures if detached then appsrc == None && generation == None else unchanged(this`appsrc, this`generation)
      ensures history == old(history).(retired := history.retired) && (own == None ==> unchanged(this`history))
    {
      detached := false;
      if g.Some? && generation == g {
        appsrc, generation := None, None;
        detached := true;
      } else if a.Some? && appsrc == a {
        appsrc := None;
        detached := true;
      }
      if own.Some? {
        history := history.(retired := history.retired + {own.value});
      }
    }

    // ----- back-pressure

    /** enough_data of a generation. */
    method EnoughData(g: nat)
      requires Valid()
      modifies this`full, this`history
      ensures Valid()
      ensures if generation == Some(g) && g in active && g !in cancelled then full else full == old(full)
      ensures history == old(history).(fullBy := history.fullBy)
    {
      if IsActive(g, active, cancelled) && generation == Some(g) {
        full := true;
        history := history.(fullBy := g);
      }
    }

    /** need_data of a generation: is a keyframe wanted. */
    method NeedData(g: nat) returns (wantKey: bool)
      requires Valid()
      modifies this`full
      ensures Valid()
      ensures if generation == Some(g) && g in active && g !in cancelled then !full && wantKey == waitKeyframe
              else full == old(full) && !wantKey
    {
      wantKey := false;
      if IsActive(g, active, cancelled) && generation == Some(g) {
        full := false;
        wantKey := waitKeyframe;
      }
    }

    // ----- the streaming thread

    /** new_sample_handler under the lock: is the sample dropped, and is a keyframe
        to be asked for. */
    method Gate(key: bool) returns (drop: bool, wantKey: bool)
      requires Valid() && snapshot == None
      modifies this`waitKeyframe, this`snapshot, this`samples
      ensures Valid() && samples == old(samples) + [key]
      ensures drop <==> full || (old(waitKeyframe) && !key)
      ensures waitKeyframe <==> full || (old(waitKeyframe) && !key)
      ensures wantKey <==> !full && old(waitKeyframe) && !key
      ensures snapshot == if !drop && appsrc.Some? then Some(Snapshot(appsrc.value, |samples| - 1)) else None
    {
      hide Gated;
      if video { GatedAfterGate(history.offered, samples, appsrc, waitKeyframe, interrupted, key, full); }
      drop, wantKey := false, false;
      if full {
        waitKeyframe := true;
        drop := true;
      } else if waitKeyframe {
        if key {
          waitKeyframe := false;
        } else {
          drop := true;
          wantKey := true;
        }
      }
      samples := samples + [key];
      if !drop && appsrc.Some? {
        snapshot := Some(Snapshot(appsrc.value, |samples| - 1));
      }
    }

    /** The push outside the lock, to the appsrc of the snapshot, unless the
        program is being interrupted. */
    method Push()
      requires Valid() && snapshot.Some?
      modifies this`snapshot, this`history
      ensures Valid() && snapshot == None
      ensures interrupted ==> history.offered == old(history).offered
      ensures !interrupted ==>
                var s, offered := old(snapshot).value, old(history).offered;
                s.appsrc in offered && history.offered == offered[s.appsrc := offered[s.appsrc] + [s.sample]]
    {
      if !interrupted {
        if video { GatedAfterPush(history.offered, samples, snapshot.value, appsrc, waitKeyframe); }
        var s := snapshot.value;
        history := history.(offered := history.offered[s.appsrc := history.offered[s.appsrc] + [s.sample]]);
      }
      snapshot := None;
    }

    /** The interrupt flag is only ever raised. */
    method Interrupt()
      requires Valid()
      modifies this`interrupted
      ensures Valid() && interrupted
    {
      interrupted := true;
    }
  }
}
