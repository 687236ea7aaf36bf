/** The two-domain prepare transaction of the MAX9296 deserialisers.

One call reads and classifies the status of both CSI domains, lets one worker
thread per domain publish a prepare lease, joins the workers, reads again and
decides: OK, LEGACY, PARTIAL, or a negative error with every lease it published
cancelled.  The driver's replies, thread creation, failing joins and the order
of the workers' stores are arbitrary.  Every driver call is recorded in a log;
the verdict is specified on the log and the report alone.
*/
module Prepare {
  import opened Wrappers
  import opened PrepareStatus

  const EIO := 5
  const EAGAIN := 11
  const ENOENT := 2
  const EBUSY := 16
  const EPROTO := 71
  const EOVERFLOW := 75
  const ESTALE := 116

  const OK := 0
  const LEGACY := 1
  const PARTIAL := 2

  const BUFFER_SIZE := 1024
  const CANCEL := "0\n"

  datatype Disposition = Warm | RefreshReady | NewPrepare | Fail

  datatype Action = Skipped | LegacyPath | WarmReused | ReadyRefreshed | ColdPrepared | ActionFailed

  datatype Input = Input(width: nat, height: nat, fps: seq<nat>, channelEnabled: seq<nat>, generation: nat)

  datatype Target = Target(active: bool, width: nat, height: nat, fps: nat, enable: nat, mode: string, table: string)

  datatype Domain = Domain(active: bool, rollbackOwned: bool, action: Action, error: int, rollbackError: int,
                           before: Status, after: Status)

  /** The ranges of the C types of the input structure. */
  predicate ValidInput(i: Input) {
    && |i.fps| == 2 && |i.channelEnabled| == 4
    && i.width <= MAX_U32 && i.height <= MAX_U32 && i.generation <= MAX_U64
    && (forall k | 0 <= k < 2 :: i.fps[k] <= MAX_U32)
    && (forall k | 0 <= k < 4 :: i.channelEnabled[k] <= 255)
  }

  // ----- targets

  predicate KnownResolution(width: nat, height: nat) {
    || (width == 640 && height == 360)
    || (width == 1280 && height == 720)
    || (width == 1920 && height == 1080)
  }

  function MaxFps(width: nat, height: nat): nat {
    if width == 640 && height == 360 then 120 else if height == 720 then 60 else 30
  }

  function TargetOf(i: Input, csi: nat): Target
    requires ValidInput(i) && csi < 2
  {
    var left, right := i.channelEnabled[2 * csi], i.channelEnabled[2 * csi + 1];
    var enable := left + 2 * right;
    Target(enable != 0, if enable == 3 then 2 * i.width else i.width, i.height, i.fps[csi], enable,
           if enable == 3 then "dual-wide" else if enable == 0 then "none" else "single",
           if enable == 3 then "dual" else if enable == 1 then "left" else if enable == 2 then "right" else "none")
  }

  /** A target describes its two channels: which are on, the frame they fill together,
      and the name of the driver table for them. */
  lemma TargetDescribesChannels(i: Input, csi: nat)
    requires ValidInput(i) && csi < 2 && i.channelEnabled[2 * csi] <= 1 && i.channelEnabled[2 * csi + 1] <= 1
    ensures var t, left, right := TargetOf(i, csi), i.channelEnabled[2 * csi] == 1, i.channelEnabled[2 * csi + 1] == 1;
            && (t.active <==> left || right)
            && (t.enable % 2 == 1 <==> left) && (t.enable / 2 == 1 <==> right) && t.enable < 4
            && t.width == (if left && right then i.width + i.width else i.width) && t.height == i.height
            && (t.table == "dual" <==> left && right) && (t.table == "left" <==> left && !right)
            && (t.table == "right" <==> !left && right) && (t.table == "none" <==> !left && !right)
            && (t.mode == "dual-wide" <==> left && right) && (t.mode == "none" <==> !left && !right)
  {
  }

  /** The requests that can be prepared: a known resolution, switches of 0 or 1,
      a supported rate on every active domain, and one rate when both are active. */
  predicate Buildable(i: Input)
    requires ValidInput(i)
  {
    && i.generation != 0 && KnownResolution(i.width, i.height)
    && (forall k | 0 <= k < 4 :: i.channelEnabled[k] <= 1)
    && (forall c: nat | c < 2 && TargetOf(i, c).active :: 0 < i.fps[c] <= MaxFps(i.width, i.height))
    && (TargetOf(i, 0).active && TargetOf(i, 1).active ==> i.fps[0] == i.fps[1])
  }

  lemma TargetRate(i: Input, csi: nat)
    requires ValidInput(i) && csi < 2
    ensures TargetOf(i, csi).fps == i.fps[csi]
  {
  }

  /** The buildable requests on the input alone. */
  lemma BuildableIs(i: Input)
    requires ValidInput(i)
    ensures Buildable(i) <==>
            && i.generation != 0
            && (i.width, i.height) in {(640, 360), (1280, 720), (1920, 1080)}
            && (forall k | 0 <= k < 4 :: i.channelEnabled[k] <= 1)
            && (i.channelEnabled[0] == 1 || i.channelEnabled[1] == 1 ==> RateFits(i.height, i.fps[0]))
            && (i.channelEnabled[2] == 1 || i.channelEnabled[3] == 1 ==> RateFits(i.height, i.fps[1]))
            && ((i.channelEnabled[0] == 1 || i.channelEnabled[1] == 1)
                && (i.channelEnabled[2] == 1 || i.channelEnabled[3] == 1)
                ==> i.fps[0] == i.fps[1])
  {
    assert TargetOf(i, 0).active <==> i.channelEnabled[0] != 0 || i.channelEnabled[1] != 0;
    assert TargetOf(i, 1).active <==> i.channelEnabled[2] != 0 || i.channelEnabled[3] != 0;
  }

  predicate RateFits(height: nat, fps: nat) {
    1 <= fps && (height == 360 ==> fps <= 120) && (height == 720 ==> fps <= 60) && (height == 1080 ==> fps <= 30)
  }

  method BuildTargets(i: Input) returns (rc: int, targets: seq<Target>)
    requires ValidInput(i)
    ensures rc == 0 <==> Buildable(i)
    ensures rc == 0 ==> targets == [TargetOf(i, 0), TargetOf(i, 1)]
    ensures rc != 0 ==> rc == -EINVAL
  {
    hide KnownResolution, MaxFps, TargetOf;
    targets := [];
    if i.generation == 0 || !KnownResolution(i.width, i.height) {
      return -EINVAL, targets;
    }
    var maxFps := MaxFps(i.width, i.height);
    for channel := 0 to 4
      invariant forall k | 0 <= k < channel :: i.channelEnabled[k] <= 1
    {
      if i.channelEnabled[channel] > 1 {
        return -EINVAL, targets;
      }
    }
    for csi := 0 to 2
      invariant |targets| == csi
      invariant forall c: nat | c < csi :: targets[c] == TargetOf(i, c)
      invariant forall c: nat | c < csi && TargetOf(i, c).active :: 0 < i.fps[c] <= maxFps
    {
      var target := TargetOf(i, csi);
      assert target.fps == i.fps[csi] by { TargetRate(i, csi); }
      targets := targets + [target];
      if target.active && (target.fps == 0 || target.fps > maxFps) {
        return -EINVAL, targets;
      }
    }
    TargetRate(i, 0);
    TargetRate(i, 1);
    if targets[0].active && targets[1].active && targets[0].fps != targets[1].fps {
      return -EINVAL, targets;
    }
    rc := 0;
  }

  // ----- classification and validation

  /** The text before the first NUL, as strcmp sees it. */
  function CString(s: string): (t: string)
    ensures t <= s && '\0' !in t && (t != s ==> s[|t|] == '\0')
  {
    if s == [] || s[0] == '\0' then [] else [s[0]] + CString(s[1..])
  }

  predicate HasFingerprint(t: Target, s: Status) {
    && CString(s.mode) == CString(t.mode) && CString(s.table) == CString(t.table)
    && s.width == t.width && s.height == t.height && s.fps == t.fps && s.code == 0x2006 && s.enable == t.enable
  }

  datatype Class = Class(rc: int, disposition: Disposition)

  function Classify(t: Target, s: Status): Class {
    if s.state == Preparing then Class(-EBUSY, Fail)
    else if s.lease != 0 then
      if s.state != Ready then Class(-EPROTO, Fail)
      else if s.matched != 0 && s.workerErrno == 0 && s.generation != 0 && s.epoch != 0 && HasFingerprint(t, s)
      then Class(0, RefreshReady)
      else Class(0, Fail)
    else if s.state == Consumed then
      if s.workerErrno != 0 then Class(0, Fail)
      else if s.matched != 0 && s.generation != 0 && s.epoch != 0 && HasFingerprint(t, s) then Class(0, Warm)
      else Class(0, NewPrepare)
    else if s.state == Ready then Class(0, Fail)
    else if s.workerErrno == 0 then Class(0, NewPrepare)
    else Class(0, Fail)
  }

  function FailedDispositionError(s: Status): (e: int)
    ensures e < 0
  {
    if s.workerErrno < 0 then s.workerErrno else if s.workerErrno != 0 then -EIO else -ESTALE
  }

  /** The error classification leaves in a domain; 0 lets the call go on. */
  function ClassifyError(t: Target, s: Status): (e: int)
    ensures e <= 0
    ensures e == 0 <==> Classify(t, s).disposition != Fail
  {
    var c := Classify(t, s);
    if c.rc < 0 then c.rc else if c.disposition == Fail then FailedDispositionError(s) else 0
  }

  function ValidateFinal(t: Target, before: Status, after: Status, d: Disposition, generation: nat): (e: int)
    ensures e <= 0
  {
    var warm := d == Warm;
    var expected := if d == NewPrepare then generation else before.generation;
    if !warm && after.lastErrno != 0 then
      if after.lastErrno < 0 then after.lastErrno else -EIO
    else if (warm && after.state != Consumed) || (!warm && after.state != Ready)
            || after.generation != expected || after.epoch == 0 || !HasFingerprint(t, after)
            || after.workerErrno != 0 || after.lease != (if warm then 0 else 1) || after.matched != 1 then
      if after.workerErrno != 0 then (if after.workerErrno < 0 then after.workerErrno else -EIO) else -ESTALE
    else 0
  }

  /** What a domain must look like at the end: consumed without a lease when it
      was warm, ready with one otherwise; the fingerprint and generation asked for. */
  predicate Settled(t: Target, before: Status, after: Status, d: Disposition, generation: nat) {
    && (if d == Warm then after.state == Consumed && after.lease == 0
        else after.state == Ready && after.lease == 1 && after.lastErrno == 0)
    && after.generation == (if d == NewPrepare then generation else before.generation)
    && after.epoch != 0 && after.matched == 1 && after.workerErrno == 0 && HasFingerprint(t, after)
  }

  lemma ValidatedMeansSettled(t: Target, before: Status, after: Status, d: Disposition, generation: nat)
    ensures ValidateFinal(t, before, after, d, generation) <= 0
    ensures ValidateFinal(t, before, after, d, generation) == 0 <==> Settled(t, before, after, d, generation)
  {
    hide HasFingerprint;
  }

  /** An unsettled domain gets the driver's last error when it was to be prepared, or
      else its worker's, or ESTALE. */
  lemma ValidationErrors(t: Target, before: Status, after: Status, d: Disposition, generation: nat)
    requires !Settled(t, before, after, d, generation)
    ensures var reported := if d != Warm && after.lastErrno != 0 then after.lastErrno else after.workerErrno;
            ValidateFinal(t, before, after, d, generation)
            == if reported < 0 then reported else if reported > 0 then -EIO else -ESTALE
  {
    hide HasFingerprint;
  }

  /** On texts without NUL the fingerprint is the whole configuration asked for. */
  lemma FingerprintIs(t: Target, s: Status)
    requires '\0' !in t.mode && '\0' !in t.table && '\0' !in s.mode && '\0' !in s.table
    ensures HasFingerprint(t, s) <==>
            && s.mode == t.mode && s.table == t.table && s.width == t.width && s.height == t.height
            && s.fps == t.fps && s.enable == t.enable && s.code == 8198
  {
  }

  /** A status that shows the wanted configuration, set up and working. */
  predicate Current(t: Target, s: Status) {
    s.matched != 0 && s.workerErrno == 0 && s.generation != 0 && s.epoch != 0 && HasFingerprint(t, s)
  }

  /** Classification never takes over a lease: a refresh is asked only of a ready lease
      that is current, reuse only of a consumed domain that is, and a new prepare of any
      other domain without a lease whose worker did not fail, unless it is ready. */
  lemma ClassifyRespectsLeases(t: Target, s: Status)
    ensures var c := Classify(t, s);
            && (c.disposition == RefreshReady <==> s.lease != 0 && s.state == Ready && Current(t, s))
            && (c.disposition == Warm <==> s.lease == 0 && s.state == Consumed && Current(t, s))
            && (c.disposition == NewPrepare
                <==> s.lease == 0 && s.workerErrno == 0 && s.state != Preparing && s.state != Ready
                     && !(s.state == Consumed && Current(t, s)))
            && (c.rc == -EBUSY <==> s.state == Preparing)
            && (c.rc == -EPROTO <==> s.lease != 0 && s.state != Preparing && s.state != Ready)
            && (c.rc != 0 ==> c.rc == -EBUSY || c.rc == -EPROTO)
            && (c.rc < 0 ==> c.disposition == Fail)
  {
    hide HasFingerprint;
  }

  /** Which error a refused classification leaves. */
  lemma ClassificationErrors(t: Target, s: Status)
    requires Classify(t, s).disposition == Fail
    ensures ClassifyError(t, s) == if s.state == Preparing then -EBUSY
                                   else if s.lease != 0 && s.state != Ready then -EPROTO
                                   else if s.workerErrno < 0 then s.workerErrno
                                   else if s.workerErrno > 0 then -EIO else -ESTALE
  {
    hide HasFingerprint;
  }

  // ----- the store texts

  function Command(t: Target, generation: nat): string {
    "1 " + Numeral(generation, 10) + " " + Numeral(t.width, 10) + " " + Numeral(t.height, 10) + " "
    + Numeral(t.fps, 10) + " " + Numeral(t.enable, 10) + "\n"
  }

  predicate FitsCommand(t: Target, generation: nat) {
    generation <= MAX_U64 && t.width <= MAX_U32 && t.height <= MAX_U32 && t.fps <= MAX_U32 && t.enable <= MAX_U32
  }

  /** The command always fits the worker's 128-byte buffer. */
  lemma CommandFits(t: Target, generation: nat)
    requires FitsCommand(t, generation)
    ensures 2 < |Command(t, generation)| < 128
  {
    assert Power(10, 10) == 10000000000;
    assert Power(10, 20) == 100000000000000000000;
    NumeralIsShort(generation, 10, 20);
    NumeralIsShort(t.width, 10, 10);
    NumeralIsShort(t.height, 10, 10);
    NumeralIsShort(t.fps, 10, 10);
    NumeralIsShort(t.enable, 10, 10);
  }

  /** The driver reads the request back from the command: a 1, the generation, and the
      target's size, rate and switches, in this order. */
  lemma CommandReadsBack(t: Target, generation: nat)
    requires FitsCommand(t, generation)
    ensures var tokens := Tokens(Command(t, generation));
            && |tokens| == 6 && tokens[0] == "1"
            && ParseUnsigned(tokens[1], false) == Some(generation)
            && ParseUint32(tokens[2], false) == Some(t.width) && ParseUint32(tokens[3], false) == Some(t.height)
            && ParseUint32(tokens[4], false) == Some(t.fps) && ParseUint32(tokens[5], false) == Some(t.enable)
  {
    hide Numeral, Tokens, ParseUnsigned, NoBlank;
    NumeralParses(generation);
    NumeralParses(t.width);
    NumeralParses(t.height);
    NumeralParses(t.fps);
    NumeralParses(t.enable);
    var tokens := ["1", Numeral(generation, 10), Numeral(t.width, 10), Numeral(t.height, 10), Numeral(t.fps, 10),
                   Numeral(t.enable, 10)];
    assert NoBlank("1") by { OneIsNoBlank(); }
    assert forall k | 0 <= k < 6 :: tokens[k] != [] && NoBlank(tokens[k]);
    TokensOfJoin(tokens);
    SixJoined(tokens);
    assert "1" + " " == "1 ";
    assert Command(t, generation) == Join(tokens);
  }

  lemma OneIsNoBlank()
    ensures NoBlank("1")
  {
  }

  lemma SixJoined(t: seq<string>)
    requires |t| == 6
    ensures Join(t) == t[0] + " " + t[1] + " " + t[2] + " " + t[3] + " " + t[4] + " " + t[5] + "\n"
  {
    assert Join(t[4..]) == t[4] + " " + Join(t[5..]) && t[4..][1..] == t[5..];
    assert Join(t[3..]) == t[3] + " " + Join(t[4..]) && t[3..][1..] == t[4..];
    assert Join(t[2..]) == t[2] + " " + Join(t[3..]) && t[2..][1..] == t[3..];
    assert Join(t[1..]) == t[1] + " " + Join(t[2..]) && t[1..][1..] == t[2..];
  }

  // ----- the log of driver calls

  datatype Phase = Before | Storing | After | Cancelling

  datatype Event = Read(csi: nat, phase: Phase, result: int, buffer: string)
                 | Store(csi: nat, phase: Phase, text: string, result: int, flag: bool)
                 | ThreadCreate(csi: nat, result: int)
                 | ThreadJoin(csi: nat, result: int)

  function Rank(e: Event): nat {
    match e
    case Read(_, p, _, _) => PhaseRank(p)
    case Store(_, p, _, _, _) => PhaseRank(p)
    case ThreadCreate(_, _) => 1
    case ThreadJoin(_, _) => 1
  }

  function PhaseRank(p: Phase): nat {
    match p
    case Before => 0
    case Storing => 1
    case After => 2
    case Cancelling => 3
  }

  predicate Belongs(e: Event, csi: nat, p: Phase) { (e.Read? || e.Store?) && e.csi == csi && e.phase == p }

  /** The driver calls for one domain in one phase, in order. */
  function Calls(log: seq<Event>, csi: nat, p: Phase): seq<Event> {
    if log == [] then []
    else
      var e := log[|log| - 1];
      Calls(log[..|log| - 1], csi, p) + if Belongs(e, csi, p) then [e] else []
  }

  function FirstOf(a: int, b: int): int { if a != 0 then a else b }

  /** The first error of all thread calls, and of those for each domain; 0 for none. */
  datatype Faults = Faults(first: int, ofCsi0: int, ofCsi1: int)

  function Of(f: Faults, csi: nat): int { if csi == 0 then f.ofCsi0 else if csi == 1 then f.ofCsi1 else 0 }

  /** One more result, normalised to 0 or a negative error. */
  function Fault(f: Faults, csi: nat, error: int): Faults {
    Faults(FirstOf(f.first, error), if csi == 0 then FirstOf(f.ofCsi0, error) else f.ofCsi0,
           if csi == 1 then FirstOf(f.ofCsi1, error) else f.ofCsi1)
  }

  function Negative(result: int): int { if result > 0 then -result else result }

  function AfterEvent(f: Faults, e: Event): Faults {
    if e.ThreadCreate? || e.ThreadJoin? then Fault(f, e.csi, Negative(e.result)) else f
  }

  function ThreadFaults(log: seq<Event>): Faults {
    if log == [] then Faults(0, 0, 0) else AfterEvent(ThreadFaults(log[..|log| - 1]), log[|log| - 1])
  }

  predicate ThreadTrouble(log: seq<Event>) { ThreadFaults(log).first != 0 }

  ghost predicate Ordered(log: seq<Event>) { forall i, j | 0 <= i < j < |log| :: Rank(log[i]) <= Rank(log[j]) }

  ghost predicate AtMost(log: seq<Event>, rank: nat) { forall e | e in log :: Rank(e) <= rank }

  lemma Logged(log: seq<Event>, e: Event)
    ensures forall c: nat, p: Phase ::
              Calls(log + [e], c, p) == if Belongs(e, c, p) then Calls(log, c, p) + [e] else Calls(log, c, p)
    ensures ThreadFaults(log + [e]) == AfterEvent(ThreadFaults(log), e)
    ensures Ordered(log) && AtMost(log, Rank(e)) ==> Ordered(log + [e]) && AtMost(log + [e], Rank(e))
  {
    hide Rank;
    var longer := log + [e];
    assert longer[..|longer| - 1] == log && longer[|longer| - 1] == e;
    assert e in longer;
    assert forall x :: x in longer <==> x in log || x == e;
  }

  // ----- retried calls

  predicate Committed(e: Event)
    requires e.Store?
  {
    e.flag || e.result == |e.text|
  }

  predicate RetriedStore(e: Event, text: string) { e.Store? && e.text == text && e.result == -EAGAIN && !Committed(e) }

  /** One to three attempts of one store: each but the last was refused with
      EAGAIN without taking effect, and the last was not or was the third. */
  predicate StoreRun(run: seq<Event>, text: string) {
    && 1 <= |run| <= 3
    && (forall k | 0 <= k < |run| - 1 :: RetriedStore(run[k], text))
    && run[|run| - 1].Store? && run[|run| - 1].text == text
    && (|run| == 3 || !RetriedStore(run[|run| - 1], text))
  }

  predicate ReadRun(run: seq<Event>) {
    && 1 <= |run| <= 3
    && (forall k | 0 <= k < |run| :: run[k].Read? && |run[k].buffer| == BUFFER_SIZE)
    && (forall k | 0 <= k < |run| - 1 :: run[k].result == -EAGAIN)
    && (|run| == 3 || run[|run| - 1].result != -EAGAIN)
  }

  /** A retried store on the replies: it is sent again exactly after a reply of EAGAIN
      without the commit flag, three times at most. */
  lemma RetriedOnlyWithoutEffect(run: seq<Event>, text: string)
    ensures StoreRun(run, text) <==>
            && 1 <= |run| <= 3
            && (forall k | 0 <= k < |run| :: run[k].Store? && run[k].text == text)
            && (forall k | 0 <= k < |run| - 1 :: run[k].result == -EAGAIN && !run[k].flag)
            && (|run| < 3 ==> run[|run| - 1].result != -EAGAIN || run[|run| - 1].flag)
  {
    if StoreRun(run, text) {
      assert forall k | 0 <= k < |run| - 1 :: RetriedStore(run[k], text);
    }
  }

  /** However often a store is retried, only its last attempt can take effect. */
  lemma OnlyLastAttemptTakesEffect(run: seq<Event>, text: string, k: nat)
    requires StoreRun(run, text) && k < |run| && run[k].Store? && (run[k].flag || run[k].result == |text|)
    ensures k == |run| - 1
  {
    RetriedOnlyWithoutEffect(run, text);
  }

  /** The result read_status returns for its driver calls. */
  ghost function ReadError(run: seq<Event>): (e: int)
    requires ReadRun(run)
    ensures e <= 0
  {
    var last := run[|run| - 1];
    if last.result < 0 then last.result
    else if last.result > BUFFER_SIZE then -EOVERFLOW
    else if Acceptable(last.buffer[..last.result]) then 0 else -EINVAL
  }

  ghost predicate Shows(run: seq<Event>, s: Status)
    requires ReadRun(run) && ReadError(run) == 0
  {
    var last := run[|run| - 1];
    Accepts(Tokens(last.buffer[..last.result]), s)
  }

  function StoreError(e: Event): int
    requires e.Store?
  {
    if e.result == |e.text| then 0 else if e.result < 0 then e.result else -EIO
  }

  // ----- workers

  /** A worker's progress: not started, refused by thread creation, after k
      attempts, done, or joined (with the first join error, 0 for none). */
  datatype Worker = NotCreated | Refused(error: int) | Running(attempts: nat) | Finished | Joined(error: int)

  /** The thread error of a worker's creation or join. */
  function WorkerError(w: Worker): int {
    match w
    case Refused(error) => error
    case Joined(error) => error
    case _ => 0
  }

  /** What a worker writes to its report once its last attempt e returned. */
  function AfterStore(d: Domain, refresh: bool, e: Event): Domain
    requires e.Store?
  {
    var owned := d.(rollbackOwned := d.rollbackOwned || (!refresh && Committed(e)));
    if e.result != |e.text| then owned.(error := StoreError(e), action := ActionFailed)
    else owned.(action := if refresh then ReadyRefreshed else ColdPrepared)
  }

  function WithJoinError(d: Domain, error: int): Domain {
    if error != 0 && d.error == 0 then d.(error := error) else d
  }

  /** A worker's calls so far, and the report it leaves, for each progress. */
  predicate WorkerState(w: Worker, run: seq<Event>, text: string, refresh: bool, start: Domain, now: Domain) {
    match w
    case NotCreated => run == [] && now == start
    case Refused(error) => error < 0 && run == [] && now == start.(error := error, action := ActionFailed)
    case Running(k) =>
      && |run| == k < 3 && now == start
      && forall i | 0 <= i < |run| :: RetriedStore(run[i], text)
    case Finished => StoreRun(run, text) && now == AfterStore(start, refresh, run[|run| - 1])
    case Joined(error) =>
      error <= 0 && StoreRun(run, text) && now == WithJoinError(AfterStore(start, refresh, run[|run| - 1]), error)
  }

  // ----- the transaction

  /** Between two logs only calls for one domain in one phase were made. */
  ghost predicate OnlyCalls(from: seq<Event>, to: seq<Event>, csi: nat, p: Phase) {
    && (forall c: nat, q: Phase | c != csi || q != p :: Calls(to, c, q) == Calls(from, c, q))
    && ThreadFaults(to) == ThreadFaults(from)
  }

  /** One more attempt either ends the worker's run or leaves it running. */
  lemma WorkerAdvances(w: Worker, run: seq<Event>, text: string, refresh: bool, start: Domain, now: Domain, e: Event)
    requires WorkerState(w, run, text, refresh, start, now) && w.Running? && e.Store? && e.text == text
    ensures AfterStore(now, refresh, e).before == now.before
    ensures if Committed(e) || e.result != -EAGAIN || w.attempts == 2
            then WorkerState(Finished, run + [e], text, refresh, start, AfterStore(now, refresh, e))
            else WorkerState(Running(w.attempts + 1), run + [e], text, refresh, start, now)
  {
    var longer := run + [e];
    assert longer[|longer| - 1] == e;
    assert forall k | 0 <= k < |run| :: longer[k] == run[k];
  }

  lemma RankOfStore(e: Event)
    requires e.Store?
    ensures Rank(e) == PhaseRank(e.phase)
  {
  }

  lemma RankIsHighest(log: seq<Event>, e: Event)
    requires e.Store? && e.phase == Cancelling
    ensures AtMost(log, Rank(e))
  {
  }

  lemma RankOfRead(e: Event)
    requires e.Read?
    ensures Rank(e) == PhaseRank(e.phase)
  {
  }

  /** Only worker stores were made between two logs. */
  ghost predicate OnlyStores(from: seq<Event>, to: seq<Event>) {
    && (forall c: nat, q: Phase | q != Storing :: Calls(to, c, q) == Calls(from, c, q))
    && ThreadFaults(to) == ThreadFaults(from)
  }

  predicate Progressed(from: Worker, to: Worker) {
    to == from || (from.Running? && (to.Finished? || (to.Running? && from.attempts <= to.attempts)))
  }

  /** Is a worker wanted for this domain? */
  predicate Wants(t: Target, d: Disposition) { t.active && d != Warm }

  function WorkLeft(w: Worker): nat { if w.Running? && w.attempts < 3 then 3 - w.attempts else 0 }

  function Remaining(ws: seq<Worker>): nat
    requires |ws| == 2
  {
    WorkLeft(ws[0]) + WorkLeft(ws[1])
  }

  lemma NoProgress(ws: seq<Worker>)
    ensures forall k | 0 <= k < |ws| :: Progressed(ws[k], ws[k])
  {
  }

  lemma StepProgresses(first: seq<Worker>, from: seq<Worker>, to: seq<Worker>, c: nat)
    requires |first| == |from| == |to| == 2 && c < 2
    requires forall k: nat | k < 2 :: Progressed(first[k], from[k])
    requires from[c].Running? && from[c].attempts < 3 && to[1 - c] == from[1 - c]
    requires to[c].Finished? || to[c] == Running(from[c].attempts + 1)
    ensures forall k: nat | k < 2 :: Progressed(first[k], to[k])
    ensures Remaining(to) < Remaining(from) && first[c].Running?
  {
    assert Progressed(first[c], from[c]) && Progressed(first[1 - c], from[1 - c]);
    assert Progressed(first[c], to[c]) && Progressed(first[1 - c], to[1 - c]);
    assert c == 0 || c == 1;
  }

  lemma CreationStates(run: seq<Event>, text: string, refresh: bool, start: Domain, now: Domain, error: int)
    requires WorkerState(NotCreated, run, text, refresh, start, now) && error < 0
    ensures WorkerState(Running(0), run, text, refresh, start, now)
    ensures WorkerState(Refused(error), run, text, refresh, start, now.(error := error, action := ActionFailed))
  {
  }

  lemma CreationProgress(created: Worker, now: Worker)
    requires created == Running(0) && Progressed(created, now)
    ensures now.Running? || now.Finished?
  {
  }

  lemma RankOfThread(e: Event)
    requires e.ThreadCreate? || e.ThreadJoin?
    ensures Rank(e) == PhaseRank(Storing)
  {
  }

  lemma StepProgress(first: Worker, from: Worker, to: Worker)
    requires Progressed(first, from) && from.Running? && (to.Finished? || to == Running(from.attempts + 1))
    ensures Progressed(first, to)
  {
  }

  lemma StepsLeft(from: seq<Worker>, to: seq<Worker>, c: nat)
    requires |from| == |to| == 2 && c < 2 && to[1 - c] == from[1 - c]
    requires from[c].Running? && from[c].attempts < 3 && (to[c].Finished? || to[c] == Running(from[c].attempts + 1))
    ensures Remaining(to) < Remaining(from)
  {
    assert c == 0 || c == 1;
  }

  lemma ProgressKeepsLeft(from: seq<Worker>, to: seq<Worker>)
    requires |from| == |to| == 2 && Progressed(from[0], to[0]) && Progressed(from[1], to[1])
    ensures Remaining(to) <= Remaining(from)
  {
  }

  lemma ProgressFinishes(from: Worker, to: Worker)
    requires (from.Running? || from.Finished?) && Progressed(from, to) && !to.Running?
    ensures to.Finished?
  {
  }

  // ----- the transaction as a value, and what each part of it leaves behind

  datatype Record = Record(generation: nat, targets: seq<Target>, domain: seq<Domain>, log: seq<Event>)

  ghost predicate Has(r: Record, c: nat) { c < 2 && |r.targets| == 2 && |r.domain| == 2 }

  function Last(run: seq<Event>): Event
    requires run != []
  {
    run[|run| - 1]
  }

  ghost function Disp(r: Record, c: nat): Disposition
    requires Has(r, c)
  {
    Classify(r.targets[c], r.domain[c].before).disposition
  }

  ghost function CommandText(r: Record, c: nat): string
    requires Has(r, c)
  {
    Command(r.targets[c], if Disp(r, c) == RefreshReady then r.domain[c].before.generation else r.generation)
  }

  /** The driver took the whole prepare store, or none was needed. */
  ghost predicate Stored(r: Record, c: nat)
    requires Has(r, c)
  {
    var run := Calls(r.log, c, Storing);
    Disp(r, c) == Warm || (run != [] && Last(run).Store? && Last(run).result == |Last(run).text|)
  }

  /** This call published a lease of its own on the domain. */
  ghost predicate Owned(r: Record, c: nat)
    requires Has(r, c)
  {
    var run := Calls(r.log, c, Storing);
    Disp(r, c) == NewPrepare && run != [] && Last(run).Store? && Committed(Last(run))
  }

  ghost function ActionFor(r: Record, c: nat): Action
    requires Has(r, c)
  {
    if !r.targets[c].active then Skipped
    else if !Stored(r, c) then ActionFailed
    else match Disp(r, c)
      case Warm => WarmReused
      case RefreshReady => ReadyRefreshed
      case _ => ColdPrepared
  }

  /** One worker during the join loop, done for those it has passed. */
  predicate JoinProgress(w: Worker, d: Domain, wanted: bool, done: bool, rejected: bool, failure: bool) {
    && (!wanted ==> w.NotCreated?) && (w.Refused? || (wanted && w.NotCreated?) ==> failure)
    && if done then
         && !w.Running? && !w.Finished? && (w.Joined? && w.error < 0 ==> failure)
         && (rejected <==> w == Joined(0) && d.error < 0)
       else !w.Joined? && !rejected
  }

  /** A domain between classification and the workers. */
  predicate Fresh(d: Domain, t: Target, disposition: Disposition) {
    && d.active == t.active && !d.rollbackOwned && d.error == 0 && d.rollbackError == 0
    && (t.active ==> disposition != Fail)
    && d.action == if t.active && disposition == Warm then WarmReused else Skipped
  }

  /** The error of a domain's prepare store, 0 for none or success. */
  ghost function StoreFault(r: Record, c: nat): int
    requires Has(r, c)
  {
    var run := Calls(r.log, c, Storing);
    if run != [] && Last(run).Store? then StoreError(Last(run)) else 0
  }

  /** A domain's error once its worker is joined: of its store, or else of its thread. */
  ghost function JoinedError(r: Record, c: nat): int
    requires Has(r, c)
  {
    FirstOf(StoreFault(r, c), Of(ThreadFaults(r.log), c))
  }

  /** Its store was refused, and nothing else went wrong with it. */
  ghost predicate Rejected(r: Record, c: nat)
    requires Has(r, c)
  {
    StoreFault(r, c) < 0 && Of(ThreadFaults(r.log), c) == 0
  }

  ghost function JoinedAction(r: Record, c: nat): Action
    requires Has(r, c)
  {
    if !r.targets[c].active then Skipped
    else if StoreFault(r, c) != 0 then ActionFailed
    else if Calls(r.log, c, Storing) != [] then (if Disp(r, c) == RefreshReady then ReadyRefreshed else ColdPrepared)
    else if Of(ThreadFaults(r.log), c) != 0 then ActionFailed
    else if Disp(r, c) == Warm then WarmReused else Skipped
  }

  /** A domain once its worker, if any, is joined. */
  ghost predicate AfterJoin(r: Record, c: nat, trouble: bool, rejected: bool) {
    && Has(r, c)
    && var d, t, run := r.domain[c], r.targets[c], Calls(r.log, c, Storing);
    && d.active == t.active && d.rollbackError == 0 && d.error <= 0 && d.rollbackOwned == Owned(r, c)
    && (run != [] ==> t.active && Disp(r, c) != Warm && StoreRun(run, CommandText(r, c)))
    && (!t.active ==> d.error == 0 && !rejected && d.action == Skipped)
    && d.error == JoinedError(r, c) && d.action == JoinedAction(r, c) && rejected == Rejected(r, c)
    && (!trouble ==>
          && (t.active && Disp(r, c) != Warm ==> run != [])
          && (d.error == 0 <==> !t.active || Stored(r, c))
          && (rejected <==> t.active && !Stored(r, c))
          && d.action == ActionFor(r, c))
  }

  lemma WorkerFacts(r: Record, c: nat, w: Worker, start: Domain, disposition: Disposition, trouble: bool,
                    rejected: bool)
    requires Has(r, c) && Fresh(start, r.targets[c], disposition) && (r.targets[c].active ==> disposition == Disp(r, c))
    requires WorkerState(w, Calls(r.log, c, Storing),
                         Command(r.targets[c],
                                 if disposition == RefreshReady then r.domain[c].before.generation else r.generation),
                         disposition == RefreshReady, start, r.domain[c])
    requires !w.Running? && !w.Finished?
    requires !(r.targets[c].active && disposition != Warm) ==> w.NotCreated?
    requires w.Refused? || (w.Joined? && w.error < 0) ==> trouble
    requires r.targets[c].active && disposition != Warm && w.NotCreated? ==> trouble
    requires rejected <==> w == Joined(0) && r.domain[c].error < 0
    requires Of(ThreadFaults(r.log), c) == WorkerError(w)
    ensures AfterJoin(r, c, trouble, rejected)
  {
    hide Calls, Command, Classify, RetriedStore;
  }

  lemma OtherStays(from: Worker, to: Worker)
    requires Progressed(from, to)
    ensures !from.Running? ==> to == from
    ensures from.Running? ==> to.Running? || to.Finished?
  {
  }

  /** Only calls of one phase were made between two logs. */
  ghost predicate OnlyPhase(from: seq<Event>, to: seq<Event>, p: Phase) {
    && (forall c: nat, q: Phase | q != p :: Calls(to, c, q) == Calls(from, c, q))
    && ThreadFaults(to) == ThreadFaults(from)
  }

  /** The error the second round of one domain yields, 0 for none. */
  ghost function FinalError(r: Record, c: nat, rejected: bool): int
    requires Has(r, c) && ReadRun(Calls(r.log, c, After))
  {
    var rc := ReadError(Calls(r.log, c, After));
    if rc < 0 then rc
    else if rejected then 0
    else ValidateFinal(r.targets[c], r.domain[c].before, r.domain[c].after, Disp(r, c), r.generation)
  }

  /** The same for every domain: there is none for an inactive one. */
  ghost function ReadFault(r: Record, c: nat, rejected: bool): int {
    if Has(r, c) && r.targets[c].active && ReadRun(Calls(r.log, c, After)) then FinalError(r, c, rejected) else 0
  }

  ghost predicate Unsettled(r: Record, c: nat, rejected: bool) {
    Has(r, c) && r.targets[c].active && ReadRun(Calls(r.log, c, After)) && FinalError(r, c, rejected) < 0
  }

  /** A domain after the second round of reads, compared with before it. */
  ghost predicate AfterRead(mid: Record, r: Record, c: nat, rejected: bool) {
    && Has(r, c) && Has(mid, c) && r.targets == mid.targets && r.generation == mid.generation
    && var run, d, m := Calls(r.log, c, After), r.domain[c], mid.domain[c];
    if !r.targets[c].active then d == m && run == []
    else
      && ReadRun(run)
      && (ReadError(run) == 0 ==> Shows(run, d.after))
      && d.before == m.before
      && d == m.(after := d.after, error := if m.error == 0 then FinalError(r, c, rejected) else m.error)
  }

  lemma ActiveRead(mid: Record, r: Record, c: nat, rejected: bool, rc: int, result: int)
    requires Has(r, c) && Has(mid, c) && r.targets == mid.targets && r.generation == mid.generation
             && r.targets[c].active
    requires var run := Calls(r.log, c, After);
             ReadRun(run) && rc == ReadError(run) <= 0 && (rc == 0 ==> Shows(run, r.domain[c].after))
    requires result == if rc == 0 && !rejected
                       then ValidateFinal(r.targets[c], r.domain[c].before, r.domain[c].after, Disp(r, c), r.generation)
                       else rc
    requires r.domain[c] == mid.domain[c].(after := r.domain[c].after,
                                           error := if mid.domain[c].error == 0 && result < 0 then result
                                                    else mid.domain[c].error)
    ensures AfterRead(mid, r, c, rejected)
    ensures result <= 0 && (Unsettled(r, c, rejected) <==> result < 0) && result == ReadFault(r, c, rejected)
  {
    hide Calls, Classify, ReadError, ReadRun, Shows, ValidateFinal;
    ValidatedMeansSettled(r.targets[c], r.domain[c].before, r.domain[c].after, Disp(r, c), r.generation);
  }

  lemma InactiveRead(mid: Record, r: Record, c: nat, rejected: bool)
    requires Has(r, c) && Has(mid, c) && r.targets == mid.targets && r.generation == mid.generation
             && !r.targets[c].active
    requires r.domain[c] == mid.domain[c] && Calls(r.log, c, After) == []
    ensures AfterRead(mid, r, c, rejected) && !Unsettled(r, c, rejected) && ReadFault(r, c, rejected) == 0
  {
  }

  lemma ReadFrame(mid: Record, from: Record, to: Record, c: nat, rejected: bool)
    requires AfterRead(mid, from, c, rejected) && Has(to, c) && from.targets == to.targets
             && from.generation == to.generation
    requires from.domain[c] == to.domain[c] && Calls(from.log, c, After) == Calls(to.log, c, After)
    ensures AfterRead(mid, to, c, rejected)
    ensures Unsettled(to, c, rejected) == Unsettled(from, c, rejected)
            && ReadFault(to, c, rejected) == ReadFault(from, c, rejected)
  {
    hide Calls, Classify, ReadError, ReadRun, Shows, ValidateFinal;
  }

  lemma WeakenAtMost(log: seq<Event>)
    requires AtMost(log, PhaseRank(Storing))
    ensures AtMost(log, PhaseRank(After))
  {
  }

  // ----- the parts before the workers, and after the reads

  function Initial(t: Target): Domain { Domain(t.active, false, Skipped, 0, 0, BLANK, BLANK) }

  function Count(a: bool, b: bool): nat { (if a then 1 else 0) + if b then 1 else 0 }

  /** The error of the first read of a domain, 0 when inactive. */
  ghost function BeforeError(r: Record, c: nat): int {
    if Has(r, c) && r.targets[c].active && ReadRun(Calls(r.log, c, Before)) then ReadError(Calls(r.log, c, Before))
    else 0
  }

  ghost predicate BeforeRead(r: Record, c: nat) {
    && Has(r, c)
    && var run, d, t := Calls(r.log, c, Before), r.domain[c], r.targets[c];
    if !t.active then d == Initial(t) && run == []
    else
      && ReadRun(run)
      && ReadError(run) <= 0
      && (ReadError(run) == 0 ==> Shows(run, d.before))
      && d == Initial(t).(before := d.before, error := ReadError(run),
                          action := if ReadError(run) < 0 then ActionFailed else Skipped)
  }

  lemma BeforeErrorSign(r: Record, c: nat)
    requires BeforeRead(r, c)
    ensures BeforeError(r, c) <= 0
    ensures !r.targets[c].active ==> BeforeError(r, c) == 0
  {
    hide ReadError, ReadRun, Calls, Shows;
  }

  lemma InactiveBefore(r: Record, c: nat)
    requires Has(r, c) && !r.targets[c].active && r.domain[c] == Initial(r.targets[c]) && Calls(r.log, c, Before) == []
    ensures BeforeRead(r, c) && BeforeError(r, c) == 0
  {
  }

  lemma BeforeFrame(from: Record, to: Record, c: nat)
    requires BeforeRead(from, c) && Has(to, c) && to.targets == from.targets
    requires to.domain[c] == from.domain[c] && Calls(to.log, c, Before) == Calls(from.log, c, Before)
    ensures BeforeRead(to, c) && BeforeError(to, c) == BeforeError(from, c)
  {
    hide ReadError, ReadRun, Calls, Shows;
  }

  lemma EmptyLog()
    ensures Ordered([]) && AtMost([], PhaseRank(Before)) && ThreadFaults([]) == Faults(0, 0, 0)
    ensures forall c: nat, p: Phase :: Calls([], c, p) == []
  {
  }

  ghost function ClassError(r: Record, c: nat): int
    requires Has(r, c)
  {
    if r.targets[c].active then ClassifyError(r.targets[c], r.domain[c].before) else 0
  }

  function AfterClassify(t: Target, d: Domain): Domain {
    if !t.active then d
    else if ClassifyError(t, d.before) < 0 then d.(error := ClassifyError(t, d.before), action := ActionFailed)
    else if Classify(t, d.before).disposition == Warm then d.(action := WarmReused)
    else d
  }

  lemma InactiveClass(r: Record, c: nat)
    requires Has(r, c) && !r.targets[c].active
    ensures ClassError(r, c) == 0 && AfterClassify(r.targets[c], r.domain[c]) == r.domain[c]
  {
  }

  lemma ClassifyErrorIs(t: Target, s: Status)
    ensures var c := Classify(t, s);
            ClassifyError(t, s) == if c.rc < 0 then c.rc
                                   else if c.disposition == Fail then FailedDispositionError(s) else 0
  {
    hide Classify, FailedDispositionError;
  }

  ghost predicate EpochsDiffer(r: Record, rejected: seq<bool>)
    requires Has(r, 0) && |rejected| == 2
  {
    && r.targets[0].active && !rejected[0] && r.domain[0].after.epoch != 0
    && r.targets[1].active && !rejected[1] && r.domain[1].after.epoch != 0
    && r.domain[0].after.epoch != r.domain[1].after.epoch
  }

  lemma StoreErrorIs(run: seq<Event>)
    requires StoreRun(run, CANCEL)
    ensures run != [] && Last(run).Store?
    ensures var result := Last(run).result;
            StoreError(Last(run)) == if result == |CANCEL| then 0 else if result < 0 then result else -EIO
  {
  }

  /** A domain after the rollback loop, compared with before it. */
  ghost predicate RolledBack(mid: Record, r: Record, c: nat, cancelled: bool) {
    && Has(mid, c) && Has(r, c) && r.targets == mid.targets && r.generation == mid.generation
    && var run := Calls(r.log, c, Cancelling);
    if cancelled then
      && StoreRun(run, CANCEL)
      && r.domain[c] == mid.domain[c].(rollbackError := FirstOf(StoreError(Last(run)), mid.domain[c].rollbackError))
    else run == [] && r.domain[c] == mid.domain[c]
  }

  // ----- the errors, in the order the program meets them

  /** Do two domains that took their stores show different epochs. */
  ghost predicate Stale(r: Record)
    requires Has(r, 0)
  {
    EpochsDiffer(r, [Rejected(r, 0), Rejected(r, 1)])
  }

  /** The error a domain is left with: of its store, its thread, its second read, or
      the epochs, which count against the second domain. */
  ghost function DomainError(r: Record, c: nat): int
    requires Has(r, c)
  {
    FirstOf(FirstOf(JoinedError(r, c), ReadFault(r, c, Rejected(r, c))), if c == 1 && Stale(r) then -ESTALE else 0)
  }

  /** The error of the call once workers may have started: the first thread error of
      all, or else of the domains' stores, the second reads, and the epochs. */
  ghost function WorkError(r: Record): int
    requires Has(r, 0)
  {
    var joined := FirstOf(ThreadFaults(r.log).first, FirstOf(JoinedError(r, 0), JoinedError(r, 1)));
    var shown := FirstOf(ReadFault(r, 0, Rejected(r, 0)), ReadFault(r, 1, Rejected(r, 1)));
    FirstOf(FirstOf(joined, shown), if Stale(r) then -ESTALE else 0)
  }

  // ----- the verdict

  /** A domain that ended as asked: its store taken, its final status read and settled. */
  ghost predicate Prepared(r: Record, c: nat)
    requires Has(r, c)
  {
    var run := Calls(r.log, c, After);
    && r.targets[c].active && Stored(r, c) && ReadRun(run) && ReadError(run) == 0 && Shows(run, r.domain[c].after)
    && Settled(r.targets[c], r.domain[c].before, r.domain[c].after, Disp(r, c), r.generation)
  }

  /** Everything but a refused prepare store fails the whole call: a thread
      fault, a failed or unsettled final read of a stored domain, a failed final
      read of a refused one, or two stored domains of different epochs. */
  ghost predicate Trouble(r: Record)
    requires Has(r, 0)
  {
    || ThreadTrouble(r.log)
    || Unsettled(r, 0, !Stored(r, 0)) || Unsettled(r, 1, !Stored(r, 1))
    || (r.targets[0].active && r.targets[1].active && Stored(r, 0) && Stored(r, 1)
        && r.domain[0].after.epoch != r.domain[1].after.epoch)
  }

  ghost predicate Refusal(r: Record, c: nat)
    requires Has(r, c)
  {
    r.targets[c].active && !Stored(r, c)
  }

  ghost predicate Survivor(r: Record, c: nat)
    requires Has(r, c)
  {
    r.targets[c].active && Stored(r, c)
  }

  /** The return value of a call that got past classification. */
  ghost predicate Decided(r: Record, rc: int)
    requires Has(r, 0)
  {
    var refused := Refusal(r, 0) || Refusal(r, 1);
    && (rc == OK <==> !Trouble(r) && !refused)
    && (rc == PARTIAL <==> !Trouble(r) && refused && (Survivor(r, 0) || Survivor(r, 1)))
    && (rc < 0 || rc == OK || rc == PARTIAL)
    && (rc < 0 ==> rc == WorkError(r))
  }

  /** Was a cancel due: an own lease, and the call failed or this domain did. */
  ghost predicate CancelDue(r: Record, rc: int, c: nat)
    requires Has(r, c)
  {
    Owned(r, c) && (rc < 0 || (rc == PARTIAL && !Stored(r, c)))
  }

  /** What such a call leaves of a domain, in its report and at the driver. */
  ghost predicate DomainDecided(r: Record, rc: int, c: nat)
    requires Has(r, 0) && Has(r, c)
  {
    var d, t := r.domain[c], r.targets[c];
    var stores, cancels := Calls(r.log, c, Storing), Calls(r.log, c, Cancelling);
    && d.active == t.active && d.rollbackOwned == Owned(r, c)
    && d.error == DomainError(r, c) && d.action == JoinedAction(r, c)
    && (stores != [] ==> t.active && Disp(r, c) != Warm && StoreRun(stores, CommandText(r, c)))
    && (t.active ==> ReadRun(Calls(r.log, c, After)))
    && (!t.active ==> d.error == 0 && d.action == Skipped && Calls(r.log, c, After) == [])
    && (!Trouble(r) && t.active ==>
          && (Disp(r, c) != Warm ==> stores != [])
          && (d.error == 0 <==> Stored(r, c)) && d.action == ActionFor(r, c)
          && (Stored(r, c) ==> Prepared(r, c)))
    && (if CancelDue(r, rc, c) then StoreRun(cancels, CANCEL) && d.rollbackError == StoreError(Last(cancels))
        else cancels == [] && d.rollbackError == 0)
  }

  /** The record once every part has run: r1 after the joins, r2 after the second
      reads, r3 after the epoch check, r4 at the end. */
  ghost predicate SameBut(a: Record, b: Record, p: Phase) {
    && Has(a, 0) && Has(b, 0) && a.targets == b.targets && a.generation == b.generation && OnlyPhase(a.log, b.log, p)
  }

  /** What depends on the stores and on the first status only. */
  lemma StoreFrame(a: Record, b: Record, c: nat)
    requires Has(a, c) && Has(b, c) && a.targets == b.targets && a.generation == b.generation
    requires Calls(a.log, c, Storing) == Calls(b.log, c, Storing) && a.domain[c].before == b.domain[c].before
    ensures Disp(a, c) == Disp(b, c) && Stored(a, c) == Stored(b, c) && Owned(a, c) == Owned(b, c)
    ensures CommandText(a, c) == CommandText(b, c) && ActionFor(a, c) == ActionFor(b, c)
  {
    hide Calls, Classify, Command;
  }

  /** A second read without fault settles a stored domain. */
  lemma SettledWithoutFault(mid: Record, r: Record, c: nat)
    requires Has(r, c) && AfterRead(mid, r, c, !Stored(r, c)) && r.targets[c].active && Stored(r, c)
             && !Unsettled(r, c, !Stored(r, c))
    ensures Prepared(r, c) && r.domain[c].after.epoch != 0
  {
    hide Calls, Classify, ReadError, ReadRun, Shows, ValidateFinal, Stored;
    ValidatedMeansSettled(r.targets[c], r.domain[c].before, r.domain[c].after, Disp(r, c), r.generation);
  }

  // ----- from the parts to the verdict

  /** What the coordinator remembers after the second reads and the epochs. */
  lemma ErrorsOfTheReads(r1: Record, r2: Record, trouble: bool, rejected: seq<bool>, error1: int)
    requires Joined1(r1, trouble, rejected, error1) && Read2(r1, r2, rejected)
    ensures var error2 := FirstOf(error1, FirstOf(ReadFault(r2, 0, rejected[0]), ReadFault(r2, 1, rejected[1])));
            WorkError(r2) == FirstOf(error2, if EpochsDiffer(r2, rejected) then -ESTALE else 0)
    ensures DomainError(r2, 0) == r2.domain[0].error
    ensures DomainError(r2, 1) == FirstOf(r2.domain[1].error, if EpochsDiffer(r2, rejected) then -ESTALE else 0)
  {
    hide Calls, ThreadFaults, ReadFault, JoinedError, Rejected, AfterJoin, AfterRead, EpochsDiffer;
    ErrorAfterRead(r1, r2, trouble, rejected, error1, 0);
    ErrorAfterRead(r1, r2, trouble, rejected, error1, 1);
    assert rejected == [Rejected(r2, 0), Rejected(r2, 1)];
  }

  /** The joined record and what the coordinator then knows. */
  ghost predicate Joined1(r1: Record, trouble: bool, rejected: seq<bool>, error1: int) {
    && Has(r1, 0) && |rejected| == 2 && error1 <= 0
    && (trouble <==> ThreadTrouble(r1.log))
    && AfterJoin(r1, 0, trouble, rejected[0]) && AfterJoin(r1, 1, trouble, rejected[1])
    && error1 == FirstOf(ThreadFaults(r1.log).first, FirstOf(r1.domain[0].error, r1.domain[1].error))
  }

  ghost predicate Read2(r1: Record, r2: Record, rejected: seq<bool>) {
    SameBut(r1, r2, After) && |rejected| == 2 && AfterRead(r1, r2, 0, rejected[0]) && AfterRead(r1, r2, 1, rejected[1])
  }

  /** The second reads fail for the coordinator exactly when they do for the record. */
  lemma SameFaults(r1: Record, r2: Record, trouble: bool, rejected: seq<bool>, error1: int, c: nat)
    requires Joined1(r1, trouble, rejected, error1) && Read2(r1, r2, rejected) && c < 2 && !trouble
    ensures Unsettled(r2, c, rejected[c]) == Unsettled(r2, c, !Stored(r2, c))
    ensures r2.targets[c].active ==> rejected[c] == !Stored(r2, c)
    ensures r1.domain[c].before == r2.domain[c].before
  {
    hide Calls, Classify, ReadError, ReadRun, Shows, ValidateFinal, FinalError, ActionFor, CommandText;
    assert AfterJoin(r1, c, trouble, rejected[c]) && AfterRead(r1, r2, c, rejected[c]);
    assert r1.domain[c].before == r2.domain[c].before;
    StoreFrame(r1, r2, c);
  }

  /** The coordinator's global failure flag, once the epochs are compared, is the
      trouble of the record. */
  lemma FailureIsTrouble(r1: Record, r2: Record, trouble: bool, rejected: seq<bool>, error1: int)
    requires Joined1(r1, trouble, rejected, error1) && Read2(r1, r2, rejected)
    ensures Trouble(r2) <==>
            trouble || Unsettled(r2, 0, rejected[0]) || Unsettled(r2, 1, rejected[1]) || EpochsDiffer(r2, rejected)
  {
    hide Calls, Classify, ReadError, ReadRun, Shows, ValidateFinal, Unsettled, AfterJoin, Stored, ThreadFaults;
    if !trouble {
      SameFaults(r1, r2, trouble, rejected, error1, 0);
      SameFaults(r1, r2, trouble, rejected, error1, 1);
      if !Unsettled(r2, 0, rejected[0]) && !Unsettled(r2, 1, rejected[1]) {
        if r2.targets[0].active && Stored(r2, 0) { SettledWithoutFault(r1, r2, 0); }
        if r2.targets[1].active && Stored(r2, 1) { SettledWithoutFault(r1, r2, 1); }
      }
    }
  }

  /** After the reads only errors, rollback errors and cancels change. */
  ghost predicate OnlyErrors(r2: Record, r4: Record) {
    && SameBut(r2, r4, Cancelling)
    && r4.domain[0] == r2.domain[0].(error := r4.domain[0].error, rollbackError := r4.domain[0].rollbackError)
    && r4.domain[1] == r2.domain[1].(error := r4.domain[1].error, rollbackError := r4.domain[1].rollbackError)
  }

  lemma FinalFrame(r2: Record, r4: Record, c: nat)
    requires OnlyErrors(r2, r4) && c < 2
    ensures Stored(r2, c) == Stored(r4, c) && Owned(r2, c) == Owned(r4, c) && Disp(r2, c) == Disp(r4, c)
    ensures CommandText(r2, c) == CommandText(r4, c) && ActionFor(r2, c) == ActionFor(r4, c)
    ensures Prepared(r2, c) == Prepared(r4, c)
    ensures Unsettled(r2, c, !Stored(r2, c)) == Unsettled(r4, c, !Stored(r4, c))
    ensures Calls(r2.log, c, Storing) == Calls(r4.log, c, Storing) && Calls(r2.log, c, After) == Calls(r4.log, c, After)
  {
    hide Calls, Classify, ReadError, ReadRun, Shows, ValidateFinal, ActionFor, CommandText, Owned, Stored;
    StoreFrame(r2, r4, c);
  }

  lemma SameErrors(a: Record, b: Record, c: nat, p: Phase)
    requires SameBut(a, b, p) && p != Storing && c < 2 && a.domain[c].before == b.domain[c].before
    ensures JoinedError(a, c) == JoinedError(b, c) && Rejected(a, c) == Rejected(b, c)
            && JoinedAction(a, c) == JoinedAction(b, c)
    ensures p != After && a.domain[c].after == b.domain[c].after ==>
              forall rejected :: ReadFault(a, c, rejected) == ReadFault(b, c, rejected)
  {
    hide Calls, Classify, ReadError, ReadRun, ThreadFaults, ValidateFinal, StoreError;
  }

  /** The errors depend on nothing that the rollback changes. */
  lemma SameFinalErrors(r2: Record, r4: Record)
    requires OnlyErrors(r2, r4)
    ensures WorkError(r2) == WorkError(r4)
    ensures DomainError(r2, 0) == DomainError(r4, 0) && DomainError(r2, 1) == DomainError(r4, 1)
  {
    hide Calls, ThreadFaults, ReadFault, JoinedError, Rejected, JoinedAction;
    SameErrors(r2, r4, 0, Cancelling);
    SameErrors(r2, r4, 1, Cancelling);
  }

  /** The second read adds its error to a domain that has none. */
  lemma ErrorAfterRead(r1: Record, r2: Record, trouble: bool, rejected: seq<bool>, error1: int, c: nat)
    requires Joined1(r1, trouble, rejected, error1) && Read2(r1, r2, rejected) && c < 2
    ensures rejected[c] == Rejected(r2, c) && r2.domain[c].action == JoinedAction(r2, c)
    ensures JoinedError(r1, c) == JoinedError(r2, c) == r1.domain[c].error
    ensures r2.domain[c].error == FirstOf(JoinedError(r2, c), ReadFault(r2, c, rejected[c]))
  {
    hide Calls, ThreadFaults, ReadError, ReadRun, Shows, FinalError, JoinedError, Rejected, JoinedAction;
    hide ActionFor, CommandText, Disp, Owned, Stored, StoreRun;
    assert AfterJoin(r1, c, trouble, rejected[c]) && AfterRead(r1, r2, c, rejected[c]);
    SameErrors(r1, r2, c, After);
  }

  lemma SameTrouble(r2: Record, r4: Record)
    requires OnlyErrors(r2, r4)
    ensures Trouble(r2) == Trouble(r4)
  {
    hide Unsettled, Stored, Calls, ThreadFaults;
    FinalFrame(r2, r4, 0);
    FinalFrame(r2, r4, 1);
  }

  /** Without trouble a domain has an error exactly when its store was refused. */
  lemma ErrorsWithoutTrouble(r1: Record, r2: Record, trouble: bool, rejected: seq<bool>, error1: int, c: nat)
    requires Joined1(r1, trouble, rejected, error1) && Read2(r1, r2, rejected) && c < 2 && !Trouble(r2)
    ensures !trouble && (r2.domain[c].error == 0 <==> !Refusal(r2, c))
    ensures r1.domain[c].error == 0 <==> !Refusal(r2, c)
    ensures Survivor(r2, c) ==> Prepared(r2, c)
    ensures r2.targets[c].active ==> rejected[c] == !Stored(r2, c)
  {
    hide Calls, Classify, ReadError, ReadRun, Shows, ValidateFinal, ThreadFaults, Trouble, ActionFor, CommandText;
    assert !ThreadTrouble(r2.log) && !Unsettled(r2, c, !Stored(r2, c)) by { NoTrouble(r2, c); }
    assert AfterJoin(r1, c, trouble, rejected[c]) && AfterRead(r1, r2, c, rejected[c]);
    SameFaults(r1, r2, trouble, rejected, error1, c);
    StoreFrame(r1, r2, c);
    if r2.targets[c].active {
      if Stored(r2, c) { SettledWithoutFault(r1, r2, c); }
    }
  }

  lemma NoTrouble(r: Record, c: nat)
    requires Has(r, c) && !Trouble(r)
    ensures !ThreadTrouble(r.log) && !Unsettled(r, c, !Stored(r, c))
  {
    hide Calls, Unsettled, Stored, ThreadFaults;
  }

  /** The remembered first error is 0 exactly when nothing went wrong. */
  lemma FirstErrorMeans(r1: Record, r2: Record, trouble: bool, rejected: seq<bool>, error1: int, error3: int)
    requires Joined1(r1, trouble, rejected, error1) && Read2(r1, r2, rejected) && error3 <= 0
    requires error3 == 0 <==> error1 == 0 && !Unsettled(r2, 0, rejected[0]) && !Unsettled(r2, 1, rejected[1])
                              && !EpochsDiffer(r2, rejected)
    ensures error3 == 0 <==> !Trouble(r2) && !Refusal(r2, 0) && !Refusal(r2, 1)
  {
    hide Calls, Unsettled, Stored, ThreadFaults, Trouble, Refusal, EpochsDiffer, AfterJoin, AfterRead;
    FailureIsTrouble(r1, r2, trouble, rejected, error1);
    if !Trouble(r2) {
      ErrorsWithoutTrouble(r1, r2, trouble, rejected, error1, 0);
      ErrorsWithoutTrouble(r1, r2, trouble, rejected, error1, 1);
    }
  }

  /** The last step for one domain: its cancel is due exactly when it was sent. */
  lemma DomainConclusion(r1: Record, r2: Record, r4: Record, trouble: bool, rejected: seq<bool>, error1: int,
                         rc: int, c: nat,
                         sent: bool)
    requires Joined1(r1, trouble, rejected, error1) && Read2(r1, r2, rejected) && OnlyErrors(r2, r4) && c < 2
    requires !Trouble(r2) ==> r4.domain[c].error == r2.domain[c].error
    requires r1.targets[c].active || r4.domain[c].error == r2.domain[c].error
    requires r4.domain[c].error == DomainError(r2, c)
    requires rc < 0 || rc == OK || rc == PARTIAL
    requires sent == (r2.domain[c].rollbackOwned && (rc < 0 || (rc == PARTIAL && rejected[c])))
    requires rc == PARTIAL ==> !Trouble(r2)
    requires var cancels := Calls(r4.log, c, Cancelling);
             if sent then StoreRun(cancels, CANCEL) && r4.domain[c].rollbackError == StoreError(Last(cancels))
             else cancels == [] && r4.domain[c].rollbackError == 0
    ensures DomainDecided(r4, rc, c)
  {
    hide Calls, Unsettled, Stored, ThreadFaults, Trouble, Prepared, StoreRun, ActionFor, CommandText, Disp, ReadRun;
    hide Shows, ReadError;
    hide FinalError, StoreError, DomainError, JoinedAction, JoinedError, Rejected, ReadFault;
    assert AfterJoin(r1, c, trouble, rejected[c]) && AfterRead(r1, r2, c, rejected[c]);
    SameFinalErrors(r2, r4);
    SameErrors(r2, r4, c, Cancelling);
    ErrorAfterRead(r1, r2, trouble, rejected, error1, c);
    StoreFrame(r1, r2, c);
    FinalFrame(r2, r4, c);
    SameTrouble(r2, r4);
    if !Trouble(r2) {
      ErrorsWithoutTrouble(r1, r2, trouble, rejected, error1, c);
    }
  }

  lemma Survivors(r1: Record, r2: Record, r3: Record, trouble: bool, rejected: seq<bool>, error1: int, survivors: nat)
    requires Joined1(r1, trouble, rejected, error1) && Read2(r1, r2, rejected) && Has(r3, 0) && r3.targets == r2.targets
    requires survivors == Count(r3.targets[0].active && r3.domain[0].error == 0,
                                r3.targets[1].active && r3.domain[1].error == 0)
    requires !Trouble(r2) ==> r3.domain[0].error == r2.domain[0].error && r3.domain[1].error == r2.domain[1].error
    ensures !Trouble(r2) ==> (survivors != 0 <==> Survivor(r2, 0) || Survivor(r2, 1))
  {
    hide Calls, Unsettled, Stored, ThreadFaults, Trouble, AfterJoin, AfterRead;
    if !Trouble(r2) {
      ErrorsWithoutTrouble(r1, r2, trouble, rejected, error1, 0);
      ErrorsWithoutTrouble(r1, r2, trouble, rejected, error1, 1);
    }
  }

  /** What the rollback, if any, did to one domain. */
  ghost predicate Undone(r3: Record, r4: Record, c: nat, sent: bool) {
    && Has(r3, c) && Has(r4, c)
    && var cancels := Calls(r4.log, c, Cancelling);
    && r4.domain[c] == r3.domain[c].(rollbackError := r4.domain[c].rollbackError)
    && (if sent then StoreRun(cancels, CANCEL) && r4.domain[c].rollbackError == StoreError(Last(cancels))
        else cancels == [] && r4.domain[c].rollbackError == 0)
  }

  /** The epoch check changed an error only where there was trouble. */
  ghost predicate Checked(r2: Record, r3: Record) {
    && Has(r2, 0) && Has(r3, 0) && r3 == r2.(domain := r3.domain) && r3.domain[0] == r2.domain[0]
    && r3.domain[0].error == DomainError(r2, 0) && r3.domain[1].error == DomainError(r2, 1)
    && (r3.domain[1] == r2.domain[1]
        || (Trouble(r2) && r2.targets[1].active && r3.domain[1] == r2.domain[1].(error := r3.domain[1].error)))
  }

  lemma CheckedAndUndone(r2: Record, r3: Record, r4: Record, sent0: bool, sent1: bool)
    requires Checked(r2, r3) && SameBut(r3, r4, Cancelling) && Undone(r3, r4, 0, sent0) && Undone(r3, r4, 1, sent1)
    ensures OnlyErrors(r2, r4)
    ensures !Trouble(r2) ==> r4.domain[0].error == r2.domain[0].error && r4.domain[1].error == r2.domain[1].error
    ensures r4.domain[0].error == r2.domain[0].error
    ensures r2.targets[1].active || r4.domain[1].error == r2.domain[1].error
    ensures r4.domain[0].error == DomainError(r2, 0) && r4.domain[1].error == DomainError(r2, 1)
  {
    hide Calls, ThreadFaults, Trouble, StoreRun, StoreError, DomainError;
  }

  lemma DomainsCloseOut(r1: Record, r2: Record, r3: Record, r4: Record, trouble: bool, rejected: seq<bool>, error1: int,
                        rc: int, sent: seq<bool>)
    requires Joined1(r1, trouble, rejected, error1) && Read2(r1, r2, rejected)
    requires Checked(r2, r3) && SameBut(r3, r4, Cancelling) && |sent| == 2
    requires Undone(r3, r4, 0, sent[0]) && Undone(r3, r4, 1, sent[1])
    requires forall c: nat | c < 2 ::
               sent[c] == (r3.domain[c].rollbackOwned && (rc < 0 || (rc == PARTIAL && rejected[c])))
    requires rc < 0 || rc == OK || rc == PARTIAL
    requires rc == PARTIAL ==> !Trouble(r2)
    ensures DomainDecided(r4, rc, 0) && DomainDecided(r4, rc, 1)
  {
    hide Calls, ThreadFaults, Trouble, AfterJoin, AfterRead, DomainDecided, StoreRun, StoreError, DomainError;
    CheckedAndUndone(r2, r3, r4, sent[0], sent[1]);
    Activity(r1, r2, trouble, rejected, error1);
    DomainConclusion(r1, r2, r4, trouble, rejected, error1, rc, 0, sent[0]);
    DomainConclusion(r1, r2, r4, trouble, rejected, error1, rc, 1, sent[1]);
  }

  lemma DecidedAtTheEnd(r2: Record, r4: Record, firstError: int, rc: int)
    requires OnlyErrors(r2, r4) && firstError <= 0 && firstError == WorkError(r2)
    requires firstError == 0 <==> !Trouble(r2) && !Refusal(r2, 0) && !Refusal(r2, 1)
    requires rc == if firstError == 0 then OK
                   else if !Trouble(r2) && (Survivor(r2, 0) || Survivor(r2, 1)) then PARTIAL else firstError
    ensures Decided(r4, rc) && firstError == WorkError(r4)
  {
    hide Calls, Unsettled, Stored, ThreadFaults, Trouble, WorkError, DomainError;
    SameFinalErrors(r2, r4);
    SameTrouble(r2, r4);
    FinalFrame(r2, r4, 0);
    FinalFrame(r2, r4, 1);
  }

  /** Did the rollback send a cancel. */
  ghost predicate Sent(r3: Record, c: nat, firstError: int, partial: bool, rejected: seq<bool>)
    requires Has(r3, c) && |rejected| == 2
  {
    firstError < 0 && r3.domain[c].rollbackOwned && (!partial || rejected[c])
  }

  lemma RecordConcluded(r1: Record, r2: Record, r3: Record, r4: Record, trouble: bool, rejected: seq<bool>, error1: int,
                        firstError: int, partial: bool)
    requires Joined1(r1, trouble, rejected, error1) && Read2(r1, r2, rejected) && |rejected| == 2
    requires Checked(r2, r3) && SameBut(r3, r4, Cancelling) && firstError <= 0 && firstError == WorkError(r2)
    requires firstError == 0 <==> !Trouble(r2) && !Refusal(r2, 0) && !Refusal(r2, 1)
    requires partial == (firstError < 0 && !Trouble(r2) && (Survivor(r2, 0) || Survivor(r2, 1)))
    requires Undone(r3, r4, 0, Sent(r3, 0, firstError, partial, rejected))
    requires Undone(r3, r4, 1, Sent(r3, 1, firstError, partial, rejected))
    ensures var rc := if partial then PARTIAL else firstError;
            Decided(r4, rc) && DomainDecided(r4, rc, 0) && DomainDecided(r4, rc, 1)
    ensures firstError == WorkError(r4)
    ensures r4.domain[0].before == r1.domain[0].before && r4.domain[1].before == r1.domain[1].before
  {
    hide Calls, ThreadFaults, Trouble, Refusal, Survivor, Joined1, Read2, DomainDecided, Decided, StoreRun, StoreError;
    hide WorkError, DomainError;
    var rc := if partial then PARTIAL else firstError;
    var sent := [Sent(r3, 0, firstError, partial, rejected), Sent(r3, 1, firstError, partial, rejected)];
    Activity(r1, r2, trouble, rejected, error1);
    DomainsCloseOut(r1, r2, r3, r4, trouble, rejected, error1, rc, sent);
    CheckedAndUndone(r2, r3, r4, sent[0], sent[1]);
    DecidedAtTheEnd(r2, r4, firstError, rc);
  }

  lemma RolledBackIsUndone(r3: Record, r4: Record, c: nat, sent: bool)
    requires RolledBack(r3, r4, c, sent) && r3.domain[c].rollbackError == 0
    ensures Undone(r3, r4, c, sent)
  {
    hide Calls, StoreRun;
    if sent { assert Calls(r4.log, c, Cancelling) != [] by { RunNotEmpty(Calls(r4.log, c, Cancelling)); } }
  }

  lemma RunNotEmpty(run: seq<Event>)
    requires StoreRun(run, CANCEL)
    ensures run != [] && Last(run).Store?
  {
  }

  lemma Activity(r1: Record, r2: Record, trouble: bool, rejected: seq<bool>, error1: int)
    requires Joined1(r1, trouble, rejected, error1) && Read2(r1, r2, rejected)
    ensures r1.targets == r2.targets
    ensures r2.domain[0].before == r1.domain[0].before && r2.domain[1].before == r1.domain[1].before
    ensures r2.domain[0].rollbackError == 0 && r2.domain[1].rollbackError == 0
  {
    hide Calls, Unsettled, Stored, ThreadFaults, FinalError, ReadRun, ReadError, Shows;
    assert AfterRead(r1, r2, 0, rejected[0]) && AfterRead(r1, r2, 1, rejected[1]);
    assert AfterJoin(r1, 0, trouble, rejected[0]) && AfterJoin(r1, 1, trouble, rejected[1]);
  }

  lemma KnownAfterJoin(r1: Record, trouble: bool, rejected: seq<bool>, error1: int)
    requires Joined1(r1, trouble, rejected, error1)
    ensures Has(r1, 0) && |rejected| == 2 && error1 <= 0 && trouble == ThreadTrouble(r1.log)
  {
    hide AfterJoin, ThreadFaults;
  }

  lemma DifferingIsActive(r: Record, rejected: seq<bool>)
    requires Has(r, 0) && |rejected| == 2 && EpochsDiffer(r, rejected)
    ensures r.targets[1].active
  {
  }

  // ----- the outcome of a whole call

  /** What the report shows of the first read. */
  ghost predicate BeforeShown(r: Record, c: nat)
    requires Has(r, c)
  {
    var run := Calls(r.log, c, Before);
    if r.targets[c].active then ReadRun(run) && (ReadError(run) == 0 ==> Shows(run, r.domain[c].before)) else run == []
  }

  /** Nothing but first reads was ever asked of the driver. */
  ghost predicate ReadsOnly(r: Record) {
    !ThreadTrouble(r.log) && forall c: nat, p: Phase | p != Before :: Calls(r.log, c, p) == []
  }

  /** Every active domain's prepare node is missing. */
  ghost predicate AllMissing(r: Record)
    requires Has(r, 0)
  {
    && (r.targets[0].active || r.targets[1].active)
    && (r.targets[0].active ==> BeforeError(r, 0) == -ENOENT)
    && (r.targets[1].active ==> BeforeError(r, 1) == -ENOENT)
  }

  /** The first error of the reads, or else of the classification. */
  ghost function BeginError(r: Record): int
    requires Has(r, 0)
  {
    var reading := FirstOf(BeforeError(r, 0), BeforeError(r, 1));
    if reading != 0 then reading else FirstOf(ClassError(r, 0), ClassError(r, 1))
  }

  /** A domain's error when the call stopped before any store. */
  ghost function StopError(r: Record, c: nat): int
    requires Has(r, 0) && Has(r, c)
  {
    if FirstOf(BeforeError(r, 0), BeforeError(r, 1)) != 0 then BeforeError(r, c) else ClassError(r, c)
  }

  predicate NoLease(d: Domain) { !d.rollbackOwned && d.rollbackError == 0 }

  /** The complete outcome specification of a call on buildable targets. */
  ghost predicate Verdict(r: Record, rc: int) {
    && Has(r, 0)
    && BeforeShown(r, 0) && BeforeShown(r, 1)
    && if AllMissing(r) then
         && rc == LEGACY && ReadsOnly(r) && NoLease(r.domain[0]) && NoLease(r.domain[1])
         && r.domain[0].error == 0 && r.domain[1].error == 0
         && (r.targets[0].active ==> r.domain[0].action == LegacyPath)
         && (r.targets[1].active ==> r.domain[1].action == LegacyPath)
       else if BeginError(r) != 0 then
         && rc == BeginError(r) < 0 && ReadsOnly(r) && NoLease(r.domain[0]) && NoLease(r.domain[1])
         && r.domain[0].error == StopError(r, 0) && r.domain[1].error == StopError(r, 1)
         && (StopError(r, 0) != 0 ==> r.domain[0].action == ActionFailed)
         && (StopError(r, 1) != 0 ==> r.domain[1].action == ActionFailed)
       else Decided(r, rc) && DomainDecided(r, rc, 0) && DomainDecided(r, rc, 1)
  }

  function MarkLegacy(t: Target, d: Domain): Domain {
    if t.active then d.(action := LegacyPath, error := 0) else d
  }

  lemma ReadsOnlySoFar(r: Record)
    requires OnlyPhase([], r.log, Before)
    ensures ReadsOnly(r)
  {
    hide Calls, ThreadFaults;
    EmptyLog();
  }

  lemma BeforeReadFacts(r: Record, c: nat)
    requires BeforeRead(r, c)
    ensures BeforeShown(r, c) && BeforeError(r, c) <= 0 && r.domain[c].error == BeforeError(r, c)
    ensures !r.targets[c].active ==> BeforeError(r, c) == 0
    ensures NoLease(r.domain[c]) && (BeforeError(r, c) != 0 ==> r.domain[c].action == ActionFailed)
  {
    hide Calls, ReadRun, Shows, ReadError;
  }

  lemma SameReads(a: Record, b: Record)
    requires Has(a, 0) && Has(b, 0) && a.targets == b.targets
    requires forall c: nat :: Calls(a.log, c, Before) == Calls(b.log, c, Before)
    requires a.domain[0].before == b.domain[0].before && a.domain[1].before == b.domain[1].before
    ensures BeforeShown(a, 0) == BeforeShown(b, 0) && BeforeShown(a, 1) == BeforeShown(b, 1)
    ensures BeforeError(a, 0) == BeforeError(b, 0) && BeforeError(a, 1) == BeforeError(b, 1)
    ensures ClassError(a, 0) == ClassError(b, 0) && ClassError(a, 1) == ClassError(b, 1)
    ensures Disp(a, 0) == Disp(b, 0) && Disp(a, 1) == Disp(b, 1)
  {
    hide Calls, ReadRun, Shows, ReadError, Classify, ClassifyError;
  }

  lemma ClassifiedDomain(a: Record, b: Record, c: nat)
    requires Has(a, c) && Has(b, c) && a.targets == b.targets && a.domain[c].error == 0
    requires b.domain[c] == AfterClassify(a.targets[c], a.domain[c])
    ensures b.domain[c].before == a.domain[c].before
    ensures ClassError(a, c) <= 0 && b.domain[c].error == ClassError(a, c)
    ensures ClassError(a, c) != 0 ==> b.domain[c].action == ActionFailed
    ensures NoLease(a.domain[c]) ==> NoLease(b.domain[c])
  {
    hide Classify;
  }

  lemma ReadyForWorkers(a: Record, b: Record, c: nat)
    requires BeforeRead(a, c) && BeforeError(a, c) == 0 && Has(b, c) && a.targets == b.targets
    requires b.domain[c] == AfterClassify(a.targets[c], a.domain[c]) && ClassError(a, c) == 0
    ensures Fresh(b.domain[c], b.targets[c], if b.targets[c].active then Disp(a, c) else Fail)
  {
    hide Classify, Calls, ReadRun, ReadError, Shows;
    if b.targets[c].active { ClassifyErrorIs(a.targets[c], a.domain[c].before); }
  }

  lemma LegacyReads(a: Record, b: Record)
    requires Has(a, 0) && b == a.(domain := [
                                  MarkLegacy(a.targets[0], a.domain[0]), MarkLegacy(a.targets[1], a.domain[1])])
    requires BeforeShown(a, 0) && BeforeShown(a, 1)
    ensures BeforeShown(b, 0) && BeforeShown(b, 1)
    ensures BeforeError(a, 0) == BeforeError(b, 0) && BeforeError(a, 1) == BeforeError(b, 1)
    ensures b.targets[0].active ==> b.domain[0].error == 0 && b.domain[0].action == LegacyPath
    ensures b.targets[1].active ==> b.domain[1].error == 0 && b.domain[1].action == LegacyPath
    ensures !b.targets[0].active ==> b.domain[0] == a.domain[0]
    ensures !b.targets[1].active ==> b.domain[1] == a.domain[1]
    ensures ReadsOnly(a) ==> ReadsOnly(b)
  {
    hide Calls, ReadRun, Shows, ReadError, ThreadFaults;
  }

  lemma NoThreadYet(log: seq<Event>)
    requires OnlyPhase([], log, Before)
    ensures ThreadFaults(log) == Faults(0, 0, 0)
  {
    hide Calls;
    EmptyLog();
  }

  // ----- what the outcome means for the driver

  /** A call that reached the driver beyond the first reads got past classification. */
  lemma Began(r: Record, rc: int, c: nat, p: Phase)
    requires Verdict(r, rc) && p != Before && Calls(r.log, c, p) != []
    ensures BeginError(r) == 0 && Decided(r, rc) && DomainDecided(r, rc, 0) && DomainDecided(r, rc, 1)
  {
    hide Calls, ReadRun, ReadError, Shows, Decided, DomainDecided, Classify, ClassifyError, BeginError, StopError;
    hide AllMissing;
    hide BeforeShown;
  }

  lemma BeganShown(r: Record, rc: int)
    requires Verdict(r, rc)
    ensures Has(r, 0) && BeforeShown(r, 0) && BeforeShown(r, 1)
  {
    hide Calls, Decided, DomainDecided, BeginError, StopError, AllMissing, BeforeShown, ReadsOnly;
  }

  lemma BeginErrorParts(r: Record)
    requires Has(r, 0) && BeginError(r) == 0
    ensures BeforeError(r, 0) == 0 && BeforeError(r, 1) == 0 && ClassError(r, 0) == 0 && ClassError(r, 1) == 0
  {
    hide BeforeError, ClassError;
  }

  /** No prepare store is sent unless every active domain was read and classified. */
  lemma StoresNeedACleanStart(r: Record, rc: int, c: nat, d: nat)
    requires Verdict(r, rc) && d < 2 && Calls(r.log, c, Storing) != []
    ensures Has(r, d)
    ensures r.targets[d].active ==>
              ReadRun(Calls(r.log, d, Before)) && ReadError(Calls(r.log, d, Before)) == 0
              && Shows(Calls(r.log, d, Before), r.domain[d].before) && Disp(r, d) != Fail
  {
    hide Calls, ReadRun, ReadError, Shows, Decided, DomainDecided, Classify, Verdict, BeginError;
    Began(r, rc, c, Storing);
    BeganShown(r, rc);
    BeginErrorParts(r);
  }

  /** OK: every active domain is prepared, without error and without a cancel,
      and the domains share one epoch, which is not 0. */
  lemma OkMeansPrepared(r: Record, c: nat, d: nat)
    requires Verdict(r, OK) && c < 2 && d < 2
    ensures Has(r, 0) && r.domain[c].error == 0 && Calls(r.log, c, Cancelling) == []
    ensures r.targets[c].active ==> Prepared(r, c) && r.domain[c].after.epoch != 0
    ensures r.targets[c].active && r.targets[d].active ==> r.domain[c].after.epoch == r.domain[d].after.epoch
  {
    hide Calls, ReadRun, ReadError, Shows, Classify, ThreadFaults, Unsettled, AllMissing, StopError, ReadsOnly;
    hide BeforeShown;
    hide HasFingerprint, StoreRun, StoreError, ActionFor, CommandText, Owned, Stored, BeginError;
    assert DomainDecided(r, OK, 0) && DomainDecided(r, OK, 1);
  }

  /** PARTIAL: one active domain survives prepared, keeping its lease; the other
      is active, its store was refused, it alone carries an error, and the lease
      it may own was cancelled. */
  lemma PartialIsolatesTheRefused(r: Record, c: nat)
    requires Verdict(r, PARTIAL) && c < 2
    ensures Has(r, 0) && r.targets[0].active && r.targets[1].active
    ensures Survivor(r, c) <==> Refusal(r, 1 - c)
    ensures r.domain[c].error == 0 <==> Survivor(r, c)
    ensures Survivor(r, c) ==> Prepared(r, c) && Calls(r.log, c, Cancelling) == []
    ensures Refusal(r, c) && Owned(r, c) ==> StoreRun(Calls(r.log, c, Cancelling), CANCEL)
  {
    hide Calls, ReadRun, ReadError, Shows, Classify, ThreadFaults, Unsettled, AllMissing, StopError, ReadsOnly;
    hide BeforeShown;
    hide HasFingerprint, StoreRun, StoreError, ActionFor, CommandText, Owned, Stored, BeginError, Prepared;
    assert DomainDecided(r, PARTIAL, 0) && DomainDecided(r, PARTIAL, 1);
    assert c == 0 || c == 1;
  }

  /** A negative return: every lease this call published was sent a cancel, and
      the report says whether the driver took it. */
  lemma FailureReleasesLeases(r: Record, rc: int, c: nat)
    requires Verdict(r, rc) && rc < 0 && c < 2 && Owned(r, c)
    ensures StoreRun(Calls(r.log, c, Cancelling), CANCEL)
    ensures r.domain[c].rollbackError == StoreError(Last(Calls(r.log, c, Cancelling)))
  {
    hide Calls, Verdict, Classify, Decided, StoreRun, StoreError, ActionFor, CommandText, BeginError, Trouble;
    BeganShown(r, rc);
    Began(r, rc, c, Storing);
  }

  /** A cancel goes only to a domain whose lease this very call published: never
      to a warm, refreshed or inactive one. */
  lemma CancelsOnlyOwnLeases(r: Record, rc: int, c: nat)
    requires Verdict(r, rc) && c < 2 && Calls(r.log, c, Cancelling) != []
    ensures Has(r, c) && r.targets[c].active && Disp(r, c) == NewPrepare && r.domain[c].before.lease == 0
    ensures var stores := Calls(r.log, c, Storing);
            && StoreRun(stores, CommandText(r, c)) && Last(stores).Store?
            && (Last(stores).flag || Last(stores).result == |Last(stores).text|)
  {
    hide Calls, Verdict, Classify, Decided, StoreRun, StoreError, ActionFor, CommandText, BeginError, Trouble;
    BeganShown(r, rc);
    Began(r, rc, c, Cancelling);
    ClassifyRespectsLeases(r.targets[c], r.domain[c].before);
  }

  /** Read off the replies: a new lease that any attempt put in place, however the
      driver answered it, is sent a cancel when the call or its domain failed. */
  lemma TakenStoreIsCancelled(r: Record, rc: int, c: nat, k: nat)
    requires Verdict(r, rc) && Has(r, c) && Disp(r, c) == NewPrepare && k < |Calls(r.log, c, Storing)|
    requires var e := Calls(r.log, c, Storing)[k]; e.Store? && (e.flag || e.result == |e.text|)
    requires rc < 0 || (rc == PARTIAL && r.domain[c].error != 0)
    ensures StoreRun(Calls(r.log, c, Cancelling), CANCEL)
  {
    hide Calls, Verdict, Classify, Decided, StoreError, ActionFor, CommandText, BeginError, Trouble, StoreRun, Stored;
    hide ReadRun, Prepared;
    TakenStoreIsLast(r, rc, c, k);
    if rc == PARTIAL { PartialIsolatesTheRefused(r, c); }
  }

  lemma TakenStoreIsLast(r: Record, rc: int, c: nat, k: nat)
    requires Verdict(r, rc) && Has(r, c) && k < |Calls(r.log, c, Storing)|
    requires var e := Calls(r.log, c, Storing)[k]; e.Store? && (e.flag || e.result == |e.text|)
    ensures BeginError(r) == 0 && DomainDecided(r, rc, c)
    ensures k == |Calls(r.log, c, Storing)| - 1
    ensures Disp(r, c) == NewPrepare ==> Owned(r, c)
  {
    hide Calls, Verdict, Classify, Decided, StoreError, ActionFor, CommandText, BeginError, Trouble, StoreRun, Stored;
    hide ReadRun, Prepared;
    var stores := Calls(r.log, c, Storing);
    Began(r, rc, c, Storing);
    RetriedOnlyWithoutEffect(stores, CommandText(r, c));
    OnlyLastAttemptTakesEffect(stores, CommandText(r, c), k);
  }

  /** The report says which lease the call owns: that of a new prepare some attempt of
      which took effect. */
  lemma OwnershipIsReported(r: Record, rc: int, c: nat)
    requires Verdict(r, rc) && c < 2
    ensures Has(r, c)
    ensures var stores := Calls(r.log, c, Storing);
            r.domain[c].rollbackOwned <==>
              Disp(r, c) == NewPrepare
              && exists k :: 0 <= k < |stores| && stores[k].Store?
                             && (stores[k].flag || stores[k].result == |stores[k].text|)
  {
    hide Calls, Verdict, Classify, Decided, StoreError, ActionFor, CommandText, BeginError, Trouble, StoreRun, Stored;
    hide ReadRun, Prepared;
    var stores := Calls(r.log, c, Storing);
    BeganShown(r, rc);
    if DomainDecided(r, rc, c) {
      if r.domain[c].rollbackOwned {
        var k := |stores| - 1;
        assert stores[k].Store? && (stores[k].flag || stores[k].result == |stores[k].text|);
      }
    } else {
      NoLeaseBegun(r, rc, c);
    }
    if k :| 0 <= k < |stores| && stores[k].Store? && (stores[k].flag || stores[k].result == |stores[k].text|) {
      TakenStoreIsLast(r, rc, c, k);
    }
  }

  /** A store that was not taken whole leaves its error with the domain: the driver's,
      or EIO for a length that is not the text's. */
  lemma RefusedStoreIsReported(r: Record, rc: int, c: nat)
    requires Verdict(r, rc) && Has(r, c) && Calls(r.log, c, Storing) != []
    requires var last := Last(Calls(r.log, c, Storing)); last.Store? && last.result != |last.text|
    ensures var last := Last(Calls(r.log, c, Storing));
            r.domain[c].error == if last.result < 0 then last.result else -EIO
    ensures r.domain[c].action == ActionFailed
  {
    hide Calls, Verdict, Classify, Decided, ActionFor, CommandText, BeginError, Trouble, StoreRun, Stored;
    hide ReadRun, Prepared, Owned, ReadFault, Stale;
    Began(r, rc, c, Storing);
  }

  /** Every prepare store asks for its domain's target, in the generation of the call or,
      for a refresh, in the one the domain was found with. */
  lemma StoresCarryTheRequest(r: Record, rc: int, c: nat, k: nat)
    requires Verdict(r, rc) && Has(r, c) && k < |Calls(r.log, c, Storing)|
    requires FitsCommand(r.targets[c], r.generation) && r.domain[c].before.generation <= MAX_U64
    ensures var e, t := Calls(r.log, c, Storing)[k], r.targets[c];
            && e.Store?
            && var tokens := Tokens(e.text);
            && |tokens| == 6 && tokens[0] == "1"
            && ParseUnsigned(tokens[1], false)
               == Some(if Disp(r, c) == RefreshReady then r.domain[c].before.generation else r.generation)
            && ParseUint32(tokens[2], false) == Some(t.width) && ParseUint32(tokens[3], false) == Some(t.height)
            && ParseUint32(tokens[4], false) == Some(t.fps) && ParseUint32(tokens[5], false) == Some(t.enable)
  {
    hide Calls, Verdict, Classify, Decided, StoreError, ActionFor, Command, BeginError, Trouble, StoreRun, Stored;
    hide ReadRun, Prepared, Tokens, ParseUnsigned, DomainError, JoinedAction;
    Began(r, rc, c, Storing);
    RetriedOnlyWithoutEffect(Calls(r.log, c, Storing), CommandText(r, c));
    CommandReadsBack(r.targets[c], if Disp(r, c) == RefreshReady then r.domain[c].before.generation else r.generation);
  }

  /** The first failing thread call decides what the call returns. */
  lemma FirstThreadErrorIsReturned(r: Record, rc: int, i: nat)
    requires Verdict(r, rc) && i < |r.log|
    requires (r.log[i].ThreadCreate? || r.log[i].ThreadJoin?) && r.log[i].result != 0
    requires forall j | 0 <= j < i && (r.log[j].ThreadCreate? || r.log[j].ThreadJoin?) :: r.log[j].result == 0
    ensures rc == if r.log[i].result > 0 then -r.log[i].result else r.log[i].result
  {
    hide Calls, Classify, ReadRun, ReadError, Shows, StoreRun, StoreError, Stale, JoinedError, Rejected, ReadFault;
    hide DomainDecided, BeforeShown, BeginError, StopError, AllMissing, Survivor, Refusal, Unsettled, Stored,
         ThreadFaults;
    FirstFaultIs(r.log, i, |r.log|);
    assert r.log[..|r.log|] == r.log;
  }

  lemma {:induction false} FirstFaultIs(log: seq<Event>, i: nat, n: nat)
    requires i < |log| && n <= |log| && (log[i].ThreadCreate? || log[i].ThreadJoin?) && log[i].result != 0
    requires forall j | 0 <= j < i && (log[j].ThreadCreate? || log[j].ThreadJoin?) :: log[j].result == 0
    ensures ThreadFaults(log[..n]).first
            == if n <= i then 0 else if log[i].result > 0 then -log[i].result else log[i].result
  {
    if n > 0 {
      FirstFaultIs(log, i, n - 1);
      assert log[..n][..n - 1] == log[..n - 1] && log[..n][n - 1] == log[n - 1];
    }
  }

  // ----- cancels after the call

  predicate Delivered(e: Event) { e.Store? && e.result == |e.text| }

  /** cancel_domain sends a cancel for such a domain. */
  predicate Held(d: Domain) { d.rollbackOwned && d.error == 0 }

  /** The history of one lease: cancels only where a lease was published, none
      after a delivered one, and none delivered while the domain counts as held. */
  ghost predicate LeaseBook(r: Record, c: nat) {
    && Has(r, c)
    && var cancels := Calls(r.log, c, Cancelling);
    && (forall i | 0 <= i < |cancels| - 1 :: !Delivered(cancels[i]))
    && (Held(r.domain[c]) && cancels != [] ==> !Delivered(Last(cancels)))
    && (cancels != [] || r.domain[c].rollbackOwned ==> Owned(r, c))
  }

  lemma CancelRunDelivers(run: seq<Event>)
    requires StoreRun(run, CANCEL)
    ensures run != [] && Last(run).Store? && (StoreError(Last(run)) == 0 <==> Delivered(Last(run)))
    ensures forall i | 0 <= i < |run| - 1 :: !Delivered(run[i])
  {
    assert forall i | 0 <= i < |run| - 1 :: RetriedStore(run[i], CANCEL);
  }

  /** After OK or PARTIAL the books are in order; after a negative return they are
      unless a domain without an error of its own was successfully cancelled. */
  lemma BooksAfterTheCall(r: Record, rc: int, c: nat)
    requires Verdict(r, rc) && c < 2
    ensures Has(r, c)
    ensures LeaseBook(r, c)
            <==> !(rc < 0 && Owned(r, c) && r.domain[c].error == 0 && r.domain[c].rollbackError == 0)
  {
    hide Calls, Verdict, Classify, StoreRun, StoreError, ActionFor, CommandText, BeginError, Trouble, Owned, Stored;
    hide Prepared, ReadRun;
    BeganShown(r, rc);
    if !DomainDecided(r, rc, c) {
      NoLeaseBegun(r, rc, c);
      return;
    }
    EitherWay(r, rc);
    var cancels := Calls(r.log, c, Cancelling);
    if CancelDue(r, rc, c) { CancelRunDelivers(cancels); }
    if rc == PARTIAL && Owned(r, c) && !Stored(r, c) { RefusedHasError(r, c); }
  }

  lemma NoLeaseBegun(r: Record, rc: int, c: nat)
    requires Verdict(r, rc) && c < 2 && Has(r, 0) && !DomainDecided(r, rc, c)
    ensures Calls(r.log, c, Cancelling) == [] && NoLease(r.domain[c]) && !Owned(r, c)
  {
    hide Calls, Classify, Decided, DomainDecided, BeginError, StopError, AllMissing, BeforeShown, ThreadFaults;
    assert c == 0 || c == 1;
  }

  lemma EitherWay(r: Record, rc: int)
    requires Verdict(r, rc)
    ensures rc < 0 || rc == OK || rc == LEGACY || rc == PARTIAL
    ensures rc == LEGACY ==> ReadsOnly(r)
  {
    hide Calls, DomainDecided, BeginError, StopError, AllMissing, BeforeShown, ReadsOnly, Trouble, Refusal, Survivor;
  }

  lemma RefusedHasError(r: Record, c: nat)
    requires Verdict(r, PARTIAL) && c < 2 && Has(r, c) && Owned(r, c) && !Stored(r, c)
    ensures r.domain[c].error != 0
  {
    hide Calls, Verdict, Classify, Stored, Prepared, Owned;
    PartialIsolatesTheRefused(r, c);
  }

  function AfterCancel(d: Domain, rc: int): Domain {
    if rc == 0 then d.(rollbackOwned := false) else d.(rollbackError := rc)
  }

  /** One more retried cancel, whose result is rc. */
  ghost predicate Extends(from: seq<Event>, to: seq<Event>, rc: int) {
    exists run :: to == from + run && StoreRun(run, CANCEL) && rc == StoreError(Last(run))
  }

  lemma CancelExtends(from: seq<Event>, run: seq<Event>, rc: int)
    requires StoreRun(run, CANCEL) && run != [] && Last(run).Store? && rc == StoreError(Last(run))
    ensures Extends(from, from + run, rc)
  {
    hide StoreRun, StoreError;
  }

  lemma BookAfterCancel(a: Record, b: Record, c: nat, run: seq<Event>, rc: int)
    requires LeaseBook(a, c) && Held(a.domain[c]) && Has(b, c) && b.targets == a.targets && b.generation == a.generation
    requires Calls(b.log, c, Storing) == Calls(a.log, c, Storing)
    requires StoreRun(run, CANCEL) && run != [] && Last(run).Store? && rc == StoreError(Last(run))
    requires Calls(b.log, c, Cancelling) == Calls(a.log, c, Cancelling) + run
    requires b.domain[c] == AfterCancel(a.domain[c], rc)
    ensures LeaseBook(b, c)
  {
    hide Calls, StoreRun, StoreError, Owned, Delivered;
    CancelRunDelivers(run);
    StoreFrame(a, b, c);
    var cancels, more := Calls(a.log, c, Cancelling), Calls(b.log, c, Cancelling);
    assert |more| - 1 == |cancels| + (|run| - 1) && Last(more) == Last(run);
    forall i | 0 <= i < |more| - 1
      ensures !Delivered(more[i])
    {
      if i >= |cancels| {
        assert more[i] == run[i - |cancels|];
      } else if i == |cancels| - 1 {
        assert more[i] == Last(cancels);
      }
    }
  }

  lemma OtherBook(a: Record, b: Record, c: nat)
    requires LeaseBook(a, c) && Has(b, c) && b.targets == a.targets && b.generation == a.generation
    requires Calls(b.log, c, Storing) == Calls(a.log, c, Storing)
             && Calls(b.log, c, Cancelling) == Calls(a.log, c, Cancelling)
    requires b.domain[c] == a.domain[c]
    ensures LeaseBook(b, c)
  {
    hide Calls, Owned, Delivered;
    StoreFrame(a, b, c);
  }

  // ----- a run after which a cancel is sent twice

  const LEFT := Target(true, 640, 360, 30, 1, "single", "left")
  const FREE_STATUS := Status(Idle, 0, 0, "none", "none", 0, 0, 0, 0, 0, 0, 0, 0, 0)
  const READY_STATUS := Status(Ready, 7, 1, "single", "left", 640, 360, 30, 0x2006, 1, 0, 0, 1, 1)

  /** A read whose text is the print of a status. */
  function ReadOf(csi: nat, p: Phase, st: Status): Event
    requires |Print(st)| <= BUFFER_SIZE
  {
    Read(csi, p, |Print(st)|, Print(st) + seq(BUFFER_SIZE - |Print(st)|, _ => ' '))
  }

  lemma ReadOfShows(csi: nat, p: Phase, st: Status)
    requires Representable(st)
    ensures |Print(st)| <= BUFFER_SIZE && Belongs(ReadOf(csi, p, st), csi, p)
    ensures var run := [ReadOf(csi, p, st)];
            ReadRun(run) && ReadError(run) == 0 && Shows(run, st)
  {
    hide Accepts, Tokens, Print, Representable;
    PrintFits(st);
    PrintedStatusIsAccepted(st);
    var e := ReadOf(csi, p, st);
    assert e.buffer[..e.result] == Print(st);
    assert Acceptable(Print(st));
  }

  lemma FailedRead(e: Event)
    requires e.Read? && e.result == -EIO && |e.buffer| == BUFFER_SIZE
    ensures ReadRun([e]) && ReadError([e]) == -EIO
  {
  }

  /** The log of a run with two workers, and one event per domain and phase. */
  lemma LogOfRun(b0: Event, b1: Event, s0: Event, s1: Event, a0: Event, a1: Event, c0: Event, c1: Event)
    returns (log: seq<Event>)
    requires Belongs(b0, 0, Before) && Belongs(b1, 1, Before) && Belongs(s0, 0, Storing) && Belongs(s1, 1, Storing)
    requires Belongs(a0, 0, After) && Belongs(a1, 1, After) && Belongs(c0, 0, Cancelling) && Belongs(c1, 1, Cancelling)
    ensures Calls(log, 0, Before) == [b0] && Calls(log, 1, Before) == [b1]
    ensures Calls(log, 0, Storing) == [s0] && Calls(log, 1, Storing) == [s1]
    ensures Calls(log, 0, After) == [a0] && Calls(log, 1, After) == [a1]
    ensures Calls(log, 0, Cancelling) == [c0] && Calls(log, 1, Cancelling) == [c1]
    ensures ThreadFaults(log) == Faults(0, 0, 0) && Ordered(log)
  {
    hide Calls, ThreadFaults, Ordered, AtMost, Rank;
    EmptyLog();
    log := OneMore([], b0, 0, Before);
    log := OneMore(log, b1, 1, Before);
    AtMostLater(log, Before, Storing);
    log := OneThreadCall(log, ThreadCreate(0, 0));
    log := OneThreadCall(log, ThreadCreate(1, 0));
    log := OneMore(log, s0, 0, Storing);
    log := OneMore(log, s1, 1, Storing);
    log := OneThreadCall(log, ThreadJoin(0, 0));
    log := OneThreadCall(log, ThreadJoin(1, 0));
    AtMostLater(log, Storing, After);
    log := OneMore(log, a0, 0, After);
    log := OneMore(log, a1, 1, After);
    AtMostLater(log, After, Cancelling);
    log := OneMore(log, c0, 0, Cancelling);
    log := OneMore(log, c1, 1, Cancelling);
  }

  lemma AtMostLater(log: seq<Event>, p: Phase, q: Phase)
    requires AtMost(log, PhaseRank(p)) && PhaseRank(p) <= PhaseRank(q)
    ensures AtMost(log, PhaseRank(q))
  {
  }

  lemma OneMore(log: seq<Event>, e: Event, csi: nat, p: Phase) returns (more: seq<Event>)
    requires Belongs(e, csi, p) && Ordered(log) && AtMost(log, PhaseRank(p))
    ensures more == log + [e] && ThreadFaults(more) == ThreadFaults(log)
    ensures Ordered(more) && AtMost(more, PhaseRank(p))
    ensures Calls(more, csi, p) == Calls(log, csi, p) + [e]
    ensures forall c: nat, q: Phase | c != csi || q != p :: Calls(more, c, q) == Calls(log, c, q)
  {
    hide Calls, Ordered, AtMost, ThreadFaults;
    Logged(log, e);
    more := log + [e];
  }

  lemma OneThreadCall(log: seq<Event>, e: Event) returns (more: seq<Event>)
    requires (e.ThreadCreate? || e.ThreadJoin?) && e.result == 0 && Ordered(log) && AtMost(log, PhaseRank(Storing))
    ensures more == log + [e] && ThreadFaults(more) == ThreadFaults(log)
    ensures Ordered(more) && AtMost(more, PhaseRank(Storing))
    ensures forall c: nat, q: Phase :: Calls(more, c, q) == Calls(log, c, q)
  {
    hide Calls, Ordered, AtMost, ThreadFaults;
    Logged(log, e);
    more := log + [e];
  }

  /** Both domains are prepared, but the second read of domain 1 fails: the call fails
      with that error, both leases are cancelled, and yet domain 0, without an error of
      its own, still counts as held, so that a later cancel_domain cancels it again. */
  lemma HeldAfterItsCancel() returns (r: Record)
    ensures Ordered(r.log) && Verdict(r, -EIO) && Held(r.domain[0]) && !LeaseBook(r, 0)
  {
    hide Print, Accepts, Tokens, ReadRun, ReadError, Shows, Command, Numeral, Calls, ThreadFaults, ReadOf;
    hide Representable, Ordered;
    var text := Command(LEFT, 7);
    assert Representable(FREE_STATUS) && Representable(READY_STATUS) by { BothRepresentable(); }
    ReadOfShows(0, Before, FREE_STATUS);
    ReadOfShows(1, Before, FREE_STATUS);
    ReadOfShows(0, After, READY_STATUS);
    var s0, s1 := Store(0, Storing, text, |text|, true), Store(1, Storing, text, |text|, true);
    var a1 := Read(1, After, -EIO, seq(BUFFER_SIZE, _ => ' '));
    var c0, c1 := Store(0, Cancelling, CANCEL, 2, true), Store(1, Cancelling, CANCEL, 2, true);
    FailedRead(a1);
    var b0, b1, a0 := ReadOf(0, Before, FREE_STATUS), ReadOf(1, Before, FREE_STATUS), ReadOf(0, After, READY_STATUS);
    var log := LogOfRun(b0, b1, s0, s1, a0, a1, c0, c1);
    var d := Domain(true, true, ColdPrepared, 0, 0, FREE_STATUS, READY_STATUS);
    r := Record(7, [LEFT, LEFT], [d, d.(error := -EIO, after := BLANK)], log);
    TwiceCancelled(r, text);
  }

  lemma BothRepresentable()
    ensures Representable(FREE_STATUS) && Representable(READY_STATUS)
  {
  }

  lemma TwiceCancelled(r: Record, text: string)
    requires text == Command(LEFT, 7) && r.generation == 7 && r.targets == [LEFT, LEFT]
    requires r.domain == [Domain(true, true, ColdPrepared, 0, 0, FREE_STATUS, READY_STATUS),
                          Domain(true, true, ColdPrepared, -EIO, 0, FREE_STATUS, BLANK)]
    requires forall c: nat | c < 2 ::
               && Calls(r.log, c, Storing) == [Store(c, Storing, text, |text|, true)]
               && Calls(r.log, c, Cancelling) == [Store(c, Cancelling, CANCEL, 2, true)]
               && var b := Calls(r.log, c, Before); ReadRun(b) && ReadError(b) == 0 && Shows(b, FREE_STATUS)
    requires var a := Calls(r.log, 0, After); ReadRun(a) && ReadError(a) == 0 && Shows(a, READY_STATUS)
    requires var a := Calls(r.log, 1, After); ReadRun(a) && ReadError(a) == -EIO
    requires ThreadFaults(r.log) == Faults(0, 0, 0)
    ensures Verdict(r, -EIO) && Held(r.domain[0]) && !LeaseBook(r, 0)
  {
    hide ReadRun, ReadError, Shows, Command, Calls, ThreadFaults;
    assert Disp(r, 0) == NewPrepare && Disp(r, 1) == NewPrepare;
    assert StoreRun(Calls(r.log, 0, Storing), text) && StoreRun(Calls(r.log, 1, Storing), text);
    assert CommandText(r, 0) == text && CommandText(r, 1) == text;
    assert Stored(r, 0) && Stored(r, 1) && Owned(r, 0) && Owned(r, 1);
    assert Unsettled(r, 1, false);
    assert Trouble(r);
    assert StoreRun(Calls(r.log, 0, Cancelling), CANCEL) && StoreRun(Calls(r.log, 1, Cancelling), CANCEL);
    assert DomainDecided(r, -EIO, 0) && DomainDecided(r, -EIO, 1);
  }

  class Coordinator {
    var generation: nat
    var targets: seq<Target>
    var domain: seq<Domain>
    var disposition: seq<Disposition>
    var workers: seq<Worker>
    var legacyFallback: bool
    var error: int
    ghost var log: seq<Event>

    constructor () {
      generation, targets, domain, disposition, workers, legacyFallback, error := 0, [], [], [], [], false, 0;
      log := [];
    }

    ghost method Note(e: Event)
      requires Ordered(log) && AtMost(log, Rank(e))
      modifies this`log
      ensures log == old(log) + [e] && Ordered(log) && AtMost(log, Rank(e))
      ensures forall c: nat, p: Phase ::
                Calls(log, c, p) == if Belongs(e, c, p) then Calls(old(log), c, p) + [e] else Calls(old(log), c, p)
      ensures ThreadFaults(log) == AfterEvent(ThreadFaults(old(log)), e)
    {
      Logged(log, e);
      log := log + [e];
    }

    /** retry_write of a cancel: up to three attempts. */
    method RetryCancel(csi: nat) returns (result: int, ghost run: seq<Event>)
      requires Ordered(log)
      modifies this`log
      ensures Ordered(log) && OnlyCalls(old(log), log, csi, Cancelling)
      ensures Calls(log, csi, Cancelling) == Calls(old(log), csi, Cancelling) + run
      ensures StoreRun(run, CANCEL) && Last(run).Store? && result == Last(run).result
    {
      hide Rank, Calls, ThreadFaults, Ordered;
      run := [];
      var attempt := 0;
      result := -EIO;
      while attempt < 3
        invariant attempt == |run| <= 3
        invariant Ordered(log) && OnlyCalls(old(log), log, csi, Cancelling)
        invariant Calls(log, csi, Cancelling) == Calls(old(log), csi, Cancelling) + run
        invariant forall k | 0 <= k < |run| :: RetriedStore(run[k], CANCEL)
        invariant |run| > 0 ==> result == run[|run| - 1].result
      {
        result := *;
        var flag: bool := *;
        var e := Store(csi, Cancelling, CANCEL, result, flag);
        RankIsHighest(log, e);
        Note(e);
        run := run + [e];
        if Committed(e) || result != -EAGAIN {
          return;
        }
        attempt := attempt + 1;
      }
      assert |run| == 3 && RetriedStore(run[2], CANCEL);
      assert StoreRun(run, CANCEL);
    }

    /** Any content of the read buffer. */
    method AnyBuffer() returns (buffer: string)
      ensures |buffer| == BUFFER_SIZE
    {
      buffer := *;
      if |buffer| != BUFFER_SIZE { buffer := seq(BUFFER_SIZE, _ => '\0'); }
    }

    /** read_status: up to three reads, then the parser. */
    method ReadStatus(csi: nat, p: Phase, status: Status) returns (rc: int, read: Status)
      requires p == Before || p == After
      requires Ordered(log) && AtMost(log, PhaseRank(p)) && Calls(log, csi, p) == []
      modifies this`log
      ensures Ordered(log) && AtMost(log, PhaseRank(p)) && OnlyCalls(old(log), log, csi, p)
      ensures var run := Calls(log, csi, p);
              ReadRun(run) && rc == ReadError(run) <= 0 && (if rc == 0 then Shows(run, read) else read == status)
    {
      hide Rank, Calls, ThreadFaults, Ordered, AtMost, PhaseRank, Accepts, Tokens, Acceptable;
      ghost var run: seq<Event> := [];
      var attempt := 0;
      var result := -EIO;
      var buffer: string := [];
      while attempt < 3
        invariant attempt == |run| <= 3
        invariant Ordered(log) && AtMost(log, PhaseRank(p)) && OnlyCalls(old(log), log, csi, p)
        invariant Calls(log, csi, p) == run
        invariant forall k | 0 <= k < |run| ::
                  run[k].Read? && |run[k].buffer| == BUFFER_SIZE && run[k].result == -EAGAIN
        invariant |run| > 0 ==> run[|run| - 1].buffer == buffer && run[|run| - 1].result == result
      {
        result := *;
        buffer := AnyBuffer();
        ghost var e := Read(csi, p, result, buffer);
        assert Rank(e) == PhaseRank(p) by { RankOfRead(e); }
        Note(e);
        run := run + [e];
        if result != -EAGAIN {
          break;
        }
        attempt := attempt + 1;
      }
      assert ReadRun(run);
      if result < 0 {
        return result, status;
      }
      if result > BUFFER_SIZE {
        return -EOVERFLOW, status;
      }
      rc, read := ParseStatus(buffer[..result], status);
    }

    // ----- the worker threads

    ghost predicate Started(start: seq<Domain>)
      reads this
    {
      && |targets| == |domain| == |disposition| == |workers| == |start| == 2
      && Ordered(log) && AtMost(log, PhaseRank(Storing))
      && forall c: nat | c < 2 :: start[c].before == domain[c].before && WorkerOk(start, c)
    }

    function CommandFor(c: nat): string
      requires c < |targets| && c < |domain| && c < |disposition|
      reads this
    {
      Command(targets[c], if disposition[c] == RefreshReady then domain[c].before.generation else generation)
    }

    ghost predicate WorkerOk(start: seq<Domain>, c: nat)
      requires |targets| == |domain| == |disposition| == |workers| == |start| == 2 && c < 2
      reads this
    {
      WorkerState(workers[c], Calls(log, c, Storing), CommandFor(c), disposition[c] == RefreshReady, start[c],
                  domain[c])
    }

    /** One attempt of one worker's retry_write; the attempt that ends it also
        fills in the worker's report, which no other thread uses meanwhile. */
    method WorkerStep(ghost start: seq<Domain>, c: nat)
      requires Started(start) && c < 2 && workers[c].Running?
      modifies this`domain, this`workers, this`log
      ensures Started(start) && OnlyCalls(old(log), log, c, Storing)
      ensures domain[1 - c] == old(domain)[1 - c] && workers[1 - c] == old(workers)[1 - c]
      ensures workers[c].Finished? || workers[c] == Running(old(workers)[c].attempts + 1)
    {
      hide Rank, Calls, ThreadFaults, Ordered, AtMost, PhaseRank, Command, AfterStore, WorkerState, Committed;
      var text := CommandFor(c);
      var refresh := disposition[c] == RefreshReady;
      var result: int := *;
      var flag: bool := *;
      var e := Store(c, Storing, text, result, flag);
      assert Rank(e) == PhaseRank(Storing) by { RankOfStore(e); }
      ghost var run := Calls(log, c, Storing);
      Note(e);
      WorkerAdvances(workers[c], run, text, refresh, start[c], domain[c], e);
      if Committed(e) || result != -EAGAIN || workers[c].attempts == 2 {
        domain := domain[c := AfterStore(domain[c], refresh, e)];
        workers := workers[c := Finished];
      } else {
        workers := workers[c := Running(workers[c].attempts + 1)];
      }
      assert WorkerOk(start, c);
      assert WorkerOk(start, 1 - c);
    }

    /** The running workers make any progress, in any order. */
    method RunWorkers(ghost start: seq<Domain>)
      requires Started(start)
      modifies this`domain, this`workers, this`log
      ensures Started(start) && OnlyStores(old(log), log)
      ensures forall c: nat | c < 2 :: Progressed(old(workers)[c], workers[c])
      ensures forall c: nat | c < 2 && !old(workers)[c].Running? :: domain[c] == old(domain)[c]
    {
      hide Started, Progressed, ThreadFaults, Calls;
      assert |workers| == 2 && |domain| == 2 by { Sizes(start); }
      NoProgress(workers);
      while *
        invariant Started(start) && OnlyStores(old(log), log) && |workers| == 2 && |domain| == 2
        invariant forall c: nat | c < 2 :: Progressed(old(workers)[c], workers[c])
        invariant forall c: nat | c < 2 && !old(workers)[c].Running? :: domain[c] == old(domain)[c]
        decreases Remaining(workers)
      {
        var c: int := *;
        if c < 0 || c >= 2 || !workers[c].Running? {
          break;
        }
        ghost var before := workers;
        AttemptsBounded(start, c);
        WorkerStep(start, c);
        Sizes(start);
        StepProgresses(old(workers), before, workers, c);
      }
    }

    lemma Sizes(start: seq<Domain>)
      requires Started(start)
      ensures |targets| == |domain| == |disposition| == |workers| == |start| == 2
    {
    }

    lemma AttemptsBounded(start: seq<Domain>, c: nat)
      requires Started(start) && c < 2 && workers[c].Running?
      ensures workers[c].attempts < 3
    {
      assert WorkerOk(start, c);
    }

    /** pthread_create for each wanted domain, stopping at the first refusal. */
    method StartWorkers(ghost start: seq<Domain>) returns (firstError: int)
      requires Started(start) && domain == start && workers == [NotCreated, NotCreated]
               && ThreadFaults(log) == Faults(0, 0, 0)
      modifies this`domain, this`workers, this`log
      ensures Started(start) && forall c: nat, q: Phase | q != Storing :: Calls(log, c, q) == Calls(old(log), c, q)
      ensures !Wants(targets[0], disposition[0]) ==> workers[0].NotCreated?
      ensures !Wants(targets[1], disposition[1]) ==> workers[1].NotCreated?
      ensures Wants(targets[0], disposition[0]) ==> !workers[0].NotCreated? && !workers[0].Joined?
      ensures Wants(targets[1], disposition[1]) ==>
                && !workers[1].Joined?
                && (workers[1].NotCreated? <==> Wants(targets[0], disposition[0]) && workers[0].Refused?)
      ensures ThreadTrouble(log) <==> workers[0].Refused? || workers[1].Refused?
      ensures firstError <= 0 && firstError == ThreadFaults(log).first
      ensures forall c: nat | c < 2 :: Of(ThreadFaults(log), c) == WorkerError(workers[c])
    {
      hide Started, ThreadFaults, Calls;
      Sizes(start);
      firstError := 0;
      var csi := 0;
      while csi < 2
        invariant csi <= 2 && Started(start) && |workers| == 2 && firstError == 0
                  && ThreadFaults(log) == Faults(0, 0, 0)
        invariant forall c: nat, q: Phase | q != Storing :: Calls(log, c, q) == Calls(old(log), c, q)
        invariant forall c | csi <= c < 2 :: workers[c].NotCreated?
        invariant forall c | 0 <= c < csi ::
                    if Wants(targets[c], disposition[c]) then workers[c].Running? || workers[c].Finished?
                    else workers[c].NotCreated?
      {
        if Wants(targets[csi], disposition[csi]) {
          firstError := StartWorker(start, csi);
          Sizes(start);
          if firstError < 0 {
            break;
          }
        }
        csi := csi + 1;
      }
    }

    method StartWorker(ghost start: seq<Domain>, c: nat) returns (error: int)
      requires Started(start) && c < 2 && workers[c].NotCreated? && !workers[1 - c].Refused?
      modifies this`domain, this`workers, this`log
      ensures Started(start) && forall d: nat, q: Phase | q != Storing :: Calls(log, d, q) == Calls(old(log), d, q)
      ensures Progressed(old(workers)[1 - c], workers[1 - c])
      ensures error <= 0
      ensures if error < 0 then workers[c] == Refused(error) else workers[c].Running? || workers[c].Finished?
      ensures ThreadFaults(log) == Fault(ThreadFaults(old(log)), c, error)
    {
      hide ThreadFaults, Calls, Rank, Ordered, AtMost, WorkerState, Command, Progressed;
      assert WorkerOk(start, c) && WorkerOk(start, 1 - c);
      NoProgress(workers);
      ghost var run := Calls(log, c, Storing);
      var result: int := *;
      var e := ThreadCreate(c, result);
      assert Rank(e) == PhaseRank(Storing) by { RankOfThread(e); }
      Note(e);
      if result != 0 {
        error := if result > 0 then -result else result;
        CreationStates(run, CommandFor(c), disposition[c] == RefreshReady, start[c], domain[c], error);
        domain := domain[c := domain[c].(error := error, action := ActionFailed)];
        workers := workers[c := Refused(error)];
        assert WorkerOk(start, c) && WorkerOk(start, 1 - c);
      } else {
        error := 0;
        CreationStates(run, CommandFor(c), disposition[c] == RefreshReady, start[c], domain[c], -1);
        workers := workers[c := Running(0)];
        assert WorkerOk(start, c) && WorkerOk(start, 1 - c);
        ghost var before := workers;
        RunWorkers(start);
        assert Progressed(before[c], workers[c]) && Progressed(before[1 - c], workers[1 - c]);
        CreationProgress(before[c], workers[c]);
      }
    }

    /** pthread_join of one worker.  Failing joins, any number of them, are
        retried; a join succeeds only once the worker is done. */
    method JoinWorker(ghost start: seq<Domain>, c: nat) returns (joinError: int)
      requires Started(start) && c < 2 && (workers[c].Running? || workers[c].Finished?)
      modifies this`domain, this`workers, this`log
      ensures Started(start) && forall d: nat, q: Phase | q != Storing :: Calls(log, d, q) == Calls(old(log), d, q)
      ensures Progressed(old(workers)[1 - c], workers[1 - c])
      ensures !old(workers)[1 - c].Running? ==> domain[1 - c] == old(domain)[1 - c]
      ensures joinError <= 0 && workers[c] == Joined(joinError)
      ensures ThreadFaults(log) == Fault(ThreadFaults(old(log)), c, joinError)
    {
      hide Started, ThreadFaults, Calls, Rank, Ordered, AtMost, WorkerState, Progressed;
      NoProgress(workers);
      Sizes(start);
      joinError := 0;
      var failures: int := *;
      while failures > 0
        invariant Started(start) && |workers| == |domain| == 2
        invariant forall d: nat, q: Phase | q != Storing :: Calls(log, d, q) == Calls(old(log), d, q)
        invariant Progressed(old(workers)[c], workers[c]) && Progressed(old(workers)[1 - c], workers[1 - c])
        invariant !old(workers)[1 - c].Running? ==> domain[1 - c] == old(domain)[1 - c]
        invariant joinError <= 0 && ThreadFaults(log) == Fault(ThreadFaults(old(log)), c, joinError)
      {
        var result: int := *;
        if result != 0 {
          RecordJoin(start, c, result);
          if joinError == 0 {
            joinError := if result > 0 then -result else result;
          }
        }
        ProgressStep(start, c, old(workers), old(domain));
        failures := failures - 1;
      }
      while workers[c].Running?
        invariant Started(start) && |workers| == |domain| == 2
        invariant forall d: nat, q: Phase | q != Storing :: Calls(log, d, q) == Calls(old(log), d, q)
        invariant Progressed(old(workers)[c], workers[c]) && Progressed(old(workers)[1 - c], workers[1 - c])
        invariant !old(workers)[1 - c].Running? ==> domain[1 - c] == old(domain)[1 - c]
        invariant ThreadFaults(log) == Fault(ThreadFaults(old(log)), c, joinError)
        decreases Remaining(workers)
      {
        ghost var before := workers;
        AttemptsBounded(start, c);
        WorkerStep(start, c);
        Sizes(start);
        StepProgress(old(workers)[c], before[c], workers[c]);
        StepsLeft(before, workers, c);
        ghost var stepped := workers;
        ProgressStep(start, c, old(workers), old(domain));
        ProgressKeepsLeft(stepped, workers);
      }
      ProgressFinishes(old(workers)[c], workers[c]);
      RecordJoin(start, c, 0);
      FinishJoin(start, c, joinError);
    }

    /** The other threads go on for a while. */
    method ProgressStep(ghost start: seq<Domain>, c: nat, ghost first: seq<Worker>, ghost firstDomain: seq<Domain>)
      requires Started(start) && c < 2 && |first| == |firstDomain| == 2
      requires Progressed(first[c], workers[c]) && Progressed(first[1 - c], workers[1 - c])
      requires !first[1 - c].Running? ==> domain[1 - c] == firstDomain[1 - c]
      modifies this`domain, this`workers, this`log
      ensures Started(start) && |workers| == |domain| == 2 && OnlyStores(old(log), log)
      ensures Progressed(first[c], workers[c]) && Progressed(first[1 - c], workers[1 - c])
      ensures !first[1 - c].Running? ==> domain[1 - c] == firstDomain[1 - c]
      ensures Progressed(old(workers)[0], workers[0]) && Progressed(old(workers)[1], workers[1])
    {
      hide Started, ThreadFaults, Calls;
      Sizes(start);
      RunWorkers(start);
      Sizes(start);
      assert Progressed(old(workers)[c], workers[c]) && Progressed(old(workers)[1 - c], workers[1 - c]);
    }

    ghost method RecordJoin(start: seq<Domain>, c: nat, result: int)
      requires Started(start)
      modifies this`log
      ensures Started(start) && forall d: nat, q: Phase :: Calls(log, d, q) == Calls(old(log), d, q)
      ensures ThreadFaults(log) == Fault(ThreadFaults(old(log)), c, Negative(result))
    {
      hide ThreadFaults, Calls, Rank, Ordered, AtMost, WorkerState, Command;
      var e := ThreadJoin(c, result);
      assert Rank(e) == PhaseRank(Storing) by { RankOfThread(e); }
      assert WorkerOk(start, 0) && WorkerOk(start, 1);
      Note(e);
      assert WorkerOk(start, 0) && WorkerOk(start, 1);
    }

    method FinishJoin(ghost start: seq<Domain>, c: nat, joinError: int)
      requires Started(start) && c < 2 && workers[c].Finished? && joinError <= 0
      modifies this`domain, this`workers
      ensures Started(start) && workers == old(workers)[c := Joined(joinError)]
      ensures domain[1 - c] == old(domain)[1 - c]
    {
      hide ThreadFaults, Calls, Rank, Ordered, AtMost, AfterStore, StoreRun, Command;
      assert WorkerOk(start, c) && WorkerOk(start, 1 - c);
      if joinError != 0 && domain[c].error == 0 {
        domain := domain[c := domain[c].(error := joinError)];
      }
      workers := workers[c := Joined(joinError)];
      assert WorkerOk(start, c) && WorkerOk(start, 1 - c);
    }

    ghost function View(): Record
      reads this
    {
      Record(generation, targets, domain, log)
    }

    /** What classification fixed before the workers start. */
    ghost predicate Classified()
      reads this
    {
      && |targets| == |domain| == |disposition| == 2
      && forall c: nat | c < 2 && targets[c].active :: disposition[c] == Disp(View(), c)
    }

    /** The join loop, and the loop after it that remembers the workers' errors. */
    method JoinWorkers(ghost start: seq<Domain>, error0: int)
      returns (firstError: int, globalFailure: bool, rejected: seq<bool>)
      requires Started(start) && error0 <= 0 && error0 == ThreadFaults(log).first
      requires forall c: nat | c < 2 :: Of(ThreadFaults(log), c) == WorkerError(workers[c])
      requires forall c: nat | c < 2 :: Fresh(start[c], targets[c], disposition[c])
      requires forall c: nat | c < 2 :: !Wants(targets[c], disposition[c]) ==> workers[c].NotCreated?
      requires forall c: nat | c < 2 && Wants(targets[c], disposition[c]) && workers[c].NotCreated? ::
               ThreadTrouble(log)
      requires forall c: nat | c < 2 && workers[c].Refused? :: ThreadTrouble(log)
      requires forall c: nat | c < 2 :: !workers[c].Joined?
      requires Classified()
      modifies this`domain, this`workers, this`log
      ensures forall d: nat, q: Phase | q != Storing :: Calls(log, d, q) == Calls(old(log), d, q)
      ensures Ordered(log) && AtMost(log, PhaseRank(Storing)) && Classified()
      ensures globalFailure <==> ThreadTrouble(log)
      ensures |start| == 2 && forall c: nat | c < 2 :: domain[c].before == start[c].before
      ensures |rejected| == 2 && forall c: nat | c < 2 :: AfterJoin(View(), c, globalFailure, rejected[c])
      ensures firstError <= 0
      ensures firstError == FirstOf(ThreadFaults(log).first, FirstOf(domain[0].error, domain[1].error))
    {
      hide ThreadFaults, Calls, Ordered, AtMost, PhaseRank, WorkerState, Started, Disp, AfterJoin, Fresh;
      hide Classified;
      Sizes(start);
      firstError := error0;
      globalFailure := error0 != 0;
      rejected := [false, false];
      var csi := 0;
      while csi < 2
        invariant csi <= 2 && Started(start) && |workers| == |domain| == 2 && |rejected| == 2 && Classified()
        invariant forall d: nat, q: Phase | q != Storing :: Calls(log, d, q) == Calls(old(log), d, q)
        invariant globalFailure <==> ThreadTrouble(log)
        invariant firstError <= 0 && firstError == ThreadFaults(log).first
        invariant forall c: nat | c < 2 :: Of(ThreadFaults(log), c) == WorkerError(workers[c])
        invariant forall c: nat | c < 2 ::
                    JoinProgress(workers[c], domain[c], Wants(targets[c], disposition[c]), c < csi, rejected[c],
                                 globalFailure)
      {
        var rejects;
        firstError, globalFailure, rejects := JoinNext(start, csi, firstError, globalFailure, rejected[1 - csi]);
        rejected := rejected[csi := rejects];
        csi := csi + 1;
      }
      JoinFacts(start, 0, globalFailure, rejected[0]);
      JoinFacts(start, 1, globalFailure, rejected[1]);
      firstError := RememberErrors(firstError);
      StartKeepsBefore(start);
      assert Ordered(log) && AtMost(log, PhaseRank(Storing)) by { StartedOrdered(start); }
    }

    /** One turn of the join loop. */
    method JoinNext(ghost start: seq<Domain>, c: nat, error0: int, failure0: bool, ghost other: bool)
      returns (firstError: int, globalFailure: bool, rejected: bool)
      requires Started(start) && Classified() && c < 2 && |workers| == |domain| == 2
      requires error0 == ThreadFaults(log).first <= 0 && failure0 == (error0 != 0)
      requires forall d: nat | d < 2 :: Of(ThreadFaults(log), d) == WorkerError(workers[d])
      requires |targets| == |disposition| == 2
      requires JoinProgress(workers[c], domain[c], Wants(targets[c], disposition[c]), false, false, failure0)
      requires JoinProgress(workers[1 - c], domain[1 - c], Wants(targets[1 - c], disposition[1 - c]), 1 - c < c,
                            other, failure0)
      modifies this`domain, this`workers, this`log
      ensures Started(start) && Classified() && |workers| == |domain| == 2
      ensures forall d: nat, q: Phase | q != Storing :: Calls(log, d, q) == Calls(old(log), d, q)
      ensures firstError == ThreadFaults(log).first <= 0 && globalFailure == (firstError != 0)
      ensures forall d: nat | d < 2 :: Of(ThreadFaults(log), d) == WorkerError(workers[d])
      ensures JoinProgress(workers[c], domain[c], Wants(targets[c], disposition[c]), true, rejected, globalFailure)
      ensures JoinProgress(workers[1 - c], domain[1 - c], Wants(targets[1 - c], disposition[1 - c]), 1 - c < c, other,
                           globalFailure)
    {
      hide ThreadFaults, Calls, Started, Classified, Wants;
      firstError, globalFailure, rejected := error0, failure0, false;
      if workers[c].Running? || workers[c].Finished? {
        var joinError := JoinStep(start, c);
        if joinError != 0 {
          firstError := if firstError == 0 then joinError else firstError;
          globalFailure := true;
        } else if domain[c].error < 0 {
          rejected := true;
        }
      }
    }

    /** One join, seen from the coordinator. */
    method JoinStep(ghost start: seq<Domain>, c: nat) returns (joinError: int)
      requires Started(start) && Classified() && c < 2 && |workers| == 2
               && (workers[c].Running? || workers[c].Finished?)
      modifies this`domain, this`workers, this`log
      ensures Started(start) && Classified() && |workers| == |domain| == 2
      ensures forall d: nat, q: Phase | q != Storing :: Calls(log, d, q) == Calls(old(log), d, q)
      ensures joinError <= 0 && workers[c] == Joined(joinError)
      ensures !old(workers)[1 - c].Running? ==>
              workers[1 - c] == old(workers)[1 - c] && domain[1 - c] == old(domain)[1 - c]
      ensures old(workers)[1 - c].Running? ==> workers[1 - c].Running? || workers[1 - c].Finished?
      ensures ThreadFaults(log) == Fault(ThreadFaults(old(log)), c, joinError)
    {
      hide ThreadFaults, Calls, WorkerState, Started, Classified, Progressed;
      ghost var before := workers;
      joinError := JoinWorker(start, c);
      Sizes(start);
      OtherStays(before[1 - c], workers[1 - c]);
      BeforesKept(start);
    }

    /** remember_error over the active domains. */
    method RememberErrors(error0: int) returns (firstError: int)
      requires error0 <= 0 && |targets| == |domain| == 2
      requires forall c: nat | c < 2 :: domain[c].error <= 0 && (!targets[c].active ==> domain[c].error == 0)
      ensures firstError <= 0 && firstError == FirstOf(error0, FirstOf(domain[0].error, domain[1].error))
    {
      firstError := error0;
      var csi := 0;
      while csi < 2
        invariant csi <= 2 && firstError <= 0
        invariant firstError == if csi == 0 then error0 else if csi == 1 then FirstOf(error0, domain[0].error)
                                else FirstOf(error0, FirstOf(domain[0].error, domain[1].error))
      {
        if targets[csi].active && domain[csi].error < 0 && firstError == 0 {
          firstError := domain[csi].error;
        }
        csi := csi + 1;
      }
    }

    lemma StartedOrdered(start: seq<Domain>)
      requires Started(start)
      ensures Ordered(log) && AtMost(log, PhaseRank(Storing))
    {
    }

    twostate lemma BeforesKept(start: seq<Domain>)
      requires old(Started(start)) && Started(start) && old(Classified()) && unchanged(this`targets, this`disposition)
      ensures Classified()
    {
      hide WorkerState, Calls, Ordered, AtMost, Classify;
    }

    lemma JoinFacts(start: seq<Domain>, c: nat, trouble: bool, rejected: bool)
      requires Started(start) && c < 2 && Fresh(start[c], targets[c], disposition[c]) && Classified()
      requires JoinProgress(workers[c], domain[c], Wants(targets[c], disposition[c]), true, rejected, trouble)
      requires Of(ThreadFaults(log), c) == WorkerError(workers[c])
      ensures AfterJoin(View(), c, trouble, rejected) && domain[c].error <= 0
      ensures !targets[c].active ==> domain[c].error == 0
    {
      assert WorkerOk(start, c);
      WorkerFacts(View(), c, workers[c], start[c], disposition[c], trouble, rejected);
    }

    /** The second read of one active domain, its validation and its error. */
    method ReadDomainAfter(ghost mid: Record, csi: nat, rejected: bool) returns (result: int)
      requires csi < 2 && Has(mid, csi) && Classified() && targets == mid.targets && generation == mid.generation
      requires targets[csi].active && domain[csi] == mid.domain[csi]
      requires Ordered(log) && AtMost(log, PhaseRank(After)) && Calls(log, csi, After) == []
      modifies this`domain, this`log
      ensures Ordered(log) && AtMost(log, PhaseRank(After)) && OnlyCalls(old(log), log, csi, After)
      ensures Classified() && |old(domain)| == 2 && domain == old(domain)[csi := domain[csi]]
      ensures AfterRead(mid, View(), csi, rejected)
      ensures result <= 0 && (Unsettled(View(), csi, rejected) <==> result < 0)
      ensures result == ReadFault(View(), csi, rejected)
    {
      hide ThreadFaults, Calls, Ordered, PhaseRank, Classify, ValidateFinal, ReadError, ReadRun, Shows, Unsettled;
      hide AfterRead, AtMost, ReadFault;
      ghost var before := View();
      var rc, after := ReadStatus(csi, After, domain[csi].after);
      result := rc;
      if rc == 0 && !rejected {
        result := ValidateFinal(targets[csi], domain[csi].before, after, disposition[csi], generation);
      }
      var d := domain[csi].(after := after,
                            error := if domain[csi].error == 0 && result < 0 then result else domain[csi].error);
      domain := domain[csi := d];
      assert Classified() by { ClassifiedKept(before); }
      ActiveRead(mid, View(), csi, rejected, rc, result);
    }

    /** One turn of the second round. */
    method ReadNext(ghost mid: Record, csi: nat, rejected: bool) returns (result: int)
      requires csi < 2 && Has(mid, csi) && Classified() && targets == mid.targets && generation == mid.generation
      requires domain[csi] == mid.domain[csi]
      requires Ordered(log) && AtMost(log, PhaseRank(After)) && Calls(log, csi, After) == []
      modifies this`domain, this`log
      ensures Ordered(log) && AtMost(log, PhaseRank(After)) && OnlyCalls(old(log), log, csi, After)
      ensures Classified() && |old(domain)| == 2 && domain == old(domain)[csi := domain[csi]]
      ensures AfterRead(mid, View(), csi, rejected)
      ensures result <= 0 && (Unsettled(View(), csi, rejected) <==> result < 0)
      ensures result == ReadFault(View(), csi, rejected)
    {
      hide ThreadFaults, Calls, Ordered, PhaseRank, Unsettled, AfterRead, AtMost, ReadFault, Disp;
      if targets[csi].active {
        result := ReadDomainAfter(mid, csi, rejected);
      } else {
        result := 0;
        InactiveRead(mid, View(), csi, rejected);
      }
    }

    /** The second round of reads, with validation of the domains not rejected. */
    method ReadAfter(ghost mid: Record, error0: int, failure0: bool, rejected: seq<bool>)
      returns (firstError: int, globalFailure: bool)
      requires mid == View() && |rejected| == 2 && Classified()
      requires Ordered(log) && AtMost(log, PhaseRank(Storing)) && error0 <= 0
      requires forall c: nat :: Calls(log, c, After) == []
      modifies this`domain, this`log
      ensures Classified() && Has(View(), 0)
      ensures Ordered(log) && AtMost(log, PhaseRank(After)) && OnlyPhase(old(log), log, After)
      ensures forall c: nat | c < 2 :: AfterRead(mid, View(), c, rejected[c])
      ensures firstError <= 0
      ensures globalFailure <==> failure0 || exists c: nat | c < 2 :: Unsettled(View(), c, rejected[c])
      ensures firstError == 0 <==> error0 == 0 && forall c: nat | c < 2 :: !Unsettled(View(), c, rejected[c])
      ensures firstError == FirstOf(error0,
                                    FirstOf(ReadFault(View(), 0, rejected[0]), ReadFault(View(), 1, rejected[1])))
    {
      hide ThreadFaults, Calls, Ordered, PhaseRank, Unsettled, AfterRead, AtMost, Disp, ReadFault;
      firstError, globalFailure := error0, failure0;
      WeakenAtMost(log);
      var csi := 0;
      while csi < 2
        invariant csi <= 2 && Classified() && Ordered(log) && AtMost(log, PhaseRank(After))
                  && OnlyPhase(old(log), log, After)
        invariant forall c: nat | c >= csi :: Calls(log, c, After) == []
        invariant forall c: nat | c < csi :: AfterRead(mid, View(), c, rejected[c])
        invariant forall c: nat | csi <= c < 2 :: domain[c] == mid.domain[c]
        invariant firstError <= 0
        invariant globalFailure <==> failure0 || exists c: nat | c < csi :: Unsettled(View(), c, rejected[c])
        invariant firstError == 0 <==> error0 == 0 && forall c: nat | c < csi :: !Unsettled(View(), c, rejected[c])
        invariant firstError == if csi == 0 then error0
                                else if csi == 1 then FirstOf(error0, ReadFault(View(), 0, rejected[0]))
                                else FirstOf(error0, FirstOf(ReadFault(View(), 0, rejected[0]),
                                                             ReadFault(View(), 1, rejected[1])))
      {
        ghost var before := View();
        var result := ReadNext(mid, csi, rejected[csi]);
        if csi == 1 {
          ReadFrame(mid, before, View(), 0, rejected[0]);
        }
        if result < 0 {
          globalFailure := true;
          firstError := if firstError == 0 then result else firstError;
        }
        csi := csi + 1;
      }
    }

    lemma ClassifiedKept(before: Record)
      requires Has(before, 0) && Has(View(), 0) && |disposition| == 2 && before.targets == targets
      requires forall c: nat | c < 2 :: before.domain[c].before == domain[c].before
      requires forall c: nat | c < 2 && targets[c].active :: disposition[c] == Disp(before, c)
      ensures Classified()
    {
      hide Classify;
    }

    // ----- the reads before, and classification

    /** The first read of one active domain. */
    method ReadDomainBefore(csi: nat) returns (result: int)
      requires |targets| == |domain| == 2 && csi < 2 && targets[csi].active && domain[csi] == Initial(targets[csi])
      requires Ordered(log) && AtMost(log, PhaseRank(Before)) && Calls(log, csi, Before) == []
      modifies this`domain, this`log
      ensures Ordered(log) && AtMost(log, PhaseRank(Before)) && OnlyCalls(old(log), log, csi, Before)
      ensures |domain| == |old(domain)| == 2 && domain == old(domain)[csi := domain[csi]]
      ensures BeforeRead(View(), csi) && result == BeforeError(View(), csi)
    {
      hide ThreadFaults, Calls, Ordered, PhaseRank, ReadError, ReadRun, Shows, AtMost;
      var before;
      result, before := ReadStatus(csi, Before, domain[csi].before);
      domain := domain[csi := domain[csi].(before := before)];
      if result < 0 {
        domain := domain[csi := domain[csi].(error := result, action := ActionFailed)];
      }
    }

    method ReadBefore() returns (activeCount: nat, missingCount: nat, firstError: int)
      requires |targets| == 2 && domain == [Initial(targets[0]), Initial(targets[1])] && log == []
      modifies this`domain, this`log
      ensures Has(View(), 0) && Ordered(log) && AtMost(log, PhaseRank(Before)) && OnlyPhase([], log, Before)
      ensures forall c: nat | c < 2 :: BeforeRead(View(), c)
      ensures firstError == FirstOf(BeforeError(View(), 0), BeforeError(View(), 1))
      ensures activeCount == Count(targets[0].active, targets[1].active)
      ensures missingCount == Count(BeforeError(View(), 0) == -ENOENT, BeforeError(View(), 1) == -ENOENT)
    {
      hide ThreadFaults, Ordered, PhaseRank, AtMost, BeforeRead, BeforeError;
      activeCount, missingCount, firstError := 0, 0, 0;
      EmptyLog();
      var csi := 0;
      while csi < 2
        invariant csi <= 2 && |domain| == 2 && Ordered(log) && AtMost(log, PhaseRank(Before))
                  && OnlyPhase([], log, Before)
        invariant forall c: nat | c >= csi :: Calls(log, c, Before) == []
        invariant forall c: nat | c < csi :: BeforeRead(View(), c)
        invariant forall c: nat | csi <= c < 2 :: domain[c] == Initial(targets[c])
        invariant csi == 0 ==> activeCount == 0 && missingCount == 0 && firstError == 0
        invariant csi == 1 ==> firstError == BeforeError(View(), 0) && activeCount == Count(targets[0].active, false)
        invariant csi == 1 ==> missingCount == Count(BeforeError(View(), 0) == -ENOENT, false)
        invariant csi == 2 ==> firstError == FirstOf(BeforeError(View(), 0), BeforeError(View(), 1))
        invariant csi == 2 ==> activeCount == Count(targets[0].active, targets[1].active)
        invariant csi == 2 ==>
                    missingCount == Count(BeforeError(View(), 0) == -ENOENT, BeforeError(View(), 1) == -ENOENT)
      {
        ghost var before := View();
        if targets[csi].active {
          activeCount := activeCount + 1;
          var result := ReadDomainBefore(csi);
          BeforeErrorSign(View(), csi);
          if result == -ENOENT {
            missingCount := missingCount + 1;
          }
          if result < 0 && firstError == 0 {
            firstError := result;
          }
        } else {
          InactiveBefore(View(), csi);
        }
        if csi == 1 {
          BeforeFrame(before, View(), 0);
        }
        csi := csi + 1;
      }
    }

    /** Classification of one active domain. */
    method ClassifyDomain(ghost read: Record, csi: nat) returns (failure: int)
      requires |targets| == |domain| == |disposition| == 2 && csi < 2 && targets[csi].active && domain[csi].error == 0
      requires Has(read, csi) && read.targets == targets && read.domain[csi] == domain[csi]
      modifies this`domain, this`disposition
      ensures |old(domain)| == |old(disposition)| == 2
      ensures domain == old(domain)[csi := AfterClassify(targets[csi], old(domain)[csi])]
      ensures disposition == old(disposition)[csi := Disp(read, csi)]
      ensures failure == ClassError(read, csi)
    {
      hide Classify, ClassifyError, FailedDispositionError;
      var verdict := Classify(targets[csi], domain[csi].before);
      ClassifyErrorIs(targets[csi], domain[csi].before);
      disposition := disposition[csi := verdict.disposition];
      failure := 0;
      if verdict.rc < 0 || verdict.disposition == Fail {
        failure := if verdict.rc < 0 then verdict.rc else FailedDispositionError(domain[csi].before);
        domain := domain[csi := domain[csi].(error := failure, action := ActionFailed)];
      } else if verdict.disposition == Warm {
        domain := domain[csi := domain[csi].(action := WarmReused)];
      }
    }

    method ClassifyAll(ghost read: Record) returns (firstError: int)
      requires Has(View(), 0) && read == View() && forall c: nat | c < 2 :: domain[c].error == 0
      modifies this`domain, this`disposition
      ensures |domain| == |disposition| == 2
      ensures forall c: nat | c < 2 :: domain[c] == AfterClassify(targets[c], read.domain[c])
      ensures forall c: nat | c < 2 :: disposition[c] == if targets[c].active then Disp(read, c) else Fail
      ensures firstError == FirstOf(ClassError(read, 0), ClassError(read, 1))
    {
      hide Disp, ClassError, AfterClassify;
      firstError := 0;
      disposition := [Fail, Fail];
      var csi := 0;
      while csi < 2
        invariant csi <= 2 && |domain| == |disposition| == 2
        invariant forall c: nat | c < csi :: domain[c] == AfterClassify(targets[c], read.domain[c])
        invariant forall c: nat | c < csi :: disposition[c] == if targets[c].active then Disp(read, c) else Fail
        invariant forall c: nat | csi <= c < 2 :: domain[c] == read.domain[c] && disposition[c] == Fail
        invariant firstError == if csi == 0 then 0 else if csi == 1 then ClassError(read, 0)
                                else FirstOf(ClassError(read, 0), ClassError(read, 1))
      {
        if targets[csi].active {
          var failure := ClassifyDomain(read, csi);
          firstError := if firstError == 0 then failure else firstError;
        } else {
          InactiveClass(read, csi);
        }
        csi := csi + 1;
      }
    }

    // ----- the epoch check and the rollback

    method CheckEpochs(error0: int, failure0: bool, rejected: seq<bool>) returns (firstError: int, globalFailure: bool)
      requires |targets| == |domain| == |rejected| == 2 && error0 <= 0
      modifies this`domain
      ensures |old(domain)| == |domain| == 2 && domain[0] == old(domain)[0]
      ensures var differ := EpochsDiffer(old(View()), rejected);
              && globalFailure == (failure0 || differ)
              && firstError == (if error0 == 0 && differ then -ESTALE else error0)
              && domain[1] == if differ && old(domain)[1].error == 0 then old(domain)[1].(error := -ESTALE)
                              else old(domain)[1]
    {
      firstError, globalFailure := error0, failure0;
      var epoch := 0;
      var csi := 0;
      while csi < 2
        invariant csi <= 2 && |domain| == 2
        invariant csi < 2 ==> domain == old(domain) && firstError == error0 && globalFailure == failure0
        invariant csi == 0 ==> epoch == 0
        invariant csi == 1 ==> epoch == if targets[0].active && !rejected[0] then domain[0].after.epoch else 0
        invariant csi == 2 ==>
                    var differ := EpochsDiffer(old(View()), rejected);
                    && domain[0] == old(domain)[0]
                    && globalFailure == (failure0 || differ)
                    && firstError == (if error0 == 0 && differ then -ESTALE else error0)
                    && domain[1] == if differ && old(domain)[1].error == 0 then old(domain)[1].(error := -ESTALE)
                                    else old(domain)[1]
      {
        if targets[csi].active && !rejected[csi] && domain[csi].after.epoch != 0 {
          if epoch == 0 {
            epoch := domain[csi].after.epoch;
          } else if domain[csi].after.epoch != epoch {
            if domain[csi].error == 0 {
              domain := domain[csi := domain[csi].(error := -ESTALE)];
            }
            firstError := if firstError == 0 then -ESTALE else firstError;
            globalFailure := true;
          }
        }
        csi := csi + 1;
      }
    }

    /** Cancels of the owned leases, all of them or only the rejected domains'. */
    method Rollback(ghost mid: Record, partial: bool, rejected: seq<bool>)
      requires mid == View() && Has(mid, 0) && |rejected| == 2 && Ordered(log)
      requires forall c: nat :: Calls(log, c, Cancelling) == []
      modifies this`domain, this`log
      ensures |domain| == 2 && Ordered(log) && OnlyPhase(old(log), log, Cancelling)
      ensures forall c: nat | c < 2 ::
                RolledBack(mid, View(), c, mid.domain[c].rollbackOwned && (!partial || rejected[c]))
    {
      hide ThreadFaults, Calls, Ordered, StoreRun, StoreError;
      var csi := 0;
      while csi < 2
        invariant csi <= 2 && |domain| == 2 && Ordered(log) && OnlyPhase(old(log), log, Cancelling)
        invariant forall c: nat | csi <= c :: Calls(log, c, Cancelling) == []
        invariant forall c: nat | csi <= c < 2 :: domain[c] == mid.domain[c]
        invariant forall c: nat | c < csi ::
                  RolledBack(mid, View(), c, mid.domain[c].rollbackOwned && (!partial || rejected[c]))
      {
        if domain[csi].rollbackOwned && (!partial || rejected[csi]) {
          var result;
          ghost var run;
          result, run := RetryCancel(csi);
          assert [] + run == run;
          assert run != [] && Last(run).Store? by { StoreErrorIs(run); }
          assert result == |CANCEL| <==> StoreError(Last(run)) == 0 by { StoreErrorIs(run); }
          if result != |CANCEL| {
            var failure := if result < 0 then result else -EIO;
            assert failure == StoreError(Last(run)) by { StoreErrorIs(run); }
            domain := domain[csi := domain[csi].(rollbackError := failure)];
          }
        }
        csi := csi + 1;
      }
    }

    // ----- the whole call

    method CountSurvivors() returns (survivors: nat)
      requires |targets| == |domain| == 2
      ensures survivors == Count(targets[0].active && domain[0].error == 0, targets[1].active && domain[1].error == 0)
    {
      survivors := 0;
      var csi := 0;
      while csi < 2
        invariant csi <= 2
        invariant csi == 0 ==> survivors == 0
        invariant csi == 1 ==> survivors == Count(targets[0].active && domain[0].error == 0, false)
        invariant csi == 2 ==>
                    survivors == Count(targets[0].active && domain[0].error == 0,
                                       targets[1].active && domain[1].error == 0)
      {
        if targets[csi].active && domain[csi].error == 0 {
          survivors := survivors + 1;
        }
        csi := csi + 1;
      }
    }

    /** The second reads and the epoch check. */
    method CheckFinal(ghost r1: Record, error1: int, failure1: bool, rejected: seq<bool>)
      returns (firstError: int, globalFailure: bool, ghost r2: Record)
      requires r1 == View() && Joined1(r1, failure1, rejected, error1) && Classified()
      requires Ordered(log) && AtMost(log, PhaseRank(Storing))
      requires forall c: nat :: Calls(log, c, After) == []
      modifies this`domain, this`log
      ensures Ordered(log) && OnlyPhase(old(log), log, After)
      ensures Read2(r1, r2, rejected) && Checked(r2, View()) && firstError <= 0
      ensures firstError == 0 <==> !Trouble(r2) && !Refusal(r2, 0) && !Refusal(r2, 1)
      ensures globalFailure == Trouble(r2) && firstError == WorkError(r2)
    {
      hide ThreadFaults, Calls, Ordered, AtMost, PhaseRank, AfterJoin, AfterRead, Unsettled, Trouble, Refusal;
      hide EpochsDiffer, Classified, Joined1, WorkError, DomainError, ReadFault;
      KnownAfterJoin(r1, failure1, rejected, error1);
      var error2, failure2 := ReadAfter(r1, error1, failure1, rejected);
      r2 := View();
      assert Read2(r1, r2, rejected) by {
        assert AfterRead(r1, r2, 0, rejected[0]) && AfterRead(r1, r2, 1, rejected[1]);
      }
      firstError, globalFailure := CheckEpochs(error2, failure2, rejected);
      FirstErrorMeans(r1, r2, failure1, rejected, error1, firstError);
      FailureIsTrouble(r1, r2, failure1, rejected, error1);
      if EpochsDiffer(r2, rejected) { DifferingIsActive(r2, rejected); }
      ErrorsOfTheReads(r1, r2, failure1, rejected, error1);
    }

    /** From the joined workers to the return value. */
    method Conclude(ghost r1: Record, error1: int, failure1: bool, rejected: seq<bool>) returns (rc: int)
      requires r1 == View() && Joined1(r1, failure1, rejected, error1) && Classified()
      requires Ordered(log) && AtMost(log, PhaseRank(Storing))
      requires forall c: nat :: Calls(log, c, After) == [] && Calls(log, c, Cancelling) == []
      modifies this`domain, this`log, this`error
      ensures Has(View(), 0) && Ordered(log)
      ensures forall c: nat :: Calls(log, c, Before) == Calls(old(log), c, Before)
      ensures domain[0].before == r1.domain[0].before && domain[1].before == r1.domain[1].before
      ensures Decided(View(), rc) && DomainDecided(View(), rc, 0) && DomainDecided(View(), rc, 1)
      ensures error <= 0 && (error == 0 <==> rc == OK) && (rc < 0 ==> error == rc)
      ensures error == WorkError(View())
    {
      hide ThreadFaults, Calls, Ordered, AtMost, PhaseRank, Trouble, Refusal, Survivor;
      hide DomainDecided, RolledBack, Classified, StoreRun, Decided, Joined1, StoreError, Read2, AfterJoin, AfterRead;
      hide WorkError, DomainError;
      KnownAfterJoin(r1, failure1, rejected, error1);
      var firstError, globalFailure;
      ghost var r2;
      firstError, globalFailure, r2 := CheckFinal(r1, error1, failure1, rejected);
      ghost var r3 := View();
      Activity(r1, r2, failure1, rejected, error1);
      var partial := false;
      if firstError < 0 {
        var survivors := CountSurvivors();
        partial := !globalFailure && survivors != 0;
        Survivors(r1, r2, r3, failure1, rejected, error1, survivors);
        Rollback(r3, partial, rejected);
        RolledBackIsUndone(r3, View(), 0, Sent(r3, 0, firstError, partial, rejected));
        RolledBackIsUndone(r3, View(), 1, Sent(r3, 1, firstError, partial, rejected));
      }
      error := firstError;
      rc := if partial then PARTIAL else firstError;
      RecordConcluded(r1, r2, r3, View(), failure1, rejected, error1, firstError, partial);
    }

    /** The workers and everything after them. */
    method RunAndConclude() returns (rc: int)
      requires Has(View(), 0) && |disposition| == 2 && ThreadFaults(log) == Faults(0, 0, 0)
      requires Ordered(log) && AtMost(log, PhaseRank(Before)) && OnlyPhase([], log, Before)
      requires forall c: nat | c < 2 :: Fresh(domain[c], targets[c], disposition[c])
      requires forall c: nat | c < 2 && targets[c].active :: disposition[c] == Disp(View(), c)
      modifies this`domain, this`workers, this`log, this`error
      ensures Has(View(), 0) && Ordered(log)
      ensures forall c: nat :: Calls(log, c, Before) == Calls(old(log), c, Before)
      ensures domain[0].before == old(domain)[0].before && domain[1].before == old(domain)[1].before
      ensures Decided(View(), rc) && DomainDecided(View(), rc, 0) && DomainDecided(View(), rc, 1)
      ensures error <= 0 && (error == 0 <==> rc == OK) && (rc < 0 ==> error == rc)
      ensures error == WorkError(View())
    {
      hide ThreadFaults, Calls, Ordered, AtMost, PhaseRank, Disp, DomainDecided, Decided, AfterJoin, Fresh, Started;
      hide Wants;
      workers := [NotCreated, NotCreated];
      ghost var start, atStart := domain, View();
      EmptyLog();
      StartOfWorkers(start);
      var error0 := StartWorkers(start);
      Sizes(start);
      StartKeepsBefore(start);
      ClassifiedKept(atStart);
      var firstError, globalFailure, rejected := JoinWorkers(start, error0);
      ghost var r1 := View();
      assert Joined1(r1, globalFailure, rejected, firstError) by {
        assert AfterJoin(r1, 0, globalFailure, rejected[0]) && AfterJoin(r1, 1, globalFailure, rejected[1]);
      }
      rc := Conclude(r1, firstError, globalFailure, rejected);
    }

    lemma StartOfWorkers(start: seq<Domain>)
      requires Has(View(), 0) && |disposition| == 2 && domain == start && workers == [NotCreated, NotCreated]
      requires Ordered(log) && AtMost(log, PhaseRank(Before))
      requires Calls(log, 0, Storing) == [] && Calls(log, 1, Storing) == []
      ensures Started(start)
    {
      hide Calls;
    }

    lemma StartKeepsBefore(start: seq<Domain>)
      requires Started(start)
      ensures forall c: nat | c < 2 :: domain[c].before == start[c].before
    {
    }

    /** The call once the targets are built. */
    method Transact() returns (rc: int)
      requires |targets| == 2 && domain == [Initial(targets[0]), Initial(targets[1])] && log == []
      requires error == 0 && !legacyFallback
      modifies this`domain, this`disposition, this`workers, this`log, this`error, this`legacyFallback
      ensures Ordered(log) && Verdict(View(), rc)
      ensures error <= 0 && (error == 0 <==> rc == OK || rc == LEGACY) && (rc < 0 ==> error == rc)
      ensures rc == PARTIAL ==> Has(View(), 0) && error == WorkError(View())
      ensures legacyFallback <==> rc == LEGACY
    {
      hide ThreadFaults, Calls, Ordered, AtMost, PhaseRank, Disp, DomainDecided, Decided, Fresh, BeforeRead, WorkError;
      hide BeforeError;
      hide ClassError, AfterClassify, Classify, ClassifyError, Initial, BeforeShown, ReadsOnly;
      var activeCount, missingCount, readError := ReadBefore();
      ghost var read := View();
      ReadsOnlySoFar(read);
      BeforeReadFacts(read, 0);
      BeforeReadFacts(read, 1);
      if activeCount != 0 && missingCount == activeCount {
        legacyFallback := true;
        domain := [MarkLegacy(targets[0], domain[0]), MarkLegacy(targets[1], domain[1])];
        LegacyReads(read, View());
        rc := LEGACY;
        return;
      }
      if readError < 0 {
        error, rc := readError, readError;
        return;
      }
      rc := ClassifyAndPrepare(read);
    }

    method ClassifyAndPrepare(ghost read: Record) returns (rc: int)
      requires Has(View(), 0) && read == View() && error == 0
      requires Ordered(log) && AtMost(log, PhaseRank(Before)) && OnlyPhase([], log, Before)
      requires forall c: nat | c < 2 :: BeforeRead(View(), c) && BeforeError(View(), c) == 0
      modifies this`domain, this`disposition, this`workers, this`log, this`error
      ensures Ordered(log) && Verdict(View(), rc)
      ensures error <= 0 && (error == 0 <==> rc == OK) && (rc < 0 ==> error == rc) && rc != LEGACY
      ensures rc == PARTIAL ==> Has(View(), 0) && error == WorkError(View())
    {
      hide ThreadFaults, WorkError, Calls, Ordered, AtMost, PhaseRank, Disp, DomainDecided, Fresh, BeforeRead,
           BeforeError;
      hide ClassError, AfterClassify, Classify, ClassifyError, Initial, BeforeShown, ReadsOnly, Trouble, Refusal;
      hide Survivor;
      ReadsOnlySoFar(read);
      BeforeReadFacts(read, 0);
      BeforeReadFacts(read, 1);
      var classError := ClassifyAll(read);
      ghost var classified := View();
      ClassifiedDomain(read, classified, 0);
      ClassifiedDomain(read, classified, 1);
      SameReads(read, classified);
      ReadsOnlySoFar(classified);
      if classError < 0 {
        error, rc := classError, classError;
        return;
      }
      ReadyForWorkers(read, classified, 0);
      ReadyForWorkers(read, classified, 1);
      NoThreadYet(log);
      rc := RunAndConclude();
      SameReads(classified, View());
    }

    /** max9296_prepare_all. */
    method PrepareAll(input: Input) returns (rc: int)
      requires ValidInput(input)
      modifies this
      ensures !Buildable(input) ==> rc == -EINVAL && log == []
      ensures Buildable(input) ==> generation == input.generation && targets == [TargetOf(input, 0), TargetOf(input, 1)]
      ensures Buildable(input) ==> Ordered(log) && Verdict(View(), rc)
      ensures error <= 0 && (error == 0 <==> rc == OK || rc == LEGACY) && (rc < 0 ==> error == rc)
      ensures rc == PARTIAL ==> Has(View(), 0) && error == WorkError(View())
      ensures legacyFallback <==> rc == LEGACY
    {
      hide Ordered, Verdict, Buildable, TargetOf, Initial, WorkError;
      log, generation, legacyFallback, error := [], input.generation, false, 0;
      rc, targets := BuildTargets(input);
      if rc < 0 {
        error := rc;
        return;
      }
      domain := [Initial(targets[0]), Initial(targets[1])];
      rc := Transact();
    }

    /** max9296_prepare_cancel_domain. */
    method CancelDomain(csi: nat) returns (rc: int)
      requires Has(View(), 0) && Ordered(log)
      modifies this`domain, this`log
      ensures Has(View(), 0) && Ordered(log)
      ensures csi >= 2 ==> rc == -EINVAL && log == old(log) && domain == old(domain)
      ensures csi < 2 && !Held(old(domain)[csi]) ==> rc == 0 && log == old(log) && domain == old(domain)
      ensures csi < 2 && Held(old(domain)[csi]) ==>
                && OnlyCalls(old(log), log, csi, Cancelling)
                && Extends(Calls(old(log), csi, Cancelling), Calls(log, csi, Cancelling), rc)
                && domain == old(domain)[csi := AfterCancel(old(domain)[csi], rc)]
      ensures forall c: nat | c < 2 && old(LeaseBook(View(), c)) :: LeaseBook(View(), c)
    {
      hide ThreadFaults, Calls, Ordered, StoreRun, StoreError, Owned, LeaseBook, Extends;
      if csi >= 2 {
        return -EINVAL;
      }
      if !domain[csi].rollbackOwned || domain[csi].error != 0 {
        return 0;
      }
      ghost var from := View();
      var result;
      ghost var run;
      result, run := RetryCancel(csi);
      StoreErrorIs(run);
      if result != |CANCEL| {
        rc := if result < 0 then result else -EIO;
        domain := domain[csi := domain[csi].(rollbackError := rc)];
      } else {
        rc := 0;
        domain := domain[csi := domain[csi].(rollbackOwned := false)];
      }
      CancelExtends(Calls(from.log, csi, Cancelling), run, rc);
      forall c: nat | c < 2 && LeaseBook(from, c)
        ensures LeaseBook(View(), c)
      {
        if c == csi {
          BookAfterCancel(from, View(), c, run, rc);
        } else {
          OtherBook(from, View(), c);
        }
      }
    }
  }
}
