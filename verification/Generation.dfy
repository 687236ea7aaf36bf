/** One media generation of the RTSP server: its reference count, its active and cancelled
flags, and the interruptible wait.

The flags are set and read one atomic operation at a time, so activate, deactivate and
is_active are two steps each; a run is any interleaving of such steps.
*/
module Generation {
  const MAX_INT64 := 0x7fff_ffff_ffff_ffff

  /** The shared object, and how many activate calls are past their check. */
  datatype State = State(refCount: nat, active: bool, cancelled: bool, activating: nat, destroyed: nat)

  const NEW := State(1, false, false, 0, 0)

  /** One atomic operation of a thread that holds a reference. */
  datatype Step = Ref | Unref | ActivateChecks | ActivateSets | DeactivateCancels | DeactivateClears | Loads

  predicate Allowed(s: State, step: Step) { s.refCount > 0 && (step == ActivateSets ==> s.activating > 0) }

  function Next(s: State, step: Step): State
    requires Allowed(s, step)
  {
    match step
    case Ref => s.(refCount := s.refCount + 1)
    case Unref => s.(refCount := s.refCount - 1, destroyed := s.destroyed + if s.refCount == 1 then 1 else 0)
    case ActivateChecks => if s.cancelled then s else s.(activating := s.activating + 1)
    case ActivateSets => s.(active := true, activating := s.activating - 1)
    case DeactivateCancels => s.(cancelled := true)
    case DeactivateClears => s.(active := false)
    case Loads => s
  }

  ghost predicate Follows(from: State, to: State) { exists step :: Allowed(from, step) && to == Next(from, step) }

  ghost predicate IsRun(run: seq<State>) {
    run != [] && run[0] == NEW
    && forall i | 0 <= i < |run| - 1 :: Follows(run[i], run[i + 1])
  }

  /** is_active reads the active flag in one state and the cancelled flag in a later one. */
  predicate Answer(run: seq<State>, i: nat, j: nat)
    requires i <= j < |run|
  {
    run[i].active && !run[j].cancelled
  }

  lemma {:induction false} CancelledStays(run: seq<State>, i: nat, j: nat)
    requires IsRun(run) && i <= j < |run| && run[i].cancelled
    ensures run[j].cancelled
    decreases j - i
  {
    if i < j {
      assert Follows(run[i], run[i + 1]);
      CancelledStays(run, i + 1, j);
    }
  }

  /** Once deactivate has set the cancelled flag, no is_active that ends after that
      answers true, whatever an activate past its check still does. */
  lemma CancelledForGood(run: seq<State>, cancel: nat, i: nat, j: nat)
    requires IsRun(run) && cancel <= j && i <= j < |run| && run[cancel].cancelled
    ensures !Answer(run, i, j)
  {
    CancelledStays(run, cancel, j);
  }

  /** Yet the active flag alone can rise again after a deactivate: an activate that
      checked before it sets the flag after it. */
  lemma ActiveFlagCanRiseAgain() returns (run: seq<State>)
    ensures IsRun(run) && |run| == 5 && run[3].cancelled && !run[3].active && run[4].active
  {
    var a := Next(NEW, ActivateChecks);
    var b := Next(a, DeactivateCancels);
    var c := Next(b, DeactivateClears);
    var d := Next(c, ActivateSets);
    run := [NEW, a, b, c, d];
    assert Allowed(NEW, ActivateChecks) && Allowed(a, DeactivateCancels) && Allowed(b, DeactivateClears)
           && Allowed(c, ActivateSets);
    assert Follows(run[0], run[1]) && Follows(run[1], run[2]) && Follows(run[2], run[3]) && Follows(run[3], run[4]);
  }

  /** The payload is destroyed exactly once, when the last reference goes, and nothing
      happens after that. */
  lemma {:induction false} DestroyedOnce(run: seq<State>, i: nat)
    requires IsRun(run) && i < |run|
    ensures run[i].destroyed == if run[i].refCount == 0 then 1 else 0
    ensures run[i].refCount == 0 ==> i == |run| - 1
  {
    if i > 0 {
      DestroyedOnce(run, i - 1);
      assert Follows(run[i - 1], run[i]);
    }
    if i < |run| - 1 { assert Follows(run[i], run[i + 1]); }
  }

  // ----- wait

  function Min(a: int, b: int): (m: int)
    ensures m <= a && m <= b && (m == a || m == b)
  {
    if a < b then a else b
  }

  /** The end of the wait; one beyond the clock's range is cut off there. */
  function Deadline(started: int, duration: int): int {
    if duration > MAX_INT64 - started then MAX_INT64 else started + duration
  }

  /** rtsp_sync_generation_wait.  Whether the generation is still active and not cancelled
      by the caller is asked before every look at the clock; a sleep takes at least as
      long as it was asked for.  True is returned only at the deadline, and only if every
      question was answered yes; false only for bad arguments or after a no. */
  method Wait(duration: int, slice: int, started: int) returns (full: bool, now: int, ghost answers: seq<bool>)
    requires 0 <= started <= MAX_INT64
    ensures full ==> duration >= 0 && slice > 0 && now >= Deadline(started, duration)
    ensures now >= started
    ensures full ==> false !in answers && answers != []
    ensures !full ==> duration < 0 || slice <= 0 || (answers != [] && !answers[|answers| - 1])
    ensures forall i | 0 <= i < |answers| - 1 :: answers[i]
  {
    now, answers := started, [];
    if duration < 0 || slice <= 0 {
      return false, now, answers;
    }
    var deadline := if duration > MAX_INT64 - started then MAX_INT64 else started + duration;
    while true
      invariant false !in answers && now >= started
      decreases deadline - now
    {
      var alive: bool := *;
      answers := answers + [alive];
      if !alive {
        return false, now, answers;
      }
      var elapsed: int := *;
      now := now + if elapsed > 0 then elapsed else 0;
      if now >= deadline {
        return true, now, answers;
      }
      var slept: int := *;
      var asked := Min(deadline - now, slice);
      now := now + if slept > asked then slept else asked;
    }
  }
}
