/** The encoder's lock-free watermark: a cell raised by compare-and-swap and reset by
snapshots, under any interleaving of recorders and snapshots.

A recorder counts its frame, loads the cell, and tries to raise it until its gap is
no longer above what it saw; the weak compare-and-swap may also fail for no reason.
Each method is one atomic operation of one thread.  The queue-level watermark is
the same protocol without resets.
*/
module Telemetry {
  datatype Recorder = Idle | Loading(gap: int) | Comparing(gap: int, maximum: int)

  function Max(a: int, b: int): int { if a < b then b else a }

  /** The highest of the cell and everything snapshots took out of it. */
  function High(cell: int, taken: seq<int>): int {
    if taken == [] then cell else Max(High(cell, taken[..|taken| - 1]), taken[|taken| - 1])
  }

  lemma {:induction false} HighCovers(cell: int, taken: seq<int>)
    ensures cell <= High(cell, taken)
    ensures forall t | t in taken :: t <= High(cell, taken)
    ensures High(cell, taken) == cell || High(cell, taken) in taken
  {
    if taken != [] {
      var front := taken[..|taken| - 1];
      HighCovers(cell, front);
      assert forall t | t in taken :: t in front || t == taken[|taken| - 1];
    }
  }

  lemma {:induction false} HighRises(low: int, high: int, taken: seq<int>)
    requires low <= high
    ensures High(high, taken) == Max(High(low, taken), high)
  {
    if taken != [] { HighRises(low, high, taken[..|taken| - 1]); }
  }

  /** A reset moves the cell's value into the snapshot and loses nothing. */
  lemma ResetKeepsHigh(cell: int, taken: seq<int>)
    requires 0 <= cell
    ensures High(0, taken + [cell]) == High(cell, taken)
  {
    assert (taken + [cell])[..|taken|] == taken;
    HighRises(0, cell, taken);
  }

  /** A recorded value: one that some recorder began with, or the initial 0. */
  predicate Known(value: int, begun: seq<int>) { value == 0 || value in begun }

  /** Where a begun recording is: with a recorder, or done and covered. */
  ghost predicate Covered(gap: int, recorders: seq<Recorder>, high: int) {
    gap <= high || exists r :: r in recorders && !r.Idle? && r.gap == gap
  }

  ghost predicate Sound(cell: int, taken: seq<int>, begun: seq<int>, recorders: seq<Recorder>) {
    && 0 <= cell && Known(cell, begun) && (forall t | t in taken :: Known(t, begun))
    && (forall r | r in recorders :: !r.Idle? ==> r.gap in begun)
    && (forall r | r in recorders :: r.Comparing? ==> r.maximum <= High(cell, taken))
    && (forall g | g in begun :: Covered(g, recorders, High(cell, taken)))
  }

  /** With no recorder at work, the highest value taken or held is exactly the largest
      recording there was (or 0). */
  lemma QuiescentIsExact(cell: int, taken: seq<int>, begun: seq<int>, recorders: seq<Recorder>)
    requires Sound(cell, taken, begun, recorders) && forall r | r in recorders :: r.Idle?
    ensures Known(High(cell, taken), begun) && forall g | g in begun :: g <= High(cell, taken)
  {
    HighCovers(cell, taken);
    forall g | g in begun
      ensures g <= High(cell, taken)
    {
      assert Covered(g, recorders, High(cell, taken));
    }
  }

  lemma Replaced(recorders: seq<Recorder>, i: nat, r: Recorder, x: Recorder)
    requires i < |recorders|
    ensures x in recorders[i := r] ==> x == r || x in recorders
    ensures x in recorders && x != recorders[i] ==> x in recorders[i := r]
    ensures r in recorders[i := r]
  {
    var after := recorders[i := r];
    assert after[i] == r;
    if x in recorders && x != recorders[i] {
      var k :| 0 <= k < |recorders| && recorders[k] == x;
      assert after[k] == x;
    }
  }

  /** A recorder moves on while the high value does not fall and its own gap stays
      with it or is covered. */
  lemma SoundAfterStep(cell: int, taken: seq<int>, begun: seq<int>, recorders: seq<Recorder>, i: nat, r: Recorder,
                       cell': int, taken': seq<int>, begun': seq<int>)
    requires Sound(cell, taken, begun, recorders) && i < |recorders|
    requires 0 <= cell' && Known(cell', begun') && (forall t | t in taken' :: Known(t, begun'))
    requires forall g | g in begun :: g in begun'
    requires High(cell, taken) <= High(cell', taken')
    requires !r.Idle? ==> r.gap in begun'
    requires r.Comparing? ==> r.maximum <= High(cell', taken')
    requires recorders[i].Idle? || recorders[i].gap <= High(cell', taken') || (!r.Idle? && r.gap == recorders[i].gap)
    requires forall g | g in begun' :: g in begun || (!r.Idle? && r.gap == g)
    ensures Sound(cell', taken', begun', recorders[i := r])
  {
    var after := recorders[i := r];
    forall x | x in after
      ensures (!x.Idle? ==> x.gap in begun') && (x.Comparing? ==> x.maximum <= High(cell', taken'))
    {
      Replaced(recorders, i, r, x);
    }
    forall g | g in begun'
      ensures Covered(g, after, High(cell', taken'))
    {
      Replaced(recorders, i, r, r);
      if g in begun && g > High(cell', taken') {
        assert Covered(g, recorders, High(cell, taken));
        var x :| x in recorders && !x.Idle? && x.gap == g;
        Replaced(recorders, i, r, x);
      }
    }
  }

  class Watermark {
    var cell: int
    var count: nat
    var recorders: seq<Recorder>

    /** The values taken by resetting snapshots, and the recordings begun. */
    ghost var taken: seq<int>
    ghost var begun: seq<int>

    ghost predicate Valid()
      reads this
    {
      Sound(cell, taken, begun, recorders) && count == |begun|
    }

    constructor (threads: nat)
      ensures Valid() && |recorders| == threads && cell == 0 && count == 0
    {
      cell, count, taken, begun := 0, 0, [], [];
      recorders := seq(threads, _ => Idle);
    }

    /** recordEncoderOutput counts its frame. */
    method Begin(i: nat, gap: int)
      requires Valid() && i < |recorders| && recorders[i].Idle?
      modifies this
      ensures Valid() && count == old(count) + 1 && begun == old(begun) + [gap] && cell == old(cell)
              && taken == old(taken)
      ensures recorders == old(recorders)[i := Loading(gap)]
    {
      hide Sound;
      SoundFacts();
      SoundAfterStep(cell, taken, begun, recorders, i, Loading(gap), cell, taken, begun + [gap]);
      count := count + 1;
      begun := begun + [gap];
      recorders := recorders[i := Loading(gap)];
    }

    /** It loads the cell. */
    method Load(i: nat)
      requires Valid() && i < |recorders| && recorders[i].Loading?
      modifies this`recorders
      ensures Valid() && recorders == old(recorders)[i := Comparing(old(recorders)[i].gap, cell)]
    {
      hide Sound;
      SoundFacts();
      var r := Comparing(recorders[i].gap, cell);
      RecorderFacts(i);
      SoundAfterStep(cell, taken, begun, recorders, i, r, cell, taken, begun);
      recorders := recorders[i := r];
    }

    /** One turn of its loop: done, raised, or refused and the cell seen again.  When
        it is done its gap is covered, and what is covered stays so. */
    method TryRaise(i: nat, spurious: bool) returns (done: bool)
      requires Valid() && i < |recorders| && recorders[i].Comparing?
      modifies this`cell, this`recorders
      ensures Valid() && |recorders| == |old(recorders)|
      ensures High(old(cell), taken) <= High(cell, taken)
      ensures done ==> recorders[i].Idle? && old(recorders)[i].gap <= High(cell, taken)
      ensures !done ==> recorders[i] == Comparing(old(recorders)[i].gap, old(cell)) && cell == old(cell)
      ensures cell == old(cell) || (cell == old(recorders)[i].gap && old(cell) < cell)
    {
      hide Sound;
      SoundFacts();
      RecorderFacts(i);
      var gap, maximum := recorders[i].gap, recorders[i].maximum;
      HighCovers(cell, taken);
      if gap <= maximum {
        SoundAfterStep(cell, taken, begun, recorders, i, Idle, cell, taken, begun);
        recorders := recorders[i := Idle];
        return true;
      }
      if cell == maximum && !spurious {
        HighRises(cell, gap, taken);
        SoundAfterStep(cell, taken, begun, recorders, i, Idle, gap, taken, begun);
        cell := gap;
        recorders := recorders[i := Idle];
        return true;
      }
      var r := Comparing(gap, cell);
      SoundAfterStep(cell, taken, begun, recorders, i, r, cell, taken, begun);
      recorders := recorders[i := r];
      return false;
    }

    /** A snapshot: with a reset the value is exchanged for 0. */
    method Snapshot(reset: bool) returns (value: int)
      requires Valid()
      modifies this`cell, this`taken
      ensures Valid() && value == old(cell)
      ensures if reset then cell == 0 && taken == old(taken) + [value] else cell == old(cell) && taken == old(taken)
      ensures High(cell, taken) == High(old(cell), old(taken))
    {
      value := cell;
      if reset {
        ResetKeepsHigh(cell, taken);
        taken := taken + [cell];
        cell := 0;
      }
    }

    lemma SoundFacts()
      requires Valid()
      ensures 0 <= cell && Known(cell, begun) && forall t | t in taken :: Known(t, begun)
      ensures forall gap :: 0 <= cell && Known(cell, begun + [gap]) && forall t | t in taken :: Known(t, begun + [gap])
      ensures cell <= High(cell, taken)
    {
      HighCovers(cell, taken);
    }

    lemma RecorderFacts(i: nat)
      requires Valid() && i < |recorders|
      ensures !recorders[i].Idle? ==> recorders[i].gap in begun
      ensures recorders[i].Comparing? ==> recorders[i].maximum <= High(cell, taken)
    {
      assert recorders[i] in recorders;
    }
  }
}
