/** Four-channel frame alignment of the RTSP sync client.

Each channel delivers frames with strictly increasing ids; the client keeps one
queue per channel, drops what cannot be matched and pops groups of four frames
with one id.  The simple reading is set intersection: the groups popped since the
queues were last cleared are the ids that all four channels accepted and did not
lose to the queue limit.  Every method is one section under the client's lock.
*/
module FrameAlign {
  const CHANNELS := 4
  const QUEUE_LIMIT := 300

  datatype SyncFrame = SyncFrame(id: nat, originPts: nat)

  datatype Order = First | Next | Gap | Duplicate | Backward

  /** rtsp_frame_order_check. */
  function OrderCheck(hasPrevious: bool, previous: nat, current: nat): Order {
    if !hasPrevious then First
    else if current == previous then Duplicate
    else if current < previous then Backward
    else if current == previous + 1 then Next
    else Gap
  }

  // ----- the books of one epoch: ids queued, accepted, lost, dropped and popped

  datatype Books = Books(queue: seq<seq<nat>>, accepted: seq<seq<nat>>, lost: seq<set<nat>>, dropped: seq<set<nat>>,
                         popped: seq<nat>)

  predicate Increasing(s: seq<nat>) { forall i, j | 0 <= i < j < |s| :: s[i] < s[j] }

  predicate Shape(b: Books) { |b.queue| == |b.accepted| == |b.lost| == |b.dropped| == CHANNELS }

  /** One channel: the queue is the end of the accepted stream, and each frame
      before it was lost to the limit, dropped in alignment, or popped. */
  ghost predicate ChannelBooks(b: Books, c: nat) {
    && Shape(b) && c < CHANNELS
    && var stream, queue := b.accepted[c], b.queue[c];
    && Increasing(stream) && |queue| <= |stream| && queue == stream[|stream| - |queue|..]
    && var gone := stream[..|stream| - |queue|];
    && (forall x | x in gone :: x in b.lost[c] || x in b.dropped[c] || x in b.popped)
    && (forall x | x in b.lost[c] :: x in gone && x !in b.popped)
    && (forall x | x in b.popped :: x in gone)
  }

  /** The channel will never deliver x in this epoch. */
  ghost predicate Missed(b: Books, c: nat, x: nat) {
    && Shape(b) && c < CHANNELS
    && (x !in b.accepted[c] || x in b.lost[c])
    && b.accepted[c] != [] && x < b.accepted[c][|b.accepted[c]| - 1]
  }

  ghost predicate Hopeless(b: Books, x: nat) { exists c: nat :: Missed(b, c, x) }

  ghost predicate Kept(b: Books) {
    && Shape(b) && Increasing(b.popped)
    && (forall c: nat | c < CHANNELS :: ChannelBooks(b, c))
    && (forall c: nat, x | c < CHANNELS && x in b.dropped[c] :: Hopeless(b, x))
  }

  /** Accepted by every channel, and never lost to a queue limit. */
  ghost predicate Common(b: Books, x: nat)
    requires Shape(b)
  {
    forall c: nat | c < CHANNELS :: x in b.accepted[c] && x !in b.lost[c]
  }

  /** The groups popped are the intersection of the streams, once some queue has
      run empty, which is when group processing stops. */
  lemma PoppedIsTheIntersection(b: Books, empty: nat, x: nat)
    requires Kept(b) && empty < CHANNELS && b.queue[empty] == []
    ensures x in b.popped <==> Common(b, x)
  {
    assert ChannelBooks(b, empty);
    if x in b.popped {
      forall c: nat | c < CHANNELS
        ensures x in b.accepted[c] && x !in b.lost[c]
      {
        assert ChannelBooks(b, c);
      }
    } else if x in b.accepted[empty] && x !in b.lost[empty] {
      assert b.accepted[empty][..|b.accepted[empty]|] == b.accepted[empty];
      assert x in b.dropped[empty];
      assert Hopeless(b, x);
      var c: nat :| Missed(b, c, x);
      assert !(x in b.accepted[c] && x !in b.lost[c]);
    }
  }

  /** In an epoch without losses the groups are exactly the ids all channels accepted. */
  lemma WithoutLossesExactly(b: Books, empty: nat, x: nat)
    requires Kept(b) && empty < CHANNELS && b.queue[empty] == []
    requires forall c: nat | c < CHANNELS :: b.lost[c] == {}
    ensures x in b.popped <==> forall c: nat | c < CHANNELS :: x in b.accepted[c]
  {
    hide Kept;
    KeptShape(b);
    PoppedIsTheIntersection(b, empty, x);
  }

  lemma KeptShape(b: Books)
    requires Kept(b)
    ensures Shape(b)
  {
  }

  // ----- steps on the books

  function DropHead(b: Books, c: nat): Books
    requires Shape(b) && c < CHANNELS && b.queue[c] != []
  {
    b.(queue := b.queue[c := b.queue[c][1..]], dropped := b.dropped[c := b.dropped[c] + {b.queue[c][0]}])
  }

  function LoseHead(b: Books, c: nat): Books
    requires Shape(b) && c < CHANNELS && b.queue[c] != []
  {
    b.(queue := b.queue[c := b.queue[c][1..]], lost := b.lost[c := b.lost[c] + {b.queue[c][0]}])
  }

  function Accept(b: Books, c: nat, x: nat): Books
    requires Shape(b) && c < CHANNELS
  {
    b.(queue := b.queue[c := b.queue[c] + [x]], accepted := b.accepted[c := b.accepted[c] + [x]])
  }

  function PopGroup(b: Books): Books
    requires Shape(b) && forall c: nat | c < CHANNELS :: b.queue[c] != []
  {
    b.(queue := seq(CHANNELS, c requires 0 <= c < CHANNELS => b.queue[c][1..]), popped := b.popped + [b.queue[0][0]])
  }

  const NO_BOOKS := Books([[], [], [], []], [[], [], [], []], [{}, {}, {}, {}], [{}, {}, {}, {}], [])

  /** The head of a queue is above everything that left it. */
  lemma HeadIsAbove(b: Books, c: nat, x: nat)
    requires ChannelBooks(b, c) && b.queue[c] != [] && x in b.accepted[c][..|b.accepted[c]| - |b.queue[c]|]
    ensures x < b.queue[c][0]
  {
  }

  /** Removing the head of one queue keeps the stream's shape. */
  lemma HeadLeaves(stream: seq<nat>, queue: seq<nat>)
    requires 0 < |queue| <= |stream| && queue == stream[|stream| - |queue|..]
    ensures queue[1..] == stream[|stream| - |queue[1..]|..]
    ensures stream[..|stream| - |queue[1..]|] == stream[..|stream| - |queue|] + [queue[0]]
  {
  }

  /** A frame behind the head of some other queue cannot be matched any more:
      either that channel missed it, or it dropped it earlier itself. */
  lemma BehindAHeadIsHopeless(b: Books, c: nat, ahead: nat)
    requires Kept(b) && c < CHANNELS && ahead < CHANNELS && b.queue[c] != [] && b.queue[ahead] != []
    requires b.queue[c][0] < b.queue[ahead][0]
    ensures Hopeless(b, b.queue[c][0])
  {
    var x := b.queue[c][0];
    assert ChannelBooks(b, c) && ChannelBooks(b, ahead);
    var stream, queue := b.accepted[ahead], b.queue[ahead];
    if x !in stream || x in b.lost[ahead] {
      assert queue[0] == stream[|stream| - |queue|] <= stream[|stream| - 1];
      assert Missed(b, ahead, x);
    } else {
      assert x !in queue;
      assert x in stream[..|stream| - |queue|] by { assert stream == stream[..|stream| - |queue|] + queue; }
      assert x !in b.popped by { if x in b.popped { HeadIsAbove(b, c, x); } }
      assert x in b.dropped[ahead];
    }
  }

  lemma DropKeepsBooks(b: Books, c: nat, ahead: nat)
    requires Kept(b) && c < CHANNELS && ahead < CHANNELS && b.queue[c] != [] && b.queue[ahead] != []
    requires b.queue[c][0] < b.queue[ahead][0]
    ensures Kept(DropHead(b, c))
  {
    var after, x := DropHead(b, c), b.queue[c][0];
    BehindAHeadIsHopeless(b, c, ahead);
    forall d: nat | d < CHANNELS
      ensures ChannelBooks(after, d)
    {
      assert ChannelBooks(b, d);
      if d == c { HeadLeaves(b.accepted[c], b.queue[c]); }
    }
    forall d: nat, y | d < CHANNELS && y in after.dropped[d]
      ensures Hopeless(after, y)
    {
      assert y in b.dropped[d] || y == x;
      assert Hopeless(b, y);
      var e: nat :| Missed(b, e, y);
      assert Missed(after, e, y);
    }
  }

  lemma LoseKeepsBooks(b: Books, c: nat)
    requires Kept(b) && c < CHANNELS && b.queue[c] != []
    ensures Kept(LoseHead(b, c))
  {
    var after, x := LoseHead(b, c), b.queue[c][0];
    forall d: nat | d < CHANNELS
      ensures ChannelBooks(after, d)
    {
      assert ChannelBooks(b, d);
      if d == c {
        HeadLeaves(b.accepted[c], b.queue[c]);
        assert x !in b.popped by { if x in b.popped { HeadIsAbove(b, c, x); } }
      }
    }
    forall d: nat, y | d < CHANNELS && y in after.dropped[d]
      ensures Hopeless(after, y)
    {
      assert y in b.dropped[d] && Hopeless(b, y);
      var e: nat :| Missed(b, e, y);
      assert Missed(after, e, y);
    }
  }

  lemma Pushed(s: seq<nat>, q: seq<nat>, x: nat)
    requires Increasing(s) && |q| <= |s| && q == s[|s| - |q|..] && (s != [] ==> s[|s| - 1] < x)
    ensures Increasing(s + [x])
    ensures q + [x] == (s + [x])[|s| - |q|..] && (s + [x])[..|s| - |q|] == s[..|s| - |q|]
  {
  }

  lemma AcceptKeepsBooks(b: Books, c: nat, x: nat)
    requires Kept(b) && c < CHANNELS
    requires b.accepted[c] != [] ==> b.accepted[c][|b.accepted[c]| - 1] < x
    ensures Kept(Accept(b, c, x))
  {
    hide Increasing;
    var after := Accept(b, c, x);
    forall d: nat | d < CHANNELS
      ensures ChannelBooks(after, d)
    {
      assert ChannelBooks(b, d);
      if d == c { Pushed(b.accepted[c], b.queue[c], x); }
    }
    forall d: nat, y | d < CHANNELS && y in after.dropped[d]
      ensures Hopeless(after, y)
    {
      assert y in b.dropped[d] && Hopeless(b, y);
      var e: nat :| Missed(b, e, y);
      assert ChannelBooks(b, e);
      assert Missed(after, e, y);
    }
  }

  /** Every queue has a head, and all heads are x. */
  ghost predicate Heads(b: Books, x: nat)
    requires Shape(b)
  {
    forall c: nat | c < CHANNELS :: b.queue[c] != [] && b.queue[c][0] == x
  }

  lemma PopKeepsChannel(b: Books, d: nat, x: nat)
    requires Shape(b) && Heads(b, x) && ChannelBooks(b, d)
    ensures ChannelBooks(PopGroup(b), d)
  {
    assert b.queue[d][0] == x == b.queue[0][0];
    HeadLeaves(b.accepted[d], b.queue[d]);
    assert x !in b.lost[d] by { if x in b.lost[d] { HeadIsAbove(b, d, x); } }
  }

  lemma PoppedIsBelow(b: Books, x: nat, y: nat)
    requires Shape(b) && Heads(b, x) && ChannelBooks(b, 0) && y in b.popped
    ensures y < x
  {
    HeadIsAbove(b, 0, y);
  }

  lemma PopKeepsBooks(b: Books, x: nat)
    requires Kept(b) && Heads(b, x)
    ensures Kept(PopGroup(b))
    ensures forall y | y in b.popped :: y < x
  {
    hide ChannelBooks;
    var after := PopGroup(b);
    forall y | y in b.popped
      ensures y < x
    {
      PoppedIsBelow(b, x, y);
    }
    forall i, j | 0 <= i < j < |after.popped|
      ensures after.popped[i] < after.popped[j]
    {
      assert after.popped[i] in b.popped;
      assert b.queue[0][0] == x;
    }
    forall d: nat | d < CHANNELS
      ensures ChannelBooks(after, d)
    {
      PopKeepsChannel(b, d, x);
    }
    forall d: nat, y | d < CHANNELS && y in after.dropped[d]
      ensures Hopeless(after, y)
    {
      assert y in b.dropped[d] && Hopeless(b, y);
      var e: nat :| Missed(b, e, y);
      assert Missed(after, e, y);
    }
  }

  // ----- alignment on the queues alone

  /** An id that waits in every queue. */
  ghost predicate Waiting(b: Books, x: nat)
    requires Shape(b)
  {
    forall c: nat | c < CHANNELS :: x in b.queue[c]
  }

  lemma QueuesIncrease(b: Books, c: nat)
    requires Kept(b) && c < CHANNELS
    ensures Increasing(b.queue[c])
  {
    assert ChannelBooks(b, c);
  }

  lemma DropKeepsWaiting(b: Books, c: nat, ahead: nat, x: nat)
    requires Kept(b) && c < CHANNELS && ahead < CHANNELS && b.queue[c] != [] && b.queue[ahead] != []
    requires b.queue[c][0] < b.queue[ahead][0]
    ensures Waiting(DropHead(b, c), x) <==> Waiting(b, x)
  {
    var after := DropHead(b, c);
    QueuesIncrease(b, ahead);
    if Waiting(b, x) {
      assert x in b.queue[ahead] && x in b.queue[c];
      assert forall d: nat | d < CHANNELS :: x in after.queue[d] by {
        assert x in b.queue[c][1..];
        assert forall d: nat | d < CHANNELS && d != c :: after.queue[d] == b.queue[d] && x in b.queue[d];
      }
    }
    if Waiting(after, x) {
      forall d: nat | d < CHANNELS
        ensures x in b.queue[d]
      {
        assert x in after.queue[d];
      }
    }
  }

  /** Equal heads are the least id waiting in all queues. */
  lemma HeadsAreLeastWaiting(b: Books, x: nat, y: nat)
    requires Kept(b) && Heads(b, x)
    ensures Waiting(b, x)
    ensures Waiting(b, y) ==> x <= y
  {
    assert forall c: nat | c < CHANNELS :: b.queue[c][0] in b.queue[c];
    QueuesIncrease(b, 0);
    if Waiting(b, y) { assert y in b.queue[0] && b.queue[0][0] == x; }
  }

  // ----- channels and their counters

  datatype Channel = Channel(queue: seq<SyncFrame>, expectReconnectFirst: bool, frames: nat, firstId: nat, lastId: nat,
                             gaps: nat, gapEvents: nat, duplicates: nat, backwards: nat, initialDrops: nat,
                             alignmentDrops: nat, reconnectSkipped: nat)

  function Ids(q: seq<SyncFrame>): seq<nat> { seq(|q|, i requires 0 <= i < |q| => q[i].id) }

  lemma IdsOfTail(q: seq<SyncFrame>)
    requires q != []
    ensures Ids(q) != [] && Ids(q)[0] == q[0].id && Ids(q[1..]) == Ids(q)[1..]
  {
  }

  lemma IdsOfPush(q: seq<SyncFrame>, f: SyncFrame)
    ensures Ids(q + [f]) == Ids(q) + [f.id]
  {
  }

  function Queues(channel: seq<Channel>): (q: seq<seq<nat>>)
    requires |channel| == CHANNELS
    ensures |q| == CHANNELS && forall c: nat | c < CHANNELS :: q[c] == Ids(channel[c].queue)
  {
    seq(CHANNELS, c requires 0 <= c < CHANNELS => Ids(channel[c].queue))
  }

  function Total(channel: seq<Channel>): nat
    requires |channel| == CHANNELS
  {
    |channel[0].queue| + |channel[1].queue| + |channel[2].queue| + |channel[3].queue|
  }

  predicate EndOf(rest: seq<SyncFrame>, whole: seq<SyncFrame>) {
    |rest| <= |whole| && rest == whole[|whole| - |rest|..]
  }

  function IdsIn(q: seq<SyncFrame>): set<nat> { set f | f in q :: f.id }

  /** How many frames a queue holds over the limit. */
  function Excess(queue: seq<SyncFrame>): nat { if |queue| <= QUEUE_LIMIT then 0 else |queue| - QUEUE_LIMIT }

  /** A channel that only lost frames from the head of its queue: no counter changed
      but those of the drops. */
  ghost predicate Trimmed(from: Channel, to: Channel) {
    && EndOf(to.queue, from.queue) && from.initialDrops <= to.initialDrops && from.alignmentDrops <= to.alignmentDrops
    && to == from.(queue := to.queue, initialDrops := to.initialDrops, alignmentDrops := to.alignmentDrops)
  }

  ghost predicate Shrunk(from: seq<Channel>, to: seq<Channel>) {
    |from| == |to| == CHANNELS && forall c: nat | c < CHANNELS :: Trimmed(from[c], to[c])
  }

  lemma EndOfEnd(a: seq<SyncFrame>, b: seq<SyncFrame>, c: seq<SyncFrame>)
    requires EndOf(b, a) && EndOf(c, b)
    ensures EndOf(c, a)
  {
  }

  lemma TrimmedLength(from: Channel, to: Channel)
    requires Trimmed(from, to)
    ensures |to.queue| <= |from.queue|
  {
  }

  lemma ShrinksTotal(a: seq<Channel>, b: seq<Channel>, c: nat)
    requires Shrunk(a, b) && c < CHANNELS
    ensures Total(b) <= Total(a)
    ensures |b[c].queue| < |a[c].queue| ==> Total(b) < Total(a)
  {
    hide Trimmed;
    forall d: nat | d < CHANNELS
      ensures |b[d].queue| <= |a[d].queue|
    {
      TrimmedLength(a[d], b[d]);
    }
  }

  lemma ShrinksByPop(a: seq<Channel>, b: seq<Channel>)
    requires |a| == |b| == CHANNELS && forall c: nat | c < CHANNELS :: a[c].queue != [] && b[c] == Taken(a[c])
    ensures Shrunk(a, b) && Total(b) < Total(a)
  {
    forall c: nat | c < CHANNELS
      ensures Trimmed(a[c], b[c]) && |b[c].queue| < |a[c].queue|
    {
    }
  }

  /** The losses after one more frame: the oldest one of a queue that was at the limit. */
  function LostToLimit(lost: seq<set<nat>>, ch: nat, queue: seq<SyncFrame>): seq<set<nat>>
    requires ch < |lost|
  {
    if |queue| < QUEUE_LIMIT then lost else lost[ch := lost[ch] + {queue[0].id}]
  }

  /** A queue within the limit that got one more frame is over it by one, or not at all. */
  lemma LimitOfOneMore(c: Channel, d: Channel, f: SyncFrame)
    requires Extended(c, d, f) && |c.queue| <= QUEUE_LIMIT
    ensures Excess(d.queue) == if |c.queue| < QUEUE_LIMIT then 0 else 1
    ensures IdsIn(d.queue[..Excess(d.queue)]) == if |c.queue| < QUEUE_LIMIT then {} else {c.queue[0].id}
  {
    if |c.queue| == QUEUE_LIMIT { assert d.queue[..1] == [c.queue[0]]; } else { assert d.queue[..0] == []; }
  }

  /** What an accepted frame left, after the limit and the groups. */
  lemma AfterGroups(before: seq<Channel>, ch: nat, d: Channel, cut: seq<Channel>, after: seq<Channel>, f: SyncFrame)
    requires |before| == CHANNELS && ch < CHANNELS && Extended(before[ch], d, f)
    requires Shrunk(before[ch := d], cut) && Shrunk(cut, after)
    ensures Advanced(before[ch], after[ch], f) && EndOf(after[ch].queue, before[ch].queue + [f])
    ensures forall e: nat | e < CHANNELS && e != ch :: Trimmed(before[e], after[e])
    ensures forall e: nat | e < CHANNELS :: |after[e].queue| <= |cut[e].queue|
  {
    assert forall e: nat | e < CHANNELS :: Trimmed(cut[e], after[e]);
    var mid := before[ch := d];
    ShrinksOn(mid, cut, after);
    forall e: nat | e < CHANNELS && e != ch
      ensures Trimmed(before[e], after[e])
    {
      assert mid[e] == before[e] && Trimmed(mid[e], after[e]);
    }
    assert Trimmed(mid[ch], after[ch]);
  }

  /** A channel whose k oldest frames were lost. */
  function CutBy(c: Channel, k: nat): Channel
    requires k <= |c.queue|
  {
    c.(queue := c.queue[k..], alignmentDrops := c.alignmentDrops + k)
  }

  lemma CutNothing(c: Channel, channel: seq<Channel>, lost: seq<set<nat>>, ch: nat)
    requires ch < |channel| && ch < |lost| && channel[ch] == c
    ensures channel == channel[ch := CutBy(c, 0)] && lost == lost[ch := lost[ch] + IdsIn(c.queue[..0])]
  {
    assert c.queue[0..] == c.queue && lost[ch] + IdsIn(c.queue[..0]) == lost[ch];
  }

  lemma CutOneMore(c: Channel, k: nat, lost: set<nat>)
    requires k < |c.queue|
    ensures CutBy(c, k).queue != [] && CutBy(c, k).queue[0] == c.queue[k]
            && Dropped(CutBy(c, k), false) == CutBy(c, k + 1)
    ensures lost + IdsIn(c.queue[..k + 1]) == lost + IdsIn(c.queue[..k]) + {c.queue[k].id}
  {
    assert c.queue[k..][1..] == c.queue[k + 1..];
    assert c.queue[..k + 1] == c.queue[..k] + [c.queue[k]];
  }

  lemma ShrinksBy(a: seq<Channel>, c: nat, d: Channel)
    requires |a| == CHANNELS && c < CHANNELS && Trimmed(a[c], d)
    ensures Shrunk(a, a[c := d])
  {
  }

  lemma ShrinksNot(a: seq<Channel>)
    requires |a| == CHANNELS
    ensures Shrunk(a, a)
  {
  }

  lemma ShrinksOn(a: seq<Channel>, b: seq<Channel>, c: seq<Channel>)
    requires Shrunk(a, b) && Shrunk(b, c)
    ensures Shrunk(a, c)
  {
    hide EndOf;
    forall i: nat | i < CHANNELS
      ensures Trimmed(a[i], c[i])
    {
      assert Trimmed(a[i], b[i]) && Trimmed(b[i], c[i]);
      EndOfEnd(a[i].queue, b[i].queue, c[i].queue);
    }
  }

  /** The counters of one channel: where its accepted frames went; the ids they
      span; the last id bounds the stream and the whole run's earlier groups. */
  ghost predicate Sound(c: Channel, groups: nat, cleared: nat, stream: seq<nat>, earlier: seq<nat>) {
    && c.frames == groups + c.initialDrops + c.alignmentDrops + |c.queue| + cleared
    && (c.frames == 0 ==> c.gaps == 0 && c.reconnectSkipped == 0)
    && (c.frames > 0 ==> c.lastId + 1 == c.firstId + c.frames + c.gaps + c.reconnectSkipped)
    && (stream != [] ==> c.frames > 0 && c.lastId == stream[|stream| - 1])
    && (forall x | x in earlier :: c.frames > 0 && x <= c.lastId)
    && (forall x, y | x in earlier && y in stream :: x < y)
  }

  function Dropped(c: Channel, initial: bool): Channel
    requires c.queue != []
  {
    if initial then c.(queue := c.queue[1..], initialDrops := c.initialDrops + 1)
    else c.(queue := c.queue[1..], alignmentDrops := c.alignmentDrops + 1)
  }

  function BooksOf(channel: seq<Channel>, accepted: seq<seq<nat>>, lost: seq<set<nat>>, dropped: seq<set<nat>>,
                   popped: seq<nat>): (b: Books)
    requires |channel| == |accepted| == |lost| == |dropped| == CHANNELS
    ensures Shape(b) && b.queue == Queues(channel)
  {
    Books(Queues(channel), accepted, lost, dropped, popped)
  }

  lemma BooksOfDrop(b: Books, channel: seq<Channel>, c: nat, initial: bool)
    requires Shape(b) && |channel| == CHANNELS && b.queue == Queues(channel) && c < CHANNELS && channel[c].queue != []
    ensures b.queue[c] != [] && b.queue[c][0] == channel[c].queue[0].id
    ensures BooksOf(channel[c := Dropped(channel[c], initial)], b.accepted, b.lost,
                    b.dropped[c := b.dropped[c] + {channel[c].queue[0].id}], b.popped) == DropHead(b, c)
    ensures BooksOf(channel[c := Dropped(channel[c], initial)], b.accepted,
                    b.lost[c := b.lost[c] + {channel[c].queue[0].id}], b.dropped, b.popped) == LoseHead(b, c)
  {
    IdsOfTail(channel[c].queue);
    assert Queues(channel[c := Dropped(channel[c], initial)]) == Queues(channel)[c := Queues(channel)[c][1..]];
  }

  function Taken(c: Channel): Channel
    requires c.queue != []
  {
    c.(queue := c.queue[1..])
  }

  lemma BooksOfPop(b: Books, before: seq<Channel>, after: seq<Channel>)
    requires Shape(b) && |before| == |after| == CHANNELS && b.queue == Queues(before)
    requires forall c: nat | c < CHANNELS :: before[c].queue != [] && after[c] == Taken(before[c])
    ensures forall c: nat | c < CHANNELS :: b.queue[c] != []
    ensures BooksOf(after, b.accepted, b.lost, b.dropped, b.popped + [before[0].queue[0].id]) == PopGroup(b)
  {
    forall c: nat | c < CHANNELS
      ensures b.queue[c] != [] && Ids(after[c].queue) == b.queue[c][1..] && b.queue[c][0] == before[c].queue[0].id
    {
      IdsOfTail(before[c].queue);
    }
    assert PopGroup(b).queue == Queues(after);
  }

  lemma RunIncreases(earlier: seq<nat>, popped: seq<nat>, x: nat)
    requires Increasing(earlier + popped)
    requires (forall y | y in earlier :: y < x) && (forall y | y in popped :: y < x)
    ensures Increasing(earlier + (popped + [x]))
  {
    var longer := earlier + (popped + [x]);
    forall i, j | 0 <= i < j < |longer|
      ensures longer[i] < longer[j]
    {
      if i < |earlier| {
        assert earlier[i] in earlier;
      } else {
        assert longer[i] == popped[i - |earlier|] && longer[i] in popped;
      }
      if j < |earlier| + |popped| { assert (earlier + popped)[i] < (earlier + popped)[j]; }
    }
  }

  /** The four frames of a group match when their original timestamps agree. */
  ghost predicate SameOrigin(channel: seq<Channel>)
    requires |channel| == CHANNELS && forall c: nat | c < CHANNELS :: channel[c].queue != []
  {
    forall c: nat | c < CHANNELS :: channel[c].queue[0].originPts == channel[0].queue[0].originPts
  }

  /** No two channels disagree about the group's timestamp. */
  lemma OriginsAgree(channel: seq<Channel>)
    requires |channel| == CHANNELS && forall c: nat | c < CHANNELS :: channel[c].queue != []
    ensures SameOrigin(channel) <==>
            forall c: nat, d: nat | c < CHANNELS && d < CHANNELS ::
              channel[c].queue[0].originPts == channel[d].queue[0].originPts
  {
    if SameOrigin(channel) {
      forall c: nat, d: nat | c < CHANNELS && d < CHANNELS
        ensures channel[c].queue[0].originPts == channel[d].queue[0].originPts
      {
      }
    }
  }

  lemma HeadFrames(b: Books, channel: seq<Channel>, x: nat)
    requires Shape(b) && |channel| == CHANNELS && b.queue == Queues(channel) && Heads(b, x)
    ensures forall c: nat | c < CHANNELS :: channel[c].queue != [] && channel[c].queue[0].id == x
  {
    forall c: nat | c < CHANNELS
      ensures channel[c].queue != [] && channel[c].queue[0].id == x
    {
      assert b.queue[c] != [];
    }
  }

  lemma HeadIsAccepted(b: Books, x: nat)
    requires Kept(b) && Heads(b, x)
    ensures x in b.accepted[0]
  {
    assert ChannelBooks(b, 0) && b.queue[0][0] in b.queue[0];
  }

  lemma SoundAfterPop(c: Channel, groups: nat, cleared: nat, stream: seq<nat>, earlier: seq<nat>)
    requires Sound(c, groups, cleared, stream, earlier) && c.queue != []
    ensures Sound(Taken(c), groups + 1, cleared, stream, earlier)
  {
  }

  lemma SoundOrder(c: Channel, groups: nat, cleared: nat, stream: seq<nat>, earlier: seq<nat>, x: nat)
    requires Sound(c, groups, cleared, stream, earlier) && x in stream
    ensures forall y | y in earlier :: y < x
  {
  }

  lemma SoundAfterDrop(c: Channel, initial: bool, groups: nat, cleared: nat, stream: seq<nat>, earlier: seq<nat>)
    requires Sound(c, groups, cleared, stream, earlier) && c.queue != []
    ensures Sound(Dropped(c, initial), groups, cleared, stream, earlier)
  {
  }

  /** The counters of a channel after it accepted a frame: the ids skipped since its
      last frame count as gaps, but right after a reconnect they are counted apart. */
  ghost predicate Advanced(c: Channel, d: Channel, f: SyncFrame) {
    && (c.frames > 0 ==> c.lastId < f.id)
    && var skipped := if c.frames > 0 then f.id - c.lastId - 1 else 0;
    && var rejoins := c.frames > 0 && c.expectReconnectFirst;
    && d.frames == c.frames + 1 && d.lastId == f.id && d.firstId == (if c.frames > 0 then c.firstId else f.id)
    && d.gaps == c.gaps + (if rejoins then 0 else skipped)
    && d.gapEvents == c.gapEvents + (if !rejoins && skipped > 0 then 1 else 0)
    && d.reconnectSkipped == c.reconnectSkipped + (if rejoins then skipped else 0)
    && d.expectReconnectFirst == (c.expectReconnectFirst && !rejoins)
    && d.duplicates == c.duplicates && d.backwards == c.backwards
  }

  /** A channel after accepting a frame. */
  ghost predicate Extended(c: Channel, d: Channel, f: SyncFrame) {
    && Advanced(c, d, f)
    && d.queue == c.queue + [f] && d.initialDrops == c.initialDrops && d.alignmentDrops == c.alignmentDrops
  }

  lemma SoundAfterAccept(c: Channel, d: Channel, groups: nat, cleared: nat, stream: seq<nat>, earlier: seq<nat>,
                         f: SyncFrame)
    requires Sound(c, groups, cleared, stream, earlier) && Extended(c, d, f)
    ensures Sound(d, groups, cleared, stream + [f.id], earlier)
    ensures stream != [] ==> stream[|stream| - 1] < f.id
  {
  }

  lemma BooksOfAccept(b: Books, channel: seq<Channel>, c: nat, d: Channel, f: SyncFrame)
    requires Shape(b) && |channel| == CHANNELS && c < CHANNELS && b.queue == Queues(channel)
    requires d.queue == channel[c].queue + [f]
    ensures BooksOf(channel[c := d], b.accepted[c := b.accepted[c] + [f.id]], b.lost, b.dropped, b.popped)
            == Accept(b, c, f.id)
  {
    IdsOfPush(channel[c].queue, f);
    assert Queues(channel[c := d]) == Queues(channel)[c := Queues(channel)[c] + [f.id]];
  }

  // ----- the state of a client as a value, and its steps

  /** The invariant: the books are kept, the run's groups increase, and every
      channel's counters add up. */
  ghost predicate Good(channel: seq<Channel>, b: Books, groups: nat, cleared: seq<nat>, earlier: seq<nat>) {
    && |channel| == |cleared| == CHANNELS && Shape(b) && b.queue == Queues(channel)
    && Kept(b) && Increasing(earlier + b.popped)
    && forall c: nat | c < CHANNELS :: Sound(channel[c], groups, cleared[c], b.accepted[c], earlier)
  }

  lemma GoodAfterDrop(channel: seq<Channel>, b: Books, groups: nat, cleared: seq<nat>, earlier: seq<nat>,
                      c: nat, ahead: nat, initial: bool)
    requires Good(channel, b, groups, cleared, earlier) && c < CHANNELS && ahead < CHANNELS
    requires channel[c].queue != [] && channel[ahead].queue != [] && channel[c].queue[0].id < channel[ahead].queue[0].id
    ensures var after := channel[c := Dropped(channel[c], initial)];
            var books := b.(queue := Queues(after), dropped := b.dropped[c := b.dropped[c] + {channel[c].queue[0].id}]);
            Good(after, books, groups, cleared, earlier) && forall x :: Waiting(books, x) <==> Waiting(b, x)
  {
    hide Kept, Waiting, Increasing, DropHead, LoseHead, Sound, Queues;
    BooksOfDrop(b, channel, c, initial);
    BooksOfDrop(b, channel, ahead, initial);
    DropKeepsBooks(b, c, ahead);
    forall x
      ensures Waiting(DropHead(b, c), x) <==> Waiting(b, x)
    {
      DropKeepsWaiting(b, c, ahead, x);
    }
    assert DropHead(b, c).popped == b.popped && DropHead(b, c).accepted == b.accepted by { DropFields(b, c); }
    SoundAfterDrop(channel[c], initial, groups, cleared[c], b.accepted[c], earlier);
  }

  lemma DropFields(b: Books, c: nat)
    requires Shape(b) && c < CHANNELS && b.queue[c] != []
    ensures DropHead(b, c).popped == b.popped && DropHead(b, c).accepted == b.accepted
    ensures LoseHead(b, c).popped == b.popped && LoseHead(b, c).accepted == b.accepted
  {
  }

  lemma GoodAfterLose(channel: seq<Channel>, b: Books, groups: nat, cleared: seq<nat>, earlier: seq<nat>, c: nat)
    requires Good(channel, b, groups, cleared, earlier) && c < CHANNELS && channel[c].queue != []
    ensures var after := channel[c := Dropped(channel[c], false)];
            var books := b.(queue := Queues(after), lost := b.lost[c := b.lost[c] + {channel[c].queue[0].id}]);
            Good(after, books, groups, cleared, earlier)
  {
    hide Kept, Increasing, DropHead, LoseHead, Sound, Queues;
    BooksOfDrop(b, channel, c, false);
    LoseKeepsBooks(b, c);
    DropFields(b, c);
    SoundAfterDrop(channel[c], false, groups, cleared[c], b.accepted[c], earlier);
  }

  lemma GoodAfterPop(before: seq<Channel>, after: seq<Channel>, b: Books, groups: nat, cleared: seq<nat>,
                     earlier: seq<nat>,
                     id: nat)
    requires Good(before, b, groups, cleared, earlier) && Heads(b, id) && |after| == CHANNELS
    requires forall c: nat | c < CHANNELS :: before[c].queue != [] && after[c] == Taken(before[c])
    requires before[0].queue[0].id == id
    ensures Good(after, b.(queue := Queues(after), popped := b.popped + [id]), groups + 1, cleared, earlier)
  {
    hide Kept, Increasing, Sound, Queues, Heads, PopGroup;
    BooksOfPop(b, before, after);
    PopKeepsBooks(b, id);
    HeadIsAccepted(b, id);
    SoundOrder(before[0], groups, cleared[0], b.accepted[0], earlier, id);
    RunIncreases(earlier, b.popped, id);
    forall c: nat | c < CHANNELS
      ensures Sound(after[c], groups + 1, cleared[c], b.accepted[c], earlier)
    {
      SoundAfterPop(before[c], groups, cleared[c], b.accepted[c], earlier);
    }
  }

  lemma GoodAfterAccept(channel: seq<Channel>, b: Books, groups: nat, cleared: seq<nat>, earlier: seq<nat>,
                        c: nat, d: Channel, f: SyncFrame)
    requires Good(channel, b, groups, cleared, earlier) && c < CHANNELS && Extended(channel[c], d, f)
    ensures var after := channel[c := d];
            Good(after, b.(queue := Queues(after), accepted := b.accepted[c := b.accepted[c] + [f.id]]),
                 groups, cleared, earlier)
  {
    hide Kept, Increasing, Sound, Queues;
    SoundAfterAccept(channel[c], d, groups, cleared[c], b.accepted[c], earlier, f);
    AcceptKeepsBooks(b, c, f.id);
    BooksOfAccept(b, channel, c, d, f);
  }

  lemma GoodAfterCount(channel: seq<Channel>, b: Books, groups: nat, cleared: seq<nat>, earlier: seq<nat>, c: nat,
                       d: Channel)
    requires Good(channel, b, groups, cleared, earlier) && c < CHANNELS
    requires d == channel[c].(duplicates := d.duplicates, backwards := d.backwards,
                              expectReconnectFirst := d.expectReconnectFirst)
    ensures Good(channel[c := d], b.(queue := Queues(channel[c := d])), groups, cleared, earlier)
    ensures Queues(channel[c := d]) == Queues(channel)
  {
    hide Kept, Increasing;
    assert Queues(channel[c := d]) == Queues(channel);
  }

  /** The queues emptied: a new epoch, whose books start blank. */
  function Blank(queues: seq<seq<nat>>): Books {
    Books(queues, [[], [], [], []], [{}, {}, {}, {}], [{}, {}, {}, {}], [])
  }

  lemma KeptBlank(queues: seq<seq<nat>>)
    requires |queues| == CHANNELS && forall c: nat | c < CHANNELS :: queues[c] == []
    ensures Kept(Blank(queues))
  {
    NothingIncreases();
  }

  lemma PoppedInStream(b: Books, c: nat)
    requires Kept(b) && c < CHANNELS
    ensures Increasing(b.accepted[c]) && forall x | x in b.popped :: x in b.accepted[c]
  {
    assert ChannelBooks(b, c);
  }

  lemma GoodAfterClear(before: seq<Channel>, after: seq<Channel>, b: Books, groups: nat, cleared: seq<nat>,
                       gone: seq<nat>,
                       earlier: seq<nat>)
    requires Good(before, b, groups, cleared, earlier) && |after| == |gone| == CHANNELS
    requires forall c: nat | c < CHANNELS ::
             after[c] == before[c].(queue := []) && gone[c] == cleared[c] + |before[c].queue|
    ensures Good(after, Blank(Queues(after)), groups, gone, earlier + b.popped)
  {
    hide Increasing, Kept, Sound, Queues;
    var blank := Blank(Queues(after));
    assert earlier + b.popped + [] == earlier + b.popped;
    assert forall c: nat | c < CHANNELS :: Ids(after[c].queue) == [];
    KeptBlank(Queues(after));
    forall c: nat | c < CHANNELS
      ensures Sound(after[c], groups, gone[c], blank.accepted[c], earlier + b.popped)
    {
      PoppedInStream(b, c);
      SoundAfterClear(before[c], groups, cleared[c], b.accepted[c], earlier, b.popped);
      assert blank.accepted[c] == [];
    }
  }

  lemma GoodAtStart(channel: seq<Channel>, c: Channel, cleared: seq<nat>)
    requires c == Channel([], false, 0, 0, 0, 0, 0, 0, 0, 0, 0, 0) && channel == [c, c, c, c] && cleared == [0, 0, 0, 0]
    ensures Good(channel, Blank(Queues(channel)), 0, cleared, [])
  {
    hide Kept, Increasing, Sound, Queues;
    var blank := Blank(Queues(channel));
    assert forall d: nat | d < CHANNELS :: channel[d] == c && cleared[d] == 0 && blank.accepted[d] == [];
    assert Ids([]) == [];
    KeptBlank(Queues(channel));
    NothingIncreases();
    assert [] + blank.popped == [];
    assert Sound(c, 0, 0, [], []) by { SoundAtStart(c); }
  }

  lemma SoundAtStart(c: Channel)
    requires c == Channel([], false, 0, 0, 0, 0, 0, 0, 0, 0, 0, 0)
    ensures Sound(c, 0, 0, [], [])
  {
  }

  lemma NothingIncreases()
    ensures Increasing([])
  {
  }

  lemma SoundAfterClear(c: Channel, groups: nat, cleared: nat, stream: seq<nat>, earlier: seq<nat>, popped: seq<nat>)
    requires Sound(c, groups, cleared, stream, earlier) && Increasing(stream) && forall x | x in popped :: x in stream
    ensures Sound(c.(queue := []), groups, cleared + |c.queue|, [], earlier + popped)
  {
    forall x | x in earlier + popped
      ensures c.frames > 0 && x <= c.lastId
    {
      if x in popped { assert x in stream; }
    }
  }

  class Client {
    var channel: seq<Channel>
    var barrierReady: bool
    var barrierId: nat
    var barrierCount: nat
    var waitingReconnect: bool
    var reconnectAttempts: nat
    var reconnectCount: nat
    var reconnectSuccesses: nat
    var groups: nat
    var mismatches: nat
    var firstGroupId: nat
    var lastGroupId: nat

    /** The streams accepted since the last clear, and where their frames went. */
    ghost var accepted: seq<seq<nat>>
    ghost var lost: seq<set<nat>>
    ghost var dropped: seq<set<nat>>
    ghost var popped: seq<nat>

    /** Over the whole run: groups popped before the last clear, and frames cleared. */
    ghost var earlier: seq<nat>
    ghost var cleared: seq<nat>

    constructor (count: nat)
      ensures Valid() && Bounded() && reconnectCount == count && earlier == [] && popped == [] && !waitingReconnect
    {
      hide Kept, Queues, Increasing, Sound;
      var c := Channel([], false, 0, 0, 0, 0, 0, 0, 0, 0, 0, 0);
      channel := [c, c, c, c];
      barrierReady, waitingReconnect, barrierId, barrierCount := false, false, 0, 0;
      reconnectAttempts, reconnectCount, reconnectSuccesses := 0, count, 0;
      groups, mismatches, firstGroupId, lastGroupId := 0, 0, 0, 0;
      accepted, lost, dropped, popped := [[], [], [], []], [{}, {}, {}, {}], [{}, {}, {}, {}], [];
      earlier, cleared := [], [0, 0, 0, 0];
      new;
      GoodAtStart(channel, c, cleared);
    }

    ghost predicate Sizes()
      reads this`channel, this`accepted, this`lost, this`dropped, this`cleared
    {
      |channel| == |accepted| == |lost| == |dropped| == |cleared| == CHANNELS
    }

    ghost function View(): (b: Books)
      requires Sizes()
      reads this`channel, this`accepted, this`lost, this`dropped, this`popped, this`cleared
      ensures Shape(b) && b.queue == Queues(channel)
    {
      BooksOf(channel, accepted, lost, dropped, popped)
    }

    ghost predicate Valid()
      reads this`channel, this`accepted, this`lost, this`dropped, this`popped, this`groups, this`mismatches
      reads this`cleared, this`earlier
    {
      Sizes() && Good(channel, View(), groups + mismatches, cleared, earlier)
    }

    lemma ValidSizes()
      requires Valid()
      ensures Sizes() && View().queue == Queues(channel) && Kept(View())
    {
    }

    method DropHeadFrame(ch: nat, ghost ahead: nat, initial: bool)
      requires Valid() && ch < CHANNELS && ahead < CHANNELS && channel[ahead].queue != [] && channel[ch].queue != []
      requires channel[ch].queue[0].id < channel[ahead].queue[0].id
      modifies this`channel, this`dropped
      ensures Valid() && channel == old(channel)[ch := Dropped(old(channel)[ch], initial)]
      ensures Shrunk(old(channel), channel)
      ensures forall x :: Waiting(View(), x) <==> Waiting(old(View()), x)
    {
      hide Good, Waiting, Queues, Shrunk;
      ShrinksBy(channel, ch, Dropped(channel[ch], initial));
      GoodAfterDrop(channel, View(), groups + mismatches, cleared, earlier, ch, ahead, initial);
      ghost var id := channel[ch].queue[0].id;
      var c := channel[ch];
      c := c.(queue := c.queue[1..]);
      if initial {
        c := c.(initialDrops := c.initialDrops + 1);
      } else {
        c := c.(alignmentDrops := c.alignmentDrops + 1);
      }
      channel := channel[ch := c];
      dropped := dropped[ch := dropped[ch] + {id}];
    }

    /** Drops the frames of one channel below the target, an id at the head of
        another channel's queue. */
    method DropBelow(ch: nat, target: nat, ghost ahead: nat, initial: bool) returns (any: bool)
      requires Valid() && ch < CHANNELS && ahead < CHANNELS
      requires channel[ahead].queue != [] && channel[ahead].queue[0].id == target
      modifies this`channel, this`dropped
      ensures Valid() && forall d: nat | d < CHANNELS && d != ch :: channel[d] == old(channel)[d]
      ensures channel[ch].queue == [] || target <= channel[ch].queue[0].id
      ensures if any then |channel[ch].queue| < |old(channel)[ch].queue| else channel == old(channel)
      ensures channel[ahead] == old(channel)[ahead] && Shrunk(old(channel), channel)
      ensures forall x :: Waiting(View(), x) <==> Waiting(old(View()), x)
    {
      hide Good, Waiting, Queues, Shrunk;
      ShrinksNot(channel);
      any := false;
      while channel[ch].queue != [] && channel[ch].queue[0].id < target
        invariant Valid() && forall d: nat | d < CHANNELS && d != ch :: channel[d] == old(channel)[d]
        invariant channel[ahead] == old(channel)[ahead] && Shrunk(old(channel), channel)
        invariant if any then |channel[ch].queue| < |old(channel)[ch].queue| else channel == old(channel)
        invariant forall x :: Waiting(View(), x) <==> Waiting(old(View()), x)
        decreases |channel[ch].queue|
      {
        ghost var before := channel;
        DropHeadFrame(ch, ahead, initial);
        ShrinksOn(old(channel), before, channel);
        any := true;
      }
    }

    /** One pass over the channels; it stops at the first queue it empties. */
    method DropPass(target: nat, ghost ahead: nat, initial: bool) returns (any: bool, emptied: bool)
      requires Valid() && ahead < CHANNELS && channel[ahead].queue != [] && channel[ahead].queue[0].id == target
      modifies this`channel, this`dropped
      ensures Valid()
      ensures forall x :: Waiting(View(), x) <==> Waiting(old(View()), x)
      ensures if any then Total(channel) < Total(old(channel)) else channel == old(channel)
      ensures Shrunk(old(channel), channel)
      ensures if emptied then exists c: nat :: c < CHANNELS && channel[c].queue == []
              else forall c: nat | c < CHANNELS :: channel[c].queue != [] && target <= channel[c].queue[0].id
    {
      hide Good, Waiting, Queues, Shrunk, Total;
      ShrinksNot(channel);
      any, emptied := false, false;
      var ch := 0;
      while ch < CHANNELS
        invariant ch <= CHANNELS && Valid()
        invariant channel[ahead] == old(channel)[ahead]
        invariant forall x :: Waiting(View(), x) <==> Waiting(old(View()), x)
        invariant if any then Total(channel) < Total(old(channel)) else channel == old(channel)
        invariant Shrunk(old(channel), channel)
        invariant forall c: nat | c < ch :: channel[c].queue != [] && target <= channel[c].queue[0].id
      {
        ghost var before := channel;
        var some := DropBelow(ch, target, ahead, initial);
        ShrinksTotal(before, channel, ch);
        ShrinksOn(old(channel), before, channel);
        any := any || some;
        if channel[ch].queue == [] {
          return any, true;
        }
        ch := ch + 1;
      }
    }

    /** Aligns the queue heads, exactly when some id waits in every queue: then the
        heads become the least such id, and nothing that waits everywhere is
        dropped.  Otherwise some queue runs empty. */
    method AlignFrontFrames(initial: bool) returns (aligned: bool)
      requires Valid()
      modifies this`channel, this`dropped
      ensures Valid()
      ensures aligned <==> exists x :: Waiting(old(View()), x)
      ensures aligned ==> channel[0].queue != [] && Heads(View(), channel[0].queue[0].id)
      ensures aligned ==> Waiting(old(View()), channel[0].queue[0].id)
      ensures aligned ==> forall x | Waiting(old(View()), x) :: channel[0].queue[0].id <= x
      ensures forall x :: Waiting(View(), x) <==> Waiting(old(View()), x)
      ensures !aligned ==> exists c: nat :: c < CHANNELS && channel[c].queue == []
      ensures Total(channel) <= Total(old(channel)) && Shrunk(old(channel), channel)
    {
      hide Good, Waiting, Queues, Heads, Kept, Shrunk, Total;
      ShrinksNot(channel);
      while true
        invariant Valid()
        invariant forall x :: Waiting(View(), x) <==> Waiting(old(View()), x)
        invariant Total(channel) <= Total(old(channel)) && Shrunk(old(channel), channel)
        decreases Total(channel)
      {
        var target := 0;
        ghost var ahead := 0;
        var ch := 0;
        while ch < CHANNELS
          invariant ch <= CHANNELS
          invariant forall c: nat | c < ch :: channel[c].queue != [] && channel[c].queue[0].id <= target
          invariant ch == 0 ==> target == 0
          invariant ch > 0 ==> ahead < ch && channel[ahead].queue[0].id == target
        {
          if channel[ch].queue == [] {
            NothingWaits();
            return false;
          }
          if channel[ch].queue[0].id > target || ch == 0 {
            ahead := ch;
          }
          if channel[ch].queue[0].id > target {
            target := channel[ch].queue[0].id;
          }
          ch := ch + 1;
        }
        ghost var before := channel;
        var any, emptied := DropPass(target, ahead, initial);
        ShrinksOn(old(channel), before, channel);
        if emptied {
          NothingWaits();
          return false;
        }
        if !any {
          assert channel == before;
          EqualHeads(target);
          ValidSizes();
          forall x
            ensures Waiting(View(), target) && (Waiting(View(), x) ==> target <= x)
          {
            HeadsAreLeastWaiting(View(), target, x);
          }
          assert Waiting(old(View()), target);
          return true;
        }
      }
    }

    lemma NothingWaits()
      requires Sizes() && exists c: nat :: c < CHANNELS && channel[c].queue == []
      ensures forall x :: !Waiting(View(), x)
    {
      var c: nat :| c < CHANNELS && channel[c].queue == [];
      assert View().queue[c] == [];
    }

    lemma EqualHeads(target: nat)
      requires Sizes() && forall c: nat | c < CHANNELS :: channel[c].queue != [] && channel[c].queue[0].id == target
      ensures Heads(View(), target)
    {
      forall c: nat | c < CHANNELS
        ensures View().queue[c] != [] && View().queue[c][0] == target
      {
        IdsOfTail(channel[c].queue);
      }
    }

    // ----- groups

    /** Pops the head of every queue and compares the frames. */
    method TakeHeads() returns (id: nat, valid: bool)
      requires |channel| == CHANNELS && channel[0].queue != []
      requires forall c: nat | c < CHANNELS ::
               channel[c].queue != [] && channel[c].queue[0].id == channel[0].queue[0].id
      modifies this`channel
      ensures |channel| == |old(channel)| == CHANNELS
      ensures forall c: nat | c < CHANNELS :: old(channel)[c].queue != [] && channel[c] == Taken(old(channel)[c])
      ensures id == old(channel)[0].queue[0].id && (valid <==> SameOrigin(old(channel)))
    {
      var frames: seq<SyncFrame> := [];
      valid := true;
      var ch := 0;
      while ch < CHANNELS
        invariant ch <= CHANNELS && |frames| == ch && |channel| == CHANNELS
        invariant forall c: nat | c < ch ::
                  frames[c] == old(channel)[c].queue[0] && channel[c] == Taken(old(channel)[c])
        invariant forall c: nat | ch <= c < CHANNELS :: channel[c] == old(channel)[c]
        invariant valid <==> forall c: nat | c < ch ::
                  frames[c].originPts == frames[0].originPts && frames[c].id == frames[0].id
      {
        frames := frames + [channel[ch].queue[0]];
        channel := channel[ch := channel[ch].(queue := channel[ch].queue[1..])];
        if ch > 0 && (frames[ch].id != frames[0].id || frames[ch].originPts != frames[0].originPts) {
          valid := false;
        }
        ch := ch + 1;
      }
      id := frames[0].id;
    }

    /** Pops the heads; they form a group, or a mismatch if their origins differ. */
    method PopFrames()
      requires Valid() && channel[0].queue != [] && Heads(View(), channel[0].queue[0].id)
      modifies this`channel, this`popped, this`groups, this`mismatches, this`firstGroupId, this`lastGroupId
      ensures Valid() && Shrunk(old(channel), channel) && Total(channel) < Total(old(channel))
      ensures popped == old(popped) + [old(channel)[0].queue[0].id]
      ensures (forall c: nat | c < CHANNELS :: old(channel)[c].queue != [])
              && var matched := SameOrigin(old(channel));
              && groups == old(groups) + (if matched then 1 else 0)
              && mismatches == old(mismatches) + (if matched then 0 else 1)
              && (matched ==> lastGroupId == old(channel)[0].queue[0].id)
              && (if matched && old(groups) == 0 then firstGroupId == lastGroupId
                  else firstGroupId == old(firstGroupId))
    {
      hide Good, Queues, SameOrigin, Heads, Kept, Shrunk, Total;
      ValidSizes();
      ghost var before := View();
      HeadFrames(before, channel, channel[0].queue[0].id);
      var id, valid := TakeHeads();
      ShrinksByPop(old(channel), channel);
      GoodAfterPop(old(channel), channel, before, groups + mismatches, cleared, earlier, id);
      if valid {
        if groups == 0 {
          firstGroupId := id;
        }
        lastGroupId := id;
        groups := groups + 1;
      } else {
        mismatches := mismatches + 1;
      }
      popped := popped + [id];
    }

    /** Pops groups until the heads cannot be aligned any more. */
    method PopGroups()
      requires Valid()
      modifies this`channel, this`popped, this`dropped, this`groups, this`mismatches, this`firstGroupId,
               this`lastGroupId
      ensures Valid() && Shrunk(old(channel), channel)
      ensures exists c: nat :: c < CHANNELS && channel[c].queue == []
      ensures old(popped) <= popped && groups + mismatches == old(groups + mismatches) + |popped| - |old(popped)|
    {
      hide Valid, View, Heads, Waiting, Kept, Queues, SameOrigin, Shrunk;
      ValidSizes();
      var more := AlignFrontFrames(false);
      ValidSizes();
      while more
        invariant Valid() && Sizes() && Shrunk(old(channel), channel)
        invariant more ==> channel[0].queue != [] && Heads(View(), channel[0].queue[0].id)
        invariant !more ==> exists c: nat :: c < CHANNELS && channel[c].queue == []
        invariant old(popped) <= popped && groups + mismatches == old(groups + mismatches) + |popped| - |old(popped)|
        decreases Total(channel), more
      {
        ghost var before := channel;
        PopFrames();
        ValidSizes();
        ShrinksOn(old(channel), before, channel);
        ghost var between := channel;
        more := AlignFrontFrames(false);
        ValidSizes();
        ShrinksOn(old(channel), between, channel);
      }
    }

    /** The first alignment of an epoch, counted where it succeeds. */
    method PassBarrier() returns (aligned: bool)
      requires Valid()
      modifies this`channel, this`dropped, this`barrierReady, this`barrierId, this`barrierCount
      ensures Valid() && Shrunk(old(channel), channel)
      ensures aligned <==> exists x :: Waiting(old(View()), x)
      ensures if aligned then channel[0].queue != [] && barrierReady && barrierId == channel[0].queue[0].id
              else exists c: nat :: c < CHANNELS && channel[c].queue == []
      ensures barrierCount == old(barrierCount) + if aligned then 1 else 0
    {
      hide Good, View, Heads, Waiting, Queues, Shrunk, Total;
      aligned := AlignFrontFrames(true);
      if aligned {
        barrierReady := true;
        barrierId := channel[0].queue[0].id;
        barrierCount := barrierCount + 1;
      }
    }

    /** Forms every group that can be formed now: outside a reconnect, what has
        been popped since the last clear is then the intersection of the streams. */
    method ProcessGroups()
      requires Valid()
      modifies this`channel, this`popped, this`dropped, this`groups, this`mismatches, this`firstGroupId,
               this`lastGroupId
      modifies this`barrierReady, this`barrierId, this`barrierCount
      ensures Valid() && Shrunk(old(channel), channel)
      ensures waitingReconnect ==> channel == old(channel) && popped == old(popped)
      ensures !waitingReconnect ==> forall x :: x in popped <==> Common(View(), x)
      ensures old(popped) <= popped && groups + mismatches == old(groups + mismatches) + |popped| - |old(popped)|
    {
      hide Valid, View, Heads, Waiting, Common, Kept, Queues, Shrunk, Total, SameOrigin;
      ValidSizes();
      ShrinksNot(channel);
      if waitingReconnect {
        return;
      }
      if !barrierReady {
        var aligned := PassBarrier();
        ValidSizes();
        if !aligned {
          Intersect();
          return;
        }
      }
      ghost var before := channel;
      PopGroups();
      ValidSizes();
      ShrinksOn(old(channel), before, channel);
      Intersect();
    }

    lemma Intersect()
      requires Valid() && exists c: nat :: c < CHANNELS && channel[c].queue == []
      ensures forall x :: x in popped <==> Common(View(), x)
    {
      hide Good, Kept, Common;
      ValidSizes();
      var c: nat :| c < CHANNELS && channel[c].queue == [];
      forall x
        ensures x in popped <==> Common(View(), x)
      {
        PoppedIsTheIntersection(View(), c, x);
      }
    }

    // ----- samples

    method LoseHeadFrame(ch: nat)
      requires Valid() && ch < CHANNELS && channel[ch].queue != []
      modifies this`channel, this`lost
      ensures Valid() && channel == old(channel)[ch := Dropped(old(channel)[ch], false)]
      ensures ch < |old(lost)| && lost == old(lost)[ch := old(lost)[ch] + {old(channel)[ch].queue[0].id}]
    {
      hide Good, Queues;
      GoodAfterLose(channel, View(), groups + mismatches, cleared, earlier, ch);
      ghost var id := channel[ch].queue[0].id;
      var c := channel[ch];
      channel := channel[ch := c.(queue := c.queue[1..], alignmentDrops := c.alignmentDrops + 1)];
      lost := lost[ch := lost[ch] + {id}];
    }

    /** Cuts a queue to the limit, oldest frames first. */
    method EnforceLimit(ch: nat)
      requires Valid() && ch < CHANNELS
      modifies this`channel, this`lost
      ensures Valid() && |lost| == |old(lost)| == CHANNELS && Shrunk(old(channel), channel)
      ensures |channel[ch].queue| <= QUEUE_LIMIT
      ensures var c := old(channel)[ch];
              var over := Excess(c.queue);
              && channel == old(channel)[ch := c.(queue := c.queue[over..], alignmentDrops := c.alignmentDrops + over)]
              && lost == old(lost)[ch := old(lost)[ch] + IdsIn(c.queue[..over])]
    {
      hide Good, View, IdsIn, Shrunk;
      ghost var all, line := channel, lost;
      ghost var c, over, k := channel[ch], Excess(channel[ch].queue), 0;
      CutNothing(c, all, line, ch);
      while |channel[ch].queue| > QUEUE_LIMIT
        invariant Valid() && k <= over <= |c.queue|
        invariant channel == all[ch := CutBy(c, k)] && lost == line[ch := line[ch] + IdsIn(c.queue[..k])]
        decreases |channel[ch].queue|
      {
        CutOneMore(c, k, line[ch]);
        LoseHeadFrame(ch);
        k := k + 1;
      }
      ShrinksBy(all, ch, channel[ch]);
    }

    ghost predicate Bounded()
      requires Sizes()
      reads this`channel, this`accepted, this`lost, this`dropped, this`cleared
    {
      forall c: nat | c < CHANNELS :: |channel[c].queue| <= QUEUE_LIMIT
    }

    /** The channel record of an accepted frame. */
    method Count(c: Channel, order: Order, frame: SyncFrame) returns (d: Channel)
      requires order == OrderCheck(c.frames > 0, c.lastId, frame.id) && order != Duplicate && order != Backward
      ensures Extended(c, d, frame)
    {
      d := c;
      if c.frames == 0 {
        d := d.(firstId := frame.id);
      } else if c.expectReconnectFirst {
        var skipped := 0;
        if order == Gap {
          skipped := frame.id - c.lastId - 1;
          d := d.(reconnectSkipped := d.reconnectSkipped + skipped);
        }
        d := d.(expectReconnectFirst := false);
      } else if order == Gap {
        d := d.(gapEvents := d.gapEvents + 1, gaps := d.gaps + (frame.id - c.lastId - 1));
      }
      d := d.(frames := d.frames + 1, lastId := frame.id, queue := d.queue + [frame]);
    }

    /** The frame goes on its queue, which is then cut to the limit. */
    method Enqueue(ch: nat, d: Channel, frame: SyncFrame)
      requires Valid() && ch < CHANNELS && Bounded() && Extended(channel[ch], d, frame)
      modifies this`channel, this`accepted, this`lost
      ensures Valid() && Bounded() && Shrunk(old(channel)[ch := d], channel)
      ensures accepted == old(accepted)[ch := old(accepted)[ch] + [frame.id]]
      ensures lost == LostToLimit(old(lost), ch, old(channel)[ch].queue)
    {
      hide Good, Queues, Extended, Shrunk, IdsIn, Excess;
      GoodAfterAccept(channel, View(), groups + mismatches, cleared, earlier, ch, d, frame);
      LimitOfOneMore(channel[ch], d, frame);
      assert lost[ch] + {} == lost[ch];
      channel := channel[ch := d];
      accepted := accepted[ch := accepted[ch] + [frame.id]];
      EnforceLimit(ch);
    }

    /** The part of the sample handler after a frame id was parsed. */
    method AcceptFrame(ch: nat, frame: SyncFrame)
      requires Valid() && ch < CHANNELS && Bounded()
      modifies this`channel, this`accepted, this`lost, this`popped, this`dropped, this`groups, this`mismatches
      modifies this`firstGroupId, this`lastGroupId, this`barrierReady, this`barrierId, this`barrierCount
      ensures Valid() && Bounded()
      ensures old(channel)[ch].frames > 0 && frame.id <= old(channel)[ch].lastId ==>
                unchanged(this`firstGroupId, this`lastGroupId, this`barrierReady, this`barrierId, this`barrierCount)
      ensures var c := old(channel)[ch];
              if c.frames > 0 && frame.id <= c.lastId
              then && channel == old(channel)[ch := if frame.id == c.lastId then c.(duplicates := c.duplicates + 1)
                                                    else c.(backwards := c.backwards + 1)]
                   && unchanged(this`accepted, this`popped, this`lost, this`dropped, this`groups, this`mismatches)
              else && accepted == old(accepted)[ch := old(accepted)[ch] + [frame.id]]
                   && ch < |old(lost)| && lost == LostToLimit(old(lost), ch, c.queue)
                   && Advanced(c, channel[ch], frame) && EndOf(channel[ch].queue, c.queue + [frame])
                   && (forall d: nat | d < CHANNELS && d != ch :: Trimmed(old(channel)[d], channel[d]))
                   && old(popped) <= popped
                   && if waitingReconnect then popped == old(popped) else forall x :: x in popped <==> Common(View(), x)
    {
      hide Good, Queues, Common, Extended, Shrunk, Trimmed, LostToLimit, Advanced, EndOf, Kept;
      var c := channel[ch];
      var order := OrderCheck(c.frames > 0, c.lastId, frame.id);
      if order == Duplicate || order == Backward {
        var d := if order == Duplicate then c.(duplicates := c.duplicates + 1) else c.(backwards := c.backwards + 1);
        GoodAfterCount(channel, View(), groups + mismatches, cleared, earlier, ch, d);
        channel := channel[ch := d];
        return;
      }
      ghost var before := channel;
      var d := Count(c, order, frame);
      Enqueue(ch, d, frame);
      ghost var cut := channel;
      ProcessGroups();
      AfterGroups(before, ch, d, cut, channel, frame);
    }

    // ----- reconnects

    method EmptyQueues()
      requires |channel| == CHANNELS
      modifies this`channel
      ensures |channel| == CHANNELS && forall c: nat | c < CHANNELS :: channel[c] == old(channel)[c].(queue := [])
    {
      var ch := 0;
      while ch < CHANNELS
        invariant ch <= CHANNELS && |channel| == CHANNELS
        invariant forall c: nat | c < CHANNELS ::
                  channel[c] == if c < ch then old(channel)[c].(queue := []) else old(channel)[c]
      {
        while channel[ch].queue != []
          invariant |channel| == CHANNELS && channel[ch] == old(channel)[ch].(queue := channel[ch].queue)
          invariant forall c: nat | c < CHANNELS && c != ch ::
                      channel[c] == if c < ch then old(channel)[c].(queue := []) else old(channel)[c]
          decreases |channel[ch].queue|
        {
          channel := channel[ch := channel[ch].(queue := channel[ch].queue[1..])];
        }
        ch := ch + 1;
      }
    }

    method ClearQueues()
      requires Valid()
      modifies this`channel, this`accepted, this`lost, this`dropped, this`popped, this`earlier, this`cleared
      ensures Valid() && Bounded()
      ensures forall c: nat | c < CHANNELS :: channel[c] == old(channel)[c].(queue := []) && accepted[c] == []
      ensures earlier == old(earlier) + old(popped) && popped == []
    {
      hide Good, Queues;
      ghost var before, was := channel, cleared;
      EmptyQueues();
      ghost var gone: seq<nat> := seq(CHANNELS, c requires 0 <= c < CHANNELS => was[c] + |before[c].queue|);
      GoodAfterClear(old(channel), channel, old(View()), groups + mismatches, cleared, gone, earlier);
      earlier, cleared := earlier + popped, gone;
      accepted, lost, dropped, popped := [[], [], [], []], [{}, {}, {}, {}], [{}, {}, {}, {}], [];
    }

    /** The first locked section of a disconnect: a new epoch begins. */
    method BeginDisconnect() returns (down: bool)
      requires Valid() && Bounded()
      modifies this`channel, this`accepted, this`lost, this`dropped, this`popped, this`earlier, this`cleared
      modifies this`reconnectAttempts, this`waitingReconnect, this`barrierReady
      ensures Valid() && Bounded()
      ensures down <==> old(reconnectAttempts) < reconnectCount
      ensures down ==> waitingReconnect && !barrierReady && reconnectAttempts == old(reconnectAttempts) + 1
      ensures down ==> earlier == old(earlier) + old(popped) && popped == []
      ensures !down ==> unchanged(this)
    {
      hide Good, Queues;
      if reconnectAttempts >= reconnectCount {
        return false;
      }
      reconnectAttempts := reconnectAttempts + 1;
      waitingReconnect := true;
      barrierReady := false;
      ClearQueues();
      return true;
    }

    /** The second, once the channel's pipeline is down. */
    method FinishDisconnect(ch: nat)
      requires Valid() && ch < CHANNELS
      modifies this`channel, this`accepted, this`lost, this`dropped, this`popped, this`earlier, this`cleared
      ensures Valid() && Bounded() && channel[ch].expectReconnectFirst
      ensures earlier == old(earlier) + old(popped) && popped == []
    {
      hide Good, Queues;
      ClearQueues();
      var d := channel[ch].(expectReconnectFirst := true);
      GoodAfterCount(channel, View(), groups + mismatches, cleared, earlier, ch, d);
      channel := channel[ch := d];
    }

    /** The pipeline is up again. */
    method Reconnect()
      requires Valid() && Bounded()
      modifies this`waitingReconnect, this`reconnectSuccesses
      ensures Valid() && Bounded() && !waitingReconnect && reconnectSuccesses == old(reconnectSuccesses) + 1
    {
      hide Good, Queues;
      waitingReconnect := false;
      reconnectSuccesses := reconnectSuccesses + 1;
    }
  }
}
