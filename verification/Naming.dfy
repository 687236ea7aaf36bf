/** File naming of recorded fragments: the naming epoch, the cached name stem, and the
marker one channel writes per session.

Formatting of a time is a parameter; it fails for epochs the time library cannot
represent, where the code falls back to the present time.  Enter is the section under
the cache lock; channels take it in any order.
*/
module Naming {
  import opened Wrappers

  // ----- the naming epoch

  /** A session's length in seconds. */
  function SessionSec(duration: int): (d: int)
    ensures d > 0 && d % 60 == 0
  {
    if duration > 0 then 60 * duration else 60
  }

  function NamingEpoch(now: int, target: int, duration: int): int {
    if target <= 0 then now + 1
    else if target - now > SessionSec(duration) / 2 then target - SessionSec(duration)
    else target
  }

  lemma HalfASession(duration: int)
    ensures SessionSec(duration) / 2 == 30 * (if duration > 0 then duration else 1)
    ensures SessionSec(duration) == 60 * (if duration > 0 then duration else 1)
  {
  }

  /** A file is named after a session within half a session of now exactly while the
      target lies no more than half a session back and one and a half ahead; without a
      target it is named after the next second. */
  lemma NamedNearNow(now: int, target: int, duration: int)
    ensures target > 0 ==>
              var epoch, half := NamingEpoch(now, target, duration), SessionSec(duration) / 2;
              && (-half <= epoch - now <= half <==> -half <= target - now <= 3 * half)
              && (epoch == target || epoch == target - SessionSec(duration))
    ensures target <= 0 ==> NamingEpoch(now, target, duration) == now + 1
  {
    var d := SessionSec(duration);
    HalfASession(duration);
    var m := if duration > 0 then duration else 1;
    if target > 0 {
      assert NamingEpoch(now, target, duration) == if target - now > 30 * m then target - d else target;
    }
  }

  // ----- the cache and the marker

  /** Which calls claim the marker: those whose epoch is not that of the call before. */
  function Claims(epochs: seq<int>): (claims: seq<bool>)
    ensures |claims| == |epochs|
  {
    seq(|epochs|, i requires 0 <= i < |epochs| => epochs[i] != if i == 0 then -1 else epochs[i - 1])
  }

  function CountTrue(s: seq<bool>): nat { if s == [] then 0 else CountTrue(s[..|s| - 1]) + if s[|s| - 1] then 1 else 0 }

  /** A maximal run of calls with one epoch, starting at i. */
  ghost predicate RunStarts(epochs: seq<int>, i: nat, n: nat) {
    && 0 < n && i + n <= |epochs|
    && (forall k | i <= k < i + n :: epochs[k] == epochs[i])
    && (if i == 0 then epochs[0] != -1 else epochs[i - 1] != epochs[i])
  }

  /** Exactly one caller claims the marker in every such run, the first. */
  lemma {:induction false} OneClaimPerRun(epochs: seq<int>, i: nat, n: nat)
    requires RunStarts(epochs, i, n)
    ensures CountTrue(Claims(epochs)[i..i + n]) == 1 && Claims(epochs)[i]
  {
    var run := Claims(epochs)[i..i + n];
    assert run[..n - 1] == Claims(epochs)[i..i + n - 1];
    if n > 1 {
      OneClaimPerRun(epochs, i, n - 1);
      assert epochs[i + n - 1] == epochs[i + n - 2];
    }
  }

  class StemCache {
    const format: int -> Option<string>
    var lastCache: int
    var lastMarked: int
    var cached: string

    /** The epochs of all calls and the claims they were given. */
    ghost var epochs: seq<int>
    ghost var claims: seq<bool>

    /** The cache holds the stem of the epoch it was filled for. */
    ghost predicate Valid()
      reads this
    {
      && claims == Claims(epochs)
      && lastMarked == (if epochs == [] then -1 else epochs[|epochs| - 1])
      && lastCache == lastMarked
      && (lastCache != -1 && format(lastCache).Some? ==> cached == format(lastCache).value)
    }

    constructor (f: int -> Option<string>)
      ensures Valid() && format == f && epochs == []
    {
      format, lastCache, lastMarked, cached, epochs, claims := f, -1, -1, "", [], [];
    }

    /** A caller gets the stem of its epoch, whoever filled the cache, whenever that
        epoch can be formatted, and the marker if nobody has it. */
    method Enter(epoch: int, fallback: string) returns (stem: string, claim: bool)
      requires Valid()
      modifies this
      ensures Valid() && epochs == old(epochs) + [epoch] && claims == old(claims) + [claim]
      ensures epoch != -1 && format(epoch).Some? ==> stem == format(epoch).value
      ensures epoch != old(lastCache) && format(epoch) == None ==> stem == fallback
      ensures epoch == old(lastCache) ==> stem == old(cached)
      ensures claim <==> epoch != old(lastMarked)
    {
      if epoch != lastCache {
        var time := format(epoch);
        cached := match time case Some(s) => s case None => fallback;
        lastCache := epoch;
      }
      claim := epoch != lastMarked;
      if claim {
        lastMarked := epoch;
      }
      stem := cached;
      epochs := epochs + [epoch];
      claims := claims + [claim];
    }
  }

  /** Where an epoch cannot be formatted, its stem is the fallback of whoever fills the
      cache: two callers with another epoch between them each get their own. */
  method UnformattableEpochsDiffer(format: int -> Option<string>, epoch: int, other: int, fallbacks: seq<string>)
    returns (first: string, second: string)
    requires epoch != -1 && format(epoch) == None && other != epoch && |fallbacks| == 3
    ensures first == fallbacks[0] && second == fallbacks[2]
  {
    var cache := new StemCache(format);
    var claim, between;
    first, claim := cache.Enter(epoch, fallbacks[0]);
    between, claim := cache.Enter(other, fallbacks[1]);
    second, claim := cache.Enter(epoch, fallbacks[2]);
  }
}
