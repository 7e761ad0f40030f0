/** The download-marker store: lower-cased final file names mapped to the clock
    tick at which they were marked, and its time-to-live expiry. */
module Markers {

  /** Markers older than this (10 minutes, in milliseconds) are purged. */
  const TempSeenTtl: int := 600000

  type MarkerMap = map<string, int>

  /** The oldest timestamp a marker may carry and survive a purge at `now`. */
  function Cutoff(now: int): int {
    now - TempSeenTtl
  }

  /** The markers that survive a purge at `now`. */
  function Purged(markers: MarkerMap, now: int): MarkerMap {
    map k | k in markers && markers[k] >= Cutoff(now) :: markers[k]
  }

  /** `purge_old`: collect the keys stamped strictly before the cutoff, then pop
      them one at a time. Exactly those keys go; every other key stays with its
      timestamp, and nothing is added. */
  method PurgeOld(markers: MarkerMap, now: int) returns (kept: MarkerMap)
    ensures forall k :: k in kept <==> k in markers && markers[k] >= now - TempSeenTtl
    ensures forall k :: k in kept ==> kept[k] == markers[k]
    ensures kept == Purged(markers, now)
  {
    var cutoff := Cutoff(now);
    var oldKeys := set k | k in markers && markers[k] < cutoff;
    kept := markers;
    var pending := oldKeys;
    while pending != {}
      invariant pending <= oldKeys
      invariant kept.Keys == markers.Keys - (oldKeys - pending)
      invariant forall k :: k in kept ==> kept[k] == markers[k]
      decreases pending
    {
      var k :| k in pending;
      kept := kept - {k};
      pending := pending - {k};
    }
  }

  /** A marker stamped at `t` survives a purge at `now` exactly while
      `now - t` is at most the TTL; in particular it is gone from every purge
      performed after `t + TempSeenTtl`. */
  lemma MarkerLifetime(markers: MarkerMap, key: string, t: int, now: int)
    requires key in markers && markers[key] == t
    ensures key in Purged(markers, now) <==> now <= t + TempSeenTtl
  {
  }

  /** Purging twice, at a time and then at a later time, is purging once at the
      later time: expiry needs no bookkeeping beyond the timestamps. */
  lemma {:induction false} PurgeTwice(markers: MarkerMap, t1: int, t2: int)
    requires t1 <= t2
    ensures Purged(Purged(markers, t1), t2) == Purged(markers, t2)
  {
    var a := Purged(Purged(markers, t1), t2);
    var b := Purged(markers, t2);
    assert a.Keys == b.Keys;
  }
}
