/** The sliding-window rate limiter (util/ratelimit.go).

    A time is a natural number, zero being the zero time of the source language;
    the reading of the clock is a parameter. Methods are atomic: the source holds
    its mutex across each. */
module RateLimiter {

  type Time = nat

  datatype Key = Key(text: string)

  /** The times after cutoff, in order. */
  function After(ts: seq<Time>, cutoff: int): (r: seq<Time>)
    ensures |r| <= |ts|
  {
    if ts == [] then []
    else After(ts[..|ts| - 1], cutoff) + if ts[|ts| - 1] > cutoff then [ts[|ts| - 1]] else []
  }

  lemma NothingAfter(cutoff: int)
    ensures After([], cutoff) == []
  {
  }

  /** The newest time, or the zero time. */
  function Newest(ts: seq<Time>): (n: Time)
    ensures forall i :: 0 <= i < |ts| ==> ts[i] <= n
    ensures n == 0 || n in ts
  {
    if ts == [] then 0
    else var n := Newest(ts[..|ts| - 1]); if ts[|ts| - 1] > n then ts[|ts| - 1] else n
  }

  // ------------------------------------------------------ the limiter as a value

  datatype Config = Config(limit: int, window: int)

  datatype State = State(hits: map<Key, seq<Time>>, lastGC: Time)

  function HitsOf(hits: map<Key, seq<Time>>, key: Key): seq<Time> {
    if key in hits then hits[key] else []
  }

  function Unexpired(hits: map<Key, seq<Time>>, cutoff: int): (r: map<Key, seq<Time>>)
    ensures forall k :: k in r <==> k in hits && Newest(hits[k]) > cutoff
    ensures forall k :: k in r ==> r[k] == hits[k]
  {
    map k | k in hits && Newest(hits[k]) > cutoff :: hits[k]
  }

  /** Drops entirely-expired keys, once a window has passed since the last time. */
  function Collect(cfg: Config, s: State, now: Time): State {
    if now - s.lastGC < cfg.window then s
    else State(Unexpired(s.hits, now - cfg.window), now)
  }

  function Allow(cfg: Config, s: State, key: Key, now: Time): (State, bool) {
    if cfg.limit <= 0 then (s, true)
    else
      var c := Collect(cfg, s, now);
      var kept := After(HitsOf(c.hits, key), now - cfg.window);
      if |kept| >= cfg.limit then (c.(hits := c.hits[key := kept]), false)
      else (c.(hits := c.hits[key := kept + [now]]), true)
  }

  function Reset(s: State, key: Key): State {
    s.(hits := s.hits - {key})
  }

  // ----------------------------------------------------- the limiter as an object

  /** A slice: the first `len` elements of a backing array, whose length is the
      capacity. */
  datatype Slice = Slice(arr: array<Time>, len: nat)

  ghost predicate Holds(s: Slice, ts: seq<Time>)
    reads s.arr
  {
    s.len <= s.arr.Length && s.arr[..s.len] == ts
  }

  class Limiter {
    const cfg: Config
    var hits: map<Key, Slice>
    var lastGC: Time
    /** What the slices hold, and the key each backing array was given to. */
    ghost var times: map<Key, seq<Time>>
    ghost var owner: map<array<Time>, Key>

    constructor (limit: int, window: int, now: Time)
      ensures Valid() && cfg == Config(limit, window) && Value() == State(map[], now)
      ensures owner == map[]
    {
      cfg := Config(limit, window);
      hits := map[];
      lastGC := now;
      times := map[];
      owner := map[];
    }

    /** No two keys share a backing array. */
    ghost predicate Valid()
      reads this, owner.Keys
    {
      && hits.Keys == times.Keys
      && forall k :: k in hits ==> Owns(k) && Holds(hits[k], times[k])
    }

    ghost predicate Owns(key: Key)
      requires key in hits
      reads this
    {
      hits[key].arr in owner && owner[hits[key].arr] == key
    }

    ghost function Value(): State
      reads this
    {
      State(times, lastGC)
    }

    method AllowAt(key: Key, now: Time) returns (ok: bool)
      requires Valid()
      modifies this, owner.Keys
      ensures Valid() && fresh(owner.Keys - old(owner).Keys)
      ensures (Value(), ok) == Allow(cfg, old(Value()), key, now)
    {
      hide After, Collect;
      if cfg.limit <= 0 {
        return true;
      }
      CollectLocked(now);
      ghost var ts := After(HitsOf(times, key), now - cfg.window);
      var kept := CompactKey(key, now - cfg.window);
      if kept.len >= cfg.limit {
        Store(key, kept, ts);
        return false;
      }
      var grown := Append(kept, now);
      Store(key, grown, ts + [now]);
      return true;
    }

    /** Compacts the key's history in its own array, and reports the slice left. */
    method CompactKey(key: Key, cutoff: int) returns (kept: Slice)
      requires Valid()
      modifies if key in hits then {hits[key].arr} else {}
      ensures Holds(kept, After(HitsOf(times, key), cutoff)) && Apart(key, kept)
      ensures if key in hits then kept.arr == hits[key].arr else fresh(kept.arr)
    {
      hide After;
      if key in hits {
        var n := Compact(hits[key].arr, hits[key].len, cutoff);
        kept := Slice(hits[key].arr, n);
      } else {
        var none := new Time[0];
        kept := Slice(none, 0);
        NothingAfter(cutoff);
      }
    }

    /** The other keys hold what they should, in arrays other than s's. */
    ghost predicate Apart(key: Key, s: Slice)
      reads this, owner.Keys
    {
      && hits.Keys == times.Keys
      && forall k :: k in hits && k != key ==>
           Owns(k) && Holds(hits[k], times[k]) && hits[k].arr != s.arr
    }

    method Store(key: Key, s: Slice, ghost ts: seq<Time>)
      requires Holds(s, ts) && Apart(key, s)
      modifies this`hits, this`times, this`owner
      ensures Valid() && owner == old(owner)[s.arr := key] && times == old(times)[key := ts]
    {
      hits := hits[key := s];
      times := times[key := ts];
      owner := owner[s.arr := key];
    }

    method ResetKey(key: Key)
      requires Valid()
      modifies this
      ensures Valid() && owner == old(owner)
      ensures Value() == Reset(old(Value()), key)
    {
      hide Holds;
      hits := hits - {key};
      times := times - {key};
    }

    method CollectLocked(now: Time)
      requires Valid()
      modifies this`hits, this`times, this`lastGC
      ensures Valid() && owner == old(owner)
      ensures Value() == Collect(cfg, old(Value()), now)
    {
      hide Newest, Unexpired, Holds;
      if now - lastGC < cfg.window {
        return;
      }
      var live, ts := DropExpired(now - cfg.window);
      Keep(live, ts);
      lastGC := now;
    }

    method Keep(live: map<Key, Slice>, ghost ts: map<Key, seq<Time>>)
      requires Valid() && live.Keys == ts.Keys <= hits.Keys
      requires forall k :: k in live ==> live[k] == hits[k] && ts[k] == times[k]
      modifies this`hits, this`times
      ensures Valid() && hits == live && times == ts
    {
      hide Holds;
      hits := live;
      times := ts;
    }

    /** The histories left after deleting each key whose newest time has expired. */
    method DropExpired(cutoff: int) returns (live: map<Key, Slice>, ghost ts: map<Key, seq<Time>>)
      requires Valid()
      ensures ts == Unexpired(times, cutoff) && live.Keys == ts.Keys <= hits.Keys
      ensures forall k :: k in live ==> live[k] == hits[k] && ts[k] == times[k]
    {
      hide Newest, Unexpired;
      live := hits;
      var keys := hits.Keys;
      while keys != {}
        invariant keys <= live.Keys <= hits.Keys
        invariant forall k :: k in live ==> live[k] == hits[k]
        invariant forall k :: k in times && k !in keys ==> (k in live <==> Newest(times[k]) > cutoff)
      {
        var key :| key in keys;
        var newest := NewestOf(hits[key]);
        if !(newest > cutoff) {
          live := live - {key};
        }
        keys := keys - {key};
      }
      ts := Unexpired(times, cutoff);
    }

    method NewestOf(s: Slice) returns (newest: Time)
      requires s.len <= s.arr.Length
      ensures newest == Newest(s.arr[..s.len])
    {
      newest := 0;
      for i := 0 to s.len
        invariant newest == Newest(s.arr[..i])
      {
        assert s.arr[..i + 1][..i] == s.arr[..i];
        if s.arr[i] > newest {
          newest := s.arr[i];
        }
      }
    }
  }

  /** Keeps the times after cutoff, writing them to the front of the very array
      they are read from. */
  method Compact(arr: array<Time>, len: nat, cutoff: int) returns (n: nat)
    requires len <= arr.Length
    modifies arr
    ensures n <= len && arr[..n] == After(old(arr[..len]), cutoff)
  {
    n := 0;
    for i := 0 to len
      invariant n <= i
      invariant arr[..n] == After(old(arr[..len])[..i], cutoff)
      invariant forall j :: i <= j < len ==> arr[j] == old(arr[j])
    {
      assert old(arr[..len])[..i + 1][..i] == old(arr[..len])[..i];
      if arr[i] > cutoff {
        arr[n] := arr[i];
        n := n + 1;
      }
    }
    assert old(arr[..len])[..len] == old(arr[..len]);
  }

  /** append: in place while there is room, otherwise into a larger array. */
  method Append(s: Slice, t: Time) returns (r: Slice)
    requires s.len <= s.arr.Length
    modifies s.arr
    ensures r.len == s.len + 1 <= r.arr.Length && r.arr[..r.len] == old(s.arr[..s.len]) + [t]
    ensures r.arr == s.arr || fresh(r.arr)
  {
    if s.len < s.arr.Length {
      s.arr[s.len] := t;
      return Slice(s.arr, s.len + 1);
    }
    var bigger := new Time[2 * s.len + 1];
    for i := 0 to s.len
      invariant bigger[..i] == s.arr[..i]
      invariant s.arr[..] == old(s.arr[..])
    {
      bigger[i] := s.arr[i];
    }
    bigger[s.len] := t;
    return Slice(bigger, s.len + 1);
  }
}
