/** The limiter against the obvious specification over its whole history. */
module RateLimiterTheorems {
  import opened RateLimiter

  datatype Event = Attempt(key: Key, now: Time) | Forget(key: Key)

  // ------------------------------------------------------------------- a run

  function StateAfter(cfg: Config, s0: State, events: seq<Event>): State {
    if events == [] then s0
    else
      var s := StateAfter(cfg, s0, events[..|events| - 1]);
      match events[|events| - 1]
      case Attempt(key, now) => Allow(cfg, s, key, now).0
      case Forget(key) => Reset(s, key)
  }

  /** Whether e passes, after a run; a reset always does. */
  function Passes(cfg: Config, s0: State, before: seq<Event>, e: Event): bool {
    match e
    case Attempt(key, now) => Allow(cfg, StateAfter(cfg, s0, before), key, now).1
    case Forget(key) => true
  }

  function Answer(cfg: Config, s0: State, events: seq<Event>, i: nat): bool
    requires i < |events|
  {
    Passes(cfg, s0, events[..i], events[i])
  }

  /** The times of every accepted attempt on key since its last reset. */
  function Accepts(cfg: Config, s0: State, events: seq<Event>, key: Key): seq<Time> {
    if events == [] then []
    else
      var init, e := events[..|events| - 1], events[|events| - 1];
      var before := Accepts(cfg, s0, init, key);
      match e
      case Attempt(k, now) => if k == key && Passes(cfg, s0, init, e) then before + [now] else before
      case Forget(k) => if k == key then [] else before
  }

  function LastTime(events: seq<Event>): Time {
    if events == [] then 0
    else match events[|events| - 1]
      case Attempt(_, now) => now
      case Forget(_) => LastTime(events[..|events| - 1])
  }

  /** The clock never runs back from one attempt to the next. */
  predicate Ordered(events: seq<Event>) {
    events != [] ==>
      && Ordered(events[..|events| - 1])
      && (events[|events| - 1].Attempt? ==> LastTime(events[..|events| - 1]) <= events[|events| - 1].now)
  }

  /** The class, driven through a run: its answers are those of the model. */
  method Replay(limit: int, window: int, start: Time, events: seq<Event>) returns (answers: seq<bool>)
    ensures |answers| == |events|
    ensures forall i :: 0 <= i < |events| ==>
              answers[i] == Answer(Config(limit, window), State(map[], start), events, i)
  {
    hide After, Allow;
    var limiter := new Limiter(limit, window, start);
    answers := [];
    for i := 0 to |events|
      invariant limiter.Valid() && fresh(limiter) && fresh(limiter.owner.Keys)
      invariant limiter.cfg == Config(limit, window)
      invariant limiter.Value() == StateAfter(limiter.cfg, State(map[], start), events[..i])
      invariant |answers| == i
      invariant forall j :: 0 <= j < i ==> answers[j] == Answer(limiter.cfg, State(map[], start), events, j)
    {
      assert events[..i + 1][..i] == events[..i];
      match events[i] {
        case Attempt(key, now) =>
          var ok := limiter.AllowAt(key, now);
          answers := answers + [ok];
        case Forget(key) =>
          limiter.ResetKey(key);
          answers := answers + [true];
      }
    }
  }

  // ------------------------------------------------------------------ filters

  lemma AfterSnoc(ts: seq<Time>, t: Time, cutoff: int)
    ensures After(ts + [t], cutoff) == After(ts, cutoff) + if t > cutoff then [t] else []
  {
    assert (ts + [t])[..|ts|] == ts;
  }

  lemma {:induction false} AfterAfter(ts: seq<Time>, c: int, d: int)
    requires c <= d
    ensures After(After(ts, c), d) == After(ts, d)
  {
    if ts == [] {
    } else {
      var init, t := ts[..|ts| - 1], ts[|ts| - 1];
      AfterAfter(init, c, d);
      if t > c {
        AfterSnoc(After(init, c), t, d);
      } else {
        assert After(ts, c) == After(init, c);
      }
    }
  }

  lemma {:induction false} NoneAfter(ts: seq<Time>, c: int)
    requires Newest(ts) <= c
    ensures After(ts, c) == []
  {
    if ts == [] {
    } else {
      NoneAfter(ts[..|ts| - 1], c);
    }
  }

  // -------------------------------------------------------------- exactness

  /** Past the cutoff, what the limiter keeps is what was accepted. */
  ghost predicate KeepsWhatCounts(cfg: Config, s0: State, events: seq<Event>, cutoff: int) {
    forall key: Key ::
      After(HitsOf(StateAfter(cfg, s0, events).hits, key), cutoff) == After(Accepts(cfg, s0, events, key), cutoff)
  }

  lemma LaterCutoff(cfg: Config, s0: State, events: seq<Event>, c: int, d: int)
    requires c <= d && KeepsWhatCounts(cfg, s0, events, c)
    ensures KeepsWhatCounts(cfg, s0, events, d)
  {
    forall key: Key
      ensures After(HitsOf(StateAfter(cfg, s0, events).hits, key), d) == After(Accepts(cfg, s0, events, key), d)
    {
      AfterAfter(HitsOf(StateAfter(cfg, s0, events).hits, key), c, d);
      AfterAfter(Accepts(cfg, s0, events, key), c, d);
    }
  }

  /** Collection drops only what no longer counts. */
  lemma CollectKeeps(cfg: Config, s: State, now: Time, key: Key)
    ensures After(HitsOf(Collect(cfg, s, now).hits, key), now - cfg.window)
         == After(HitsOf(s.hits, key), now - cfg.window)
  {
    if key in s.hits && key !in Collect(cfg, s, now).hits {
      NoneAfter(s.hits[key], now - cfg.window);
      NothingAfter(now - cfg.window);
    }
  }

  /** One attempt, seen from one key's history. */
  lemma AllowStep(cfg: Config, s: State, k: Key, now: Time, key: Key)
    requires cfg.limit > 0
    ensures var (s', ok) := Allow(cfg, s, k, now);
            var c := now - cfg.window;
            var was := After(HitsOf(s.hits, key), c);
            && (k == key ==> ok == (|was| < cfg.limit))
            && After(HitsOf(s'.hits, key), c) == if k == key && ok then was + (if now > c then [now] else []) else was
  {
    var c := now - cfg.window;
    CollectKeeps(cfg, s, now, key);
    CollectKeeps(cfg, s, now, k);
    var kept := After(HitsOf(Collect(cfg, s, now).hits, k), c);
    AfterAfter(HitsOf(Collect(cfg, s, now).hits, k), c, c);
    AfterSnoc(kept, now, c);
  }

  /** One event more, seen from one key's history. */
  lemma HistoryStep(cfg: Config, s0: State, init: seq<Event>, e: Event, key: Key, c: int)
    requires cfg.limit > 0
    requires e.Attempt? ==> c == e.now - cfg.window
    requires After(HitsOf(StateAfter(cfg, s0, init).hits, key), c) == After(Accepts(cfg, s0, init, key), c)
    ensures After(HitsOf(StateAfter(cfg, s0, init + [e]).hits, key), c)
         == After(Accepts(cfg, s0, init + [e], key), c)
  {
    hide After, Allow, StateAfter, Accepts;
    RunSnoc(cfg, s0, init, e, key);
    var s := StateAfter(cfg, s0, init);
    match e {
      case Attempt(k, now) =>
        AllowStep(cfg, s, k, now, key);
        AfterSnoc(Accepts(cfg, s0, init, key), now, c);
      case Forget(k) =>
    }
  }

  lemma RunSnoc(cfg: Config, s0: State, init: seq<Event>, e: Event, key: Key)
    ensures StateAfter(cfg, s0, init + [e])
         == if e.Attempt? then Allow(cfg, StateAfter(cfg, s0, init), e.key, e.now).0
            else Reset(StateAfter(cfg, s0, init), e.key)
    ensures Accepts(cfg, s0, init + [e], key)
         == if e.key != key then Accepts(cfg, s0, init, key)
            else if e.Forget? then []
            else if Passes(cfg, s0, init, e) then Accepts(cfg, s0, init, key) + [e.now]
            else Accepts(cfg, s0, init, key)
  {
    hide Allow, Passes;
    assert (init + [e])[..|init|] == init;
  }

  lemma {:induction false} HistoryIsKept(cfg: Config, s0: State, events: seq<Event>)
    requires Ordered(events) && s0.hits == map[] && cfg.limit > 0
    ensures KeepsWhatCounts(cfg, s0, events, LastTime(events) - cfg.window)
  {
    hide After, HitsOf, Passes, Allow;
    if events == [] {
      assert forall key: Key :: HitsOf(s0.hits, key) == [] by { NoHits(); }
    } else {
      var init, e := events[..|events| - 1], events[|events| - 1];
      assert events == init + [e];
      HistoryIsKept(cfg, s0, init);
      var c := LastTime(events) - cfg.window;
      LaterCutoff(cfg, s0, init, LastTime(init) - cfg.window, c);
      forall key: Key
        ensures After(HitsOf(StateAfter(cfg, s0, events).hits, key), c) == After(Accepts(cfg, s0, events, key), c)
      {
        HistoryStep(cfg, s0, init, e, key, c);
      }
    }
  }

  lemma NoHits()
    ensures forall key: Key :: HitsOf(map[], key) == []
  {
  }

  /** Exactly as specified: an attempt passes if and only if fewer than `limit`
      attempts on its key were accepted, since the key's last reset, in the window
      that ends with it. The limiter forgets and collects as it goes; this counts
      over the whole history, so neither ever shows in an answer. */
  lemma LimiterIsExact(cfg: Config, s0: State, before: seq<Event>, e: Event)
    requires Ordered(before + [e]) && s0.hits == map[] && e.Attempt?
    ensures Passes(cfg, s0, before, e) <==>
            cfg.limit <= 0 || |After(Accepts(cfg, s0, before, e.key), e.now - cfg.window)| < cfg.limit
  {
    hide After, HitsOf, Allow, StateAfter, Accepts, Ordered, LastTime;
    var s := StateAfter(cfg, s0, before);
    if cfg.limit <= 0 {
      NoLimit(cfg, s, e.key, e.now);
    } else {
      OrderedSnoc(before, e);
      HistoryIsKept(cfg, s0, before);
      LaterCutoff(cfg, s0, before, LastTime(before) - cfg.window, e.now - cfg.window);
      AllowStep(cfg, s, e.key, e.now, e.key);
    }
  }

  lemma NoLimit(cfg: Config, s: State, key: Key, now: Time)
    requires cfg.limit <= 0
    ensures Allow(cfg, s, key, now).1
  {
  }

  lemma OrderedSnoc(before: seq<Event>, e: Event)
    ensures Ordered(before + [e]) <==> Ordered(before) && (e.Attempt? ==> LastTime(before) <= e.now)
    ensures LastTime(before + [e]) == if e.Attempt? then e.now else LastTime(before)
  {
    assert (before + [e])[..|before|] == before;
  }

  // --------------------------------------------------------------- the bound

  /** How many of ts lie in the half-open window (lo, hi]. */
  function Within(ts: seq<Time>, lo: int, hi: int): nat {
    if ts == [] then 0
    else Within(ts[..|ts| - 1], lo, hi) + if lo < ts[|ts| - 1] <= hi then 1 else 0
  }

  lemma {:induction false} WithinAtMostAfter(ts: seq<Time>, lo: int, hi: int, c: int)
    requires c <= lo
    ensures Within(ts, lo, hi) <= |After(ts, c)|
  {
    if ts == [] {
    } else {
      WithinAtMostAfter(ts[..|ts| - 1], lo, hi, c);
    }
  }

  /** No window of that length, wherever it lies, holds more than `limit` accepts
      of one key since its last reset. */
  lemma {:induction false} WindowBound(cfg: Config, s0: State, events: seq<Event>, key: Key, end: int)
    requires Ordered(events) && s0.hits == map[] && cfg.limit > 0
    ensures Within(Accepts(cfg, s0, events, key), end - cfg.window, end) <= cfg.limit
  {
    hide After, Passes, StateAfter;
    if events == [] {
    } else {
      var init, e := events[..|events| - 1], events[|events| - 1];
      assert events == init + [e];
      WindowBound(cfg, s0, init, key, end);
      var before := Accepts(cfg, s0, init, key);
      if e.Attempt? && e.key == key && Passes(cfg, s0, init, e) {
        assert Accepts(cfg, s0, events, key) == before + [e.now];
        assert (before + [e.now])[..|before|] == before;
        LimiterIsExact(cfg, s0, init, e);
        if end - cfg.window < e.now <= end {
          WithinAtMostAfter(before, end - cfg.window, end, e.now - cfg.window);
        }
      }
    }
  }

  // ------------------------------------------------------ refusals leave no trace

  /** Two runs after which every key has the same accepts. */
  ghost predicate Alike(cfg: Config, s0: State, a: seq<Event>, b: seq<Event>) {
    forall key: Key :: Accepts(cfg, s0, a, key) == Accepts(cfg, s0, b, key)
  }

  lemma AlikeAnswers(cfg: Config, s0: State, a: seq<Event>, b: seq<Event>, e: Event)
    requires Ordered(a + [e]) && Ordered(b + [e]) && s0.hits == map[] && Alike(cfg, s0, a, b)
    ensures Passes(cfg, s0, a, e) == Passes(cfg, s0, b, e)
    ensures Alike(cfg, s0, a + [e], b + [e])
  {
    hide After, StateAfter, Allow, Ordered, Accepts;
    if e.Attempt? {
      LimiterIsExact(cfg, s0, a, e);
      LimiterIsExact(cfg, s0, b, e);
    }
    forall key: Key ensures Accepts(cfg, s0, a + [e], key) == Accepts(cfg, s0, b + [e], key) {
      RunSnoc(cfg, s0, a, e, key);
      RunSnoc(cfg, s0, b, e, key);
      assert Accepts(cfg, s0, a, key) == Accepts(cfg, s0, b, key);
    }
  }

  lemma {:induction false} RefusalLeavesNoTrace(cfg: Config, s0: State, pre: seq<Event>, e: Event, post: seq<Event>)
    requires Ordered(pre + [e] + post) && s0.hits == map[]
    requires e.Attempt? && !Passes(cfg, s0, pre, e)
    ensures Ordered(pre + post) && LastTime(pre + post) <= LastTime(pre + [e] + post)
    ensures Alike(cfg, s0, pre + [e] + post, pre + post)
    decreases |post|
  {
    hide Passes, StateAfter, Ordered, LastTime;
    if post == [] {
      assert pre + [e] + post == pre + [e] && pre + post == pre;
      OrderedSnoc(pre, e);
      assert (pre + [e])[..|pre|] == pre;
    } else {
      hide Accepts, Alike;
      var init, last := post[..|post| - 1], post[|post| - 1];
      var with, without := pre + [e] + init, pre + init;
      assert pre + [e] + post == with + [last] && pre + post == without + [last];
      OrderedSnoc(with, last);
      RefusalLeavesNoTrace(cfg, s0, pre, e, init);
      OrderedSnoc(without, last);
      AlikeAnswers(cfg, s0, with, without, last);
    }
  }

  /** Erasing a refused attempt from a run changes no later answer: hammering a
      blocked key does not extend its own penalty, nor anyone else's. */
  lemma RefusalChangesNoAnswer(cfg: Config, s0: State, pre: seq<Event>, e: Event, post: seq<Event>, x: Event)
    requires Ordered(pre + [e] + post + [x]) && s0.hits == map[]
    requires e.Attempt? && !Passes(cfg, s0, pre, e)
    ensures Passes(cfg, s0, pre + [e] + post, x) == Passes(cfg, s0, pre + post, x)
  {
    hide Passes, Ordered, LastTime, StateAfter, Accepts, Alike;
    var with, without := pre + [e] + post, pre + post;
    OrderedSnoc(with, x);
    RefusalLeavesNoTrace(cfg, s0, pre, e, post);
    OrderedSnoc(without, x);
    AlikeAnswers(cfg, s0, with, without, x);
  }

  // --------------------------------------------------------------- collection

  /** Once a window has passed since the last collection, the next one leaves a
      key if and only if it has a hit inside the window. */
  lemma CollectionLeavesOnlyLiveKeys(cfg: Config, s: State, now: Time, key: Key)
    requires now - s.lastGC >= cfg.window && cfg.window <= now && key in s.hits
    ensures key in Collect(cfg, s, now).hits <==> exists t :: t in s.hits[key] && t > now - cfg.window
  {
    var n := Newest(s.hits[key]);
    if n > now - cfg.window {
      assert n in s.hits[key];
    }
  }
}
