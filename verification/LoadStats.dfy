/** The measurements of a load test: recorded by each worker on its own, then merged
    and sorted (tools/loadtest/stats.go). Durations are integers. */
module LoadStats {
  import opened Results
  import opened Sorting

  datatype ErrorKind = ErrorKind(text: string)

  datatype Sample = Sample(latency: int, status: int, ok: bool, bytes: int, error: Option<ErrorKind>)

  datatype Totals = Totals(ops: nat, oks: nat, bytes: int, statuses: map<int, nat>, errors: map<ErrorKind, nat>,
                           latencies: seq<int>)

  const EMPTY := Totals(0, 0, 0, map[], map[], [])

  function Bump<K>(m: map<K, nat>, k: K, more: nat): map<K, nat> {
    m[k := (if k in m then m[k] else 0) + more]
  }

  function Recorded(t: Totals, s: Sample): Totals {
    var counted := t.(ops := t.ops + 1, bytes := t.bytes + s.bytes, latencies := t.latencies + [s.latency]);
    if s.error.Some? then counted.(errors := Bump(t.errors, s.error.value, 1))
    else counted.(statuses := Bump(t.statuses, s.status, 1), oks := t.oks + if s.ok then 1 else 0)
  }

  function RecordedAll(samples: seq<Sample>): Totals {
    if samples == [] then EMPTY else Recorded(RecordedAll(samples[..|samples| - 1]), samples[|samples| - 1])
  }

  function Added<K>(a: map<K, nat>, b: map<K, nat>): map<K, nat> {
    map k | k in a.Keys + b.Keys :: (if k in a then a[k] else 0) + (if k in b then b[k] else 0)
  }

  function Merged(a: Totals, b: Totals): Totals {
    Totals(a.ops + b.ops, a.oks + b.oks, a.bytes + b.bytes, Added(a.statuses, b.statuses), Added(a.errors, b.errors),
           a.latencies + b.latencies)
  }

  predicate AtMost(a: int, b: int) { a <= b }

  function Sealed(t: Totals): Totals { t.(latencies := Sort(AtMost, t.latencies)) }

  class Stats {
    var totals: Totals

    constructor ()
      ensures totals == EMPTY
    {
      totals := EMPTY;
    }

    method Record(s: Sample)
      modifies this
      ensures totals == Recorded(old(totals), s)
    {
      totals := totals.(ops := totals.ops + 1);
      totals := totals.(bytes := totals.bytes + s.bytes);
      totals := totals.(latencies := totals.latencies + [s.latency]);
      if s.error.Some? {
        totals := totals.(errors := Bump(totals.errors, s.error.value, 1));
        return;
      }
      totals := totals.(statuses := Bump(totals.statuses, s.status, 1));
      if s.ok {
        totals := totals.(oks := totals.oks + 1);
      }
    }

    static method AddAll<K>(into: map<K, nat>, from: map<K, nat>) returns (sum: map<K, nat>)
      ensures sum == Added(into, from)
    {
      sum := into;
      var left := from.Keys;
      while left != {}
        invariant left <= from.Keys
        invariant sum.Keys == into.Keys + (from.Keys - left)
        invariant forall k :: k in sum ==>
                    sum[k] == (if k in into then into[k] else 0) + (if k in from && k !in left then from[k] else 0)
        decreases |left|
      {
        var k :| k in left;
        sum := Bump(sum, k, from[k]);
        left := left - {k};
      }
    }

    method Merge(o: Stats)
      modifies this
      ensures totals == Merged(old(totals), old(o.totals))
    {
      var other := o.totals;
      var statuses := AddAll(totals.statuses, other.statuses);
      var errors := AddAll(totals.errors, other.errors);
      totals := Totals(totals.ops + other.ops, totals.oks + other.oks, totals.bytes + other.bytes, statuses, errors,
                       totals.latencies + other.latencies);
    }

    method Seal()
      modifies this
      ensures totals == Sealed(old(totals)) && Sorted(AtMost, totals.latencies)
    {
      SortSorts(AtMost, totals.latencies);
      totals := totals.(latencies := Sort(AtMost, totals.latencies));
    }

    /** The sample at a rank, given as a share of the count. */
    method Percentile(p: real) returns (d: int)
      requires Sorted(AtMost, totals.latencies) && 0.0 <= p
      ensures totals.latencies == [] ==> d == 0
      ensures totals.latencies != [] ==>
                var i := Rank(Share(p, |totals.latencies|), |totals.latencies|);
                && d == totals.latencies[i]
                && (forall j :: 0 <= j <= i ==> totals.latencies[j] <= d)
                && (forall j :: i <= j < |totals.latencies| ==> d <= totals.latencies[j])
    {
      hide Share;
      var n := |totals.latencies|;
      if n == 0 {
        return 0;
      }
      var i := Share(p, n).Floor;
      if i >= n {
        i := n - 1;
      }
      return totals.latencies[i];
    }
  }

  function Share(p: real, n: nat): (x: real)
    requires 0.0 <= p
    ensures 0.0 <= x
  {
    p / 100.0 * n as real
  }

  /** The index of the sample that at least a share x of the n samples do not exceed:
      as many as x, or all of them, are at or before it, and less than x before it. */
  function Rank(x: real, n: nat): (i: nat)
    requires 0.0 <= x && 0 < n
    ensures i < n && i as real <= x
    ensures x < (i + 1) as real || i == n - 1
  {
    if x.Floor >= n then n - 1 else x.Floor
  }

  // ------------------------------------------------- split among workers, the same

  function StatusCount(samples: seq<Sample>, k: int): nat {
    if samples == [] then 0
    else
      var s := samples[|samples| - 1];
      StatusCount(samples[..|samples| - 1], k) + if s.error.None? && s.status == k then 1 else 0
  }

  function ErrorCount(samples: seq<Sample>, k: ErrorKind): nat {
    if samples == [] then 0
    else ErrorCount(samples[..|samples| - 1], k) + if samples[|samples| - 1].error == Some(k) then 1 else 0
  }

  function OkCount(samples: seq<Sample>): nat {
    if samples == [] then 0
    else
      var s := samples[|samples| - 1];
      OkCount(samples[..|samples| - 1]) + if s.error.None? && s.ok then 1 else 0
  }

  function ByteSum(samples: seq<Sample>): int {
    if samples == [] then 0 else ByteSum(samples[..|samples| - 1]) + samples[|samples| - 1].bytes
  }

  function Latencies(samples: seq<Sample>): (r: seq<int>)
    ensures |r| == |samples| && forall i :: 0 <= i < |r| ==> r[i] == samples[i].latency
  {
    seq(|samples|, i requires 0 <= i < |samples| => samples[i].latency)
  }

  /** What totals say of the samples behind them. */
  ghost predicate Describes(t: Totals, samples: seq<Sample>) {
    && t.ops == |samples| && t.oks == OkCount(samples) && t.bytes == ByteSum(samples)
    && (forall k :: k in t.statuses <==> StatusCount(samples, k) > 0)
    && (forall k :: k in t.statuses ==> t.statuses[k] == StatusCount(samples, k))
    && (forall k :: k in t.errors <==> ErrorCount(samples, k) > 0)
    && (forall k :: k in t.errors ==> t.errors[k] == ErrorCount(samples, k))
    && multiset(t.latencies) == multiset(Latencies(samples))
  }

  lemma RecordDescribes(t: Totals, samples: seq<Sample>, s: Sample)
    requires Describes(t, samples)
    ensures Describes(Recorded(t, s), samples + [s])
  {
    var more := samples + [s];
    assert more[..|samples|] == samples;
    assert Latencies(more) == Latencies(samples) + [s.latency];
  }

  lemma {:induction false} RecordedAllDescribes(samples: seq<Sample>)
    ensures Describes(RecordedAll(samples), samples)
  {
    hide Describes;
    if samples == [] {
      NothingDescribes();
    } else {
      var init := samples[..|samples| - 1];
      RecordedAllDescribes(init);
      RecordDescribes(RecordedAll(init), init, samples[|samples| - 1]);
      assert init + [samples[|samples| - 1]] == samples;
    }
  }

  lemma NothingDescribes()
    ensures Describes(EMPTY, [])
  {
  }

  lemma {:induction false} CountsAdd(a: seq<Sample>, b: seq<Sample>)
    ensures OkCount(a + b) == OkCount(a) + OkCount(b) && ByteSum(a + b) == ByteSum(a) + ByteSum(b)
    ensures forall k :: StatusCount(a + b, k) == StatusCount(a, k) + StatusCount(b, k)
    ensures forall k :: ErrorCount(a + b, k) == ErrorCount(a, k) + ErrorCount(b, k)
  {
    if b == [] {
      assert a + b == a;
    } else {
      var init := b[..|b| - 1];
      assert (a + b)[..|a + b| - 1] == a + init;
      CountsAdd(a, init);
    }
  }

  lemma MergeDescribes(t: Totals, a: seq<Sample>, u: Totals, b: seq<Sample>)
    requires Describes(t, a) && Describes(u, b)
    ensures Describes(Merged(t, u), a + b)
  {
    hide OkCount, ByteSum, StatusCount, ErrorCount;
    CountsAdd(a, b);
    assert Latencies(a + b) == Latencies(a) + Latencies(b);
  }

  lemma Without<T>(init: seq<T>, before: seq<T>, after: seq<T>, s: T)
    requires multiset(init + [s]) == multiset(before + [s] + after)
    ensures multiset(init) == multiset(before + after)
  {
    assert multiset(init + [s]) == multiset(init) + multiset{s};
    assert multiset(before + [s] + after) == multiset(before) + multiset{s} + multiset(after);
    assert multiset(init) == multiset(init + [s]) - multiset{s};
    assert multiset(before + after) == multiset(before + [s] + after) - multiset{s};
  }

  lemma CountsMiddle(before: seq<Sample>, s: Sample, after: seq<Sample>)
    ensures OkCount(before + [s] + after) == OkCount(before + after) + OkCount([s])
    ensures ByteSum(before + [s] + after) == ByteSum(before + after) + ByteSum([s])
    ensures forall k :: StatusCount(before + [s] + after, k) == StatusCount(before + after, k) + StatusCount([s], k)
    ensures forall k :: ErrorCount(before + [s] + after, k) == ErrorCount(before + after, k) + ErrorCount([s], k)
    ensures multiset(Latencies(before + [s] + after)) == multiset(Latencies(before + after)) + multiset{s.latency}
  {
    hide OkCount, ByteSum, StatusCount, ErrorCount;
    CountsAdd(before, [s]);
    CountsAdd(before + [s], after);
    CountsAdd(before, after);
    assert Latencies(before + [s] + after) == Latencies(before) + [s.latency] + Latencies(after);
    assert Latencies(before + after) == Latencies(before) + Latencies(after);
  }

  /** The counts depend on which samples there are, not on their order. */
  lemma {:induction false} CountsPermute(a: seq<Sample>, b: seq<Sample>)
    requires multiset(a) == multiset(b)
    ensures OkCount(a) == OkCount(b) && ByteSum(a) == ByteSum(b) && multiset(Latencies(a)) == multiset(Latencies(b))
    ensures forall k :: StatusCount(a, k) == StatusCount(b, k)
    ensures forall k :: ErrorCount(a, k) == ErrorCount(b, k)
    decreases |a|
  {
    hide OkCount, ByteSum, StatusCount, ErrorCount, Latencies;
    if a == [] {
      SameLength(a, b);
    } else {
      var init, s := a[..|a| - 1], a[|a| - 1];
      var k := Found(a, b, s);
      var before, after := b[..k], b[k + 1..];
      assert a == init + [s] && b == before + [s] + after;
      Without(init, before, after, s);
      CountsPermute(init, before + after);
      CountsMiddle(init, s, []);
      assert init + [s] + [] == a && init + [] == init;
      CountsMiddle(before, s, after);
    }
  }

  lemma SameMap<K>(m: map<K, nat>, n: map<K, nat>)
    requires m.Keys == n.Keys && forall k :: k in m ==> m[k] == n[k]
    ensures m == n
  {
  }

  /** Totals that describe the same samples are the same once sorted. */
  lemma SealedDetermined(t: Totals, a: seq<Sample>, u: Totals, b: seq<Sample>)
    requires Describes(t, a) && Describes(u, b) && multiset(a) == multiset(b)
    ensures Sealed(t) == Sealed(u)
  {
    hide OkCount, ByteSum, StatusCount, ErrorCount, Sort;
    CountsPermute(a, b);
    assert |a| == |multiset(a)| == |multiset(b)| == |b|;
    SortSorts(AtMost, t.latencies);
    SortSorts(AtMost, u.latencies);
    SortedSame(AtMost, Sort(AtMost, t.latencies), Sort(AtMost, u.latencies));
    forall k: int ensures k in t.statuses.Keys <==> k in u.statuses.Keys {
      assert StatusCount(a, k) == StatusCount(b, k);
    }
    forall k | k in t.statuses ensures t.statuses[k] == u.statuses[k] {
      assert StatusCount(a, k) == StatusCount(b, k);
    }
    assert t.statuses.Keys == u.statuses.Keys && t.errors.Keys == u.errors.Keys;
    SameMap(t.statuses, u.statuses);
    SameMap(t.errors, u.errors);
  }

  function MergedAll(workers: seq<seq<Sample>>): Totals {
    if workers == [] then EMPTY
    else Merged(MergedAll(workers[..|workers| - 1]), RecordedAll(workers[|workers| - 1]))
  }

  function Joined(workers: seq<seq<Sample>>): seq<Sample> {
    if workers == [] then [] else Joined(workers[..|workers| - 1]) + workers[|workers| - 1]
  }

  lemma {:induction false} MergedAllDescribes(workers: seq<seq<Sample>>)
    ensures Describes(MergedAll(workers), Joined(workers))
  {
    hide Describes, Merged, RecordedAll;
    if workers == [] {
      NothingDescribes();
    } else {
      var init, last := workers[..|workers| - 1], workers[|workers| - 1];
      MergedAllDescribes(init);
      RecordedAllDescribes(last);
      MergeDescribes(MergedAll(init), Joined(init), RecordedAll(last), last);
    }
  }

  /** One stream of samples, dealt out among any workers in any way, merges to exactly
      what one recorder measures: every total, every count, every sorted sample. */
  lemma SplitAndMergeIsOneRecorder(workers: seq<seq<Sample>>, stream: seq<Sample>)
    requires multiset(Joined(workers)) == multiset(stream)
    ensures Sealed(MergedAll(workers)) == Sealed(RecordedAll(stream))
  {
    hide Describes, Sealed;
    MergedAllDescribes(workers);
    RecordedAllDescribes(stream);
    SealedDetermined(MergedAll(workers), Joined(workers), RecordedAll(stream), stream);
  }
}
