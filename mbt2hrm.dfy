/**
 * The Mi Band Tools converter: densifying a heart-rate series to one sample
 * per second (`fill_gaps`) and writing it as a minimal HRM file
 * (`write_hrm`), plus the verbosity-to-log-level clamp shared with the
 * command-line scripts.
 *
 * Timestamps are naive datetimes in microseconds since 0001-01-01T00:00,
 * heart rates are reals (the CSV gives ints, the interpolation floats), and
 * the ordered dict built by `fill_gaps` is a sequence of (stamp, value)
 * pairs in insertion order.
 */
module Mbt2Hrm {
  import opened Wrappers
  import opened Py
  import opened Calendar
  import opened Hrm

  // ---------------------------------------------------------------------
  // Log level
  // ---------------------------------------------------------------------

  const LOG_LEVELS: seq<string> := ["WARNING", "INFO", "DEBUG"]

  /** `_get_log_lvl(verbosity)`: the verbosity clamped into the index range of LOG_LEVELS. */
  function LogLevel(verbosity: int): (lvl: string)
    ensures lvl in LOG_LEVELS
    ensures verbosity < 0 ==> lvl == LOG_LEVELS[0]
    ensures verbosity >= |LOG_LEVELS| ==> lvl == LOG_LEVELS[|LOG_LEVELS| - 1]
    ensures 0 <= verbosity < |LOG_LEVELS| ==> lvl == LOG_LEVELS[verbosity]
  {
    if verbosity < 0 then LOG_LEVELS[0]
    else if verbosity > |LOG_LEVELS| - 1 then LOG_LEVELS[|LOG_LEVELS| - 1]
    else LOG_LEVELS[verbosity]
  }

  /** Position in LOG_LEVELS: 0 is the quietest. */
  function Rank(lvl: string): int
  {
    if lvl == LOG_LEVELS[0] then 0 else if lvl == LOG_LEVELS[1] then 1 else 2
  }

  /** More `-v` flags never make the log quieter. */
  lemma LogLevelMonotone(v: int, w: int)
    requires v <= w
    ensures Rank(LogLevel(v)) <= Rank(LogLevel(w))
  {
  }

  // ---------------------------------------------------------------------
  // fill_gaps: the specification
  // ---------------------------------------------------------------------

  /** Strictly ascending. */
  predicate Ascending(s: seq<int>)
  {
    forall a, b :: 0 <= a < b < |s| ==> s[a] < s[b]
  }

  /** The entries' stamps strictly ascend. */
  predicate AscendingStamps(d: seq<(int, real)>)
  {
    forall a, b :: 0 <= a < b < |d| ==> d[a].0 < d[b].0
  }

  lemma SmallestExists(keys: set<int>)
    requires keys != {}
    ensures exists m :: m in keys && forall y :: y in keys ==> m <= y
    decreases |keys|
  {
    if forall y :: y !in keys {
      assert false;
    }
    var x :| x in keys;
    if keys != {x} {
      var rest := keys - {x};
      SmallestExists(rest);
      var m :| m in rest && forall y :: y in rest ==> m <= y;
      var s := if x < m then x else m;
      assert forall y :: y in keys ==> y == x || y in rest;
      assert s in keys && forall y :: y in keys ==> s <= y;
    } else {
      assert x in keys && forall y :: y in keys ==> x <= y;
    }
  }

  /** `sorted(samples.keys())`. */
  function SortedStamps(keys: set<int>): (r: seq<int>)
    ensures Ascending(r)
    ensures forall x :: x in r <==> x in keys
    decreases |keys|
  {
    if keys == {} then []
    else
      SmallestExists(keys);
      var m :| m in keys && forall y :: y in keys ==> m <= y;
      [m] + SortedStamps(keys - {m})
  }

  /** Every stamp of `stamps` has a sample. */
  predicate Covers(stamps: seq<int>, samples: map<int, real>)
  {
    forall q :: 0 <= q < |stamps| ==> stamps[q] in samples
  }

  /**
   * What the inner loop writes between stamp `s` (value `v`) and the next
   * stamp `n` (value `nv`): one entry per whole second `j` with
   * `1 <= j < int((n - s).total_seconds())`, at `s + j` seconds with value
   * `v + (nv - v) / gap * j`.
   */
  function Between(s: int, v: real, n: int, nv: real): seq<(int, real)>
  {
    var gap := WholeSeconds(n - s);
    if gap > 1 then
      seq(gap - 1, k requires 0 <= k < gap - 1 => (s + (k + 1) * MicrosPerSecond, Interpolated(v, nv, gap, k + 1)))
    else []
  }

  /** The value `j` seconds into a gap of `gap` seconds from `v` to `nv`: `v + (nv - v) / gap * j`. */
  function Interpolated(v: real, nv: real, gap: int, j: int): real
    requires gap > 0
  {
    v + (nv - v) / (gap as real) * (j as real)
  }

  /** What turn `i` of the outer loop writes: the stamp itself, then the gap after it. */
  function Block(stamps: seq<int>, samples: map<int, real>, i: nat): seq<(int, real)>
    requires Covers(stamps, samples) && i < |stamps|
  {
    var s := stamps[i];
    [(s, samples[s])] +
      (if i + 1 < |stamps| then Between(s, samples[s], stamps[i + 1], samples[stamps[i + 1]]) else [])
  }

  /** What the first `i` turns of the outer loop write. */
  function Blocks(stamps: seq<int>, samples: map<int, real>, i: nat): seq<(int, real)>
    requires Covers(stamps, samples) && i <= |stamps|
  {
    if i == 0 then [] else Blocks(stamps, samples, i - 1) + Block(stamps, samples, i - 1)
  }

  /** `fill_gaps(samples)`, in insertion order. */
  function Dense(samples: map<int, real>): seq<(int, real)>
  {
    var stamps := SortedStamps(samples.Keys);
    Blocks(stamps, samples, |stamps|)
  }

  // ---------------------------------------------------------------------
  // fill_gaps: the loops
  // ---------------------------------------------------------------------

  /** Where key `k` sits in the ordered dict `d`, if anywhere. */
  function KeyIndex(d: seq<(int, real)>, k: int): (r: Option<nat>)
    ensures r.Some? ==> r.value < |d| && d[r.value].0 == k
    ensures r.None? ==> forall q :: 0 <= q < |d| ==> d[q].0 != k
  {
    if d == [] then None
    else if d[|d| - 1].0 == k then Some(|d| - 1)
    else KeyIndex(d[..|d| - 1], k)
  }

  /** `d[k] = v` on an ordered dict: an existing key keeps its place, a new one goes last. */
  function Put(d: seq<(int, real)>, k: int, v: real): (r: seq<(int, real)>)
    ensures (forall q :: 0 <= q < |d| ==> d[q].0 < k) ==> r == d + [(k, v)]
    ensures |r| == |d| || |r| == |d| + 1
  {
    match KeyIndex(d, k)
    case Some(q) => d[q := (k, v)]
    case None => d + [(k, v)]
  }

  /** `fill_gaps(samples)`: the loop over the sorted stamps. */
  method FillGaps(samples: map<int, real>) returns (ret: seq<(int, real)>)
    ensures ret == Dense(samples)
  {
    var stamps := SortedStamps(samples.Keys);
    assert Covers(stamps, samples);
    ret := [];
    var i := 0;
    while i < |stamps|
      invariant 0 <= i <= |stamps|
      invariant ret == Blocks(stamps, samples, i)
      invariant i < |stamps| ==> Below(ret, stamps[i])
    {
      var stamp := stamps[i];
      var sample := samples[stamp];
      ghost var before := ret;
      PutNew(ret, stamp, sample);
      ret := Put(ret, stamp, sample);
      if i != |stamps| - 1 {
        var nstamp := stamps[i + 1];
        ret := FillGap(ret, stamp, sample, nstamp, samples[nstamp]);
      }
      BlocksNext(stamps, samples, i, before, ret);
      i := i + 1;
    }
    DenseBlocks(samples, stamps, ret);
  }

  lemma DenseBlocks(samples: map<int, real>, stamps: seq<int>, d: seq<(int, real)>)
    requires stamps == SortedStamps(samples.Keys)
    requires Covers(stamps, samples) && d == Blocks(stamps, samples, |stamps|)
    ensures d == Dense(samples)
  {
  }

  /** Every stamp in `d` is below `k`. */
  predicate Below(d: seq<(int, real)>, k: int)
  {
    forall q :: 0 <= q < |d| ==> d[q].0 < k
  }

  /** A stamp above all present goes last, and is then the largest. */
  lemma PutNew(d: seq<(int, real)>, k: int, v: real)
    requires Below(d, k)
    ensures Put(d, k, v) == d + [(k, v)] && Below(Put(d, k, v), k + 1)
  {
  }

  /** The stamp then its gap make up turn `i`, and stay below the next stamp. */
  lemma BlocksNext(stamps: seq<int>, samples: map<int, real>, i: nat, before: seq<(int, real)>, after: seq<(int, real)>)
    requires Covers(stamps, samples) && Ascending(stamps) && i < |stamps|
    requires before == Blocks(stamps, samples, i)
    requires i + 1 < |stamps| ==> Below(after, stamps[i + 1])
    requires i + 1 < |stamps| ==>
      after == before + [(stamps[i], samples[stamps[i]])] +
               Between(stamps[i], samples[stamps[i]], stamps[i + 1], samples[stamps[i + 1]])
    requires i + 1 == |stamps| ==> after == before + [(stamps[i], samples[stamps[i]])]
    ensures after == Blocks(stamps, samples, i + 1)
    ensures i + 1 < |stamps| ==> Below(after, stamps[i + 1])
  {
  }

  /**
   * One gap: `stamp_delta = int((n - s).total_seconds())`, and when it
   * exceeds one second an interpolated entry for every whole second in
   * between. Every stamp written stays below `n`.
   */
  method FillGap(d: seq<(int, real)>, s: int, v: real, n: int, nv: real) returns (ret: seq<(int, real)>)
    requires s < n
    requires Below(d, s + 1)
    ensures ret == d + Between(s, v, n, nv)
    ensures Below(ret, n)
  {
    ret := d;
    var gap := WholeSeconds(n - s);
    if gap > 1 {
      ghost var filled := Between(s, v, n, nv);
      var delta := nv - v;
      var step := delta / (gap as real);
      var j := 1;
      while j < gap
        invariant 1 <= j <= gap
        invariant ret == d + filled[..j - 1]
        invariant forall q :: 0 <= q < |ret| ==> ret[q].0 < s + j * MicrosPerSecond
      {
        var t := s + j * MicrosPerSecond;
        var x := v + step * (j as real);
        ret := Put(ret, t, x);
        assert x == Interpolated(v, nv, gap, j);
        assert filled[j - 1] == (t, x);
        assert filled[..j] == filled[..j - 1] + [(t, x)];
        j := j + 1;
      }
      assert filled[..j - 1] == filled;
    }
  }

  // ---------------------------------------------------------------------
  // fill_gaps: one gap, one turn
  // ---------------------------------------------------------------------

  /** `x` lies between `a` and `b`, whichever is larger. */
  predicate Within(x: real, a: real, b: real)
  {
    (a <= b ==> a <= x <= b) && (b <= a ==> b <= x <= a)
  }

  /** An interpolated value lies between the two neighbouring samples. */
  lemma InterpolatedWithin(v: real, nv: real, gap: int, j: int)
    requires 0 < j < gap
    ensures Within(Interpolated(v, nv, gap, j), v, nv)
  {
    var g, r := gap as real, j as real;
    var step := (nv - v) / g;
    assert step * g == nv - v;
    assert step * g - step * r == step * (g - r);
    if step >= 0.0 {
      assert step * (g - r) >= 0.0 && step * r >= 0.0;
    } else {
      assert step * (g - r) <= 0.0 && step * r <= 0.0;
    }
  }

  /**
   * The gap after `s`: one entry per whole second strictly between `s` and
   * `n`, each a whole number of seconds after `s`, with a value between
   * the two samples.
   */
  lemma BetweenFacts(s: int, v: real, n: int, nv: real)
    requires s < n
    ensures var b := Between(s, v, n, nv);
      var gap := WholeSeconds(n - s);
      |b| == (if gap > 1 then gap - 1 else 0) &&
      forall q :: 0 <= q < |b| ==>
        b[q].0 == s + (q + 1) * MicrosPerSecond && s < b[q].0 < n && Within(b[q].1, v, nv)
  {
    var b := Between(s, v, n, nv);
    var gap := WholeSeconds(n - s);
    forall q | 0 <= q < |b|
      ensures b[q].0 == s + (q + 1) * MicrosPerSecond && s < b[q].0 < n && Within(b[q].1, v, nv)
    {
      InterpolatedWithin(v, nv, gap, q + 1);
    }
  }

  /** Where an entry of the dense series comes from: stamp `k` itself, or the gap after it. */
  predicate Placed(stamps: seq<int>, samples: map<int, real>, k: nat, e: (int, real))
    requires Covers(stamps, samples) && k < |stamps|
  {
    e == (stamps[k], samples[stamps[k]]) ||
    (k + 1 < |stamps| && stamps[k] < e.0 < stamps[k + 1] &&
     Within(e.1, samples[stamps[k]], samples[stamps[k + 1]]))
  }

  /** Turn `i` writes its stamp first, then stamps ascending up to, not including, the next stamp. */
  lemma BlockFacts(stamps: seq<int>, samples: map<int, real>, i: nat)
    requires Covers(stamps, samples) && Ascending(stamps) && i < |stamps|
    ensures var b := Block(stamps, samples, i);
      b[0] == (stamps[i], samples[stamps[i]]) &&
      AscendingStamps(b) &&
      (forall q :: 0 <= q < |b| ==> stamps[i] <= b[q].0 && Placed(stamps, samples, i, b[q])) &&
      (i + 1 < |stamps| ==> Below(b, stamps[i + 1]))
  {
    if i + 1 < |stamps| {
      BetweenFacts(stamps[i], samples[stamps[i]], stamps[i + 1], samples[stamps[i + 1]]);
    }
  }

  lemma AscendingConcat(a: seq<(int, real)>, b: seq<(int, real)>, k: int)
    requires AscendingStamps(a) && AscendingStamps(b)
    requires Below(a, k) && forall q :: 0 <= q < |b| ==> k <= b[q].0
    ensures AscendingStamps(a + b)
  {
  }

  // ---------------------------------------------------------------------
  // fill_gaps: the properties
  // ---------------------------------------------------------------------

  /** The first `i` turns write ascending stamps, all below stamp `i`. */
  lemma {:induction false} BlocksAscending(stamps: seq<int>, samples: map<int, real>, i: nat)
    requires Covers(stamps, samples) && Ascending(stamps) && i <= |stamps|
    ensures AscendingStamps(Blocks(stamps, samples, i))
    ensures i < |stamps| ==> Below(Blocks(stamps, samples, i), stamps[i])
  {
    if i > 0 {
      BlocksAscending(stamps, samples, i - 1);
      BlockFacts(stamps, samples, i - 1);
      AscendingConcat(Blocks(stamps, samples, i - 1), Block(stamps, samples, i - 1), stamps[i - 1]);
    }
  }

  /** Every entry written in the first `i` turns comes from one of them. */
  lemma {:induction false} BlocksPlaced(stamps: seq<int>, samples: map<int, real>, i: nat)
    requires Covers(stamps, samples) && Ascending(stamps) && i <= |stamps|
    ensures forall e :: e in Blocks(stamps, samples, i) ==> exists k :: 0 <= k < i && Placed(stamps, samples, k, e)
  {
    if i > 0 {
      BlocksPlaced(stamps, samples, i - 1);
      BlockFacts(stamps, samples, i - 1);
      var a, b := Blocks(stamps, samples, i - 1), Block(stamps, samples, i - 1);
      forall e | e in a + b
        ensures exists k :: 0 <= k < i && Placed(stamps, samples, k, e)
      {
        if e in a {
          var k :| 0 <= k < i - 1 && Placed(stamps, samples, k, e);
        } else {
          var q :| 0 <= q < |b| && b[q] == e;
          assert Placed(stamps, samples, i - 1, b[q]);
        }
      }
    }
  }

  /** Each of the first `i` turns writes its own stamp with its own sample. */
  lemma {:induction false} BlocksKeep(stamps: seq<int>, samples: map<int, real>, i: nat)
    requires Covers(stamps, samples) && i <= |stamps|
    ensures forall k :: 0 <= k < i ==> (stamps[k], samples[stamps[k]]) in Blocks(stamps, samples, i)
  {
    if i > 0 {
      BlocksKeep(stamps, samples, i - 1);
      var a, b := Blocks(stamps, samples, i - 1), Block(stamps, samples, i - 1);
      assert Blocks(stamps, samples, i) == a + b;
      assert (a + b)[|a|] == b[0] == (stamps[i - 1], samples[stamps[i - 1]]);
      forall k | 0 <= k < i
        ensures (stamps[k], samples[stamps[k]]) in a + b
      {
        if k < i - 1 {
          assert (stamps[k], samples[stamps[k]]) in a;
        }
      }
    }
  }

  /** `fill_gaps` writes stamps in strictly ascending order, no stamp twice; `{}` gives an empty result. */
  lemma DenseAscending(samples: map<int, real>)
    ensures AscendingStamps(Dense(samples))
    ensures samples == map[] ==> Dense(samples) == []
  {
    var stamps := SortedStamps(samples.Keys);
    BlocksAscending(stamps, samples, |stamps|);
    if samples == map[] {
      assert samples.Keys == {};
      assert stamps == [];
    }
  }

  /** Every input stamp is written with its own sample. */
  lemma DenseKeepsSamples(samples: map<int, real>)
    ensures forall k :: k in samples ==> (k, samples[k]) in Dense(samples)
  {
    var stamps := SortedStamps(samples.Keys);
    BlocksKeep(stamps, samples, |stamps|);
    forall k | k in samples
      ensures (k, samples[k]) in Dense(samples)
    {
      var m :| 0 <= m < |stamps| && stamps[m] == k;
    }
  }

  /**
   * What an entry of `fill_gaps`'s result is: an input stamp with its own
   * sample, or a stamp that is not an input, strictly between two
   * neighbouring input stamps (no input stamp lies between them), with a
   * value between theirs.
   */
  predicate FromSamples(samples: map<int, real>, e: (int, real))
  {
    (e.0 in samples && e.1 == samples[e.0]) ||
    (e.0 !in samples &&
     exists a, b :: a in samples && b in samples && a < e.0 < b &&
       (forall c :: c in samples ==> !(a < c < b)) &&
       Within(e.1, samples[a], samples[b]))
  }

  /** An entry placed by turn `k` is one of the two kinds. */
  lemma PlacedFromSamples(samples: map<int, real>, stamps: seq<int>, k: nat, e: (int, real))
    requires Ascending(stamps) && (forall x :: x in stamps <==> x in samples)
    requires Covers(stamps, samples) && k < |stamps| && Placed(stamps, samples, k, e)
    ensures FromSamples(samples, e)
  {
    if e != (stamps[k], samples[stamps[k]]) {
      var a, b := stamps[k], stamps[k + 1];
      forall c | c in samples
        ensures !(a < c < b)
      {
        assert c in stamps;
        var m :| 0 <= m < |stamps| && stamps[m] == c;
        NothingBetween(stamps, k, m);
      }
      assert a in stamps && b in stamps;
    }
  }

  /** Every entry of `fill_gaps`'s result is an input sample or one interpolated between neighbouring inputs. */
  lemma DenseInterpolates(samples: map<int, real>)
    ensures forall e :: e in Dense(samples) ==> FromSamples(samples, e)
  {
    var stamps := SortedStamps(samples.Keys);
    assert Covers(stamps, samples);
    BlocksPlaced(stamps, samples, |stamps|);
    forall e | e in Dense(samples)
      ensures FromSamples(samples, e)
    {
      var k :| 0 <= k < |stamps| && Placed(stamps, samples, k, e);
      PlacedFromSamples(samples, stamps, k, e);
    }
  }

  /** Whole seconds between stamps that are whole seconds. */
  lemma WholeGap(s: int, n: int)
    requires s < n && s % MicrosPerSecond == 0 && n % MicrosPerSecond == 0
    ensures WholeSeconds(n - s) >= 1 && WholeSeconds(n - s) * MicrosPerSecond == n - s
  {
    var us := n - s;
    assert us % MicrosPerSecond == 0;
    assert us == (us / MicrosPerSecond) * MicrosPerSecond;
  }

  /** With whole-second stamps, the first `i` turns write every second from the first stamp up to stamp `i`. */
  lemma {:induction false} BlocksEverySecond(stamps: seq<int>, samples: map<int, real>, i: nat)
    requires Covers(stamps, samples) && Ascending(stamps) && 0 < |stamps| && i < |stamps|
    requires forall q :: 0 <= q < |stamps| ==> stamps[q] % MicrosPerSecond == 0
    ensures var d := Blocks(stamps, samples, i);
      |d| * MicrosPerSecond == stamps[i] - stamps[0] &&
      forall q :: 0 <= q < |d| ==> d[q].0 == stamps[0] + q * MicrosPerSecond
  {
    if i > 0 {
      BlocksEverySecond(stamps, samples, i - 1);
      var s, n := stamps[i - 1], stamps[i];
      WholeGap(s, n);
      BetweenFacts(s, samples[s], n, samples[n]);
      var a: seq<(int, real)> := Blocks(stamps, samples, i - 1);
      var b: seq<(int, real)> := Block(stamps, samples, i - 1);
      assert |b| * MicrosPerSecond == n - s;
      forall q | 0 <= q < |a + b|
        ensures (a + b)[q].0 == stamps[0] + q * MicrosPerSecond
      {
        if q >= |a| {
          assert (a + b)[q] == b[q - |a|];
        }
      }
    }
  }

  /** With whole-second stamps, all the turns write every second from the first stamp to the last. */
  lemma AllBlocksEverySecond(stamps: seq<int>, samples: map<int, real>)
    requires Covers(stamps, samples) && Ascending(stamps) && 0 < |stamps|
    requires forall q :: 0 <= q < |stamps| ==> stamps[q] % MicrosPerSecond == 0
    ensures var d := Blocks(stamps, samples, |stamps|);
      |d| > 0 && d[0].0 == stamps[0] && d[|d| - 1].0 == stamps[|stamps| - 1] &&
      (forall q :: 0 <= q < |d| ==> d[q].0 == stamps[0] + q * MicrosPerSecond) &&
      (|d| - 1) * MicrosPerSecond == stamps[|stamps| - 1] - stamps[0]
  {
    var last := |stamps| - 1;
    BlocksEverySecond(stamps, samples, last);
    var a: seq<(int, real)> := Blocks(stamps, samples, last);
    var d: seq<(int, real)> := a + Block(stamps, samples, last);
    assert d == Blocks(stamps, samples, |stamps|);
    assert |d| == |a| + 1;
    assert d[|a|] == (stamps[last], samples[stamps[last]]);
    forall q | 0 <= q < |d|
      ensures d[q].0 == stamps[0] + q * MicrosPerSecond
    {
      if q < |a| {
        assert d[q] == a[q];
      }
    }
  }

  /** The first and last of the ascending stamps bound every stamp. */
  lemma StampsBound(stamps: seq<int>, samples: map<int, real>)
    requires Ascending(stamps) && 0 < |stamps| && (forall x :: x in stamps <==> x in samples)
    ensures forall k :: k in samples ==> stamps[0] <= k <= stamps[|stamps| - 1]
  {
    forall k | k in samples
      ensures stamps[0] <= k <= stamps[|stamps| - 1]
    {
      assert k in stamps;
      var m :| 0 <= m < |stamps| && stamps[m] == k;
    }
  }

  /**
   * For stamps that are whole seconds, `fill_gaps` writes every second from
   * the earliest stamp to the latest exactly once, in order, so the result
   * has `(last - first)` seconds plus one entries.
   */
  lemma DenseEverySecond(samples: map<int, real>)
    requires samples != map[]
    requires forall k :: k in samples ==> k % MicrosPerSecond == 0
    ensures var d := Dense(samples);
      |d| > 0 && d[0].0 in samples && d[|d| - 1].0 in samples &&
      (forall k :: k in samples ==> d[0].0 <= k <= d[|d| - 1].0) &&
      (forall q :: 0 <= q < |d| ==> d[q].0 == d[0].0 + q * MicrosPerSecond) &&
      (|d| - 1) * MicrosPerSecond == d[|d| - 1].0 - d[0].0
  {
    var stamps := SortedStamps(samples.Keys);
    assert Covers(stamps, samples);
    var x :| x in samples;
    assert x in stamps;
    assert forall q :: 0 <= q < |stamps| ==> stamps[q] % MicrosPerSecond == 0;
    AllBlocksEverySecond(stamps, samples);
    StampsBound(stamps, samples);
    assert stamps[0] in stamps && stamps[|stamps| - 1] in stamps;
  }

  lemma {:induction false} BlocksNoGap(stamps: seq<int>, samples: map<int, real>, i: nat)
    requires Covers(stamps, samples) && Ascending(stamps) && i <= |stamps|
    requires forall q :: 0 <= q < |stamps| - 1 ==> WholeSeconds(stamps[q + 1] - stamps[q]) <= 1
    ensures Blocks(stamps, samples, i) == seq(i, q requires 0 <= q < i => (stamps[q], samples[stamps[q]]))
  {
    if i > 0 {
      BlocksNoGap(stamps, samples, i - 1);
    }
  }

  /** The hypothesis of DenseNoGap: stamps two or more whole seconds apart have another stamp between them. */
  predicate NoLongGap(samples: map<int, real>)
  {
    forall a, b :: a in samples && b in samples && a < b && WholeSeconds(b - a) > 1 ==>
      exists c :: c in samples && a < c < b
  }

  lemma NeighboursClose(samples: map<int, real>, stamps: seq<int>, q: nat)
    requires NoLongGap(samples) && Ascending(stamps) && q + 1 < |stamps|
    requires forall x :: x in stamps <==> x in samples
    ensures WholeSeconds(stamps[q + 1] - stamps[q]) <= 1
  {
    var a, b := stamps[q], stamps[q + 1];
    forall c | c in samples
      ensures !(a < c < b)
    {
      assert c in stamps;
      var m :| 0 <= m < |stamps| && stamps[m] == c;
      NothingBetween(stamps, q, m);
    }
    assert a in stamps && b in stamps;
  }

  /** No element of an ascending sequence lies strictly between two neighbours. */
  lemma NothingBetween(s: seq<int>, q: nat, m: nat)
    requires Ascending(s) && q + 1 < |s| && m < |s|
    ensures !(s[q] < s[m] < s[q + 1])
  {
    if m <= q {
      assert s[m] <= s[q];
    } else {
      assert s[q + 1] <= s[m];
    }
  }

  /** Where stamps are never two or more whole seconds apart, `fill_gaps` inserts nothing. */
  lemma DenseNoGap(samples: map<int, real>)
    requires NoLongGap(samples)
    ensures var stamps := SortedStamps(samples.Keys);
      Dense(samples) == seq(|stamps|, q requires 0 <= q < |stamps| => (stamps[q], samples[stamps[q]]))
  {
    var stamps := SortedStamps(samples.Keys);
    forall q | 0 <= q < |stamps| - 1
      ensures WholeSeconds(stamps[q + 1] - stamps[q]) <= 1
    {
      NeighboursClose(samples, stamps, q);
    }
    BlocksNoGap(stamps, samples, |stamps|);
  }

  // ---------------------------------------------------------------------
  // write_hrm
  // ---------------------------------------------------------------------

  /** A section header line, `[name]` and its newline. */
  function SectionHeader(name: string): string
  {
    "[" + name + "]" + "\n"
  }

  const INTERVAL_LINE: string := "Interval=1"

  /** HEADER filled in for a series whose first stamp is `stamp`, line by line. */
  function HeaderLines(stamp: int): seq<string>
    requires ValidStamp(stamp)
  {
    DateTimeOf(stamp);
    Header(DateOf(stamp), TimeOf(stamp))
  }

  /** HEADER filled in with date `d` and time of day `t`. */
  function Header(d: Date, t: TimeOfDay): seq<string>
    requires ValidDate(d) && ValidTime(t)
  {
    [SectionHeader(PARAMS),
     "Date=" + FormatDate(d) + "\n",
     "StartTime=" + FormatStartTime(t) + "\n",
     INTERVAL_LINE + "\n",
     "\n",
     SectionHeader(HRDATA)]
  }

  /** `'{}\n'.format(int(sample))`. */
  function SampleLine(v: real): string
  {
    IntToString(Trunc(v)) + "\n"
  }

  /** One line per sample, in the series' order. */
  function SampleLines(samples: seq<(int, real)>): seq<string>
  {
    seq(|samples|, q requires 0 <= q < |samples| => SampleLine(samples[q].1))
  }

  /** `int(sample)` for every sample, in the series' order. */
  function Truncated(samples: seq<(int, real)>): seq<int>
  {
    seq(|samples|, q requires 0 <= q < |samples| => Trunc(samples[q].1))
  }

  /**
   * `write_hrm(samples, path)`, with the file as the lines it ends up
   * holding: the header for the first stamp, then the loop writing one
   * line per sample. An empty series has no first key: IndexError.
   */
  method WriteHrm(samples: seq<(int, real)>) returns (r: Result<seq<string>, PyError>)
    requires samples != [] ==> ValidStamp(samples[0].0)
    ensures r.Failure? <==> samples == []
    ensures r.Failure? ==> r.error == IndexError
    ensures r.Success? ==> r.value == HeaderLines(samples[0].0) + SampleLines(samples)
  {
    if |samples| == 0 {
      return Failure(IndexError);
    }
    var stamp := samples[0].0;
    var lines := HeaderLines(stamp);
    var q := 0;
    ghost var header := lines;
    while q < |samples|
      invariant 0 <= q <= |samples|
      invariant lines == header + SampleLines(samples[..q])
    {
      SampleLinesNext(samples, q);
      lines := lines + [SampleLine(samples[q].1)];
      q := q + 1;
    }
    assert samples[..q] == samples;
    r := Success(lines);
  }

  lemma SampleLinesNext(samples: seq<(int, real)>, q: nat)
    requires q < |samples|
    ensures SampleLines(samples[..q + 1]) == SampleLines(samples[..q]) + [SampleLine(samples[q].1)]
  {
  }

  // ---------------------------------------------------------------------
  // Reading a written file back
  // ---------------------------------------------------------------------

  /** A written line without a leading `[` reads as content, without its newline. */
  lemma ContentLine(line: string)
    requires line != "" && line[0] != '[' && '\n' !in line
    ensures Clean(line + "\n") == line && IsContent(line + "\n")
  {
    DropNewline(line);
  }

  /** `key=value` splits into the key and the value. */
  lemma SplitParam(key: string, value: string)
    requires '=' !in key && '=' !in value
    ensures Split(key + "=" + value, '=') == [key, value]
  {
    assert key + "=" + value == key + ['='] + value;
    SplitAround(key, value, '=');
    SplitAbsent(value, '=');
  }

  lemma NoEqualsInDigits(s: string)
    requires AllDigits(s)
    ensures '=' !in s && '\n' !in s
  {
    assert forall i :: 0 <= i < |s| ==> s[i] != '=' && s[i] != '\n';
  }

  lemma DateLine(acc: Params, d: Date)
    requires ValidDate(d)
    ensures ParamLine(acc, "Date=" + FormatDate(d)) == Success(acc.(date := Some(d)))
  {
    var ds := FormatDate(d);
    NoEqualsInDigits(ds);
    SplitParam("Date", ds);
    ParseFormatDate(d);
    assert "Date=" + ds == "Date" + "=" + ds;
    var parts := Split("Date=" + ds, '=');
    assert parts == ["Date", ds];
    assert ParseDate(parts[1]) == Some(d);
  }

  lemma StartTimeLine(acc: Params, t: TimeOfDay)
    requires ValidTime(t)
    ensures ParamLine(acc, "StartTime=" + FormatStartTime(t)) == Success(acc.(startTime := Some(t.(micro := 0))))
  {
    var ts := FormatStartTime(t);
    NoEqualsInDigits(Pad2(t.hour));
    NoEqualsInDigits(Pad2(t.minute));
    NoEqualsInDigits(Pad2(t.second));
    assert '=' !in ts;
    SplitParam("StartTime", ts);
    ParseFormatStartTime(t);
    assert "StartTime=" + ts == "StartTime" + "=" + ts;
    var parts := Split("StartTime=" + ts, '=');
    assert parts == ["StartTime", ts];
    assert parts[0] != "Date";
    assert ParseTime(parts[1]) == Some(t.(micro := 0));
  }

  lemma IntervalLine(acc: Params)
    ensures ParamLine(acc, INTERVAL_LINE) == Success(acc.(interval := Some(1)))
  {
    SplitParam("Interval", "1");
    assert INTERVAL_LINE == "Interval" + "=" + "1";
    var parts := Split(INTERVAL_LINE, '=');
    assert parts == ["Interval", "1"];
    assert parts[0] != "Date" && parts[0] != "StartTime";
    assert AllDigits("1");
    assert DigitsValue("1") == 1 by {
      assert "1"[..0] == [];
    }
    assert ParseInt(parts[1]) == Some(1);
  }

  /** The three `Params` lines read back as the date, the start time without microseconds, and interval 1. */
  lemma ParamsReadBack(d: Date, t: TimeOfDay)
    requires ValidDate(d) && ValidTime(t)
    ensures ParamsOf(ParamsText(d, t)) ==
      Success(Params(Some(d), Some(t.(micro := 0)), Some(1)))
  {
    var lines := ParamsText(d, t);
    var acc1 := NoParams.(date := Some(d));
    var acc2 := acc1.(startTime := Some(t.(micro := 0)));
    DateLine(NoParams, d);
    StartTimeLine(acc1, t);
    IntervalLine(acc2);
    ParamsOfSnoc([], lines[0]);
    ParamsOfSnoc([lines[0]], lines[1]);
    ParamsOfSnoc([lines[0], lines[1]], lines[2]);
    assert [] + [lines[0]] == [lines[0]];
    assert [lines[0]] + [lines[1]] == [lines[0], lines[1]];
    assert [lines[0], lines[1]] + [lines[2]] == lines;
  }

  /** Every sample line reads back as its truncated sample. */
  lemma SamplesReadBack(samples: seq<(int, real)>)
    ensures forall q :: 0 <= q < |samples| ==> IsContent(SampleLines(samples)[q]) && Clean(SampleLines(samples)[q]) == SampleText(samples)[q]
    ensures SamplesOf(SampleText(samples)) == Success(Truncated(samples))
  {
    var text := SampleText(samples);
    forall q | 0 <= q < |samples|
      ensures IsContent(SampleLines(samples)[q]) && Clean(SampleLines(samples)[q]) == text[q]
      ensures SampleOf(text[q]) == Success(Truncated(samples)[q])
    {
      var n := Trunc(samples[q].1);
      var digits := IntToString(n);
      assert '\n' !in digits && '\t' !in digits && digits[0] != '[';
      ContentLine(digits);
      SplitAbsent(digits, '\t');
      ParseIntToString(n);
    }
    assert SamplesOf(text).value == Truncated(samples);
  }

  /** The sample lines as the parser stores them: the numbers, without newlines. */
  function SampleText(samples: seq<(int, real)>): seq<string>
  {
    seq(|samples|, q requires 0 <= q < |samples| => IntToString(Trunc(samples[q].1)))
  }

  /** The contents of the `Params` section as written, newlines removed. */
  function ParamsText(d: Date, t: TimeOfDay): seq<string>
    requires ValidDate(d) && ValidTime(t)
  {
    ["Date=" + FormatDate(d), "StartTime=" + FormatStartTime(t), INTERVAL_LINE]
  }

  /** A section header line `[name]` as written, and the name the parser takes from it. */
  lemma BracketLine(name: string)
    requires '[' !in name && ']' !in name && '\n' !in name
    ensures Clean("[" + name + "]" + "\n") == "[" + name + "]"
    ensures IsHeader("[" + name + "]") && SectionName("[" + name + "]") == name
  {
    var line := "[" + name + "]";
    assert '\n' !in line;
    DropNewline(line);
    RemoveCharConcat("[", name + "]", '[');
    RemoveCharConcat(name, "]", '[');
    RemoveCharAbsent(name, '[');
    assert RemoveChar("[", '[') == "";
    assert RemoveChar("]", '[') == "]";
    assert line == "[" + (name + "]");
    assert RemoveChar(line, '[') == name + "]";
    RemoveCharConcat(name, "]", ']');
    RemoveCharAbsent(name, ']');
    assert RemoveChar("]", ']') == "";
  }

  /** The three `Params` lines as written read as content, each without its newline. */
  lemma ParamsTextContent(d: Date, t: TimeOfDay)
    requires ValidDate(d) && ValidTime(t)
    ensures var text := ParamsText(d, t);
      forall i :: 0 <= i < |text| ==> IsContent(text[i] + "\n") && Clean(text[i] + "\n") == text[i]
  {
    var text := ParamsText(d, t);
    NoEqualsInDigits(FormatDate(d));
    NoEqualsInDigits(Pad2(t.hour));
    NoEqualsInDigits(Pad2(t.minute));
    NoEqualsInDigits(Pad2(t.second));
    ContentLine(text[0]);
    ContentLine(text[1]);
    assert INTERVAL_LINE[0] == 'I' && '\n' !in INTERVAL_LINE;
    ContentLine(text[2]);
  }

  /** Reading the first four lines opens `Params` and stores its three lines. */
  lemma ScanParamsBlock(d: Date, t: TimeOfDay)
    requires ValidDate(d) && ValidTime(t)
    ensures var text := ParamsText(d, t);
      Scan(Start(map[]), [SectionHeader(PARAMS), text[0] + "\n", text[1] + "\n", text[2] + "\n"]) ==
        Success(ScanState(PARAMS, map[PARAMS := text]))
  {
    var text := ParamsText(d, t);
    ParamsTextContent(d, t);
    var block := [text[0] + "\n", text[1] + "\n", text[2] + "\n"];
    BracketLine(PARAMS);
    HeaderStartsFresh(Start(map[]), SectionHeader(PARAMS), block);
    assert seq(|block|, i requires 0 <= i < |block| => Clean(block[i])) == text;
    assert [SectionHeader(PARAMS)] + block == [SectionHeader(PARAMS), text[0] + "\n", text[1] + "\n", text[2] + "\n"];
  }

  /** Reading the sample lines after `[HRData]` stores them in `HRData`. */
  lemma ScanHRDataBlock(st: ScanState, samples: seq<(int, real)>)
    ensures Scan(st, [SectionHeader(HRDATA)] + SampleLines(samples)) ==
      Success(ScanState(HRDATA, st.sections[HRDATA := SampleText(samples)]))
  {
    BracketLine(HRDATA);
    SamplesReadBack(samples);
    var lines := SampleLines(samples);
    HeaderStartsFresh(st, SectionHeader(HRDATA), lines);
    assert seq(|lines|, i requires 0 <= i < |lines| => Clean(lines[i])) == SampleText(samples);
  }

  /** Scanning a written file collects the `Params` lines and the sample lines, `HRData` last. */
  lemma WrittenHrmScans(d: Date, t: TimeOfDay, samples: seq<(int, real)>)
    requires ValidDate(d) && ValidTime(t)
    ensures Scan(Start(map[]), Header(d, t) + SampleLines(samples)) ==
      Success(ScanState(HRDATA, map[PARAMS := ParamsText(d, t), HRDATA := SampleText(samples)]))
  {
    var text := ParamsText(d, t);
    var part1 := [SectionHeader(PARAMS), text[0] + "\n", text[1] + "\n", text[2] + "\n"];
    var part3 := [SectionHeader(HRDATA)] + SampleLines(samples);
    var lines := Header(d, t) + SampleLines(samples);
    assert lines == part1 + (["\n"] + part3);

    ScanParamsBlock(d, t);
    var st1 := ScanState(PARAMS, map[PARAMS := text]);
    var st2 := st1.(current := "");
    assert Scan(st1, ["\n"]) == Success(st2) by {
      assert ["\n"][..0] == [];
    }
    ScanHRDataBlock(st2, samples);
    ScanConcat(Start(map[]), part1, ["\n"] + part3);
    ScanConcat(st1, ["\n"], part3);
  }

  /**
   * Round trip: the HRM parser reads what `write_hrm` writes as exactly two
   * sections, `Params` with the first stamp's date, its time of day without
   * microseconds and interval 1, and `HRData` with the truncated samples
   * in order.
   */
  lemma WrittenHrmParses(samples: seq<(int, real)>)
    requires samples != [] && ValidStamp(samples[0].0)
    ensures var stamp := samples[0].0;
      ParseHrm(HeaderLines(stamp) + SampleLines(samples)) == Success(map[
        PARAMS := ParamsSection(Params(Some(DateOf(stamp)), Some(TimeOf(stamp).(micro := 0)), Some(1))),
        HRDATA := HRDataSection(Truncated(samples))])
  {
    var stamp := samples[0].0;
    DateTimeOf(stamp);
    var d, t := DateOf(stamp), TimeOf(stamp);
    WrittenHrmScans(d, t, samples);
    ParamsReadBack(d, t);
    SamplesReadBack(samples);
    TransformBoth(ParamsText(d, t), SampleText(samples), ParamsSection(Params(Some(d), Some(t.(micro := 0)), Some(1))),
      HRDataSection(Truncated(samples)));
  }

  /**
   * The converter end to end (`fill_gaps` then `write_hrm`), for
   * whole-second stamps: the written file parses, with the earliest
   * stamp's date and time in `Params` and the truncated dense series in
   * `HRData`, where the input sample at stamp `k` sits at index
   * `int((k - first).total_seconds())`, the offset the GPX merge indexes
   * the samples with.
   */
  lemma ConvertedReadsBack(samples: map<int, real>)
    requires samples != map[]
    requires forall k :: k in samples ==> k % MicrosPerSecond == 0 && ValidStamp(k)
    ensures var d := Dense(samples);
      d != [] && ValidStamp(d[0].0) &&
      ParseHrm(HeaderLines(d[0].0) + SampleLines(d)) == Success(map[
        PARAMS := ParamsSection(Params(Some(DateOf(d[0].0)), Some(TimeOf(d[0].0).(micro := 0)), Some(1))),
        HRDATA := HRDataSection(Truncated(d))]) &&
      IndexedBySeconds(samples, d[0].0, Truncated(d))
  {
    var d := Dense(samples);
    DenseIndex(samples, d);
    TruncatedIndex(d, samples);
    WrittenHrmParses(d);
  }

  /** With whole-second stamps, the input sample at stamp `k` is entry `int((k - first).total_seconds())` of the dense series. */
  lemma DenseIndex(samples: map<int, real>, d: seq<(int, real)>)
    requires samples != map[]
    requires forall k :: k in samples ==> k % MicrosPerSecond == 0
    requires d == Dense(samples)
    ensures d != [] && d[0].0 in samples
    ensures forall k :: k in samples ==> 0 <= WholeSeconds(k - d[0].0) < |d| && d[WholeSeconds(k - d[0].0)] == (k, samples[k])
  {
    DenseEverySecond(samples);
    DenseKeepsSamples(samples);
    SecondIndices(d, samples);
  }

  /** Each sample's truncated value sits in `t` at its offset from `first` in whole seconds. */
  predicate IndexedBySeconds(samples: map<int, real>, first: int, t: seq<int>)
  {
    forall k :: k in samples ==> 0 <= WholeSeconds(k - first) < |t| && t[WholeSeconds(k - first)] == Trunc(samples[k])
  }

  /** Truncating the series keeps each entry's index. */
  lemma TruncatedIndex(d: seq<(int, real)>, samples: map<int, real>)
    requires d != []
    requires forall k :: k in samples ==> 0 <= WholeSeconds(k - d[0].0) < |d| && d[WholeSeconds(k - d[0].0)] == (k, samples[k])
    ensures IndexedBySeconds(samples, d[0].0, Truncated(d))
  {
  }

  /** In a series one entry per second, each sample's entry is its offset from the first entry in whole seconds. */
  lemma SecondIndices(d: seq<(int, real)>, samples: map<int, real>)
    requires d != [] && forall q :: 0 <= q < |d| ==> d[q].0 == d[0].0 + q * MicrosPerSecond
    requires forall k :: k in samples ==> (k, samples[k]) in d
    ensures forall k :: k in samples ==> 0 <= WholeSeconds(k - d[0].0) < |d| && d[WholeSeconds(k - d[0].0)] == (k, samples[k])
  {
    forall k | k in samples
      ensures 0 <= WholeSeconds(k - d[0].0) < |d| && d[WholeSeconds(k - d[0].0)] == (k, samples[k])
    {
      SecondIndex(d, k, samples[k]);
    }
  }

  /** In a series one entry per second, an entry's index is its offset from the first in seconds. */
  lemma SecondIndex(d: seq<(int, real)>, k: int, v: real)
    requires d != [] && forall q :: 0 <= q < |d| ==> d[q].0 == d[0].0 + q * MicrosPerSecond
    requires (k, v) in d
    ensures 0 <= WholeSeconds(k - d[0].0) < |d| && d[WholeSeconds(k - d[0].0)] == (k, v)
  {
    var q :| 0 <= q < |d| && d[q] == (k, v);
    assert k - d[0].0 == q * MicrosPerSecond;
    var w := WholeSeconds(k - d[0].0);
    assert w * MicrosPerSecond <= q * MicrosPerSecond < w * MicrosPerSecond + MicrosPerSecond;
    assert w == q;
  }

  /** The pass over the sections of a file with just `Params` and `HRData`. */
  lemma TransformBoth(params: seq<string>, hrdata: seq<string>, p: Section, h: Section)
    requires Transform(PARAMS, params) == Success(p) && Transform(HRDATA, hrdata) == Success(h)
    ensures TransformAll(map[PARAMS := params, HRDATA := hrdata]) == Success(map[PARAMS := p, HRDATA := h])
  {
    var m := map[PARAMS := params, HRDATA := hrdata];
    assert PARAMS != HRDATA;
    forall k | k in m
      ensures Transform(k, m[k]).Success?
    {
    }
    var r := TransformAll(m).value;
    assert r.Keys == {PARAMS, HRDATA};
    assert r[PARAMS] == p && r[HRDATA] == h;
    assert r == map[PARAMS := p, HRDATA := h];
  }
}
