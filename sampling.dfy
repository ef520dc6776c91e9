/**
 * Per-record throughput sampling: `adoptSize` and `updateStats`.
 *
 * The sample log stands for the `Stats` ring; its averaging is an opaque
 * function `avg` supplied by the caller.
 */
module Sampling {
  import opened DownloadStates

  /** The fields of a `downloads.search` result that `adoptSize` reads. */
  datatype SizeReport = SizeReport(bytesReceived: int, totalBytes: int, fileSize: int)

  /** `downloads.search` either fails (it rejects, or finds nothing) or reports sizes. */
  datatype SearchOutcome = Failed | Found(report: SizeReport)

  /** `Math.max(0, x)`. */
  function Max0(x: int): (r: int)
    ensures r >= 0 && r >= x && (r == x || r == 0)
  {
    if x < 0 then 0 else x
  }

  datatype Sizes = Sizes(written: int, totalSize: int)

  /**
   * `adoptSize`: both counts are clamped to be non-negative, and the file
   * size is preferred to the manager's total whenever it is non-negative.
   */
  function AdoptedSize(rep: SizeReport): (r: Sizes)
    ensures r.written >= 0 && r.totalSize >= 0
    ensures r.written == Max0(rep.bytesReceived)
    ensures rep.fileSize >= 0 ==> r.totalSize == rep.fileSize
    ensures rep.fileSize < 0 ==> r.totalSize == Max0(rep.totalBytes)
  {
    Sizes(Max0(rep.bytesReceived), Max0(if rep.fileSize >= 0 then rep.fileSize else rep.totalBytes))
  }

  /** Clamping is idempotent: a report of already adopted sizes is adopted unchanged. */
  lemma AdoptIdempotent(rep: SizeReport, unknownTotal: int)
    ensures var r := AdoptedSize(rep);
            AdoptedSize(SizeReport(r.written, unknownTotal, r.totalSize)) == r
  {
  }

  /** The fields of a record that sampling reads and writes. */
  datatype Sampler = Sampler(
    state: StateBits,
    manId: int,
    written: int,
    totalSize: int,
    lastWritten: int,
    stats: seq<int>)

  /** The record after a tick, what the tick returns, and whether it added a sample. */
  datatype Tick = Tick(after: Sampler, value: real, sampled: bool)

  /**
   * `updateStats`, once the search has settled. A record that is not
   * RUNNING is left alone and yields -1. A record without a manager id, or
   * whose search failed, adds a zero sample. Otherwise the reported sizes
   * are adopted; a zero `lastWritten` is only primed (yielding -1, adding
   * nothing); else the growth of `written` since `lastWritten` (never
   * negative) is added. A tick that adds a sample yields the new average.
   */
  function Sample(s: Sampler, outcome: SearchOutcome, avg: seq<int> -> real): (t: Tick)
    ensures t.after.state == s.state && t.after.manId == s.manId
    ensures s.state != RUNNING ==> t == Tick(s, -1.0, false)
    ensures !t.sampled ==> t.value == -1.0 && t.after.stats == s.stats
    ensures t.sampled ==> && |t.after.stats| == |s.stats| + 1
                          && t.after.stats[..|s.stats|] == s.stats
                          && t.after.stats[|s.stats|] >= 0
                          && t.value == avg(t.after.stats)
    ensures s.lastWritten >= 0 ==> t.after.lastWritten >= 0
  {
    if s.state != RUNNING then Tick(s, -1.0, false)
    else if s.manId == 0 || outcome.Failed? then Added(s, 0, avg)
    else
      var size := AdoptedSize(outcome.report);
      var s1 := s.(written := size.written, totalSize := size.totalSize);
      if s.lastWritten == 0 then Tick(s1.(lastWritten := Max0(size.written)), -1.0, false)
      else Added(s1.(lastWritten := Max0(size.written)), Max0(size.written - s.lastWritten), avg)
  }

  function Added(s: Sampler, v: int, avg: seq<int> -> real): Tick {
    var stats := s.stats + [v];
    Tick(s.(stats := stats), avg(stats), true)
  }

  /** The first sample after `lastWritten` is zero only primes it. */
  lemma FirstSamplePrimes(s: Sampler, rep: SizeReport, avg: seq<int> -> real)
    requires s.state == RUNNING && s.manId != 0 && s.lastWritten == 0
    ensures var t := Sample(s, Found(rep), avg);
            && !t.sampled && t.value == -1.0
            && t.after == s.(written := Max0(rep.bytesReceived), totalSize := AdoptedSize(rep).totalSize,
                             lastWritten := Max0(rep.bytesReceived))
  {
  }

  /** Later samples add the clamped growth of `written` and move `lastWritten` to it. */
  lemma LaterSampleAddsDelta(s: Sampler, rep: SizeReport, avg: seq<int> -> real)
    requires s.state == RUNNING && s.manId != 0 && s.lastWritten != 0
    ensures var t := Sample(s, Found(rep), avg);
            && t.sampled
            && t.after.stats == s.stats + [Max0(Max0(rep.bytesReceived) - s.lastWritten)]
            && t.after.lastWritten == Max0(rep.bytesReceived)
            && t.after.written == Max0(rep.bytesReceived)
  {
  }

  /** A failed search (or a missing manager id) adds a zero sample and changes nothing else. */
  lemma FailedSearchAddsZero(s: Sampler, outcome: SearchOutcome, avg: seq<int> -> real)
    requires s.state == RUNNING && (s.manId == 0 || outcome.Failed?)
    ensures Sample(s, outcome, avg) == Tick(s.(stats := s.stats + [0]), avg(s.stats + [0]), true)
  {
  }

  /** Ticks that all find the download, one report after another. */
  function Ticks(s: Sampler, reports: seq<SizeReport>, avg: seq<int> -> real): Sampler
    decreases |reports|
  {
    if reports == [] then s else Ticks(Sample(s, Found(reports[0]), avg).after, reports[1..], avg)
  }

  function Sum(xs: seq<int>): int {
    if xs == [] then 0 else Sum(xs[..|xs| - 1]) + xs[|xs| - 1]
  }

  lemma SumAppend(xs: seq<int>, x: int)
    ensures Sum(xs + [x]) == Sum(xs) + x
  {
    assert (xs + [x])[..|xs|] == xs;
  }

  /**
   * Once primed, a running record whose received bytes never shrink gets
   * one sample per tick, and its samples add up to exactly the bytes
   * received since `lastWritten`: no byte is counted twice or lost.
   */
  lemma {:induction false} SamplesAddUp(s: Sampler, reports: seq<SizeReport>, avg: seq<int> -> real)
    requires s.state == RUNNING && s.manId != 0 && s.lastWritten > 0
    requires reports != [] ==> reports[0].bytesReceived >= s.lastWritten
    requires forall k :: 0 < k < |reports| ==> reports[k - 1].bytesReceived <= reports[k].bytesReceived
    decreases |reports|
    ensures var e := Ticks(s, reports, avg);
            && |e.stats| == |s.stats| + |reports|
            && e.stats[..|s.stats|] == s.stats
            && Sum(e.stats[|s.stats|..]) + s.lastWritten == e.lastWritten
            && e.lastWritten == (if reports == [] then s.lastWritten else reports[|reports| - 1].bytesReceived)
  {
    if reports != [] {
      var rep := reports[0];
      var t := Sample(s, Found(rep), avg);
      LaterSampleAddsDelta(s, rep, avg);
      var s1 := t.after;
      assert reports[0] == rep;
      assert rep.bytesReceived >= s.lastWritten;
      assert s1.lastWritten == rep.bytesReceived && rep.bytesReceived > 0;
      assert s1.stats == s.stats + [rep.bytesReceived - s.lastWritten];
      forall k | 0 < k < |reports[1..]|
        ensures reports[1..][k - 1].bytesReceived <= reports[1..][k].bytesReceived
      {
        assert reports[1..][k] == reports[k + 1];
      }
      assert |reports| > 1 ==> reports[1].bytesReceived >= reports[0].bytesReceived;
      SamplesAddUp(s1, reports[1..], avg);
      var e := Ticks(s1, reports[1..], avg);
      assert e == Ticks(s, reports, avg);
      var n := |s.stats|;
      assert e.stats[..n + 1] == s1.stats by {
        assert e.stats[..n + 1] == e.stats[..|s1.stats|];
      }
      assert e.stats[..n] == s.stats by {
        assert e.stats[..n] == e.stats[..n + 1][..n];
      }
      // the new samples: the first tick's delta followed by the rest
      var d := rep.bytesReceived - s.lastWritten;
      assert |s1.stats| == n + 1 && e.stats[n] == e.stats[..n + 1][n] == d;
      SumFrom(e.stats, n, d);
    }
  }

  lemma SumFrom(xs: seq<int>, n: nat, x: int)
    requires n < |xs| && xs[n] == x
    ensures Sum(xs[n..]) == x + Sum(xs[n + 1..])
  {
    assert xs[n..] == [x] + xs[n + 1..];
    SumCons(x, xs[n + 1..]);
  }

  lemma {:induction false} SumCons(x: int, xs: seq<int>)
    ensures Sum([x] + xs) == x + Sum(xs)
  {
    if xs != [] {
      var n := |xs| - 1;
      assert ([x] + xs)[..|[x] + xs| - 1] == [x] + xs[..n];
      SumCons(x, xs[..n]);
    }
  }

  /**
   * One tick for each sampler, each with its own search outcome: the closed
   * form that the `updateRunning` loop (`DownloadTable.SampleRunning`) is proved equal to.
   */
  function TickAll(ss: seq<Sampler>, outcomes: seq<SearchOutcome>, avg: seq<int> -> real): (r: seq<Tick>)
    requires |ss| == |outcomes|
    ensures |r| == |ss| && forall k :: 0 <= k < |ss| ==> r[k] == Sample(ss[k], outcomes[k], avg)
  {
    seq(|ss|, k requires 0 <= k < |ss| => Sample(ss[k], outcomes[k], avg))
  }

  /** The samplers the ticks leave behind, in order: the `updateRunning` loop's closed form for the new samplers. */
  function AftersOf(ts: seq<Tick>): (r: seq<Sampler>)
    ensures |r| == |ts| && forall k :: 0 <= k < |ts| ==> r[k] == ts[k].after
  {
    seq(|ts|, k requires 0 <= k < |ts| => ts[k].after)
  }

  /** The values the ticks return, in order: the `updateRunning` loop's closed form for the values it adds up. */
  function ValuesOf(ts: seq<Tick>): (r: seq<real>)
    ensures |r| == |ts| && forall k :: 0 <= k < |ts| ==> r[k] == ts[k].value
  {
    seq(|ts|, k requires 0 <= k < |ts| => ts[k].value)
  }

  /** `updateRunning`'s total: the sum of the returned values that are not negative. */
  function Total(values: seq<real>): (r: real)
    ensures r >= 0.0
  {
    if values == [] then 0.0
    else Total(values[..|values| - 1]) + (if values[|values| - 1] >= 0.0 then values[|values| - 1] else 0.0)
  }

  lemma TotalAppend(values: seq<real>, v: real)
    ensures Total(values + [v]) == Total(values) + (if v >= 0.0 then v else 0.0)
  {
    assert (values + [v])[..|values|] == values;
  }

  /** The sentinel -1 of a record that is not sampled never changes the total. */
  lemma TotalSkipsSentinel(values: seq<real>)
    ensures Total(values + [-1.0]) == Total(values)
  {
    assert (values + [-1.0])[..|values|] == values;
  }
}
