/** Power telemetry: the bucketed series of the intraday chart, the newest samples, the flag bits. */
module Power {
  import opened Common

  datatype Sample = Sample(device: Id, at: Time, watts: Option<real>, source: string)

  predicate Real(s: Sample) {
    s.source == "steady" || s.source == "burst"
  }

  // ---------- the window and its slices ----------

  function Clamp(v: int, low: int, high: int): int {
    var top := if v < high then v else high;
    if low > top then low else top
  }

  /** A slicing of time: n equal buckets over width microseconds from cutoff on. */
  datatype Window = Window(cutoff: Time, width: int, n: nat)

  predicate Proper(w: Window) {
    w.width > 0 && w.n > 0
  }

  function Requested(seconds: int, buckets: int, now: Time): (w: Window)
    ensures Proper(w) && w.cutoff + w.width == now && 12 <= w.n <= 1440
  {
    var win := Clamp(if seconds == 0 then 24 * 60 * 60 else seconds, 600, 30 * 24 * 60 * 60);
    Window(now - win * SECOND, win * SECOND, Clamp(if buckets == 0 then 144 else buckets, 12, 1440))
  }

  /** The sample lies in the half-open interval of bucket i; in units of width / n. */
  predicate Lands(w: Window, at: Time, i: int) {
    i * w.width <= (at - w.cutoff) * w.n < (i + 1) * w.width
  }

  predicate InWindow(w: Window, at: Time) {
    w.cutoff <= at < w.cutoff + w.width
  }

  /** The index the program computes, in exact arithmetic; defined from the cutoff on. */
  function Index(w: Window, at: Time): int
    requires Proper(w)
  {
    ((at - w.cutoff) * w.n) / w.width
  }

  /** Every in-window sample lands in exactly one bucket, the one computed; no other sample lands in any. */
  lemma LandsExactly(w: Window, at: Time, i: int)
    requires Proper(w)
    ensures Lands(w, at, i) <==> i == Index(w, at)
    ensures 0 <= Index(w, at) < w.n <==> InWindow(w, at)
  {
    var x, width := (at - w.cutoff) * w.n, w.width;
    Quotient(x, width, i);
    Quotient(x, width, x / width);
    InWindowScaled(w, at);
    Quotient(x, width, 0);
    QuotientBelow(x, width, w.n);
  }

  lemma Quotient(x: int, d: int, i: int)
    requires d > 0
    ensures i * d <= x < (i + 1) * d <==> i == x / d
    ensures x >= 0 <==> x / d >= 0
  {
    var q, r := x / d, x % d;
    assert x == q * d + r && 0 <= r < d;
    if i < q {
      Scaled(i + 1, q, d);
    } else if i > q {
      Scaled(q + 1, i, d);
    }
  }

  lemma Scaled(a: int, b: int, d: int)
    requires a <= b && d > 0
    ensures a * d <= b * d
  {
  }

  lemma QuotientBelow(x: int, d: int, n: int)
    requires d > 0
    ensures x / d < n <==> x < n * d
  {
    var q, r := x / d, x % d;
    assert x == q * d + r && 0 <= r < d;
    if q < n {
      Scaled(q + 1, n, d);
    } else {
      Scaled(n, q, d);
    }
  }

  lemma InWindowScaled(w: Window, at: Time)
    requires Proper(w)
    ensures InWindow(w, at) <==> 0 <= (at - w.cutoff) * w.n < w.n * w.width
  {
  }

  // ---------- the naive reference: one filter per interval ----------

  /** What a count is taken of: samples with watts, real ones, synthetic ones, or all. */
  datatype Filter = Metered | RealOnly | SyntheticOnly | Any

  predicate Passes(f: Filter, s: Sample) {
    match f
    case Metered => s.watts.Some?
    case RealOnly => Real(s)
    case SyntheticOnly => !Real(s)
    case Any => true
  }

  /** How many rows pass the filter and land in bucket i. */
  function CountIn(rows: seq<Sample>, w: Window, i: int, f: Filter): nat {
    if rows == [] then 0
    else
      var s := rows[|rows| - 1];
      CountIn(rows[..|rows| - 1], w, i, f) + if Lands(w, s.at, i) && Passes(f, s) then 1 else 0
  }

  function SumIn(rows: seq<Sample>, w: Window, i: int): real {
    if rows == [] then 0.0
    else
      var s := rows[|rows| - 1];
      SumIn(rows[..|rows| - 1], w, i) + if Lands(w, s.at, i) && s.watts.Some? then s.watts.value else 0.0
  }

  /** How many rows pass the filter and are in the window. */
  function CountWindow(rows: seq<Sample>, w: Window, f: Filter): nat {
    if rows == [] then 0
    else
      var s := rows[|rows| - 1];
      CountWindow(rows[..|rows| - 1], w, f) + if InWindow(w, s.at) && Passes(f, s) then 1 else 0
  }

  datatype Bucket = Bucket(avg: Option<real>, count: nat, measured: nat, synthetic: nat)

  function Average(sum: real, count: nat): Option<real> {
    if count == 0 then None else Some(sum / count as real)
  }

  /** The bucket a separate filter over all the rows would give for slice i. */
  function Naive(rows: seq<Sample>, w: Window, i: int): Bucket {
    Bucket(Average(SumIn(rows, w, i), CountIn(rows, w, i, Metered)), CountIn(rows, w, i, Metered),
           CountIn(rows, w, i, RealOnly), CountIn(rows, w, i, SyntheticOnly))
  }

  /** The counts of the first k buckets together. */
  function Total(rows: seq<Sample>, w: Window, f: Filter, k: nat): nat {
    if k == 0 then 0 else Total(rows, w, f, k - 1) + CountIn(rows, w, k - 1, f)
  }

  /** One row adds one to the total of all buckets if it passes and is in the window. */
  lemma {:induction false} TotalOfOneMore(rows: seq<Sample>, w: Window, f: Filter, k: nat)
    requires Proper(w) && rows != []
    ensures var s := rows[|rows| - 1];
            Total(rows, w, f, k)
            == Total(rows[..|rows| - 1], w, f, k) + if 0 <= Index(w, s.at) < k && Passes(f, s) then 1 else 0
  {
    if k > 0 {
      TotalOfOneMore(rows, w, f, k - 1);
      LandsExactly(w, rows[|rows| - 1].at, k - 1);
    }
  }

  /** Counting bucket by bucket counts every in-window row that passes, exactly once. */
  lemma {:induction false} CountsAddUp(rows: seq<Sample>, w: Window, f: Filter)
    requires Proper(w)
    ensures Total(rows, w, f, w.n) == CountWindow(rows, w, f)
  {
    if rows == [] {
      NoTotal(w, f, w.n);
    } else {
      CountsAddUp(rows[..|rows| - 1], w, f);
      TotalOfOneMore(rows, w, f, w.n);
      LandsExactly(w, rows[|rows| - 1].at, 0);
    }
  }

  lemma {:induction false} NoTotal(w: Window, f: Filter, k: nat)
    ensures Total([], w, f, k) == 0
  {
    if k > 0 { NoTotal(w, f, k - 1); }
  }

  /** Real and synthetic together are all the in-window samples. */
  lemma {:induction false} RealAndSyntheticAreAll(rows: seq<Sample>, w: Window)
    requires Proper(w)
    ensures Total(rows, w, RealOnly, w.n) + Total(rows, w, SyntheticOnly, w.n) == CountWindow(rows, w, Any)
  {
    CountsAddUp(rows, w, RealOnly);
    CountsAddUp(rows, w, SyntheticOnly);
    WindowSplits(rows, w);
  }

  lemma {:induction false} WindowSplits(rows: seq<Sample>, w: Window)
    ensures CountWindow(rows, w, RealOnly) + CountWindow(rows, w, SyntheticOnly) == CountWindow(rows, w, Any)
  {
    if rows != [] { WindowSplits(rows[..|rows| - 1], w); }
  }

  /** Each average lies between any bounds of the watts in its bucket. */
  lemma AverageWithinExtremes(rows: seq<Sample>, w: Window, i: int, low: real, high: real)
    requires forall s | s in rows && Lands(w, s.at, i) && s.watts.Some? :: low <= s.watts.value <= high
    ensures Naive(rows, w, i).avg.Some? ==> low <= Naive(rows, w, i).avg.value <= high
  {
    SumWithin(rows, w, i, low, high);
    var sum, count := SumIn(rows, w, i), CountIn(rows, w, i, Metered);
    if count > 0 {
      Divided(sum, count as real, low, high);
    }
  }

  lemma Divided(sum: real, count: real, low: real, high: real)
    requires count > 0.0 && low * count <= sum <= high * count
    ensures low <= sum / count <= high
  {
  }

  lemma {:induction false} SumWithin(rows: seq<Sample>, w: Window, i: int, low: real, high: real)
    requires forall s | s in rows && Lands(w, s.at, i) && s.watts.Some? :: low <= s.watts.value <= high
    ensures var count := CountIn(rows, w, i, Metered) as real; low * count <= SumIn(rows, w, i) <= high * count
  {
    if rows != [] {
      SumWithin(rows[..|rows| - 1], w, i, low, high);
    }
  }

  // ---------- the series ----------

  /** The largest of the averages, floored at zero. */
  predicate PeakOf(peak: real, buckets: seq<Bucket>) {
    && peak >= 0.0
    && (forall i | 0 <= i < |buckets| && buckets[i].avg.Some? :: buckets[i].avg.value <= peak)
    && (peak == 0.0 || exists i :: 0 <= i < |buckets| && buckets[i].avg == Some(peak))
  }

  /** Add one row to the accumulators of its bucket, if it has one. */
  method AddSample(s: Sample, w: Window, sums: array<real>, counts: array<nat>, reals: array<nat>, synths: array<nat>)
    requires Proper(w) && sums.Length == counts.Length == reals.Length == synths.Length == w.n
    requires counts != reals && counts != synths && reals != synths
    modifies sums, counts, reals, synths
    ensures forall i | 0 <= i < w.n ::
              && sums[i] == old(sums[i]) + (if Lands(w, s.at, i) && s.watts.Some? then s.watts.value else 0.0)
              && counts[i] == old(counts[i]) + if Lands(w, s.at, i) && Passes(Metered, s) then 1 else 0
    ensures forall i | 0 <= i < w.n ::
              && reals[i] == old(reals[i]) + (if Lands(w, s.at, i) && Passes(RealOnly, s) then 1 else 0)
              && synths[i] == old(synths[i]) + if Lands(w, s.at, i) && Passes(SyntheticOnly, s) then 1 else 0
  {
    forall i ensures Lands(w, s.at, i) <==> i == Index(w, s.at) {
      LandsExactly(w, s.at, i);
    }
    LandsExactly(w, s.at, 0);
    if s.at < w.cutoff {
      return;
    }
    var idx := Index(w, s.at);
    if idx < 0 || idx >= w.n {
      return;
    }
    if s.watts.Some? {
      sums[idx] := sums[idx] + s.watts.value;
      counts[idx] := counts[idx] + 1;
    }
    if Real(s) {
      reals[idx] := reals[idx] + 1;
    } else {
      synths[idx] := synths[idx] + 1;
    }
  }

  /** One pass over the rows. */
  method Accumulate(rows: seq<Sample>, w: Window, sums: array<real>, counts: array<nat>, reals: array<nat>,
                    synths: array<nat>)
    requires Proper(w) && sums.Length == counts.Length == reals.Length == synths.Length == w.n
    requires counts != reals && counts != synths && reals != synths
    requires forall i | 0 <= i < w.n :: sums[i] == 0.0 && counts[i] == 0 && reals[i] == 0 && synths[i] == 0
    modifies sums, counts, reals, synths
    ensures forall i | 0 <= i < w.n :: sums[i] == SumIn(rows, w, i) && counts[i] == CountIn(rows, w, i, Metered)
    ensures forall i | 0 <= i < w.n ::
              reals[i] == CountIn(rows, w, i, RealOnly) && synths[i] == CountIn(rows, w, i, SyntheticOnly)
  {
    for k := 0 to |rows|
      invariant forall i | 0 <= i < w.n ::
                  sums[i] == SumIn(rows[..k], w, i) && counts[i] == CountIn(rows[..k], w, i, Metered)
      invariant forall i | 0 <= i < w.n ::
                  reals[i] == CountIn(rows[..k], w, i, RealOnly) && synths[i] == CountIn(rows[..k], w, i, SyntheticOnly)
    {
      assert rows[..k + 1][..k] == rows[..k];
      AddSample(rows[k], w, sums, counts, reals, synths);
    }
    assert rows[..|rows|] == rows;
  }

  /** The first k buckets, each by its own filter. */
  function Slices(rows: seq<Sample>, w: Window, k: nat): seq<Bucket> {
    if k == 0 then [] else Slices(rows, w, k - 1) + [Naive(rows, w, k - 1)]
  }

  /** The buckets that hold any reading. */
  function Points(buckets: seq<Bucket>): nat {
    if buckets == [] then 0 else Points(buckets[..|buckets| - 1]) + if buckets[|buckets| - 1].avg.Some? then 1 else 0
  }

  function Peak(buckets: seq<Bucket>): real {
    if buckets == [] then 0.0
    else
      var earlier, last := Peak(buckets[..|buckets| - 1]), buckets[|buckets| - 1].avg;
      if last.Some? && last.value > earlier then last.value else earlier
  }

  lemma {:induction false} SliceAt(rows: seq<Sample>, w: Window, k: nat, i: nat)
    requires i < k
    ensures |Slices(rows, w, k)| == k && Slices(rows, w, k)[i] == Naive(rows, w, i)
  {
    if k > 1 {
      SliceAt(rows, w, k - 1, if i < k - 1 then i else 0);
    }
  }

  lemma {:induction false} PeakIsLargest(buckets: seq<Bucket>)
    ensures PeakOf(Peak(buckets), buckets)
  {
    if buckets != [] {
      var was := buckets[..|buckets| - 1];
      PeakIsLargest(was);
      if Peak(buckets) != 0.0 && Peak(buckets) == Peak(was) {
        var i :| 0 <= i < |was| && was[i].avg == Some(Peak(was));
        assert buckets[i].avg == Some(Peak(buckets));
      }
    }
  }

  /**
   One pass over the rows, four arrays of accumulators, one pass over the buckets: the same
   buckets as one filter per interval, and the peak of their averages.
   */
  method IntradayPowerSeries(rows: seq<Sample>, w: Window) returns (buckets: seq<Bucket>, peak: real, points: nat)
    requires Proper(w)
    ensures buckets == Slices(rows, w, w.n) && peak == Peak(buckets) && points == Points(buckets)
  {
    var sums := new real[w.n](_ => 0.0);
    var counts := new nat[w.n](_ => 0);
    var reals := new nat[w.n](_ => 0);
    var synths := new nat[w.n](_ => 0);
    Accumulate(rows, w, sums, counts, reals, synths);
    buckets, peak, points := [], 0.0, 0;
    for i := 0 to w.n
      invariant buckets == Slices(rows, w, i)
      invariant peak == Peak(buckets) && points == Points(buckets)
    {
      var avg := Average(sums[i], counts[i]);
      if avg.Some? {
        points := points + 1;
        if avg.value > peak {
          peak := avg.value;
        }
      }
      var bucket := Bucket(avg, counts[i], reals[i], synths[i]);
      assert (buckets + [bucket])[..|buckets|] == buckets;
      buckets := buckets + [bucket];
    }
  }

  // ---------- the newest sample of each device ----------

  /** s is a sample of its device than which none is newer. */
  predicate Newest(rows: seq<Sample>, s: Sample) {
    s in rows && forall t | t in rows && t.device == s.device :: t.at <= s.at
  }

  /** Group by device for the latest time, join back, first row wins: a newest sample for each device that has any. */
  method LatestSamplesByDevice(rows: seq<Sample>, ids: set<Id>) returns (latest: map<Id, Sample>)
    ensures forall d :: d in latest <==> d in ids && d != "" && exists s | s in rows :: s.device == d
    ensures forall d | d in latest :: latest[d].device == d && Newest(rows, latest[d])
  {
    var mx: map<Id, Time> := map[];
    for k := 0 to |rows|
      invariant forall d :: d in mx <==> d in ids && d != "" && exists i :: 0 <= i < k && rows[i].device == d
      invariant forall i | 0 <= i < k && rows[i].device in mx :: rows[i].at <= mx[rows[i].device]
      invariant forall d | d in mx :: exists i :: 0 <= i < k && rows[i].device == d && rows[i].at == mx[d]
    {
      var s := rows[k];
      ghost var was := mx;
      if s.device in ids && s.device != "" && (s.device !in mx || mx[s.device] < s.at) {
        mx := mx[s.device := s.at];
      }
      forall d | d in mx ensures exists i :: 0 <= i < k + 1 && rows[i].device == d && rows[i].at == mx[d] {
        if d in was && mx[d] == was[d] {
          var i :| 0 <= i < k && rows[i].device == d && rows[i].at == was[d];
          assert rows[i].device == d;
        } else {
          assert rows[k].device == d;
        }
      }
    }
    latest := map[];
    for k := 0 to |rows|
      invariant forall d | d in latest :: d in mx && latest[d] in rows && latest[d].device == d && latest[d].at == mx[d]
      invariant forall i | 0 <= i < k && rows[i].device in mx && rows[i].at == mx[rows[i].device] ::
                  rows[i].device in latest
    {
      var s := rows[k];
      if s.device in mx && s.at == mx[s.device] && s.device !in latest {
        latest := latest[s.device := s];
      }
    }
    forall d ensures d in latest <==> d in ids && d != "" && exists s | s in rows :: s.device == d {
      if d in mx {
        var i :| 0 <= i < |rows| && rows[i].device == d && rows[i].at == mx[d];
        assert rows[i] in rows;
      }
    }
  }

  // ---------- flag bits ----------

  function Pow2(i: nat): (r: nat)
    ensures r > 0
  {
    if i == 0 then 1 else 2 * Pow2(i - 1)
  }

  predicate BitSet(raw: nat, i: nat) {
    (raw / Pow2(i)) % 2 == 1
  }

  /** The set bits of raw, lowest first, numbered from i on. */
  function BitsFrom(raw: nat, i: nat): seq<nat>
    decreases raw
  {
    if raw == 0 then [] else (if raw % 2 == 1 then [i] else []) + BitsFrom(raw / 2, i + 1)
  }

  function SumOf(bits: seq<nat>): nat {
    if bits == [] then 0 else Pow2(bits[0]) + SumOf(bits[1..])
  }

  lemma HalfBit(raw: nat, j: nat)
    requires j > 0
    ensures BitSet(raw, j) <==> BitSet(raw / 2, j - 1)
  {
    assert raw / Pow2(j) == (raw / 2) / Pow2(j - 1) by {
      DivDiv(raw, Pow2(j - 1));
    }
  }

  lemma DivDiv(x: nat, d: nat)
    requires d > 0
    ensures x / (2 * d) == (x / 2) / d
  {
    var q, r := x / (2 * d), x % (2 * d);
    assert x == (2 * d) * q + r && 0 <= r < 2 * d;
    assert x == 2 * (d * q) + r;
    assert x / 2 == d * q + r / 2;
    Quotient(x / 2, d, q);
  }

  lemma {:induction false} BitsAreSet(raw: nat, i: nat, j: nat)
    ensures j in BitsFrom(raw, i) <==> j >= i && BitSet(raw, j - i)
    decreases raw
  {
    if raw > 0 {
      BitsAreSet(raw / 2, i + 1, j);
      if j > i {
        HalfBit(raw, j - i);
      } else if j == i {
        assert raw / Pow2(0) == raw;
      }
    } else if j >= i {
      assert 0 / Pow2(j - i) == 0;
    }
  }

  lemma {:induction false} BitsAscend(raw: nat, i: nat)
    ensures forall a | 0 <= a < |BitsFrom(raw, i)| :: i <= BitsFrom(raw, i)[a]
    ensures forall a, b | 0 <= a < b < |BitsFrom(raw, i)| :: BitsFrom(raw, i)[a] < BitsFrom(raw, i)[b]
    decreases raw
  {
    if raw > 0 {
      BitsAscend(raw / 2, i + 1);
    }
  }

  lemma Doubling(half: int, bit: int, p: int)
    ensures (2 * half + bit) * p == half * (2 * p) + bit * p
  {
  }

  lemma {:induction false} BitsSumUp(raw: nat, i: nat)
    ensures SumOf(BitsFrom(raw, i)) == raw * Pow2(i)
    decreases raw
  {
    if raw > 0 {
      var rest := BitsFrom(raw / 2, i + 1);
      BitsSumUp(raw / 2, i + 1);
      Doubling(raw / 2, raw % 2, Pow2(i));
      if raw % 2 == 1 {
        assert ([i] + rest)[1..] == rest;
      } else {
        assert [] + rest == rest;
      }
    }
  }

  const FLAG_NAMES: seq<string> := [
    "SYNTHETIC", "REAL", "VOLTAGE_VALID", "CURRENT_VALID", "POWER_VALID", "FREQUENCY_VALID", "ENERGY_VALID",
    "CURRENT_ESTIMATED"]

  datatype Flags = Flags(raw: nat, bits: seq<nat>, names: seq<string>)

  function NamesOf(bits: seq<nat>): seq<string> {
    if bits == [] then []
    else (if bits[0] < |FLAG_NAMES| then [FLAG_NAMES[bits[0]]] else []) + NamesOf(bits[1..])
  }

  function DecodeSourceFlags(flags: Option<int>): Flags {
    var raw := if flags.Some? && flags.value > 0 then flags.value else 0;
    Flags(raw, BitsFrom(raw, 0), NamesOf(BitsFrom(raw, 0)))
  }

  /** The decoded bits are exactly those set, in ascending order, and nothing of a non-negative value is lost. */
  lemma DecodedBitsAreExact(flags: nat)
    ensures var f := DecodeSourceFlags(Some(flags));
            && (forall j: nat :: j in f.bits <==> BitSet(flags, j))
            && (forall a, b | 0 <= a < b < |f.bits| :: f.bits[a] < f.bits[b])
            && SumOf(f.bits) == flags
  {
    forall j: nat ensures j in BitsFrom(flags, 0) <==> BitSet(flags, j) {
      BitsAreSet(flags, 0, j);
    }
    BitsAscend(flags, 0);
    BitsSumUp(flags, 0);
    assert Pow2(0) == 1;
  }
}
