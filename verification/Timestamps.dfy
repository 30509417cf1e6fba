/** Splitting a round trip by samples of one free-running counter that wraps (ipcts_us and the
    sum check of d_report), in counts of 5 ns. */
module Timestamps {
  import opened Arm

  /** ipcts_us before the scaling: counts from sample a to sample b. */
  function Diff(a: nat, b: nat, wrap: nat): (d: nat)
    requires a < wrap && b < wrap
    ensures d < wrap
  {
    if b >= a then b - a else wrap - a + b
  }

  /** What the counter shows after t counts. */
  function Sample(t: nat, wrap: nat): nat
    requires wrap > 0
  {
    t % wrap
  }

  ghost predicate Chain(ts: seq<nat>) {
    |ts| > 0 && forall i, j :: 0 <= i <= j < |ts| ==> ts[i] <= ts[j]
  }

  /** The segments between neighbouring samples, added up. */
  function Sum(ts: seq<nat>, wrap: nat): nat
    requires wrap > 0 && |ts| > 0
  {
    if |ts| == 1 then 0
    else Sum(ts[..|ts| - 1], wrap) + Diff(Sample(ts[|ts| - 2], wrap), Sample(ts[|ts| - 1], wrap), wrap)
  }

  /** The difference of two samples is the true distance modulo wrap, so it is the true distance
      exactly when that is less than one wrap. */
  lemma DiffIsElapsedIff(t: nat, u: nat, wrap: nat)
    requires wrap > 0 && t <= u
    ensures var d := Diff(Sample(t, wrap), Sample(u, wrap), wrap);
            d == (u - t) % wrap && (d == u - t <==> u - t < wrap)
  {
    var a, b := t % wrap, u % wrap;
    var qt, qu := t / wrap, u / wrap;
    var k := qu - qt;
    assert k * wrap == qu * wrap - qt * wrap;
    assert u - t == k * wrap + (b - a);
    if b >= a {
      Digits(u - t, k, wrap, b - a);
    } else {
      assert (k - 1) * wrap == k * wrap - wrap;
      Digits(u - t, k - 1, wrap, wrap - a + b);
    }
    if u - t < wrap {
      Digits(u - t, 0, wrap, u - t);
    }
  }

  lemma ModAdd(x: nat, y: nat, wrap: nat)
    requires wrap > 0
    ensures (x + y % wrap) % wrap == (x + y) % wrap
  {
    var q, r := (x + y % wrap) / wrap, (x + y % wrap) % wrap;
    var k := q + y / wrap;
    assert k * wrap == q * wrap + (y / wrap) * wrap;
    Digits(x + y, k, wrap, r);
  }

  lemma ModAddLeft(x: nat, y: nat, wrap: nat)
    requires wrap > 0
    ensures (x % wrap + y) % wrap == (x + y) % wrap
  {
    ModAdd(y, x, wrap);
  }

  /** THE SEGMENTS ADD UP.  For every chain of samples the segments sum to the end-to-end
      difference modulo wrap, and never exceed the true elapsed count. */
  lemma {:induction false} SegmentsAddUp(ts: seq<nat>, wrap: nat)
    requires wrap > 0 && Chain(ts)
    ensures var n := |ts| - 1;
            && Sum(ts, wrap) % wrap == (ts[n] - ts[0]) % wrap == Diff(Sample(ts[0], wrap), Sample(ts[n], wrap), wrap)
            && Sum(ts, wrap) <= ts[n] - ts[0]
  {
    var n := |ts| - 1;
    DiffIsElapsedIff(ts[0], ts[n], wrap);
    if n > 0 {
      var front := ts[..n];
      SegmentsAddUp(front, wrap);
      assert front[n - 1] == ts[n - 1] && front[0] == ts[0];
      Extend(Sum(front, wrap), ts[0], ts[n - 1], ts[n], wrap);
    }
  }

  lemma Extend(sum: nat, first: nat, t: nat, u: nat, wrap: nat)
    requires wrap > 0 && first <= t <= u && sum % wrap == (t - first) % wrap && sum <= t - first
    ensures var d := Diff(Sample(t, wrap), Sample(u, wrap), wrap);
            (sum + d) % wrap == (u - first) % wrap && d <= u - t
  {
    DiffIsElapsedIff(t, u, wrap);
    ModAdd(sum, u - t, wrap);
    ModAddLeft(sum, u - t, wrap);
    ModAddLeft(t - first, u - t, wrap);
    SmallMod(u - t, wrap);
  }

  lemma SmallMod(x: nat, wrap: nat)
    requires wrap > 0
    ensures x % wrap <= x && (x < wrap ==> x % wrap == x)
  {
    Below(x / wrap, wrap);
    if x < wrap {
      Digits(x, 0, wrap, x);
    }
  }

  /** THE SUM CHECK.  The segments equal the measured round trip exactly when their sum is less than
      one wrap; and when the whole chain spans less than one wrap, every segment, their sum and
      the round trip are the true elapsed counts. */
  lemma SumCheckIff(ts: seq<nat>, wrap: nat)
    requires wrap > 0 && Chain(ts)
    ensures var n := |ts| - 1; var roundTrip := Diff(Sample(ts[0], wrap), Sample(ts[n], wrap), wrap);
            && (Sum(ts, wrap) == roundTrip <==> Sum(ts, wrap) < wrap)
            && (ts[n] - ts[0] < wrap ==>
                  Sum(ts, wrap) == roundTrip == ts[n] - ts[0]
                  && forall i :: 0 < i <= n ==>
                      Diff(Sample(ts[i - 1], wrap), Sample(ts[i], wrap), wrap) == ts[i] - ts[i - 1])
  {
    var n := |ts| - 1;
    SegmentsAddUp(ts, wrap);
    SmallMod(Sum(ts, wrap), wrap);
    if ts[n] - ts[0] < wrap {
      SmallMod(ts[n] - ts[0], wrap);
      forall i | 0 < i <= n ensures Diff(Sample(ts[i - 1], wrap), Sample(ts[i], wrap), wrap) == ts[i] - ts[i - 1] {
        DiffIsElapsedIff(ts[i - 1], ts[i], wrap);
        assert ts[0] <= ts[i - 1] && ts[i] <= ts[n];
      }
    }
  }

  /** Each segment alone is true exactly when its own gap is less than one wrap, so the sum is the
      true total exactly when no gap reaches a wrap. */
  lemma {:induction false} SumIsElapsedIff(ts: seq<nat>, wrap: nat)
    requires wrap > 0 && Chain(ts)
    ensures Sum(ts, wrap) == ts[|ts| - 1] - ts[0] <==> forall i :: 0 < i < |ts| ==> ts[i] - ts[i - 1] < wrap
  {
    var n := |ts| - 1;
    if n > 0 {
      var front := ts[..n];
      SumIsElapsedIff(front, wrap);
      SegmentsAddUp(front, wrap);
      assert front[n - 1] == ts[n - 1] && front[0] == ts[0];
      DiffIsElapsedIff(ts[n - 1], ts[n], wrap);
      SmallMod(ts[n] - ts[n - 1], wrap);
      GapsSplit(ts, wrap);
    }
  }

  lemma GapsSplit(ts: seq<nat>, wrap: nat)
    requires |ts| > 1
    ensures var n := |ts| - 1;
            (forall i :: 0 < i < |ts| ==> ts[i] - ts[i - 1] < wrap)
            <==> (forall i :: 0 < i < n ==> ts[..n][i] - ts[..n][i - 1] < wrap) && ts[n] - ts[n - 1] < wrap
  {
    var n := |ts| - 1;
    if forall i :: 0 < i < n ==> ts[..n][i] - ts[..n][i - 1] < wrap {
      forall i | 0 < i < n ensures ts[i] - ts[i - 1] < wrap {
        assert ts[..n][i] - ts[..n][i - 1] < wrap;
      }
    }
  }

  // ---- the check d_report prints -----------------------------------------------------

  function RoundTrip(ts: seq<nat>, wrap: nat): nat
    requires wrap > 0 && |ts| > 0
  {
    Diff(Sample(ts[0], wrap), Sample(ts[|ts| - 1], wrap), wrap)
  }

  ghost predicate Rounds(rs: seq<seq<nat>>) {
    forall i :: 0 <= i < |rs| ==> Chain(rs[i])
  }

  /** All segments of all rounds, and all round trips, in counts. */
  function AllSegments(rs: seq<seq<nat>>, wrap: nat): nat
    requires wrap > 0 && forall i :: 0 <= i < |rs| ==> |rs[i]| > 0
  {
    if rs == [] then 0 else AllSegments(rs[..|rs| - 1], wrap) + Sum(rs[|rs| - 1], wrap)
  }

  function AllTrips(rs: seq<seq<nat>>, wrap: nat): nat
    requires wrap > 0 && forall i :: 0 <= i < |rs| ==> |rs[i]| > 0
  {
    if rs == [] then 0 else AllTrips(rs[..|rs| - 1], wrap) + RoundTrip(rs[|rs| - 1], wrap)
  }

  /** Over any number of rounds the segments never add up to less than the round trips, and to the
      same exactly when in every single round they sum to less than one wrap. */
  lemma {:induction false} CountsAgreeIff(rs: seq<seq<nat>>, wrap: nat)
    requires wrap > 0 && Rounds(rs)
    ensures AllSegments(rs, wrap) >= AllTrips(rs, wrap)
    ensures AllSegments(rs, wrap) == AllTrips(rs, wrap) <==> forall i :: 0 <= i < |rs| ==> Sum(rs[i], wrap) < wrap
  {
    if rs != [] {
      var front, last := rs[..|rs| - 1], rs[|rs| - 1];
      CountsAgreeIff(front, wrap);
      SumCheckIff(last, wrap);
      SegmentsAddUp(last, wrap);
      SmallMod(Sum(last, wrap), wrap);
      assert forall i :: 0 <= i < |front| ==> rs[i] == front[i];
    }
  }

  /** What ipcts_us returns for a difference of d counts. */
  function Us(d: nat): real {
    d as real * 0.005
  }

  /** The counter runs at 200 MHz: 200 counts are one microsecond. */
  lemma CountsPerMicrosecond(n: nat, d: nat)
    ensures Us(200 * n) == n as real && Us(n + d) == Us(n) + Us(d)
  {
  }

  /** The segments of one round in microseconds, added up. */
  function SumUs(ts: seq<nat>, wrap: nat): real
    requires wrap > 0 && |ts| > 0
  {
    if |ts| == 1 then 0.0
    else SumUs(ts[..|ts| - 1], wrap) + Us(Diff(Sample(ts[|ts| - 2], wrap), Sample(ts[|ts| - 1], wrap), wrap))
  }

  /** s6 and srt. */
  function S6(rs: seq<seq<nat>>, wrap: nat): real
    requires wrap > 0 && forall i :: 0 <= i < |rs| ==> |rs[i]| > 0
  {
    if rs == [] then 0.0 else S6(rs[..|rs| - 1], wrap) + SumUs(rs[|rs| - 1], wrap)
  }

  function Srt(rs: seq<seq<nat>>, wrap: nat): real
    requires wrap > 0 && forall i :: 0 <= i < |rs| ==> |rs[i]| > 0
  {
    if rs == [] then 0.0 else Srt(rs[..|rs| - 1], wrap) + Us(RoundTrip(rs[|rs| - 1], wrap))
  }

  lemma {:induction false} SumScales(ts: seq<nat>, wrap: nat)
    requires wrap > 0 && |ts| > 0
    ensures SumUs(ts, wrap) == Us(Sum(ts, wrap))
  {
    if |ts| > 1 {
      SumScales(ts[..|ts| - 1], wrap);
    }
  }

  lemma {:induction false} TotalsScale(rs: seq<seq<nat>>, wrap: nat)
    requires wrap > 0 && forall i :: 0 <= i < |rs| ==> |rs[i]| > 0
    ensures S6(rs, wrap) == Us(AllSegments(rs, wrap)) && Srt(rs, wrap) == Us(AllTrips(rs, wrap))
  {
    if rs != [] {
      TotalsScale(rs[..|rs| - 1], wrap);
      SumScales(rs[|rs| - 1], wrap);
    }
  }

  lemma SameAverage(x: real, y: real, n: nat)
    requires n > 0
    ensures x / n as real == y / n as real <==> x == y
    ensures x >= y ==> x / n as real >= y / n as real
  {
    assert x == x / n as real * n as real && y == y / n as real * n as real;
  }

  /** THE PRINTED CHECK.  Over any number of rounds the average of the segments is never below the
      average round trip, and they agree exactly when in every single round the segments sum to
      less than one wrap: errors of one round cannot hide those of another. */
  lemma AveragesAgreeIff(rs: seq<seq<nat>>, wrap: nat)
    requires wrap > 0 && Rounds(rs) && |rs| > 0
    ensures S6(rs, wrap) / |rs| as real >= Srt(rs, wrap) / |rs| as real
    ensures S6(rs, wrap) / |rs| as real == Srt(rs, wrap) / |rs| as real <==>
              forall i :: 0 <= i < |rs| ==> Sum(rs[i], wrap) < wrap
  {
    CountsAgreeIff(rs, wrap);
    TotalsScale(rs, wrap);
    SameAverage(S6(rs, wrap), Srt(rs, wrap), |rs|);
  }
}
