/** Inverse Distance Weighting (power 2) of station readings at a zone centroid, as done by
    `calculate_distance` and `estimate_tide_idw` inside `fetch_tide_levels`.

    Numbers are reals. The distance is planar in degrees, `sqrt(dLat^2 + dLon^2)`; the code
    only ever compares it with 0.0001 and squares it again for the weight, so the model works
    with the squared distance `d2` directly: `dist < 0.0001` is `d2 < 0.00000001` and the weight
    `1 / dist^2` is `1 / d2` (lemma `SquaredThreshold`).

    Seen from one zone, a station is a `Reading`: its squared distance and its value. The
    accumulators and their properties are stated over readings; the geometry enters only
    through `ReadingsAt`. */
module Idw {
  import opened Wrappers

  /** A sanitised station reading: coordinates in degrees and the tide height in metres. */
  datatype Station = Station(lat: real, lon: real, value: real)

  /** `calculate_distance` squared: the planar distance in degrees between a target point and
      a station, squared. */
  function SqDist(lat: real, lon: real, s: Station): (d2: real)
    ensures d2 >= 0.0
  {
    (s.lat - lat) * (s.lat - lat) + (s.lon - lon) * (s.lon - lon)
  }

  /** The coincidence threshold 0.0001 degrees (about ten metres), squared. */
  const NearSq: real := 0.00000001

  /** Comparing a non-negative distance `d` with 0.0001 is comparing its square with `NearSq`. */
  lemma SquaredThreshold(d: real, d2: real)
    requires d >= 0.0 && d * d == d2
    ensures d < 0.0001 <==> d2 < NearSq
  {
    if d < 0.0001 {
      assert d * d <= d * 0.0001;
      assert d * 0.0001 < 0.0001 * 0.0001;
    } else {
      assert d * d >= d * 0.0001;
      assert d * 0.0001 >= 0.0001 * 0.0001;
    }
  }

  /** The station lies within the coincidence threshold of the target. */
  predicate Coincident(lat: real, lon: real, s: Station) {
    SqDist(lat, lon, s) < NearSq
  }

  /** A station as seen from one target: squared distance and value. */
  datatype Reading = Reading(d2: real, value: real)

  function ReadingOf(lat: real, lon: real, s: Station): Reading {
    Reading(SqDist(lat, lon, s), s.value)
  }

  /** The stations as seen from the target, in list order. */
  function ReadingsAt(lat: real, lon: real, ss: seq<Station>): (rs: seq<Reading>)
    ensures |rs| == |ss|
    ensures forall i :: 0 <= i < |ss| ==> rs[i] == ReadingOf(lat, lon, ss[i])
  {
    seq(|ss|, i requires 0 <= i < |ss| => ReadingOf(lat, lon, ss[i]))
  }

  predicate IsNear(r: Reading) {
    r.d2 < NearSq
  }

  /** No reading is within the coincidence threshold. */
  predicate AllFar(rs: seq<Reading>) {
    forall i :: 0 <= i < |rs| ==> !IsNear(rs[i])
  }

  /** The IDW weight `1 / dist^2` of a reading outside the threshold. */
  function Weight(r: Reading): (w: real)
    requires !IsNear(r)
    ensures w > 0.0
  {
    1.0 / r.d2
  }

  /** What one reading adds to the `numerator` accumulator: value times weight. */
  function WeightedValue(r: Reading): real
    requires !IsNear(r)
  {
    r.value * Weight(r)
  }

  /** The `denominator` accumulator: the sum of the weights, in list order. */
  function WeightSum(rs: seq<Reading>): real
    requires AllFar(rs)
  {
    if rs == [] then 0.0 else WeightSum(rs[..|rs| - 1]) + Weight(rs[|rs| - 1])
  }

  /** The `numerator` accumulator: the sum of value times weight, in list order. */
  function WeightedValueSum(rs: seq<Reading>): real
    requires AllFar(rs)
  {
    if rs == [] then 0.0 else WeightedValueSum(rs[..|rs| - 1]) + WeightedValue(rs[|rs| - 1])
  }

  /** The index of the first reading, in list order, within the threshold. */
  function FirstNear(rs: seq<Reading>): (k: Option<nat>)
    ensures k.None? <==> AllFar(rs)
    ensures k.Some? ==> k.value < |rs| && IsNear(rs[k.value])
    ensures k.Some? ==> forall j :: 0 <= j < k.value ==> !IsNear(rs[j])
  {
    if rs == [] then None
    else if IsNear(rs[0]) then Some(0)
    else
      match FirstNear(rs[1..])
      case Some(k) => Some(k + 1)
      case None => None
  }

  /** The estimate from readings: the value of the first coincident one if there is one,
      otherwise the weighted mean, and `None` when the weights sum to zero. */
  function EstimateOf(rs: seq<Reading>): Option<real> {
    match FirstNear(rs)
    case Some(k) => Some(rs[k].value)
    case None =>
      var den := WeightSum(rs);
      if den == 0.0 then None else Some(WeightedValueSum(rs) / den)
  }

  /** The estimate `estimate_tide_idw(zone_lat, zone_lon, stations)` returns. */
  function Estimate(lat: real, lon: real, ss: seq<Station>): Option<real> {
    EstimateOf(ReadingsAt(lat, lon, ss))
  }

  /** `estimate_tide_idw`: one pass over the stations with two accumulators and an early
      return on the first coincident station. */
  method EstimateTideIdw(zoneLat: real, zoneLon: real, stations: seq<Station>) returns (estimate: Option<real>)
    ensures estimate == Estimate(zoneLat, zoneLon, stations)
  {
    ghost var rs := ReadingsAt(zoneLat, zoneLon, stations);
    var numerator := 0.0;
    var denominator := 0.0;
    var i := 0;
    while i < |stations|
      invariant 0 <= i <= |stations|
      invariant AllFar(rs[..i])
      invariant numerator == WeightedValueSum(rs[..i])
      invariant denominator == WeightSum(rs[..i])
    {
      var station := stations[i];
      var d2 := SqDist(zoneLat, zoneLon, station);
      assert rs[i] == Reading(d2, station.value);
      if d2 < NearSq {
        EstimateAtNear(rs, i);
        return Some(station.value);
      }
      var weight := 1.0 / d2;
      var term := station.value * weight;
      SumsStep(rs, i, weight, term);
      numerator := numerator + term;
      denominator := denominator + weight;
      i := i + 1;
    }
    assert rs[..i] == rs;
    EstimateAllFar(rs);
    if denominator == 0.0 {
      return None;
    }
    return Some(numerator / denominator);
  }

  /** The first reading within the threshold is found where the scan stops. */
  lemma FirstNearAt(rs: seq<Reading>, i: nat)
    requires i < |rs| && AllFar(rs[..i]) && IsNear(rs[i])
    ensures FirstNear(rs) == Some(i)
  {
    assert forall j :: 0 <= j < i ==> rs[j] == rs[..i][j];
    var k := FirstNear(rs).value;
    assert !(k < i) && !(i < k);
  }

  /** Where the scan returns early, the estimate is that reading's value. */
  lemma EstimateAtNear(rs: seq<Reading>, i: nat)
    requires i < |rs| && AllFar(rs[..i]) && IsNear(rs[i])
    ensures EstimateOf(rs) == Some(rs[i].value)
  {
    FirstNearAt(rs, i);
  }

  /** When the scan runs to the end, the estimate is the quotient of the accumulators, or
      `None` when the weights sum to zero. */
  lemma EstimateAllFar(rs: seq<Reading>)
    requires AllFar(rs)
    ensures EstimateOf(rs) ==
      if WeightSum(rs) == 0.0 then None else Some(WeightedValueSum(rs) / WeightSum(rs))
  {
    assert FirstNear(rs).None?;
  }

  /** One step of the scan: a far reading extends `denominator` by its weight `1 / d2` and
      `numerator` by its value times that weight. */
  lemma SumsStep(rs: seq<Reading>, i: nat, weight: real, term: real)
    requires i < |rs| && AllFar(rs[..i]) && !IsNear(rs[i])
    requires weight == 1.0 / rs[i].d2 && term == rs[i].value * weight
    ensures AllFar(rs[..i + 1])
    ensures WeightSum(rs[..i + 1]) == WeightSum(rs[..i]) + weight
    ensures WeightedValueSum(rs[..i + 1]) == WeightedValueSum(rs[..i]) + term
  {
    assert rs[..i + 1][..i] == rs[..i];
    assert forall j :: 0 <= j < i + 1 ==> rs[..i + 1][j] == rs[j];
    assert weight == Weight(rs[i]) && term == WeightedValue(rs[i]);
  }

  // ---------------------------------------------------------------------------------------
  // Properties of the accumulators

  /** Every weight is positive, so with at least one reading the weight sum is positive. */
  lemma {:induction false} WeightSumPositive(rs: seq<Reading>)
    requires AllFar(rs)
    ensures rs == [] ==> WeightSum(rs) == 0.0
    ensures rs != [] ==> WeightSum(rs) > 0.0
    decreases |rs|
  {
    if rs != [] {
      var init := rs[..|rs| - 1];
      assert AllFar(init) by {
        assert forall j :: 0 <= j < |init| ==> init[j] == rs[j];
      }
      WeightSumPositive(init);
    }
  }

  /** Sums `W` of weights and `N` of weighted values as values between `lo` and `hi` give:
      lo * W <= N <= hi * W. */
  predicate SumsWithin(lo: real, hi: real, W: real, N: real) {
    lo * W <= N <= hi * W
  }

  /** Bounds on the values bound the sums. */
  lemma {:induction false} SumsBounded(rs: seq<Reading>, lo: real, hi: real)
    requires AllFar(rs)
    requires forall i :: 0 <= i < |rs| ==> lo <= rs[i].value <= hi
    ensures SumsWithin(lo, hi, WeightSum(rs), WeightedValueSum(rs))
    decreases |rs|
  {
    if rs != [] {
      var init := rs[..|rs| - 1];
      var last := rs[|rs| - 1];
      assert forall j :: 0 <= j < |init| ==> init[j] == rs[j];
      SumsBounded(init, lo, hi);
      BoundStep(lo, hi, WeightSum(init), WeightedValueSum(init), Weight(last), last.value,
        WeightedValue(last), WeightSum(rs), WeightedValueSum(rs));
    } else {
      assert WeightSum(rs) == 0.0 && WeightedValueSum(rs) == 0.0;
    }
  }

  /** One accumulation step keeps the bounds: adding a term v * w with lo <= v <= hi and
      w > 0 to sums with lo * W <= N <= hi * W. */
  lemma BoundStep(lo: real, hi: real, W: real, N: real, w: real, v: real, t: real, W': real, N': real)
    requires SumsWithin(lo, hi, W, N)
    requires lo <= v <= hi && w > 0.0 && t == v * w
    requires W' == W + w && N' == N + t
    ensures SumsWithin(lo, hi, W', N')
  {
    assert lo * w <= v * w <= hi * w;
  }

  /** A quotient by a positive denominator keeps the bounds the numerator has. */
  lemma DivideBetween(lo: real, n: real, hi: real, d: real)
    requires d > 0.0 && lo * d <= n <= hi * d
    ensures lo <= n / d <= hi
  {
    var q := n / d;
    assert q * d == n;
    assert lo * d <= q * d <= hi * d;
  }

  /** Both sums distribute over concatenation. */
  lemma {:induction false} SumsAppend(a: seq<Reading>, b: seq<Reading>)
    requires AllFar(a + b)
    ensures AllFar(a) && AllFar(b)
    ensures WeightSum(a + b) == WeightSum(a) + WeightSum(b)
    ensures WeightedValueSum(a + b) == WeightedValueSum(a) + WeightedValueSum(b)
    decreases |b|
  {
    assert forall i :: 0 <= i < |a| ==> a[i] == (a + b)[i];
    assert forall i :: 0 <= i < |b| ==> b[i] == (a + b)[|a| + i];
    if b == [] {
      assert a + b == a;
    } else {
      var init := b[..|b| - 1];
      assert (a + b)[..|a + b| - 1] == a + init;
      SumsAppend(a, init);
    }
  }

  /** Every element of a permutation of far readings is far. */
  lemma AllFarPermutation(a: seq<Reading>, b: seq<Reading>)
    requires multiset(a) == multiset(b)
    requires AllFar(a)
    ensures AllFar(b)
  {
    forall j | 0 <= j < |b| ensures !IsNear(b[j]) {
      assert b[j] in multiset(a);
    }
  }

  /** Removing the last element of `a` and its matching occurrence in a permutation `b` of
      `a` leaves permutations of each other. */
  lemma PermutationRemoveLast<T>(a: seq<T>, b: seq<T>) returns (j: nat)
    requires multiset(a) == multiset(b) && a != []
    ensures j < |b| && b[j] == a[|a| - 1]
    ensures b == b[..j] + [b[j]] + b[j + 1..]
    ensures multiset(a[..|a| - 1]) == multiset(b[..j] + b[j + 1..])
  {
    var x := a[|a| - 1];
    var a' := a[..|a| - 1];
    assert a == a' + [x];
    assert x in multiset(b);
    j :| 0 <= j < |b| && b[j] == x;
    var pre, post := b[..j], b[j + 1..];
    assert b == pre + [x] + post;
    var b' := pre + post;
    assert multiset(b') == multiset(a') by {
      forall y ensures multiset(b')[y] == multiset(a')[y] {
        assert multiset(b)[y] == multiset(b')[y] + multiset([x])[y];
        assert multiset(a)[y] == multiset(a')[y] + multiset([x])[y];
      }
    }
  }

  /** Reordering the readings changes neither sum. */
  lemma {:induction false} SumsPermutation(a: seq<Reading>, b: seq<Reading>)
    requires multiset(a) == multiset(b)
    requires AllFar(a) && AllFar(b)
    ensures WeightSum(a) == WeightSum(b)
    ensures WeightedValueSum(a) == WeightedValueSum(b)
    decreases |a|
  {
    if a == [] {
      assert |b| == |multiset(b)| == 0;
    } else {
      var j := PermutationRemoveLast(a, b);
      var x, a' := a[|a| - 1], a[..|a| - 1];
      var pre, post := b[..j], b[j + 1..];
      assert a == a' + [x];
      SumsAppend(a', [x]);
      SumsAppend(pre + [x], post);
      SumsAppend(pre, [x]);
      SumsAppend(pre, post);
      SumsPermutation(a', pre + post);
    }
  }

  // ---------------------------------------------------------------------------------------
  // Properties of the estimate

  /** A coincident station short-circuits the estimate: the first one in list order wins,
      whatever the other stations hold. */
  lemma EstimateCoincident(lat: real, lon: real, ss: seq<Station>, k: nat)
    requires k < |ss| && Coincident(lat, lon, ss[k])
    requires forall j :: 0 <= j < k ==> !Coincident(lat, lon, ss[j])
    ensures Estimate(lat, lon, ss) == Some(ss[k].value)
  {
    var rs := ReadingsAt(lat, lon, ss);
    var f := FirstNear(rs);
    assert IsNear(rs[k]);
    assert !(f.value < k) && !(k < f.value);
  }

  /** Without a coincident station and with at least one station the estimate is the
      weighted mean sum(v_i / d_i^2) / sum(1 / d_i^2); the zero-denominator guard never fires. */
  lemma EstimateWeightedMean(lat: real, lon: real, ss: seq<Station>)
    requires ss != []
    requires forall i :: 0 <= i < |ss| ==> !Coincident(lat, lon, ss[i])
    ensures AllFar(ReadingsAt(lat, lon, ss))
    ensures WeightSum(ReadingsAt(lat, lon, ss)) > 0.0
    ensures Estimate(lat, lon, ss)
      == Some(WeightedValueSum(ReadingsAt(lat, lon, ss)) / WeightSum(ReadingsAt(lat, lon, ss)))
  {
    var rs := ReadingsAt(lat, lon, ss);
    assert forall i :: 0 <= i < |rs| ==> !IsNear(rs[i]) by {
      forall i | 0 <= i < |rs| ensures !IsNear(rs[i]) {
        assert !Coincident(lat, lon, ss[i]);
      }
    }
    WeightSumPositive(rs);
  }

  /** The estimate is `None` exactly when there are no stations: with at least one station
      every weight is positive, so the zero-denominator guard never fires. */
  lemma EstimateNoneIffEmpty(lat: real, lon: real, ss: seq<Station>)
    ensures Estimate(lat, lon, ss).None? <==> ss == []
  {
    var rs := ReadingsAt(lat, lon, ss);
    if FirstNear(rs).None? {
      WeightSumPositive(rs);
    }
  }

  /** With a single station the weights cancel: the estimate is that station's value,
      whatever its distance. */
  lemma EstimateSingleStation(lat: real, lon: real, s: Station)
    ensures Estimate(lat, lon, [s]) == Some(s.value)
  {
    var rs := ReadingsAt(lat, lon, [s]);
    var r := rs[0];
    if !IsNear(r) {
      var w := Weight(r);
      assert rs == [r] && rs[..0] == [];
      assert WeightSum(rs) == w;
      assert WeightedValueSum(rs) == s.value * w;
      assert s.value * w / w == s.value;
    }
  }

  /** The smallest station value. */
  function MinValue(ss: seq<Station>): (m: real)
    requires ss != []
    ensures exists i :: 0 <= i < |ss| && ss[i].value == m
    ensures forall i :: 0 <= i < |ss| ==> m <= ss[i].value
  {
    if |ss| == 1 then ss[0].value
    else
      var rest := MinValue(ss[1..]);
      assert forall i :: 1 <= i < |ss| ==> ss[i] == ss[1..][i - 1];
      if ss[0].value <= rest then ss[0].value else rest
  }

  /** The largest station value. */
  function MaxValue(ss: seq<Station>): (m: real)
    requires ss != []
    ensures exists i :: 0 <= i < |ss| && ss[i].value == m
    ensures forall i :: 0 <= i < |ss| ==> ss[i].value <= m
  {
    if |ss| == 1 then ss[0].value
    else
      var rest := MaxValue(ss[1..]);
      assert forall i :: 1 <= i < |ss| ==> ss[i] == ss[1..][i - 1];
      if ss[0].value >= rest then ss[0].value else rest
  }

  /** Without a coincident station the estimate lies between the smallest and the largest
      station value. */
  lemma EstimateBetweenMinMax(lat: real, lon: real, ss: seq<Station>)
    requires ss != []
    requires forall i :: 0 <= i < |ss| ==> !Coincident(lat, lon, ss[i])
    ensures Estimate(lat, lon, ss).Some?
    ensures MinValue(ss) <= Estimate(lat, lon, ss).value <= MaxValue(ss)
  {
    var rs := ReadingsAt(lat, lon, ss);
    assert AllFar(rs) by {
      forall i | 0 <= i < |rs| ensures !IsNear(rs[i]) {
        assert !Coincident(lat, lon, ss[i]);
      }
    }
    var lo, hi := MinValue(ss), MaxValue(ss);
    assert forall i :: 0 <= i < |rs| ==> rs[i].value == ss[i].value;
    EstimateOfBetween(rs, lo, hi);
  }

  /** Without a coincident reading the estimate lies between any bounds of the values. */
  lemma EstimateOfBetween(rs: seq<Reading>, lo: real, hi: real)
    requires rs != [] && AllFar(rs)
    requires forall i :: 0 <= i < |rs| ==> lo <= rs[i].value <= hi
    ensures EstimateOf(rs).Some?
    ensures lo <= EstimateOf(rs).value <= hi
  {
    WeightSumPositive(rs);
    SumsBounded(rs, lo, hi);
    DivideBetween(lo, WeightedValueSum(rs), hi, WeightSum(rs));
  }

  /** Readings distribute over concatenation of station lists. */
  lemma ReadingsAppend(lat: real, lon: real, a: seq<Station>, b: seq<Station>)
    ensures ReadingsAt(lat, lon, a + b) == ReadingsAt(lat, lon, a) + ReadingsAt(lat, lon, b)
  {
  }

  /** Seeing a permutation of the stations gives a permutation of the readings. */
  lemma {:induction false} ReadingsPermutation(lat: real, lon: real, a: seq<Station>, b: seq<Station>)
    requires multiset(a) == multiset(b)
    ensures multiset(ReadingsAt(lat, lon, a)) == multiset(ReadingsAt(lat, lon, b))
    decreases |a|
  {
    if a == [] {
      assert |b| == |multiset(b)| == 0;
    } else {
      var j := PermutationRemoveLast(a, b);
      var x, a' := a[|a| - 1], a[..|a| - 1];
      var pre, post := b[..j], b[j + 1..];
      ReadingsPermutation(lat, lon, a', pre + post);
      assert a == a' + [x];
      ReadingsAppend(lat, lon, a', [x]);
      ReadingsAppend(lat, lon, pre + [x], post);
      ReadingsAppend(lat, lon, pre, [x]);
      ReadingsAppend(lat, lon, pre, post);
    }
  }

  /** When no station is within the threshold, the order of the stations does not matter. */
  lemma EstimatePermutation(lat: real, lon: real, a: seq<Station>, b: seq<Station>)
    requires multiset(a) == multiset(b)
    requires forall i :: 0 <= i < |a| ==> !Coincident(lat, lon, a[i])
    ensures Estimate(lat, lon, a) == Estimate(lat, lon, b)
  {
    var ra, rb := ReadingsAt(lat, lon, a), ReadingsAt(lat, lon, b);
    assert AllFar(ra) by {
      forall i | 0 <= i < |ra| ensures !IsNear(ra[i]) {
        assert !Coincident(lat, lon, a[i]);
      }
    }
    ReadingsPermutation(lat, lon, a, b);
    AllFarPermutation(ra, rb);
    SumsPermutation(ra, rb);
  }

  /** With two coincident stations the order does matter: the first one wins. */
  lemma CoincidentOrderMatters()
    ensures var s1 := Station(45.4483, 12.3246, 0.5);
      var s2 := Station(45.4483, 12.3246, 0.8);
      Estimate(45.4483, 12.3246, [s1, s2]) == Some(0.5)
      && Estimate(45.4483, 12.3246, [s2, s1]) == Some(0.8)
  {
    var s1 := Station(45.4483, 12.3246, 0.5);
    var s2 := Station(45.4483, 12.3246, 0.8);
    EstimateCoincident(45.4483, 12.3246, [s1, s2], 0);
    EstimateCoincident(45.4483, 12.3246, [s2, s1], 0);
  }

  /** A station sitting on the zone centroid passes its value through. */
  lemma ScenarioCoincidentStation()
    ensures Estimate(45.4483, 12.3246, [Station(45.4483, 12.3246, 0.62)]) == Some(0.62)
  {
    EstimateCoincident(45.4483, 12.3246, [Station(45.4483, 12.3246, 0.62)], 0);
  }

  /** Two stations near zone 2: the squared distances are 0.000018 and 0.00029, and the
      weighted mean is exactly 797/1540 (about 0.5175). */
  lemma ScenarioTwoStations()
    ensures Estimate(45.4442, 12.3294, [Station(45.44, 12.33, 0.5), Station(45.43, 12.32, 0.8)])
      == Some(797.0 / 1540.0)
  {
    var lat, lon := 45.4442, 12.3294;
    var s1, s2 := Station(45.44, 12.33, 0.5), Station(45.43, 12.32, 0.8);
    var rs := ReadingsAt(lat, lon, [s1, s2]);
    var r1, r2 := Reading(0.000018, 0.5), Reading(0.00029, 0.8);
    assert SqDist(lat, lon, s1) == 0.000018;
    assert SqDist(lat, lon, s2) == 0.00029;
    assert rs == [r1, r2];
    assert rs[..1] == [r1] && [r1][..0] == [];
    var w1, w2 := 1.0 / 0.000018, 1.0 / 0.00029;
    assert WeightSum([r1]) == w1;
    assert WeightSum(rs) == w1 + w2;
    assert WeightedValueSum([r1]) == 0.5 * w1;
    assert WeightedValueSum(rs) == 0.5 * w1 + 0.8 * w2;
    assert (0.5 * w1 + 0.8 * w2) / (w1 + w2) == 797.0 / 1540.0;
  }
}
