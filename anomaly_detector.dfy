/**
 * `detectAnomalies` (src/utils/dataProcessing.ts): project two columns of the
 * parsed rows, keep the rows whose date and value both parse, stable-sort
 * them by timestamp, and flag every point whose z-score against the
 * population mean and standard deviation exceeds the threshold in absolute
 * value, as a spike above the mean or a dip below it.
 */
module AnomalyDetector {
  import opened Wrappers
  import opened Numbers
  import opened Sequences
  import opened Statistics
  import CsvParser

  datatype AnomalyType = Spike | Dip

  /** A row that parsed: `date.getTime()` in milliseconds and the `parseFloat` of the value cell. */
  datatype Observation = Observation(date: int, value: real)

  /** An output point: the observation with its flag, its type (`None` for no type) and its z-score. */
  datatype DataPoint = DataPoint(date: int, value: real, isAnomaly: bool,
                                 anomalyType: Option<AnomalyType>, zScore: Number)

  /**
   * The host library: `new Date(s).getTime()` (`None` for an invalid date),
   * `parseFloat(s)` (`None` for `NaN`) and `Math.sqrt`.
   */
  datatype Host = Host(parseDate: string -> Option<int>,
                       parseNumber: string -> Option<real>,
                       sqrt: real -> real)

  /** `row[column]`: `undefined` when the row has no such key or no cell for it. */
  function Lookup(row: CsvParser.Row, column: string): (cell: Option<string>)
    ensures cell.Some? <==> column in row && row[column].Some?
  {
    if column in row then row[column] else None
  }

  /**
   * The `map` and `filter` steps for one row. `new Date(undefined)` is an
   * invalid date and `parseFloat(undefined)` is `NaN`, so a missing cell
   * drops the row.
   */
  function Project(row: CsvParser.Row, dateColumn: string, valueColumn: string, host: Host): (r: Option<Observation>)
    ensures r.Some? <==> && Lookup(row, dateColumn).Some? && Lookup(row, valueColumn).Some?
                         && host.parseDate(Lookup(row, dateColumn).value).Some?
                         && host.parseNumber(Lookup(row, valueColumn).value).Some?
    ensures r.Some? ==> && Some(r.value.date) == host.parseDate(Lookup(row, dateColumn).value)
                        && Some(r.value.value) == host.parseNumber(Lookup(row, valueColumn).value)
  {
    match (Lookup(row, dateColumn), Lookup(row, valueColumn))
    case (Some(d), Some(v)) =>
      (match (host.parseDate(d), host.parseNumber(v))
       case (Some(t), Some(x)) => Some(Observation(t, x))
       case _ => None)
    case _ => None
  }

  /** The rows that survive the `filter`, projected, in input order. */
  function Survivors(rows: seq<CsvParser.Row>, dateColumn: string, valueColumn: string, host: Host): (obs: seq<Observation>)
    ensures |obs| <= |rows|
  {
    if |rows| == 0 then []
    else
      var rest := Survivors(rows[1..], dateColumn, valueColumn, host);
      match Project(rows[0], dateColumn, valueColumn, host)
      case Some(o) => [o] + rest
      case None => rest
  }

  /** The sort key: the comparator subtracts timestamps. */
  function DateKey(o: Observation): real {
    o.date as real
  }

  /** `parsedData`: the survivors stably sorted by timestamp. */
  function ParsedData(rows: seq<CsvParser.Row>, dateColumn: string, valueColumn: string, host: Host): (obs: seq<Observation>)
    ensures SortedBy(obs, DateKey)
    ensures multiset(obs) == multiset(Survivors(rows, dateColumn, valueColumn, host))
  {
    SortBy(Survivors(rows, dateColumn, valueColumn, host), DateKey)
  }

  /** The value of each observation, in order. */
  function Values(obs: seq<Observation>): (vs: seq<real>)
    ensures |vs| == |obs|
  {
    seq(|obs|, i requires 0 <= i < |obs| => obs[i].value)
  }

  /** `Math.sqrt(variance)`. */
  function StdDev(obs: seq<Observation>, sqrt: real -> real): real
    requires |obs| > 0
  {
    sqrt(Variance(Values(obs)))
  }

  /** The z-score of one point and the classification that follows from it. */
  function Classify(o: Observation, mean: real, stdDev: real, threshold: real): (p: DataPoint)
    ensures p.date == o.date && p.value == o.value
    ensures p.zScore == Divide(o.value - mean, stdDev)
    ensures p.isAnomaly <==> GreaterThan(Abs(p.zScore), threshold)
    ensures p.isAnomaly <==> p.anomalyType.Some?
    ensures p.anomalyType == Some(Spike) <==> p.isAnomaly && GreaterThan(p.zScore, 0.0)
    ensures p.anomalyType == Some(Dip) <==> p.isAnomaly && !GreaterThan(p.zScore, 0.0)
  {
    var z := Divide(o.value - mean, stdDev);
    var isAnomaly := GreaterThan(Abs(z), threshold);
    DataPoint(o.date, o.value, isAnomaly,
              if isAnomaly then Some(if GreaterThan(z, 0.0) then Spike else Dip) else None,
              z)
  }

  /** The statistics and the final `map` over the sorted observations. */
  function Detect(obs: seq<Observation>, threshold: real, sqrt: real -> real): (points: seq<DataPoint>)
    ensures |points| == |obs|
  {
    if |obs| == 0 then []
    else
      var mean := Mean(Values(obs));
      var stdDev := StdDev(obs, sqrt);
      seq(|obs|, i requires 0 <= i < |obs| => Classify(obs[i], mean, stdDev, threshold))
  }

  /** `detectAnomalies`: project, filter and sort the rows, then classify every point. */
  function DetectAnomalies(rows: seq<CsvParser.Row>, dateColumn: string, valueColumn: string,
                           threshold: real, host: Host): (points: seq<DataPoint>)
    ensures |points| == |ParsedData(rows, dateColumn, valueColumn, host)| <= |rows|
  {
    Detect(ParsedData(rows, dateColumn, valueColumn, host), threshold, host.sqrt)
  }

  /** The date and value of each point. */
  function Observations(points: seq<DataPoint>): (obs: seq<Observation>)
    ensures |obs| == |points|
  {
    seq(|points|, i requires 0 <= i < |points| => Observation(points[i].date, points[i].value))
  }

  predicate IsAnomaly(p: DataPoint) {
    p.isAnomaly
  }

  // --- Which rows survive ----------------------------------------------------

  lemma {:induction false} SurvivorsAppend(a: seq<CsvParser.Row>, b: seq<CsvParser.Row>,
                                           dateColumn: string, valueColumn: string, host: Host)
    ensures Survivors(a + b, dateColumn, valueColumn, host)
         == Survivors(a, dateColumn, valueColumn, host) + Survivors(b, dateColumn, valueColumn, host)
  {
    if |a| > 0 {
      assert (a + b)[1..] == a[1..] + b;
      SurvivorsAppend(a[1..], b, dateColumn, valueColumn, host);
    } else {
      assert a + b == b;
    }
  }

  /** An observation survives exactly when some row projects to it. */
  lemma {:induction false} SurvivorsMembers(rows: seq<CsvParser.Row>, dateColumn: string, valueColumn: string,
                                            host: Host, o: Observation)
    ensures o in Survivors(rows, dateColumn, valueColumn, host)
        <==> exists i :: 0 <= i < |rows| && Project(rows[i], dateColumn, valueColumn, host) == Some(o)
  {
    if |rows| > 0 {
      SurvivorsMembers(rows[1..], dateColumn, valueColumn, host, o);
      if exists i :: 0 <= i < |rows| && Project(rows[i], dateColumn, valueColumn, host) == Some(o) {
        var i :| 0 <= i < |rows| && Project(rows[i], dateColumn, valueColumn, host) == Some(o);
        if i > 0 {
          assert rows[1..][i - 1] == rows[i];
        }
      }
      if o in Survivors(rows[1..], dateColumn, valueColumn, host) {
        var i :| 0 <= i < |rows[1..]| && Project(rows[1..][i], dateColumn, valueColumn, host) == Some(o);
        assert rows[i + 1] == rows[1..][i];
      }
    }
  }

  /** One survivor per row whose two cells parse. */
  lemma {:induction false} SurvivorsCount(rows: seq<CsvParser.Row>, dateColumn: string, valueColumn: string, host: Host)
    ensures |Survivors(rows, dateColumn, valueColumn, host)|
         == Count(rows, (r: CsvParser.Row) => Project(r, dateColumn, valueColumn, host).Some?)
  {
    if |rows| > 0 {
      SurvivorsCount(rows[1..], dateColumn, valueColumn, host);
    }
  }

  // --- Order -----------------------------------------------------------------

  /**
   * The parsed data is sorted by timestamp, holds exactly the survivors, and
   * points with equal timestamps keep their input order.
   */
  lemma ParsedDataIsStableSort(rows: seq<CsvParser.Row>, dateColumn: string, valueColumn: string, host: Host)
    ensures SortedBy(ParsedData(rows, dateColumn, valueColumn, host), DateKey)
    ensures multiset(ParsedData(rows, dateColumn, valueColumn, host))
         == multiset(Survivors(rows, dateColumn, valueColumn, host))
    ensures forall k :: WithKey(ParsedData(rows, dateColumn, valueColumn, host), DateKey, k)
                     == WithKey(Survivors(rows, dateColumn, valueColumn, host), DateKey, k)
  {
    forall k ensures WithKey(ParsedData(rows, dateColumn, valueColumn, host), DateKey, k)
                  == WithKey(Survivors(rows, dateColumn, valueColumn, host), DateKey, k) {
      SortByStable(Survivors(rows, dateColumn, valueColumn, host), DateKey, k);
    }
  }

  /** Rows already in timestamp order come out in their input order. */
  lemma SortedInputKeepsOrder(rows: seq<CsvParser.Row>, dateColumn: string, valueColumn: string, host: Host)
    requires SortedBy(Survivors(rows, dateColumn, valueColumn, host), DateKey)
    ensures ParsedData(rows, dateColumn, valueColumn, host) == Survivors(rows, dateColumn, valueColumn, host)
  {
    SortBySortedIsIdentity(Survivors(rows, dateColumn, valueColumn, host), DateKey);
  }

  /** Every point keeps the date and value of the observation it came from, in the same position. */
  lemma DetectKeepsObservations(obs: seq<Observation>, threshold: real, sqrt: real -> real)
    ensures Observations(Detect(obs, threshold, sqrt)) == obs
  {
  }

  /** The detector's output is ordered by non-decreasing timestamp. */
  lemma OutputSortedByDate(rows: seq<CsvParser.Row>, dateColumn: string, valueColumn: string,
                           threshold: real, host: Host)
    ensures forall i, j :: 0 <= i < j < |DetectAnomalies(rows, dateColumn, valueColumn, threshold, host)| ==>
              DetectAnomalies(rows, dateColumn, valueColumn, threshold, host)[i].date
                <= DetectAnomalies(rows, dateColumn, valueColumn, threshold, host)[j].date
  {
    var parsed := ParsedData(rows, dateColumn, valueColumn, host);
    ParsedDataIsStableSort(rows, dateColumn, valueColumn, host);
    DetectKeepsObservations(parsed, threshold, host.sqrt);
    var points := Detect(parsed, threshold, host.sqrt);
    forall i, j | 0 <= i < j < |points| ensures points[i].date <= points[j].date {
      assert Observations(points)[i] == parsed[i];
      assert Observations(points)[j] == parsed[j];
    }
  }

  /** No row with both cells valid gives an empty result, and only then. */
  lemma NoValidRowsNoPoints(rows: seq<CsvParser.Row>, dateColumn: string, valueColumn: string,
                            threshold: real, host: Host)
    ensures DetectAnomalies(rows, dateColumn, valueColumn, threshold, host) == []
        <==> forall i :: 0 <= i < |rows| ==> Project(rows[i], dateColumn, valueColumn, host).None?
  {
    var survivors := Survivors(rows, dateColumn, valueColumn, host);
    if survivors != [] {
      SurvivorsMembers(rows, dateColumn, valueColumn, host, survivors[0]);
    }
    forall i | 0 <= i < |rows| && Project(rows[i], dateColumn, valueColumn, host).Some?
      ensures survivors != []
    {
      SurvivorsMembers(rows, dateColumn, valueColumn, host, Project(rows[i], dateColumn, valueColumn, host).value);
    }
  }

  // --- Classification --------------------------------------------------------

  /**
   * With a non-negative standard deviation, a spike is an anomaly above the
   * mean and a dip an anomaly at or below it.
   */
  lemma ClassifyDirection(o: Observation, mean: real, stdDev: real, threshold: real)
    requires stdDev >= 0.0
    ensures Classify(o, mean, stdDev, threshold).anomalyType == Some(Spike)
        <==> Classify(o, mean, stdDev, threshold).isAnomaly && o.value > mean
    ensures Classify(o, mean, stdDev, threshold).anomalyType == Some(Dip)
        <==> Classify(o, mean, stdDev, threshold).isAnomaly && o.value <= mean
  {
    DividePositive(o.value - mean, stdDev);
  }

  /**
   * For a positive standard deviation and a non-negative threshold, the
   * z-score test is the squared comparison `(v - mean)^2 > t^2 * variance`.
   */
  lemma ClassifySquared(o: Observation, mean: real, stdDev: real, variance: real, threshold: real)
    requires stdDev > 0.0 && Square(stdDev) == variance && threshold >= 0.0
    ensures Classify(o, mean, stdDev, threshold).isAnomaly
        <==> Square(o.value - mean) > Square(threshold) * variance
  {
    var d := o.value - mean;
    var a := if d < 0.0 then -d else d;
    assert Abs(Divide(d, stdDev)) == Finite(a / stdDev);
    QuotientExceeds(a, stdDev, threshold);
    SquareMonotone(a, threshold * stdDev);
    SquareOfProduct(threshold, stdDev);
    SquareOfNegation(d);
  }

  /** A higher threshold never flags a point that a lower one does not. */
  lemma ThresholdMonotone(o: Observation, mean: real, stdDev: real, low: real, high: real)
    requires low <= high
    ensures Classify(o, mean, stdDev, high).isAnomaly ==> Classify(o, mean, stdDev, low).isAnomaly
  {
  }

  /** Raising the threshold of the whole detector only removes anomalies. */
  lemma DetectThresholdMonotone(obs: seq<Observation>, low: real, high: real, sqrt: real -> real)
    requires low <= high
    ensures forall i :: 0 <= i < |obs| && Detect(obs, high, sqrt)[i].isAnomaly ==> Detect(obs, low, sqrt)[i].isAnomaly
    ensures Count(Detect(obs, high, sqrt), IsAnomaly) <= Count(Detect(obs, low, sqrt), IsAnomaly)
  {
    if |obs| > 0 {
      var mean := Mean(Values(obs));
      var stdDev := StdDev(obs, sqrt);
      forall i | 0 <= i < |obs| ensures Detect(obs, high, sqrt)[i].isAnomaly ==> Detect(obs, low, sqrt)[i].isAnomaly {
        ThresholdMonotone(obs[i], mean, stdDev, low, high);
      }
    }
    CountPointwise(Detect(obs, high, sqrt), Detect(obs, low, sqrt), IsAnomaly);
  }

  /**
   * A series whose values are all equal flags nothing, whatever `Math.sqrt`
   * returns for a zero variance: `0 / 0` is `NaN`, and `0 / s` is zero.
   */
  lemma ConstantSeriesFlagsNothing(obs: seq<Observation>, threshold: real, sqrt: real -> real)
    requires forall i :: 0 <= i < |obs| ==> obs[i].value == obs[0].value
    requires threshold >= 0.0
    ensures forall i :: 0 <= i < |obs| ==> !Detect(obs, threshold, sqrt)[i].isAnomaly
  {
    if |obs| > 0 {
      var vs := Values(obs);
      ConstantMean(vs);
      forall i | 0 <= i < |obs| ensures !Detect(obs, threshold, sqrt)[i].isAnomaly {
        assert obs[i].value - Mean(vs) == 0.0;
      }
    }
  }

  /**
   * Samuelson's bound applied to the detector: with an exact square root and
   * `t^2 >= N - 1`, no point of an `N`-point series can be flagged.
   */
  lemma FewPointsFlagNothing(obs: seq<Observation>, threshold: real, sqrt: real -> real)
    requires |obs| > 0
    requires StdDev(obs, sqrt) >= 0.0 && Square(StdDev(obs, sqrt)) == Variance(Values(obs))
    requires threshold >= 0.0 && |obs| as real - 1.0 <= Square(threshold)
    ensures forall i :: 0 <= i < |obs| ==> !Detect(obs, threshold, sqrt)[i].isAnomaly
  {
    var vs := Values(obs);
    var mean, stdDev, variance := Mean(vs), StdDev(obs, sqrt), Variance(vs);
    forall i | 0 <= i < |obs| ensures !Detect(obs, threshold, sqrt)[i].isAnomaly {
      assert Detect(obs, threshold, sqrt)[i] == Classify(obs[i], mean, stdDev, threshold);
      if stdDev > 0.0 {
        ClassifySquared(obs[i], mean, stdDev, variance, threshold);
        Samuelson(vs, i);
        VarianceNonNegative(vs);
        ProductAtMostNonNegative(|obs| as real - 1.0, Square(threshold), variance);
      } else {
        SquareSign(stdDev);
        VarianceZeroIffConstant(vs);
        assert obs[i].value - mean == 0.0;
      }
    }
  }

  lemma ProductAtMostNonNegative(x: real, y: real, v: real)
    requires x <= y && v >= 0.0
    ensures x * v <= y * v
  {
    if v > 0.0 {
      ProductAtMost(x, y, v);
    }
  }

  /** At the page's default threshold of 2.5, a series of at most seven points never has an anomaly. */
  lemma DefaultThresholdNeedsEightPoints(obs: seq<Observation>, threshold: real, sqrt: real -> real)
    requires 0 < |obs| <= 7
    requires StdDev(obs, sqrt) >= 0.0 && Square(StdDev(obs, sqrt)) == Variance(Values(obs))
    requires threshold >= 2.5
    ensures forall i :: 0 <= i < |obs| ==> !Detect(obs, threshold, sqrt)[i].isAnomaly
  {
    SquareMonotone(threshold, 2.5);
    FewPointsFlagNothing(obs, threshold, sqrt);
  }

  /**
   * Four daily readings 100, 102, 98, 500: the mean is 200 and the population
   * variance 30002, so the last point's z-score is `300 / sqrt(30002)`, about
   * 1.73, and nothing is flagged at the default threshold.
   */
  lemma FourDailyReadings(sqrt: real -> real)
    requires sqrt(30002.0) >= 0.0 && Square(sqrt(30002.0)) == 30002.0
    ensures var obs := [Observation(1672531200000, 100.0), Observation(1672617600000, 102.0),
                        Observation(1672704000000, 98.0), Observation(1672790400000, 500.0)];
            Mean(Values(obs)) == 200.0 && Variance(Values(obs)) == 30002.0
            && forall i :: 0 <= i < |obs| ==> !Detect(obs, 2.5, sqrt)[i].isAnomaly
  {
    var obs := [Observation(1672531200000, 100.0), Observation(1672617600000, 102.0),
                Observation(1672704000000, 98.0), Observation(1672790400000, 500.0)];
    var vs := Values(obs);
    assert vs == [100.0, 102.0, 98.0, 500.0];
    SumOfFour(100.0, 102.0, 98.0, 500.0);
    var ds := Deviations(vs, 200.0);
    assert ds == [-100.0, -98.0, -102.0, 300.0];
    assert Squares(ds) == [10000.0, 9604.0, 10404.0, 90000.0];
    SumOfFour(10000.0, 9604.0, 10404.0, 90000.0);
    DefaultThresholdNeedsEightPoints(obs, 2.5, sqrt);
  }

  lemma SumOfFour(a: real, b: real, c: real, d: real)
    ensures Sum([a, b, c, d]) == a + b + c + d
  {
    assert [a][..0] == [];
    assert Sum([a]) == a;
    assert [a, b][..1] == [a];
    assert Sum([a, b]) == a + b;
    assert [a, b, c][..2] == [a, b];
    assert Sum([a, b, c]) == a + b + c;
    assert [a, b, c, d][..3] == [a, b, c];
  }
}
