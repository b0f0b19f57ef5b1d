/**
 * The page state of `Index` (src/pages/Index.tsx) and what it derives from
 * it: the upload handler that stores the parsed rows and their column names,
 * the guarded processing step, the reset button, and the anomaly, spike and
 * dip lists handed to the summary.
 */
module IndexPage {
  import opened Wrappers
  import opened Numbers
  import opened Sequences
  import CsvParser
  import opened AnomalyDetector

  // --- Column names ----------------------------------------------------------

  /** The first occurrence of each name, in order. */
  function Distinct(s: seq<string>): (d: seq<string>)
    ensures |d| <= |s|
  {
    if |s| == 0 then []
    else
      var front := Distinct(s[..|s| - 1]);
      if s[|s| - 1] in front then front else front + [s[|s| - 1]]
  }

  lemma {:induction false} DistinctSpec(s: seq<string>)
    ensures forall x :: x in Distinct(s) <==> x in s
    ensures forall i, j :: 0 <= i < j < |Distinct(s)| ==> Distinct(s)[i] != Distinct(s)[j]
  {
    if |s| > 0 {
      var front := s[..|s| - 1];
      DistinctSpec(front);
      assert s == front + [s[|s| - 1]];
    }
  }

  /** A sequence without repeated names is its own Distinct. */
  lemma {:induction false} DistinctOfDistinct(s: seq<string>)
    requires forall i, j :: 0 <= i < j < |s| ==> s[i] != s[j]
    ensures Distinct(s) == s
  {
    if |s| > 0 {
      var front := s[..|s| - 1];
      DistinctOfDistinct(front);
      DistinctSpec(front);
    }
  }

  /**
   * The keys of the first data row: none without a data row; otherwise the
   * first row's keys in insertion order, which is the order in which the
   * header names other than `__proto__` first occur.
   */
  function ColumnsOf(t: CsvParser.Table): seq<string>
  {
    if |t.rows| == 0 then [] else Distinct(Filter(t.headers, CsvParser.IsOwnKey))
  }

  /**
   * The columns are exactly the first row's keys, each listed once; there
   * are none exactly when there is no data row or the first row has no key.
   */
  lemma ColumnsAreFirstRowKeys(text: string)
    requires CsvParser.ParseCsv(text).Some?
    ensures var t := CsvParser.ParseCsv(text).value;
            && (|ColumnsOf(t)| == 0 <==> |t.rows| == 0 || t.rows[0].Keys == {})
            && (|t.rows| > 0 ==> forall c :: c in ColumnsOf(t) <==> c in t.rows[0])
            && forall i, j :: 0 <= i < j < |ColumnsOf(t)| ==> ColumnsOf(t)[i] != ColumnsOf(t)[j]
  {
    var t := CsvParser.ParseCsv(text).value;
    CsvParser.ParsedRows(text);
    if |t.rows| > 0 {
      assert CsvParser.RowFits(t.headers, CsvParser.Fields(CsvParser.ContentLines(text)[1]), t.rows[0]);
    }
    ColumnsOfKeys(t);
  }

  lemma ColumnsOfKeys(t: CsvParser.Table)
    requires |t.rows| > 0 ==> t.rows[0].Keys == CsvParser.HeaderSet(t.headers)
    ensures |ColumnsOf(t)| == 0 <==> |t.rows| == 0 || t.rows[0].Keys == {}
    ensures |t.rows| > 0 ==> forall c :: c in ColumnsOf(t) <==> c in t.rows[0]
    ensures forall i, j :: 0 <= i < j < |ColumnsOf(t)| ==> ColumnsOf(t)[i] != ColumnsOf(t)[j]
  {
    var own := Filter(t.headers, CsvParser.IsOwnKey);
    DistinctSpec(own);
    FilterMembers(t.headers, CsvParser.IsOwnKey);
    forall c ensures c in own <==> c in t.headers && CsvParser.IsOwnKey(c) {
      if c in own {
        var i :| 0 <= i < |own| && own[i] == c;
      }
      if c in t.headers && CsvParser.IsOwnKey(c) {
        var i :| 0 <= i < |t.headers| && t.headers[i] == c;
      }
    }
    if |t.rows| > 0 {
      if |ColumnsOf(t)| > 0 {
        assert ColumnsOf(t)[0] in t.rows[0].Keys;
      }
      if t.rows[0].Keys != {} {
        var k :| k in t.rows[0].Keys;
        assert k in ColumnsOf(t);
      }
    }
  }

  // --- Derived lists ---------------------------------------------------------

  /**
   * What the detector guarantees of each point and the page relies on: a
   * point is typed exactly when it is an anomaly, and an anomaly has a
   * z-score that is not `NaN`.
   */
  ghost predicate WellTyped(points: seq<DataPoint>) {
    forall i :: 0 <= i < |points| ==>
      && (points[i].isAnomaly <==> points[i].anomalyType.Some?)
      && (points[i].isAnomaly ==> !points[i].zScore.NaN?)
  }

  lemma DetectorOutputWellTyped(rows: seq<CsvParser.Row>, dateColumn: string, valueColumn: string,
                                threshold: real, host: Host)
    ensures WellTyped(DetectAnomalies(rows, dateColumn, valueColumn, threshold, host))
  {
    var parsed := ParsedData(rows, dateColumn, valueColumn, host);
    var points := DetectAnomalies(rows, dateColumn, valueColumn, threshold, host);
    if |parsed| > 0 {
      forall i | 0 <= i < |points| ensures points[i].isAnomaly ==> !points[i].zScore.NaN? {
        assert points[i] == Classify(parsed[i], Statistics.Mean(Values(parsed)), StdDev(parsed, host.sqrt), threshold);
      }
    }
  }

  predicate IsSpike(p: DataPoint) {
    p.anomalyType == Some(Spike)
  }

  predicate IsDip(p: DataPoint) {
    p.anomalyType == Some(Dip)
  }

  function PointDate(p: DataPoint): real {
    p.date as real
  }

  /** `b.zScore - a.zScore`: largest z-score first. */
  function SpikeKey(p: DataPoint): real {
    -Rank(p.zScore)
  }

  /** `a.zScore - b.zScore`: smallest z-score first. */
  function DipKey(p: DataPoint): real {
    Rank(p.zScore)
  }

  /** The flagged points, in the order of the series. */
  function Anomalies(points: seq<DataPoint>): seq<DataPoint> {
    Filter(points, IsAnomaly)
  }

  /** The anomalies typed as spikes, largest z-score first. */
  function Spikes(points: seq<DataPoint>): seq<DataPoint> {
    SortBy(Filter(Anomalies(points), IsSpike), SpikeKey)
  }

  /** The anomalies typed as dips, smallest z-score first. */
  function Dips(points: seq<DataPoint>): seq<DataPoint> {
    SortBy(Filter(Anomalies(points), IsDip), DipKey)
  }

  /** `s.slice(0, 2)`. */
  function TopTwo(s: seq<DataPoint>): (top: seq<DataPoint>)
    ensures |top| == if |s| < 2 then |s| else 2
    ensures top <= s
  {
    if |s| < 2 then s else s[..2]
  }

  /** The number of anomalies shown is the number of flagged points. */
  lemma AnomalyCount(points: seq<DataPoint>)
    ensures |Anomalies(points)| == Count(points, IsAnomaly)
  {
    CountIsFilterLength(points, IsAnomaly);
  }

  /** The anomalies are exactly the flagged points, in the order of the series. */
  lemma AnomaliesSpec(points: seq<DataPoint>)
    ensures forall p :: p in Anomalies(points) <==> p in points && p.isAnomaly
    ensures SortedBy(points, PointDate) ==> SortedBy(Anomalies(points), PointDate)
  {
    FilterMembers(points, IsAnomaly);
    if SortedBy(points, PointDate) {
      FilterKeepsSorted(points, IsAnomaly, PointDate);
    }
  }

  /** The detector's anomalies come in timestamp order. */
  lemma DetectorAnomaliesInDateOrder(rows: seq<CsvParser.Row>, dateColumn: string, valueColumn: string,
                                     threshold: real, host: Host)
    ensures SortedBy(Anomalies(DetectAnomalies(rows, dateColumn, valueColumn, threshold, host)), PointDate)
  {
    OutputSortedByDate(rows, dateColumn, valueColumn, threshold, host);
    AnomaliesSpec(DetectAnomalies(rows, dateColumn, valueColumn, threshold, host));
  }

  /** The spikes are exactly the anomalies typed as spikes. */
  lemma SpikesMembers(points: seq<DataPoint>)
    ensures forall p :: p in Spikes(points) <==> p in points && p.isAnomaly && IsSpike(p)
  {
    AnomaliesSpec(points);
    FilterMembers(Anomalies(points), IsSpike);
    SortByMembers(Filter(Anomalies(points), IsSpike), SpikeKey);
  }

  /** The dips are exactly the anomalies typed as dips. */
  lemma DipsMembers(points: seq<DataPoint>)
    ensures forall p :: p in Dips(points) <==> p in points && p.isAnomaly && IsDip(p)
  {
    AnomaliesSpec(points);
    FilterMembers(Anomalies(points), IsDip);
    SortByMembers(Filter(Anomalies(points), IsDip), DipKey);
  }

  /** The spikes come largest z-score first. */
  lemma SpikesOrder(points: seq<DataPoint>)
    requires WellTyped(points)
    ensures forall i, j :: 0 <= i < j < |Spikes(points)| ==> AtMost(Spikes(points)[j].zScore, Spikes(points)[i].zScore)
  {
    var s := Spikes(points);
    SpikesMembers(points);
    forall i | 0 <= i < |s| ensures !s[i].zScore.NaN? {
      FlaggedNotNaN(points, s[i]);
    }
    forall i, j | 0 <= i < j < |s| ensures AtMost(s[j].zScore, s[i].zScore) {
      RankOrder(s[j].zScore, s[i].zScore);
    }
  }

  /** The dips come smallest z-score first. */
  lemma DipsOrder(points: seq<DataPoint>)
    requires WellTyped(points)
    ensures forall i, j :: 0 <= i < j < |Dips(points)| ==> AtMost(Dips(points)[i].zScore, Dips(points)[j].zScore)
  {
    var s := Dips(points);
    DipsMembers(points);
    forall i | 0 <= i < |s| ensures !s[i].zScore.NaN? {
      FlaggedNotNaN(points, s[i]);
    }
    forall i, j | 0 <= i < j < |s| ensures AtMost(s[i].zScore, s[j].zScore) {
      RankOrder(s[i].zScore, s[j].zScore);
    }
  }

  lemma FlaggedNotNaN(points: seq<DataPoint>, p: DataPoint)
    requires WellTyped(points) && p in points && p.isAnomaly
    ensures !p.zScore.NaN?
  {
    var i :| 0 <= i < |points| && points[i] == p;
  }

  lemma FlaggedTyped(points: seq<DataPoint>, p: DataPoint)
    requires WellTyped(points) && p in points && p.isAnomaly
    ensures IsSpike(p) <==> !IsDip(p)
  {
    var i :| 0 <= i < |points| && points[i] == p;
    match p.anomalyType.value
    case Spike =>
    case Dip =>
  }

  /** Spikes and dips together are a rearrangement of the anomalies. */
  lemma SpikesAndDipsPartitionAnomalies(points: seq<DataPoint>)
    requires WellTyped(points)
    ensures multiset(Spikes(points)) + multiset(Dips(points)) == multiset(Anomalies(points))
  {
    var anomalies := Anomalies(points);
    AnomaliesSpec(points);
    forall i | 0 <= i < |anomalies| ensures IsSpike(anomalies[i]) <==> !IsDip(anomalies[i]) {
      assert anomalies[i] in anomalies;
      FlaggedTyped(points, anomalies[i]);
    }
    FilterPartition(anomalies, IsSpike, IsDip);
  }

  /** The two spikes handed to the summary are at least as extreme as every other spike. */
  lemma TopSpikesMostExtreme(points: seq<DataPoint>)
    requires WellTyped(points)
    ensures forall i, j :: 0 <= i < |TopTwo(Spikes(points))| <= j < |Spikes(points)| ==>
              AtMost(Spikes(points)[j].zScore, TopTwo(Spikes(points))[i].zScore)
  {
    SpikesOrder(points);
  }

  /** The two dips handed to the summary are at least as extreme as every other dip. */
  lemma TopDipsMostExtreme(points: seq<DataPoint>)
    requires WellTyped(points)
    ensures forall i, j :: 0 <= i < |TopTwo(Dips(points))| <= j < |Dips(points)| ==>
              AtMost(TopTwo(Dips(points))[i].zScore, Dips(points)[j].zScore)
  {
    DipsOrder(points);
  }

  // --- The page --------------------------------------------------------------

  /** The `useState` hooks of `Index`. */
  class Page {
    var csvData: seq<CsvParser.Row>
    var columns: seq<string>
    var selectedDateColumn: string
    var selectedValueColumn: string
    var processedData: seq<DataPoint>
    var sensitivity: real

    /** The processed data always satisfies what the detector guarantees. */
    ghost predicate Valid()
      reads this
    {
      WellTyped(processedData)
    }

    constructor ()
      ensures Valid()
      ensures csvData == [] && columns == [] && processedData == []
      ensures selectedDateColumn == "" && selectedValueColumn == ""
      ensures sensitivity == 2.5
    {
      csvData := [];
      columns := [];
      selectedDateColumn := "";
      selectedValueColumn := "";
      processedData := [];
      sensitivity := 2.5;
    }

    /**
     * `parseCSV(file).then(...)` on the file's text. When the text has no
     * content line the parser throws before resolving, and nothing changes.
     */
    method HandleFileUpload(text: string)
      requires Valid()
      modifies this
      ensures Valid()
      ensures match CsvParser.ParseCsv(text)
              case None => csvData == old(csvData) && columns == old(columns)
              case Some(t) => csvData == t.rows && columns == ColumnsOf(t)
      ensures selectedDateColumn == old(selectedDateColumn) && selectedValueColumn == old(selectedValueColumn)
      ensures processedData == old(processedData) && sensitivity == old(sensitivity)
    {
      var parsed := CsvParser.ParseText(text);
      if parsed.Some? {
        csvData := parsed.value.rows;
        columns := ColumnsOf(parsed.value);
      }
    }

    /** `handleProcessData` with the host's date and number parsing. */
    method HandleProcessData(host: Host)
      requires Valid()
      modifies this
      ensures Valid()
      ensures CanDetect(old(csvData), old(selectedDateColumn), old(selectedValueColumn))
              ==> processedData == DetectAnomalies(csvData, selectedDateColumn, selectedValueColumn, sensitivity, host)
      ensures !CanDetect(old(csvData), old(selectedDateColumn), old(selectedValueColumn))
              ==> processedData == old(processedData)
      ensures csvData == old(csvData) && columns == old(columns) && sensitivity == old(sensitivity)
      ensures selectedDateColumn == old(selectedDateColumn) && selectedValueColumn == old(selectedValueColumn)
    {
      if CanDetect(csvData, selectedDateColumn, selectedValueColumn) {
        processedData := DetectAnomalies(csvData, selectedDateColumn, selectedValueColumn, sensitivity, host);
        DetectorOutputWellTyped(csvData, selectedDateColumn, selectedValueColumn, sensitivity, host);
      }
    }

    /** The "Upload New Dataset" button. */
    method Reset()
      modifies this
      ensures Valid()
      ensures csvData == [] && processedData == [] && columns == []
      ensures selectedDateColumn == "" && selectedValueColumn == ""
      ensures sensitivity == old(sensitivity)
    {
      csvData := [];
      processedData := [];
      columns := [];
      selectedDateColumn := "";
      selectedValueColumn := "";
    }
  }

  /** Processing runs only with data and both columns selected. */
  predicate CanDetect(csvData: seq<CsvParser.Row>, dateColumn: string, valueColumn: string) {
    |csvData| > 0 && dateColumn != "" && valueColumn != ""
  }
}
