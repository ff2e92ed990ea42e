/**
 * What the window does with a finished run: the plotted series (sum against number of
 * pairs), the click hit-test that picks the nearest point, the text shown for a picked
 * point and the CSV export.
 */
module PowerSumView {
  import opened Wrappers
  import opened Text
  import opened PowerSum
  import opened SeqFacts

  // ---------------------------------------------------------------------------
  // Sorted keys and the plotted series
  // ---------------------------------------------------------------------------

  predicate IsMin(s: set<int>, x: int)
  {
    x in s && forall y :: y in s ==> x <= y
  }

  lemma {:induction false} MinExists(s: set<int>)
    requires s != {}
    ensures exists x :: IsMin(s, x)
    decreases |s|
  {
    if forall y :: y !in s {
      assert false;
    }
    var z :| z in s;
    if s == {z} {
      assert IsMin(s, z);
    } else {
      var t := s - {z};
      MinExists(t);
      var x :| IsMin(t, x);
      assert forall y :: y in s ==> y == z || y in t;
      if z < x {
        assert IsMin(s, z);
      } else {
        assert IsMin(s, x);
      }
    }
  }

  /** Python's `sorted(keys)` for a set of integers: the least element first. */
  function SortedSet(s: set<int>): (r: seq<int>)
    ensures forall i :: 0 <= i < |r| ==> r[i] in s
    decreases |s|
  {
    if s == {} then []
    else
      MinExists(s);
      var x :| IsMin(s, x);
      [x] + SortedSet(s - {x})
  }

  /** The sorted keys are exactly the set's elements, each once, in increasing order. */
  lemma {:induction false} SortedSetSpec(s: set<int>)
    ensures |SortedSet(s)| == |s|
    ensures forall x :: x in s <==> x in SortedSet(s)
    ensures forall i, j :: 0 <= i < j < |SortedSet(s)| ==> SortedSet(s)[i] < SortedSet(s)[j]
    decreases |s|
  {
    if s != {} {
      MinExists(s);
      var x :| IsMin(s, x);
      var t := s - {x};
      SortedSetSpec(t);
      var rest := SortedSet(t);
      var r := [x] + rest;
      assert SortedSet(s) == r;
      forall i | 0 <= i < |rest| ensures rest[i] in t && x < rest[i] {
        assert rest[i] in rest;
      }
      forall i, j | 0 <= i < j < |r| ensures r[i] < r[j] {
        if i > 0 {
          assert r[i] == rest[i - 1] && r[j] == rest[j - 1];
        } else {
          assert r[j] == rest[j - 1];
        }
      }
      forall y ensures y in s <==> y in r {
        assert y in s <==> y == x || y in t;
      }
    }
  }

  /** One plotted point: a sum and the number of pairs reaching it. */
  datatype Point = Point(sum: int, count: int)

  /** The points `zip(sorted(keys), [len(g[s]) for s in sums])` that every view draws. */
  function Series(g: map<int, seq<Pair>>): (r: seq<Point>)
    ensures forall i :: 0 <= i < |r| ==> r[i].sum in g && r[i].count == |g[r[i].sum]|
  {
    var sums := SortedSet(g.Keys);
    seq(|sums|, i requires 0 <= i < |sums| => Point(sums[i], |g[sums[i]]|))
  }

  /** One point per sum, in increasing order of sum, and every sum has its point. */
  lemma SeriesSpec(g: map<int, seq<Pair>>)
    ensures |Series(g)| == |g|
    ensures forall i, j :: 0 <= i < j < |Series(g)| ==> Series(g)[i].sum < Series(g)[j].sum
    ensures forall s :: s in g ==> exists i :: 0 <= i < |Series(g)| && Series(g)[i].sum == s
  {
    var sums := SortedSet(g.Keys);
    SortedSetSpec(g.Keys);
    assert |g.Keys| == |g|;
    var r := Series(g);
    assert forall i :: 0 <= i < |r| ==> r[i].sum == sums[i];
    forall s | s in g ensures exists i :: 0 <= i < |r| && r[i].sum == s {
      assert s in sums;
      var i :| 0 <= i < |sums| && sums[i] == s;
      assert r[i].sum == s;
    }
  }

  // ---------------------------------------------------------------------------
  // Picking the nearest point
  // ---------------------------------------------------------------------------

  /** What a click reports: the sum, its number of pairs and the pairs themselves. */
  datatype Selection = Selection(sumValue: int, count: int, pairs: seq<Pair>)

  /** The squared display distance from the click at (ex, ey) to the point `p`. */
  function Dist2(toX: int -> real, toY: int -> real, ex: real, ey: real, p: Point): real
  {
    (toX(p.sum) - ex) * (toX(p.sum) - ex) + (toY(p.count) - ey) * (toY(p.count) - ey)
  }

  /** Python's ordering of `(distance, index)` tuples. */
  predicate TupleLess(x: (real, int), y: (real, int))
  {
    x.0 < y.0 || (x.0 == y.0 && x.1 < y.1)
  }

  /** Python's `min` over a non-empty list of `(distance, index)` tuples. */
  function MinTuple(ts: seq<(real, int)>): (r: (real, int))
    requires |ts| > 0
    ensures r in ts
    ensures forall t :: t in ts ==> !TupleLess(t, r)
  {
    if |ts| == 1 then ts[0]
    else
      var rest := MinTuple(ts[1..]);
      assert forall t :: t in ts ==> t == ts[0] || t in ts[1..];
      if TupleLess(rest, ts[0]) then rest else ts[0]
  }

  /** The `(distance, index)` tuples for every point of the series. */
  function Distances(toX: int -> real, toY: int -> real, ex: real, ey: real, series: seq<Point>)
    : seq<(real, int)>
  {
    seq(|series|, i requires 0 <= i < |series| => (Dist2(toX, toY, ex, ey, series[i]), i))
  }

  /** The least `(distance, index)` tuple names a point no farther than any other, first among equals. */
  lemma ClosestInSeries(toX: int -> real, toY: int -> real, ex: real, ey: real, series: seq<Point>)
    requires |series| > 0
    ensures var closest := MinTuple(Distances(toX, toY, ex, ey, series));
      && 0 <= closest.1 < |series|
      && closest.0 == Dist2(toX, toY, ex, ey, series[closest.1])
      && forall j :: 0 <= j < |series| ==>
           var e := Dist2(toX, toY, ex, ey, series[j]);
           closest.0 < e || (closest.0 == e && closest.1 <= j)
  {
    var distances := Distances(toX, toY, ex, ey, series);
    var closest := MinTuple(distances);
    var k :| 0 <= k < |distances| && distances[k] == closest;
    forall j | 0 <= j < |series|
      ensures var e := Dist2(toX, toY, ex, ey, series[j]);
              closest.0 < e || (closest.0 == e && closest.1 <= j)
    {
      assert distances[j] in distances;
    }
  }

  lemma SeriesHasPoint(g: map<int, seq<Pair>>, t: int)
    requires t in g
    ensures exists j :: 0 <= j < |Series(g)| && Series(g)[j] == Point(t, |g[t]|)
  {
    SeriesSpec(g);
    var j :| 0 <= j < |Series(g)| && Series(g)[j].sum == t;
    assert Series(g)[j] == Point(t, |g[t]|);
  }

  /** Over a whole map: the picked sum is nearest to the click, and the smallest among the nearest. */
  lemma NearestOfSeries(g: map<int, seq<Pair>>, toX: int -> real, toY: int -> real, ex: real, ey: real)
    requires g != map[]
    ensures |Series(g)| > 0
    ensures var series := Series(g);
      var closest := MinTuple(Distances(toX, toY, ex, ey, series));
      && 0 <= closest.1 < |series|
      && closest.0 == Dist2(toX, toY, ex, ey, series[closest.1])
      && forall t :: t in g ==>
           var e := Dist2(toX, toY, ex, ey, Point(t, |g[t]|));
           closest.0 < e || (closest.0 == e && series[closest.1].sum <= t)
  {
    var series := Series(g);
    SeriesSpec(g);
    if |series| == 0 {
      assert false;
    }
    ClosestInSeries(toX, toY, ex, ey, series);
    var closest := MinTuple(Distances(toX, toY, ex, ey, series));
    forall t | t in g
      ensures var e := Dist2(toX, toY, ex, ey, Point(t, |g[t]|));
              closest.0 < e || (closest.0 == e && series[closest.1].sum <= t)
    {
      SeriesHasPoint(g, t);
      var j :| 0 <= j < |series| && series[j] == Point(t, |g[t]|);
      if closest.1 > j {
        assert series[j].sum < series[closest.1].sum;
      }
    }
  }

  /** The distance loop of the click handler: one `(distance, index)` tuple per point, in order. */
  method MeasureDistances(toX: int -> real, toY: int -> real, ex: real, ey: real, series: seq<Point>)
    returns (distances: seq<(real, int)>)
    ensures distances == Distances(toX, toY, ex, ey, series)
  {
    distances := [];
    var i := 0;
    while i < |series|
      invariant 0 <= i <= |series| && |distances| == i
      invariant forall j :: 0 <= j < i ==> distances[j] == (Dist2(toX, toY, ex, ey, series[j]), j)
    {
      distances := distances + [(Dist2(toX, toY, ex, ey, series[i]), i)];
      i := i + 1;
    }
  }

  /**
   * The click handler. `inAxes` says whether the click landed on the plot; `toX` and `toY`
   * map data coordinates to display pixels, and (ex, ey) is the click in pixels. The
   * point nearest to the click is reported when it lies within 50 pixels (compared here
   * on squares); among equally near points the one with the smaller sum wins.
   */
  method OnClick(currentData: Option<ComputationResult>, inAxes: bool,
                 toX: int -> real, toY: int -> real, ex: real, ey: real)
    returns (selected: Option<Selection>)
    ensures !inAxes || currentData.None? || currentData.value.sumCombinations == map[] ==>
      selected.None?
    ensures selected.Some? ==>
      && inAxes && currentData.Some?
      && var g := currentData.value.sumCombinations;
      && var s := selected.value.sumValue;
      && s in g
      && selected.value == Selection(s, |g[s]|, g[s])
      && Dist2(toX, toY, ex, ey, Point(s, |g[s]|)) <= 2500.0
      && forall t :: t in g ==>
           var d := Dist2(toX, toY, ex, ey, Point(s, |g[s]|));
           var e := Dist2(toX, toY, ex, ey, Point(t, |g[t]|));
           d < e || (d == e && s <= t)
    ensures selected.None? && inAxes && currentData.Some? ==>
      var g := currentData.value.sumCombinations;
      forall t :: t in g ==> Dist2(toX, toY, ex, ey, Point(t, |g[t]|)) > 2500.0
  {
    if !inAxes || currentData.None? {
      return None;
    }
    var g := currentData.value.sumCombinations;
    var series := Series(g);
    SeriesSpec(g);
    if |series| == 0 {
      assert g == map[];
      return None;
    }
    var distances := MeasureDistances(toX, toY, ex, ey, series);
    NearestOfSeries(g, toX, toY, ex, ey);
    var closest := MinTuple(distances);
    var minDist, closestIdx := closest.0, closest.1;
    if minDist <= 2500.0 {
      var sumVal := series[closestIdx].sum;
      var count := series[closestIdx].count;
      selected := Some(Selection(sumVal, count, g[sumVal]));
    } else {
      selected := None;
    }
  }

  // ---------------------------------------------------------------------------
  // The text shown for a picked point
  // ---------------------------------------------------------------------------

  /** One line per pair: `2 × (a)^p = s` for a doubled term, `(a)^p + (b)^p = s` otherwise. */
  function PairLine(power: int, sumValue: int, q: Pair): string
  {
    if q.a == q.b then
      "2 × (" + IntToDecimal(q.a) + ")^" + IntToDecimal(power) + " = " + IntToDecimal(sumValue)
    else
      "(" + IntToDecimal(q.a) + ")^" + IntToDecimal(power) + " + ("
        + IntToDecimal(q.b) + ")^" + IntToDecimal(power) + " = " + IntToDecimal(sumValue)
  }

  function PairLines(power: int, sumValue: int, pairs: seq<Pair>): seq<string>
  {
    seq(|pairs|, i requires 0 <= i < |pairs| => PairLine(power, sumValue, pairs[i]))
  }

  /** The note that replaces every line after the twentieth. */
  function MoreLine(hidden: int): string
  {
    "... and " + IntToDecimal(hidden) + " more"
  }

  /** At most twenty lines are shown; a note counts the rest. */
  function Displayed(lines: seq<string>): seq<string>
  {
    if |lines| > 20 then lines[..20] + [MoreLine(|lines| - 20)] else lines
  }

  /** The four lines above the pairs: the sum, the count, a blank line and a caption. */
  function InfoHeader(sumValue: int, count: int): seq<string>
  {
    ["Selected Sum: " + IntToDecimal(sumValue), "Number of Combinations: " + IntToDecimal(count),
     "", "Combinations:"]
  }

  /** The whole text put in the information box. */
  function InfoText(power: int, sumValue: int, count: int, pairs: seq<Pair>): string
  {
    Join(InfoHeader(sumValue, count), "\n") + "\n"
      + Join(Displayed(PairLines(power, sumValue, pairs)), "\n")
  }

  lemma PairLinesSnoc(power: int, sumValue: int, pairs: seq<Pair>, i: nat)
    requires i < |pairs|
    ensures PairLines(power, sumValue, pairs[..i + 1])
      == PairLines(power, sumValue, pairs[..i]) + [PairLine(power, sumValue, pairs[i])]
  {
    var longer := PairLines(power, sumValue, pairs[..i + 1]);
    var shorter := PairLines(power, sumValue, pairs[..i]);
    forall k | 0 <= k < i ensures longer[k] == shorter[k] {
      assert pairs[..i + 1][k] == pairs[..i][k];
    }
  }

  /** The formatting loop of the handler: one line per pair, in order. */
  method FormatPairLines(power: int, sumValue: int, pairs: seq<Pair>) returns (pairsText: seq<string>)
    ensures pairsText == PairLines(power, sumValue, pairs)
  {
    pairsText := [];
    var i := 0;
    while i < |pairs|
      invariant 0 <= i <= |pairs|
      invariant pairsText == PairLines(power, sumValue, pairs[..i])
    {
      var q := pairs[i];
      var line;
      if q.a == q.b {
        line := "2 × (" + IntToDecimal(q.a) + ")^" + IntToDecimal(power) + " = "
          + IntToDecimal(sumValue);
      } else {
        line := "(" + IntToDecimal(q.a) + ")^" + IntToDecimal(power) + " + ("
          + IntToDecimal(q.b) + ")^" + IntToDecimal(power) + " = " + IntToDecimal(sumValue);
      }
      PairLinesSnoc(power, sumValue, pairs, i);
      pairsText := pairsText + [line];
      i := i + 1;
    }
    TakeAll(pairs);
  }

  /**
   * The handler for a picked point: nothing happens without a finished run; otherwise the
   * pair lines are formatted, cut at twenty, and the text is assembled.
   */
  method PointInfo(currentResult: Option<ComputationResult>, sumValue: int, count: int,
                   pairs: seq<Pair>)
    returns (info: Option<string>)
    ensures currentResult.None? ==> info.None?
    ensures currentResult.Some? ==>
      info == Some(InfoText(currentResult.value.power, sumValue, count, pairs))
  {
    if currentResult.None? {
      return None;
    }
    var power := currentResult.value.power;
    var pairsText := FormatPairLines(power, sumValue, pairs);
    var displayed;
    if |pairsText| > 20 {
      displayed := pairsText[..20] + [MoreLine(|pairsText| - 20)];
    } else {
      displayed := pairsText;
    }
    info := Some(Join(InfoHeader(sumValue, count), "\n") + "\n" + Join(displayed, "\n"));
  }

  lemma NoNewlineInDecimal(x: int)
    ensures '\n' !in IntToDecimal(x)
  {
    var d := NatToDecimal(if x < 0 then -x else x);
    assert forall i :: 0 <= i < |d| ==> d[i] != '\n';
  }

  lemma NoNewlineInPairLine(power: int, sumValue: int, q: Pair)
    ensures '\n' !in PairLine(power, sumValue, q)
  {
    NoNewlineInDecimal(q.a);
    NoNewlineInDecimal(q.b);
    NoNewlineInDecimal(power);
    NoNewlineInDecimal(sumValue);
  }

  lemma ShownLinesNoNewline(power: int, sumValue: int, pairs: seq<Pair>)
    ensures var shown := Displayed(PairLines(power, sumValue, pairs));
      forall i :: 0 <= i < |shown| ==> '\n' !in shown[i]
  {
    var pl := PairLines(power, sumValue, pairs);
    var shown := Displayed(pl);
    forall i | 0 <= i < |shown| ensures '\n' !in shown[i] {
      if i < |pl| && i < 20 {
        NoNewlineInPairLine(power, sumValue, pairs[i]);
      } else {
        NoNewlineInDecimal(|pairs| - 20);
      }
    }
  }

  lemma HeaderNoNewline(sumValue: int, count: int)
    ensures forall i :: 0 <= i < 4 ==> '\n' !in InfoHeader(sumValue, count)[i]
  {
    NoNewlineInDecimal(sumValue);
    NoNewlineInDecimal(count);
  }

  /** Split at its newlines, the information text is the header lines, then the shown lines. */
  lemma InfoTextSplit(power: int, sumValue: int, count: int, pairs: seq<Pair>)
    requires |pairs| >= 1
    ensures SplitLines(InfoText(power, sumValue, count, pairs))
      == InfoHeader(sumValue, count) + Displayed(PairLines(power, sumValue, pairs))
  {
    var shown := Displayed(PairLines(power, sumValue, pairs));
    var header := InfoHeader(sumValue, count);
    var body := Join(shown, "\n");
    ShownLinesNoNewline(power, sumValue, pairs);
    HeaderNoNewline(sumValue, count);
    SplitJoin(shown);
    SplitJoinThen(header, body);
    assert Join(header, "\n") + "\n" + body == Join(header, "\n") + ("\n" + body);
  }

  /**
   * Read line by line, the information text is the three header lines, a blank line, and
   * then one line per pair, cut at twenty with a note counting the pairs not shown.
   */
  lemma InfoTextLines(power: int, sumValue: int, count: int, pairs: seq<Pair>)
    requires |pairs| >= 1
    ensures var lines := SplitLines(InfoText(power, sumValue, count, pairs));
      && |lines| == 4 + (if |pairs| > 20 then 21 else |pairs|)
      && lines[..4] == ["Selected Sum: " + IntToDecimal(sumValue),
                        "Number of Combinations: " + IntToDecimal(count),
                        "",
                        "Combinations:"]
      && (forall i :: 0 <= i < |pairs| && i < 20 ==>
            lines[4 + i] == PairLine(power, sumValue, pairs[i]))
      && (|pairs| > 20 ==> lines[24] == MoreLine(|pairs| - 20))
  {
    InfoTextSplit(power, sumValue, count, pairs);
    var lines := SplitLines(InfoText(power, sumValue, count, pairs));
    var shown := Displayed(PairLines(power, sumValue, pairs));
    assert lines[..4] == InfoHeader(sumValue, count);
    assert forall i :: 0 <= i < |shown| ==> lines[4 + i] == shown[i];
  }

  // ---------------------------------------------------------------------------
  // CSV export
  // ---------------------------------------------------------------------------

  /** `f"({a},{b})"`. */
  function PairText(q: Pair): string
  {
    "(" + IntToDecimal(q.a) + "," + IntToDecimal(q.b) + ")"
  }

  function PairTexts(pairs: seq<Pair>): (r: seq<string>)
    ensures |r| == |pairs| && forall i :: 0 <= i < |pairs| ==> r[i] == PairText(pairs[i])
  {
    if pairs == [] then [] else [PairText(pairs[0])] + PairTexts(pairs[1..])
  }

  /** `'; '.join(f"({a},{b})" for a, b in pairs)`. */
  function PairsText(pairs: seq<Pair>): string
  {
    Join(PairTexts(pairs), "; ")
  }

  /** The csv module quotes a field holding the delimiter, the quote or a line break. */
  predicate NeedsQuotes(field: string)
  {
    ',' in field || '"' in field || '\r' in field || '\n' in field
  }

  /** Doubles every quote character inside a quoted field. */
  function DoubleQuotes(field: string): string
  {
    if field == [] then []
    else (if field[0] == '"' then "\"\"" else [field[0]]) + DoubleQuotes(field[1..])
  }

  /** A field as the csv module's default dialect writes it. */
  function CsvField(field: string): string
  {
    if NeedsQuotes(field) then "\"" + DoubleQuotes(field) + "\"" else field
  }

  function CsvFields(fields: seq<string>): seq<string>
  {
    seq(|fields|, i requires 0 <= i < |fields| => CsvField(fields[i]))
  }

  /** One row as `writer.writerow` writes it: fields joined by commas, ended by CRLF. */
  function CsvRow(fields: seq<string>): string
  {
    Join(CsvFields(fields), ",") + "\r\n"
  }

  /** A row of the exported file: a sum, its number of pairs and the pairs. */
  datatype Row = Row(sum: int, count: int, pairs: seq<Pair>)

  /** The rows exported for `g`, one per sum, in the order of `sums`. */
  function RowsOf(g: map<int, seq<Pair>>, sums: seq<int>): (r: seq<Row>)
    requires forall i :: 0 <= i < |sums| ==> sums[i] in g
    ensures |r| == |sums|
  {
    seq(|sums|, i requires 0 <= i < |sums| => Row(sums[i], |g[sums[i]]|, g[sums[i]]))
  }

  /** `writer.writerow([sum_val, count, pairs_str])`. */
  function RenderRow(row: Row): string
  {
    CsvRow([IntToDecimal(row.sum), IntToDecimal(row.count), PairsText(row.pairs)])
  }

  /** The rows written one after another. */
  function RenderRows(rows: seq<Row>): string
  {
    if rows == [] then "" else RenderRow(rows[0]) + RenderRows(rows[1..])
  }

  /** The whole exported file: the header row, then one row per sum in increasing order. */
  function CsvText(g: map<int, seq<Pair>>): string
  {
    CsvRow(["Sum", "Count", "Pairs"]) + RenderRows(RowsOf(g, SortedSet(g.Keys)))
  }

  lemma {:induction false} RenderRowsSnoc(rows: seq<Row>)
    requires |rows| >= 1
    ensures RenderRows(rows) == RenderRows(rows[..|rows| - 1]) + RenderRow(rows[|rows| - 1])
    decreases |rows|
  {
    var n := |rows|;
    var last := RenderRow(rows[n - 1]);
    if n == 1 {
      assert rows[..0] == [] && rows[1..] == [];
      assert last + "" == last && "" + last == last;
    } else {
      var init := rows[..n - 1];
      RenderRowsSnoc(rows[1..]);
      DropTake(rows);
      ConcatAssoc(RenderRow(rows[0]), RenderRows(init[1..]), last);
    }
  }

  /** Writes one row per sum, in the order given. */
  method WriteRows(g: map<int, seq<Pair>>, sums: seq<int>) returns (out: string)
    requires forall i :: 0 <= i < |sums| ==> sums[i] in g
    ensures out == RenderRows(RowsOf(g, sums))
  {
    ghost var rows := RowsOf(g, sums);
    out := "";
    var i := 0;
    while i < |sums|
      invariant 0 <= i <= |sums|
      invariant out == RenderRows(rows[..i])
    {
      var sumVal := sums[i];
      var pairs := g[sumVal];
      var count := |pairs|;
      var pairsStr := PairsText(pairs);
      RenderRowsSnoc(rows[..i + 1]);
      TakeTake(rows, i);
      out := out + CsvRow([IntToDecimal(sumVal), IntToDecimal(count), pairsStr]);
      i := i + 1;
    }
    TakeAll(rows);
  }

  /** The export handler: nothing without a finished run, otherwise the file's text. */
  method ExportCsv(currentResult: Option<ComputationResult>) returns (text: Option<string>)
    ensures currentResult.None? ==> text.None?
    ensures currentResult.Some? ==> text == Some(CsvText(currentResult.value.sumCombinations))
  {
    if currentResult.None? {
      return None;
    }
    var g := currentResult.value.sumCombinations;
    var header := CsvRow(["Sum", "Count", "Pairs"]);
    var rows := WriteRows(g, SortedSet(g.Keys));
    text := Some(header + rows);
  }

  // ---------------------------------------------------------------------------
  // Reading an exported file back
  // ---------------------------------------------------------------------------

  /** Consumes the literal `lit` at the front of `s`. */
  function Expect(s: string, lit: string): (r: Option<string>)
    ensures r.Some? ==> s == lit + r.value
  {
    if |lit| <= |s| && s[..|lit|] == lit then Some(s[|lit|..]) else None
  }

  lemma ExpectLiteral(lit: string, rest: string)
    ensures Expect(lit + rest, lit) == Some(rest)
  {
    assert (lit + rest)[..|lit|] == lit;
    assert (lit + rest)[|lit|..] == rest;
  }

  function ReadPair(s: string): (r: Option<(Pair, string)>)
    ensures r.Some? ==> |r.value.1| < |s|
  {
    match Expect(s, "(")
    case None => None
    case Some(s1) =>
      match ReadNat(s1)
      case None => None
      case Some((a, s2)) =>
        match Expect(s2, ",")
        case None => None
        case Some(s3) =>
          match ReadNat(s3)
          case None => None
          case Some((b, s4)) =>
            match Expect(s4, ")")
            case None => None
            case Some(s5) => Some((Pair(a, b), s5))
  }

  function ReadPairs(s: string): (r: Option<(seq<Pair>, string)>)
    ensures r.Some? ==> |r.value.1| < |s|
    decreases |s|
  {
    match ReadPair(s)
    case None => None
    case Some((q, s1)) =>
      match Expect(s1, "; ")
      case None => Some(([q], s1))
      case Some(s2) =>
        match ReadPairs(s2)
        case None => None
        case Some((qs, s3)) => Some(([q] + qs, s3))
  }

  /** Reads `sum,count,"pairs"` and the line end. */
  function ReadRow(s: string): (r: Option<(Row, string)>)
    ensures r.Some? ==> |r.value.1| < |s|
  {
    match ReadNat(s)
    case None => None
    case Some((sum, s1)) =>
      match Expect(s1, ",")
      case None => None
      case Some(s2) =>
        match ReadNat(s2)
        case None => None
        case Some((count, s3)) =>
          match Expect(s3, ",\"")
          case None => None
          case Some(s4) =>
            match ReadPairs(s4)
            case None => None
            case Some((pairs, s5)) =>
              match Expect(s5, "\"\r\n")
              case None => None
              case Some(s6) => Some((Row(sum, count, pairs), s6))
  }

  function ReadRows(s: string): Option<seq<Row>>
    decreases |s|
  {
    if s == [] then Some([])
    else
      match ReadRow(s)
      case None => None
      case Some((row, rest)) =>
        match ReadRows(rest)
        case None => None
        case Some(rows) => Some([row] + rows)
  }

  /** Reads an exported file: the header, then the rows. */
  function ParseCsv(text: string): Option<seq<Row>>
  {
    match Expect(text, "Sum,Count,Pairs\r\n")
    case None => None
    case Some(rest) => ReadRows(rest)
  }

  /** Rebuilds the map from sums to pairs out of rows read back; later rows win. */
  function RowsToMap(rows: seq<Row>): map<int, seq<Pair>>
  {
    if rows == [] then map[]
    else RowsToMap(rows[..|rows| - 1])[rows[|rows| - 1].sum := rows[|rows| - 1].pairs]
  }

  /** The maps an export can describe: non-negative sums, non-empty groups of natural pairs. */
  predicate Exportable(g: map<int, seq<Pair>>)
  {
    forall s :: s in g ==>
      s >= 0 && |g[s]| >= 1 && forall i :: 0 <= i < |g[s]| ==> g[s][i].a >= 0 && g[s][i].b >= 0
  }

  /** The rows an export reads back exactly: natural numbers and at least one pair. */
  predicate Readable(row: Row)
  {
    row.sum >= 0 && row.count >= 0 && |row.pairs| >= 1
    && forall i :: 0 <= i < |row.pairs| ==> row.pairs[i].a >= 0 && row.pairs[i].b >= 0
  }

  lemma HeaderFields()
    ensures CsvFields(["Sum", "Count", "Pairs"]) == ["Sum", "Count", "Pairs"]
  {
    assert !NeedsQuotes("Sum") && !NeedsQuotes("Count") && !NeedsQuotes("Pairs");
  }

  lemma HeaderText()
    ensures CsvRow(["Sum", "Count", "Pairs"]) == "Sum,Count,Pairs\r\n"
  {
    HeaderFields();
    Join3("Sum", "Count", "Pairs", ",");
  }

  lemma DecimalOfNat(n: int)
    requires n >= 0
    ensures IntToDecimal(n) == NatToDecimal(n)
    ensures !NeedsQuotes(IntToDecimal(n))
  {
    var d := NatToDecimal(n);
    assert forall i :: 0 <= i < |d| ==> IsDigit(d[i]);
  }

  lemma PairTextRead(q: Pair, rest: string)
    requires q.a >= 0 && q.b >= 0
    ensures ReadPair(PairText(q) + rest) == Some((q, rest))
  {
    var da := NatToDecimal(q.a);
    var db := NatToDecimal(q.b);
    DecimalOfNat(q.a);
    DecimalOfNat(q.b);
    assert PairText(q) + rest == "(" + (da + ("," + (db + (")" + rest))));
    ExpectLiteral("(", da + ("," + (db + (")" + rest))));
    ReadNatDecimal(q.a, "," + (db + (")" + rest)));
    ExpectLiteral(",", db + (")" + rest));
    ReadNatDecimal(q.b, ")" + rest);
    ExpectLiteral(")", rest);
  }

  lemma ReadPairsLast(q: Pair, rest: string)
    requires q.a >= 0 && q.b >= 0
    requires |rest| >= 1 && rest[0] == '"'
    ensures ReadPairs(PairText(q) + rest) == Some(([q], rest))
  {
    PairTextRead(q, rest);
    assert Expect(rest, "; ").None?;
  }

  lemma ReadPairsMore(q: Pair, more: string, qs: seq<Pair>, rest: string)
    requires q.a >= 0 && q.b >= 0
    requires ReadPairs(more) == Some((qs, rest))
    ensures ReadPairs(PairText(q) + ("; " + more)) == Some(([q] + qs, rest))
  {
    PairTextRead(q, "; " + more);
    ExpectLiteral("; ", more);
  }

  lemma PairsTextCons(pairs: seq<Pair>)
    requires |pairs| >= 2
    ensures PairsText(pairs) == PairText(pairs[0]) + ("; " + PairsText(pairs[1..]))
  {
    assert PairTexts(pairs)[1..] == PairTexts(pairs[1..]);
  }

  lemma {:induction false} PairsTextRead(pairs: seq<Pair>, rest: string)
    requires |pairs| >= 1
    requires forall i :: 0 <= i < |pairs| ==> pairs[i].a >= 0 && pairs[i].b >= 0
    requires |rest| >= 1 && rest[0] == '"'
    ensures ReadPairs(PairsText(pairs) + rest) == Some((pairs, rest))
  {
    if |pairs| == 1 {
      ReadPairsLast(pairs[0], rest);
      Single(pairs);
    } else {
      var tail := PairsText(pairs[1..]);
      PairsTextCons(pairs);
      PairsTextRead(pairs[1..], rest);
      ReadPairsMore(pairs[0], tail + rest, pairs[1..], rest);
      ConcatAssoc(PairText(pairs[0]), "; " + tail, rest);
      ConcatAssoc("; ", tail, rest);
      HeadTail(pairs);
    }
  }

  lemma DoubleQuotesIdentity(field: string)
    requires '"' !in field
    ensures DoubleQuotes(field) == field
  {
    if field != [] {
      DoubleQuotesIdentity(field[1..]);
      assert [field[0]] + field[1..] == field;
    }
  }

  lemma PairsTextFacts(pairs: seq<Pair>)
    requires |pairs| >= 1
    ensures ',' in PairsText(pairs)
    ensures '"' !in PairsText(pairs)
  {
    var texts := PairTexts(pairs);
    forall i | 0 <= i < |texts| ensures '"' !in texts[i] {
      NoQuoteInDecimal(pairs[i].a);
      NoQuoteInDecimal(pairs[i].b);
    }
    NoQuoteInJoin(texts, "; ");
    var t0 := PairText(pairs[0]);
    assert t0[1 + |IntToDecimal(pairs[0].a)|] == ',';
    JoinStartsWithFirst(texts, "; ");
    assert PairsText(pairs)[1 + |IntToDecimal(pairs[0].a)|] == ',';
  }

  lemma NoQuoteInDecimal(x: int)
    ensures '"' !in IntToDecimal(x)
  {
    var d := NatToDecimal(if x < 0 then -x else x);
    assert forall i :: 0 <= i < |d| ==> d[i] != '"';
  }

  lemma {:induction false} NoQuoteInJoin(parts: seq<string>, sep: string)
    requires '"' !in sep
    requires forall i :: 0 <= i < |parts| ==> '"' !in parts[i]
    ensures '"' !in Join(parts, sep)
  {
    if |parts| > 1 {
      NoQuoteInJoin(parts[1..], sep);
    }
  }

  lemma JoinStartsWithFirst(parts: seq<string>, sep: string)
    requires |parts| >= 1
    ensures |parts[0]| <= |Join(parts, sep)| && Join(parts, sep)[..|parts[0]|] == parts[0]
  {
  }

  lemma Join3(x: string, y: string, z: string, sep: string)
    ensures Join([x, y, z], sep) == (x + sep) + ((y + sep) + z)
  {
    assert [x, y, z][1..] == [y, z];
    assert [y, z][1..] == [z];
    assert Join([z], sep) == z;
    assert Join([y, z], sep) == (y + sep) + z;
  }

  /** The three fields of a row as the csv module writes them: only the pairs are quoted. */
  lemma RowFields(row: Row)
    requires Readable(row)
    ensures CsvFields([IntToDecimal(row.sum), IntToDecimal(row.count), PairsText(row.pairs)])
      == [NatToDecimal(row.sum), NatToDecimal(row.count), "\"" + PairsText(row.pairs) + "\""]
  {
    var pt := PairsText(row.pairs);
    DecimalOfNat(row.sum);
    DecimalOfNat(row.count);
    PairsTextFacts(row.pairs);
    DoubleQuotesIdentity(pt);
  }

  /** Regroups a three-field row so that it can be read from the left. */
  lemma RowLayout(ds: string, dc: string, pt: string)
    ensures Join([ds, dc, "\"" + pt + "\""], ",") + "\r\n"
      == ds + ("," + (dc + (",\"" + (pt + "\"\r\n"))))
  {
    var q := "\"" + pt + "\"";
    Join3(ds, dc, q, ",");
    ConcatAssoc(ds, ",", (dc + ",") + q);
    ConcatAssoc(dc, ",", q);
    ConcatAssoc(ds + ",", (dc + ",") + q, "\r\n");
    ConcatAssoc(ds, "," + (dc + ("," + q)), "\r\n");
    ConcatAssoc(",", dc + ("," + q), "\r\n");
    ConcatAssoc(dc, "," + q, "\r\n");
    ConcatAssoc(",", q, "\r\n");
    ConcatAssoc("\"" + pt, "\"", "\r\n");
    ConcatAssoc("\"", pt, "\"" + "\r\n");
    ConcatAssoc(",", "\"", pt + ("\"" + "\r\n"));
    assert "\"" + "\r\n" == "\"\r\n";
    assert "," + "\"" == ",\"";
  }

  /** A row as written: the sum's digits, a comma, the count's digits, a comma, the quoted pairs. */
  lemma RowShape(row: Row)
    requires Readable(row)
    ensures RenderRow(row) == NatToDecimal(row.sum) + ("," + (NatToDecimal(row.count)
      + (",\"" + (PairsText(row.pairs) + "\"\r\n"))))
  {
    RowFields(row);
    RowLayout(NatToDecimal(row.sum), NatToDecimal(row.count), PairsText(row.pairs));
  }

  /** A written row followed by anything that does not continue a number is read back exactly. */
  lemma RowRead(row: Row, rest: string)
    requires Readable(row)
    requires rest == [] || IsDigit(rest[0])
    ensures ReadRow(RenderRow(row) + rest) == Some((row, rest))
  {
    var ds := NatToDecimal(row.sum);
    var dc := NatToDecimal(row.count);
    var pt := PairsText(row.pairs);
    RowShape(row);
    ConcatAssoc(ds, "," + (dc + (",\"" + (pt + "\"\r\n"))), rest);
    ConcatAssoc(",", dc + (",\"" + (pt + "\"\r\n")), rest);
    ConcatAssoc(dc, ",\"" + (pt + "\"\r\n"), rest);
    ConcatAssoc(",\"", pt + "\"\r\n", rest);
    ConcatAssoc(pt, "\"\r\n", rest);
    ReadNatDecimal(row.sum, "," + (dc + (",\"" + (pt + ("\"\r\n" + rest)))));
    ExpectLiteral(",", dc + (",\"" + (pt + ("\"\r\n" + rest))));
    ReadNatDecimal(row.count, ",\"" + (pt + ("\"\r\n" + rest)));
    ExpectLiteral(",\"", pt + ("\"\r\n" + rest));
    PairsTextRead(row.pairs, "\"\r\n" + rest);
    ExpectLiteral("\"\r\n", rest);
  }

  lemma RowStartsWithDigit(row: Row)
    requires Readable(row)
    ensures |RenderRow(row)| >= 1 && IsDigit(RenderRow(row)[0])
  {
    RowShape(row);
    var ds := NatToDecimal(row.sum);
    assert IsDigit(ds[0]);
  }

  lemma ReadRowsCons(s: string, row: Row, rest: string, rows: seq<Row>)
    requires ReadRow(s) == Some((row, rest))
    requires ReadRows(rest) == Some(rows)
    ensures ReadRows(s) == Some([row] + rows)
  {
  }

  /** One more written row in front of rows that read back. */
  lemma RowsReadStep(rows: seq<Row>)
    requires |rows| >= 1
    requires forall i :: 0 <= i < |rows| ==> Readable(rows[i])
    requires ReadRows(RenderRows(rows[1..])) == Some(rows[1..])
    ensures ReadRows(RenderRows(rows)) == Some(rows)
  {
    var tail := RenderRows(rows[1..]);
    if |rows| > 1 {
      RowStartsWithDigit(rows[1]);
      assert rows[1..][0] == rows[1];
    }
    RowRead(rows[0], tail);
    ReadRowsCons(RenderRows(rows), rows[0], tail, rows[1..]);
    HeadTail(rows);
  }

  /** Written rows read back as the same rows. */
  lemma {:induction false} RowsRead(rows: seq<Row>)
    requires forall i :: 0 <= i < |rows| ==> Readable(rows[i])
    ensures ReadRows(RenderRows(rows)) == Some(rows)
    decreases |rows|
  {
    if rows != [] {
      RowsRead(rows[1..]);
      RowsReadStep(rows);
    }
  }

  lemma ExportedRowsReadable(g: map<int, seq<Pair>>, sums: seq<int>)
    requires Exportable(g)
    requires forall i :: 0 <= i < |sums| ==> sums[i] in g
    ensures forall i :: 0 <= i < |sums| ==> Readable(RowsOf(g, sums)[i])
  {
  }

  /** An exported file reads back as one row per sum, in increasing order of sum. */
  lemma ExportRoundTrip(g: map<int, seq<Pair>>)
    requires Exportable(g)
    ensures ParseCsv(CsvText(g)) == Some(RowsOf(g, SortedSet(g.Keys)))
  {
    var rows := RowsOf(g, SortedSet(g.Keys));
    HeaderText();
    ExpectLiteral("Sum,Count,Pairs\r\n", RenderRows(rows));
    ExportedRowsReadable(g, SortedSet(g.Keys));
    RowsRead(rows);
  }

  lemma {:induction false} RowsToMapOfDistinct(g: map<int, seq<Pair>>, sums: seq<int>)
    requires forall i :: 0 <= i < |sums| ==> sums[i] in g
    requires forall i, j :: 0 <= i < j < |sums| ==> sums[i] < sums[j]
    ensures forall s :: s in RowsToMap(RowsOf(g, sums)) <==> s in sums
    ensures forall s :: s in RowsToMap(RowsOf(g, sums)) ==> RowsToMap(RowsOf(g, sums))[s] == g[s]
    decreases |sums|
  {
    if sums != [] {
      var init := sums[..|sums| - 1];
      RowsToMapOfDistinct(g, init);
      assert RowsOf(g, sums)[..|sums| - 1] == RowsOf(g, init);
      assert forall s :: s in sums <==> s in init || s == sums[|sums| - 1];
    }
  }

  lemma RebuildSorted(g: map<int, seq<Pair>>)
    ensures RowsToMap(RowsOf(g, SortedSet(g.Keys))) == g
  {
    var sums := SortedSet(g.Keys);
    SortedSetSpec(g.Keys);
    RowsToMapOfDistinct(g, sums);
    var h := RowsToMap(RowsOf(g, sums));
    assert forall s :: s in h <==> s in g;
    assert forall s :: s in h ==> h[s] == g[s];
  }

  /** The rows read back from an export rebuild exactly the map that was exported. */
  lemma ExportRebuildsMap(g: map<int, seq<Pair>>)
    requires Exportable(g)
    ensures ParseCsv(CsvText(g)).Some?
    ensures RowsToMap(ParseCsv(CsvText(g)).value) == g
  {
    ExportRoundTrip(g);
    RebuildSorted(g);
  }

  /** Every finished enumeration can be exported and read back. */
  lemma EnumerationExportable(power: nat, maxSum: int, m: int)
    ensures Exportable(Enumerate(power, maxSum, m))
  {
    var g: map<int, seq<Pair>> := Enumerate(power, maxSum, m);
    forall s: int | s in g
      ensures s >= 0 && |g[s]| >= 1
      ensures forall i :: 0 <= i < |g[s]| ==> g[s][i].a >= 0 && g[s][i].b >= 0
    {
      GroupBySumIsFilter(power, QualifyingPairs(power, maxSum, m), s);
      var q := g[s][0];
      EnumerateSound(power, maxSum, m, s, q);
      PowMonotone(1, q.a, power);
      PowMonotone(1, q.b, power);
      forall i: int | 0 <= i < |g[s]| ensures g[s][i].a >= 0 && g[s][i].b >= 0 {
        EnumerateSound(power, maxSum, m, s, g[s][i]);
      }
    }
  }

  /** Exporting a finished enumeration and reading the file back gives the enumeration again. */
  lemma EnumerationExportRoundTrip(power: nat, maxSum: int, m: int)
    ensures var g := Enumerate(power, maxSum, m);
      ParseCsv(CsvText(g)).Some? && RowsToMap(ParseCsv(CsvText(g)).value) == g
  {
    EnumerationExportable(power, maxSum, m);
    ExportRebuildsMap(Enumerate(power, maxSum, m));
  }
}
