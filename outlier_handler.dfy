/** `map_scripts/outlier_handler.py`: the mapper re-prints the first two tab
    fields of each line as two floats; the reducer collects the second value
    of every `age<TAB>completion` line, computes the quartiles of the
    collected values as `np.percentile` does, and filters the values lying
    outside the fences `Q1 - 1.5 IQR` and `Q3 + 1.5 IQR`. */
module OutlierHandler {
  import opened Script
  import opened Text
  import opened Stats

  /** One printed pair `<age><TAB><completion>`. */
  datatype Pair = Pair(age: real, completion: real)

  /** The two values a line with at least two fields carries, when `float()`
      reads both. */
  predicate Carries(line: string, parseFloat: string -> Option<real>, e: Pair)
  {
    var parts := Fields(line);
    |parts| >= 2 && parseFloat(parts[0]) == Some(e.age) && parseFloat(parts[1]) == Some(e.completion)
  }

  /** One iteration of the mapper loop: lines with fewer than two fields are
      skipped, and so is a line either of whose first two fields `float()`
      refuses, the `ValueError` being caught. */
  function MapLine(line: string, parseFloat: string -> Option<real>): (r: LineResult<Pair>)
    ensures r.Emit? && |r.items| <= 1
    ensures forall e :: e in r.items <==> Carries(line, parseFloat, e)
  {
    var parts := Fields(line);
    if |parts| < 2 then Emit([])
    else match (parseFloat(parts[0]), parseFloat(parts[1]))
      case (Some(age), Some(completion)) => Emit([Pair(age, completion)])
      case _ => Emit([])
  }

  /** The whole mapper over its input lines. */
  function Mapper(lines: seq<string>, parseFloat: string -> Option<real>): Outcome<Pair>
  {
    RunMapper(lines, line => MapLine(line, parseFloat))
  }

  /** The mapper never stops early, prints at most one pair per line, and
      prints exactly the pairs the lines carry. */
  lemma MapperEmissions(lines: seq<string>, parseFloat: string -> Option<real>, e: Pair)
    ensures var o := Mapper(lines, parseFloat);
            && o.status == Finished
            && |o.out| <= |lines|
            && (e in o.out <==> exists j :: 0 <= j < |lines| && Carries(lines[j], parseFloat, e))
  {
    var f := line => MapLine(line, parseFloat);
    RunMapperMember(lines, f, e);
    RunMapperBound(lines, f, 1);
  }

  // ---------------------------------------------------------------------
  // The reducer: collecting the data.

  /** `age, completion_percentage = map(float, line.strip().split("\t"))`
      succeeds exactly on two fields that `float()` both reads: a missing or
      extra field and a refused value all raise the `ValueError` the loop
      catches. */
  predicate Collects(row: seq<string>, parseFloat: string -> Option<real>)
  {
    |row| == 2 && parseFloat(row[0]).Some? && parseFloat(row[1]).Some?
  }

  /** `data`: the second value of every row that collects, in input order. */
  function Collected(rows: seq<seq<string>>, parseFloat: string -> Option<real>): (data: seq<real>)
    ensures |data| <= |rows|
  {
    if rows == [] then []
    else
      var last := rows[|rows| - 1];
      Collected(rows[..|rows| - 1], parseFloat) + (if Collects(last, parseFloat) then [parseFloat(last[1]).value] else [])
  }

  /** A value is collected exactly when some row that collects carries it
      as its second field. */
  lemma {:induction false} CollectedMember(rows: seq<seq<string>>, parseFloat: string -> Option<real>, x: real)
    ensures x in Collected(rows, parseFloat) <==>
            exists j :: 0 <= j < |rows| && Collects(rows[j], parseFloat) && parseFloat(rows[j][1]) == Some(x)
  {
    if rows != [] {
      var init := rows[..|rows| - 1];
      CollectedMember(init, parseFloat, x);
      if exists j :: 0 <= j < |rows| && Collects(rows[j], parseFloat) && parseFloat(rows[j][1]) == Some(x) {
        var j :| 0 <= j < |rows| && Collects(rows[j], parseFloat) && parseFloat(rows[j][1]) == Some(x);
        if j < |init| {
          assert init[j] == rows[j];
        }
      }
      if exists j :: 0 <= j < |init| && Collects(init[j], parseFloat) && parseFloat(init[j][1]) == Some(x) {
        var j :| 0 <= j < |init| && Collects(init[j], parseFloat) && parseFloat(init[j][1]) == Some(x);
        assert init[j] == rows[j];
      }
    }
  }

  /** As many values are collected as there are rows that collect. */
  function Collecting(rows: seq<seq<string>>, parseFloat: string -> Option<real>): nat
  {
    if rows == [] then 0
    else Collecting(rows[..|rows| - 1], parseFloat) + (if Collects(rows[|rows| - 1], parseFloat) then 1 else 0)
  }

  lemma {:induction false} CollectedLength(rows: seq<seq<string>>, parseFloat: string -> Option<real>)
    ensures |Collected(rows, parseFloat)| == Collecting(rows, parseFloat)
  {
    if rows != [] {
      CollectedLength(rows[..|rows| - 1], parseFloat);
    }
  }

  /** One more row: its second value is appended exactly when it collects. */
  lemma CollectStep(rows: seq<seq<string>>, parseFloat: string -> Option<real>, i: nat)
    requires i < |rows|
    ensures Collected(rows[..i + 1], parseFloat) ==
            Collected(rows[..i], parseFloat) + (if Collects(rows[i], parseFloat) then [parseFloat(rows[i][1]).value] else [])
  {
    assert rows[..i + 1][..i] == rows[..i];
    assert rows[..i + 1][i] == rows[i];
  }

  /** The collecting loop `for line in sys.stdin: ... data.append(...)`. */
  method CollectData(lines: seq<string>, parseFloat: string -> Option<real>) returns (data: seq<real>)
    ensures data == Collected(Rows(lines), parseFloat)
  {
    ghost var rows := Rows(lines);
    data := [];
    var i := 0;
    while i < |lines|
      invariant 0 <= i <= |lines|
      invariant data == Collected(rows[..i], parseFloat)
    {
      RowsIndex(lines, i);
      CollectStep(rows, parseFloat, i);
      var parts := Fields(lines[i]);
      ghost var before := data;
      if |parts| == 2 && parseFloat(parts[0]).Some? && parseFloat(parts[1]).Some? {
        data := data + [parseFloat(parts[1]).value];
      }
      assert data == before + (if Collects(parts, parseFloat) then [parseFloat(parts[1]).value] else []);
      i := i + 1;
    }
    assert rows[..i] == rows;
  }

  // ---------------------------------------------------------------------
  // The reducer: quartiles, fences and the filter.

  /** The values of `s` within `[lo, hi]`, in order:
      `[x for x in data if lower_bound <= x <= upper_bound]`. */
  function Within(s: seq<real>, lo: real, hi: real): (r: seq<real>)
    ensures |r| <= |s|
  {
    if s == [] then []
    else (if lo <= s[0] <= hi then [s[0]] else []) + Within(s[1..], lo, hi)
  }

  /** The number of values of `s` outside `[lo, hi]`. */
  function Outside(s: seq<real>, lo: real, hi: real): nat
  {
    if s == [] then 0
    else (if lo <= s[0] <= hi then 0 else 1) + Outside(s[1..], lo, hi)
  }

  /** What the reducer prints for non-empty data: the quartiles and their
      range, the number of values removed, and the first filtered values;
      the fences are kept alongside. */
  datatype Report = Report(q1: real, q3: real, iqr: real, lower: real, upper: real, removed: int, preview: seq<real>)

  /** The first ten values of `s`, or all of them if there are fewer:
      `s[:10]`. */
  function FirstTen(s: seq<real>): (r: seq<real>)
    ensures r <= s && |r| == if |s| < 10 then |s| else 10
  {
    s[..if |s| < 10 then |s| else 10]
  }

  /** The report for quartiles `q1` and `q3` of `data`. */
  function Fenced(data: seq<real>, q1: real, q3: real): Report
  {
    var iqr := q3 - q1;
    var lower := q1 - 1.5 * iqr;
    var upper := q3 + 1.5 * iqr;
    var filtered := Within(data, lower, upper);
    Report(q1, q3, iqr, lower, upper, |data| - |filtered|, FirstTen(filtered))
  }

  /** The reducer's statistics on the collected data, with
      `np.percentile(data, 25)` and `np.percentile(data, 75)` as the
      quartiles; nothing at all for no data. */
  function Summarize(data: seq<real>): (r: Option<Report>)
    ensures r.None? <==> data == []
  {
    if data == [] then None
    else Some(Fenced(data, Percentile(data, 25), Percentile(data, 75)))
  }

  /** The reducer: the collecting loop, then the statistics. */
  method Reducer(lines: seq<string>, parseFloat: string -> Option<real>) returns (r: Option<Report>)
    ensures r == Summarize(Collected(Rows(lines), parseFloat))
    ensures r.None? <==> forall j :: 0 <= j < |lines| ==> !Collects(Fields(lines[j]), parseFloat)
  {
    var data := CollectData(lines, parseFloat);
    NothingCollected(lines, parseFloat);
    r := Summarize(data);
  }

  /** Nothing is collected exactly when no line collects. */
  lemma NothingCollected(lines: seq<string>, parseFloat: string -> Option<real>)
    ensures Collected(Rows(lines), parseFloat) == [] <==> forall j :: 0 <= j < |lines| ==> !Collects(Fields(lines[j]), parseFloat)
  {
    var rows := Rows(lines);
    var data := Collected(rows, parseFloat);
    if exists j :: 0 <= j < |lines| && Collects(Fields(lines[j]), parseFloat) {
      var j :| 0 <= j < |lines| && Collects(Fields(lines[j]), parseFloat);
      RowsIndex(lines, j);
      CollectedMember(rows, parseFloat, parseFloat(rows[j][1]).value);
    }
    if data != [] {
      CollectedMember(rows, parseFloat, data[0]);
      var j :| 0 <= j < |rows| && Collects(rows[j], parseFloat) && parseFloat(rows[j][1]) == Some(data[0]);
      RowsIndex(lines, j);
    }
  }

  /** The quartiles lie within the data and in order, so the range is not
      negative and the fences enclose both quartiles. */
  lemma QuartilesOrdered(data: seq<real>)
    requires data != []
    ensures var r, t := Summarize(data).value, Sort(data);
            && t[0] <= r.q1 <= r.q3 <= t[|t| - 1]
            && r.iqr >= 0.0
            && r.lower <= r.q1 <= r.q3 <= r.upper
  {
    PercentileProperties(data, 25, 75);
    FencesEnclose(data, Percentile(data, 25), Percentile(data, 75));
  }

  lemma FencesEnclose(data: seq<real>, q1: real, q3: real)
    requires q1 <= q3
    ensures var r := Fenced(data, q1, q3);
            r.q1 == q1 && r.q3 == q3 && r.iqr >= 0.0 && r.lower <= q1 <= q3 <= r.upper
  {
  }

  /** The filter keeps exactly the values within the fences, both ends
      included. */
  lemma {:induction false} WithinMember(s: seq<real>, lo: real, hi: real, x: real)
    ensures x in Within(s, lo, hi) <==> x in s && lo <= x <= hi
  {
    if s != [] {
      WithinMember(s[1..], lo, hi, x);
      assert s == [s[0]] + s[1..];
    }
  }

  /** The filter works piecewise and keeps the order of what it keeps: on
      concatenated data it is the concatenation of the filtered pieces. */
  lemma {:induction false} WithinAppend(a: seq<real>, b: seq<real>, lo: real, hi: real)
    ensures Within(a + b, lo, hi) == Within(a, lo, hi) + Within(b, lo, hi)
  {
    if a != [] {
      assert (a + b)[1..] == a[1..] + b;
      WithinAppend(a[1..], b, lo, hi);
    } else {
      assert a + b == b;
    }
  }

  /** The filter drops exactly the values outside the fences. */
  lemma {:induction false} WithinRemoves(s: seq<real>, lo: real, hi: real)
    ensures |s| - |Within(s, lo, hi)| == Outside(s, lo, hi)
  {
    if s != [] {
      WithinRemoves(s[1..], lo, hi);
    }
  }

  /** The number removed is that of the values outside the fences, so it
      is never negative; the preview is the first ten filtered values, or
      all of them if there are fewer. */
  lemma RemovedAndPreview(data: seq<real>, q1: real, q3: real)
    ensures var r := Fenced(data, q1, q3);
            var filtered := Within(data, r.lower, r.upper);
            && r.removed == Outside(data, r.lower, r.upper) >= 0
            && |r.preview| == (if |filtered| < 10 then |filtered| else 10)
            && r.preview <= filtered
  {
    var r := Fenced(data, q1, q3);
    WithinRemoves(data, r.lower, r.upper);
  }

  /** The number of values outside the fences does not depend on their
      order. */
  lemma {:induction false} OutsidePermutation(a: seq<real>, b: seq<real>, lo: real, hi: real)
    requires multiset(a) == multiset(b)
    ensures Outside(a, lo, hi) == Outside(b, lo, hi)
    decreases |a|
  {
    if a != [] {
      var k := PermutationPick(a, b);
      var init, x := a[..|a| - 1], a[|a| - 1];
      var front, rest := b[..k], b[k + 1..];
      OutsidePermutation(init, front + rest, lo, hi);
      OutsideReinsert(init, x, front, rest, lo, hi);
    }
  }

  /** Putting a value back into two stretches with as many values outside
      the fences keeps them level. */
  lemma OutsideReinsert(init: seq<real>, x: real, front: seq<real>, rest: seq<real>, lo: real, hi: real)
    requires Outside(init, lo, hi) == Outside(front + rest, lo, hi)
    ensures Outside(init + [x], lo, hi) == Outside(front + [x] + rest, lo, hi)
  {
    OutsideAppend(init, [x], lo, hi);
    OutsideAppend(front + [x], rest, lo, hi);
    OutsideAppend(front, [x], lo, hi);
    OutsideAppend(front, rest, lo, hi);
    assert [x][1..] == [];
  }

  lemma {:induction false} OutsideAppend(a: seq<real>, b: seq<real>, lo: real, hi: real)
    ensures Outside(a + b, lo, hi) == Outside(a, lo, hi) + Outside(b, lo, hi)
  {
    if a != [] {
      assert (a + b)[1..] == a[1..] + b;
      OutsideAppend(a[1..], b, lo, hi);
    } else {
      assert a + b == b;
    }
  }

  /** The reducer receives its lines in whatever order the shuffle gives
      them: the quartiles, the fences and the number removed depend only on
      the collected values, not on their order. */
  lemma SummaryPermutation(a: seq<real>, b: seq<real>)
    requires a != [] && multiset(a) == multiset(b)
    ensures var ra, rb := Summarize(a).value, Summarize(b).value;
            && b != []
            && ra.q1 == rb.q1 && ra.q3 == rb.q3 && ra.iqr == rb.iqr
            && ra.lower == rb.lower && ra.upper == rb.upper
            && ra.removed == rb.removed
  {
    assert |a| == |multiset(a)| == |b|;
    SortedUnique(Sort(a), Sort(b));
    var q1, q3 := Percentile(a, 25), Percentile(a, 75);
    assert q1 == Percentile(b, 25) && q3 == Percentile(b, 75);
    var ra := Fenced(a, q1, q3);
    RemovedAndPreview(a, q1, q3);
    RemovedAndPreview(b, q1, q3);
    OutsidePermutation(a, b, ra.lower, ra.upper);
  }

  /** A worked case: on the completions 10, 12, 12, 13, 12, 11, 14, 13, 15
      and 102 the quartiles are 12 and 13.75, the fences 9.375 and 16.375,
      and one value, 102, is removed; the other nine are all shown. */
  lemma WorkedExample(data: seq<real>)
    requires data == [10.0, 12.0, 12.0, 13.0, 12.0, 11.0, 14.0, 13.0, 15.0, 102.0]
    ensures var r := Summarize(data).value;
            && r.q1 == 12.0 && r.q3 == 13.75 && r.iqr == 1.75
            && r.lower == 9.375 && r.upper == 16.375
            && r.removed == 1
            && r.preview == data[..9]
  {
    var t := ExampleSorted(data);
    ExampleQuartiles(t);
    ExampleFilter(data);
  }

  /** The worked case's data in order. */
  lemma ExampleSorted(data: seq<real>) returns (t: seq<real>)
    requires data == [10.0, 12.0, 12.0, 13.0, 12.0, 11.0, 14.0, 13.0, 15.0, 102.0]
    ensures t == [10.0, 11.0, 12.0, 12.0, 12.0, 13.0, 13.0, 14.0, 15.0, 102.0]
    ensures Sort(data) == t
  {
    t := [10.0, 11.0, 12.0, 12.0, 12.0, 13.0, 13.0, 14.0, 15.0, 102.0];
    assert Sorted(t);
    DataValues(data);
    SortedValues(t);
    SortedUnique(Sort(data), t);
  }

  /** The values of the worked case, counted with their repetitions. */
  function ExampleValues(): multiset<real>
  {
    multiset{10.0} + multiset{11.0} + multiset{12.0} + multiset{12.0} + multiset{12.0}
      + multiset{13.0} + multiset{13.0} + multiset{14.0} + multiset{15.0} + multiset{102.0}
  }

  lemma DataValues(data: seq<real>)
    requires data == [10.0, 12.0, 12.0, 13.0, 12.0, 11.0, 14.0, 13.0, 15.0, 102.0]
    ensures multiset(data) == ExampleValues()
  {
    assert data == [10.0] + [12.0] + [12.0] + [13.0] + [12.0] + [11.0] + [14.0] + [13.0] + [15.0] + [102.0];
  }

  lemma SortedValues(t: seq<real>)
    requires t == [10.0, 11.0, 12.0, 12.0, 12.0, 13.0, 13.0, 14.0, 15.0, 102.0]
    ensures multiset(t) == ExampleValues()
  {
    assert t == [10.0] + [11.0] + [12.0] + [12.0] + [12.0] + [13.0] + [13.0] + [14.0] + [15.0] + [102.0];
  }

  lemma ExampleQuartiles(t: seq<real>)
    requires t == [10.0, 11.0, 12.0, 12.0, 12.0, 13.0, 13.0, 14.0, 15.0, 102.0]
    ensures Interpolate(t, 25) == 12.0 && Interpolate(t, 75) == 13.75
  {
    assert Scaled(|t|, 25) == 225 && Scaled(|t|, 75) == 675;
  }

  lemma ExampleFilter(data: seq<real>)
    requires data == [10.0, 12.0, 12.0, 13.0, 12.0, 11.0, 14.0, 13.0, 15.0, 102.0]
    ensures Within(data, 9.375, 16.375) == data[..9]
  {
    var head, tail := data[..9], data[9..];
    assert data == head + tail;
    assert tail == [102.0];
    assert Within(tail, 9.375, 16.375) == [] by {
      assert tail[1..] == [];
    }
    WithinAppend(head, tail, 9.375, 16.375);
    WithinAll(head, 9.375, 16.375);
  }

  /** Data all within the fences is kept whole. */
  lemma {:induction false} WithinAll(s: seq<real>, lo: real, hi: real)
    requires forall i :: 0 <= i < |s| ==> lo <= s[i] <= hi
    ensures Within(s, lo, hi) == s
  {
    if s != [] {
      WithinAll(s[1..], lo, hi);
      assert s == [s[0]] + s[1..];
    }
  }
}
