/** `map_scripts/color_completion_reducer.py`: reads `color<TAB>percentage`
    lines (sorted by colour by the shuffle) and prints, for each run of one
    colour, the mean and the median of its percentages. */
module ColorCompletionReducer {
  import opened Script
  import opened Text
  import opened Grouping
  import opened Stats
  import opened Records

  /** One printed result line: `color<TAB>mean<TAB>median`. */
  datatype ColorStat = ColorStat(color: string, mean: real, median: real)

  /** The result line of one run. */
  function StatOf(g: Group<real>): ColorStat
    requires g.values != []
  {
    ColorStat(g.key, Mean(g.values), Median(g.values))
  }

  /** What closing one run prints: nothing when its colour is the empty
      string, because `if current_color:` is false for it. */
  function Flush(g: Group<real>): seq<ColorStat>
    requires g.values != []
  {
    if g.key != "" then [StatOf(g)] else []
  }

  /** The result lines of a sequence of closed runs. */
  function Report(gs: seq<Group<real>>): seq<ColorStat>
    requires forall i :: 0 <= i < |gs| ==> gs[i].values != []
  {
    if gs == [] then [] else Report(gs[..|gs| - 1]) + Flush(gs[|gs| - 1])
  }

  /** All runs but the last (still open) one. */
  function Closed(gs: seq<Group<real>>): (r: seq<Group<real>>)
    ensures |r| == if gs == [] then 0 else |gs| - 1
  {
    if gs == [] then [] else gs[..|gs| - 1]
  }

  /** What the script does with the rows of its input: one result per
      maximal run of equal colours among the rows whose value parses, the
      last run flushed after the loop; a row that does not unpack stops the
      script with the runs it had closed printed and the open run lost. */
  function RowsSpec(rows: seq<seq<string>>, parseFloat: string -> Option<real>): Outcome<ColorStat>
  {
    var n := FirstMalformed(rows);
    var gs := Runs(Parsed(rows[..n], parseFloat));
    if n == |rows| then Outcome(Report(gs), Finished)
    else Outcome(Report(Closed(gs)), Crashed(n, ValueError))
  }

  /** What the script does with its input lines. */
  function Spec(lines: seq<string>, parseFloat: string -> Option<real>): Outcome<ColorStat>
  {
    RowsSpec(Rows(lines), parseFloat)
  }

  /** The reducer's state after the parsed pairs `s`: `out` holds the lines
      of the closed runs, `current` and `values` the colour and the values of
      the open run (`None` before the first parsed pair). */
  predicate Tracks(s: seq<(string, real)>, out: seq<ColorStat>, current: Option<string>, values: seq<real>)
  {
    var gs := Runs(s);
    && out == Report(Closed(gs))
    && (gs == [] ==> current == None)
    && (gs != [] ==> current == Some(gs[|gs| - 1].key) && values == gs[|gs| - 1].values)
  }

  /** The line printed when the open run is closed, if its colour is truthy. */
  function Close(current: Option<string>, values: seq<real>): seq<ColorStat>
  {
    if current.Some? && current.value != "" && values != []
    then [ColorStat(current.value, Mean(values), Median(values))]
    else []
  }

  lemma TracksSameColor(s: seq<(string, real)>, out: seq<ColorStat>, current: Option<string>, values: seq<real>, k: string, v: real)
    requires Tracks(s, out, current, values) && current == Some(k)
    ensures Tracks(s + [(k, v)], out, current, values + [v])
  {
    var gs := Runs(s);
    RunsLast(s);
    RunsSameKey(s, k, v);
    var gs' := Runs(s + [(k, v)]);
    assert gs'[..|gs'| - 1] == gs[..|gs| - 1];
  }

  lemma TracksNewColor(s: seq<(string, real)>, out: seq<ColorStat>, current: Option<string>, values: seq<real>, k: string, v: real)
    requires Tracks(s, out, current, values) && current != Some(k)
    ensures current.Some? ==> values != []
    ensures Tracks(s + [(k, v)], out + Close(current, values), Some(k), [v])
  {
    var gs := Runs(s);
    if s != [] {
      RunsLast(s);
    }
    RunsNewKey(s, k, v);
    var gs' := Runs(s + [(k, v)]);
    assert gs'[..|gs'| - 1] == gs;
    TracksEnd(s, out, current, values);
  }

  lemma TracksEnd(s: seq<(string, real)>, out: seq<ColorStat>, current: Option<string>, values: seq<real>)
    requires Tracks(s, out, current, values)
    ensures current.Some? ==> values != []
    ensures out + Close(current, values) == Report(Runs(s))
  {
    var gs := Runs(s);
    if gs != [] {
      assert Close(current, values) == Flush(gs[|gs| - 1]);
    }
  }

  /** The reducer's variables `(printed lines, current_color, values)`. */
  datatype State = State(out: seq<ColorStat>, current: Option<string>, values: seq<real>)

  /** One parsed pair fed to the reducer: the same colour extends the open
      run, another colour closes it (printing it if its colour is truthy)
      and opens a new one. */
  function Feed(st: State, color: string, v: real): State
  {
    if st.current == Some(color) then State(st.out, st.current, st.values + [v])
    else State(st.out + Close(st.current, st.values), Some(color), [v])
  }

  /** The reducer's state after a stream of parsed pairs. */
  function Fold(s: seq<(string, real)>): State
  {
    if s == [] then State([], None, []) else Feed(Fold(s[..|s| - 1]), s[|s| - 1].0, s[|s| - 1].1)
  }

  lemma FoldSnoc(s: seq<(string, real)>, k: string, v: real)
    ensures Fold(s + [(k, v)]) == Feed(Fold(s), k, v)
  {
    assert (s + [(k, v)])[..|s|] == s;
  }

  /** Feeding a pair keeps the reducer's state in step with the runs. */
  lemma TracksFeed(s: seq<(string, real)>, st: State, k: string, v: real, s': seq<(string, real)>)
    requires Tracks(s, st.out, st.current, st.values) && s' == s + [(k, v)]
    ensures var st' := Feed(st, k, v); Tracks(s', st'.out, st'.current, st'.values)
  {
    if st.current == Some(k) {
      TracksSameColor(s, st.out, st.current, st.values, k, v);
    } else {
      TracksNewColor(s, st.out, st.current, st.values, k, v);
    }
  }

  lemma {:induction false} FoldTracks(s: seq<(string, real)>)
    ensures Tracks(s, Fold(s).out, Fold(s).current, Fold(s).values)
  {
    if s != [] {
      var init, k, v := s[..|s| - 1], s[|s| - 1].0, s[|s| - 1].1;
      SplitLast(s);
      FoldTracks(init);
      TracksFeed(init, Fold(init), k, v, s);
    }
  }

  /** The state machine and the run specification agree: after any stream
      the reducer has printed the closed runs and holds the open one, and
      its final flush prints exactly the report of all runs. */
  lemma FoldIsRuns(s: seq<(string, real)>)
    ensures Fold(s).out + Close(Fold(s).current, Fold(s).values) == Report(Runs(s))
  {
    FoldTracks(s);
    TracksEnd(s, Fold(s).out, Fold(s).current, Fold(s).values);
  }

  /** The reducer loop with its state `current_color` and `values`. */
  method Reducer(lines: seq<string>, parseFloat: string -> Option<real>)
    returns (out: seq<ColorStat>, status: Status)
    ensures Outcome(out, status) == Spec(lines, parseFloat)
  {
    ghost var rows := Rows(lines);
    var currentColor: Option<string> := None;
    var values: seq<real> := [];
    out := [];
    var i := 0;
    while i < |lines|
      invariant 0 <= i <= |lines|
      invariant FirstMalformed(rows[..i]) == i
      invariant Fold(Parsed(rows[..i], parseFloat)) == State(out, currentColor, values)
    {
      var fields := Fields(lines[i]);  // line.strip().split("\t")
      RowsIndex(lines, i);
      FirstMalformedStep(rows, i);
      if |fields| != 2 {
        ReducerCrash(lines, parseFloat, i);
        status := Crashed(i, ValueError);
        return;
      }
      var color, text := fields[0], fields[1];
      ReducerStep(rows, i, parseFloat);
      match parseFloat(text) {
        case None =>
        case Some(v) =>
          if currentColor == Some(color) {
            values := values + [v];
          } else {
            if currentColor.Some? && currentColor.value != "" {
              FoldValues(Parsed(rows[..i], parseFloat));
              out := out + [ColorStat(currentColor.value, Mean(values), Median(values))];
            }
            currentColor := Some(color);
            values := [v];
          }
      }
      i := i + 1;
    }
    TakeAll(rows);
    ReducerFinish(lines, parseFloat);
    if currentColor.Some? && currentColor.value != "" {
      FoldValues(Parsed(rows, parseFloat));
      out := out + [ColorStat(currentColor.value, Mean(values), Median(values))];
    }
    status := Finished;
  }

  /** Once a colour has been read, `values` holds at least its first value,
      so the guard `if current_color:` never meets an empty list. */
  lemma FoldValues(s: seq<(string, real)>)
    ensures Fold(s).current.Some? ==> Fold(s).values != []
  {
  }

  /** One row that unpacks moves the reducer's state by its parsed pair, if
      any. */
  lemma ReducerStep(rows: seq<seq<string>>, i: nat, parseFloat: string -> Option<real>)
    requires i < |rows| && Unpacks(rows[i])
    ensures var st := Fold(Parsed(rows[..i], parseFloat));
            Fold(Parsed(rows[..i + 1], parseFloat)) ==
              match parseFloat(rows[i][1])
              case None => st
              case Some(v) => Feed(st, rows[i][0], v)
  {
    var before := Parsed(rows[..i], parseFloat);
    ParsedStep(rows, i, parseFloat);
    match parseFloat(rows[i][1]) {
      case None =>
        assert Parsed(rows[..i + 1], parseFloat) == before;
      case Some(v) =>
        assert Parsed(rows[..i + 1], parseFloat) == before + [(rows[i][0], v)];
        FoldSnoc(before, rows[i][0], v);
    }
  }

  /** The first malformed line ends the script with the closed runs printed. */
  lemma ReducerCrash(lines: seq<string>, parseFloat: string -> Option<real>, i: nat)
    requires i < |lines| && FirstMalformed(Rows(lines)[..i]) == i && !Unpacks(Rows(lines)[i])
    ensures Spec(lines, parseFloat) == Outcome(Fold(Parsed(Rows(lines)[..i], parseFloat)).out, Crashed(i, ValueError))
  {
    FirstMalformedStep(Rows(lines), i);
    FoldTracks(Parsed(Rows(lines)[..i], parseFloat));
  }

  /** Input without a malformed line ends with the open run flushed. */
  lemma ReducerFinish(lines: seq<string>, parseFloat: string -> Option<real>)
    requires FirstMalformed(Rows(lines)) == |lines|
    ensures var st := Fold(Parsed(Rows(lines), parseFloat));
            Spec(lines, parseFloat) == Outcome(st.out + Close(st.current, st.values), Finished)
  {
    var rows := Rows(lines);
    var p := Parsed(rows, parseFloat);
    TakeAll(rows);
    FoldIsRuns(p);
  }

  /** The colours of the result lines, in order. */
  function Colors(out: seq<ColorStat>): (r: seq<string>)
    ensures |r| == |out| && forall i :: 0 <= i < |out| ==> r[i] == out[i].color
  {
    seq(|out|, i requires 0 <= i < |out| => out[i].color)
  }

  /** The result lines are, in order, the statistics of the runs with a
      non-empty colour, one line per such run. */
  lemma {:induction false} ReportIsPerRun(gs: seq<Group<real>>)
    requires forall i :: 0 <= i < |gs| ==> gs[i].values != []
    ensures |Report(gs)| == |Named(gs)|
    ensures forall k :: 0 <= k < |Report(gs)| ==>
              Named(gs)[k].values != [] && Report(gs)[k] == StatOf(Named(gs)[k])
  {
    NamedRuns(gs);
    if gs != [] {
      var init, g := gs[..|gs| - 1], gs[|gs| - 1];
      ReportIsPerRun(init);
      var r, ri, n, ni := Report(gs), Report(init), Named(gs), Named(init);
      assert r == ri + Flush(g);
      if g.key != "" {
        assert n == ni + [g];
        forall k | 0 <= k < |r|
          ensures n[k].values != [] && r[k] == StatOf(n[k])
        {
          if k < |ri| {
            assert r[k] == ri[k] && n[k] == ni[k];
          }
        }
      } else {
        assert n == ni && r == ri;
      }
    }
  }

  /** With the shuffle's guarantee (equal colours contiguous among the parsed
      rows), a complete run prints exactly one line per distinct non-empty
      colour. */
  lemma OneLinePerColor(rows: seq<seq<string>>, parseFloat: string -> Option<real>)
    requires FirstMalformed(rows) == |rows|
    requires KeysContiguous(Parsed(rows, parseFloat))
    ensures var out := RowsSpec(rows, parseFloat).out;
            && (forall a, b :: 0 <= a < b < |out| ==> out[a].color != out[b].color)
            && (forall c :: c in Colors(out) <==> c != "" && c in Keys(Parsed(rows, parseFloat)))
  {
    TakeAll(rows);
    var s := Parsed(rows, parseFloat);
    var gs := Runs(s);
    OneRunPerKey(s);
    NamedRuns(gs);
    ReportIsPerRun(gs);
    var out, n := Report(gs), Named(gs);
    assert Colors(out) == GroupKeys(n);
  }

  /** With the shuffle's guarantee, each result line carries the mean and the
      median of all the values of its colour, in input order. */
  lemma ColorStatistics(rows: seq<seq<string>>, parseFloat: string -> Option<real>)
    requires FirstMalformed(rows) == |rows|
    requires KeysContiguous(Parsed(rows, parseFloat))
    ensures var out := RowsSpec(rows, parseFloat).out;
            var s := Parsed(rows, parseFloat);
            forall k :: 0 <= k < |out| ==>
              var vs := ValuesOf(s, out[k].color);
              vs != [] && out[k] == ColorStat(out[k].color, Mean(vs), Median(vs))
  {
    TakeAll(rows);
    var s := Parsed(rows, parseFloat);
    var gs := Runs(s);
    NamedRuns(gs);
    ReportIsPerRun(gs);
    var out, n := Report(gs), Named(gs);
    forall k | 0 <= k < |out|
      ensures var vs := ValuesOf(s, out[k].color);
              vs != [] && out[k] == ColorStat(out[k].color, Mean(vs), Median(vs))
    {
      var i :| 0 <= i < |gs| && gs[i] == n[k];
      RunHoldsAllValues(s, i);
    }
  }

  /** A row whose value `float()` rejects changes nothing: taking it out of
      the input leaves the printed results as they were. */
  lemma UnparsableLineIgnored(a: seq<seq<string>>, row: seq<string>, b: seq<seq<string>>, parseFloat: string -> Option<real>)
    requires Unpacks(row) && parseFloat(row[1]).None?
    ensures RowsSpec(a + [row] + b, parseFloat).out == RowsSpec(a + b, parseFloat).out
  {
    if FirstMalformed(a) < |a| {
      UnparsableAfterCrash(a, row, b, parseFloat);
    } else {
      UnparsableBeforeCrash(a, row, b, parseFloat);
    }
  }

  /** A row after the first malformed one is never looked at. */
  lemma UnparsableAfterCrash(a: seq<seq<string>>, row: seq<string>, b: seq<seq<string>>, parseFloat: string -> Option<real>)
    requires FirstMalformed(a) < |a|
    ensures RowsSpec(a + [row] + b, parseFloat).out == RowsSpec(a + b, parseFloat).out
  {
    var ar := a + [row];
    var x, y := ar + b, a + b;
    var n := FirstMalformed(a);
    FirstMalformedAppend(a, [row]);
    FirstMalformedAppend(ar, b);
    FirstMalformedAppend(a, b);
    TakeOfAppend(a, b, n);
    TakeOfAppend(a, [row], n);
    TakeOfAppend(ar, b, n);
    assert x[..n] == y[..n];
    RowsSpecAgree(x, y, parseFloat);
  }

  /** An unparsable row before any malformed one contributes no pair. */
  lemma UnparsableBeforeCrash(a: seq<seq<string>>, row: seq<string>, b: seq<seq<string>>, parseFloat: string -> Option<real>)
    requires Unpacks(row) && parseFloat(row[1]).None?
    requires FirstMalformed(a) == |a|
    ensures RowsSpec(a + [row] + b, parseFloat).out == RowsSpec(a + b, parseFloat).out
  {
    UnparsableSamePairs(a, row, b, parseFloat, a + [row] + b, a + b);
    RowsSpecAgree(a + [row] + b, a + b, parseFloat);
  }

  lemma UnparsableSamePairs(a: seq<seq<string>>, row: seq<string>, b: seq<seq<string>>, parseFloat: string -> Option<real>,
                            x: seq<seq<string>>, y: seq<seq<string>>)
    requires Unpacks(row) && parseFloat(row[1]).None?
    requires FirstMalformed(a) == |a|
    requires x == a + [row] + b && y == a + b
    ensures (FirstMalformed(x) == |x|) == (FirstMalformed(y) == |y|)
    ensures Parsed(x[..FirstMalformed(x)], parseFloat) == Parsed(y[..FirstMalformed(y)], parseFloat)
  {
    FirstMalformedInsert(a, row, b);
    UnparsablePrefixes(a, row, b, parseFloat, x, y, FirstMalformed(b));
  }

  lemma UnparsablePrefixes(a: seq<seq<string>>, row: seq<string>, b: seq<seq<string>>, parseFloat: string -> Option<real>,
                           x: seq<seq<string>>, y: seq<seq<string>>, m: nat)
    requires Unpacks(row) && parseFloat(row[1]).None? && m <= |b|
    requires x == a + [row] + b && y == a + b
    ensures Parsed(x[..|a| + 1 + m], parseFloat) == Parsed(y[..|a| + m], parseFloat)
  {
    TakeInsert(a, row, b, m);
    UnparsableRowDropped(a, row, b[..m], parseFloat);
  }

  /** Two inputs print the same when they end the same way and their rows
      before the first malformed one yield the same pairs. */
  lemma RowsSpecAgree(x: seq<seq<string>>, y: seq<seq<string>>, parseFloat: string -> Option<real>)
    requires (FirstMalformed(x) == |x|) == (FirstMalformed(y) == |y|)
    requires Parsed(x[..FirstMalformed(x)], parseFloat) == Parsed(y[..FirstMalformed(y)], parseFloat)
    ensures RowsSpec(x, parseFloat).out == RowsSpec(y, parseFloat).out
  {
  }

  /** Input in which no value parses (empty input included) prints nothing. */
  lemma NothingToFlush(rows: seq<seq<string>>, parseFloat: string -> Option<real>)
    requires forall j :: 0 <= j < |rows| ==> Unpacks(rows[j]) && parseFloat(rows[j][1]).None?
    ensures RowsSpec(rows, parseFloat) == Outcome([], Finished)
  {
    NoValues(rows, parseFloat);
    TakeAll(rows);
  }

  lemma {:induction false} NoValues(rows: seq<seq<string>>, parseFloat: string -> Option<real>)
    requires forall j :: 0 <= j < |rows| ==> Unpacks(rows[j]) && parseFloat(rows[j][1]).None?
    ensures Parsed(rows, parseFloat) == []
  {
    if rows != [] {
      var init := rows[..|rows| - 1];
      assert forall j :: 0 <= j < |init| ==> init[j] == rows[j];
      NoValues(init, parseFloat);
    }
  }
}
