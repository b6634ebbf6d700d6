/** `map_scripts/reducer_analysis.py`: reads `feature<TAB>percentage` lines
    (sorted by feature by the shuffle), echoes every line it reads, and
    prints for each run of one feature the mean of its percentages, kept as
    a running sum and count. */
module ReducerAnalysis {
  import opened Script
  import opened Text
  import opened Grouping
  import opened Stats
  import opened Records

  /** A printed line: the debug echo `Received line: <stripped line>`, or a
      result line `feature<TAB>mean`. */
  datatype Printed = Received(line: string) | Average(feature: string, mean: real)

  /** `total_completion / count`. */
  function Ratio(total: real, count: nat): real
    requires count > 0
  {
    total / count as real
  }

  /** The result line of one run. */
  function AverageOf(g: Group<real>): Printed
    requires g.values != []
  {
    Average(g.key, Mean(g.values))
  }

  /** What closing one run prints: nothing when its feature is the empty
      string, because `if current_feature:` is false for it. */
  function Flush(g: Group<real>): seq<Printed>
    requires g.values != []
  {
    if g.key != "" then [AverageOf(g)] else []
  }

  /** The result lines of a sequence of closed runs. */
  function Report(gs: seq<Group<real>>): seq<Printed>
    requires forall i :: 0 <= i < |gs| ==> gs[i].values != []
  {
    if gs == [] then [] else Report(gs[..|gs| - 1]) + Flush(gs[|gs| - 1])
  }

  /** What a row prints after its echo, given the runs of the pairs parsed
      before it: a row whose value parses and whose feature differs from the
      open run's closes that run. */
  function Boundary(gs: seq<Group<real>>, row: seq<string>, parseFloat: string -> Option<real>): seq<Printed>
    requires forall i :: 0 <= i < |gs| ==> gs[i].values != []
  {
    if Unpacks(row) && parseFloat(row[1]).Some? && gs != [] && gs[|gs| - 1].key != row[0]
    then Flush(gs[|gs| - 1])
    else []
  }

  /** What the loop prints for the rows it reads (with `echoes` the
      stripped lines): each line's echo, then the result line of the run it
      closes, if any. */
  function Echoed(rows: seq<seq<string>>, echoes: seq<string>, parseFloat: string -> Option<real>): seq<Printed>
    requires |rows| == |echoes|
  {
    if rows == [] then []
    else
      var n := |rows| - 1;
      Echoed(rows[..n], echoes[..n], parseFloat) + [Received(echoes[n])]
        + Boundary(Runs(Parsed(rows[..n], parseFloat)), rows[n], parseFloat)
  }

  /** The test after the loop, `if current_feature == feature:`, where
      `feature` is the feature of the last line read, parsed or not: the
      open run is printed only when it carries that feature. */
  function FinalFlush(s: seq<(string, real)>, feature: string): seq<Printed>
  {
    var gs := Runs(s);
    if gs != [] && gs[|gs| - 1].key == feature then [AverageOf(gs[|gs| - 1])] else []
  }

  /** What the script does with the rows of its input. A line that does not
      unpack is echoed and then stops the script with a `ValueError`; on
      empty input `feature` is never bound and the final test raises
      `UnboundLocalError`. */
  function RowsSpec(rows: seq<seq<string>>, echoes: seq<string>, parseFloat: string -> Option<real>): Outcome<Printed>
    requires |rows| == |echoes|
  {
    var n := FirstMalformed(rows);
    if n < |rows| then Outcome(Echoed(rows[..n + 1], echoes[..n + 1], parseFloat), Crashed(n, ValueError))
    else if rows == [] then Outcome([], Crashed(0, UnboundLocalError))
    else
      FirstMalformedUnpacks(rows, n - 1);
      Outcome(Echoed(rows, echoes, parseFloat) + FinalFlush(Parsed(rows, parseFloat), rows[n - 1][0]), Finished)
  }

  /** What the script does with its input lines. */
  function Spec(lines: seq<string>, parseFloat: string -> Option<real>): Outcome<Printed>
  {
    RowsSpec(Rows(lines), Echoes(lines), parseFloat)
  }

  /** The variables `current_feature`, `total_completion` and `count`. */
  datatype Acc = Acc(current: Option<string>, total: real, count: nat)

  /** One parsed pair: the same feature adds to the running sum and count,
      another feature starts them afresh. */
  function Feed(acc: Acc, k: string, v: real): Acc
  {
    if acc.current == Some(k) then Acc(acc.current, acc.total + v, acc.count + 1)
    else Acc(Some(k), v, 1)
  }

  /** The variables after a stream of parsed pairs. */
  function Fold(s: seq<(string, real)>): (acc: Acc)
    ensures acc.current.Some? ==> acc.count > 0
  {
    if s == [] then Acc(None, 0.0, 0) else Feed(Fold(s[..|s| - 1]), s[|s| - 1].0, s[|s| - 1].1)
  }

  /** The variables a sequence of runs calls for: the feature, the sum and
      the number of values of the open (last) run. */
  function Open(gs: seq<Group<real>>): Acc
  {
    if gs == [] then Acc(None, 0.0, 0)
    else Acc(Some(gs[|gs| - 1].key), Sum(gs[|gs| - 1].values), |gs[|gs| - 1].values|)
  }

  /** Whenever `current_feature` is set, `total_completion` is the sum and
      `count` the number of the values of the open run, so `count >= 1` and
      the division `total_completion / count` is that run's mean. */
  lemma {:induction false} FoldIsOpen(s: seq<(string, real)>)
    ensures Fold(s) == Open(Runs(s))
  {
    if s != [] {
      var init, k, v := s[..|s| - 1], s[|s| - 1].0, s[|s| - 1].1;
      SplitLast(s);
      FoldIsOpen(init);
      OpenFeed(init, k, v, s);
    }
  }

  lemma OpenFeed(s: seq<(string, real)>, k: string, v: real, s': seq<(string, real)>)
    requires s' == s + [(k, v)]
    ensures Open(Runs(s')) == Feed(Open(Runs(s)), k, v)
  {
    if s != [] && s[|s| - 1].0 == k {
      OpenSameKey(s, k, v, s');
    } else {
      OpenNewKey(s, k, v, s');
    }
  }

  lemma OpenSameKey(s: seq<(string, real)>, k: string, v: real, s': seq<(string, real)>)
    requires s != [] && s[|s| - 1].0 == k && s' == s + [(k, v)]
    ensures Open(Runs(s')) == Feed(Open(Runs(s)), k, v)
  {
    RunsLast(s);
    RunsSameKey(s, k, v);
    var r := Runs(s);
    var g := r[|r| - 1];
    SumSnoc(g.values, v);
    var r' := r[..|r| - 1] + [Group(k, g.values + [v])];
    assert Open(r') == Acc(Some(k), Sum(g.values) + v, |g.values| + 1);
  }

  lemma OpenNewKey(s: seq<(string, real)>, k: string, v: real, s': seq<(string, real)>)
    requires (s == [] || s[|s| - 1].0 != k) && s' == s + [(k, v)]
    ensures Open(Runs(s')) == Feed(Open(Runs(s)), k, v)
  {
    RunsNewKey(s, k, v);
    var r := Runs(s);
    assert Open(r).current != Some(k) by {
      if s != [] { RunsLast(s); }
    }
    SumSnoc([], v);
    assert Open(r + [Group(k, [v])]) == Acc(Some(k), v, 1);
  }

  lemma SumSnoc(s: seq<real>, v: real)
    ensures Sum(s + [v]) == Sum(s) + v
  {
    assert (s + [v])[..|s|] == s;
  }

  /** The result line printed when a pair with feature `k` meets the open
      run, computed from the variables: the open run is closed, and printed
      if its feature is truthy (`if current_feature:`). */
  function Closing(acc: Acc, k: string): seq<Printed>
    requires acc.current.Some? ==> acc.count > 0
  {
    if acc.current.Some? && acc.current.value != k && acc.current.value != ""
    then [Average(acc.current.value, Ratio(acc.total, acc.count))]
    else []
  }

  /** The variables decide the boundary output exactly as the runs do. */
  lemma BoundaryOfFold(s: seq<(string, real)>, row: seq<string>, parseFloat: string -> Option<real>)
    ensures Boundary(Runs(s), row, parseFloat) ==
              if Unpacks(row) && parseFloat(row[1]).Some? then Closing(Fold(s), row[0]) else []
  {
    FoldIsOpen(s);
  }

  /** The final test computed from the variables. */
  function FinalClosing(acc: Acc, feature: string): seq<Printed>
    requires acc.current.Some? ==> acc.count > 0
  {
    if acc.current == Some(feature) then [Average(acc.current.value, Ratio(acc.total, acc.count))] else []
  }

  /** The variables decide the final output exactly as the runs do. */
  lemma FinalFlushOfFold(s: seq<(string, real)>, feature: string)
    ensures FinalFlush(s, feature) == FinalClosing(Fold(s), feature)
  {
    FoldIsOpen(s);
  }

  lemma FoldSnoc(s: seq<(string, real)>, k: string, v: real)
    ensures Fold(s + [(k, v)]) == Feed(Fold(s), k, v)
  {
    assert (s + [(k, v)])[..|s|] == s;
  }

  /** The loop's variables: the lines printed so far, the running sums, and
      `feature` (`None` while it is unbound). */
  datatype Loop = Loop(out: seq<Printed>, acc: Acc, feature: Option<string>)

  /** One pass of the loop body over a line with fields `row` that strips
      to `echo`. A line that does not unpack is only echoed; the exception
      it raises is `RowsSpec`'s concern. */
  function Step(st: Loop, echo: string, row: seq<string>, parseFloat: string -> Option<real>): Loop
    requires st.acc.current.Some? ==> st.acc.count > 0
  {
    var out := st.out + [Received(echo)];
    if !Unpacks(row) then Loop(out, st.acc, st.feature)
    else match parseFloat(row[1])
      case None => Loop(out, st.acc, Some(row[0]))
      case Some(v) => Loop(out + Closing(st.acc, row[0]), Feed(st.acc, row[0], v), Some(row[0]))
  }

  /** The loop's variables after reading `rows`. */
  function LineFold(rows: seq<seq<string>>, echoes: seq<string>, parseFloat: string -> Option<real>): (st: Loop)
    requires |rows| == |echoes|
    ensures st.acc.current.Some? ==> st.acc.count > 0
  {
    if rows == [] then Loop([], Acc(None, 0.0, 0), None)
    else
      var n := |rows| - 1;
      Step(LineFold(rows[..n], echoes[..n], parseFloat), echoes[n], rows[n], parseFloat)
  }

  lemma LineFoldSnoc(rows: seq<seq<string>>, echoes: seq<string>, i: nat, parseFloat: string -> Option<real>)
    requires |rows| == |echoes| && i < |rows|
    ensures LineFold(rows[..i + 1], echoes[..i + 1], parseFloat) ==
              Step(LineFold(rows[..i], echoes[..i], parseFloat), echoes[i], rows[i], parseFloat)
  {
    TakeNext(rows, i);
    TakeNext(echoes, i);
    assert rows[..i + 1][..i] == rows[..i];
    assert echoes[..i + 1][..i] == echoes[..i];
  }

  /** The loop and the run specification agree on any input: it has printed
      what `Echoed` says, and its running sums are those of the parsed pairs. */
  lemma {:induction false} LineFoldIsEchoed(rows: seq<seq<string>>, echoes: seq<string>, parseFloat: string -> Option<real>)
    requires |rows| == |echoes|
    ensures LineFold(rows, echoes, parseFloat).out == Echoed(rows, echoes, parseFloat)
    ensures LineFold(rows, echoes, parseFloat).acc == Fold(Parsed(rows, parseFloat))
  {
    if rows != [] {
      var n := |rows| - 1;
      LineFoldIsEchoed(rows[..n], echoes[..n], parseFloat);
      EchoedStep(rows, echoes, parseFloat);
    }
  }

  lemma EchoedStep(rows: seq<seq<string>>, echoes: seq<string>, parseFloat: string -> Option<real>)
    requires |rows| == |echoes| && rows != []
    requires var n := |rows| - 1;
             && LineFold(rows[..n], echoes[..n], parseFloat).out == Echoed(rows[..n], echoes[..n], parseFloat)
             && LineFold(rows[..n], echoes[..n], parseFloat).acc == Fold(Parsed(rows[..n], parseFloat))
    ensures LineFold(rows, echoes, parseFloat).out == Echoed(rows, echoes, parseFloat)
    ensures LineFold(rows, echoes, parseFloat).acc == Fold(Parsed(rows, parseFloat))
  {
    var n := |rows| - 1;
    EchoedStepOut(rows, echoes, parseFloat, LineFold(rows[..n], echoes[..n], parseFloat));
    EchoedStepAcc(rows, echoes, parseFloat, LineFold(rows[..n], echoes[..n], parseFloat));
  }

  lemma EchoedStepOut(rows: seq<seq<string>>, echoes: seq<string>, parseFloat: string -> Option<real>, prev: Loop)
    requires |rows| == |echoes| && rows != []
    requires prev == LineFold(rows[..|rows| - 1], echoes[..|rows| - 1], parseFloat)
    requires prev.out == Echoed(rows[..|rows| - 1], echoes[..|rows| - 1], parseFloat)
    requires prev.acc == Fold(Parsed(rows[..|rows| - 1], parseFloat))
    ensures LineFold(rows, echoes, parseFloat).out == Echoed(rows, echoes, parseFloat)
  {
    var n := |rows| - 1;
    var row := rows[n];
    assert LineFold(rows, echoes, parseFloat) == Step(prev, echoes[n], row, parseFloat);
    BoundaryOfFold(Parsed(rows[..n], parseFloat), row, parseFloat);
  }

  lemma EchoedStepAcc(rows: seq<seq<string>>, echoes: seq<string>, parseFloat: string -> Option<real>, prev: Loop)
    requires |rows| == |echoes| && rows != []
    requires prev == LineFold(rows[..|rows| - 1], echoes[..|rows| - 1], parseFloat)
    requires prev.acc == Fold(Parsed(rows[..|rows| - 1], parseFloat))
    ensures LineFold(rows, echoes, parseFloat).acc == Fold(Parsed(rows, parseFloat))
  {
    var n := |rows| - 1;
    var row, s := rows[n], Parsed(rows[..n], parseFloat);
    assert LineFold(rows, echoes, parseFloat) == Step(prev, echoes[n], row, parseFloat);
    assert Parsed(rows, parseFloat) == s + ParseOne(row, parseFloat);
    if Unpacks(row) && parseFloat(row[1]).Some? {
      FoldSnoc(s, row[0], parseFloat(row[1]).value);
    } else {
      assert s + ParseOne(row, parseFloat) == s;
    }
  }

  /** One line that unpacks: its echo, the result line of the run it
      closes, and the new sums, as the loop body computes them. */
  lemma AnalysisStep(rows: seq<seq<string>>, echoes: seq<string>, parseFloat: string -> Option<real>, i: nat, st: Loop)
    requires |rows| == |echoes| && i < |rows| && Unpacks(rows[i])
    requires st == LineFold(rows[..i], echoes[..i], parseFloat)
    ensures var out, k := st.out + [Received(echoes[i])], rows[i][0];
            LineFold(rows[..i + 1], echoes[..i + 1], parseFloat) ==
              match parseFloat(rows[i][1])
              case None => Loop(out, st.acc, Some(k))
              case Some(v) => Loop(out + Closing(st.acc, k), Feed(st.acc, k, v), Some(k))
  {
    LineFoldSnoc(rows, echoes, i, parseFloat);
  }

  /** The first malformed line is echoed and ends the script. */
  lemma AnalysisCrash(rows: seq<seq<string>>, echoes: seq<string>, parseFloat: string -> Option<real>, i: nat)
    requires |rows| == |echoes| && i < |rows| && FirstMalformed(rows[..i]) == i && !Unpacks(rows[i])
    ensures RowsSpec(rows, echoes, parseFloat) == Outcome(LineFold(rows[..i + 1], echoes[..i + 1], parseFloat).out, Crashed(i, ValueError))
  {
    FirstMalformedStep(rows, i);
    LineFoldIsEchoed(rows[..i + 1], echoes[..i + 1], parseFloat);
  }

  /** Input without a malformed line ends with the final test, `feature`
      being the feature of the last line. */
  lemma AnalysisFinish(rows: seq<seq<string>>, echoes: seq<string>, parseFloat: string -> Option<real>)
    requires |rows| == |echoes| && rows != [] && FirstMalformed(rows) == |rows|
    ensures Unpacks(rows[|rows| - 1])
    ensures LineFold(rows, echoes, parseFloat).feature == Some(rows[|rows| - 1][0])
    ensures var st := LineFold(rows, echoes, parseFloat);
            RowsSpec(rows, echoes, parseFloat) == Outcome(st.out + FinalClosing(st.acc, rows[|rows| - 1][0]), Finished)
  {
    FirstMalformedUnpacks(rows, |rows| - 1);
    LineFoldIsEchoed(rows, echoes, parseFloat);
    FinalFlushOfFold(Parsed(rows, parseFloat), rows[|rows| - 1][0]);
  }

  /** The part of the loop body after the unpacking: `float()` on the
      value, then either adding to the open run or closing it and opening
      one for `key`. */
  method Accumulate(out: seq<Printed>, currentFeature: Option<string>, total: real, count: nat,
                    key: string, text: string, parseFloat: string -> Option<real>)
    returns (out': seq<Printed>, currentFeature': Option<string>, total': real, count': nat)
    requires currentFeature.Some? ==> count > 0
    ensures var acc := Acc(currentFeature, total, count);
            match parseFloat(text)
            case None => out' == out && Acc(currentFeature', total', count') == acc
            case Some(v) => out' == out + Closing(acc, key) && Acc(currentFeature', total', count') == Feed(acc, key, v)
  {
    out', currentFeature', total', count' := out, currentFeature, total, count;
    match parseFloat(text) {
      case None =>  // `except ValueError: continue`
      case Some(v) =>
        if currentFeature == Some(key) {
          total' := total + v;
          count' := count + 1;
        } else {
          if currentFeature.Some? && currentFeature.value != "" {
            out' := out + [Average(currentFeature.value, Ratio(total, count))];
          }
          currentFeature' := Some(key);
          total' := v;
          count' := 1;
        }
    }
  }

  /** The whole script: the loop over the input lines, then the final
      test. */
  method Reducer(lines: seq<string>, parseFloat: string -> Option<real>)
    returns (out: seq<Printed>, status: Status)
    ensures Outcome(out, status) == Spec(lines, parseFloat)
  {
    var read, currentFeature, total, count, feature, crashedAt := ReadLines(lines, parseFloat);
    if crashedAt.Some? {
      return read, Crashed(crashedAt.value, ValueError);
    }
    out, status := Finish(lines, parseFloat, read, currentFeature, total, count, feature);
  }

  /** The reducer loop with its variables `current_feature`,
      `total_completion`, `count` and the loop variable `feature`; it stops
      at the first line that does not unpack, reporting its index. */
  method ReadLines(lines: seq<string>, parseFloat: string -> Option<real>)
    returns (out: seq<Printed>, currentFeature: Option<string>, total: real, count: nat, feature: Option<string>, crashedAt: Option<nat>)
    ensures crashedAt.Some? ==> Outcome(out, Crashed(crashedAt.value, ValueError)) == Spec(lines, parseFloat)
    ensures crashedAt.None? ==> && FirstMalformed(Rows(lines)) == |lines|
                                && LineFold(Rows(lines), Echoes(lines), parseFloat) == Loop(out, Acc(currentFeature, total, count), feature)
  {
    ghost var rows, echoes := Rows(lines), Echoes(lines);
    currentFeature, total, count, feature := None, 0.0, 0, None;  // `feature` is unbound until a line unpacks
    out := [];
    var i := 0;
    while i < |lines|
      invariant 0 <= i <= |lines|
      invariant FirstMalformed(rows[..i]) == i
      invariant LineFold(rows[..i], echoes[..i], parseFloat) == Loop(out, Acc(currentFeature, total, count), feature)
    {
      var crashed;
      out, currentFeature, total, count, feature, crashed := ReadLine(lines, parseFloat, i, out, currentFeature, total, count, feature);
      if crashed {
        return out, currentFeature, total, count, feature, Some(i);
      }
      i := i + 1;
    }
    TakeAll(rows);
    TakeAll(echoes);
    crashedAt := None;
  }

  /** One pass of the loop body over line `i`: the debug echo, the
      unpacking, which raises `ValueError` on a line without exactly two
      fields, and the accumulation. */
  method ReadLine(lines: seq<string>, parseFloat: string -> Option<real>, i: nat,
                  out: seq<Printed>, currentFeature: Option<string>, total: real, count: nat, feature: Option<string>)
    returns (out': seq<Printed>, currentFeature': Option<string>, total': real, count': nat, feature': Option<string>, crashed: bool)
    requires i < |lines| && FirstMalformed(Rows(lines)[..i]) == i
    requires LineFold(Rows(lines)[..i], Echoes(lines)[..i], parseFloat) == Loop(out, Acc(currentFeature, total, count), feature)
    ensures crashed ==> Outcome(out', Crashed(i, ValueError)) == Spec(lines, parseFloat)
    ensures !crashed ==> && FirstMalformed(Rows(lines)[..i + 1]) == i + 1 && feature'.Some?
                         && LineFold(Rows(lines)[..i + 1], Echoes(lines)[..i + 1], parseFloat) ==
                            Loop(out', Acc(currentFeature', total', count'), feature')
  {
    ghost var rows, echoes := Rows(lines), Echoes(lines);
    RowsIndex(lines, i);
    EchoesIndex(lines, i);
    out' := out + [Received(Strip(lines[i]))];
    var fields := Fields(lines[i]);  // line.strip().split("\t")
    if |fields| != 2 {
      LineFoldSnoc(rows, echoes, i, parseFloat);
      AnalysisCrash(rows, echoes, parseFloat, i);
      return out', currentFeature, total, count, feature, true;
    }
    var key, text := fields[0], fields[1];
    FirstMalformedGrow(rows, i);
    AnalysisStep(rows, echoes, parseFloat, i, LineFold(rows[..i], echoes[..i], parseFloat));
    feature' := Some(key);
    out', currentFeature', total', count' := Accumulate(out', currentFeature, total, count, key, text, parseFloat);
    crashed := false;
  }

  /** The final test `if current_feature == feature:` after the loop has
      read every line. */
  method Finish(lines: seq<string>, parseFloat: string -> Option<real>,
                out: seq<Printed>, currentFeature: Option<string>, total: real, count: nat, feature: Option<string>)
    returns (out': seq<Printed>, status: Status)
    requires FirstMalformed(Rows(lines)) == |lines|
    requires LineFold(Rows(lines), Echoes(lines), parseFloat) == Loop(out, Acc(currentFeature, total, count), feature)
    ensures Outcome(out', status) == Spec(lines, parseFloat)
  {
    ghost var st := Loop(out, Acc(currentFeature, total, count), feature);
    if feature.None? {  // `feature` is unbound in the final test
      FinishUnbound(lines, parseFloat, st);
      return out, Crashed(|lines|, UnboundLocalError);
    }
    FinishBound(lines, parseFloat, st);
    if currentFeature == feature {
      out' := out + [Average(currentFeature.value, Ratio(total, count))];
    } else {
      out' := out;
    }
    assert out' == out + FinalClosing(st.acc, feature.value);
    status := Finished;
  }

  /** Empty input: the loop never binds `feature`, and the final test
      raises `UnboundLocalError`. */
  lemma FinishEmpty(lines: seq<string>, parseFloat: string -> Option<real>, st: Loop)
    requires lines == []
    requires LineFold(Rows(lines), Echoes(lines), parseFloat) == st
    ensures st == Loop([], Acc(None, 0.0, 0), None)
    ensures Spec(lines, parseFloat) == Outcome(st.out, Crashed(0, UnboundLocalError))
  {
    assert Rows(lines) == [] && Echoes(lines) == [];
  }

  /** Input of at least one line, none of them malformed: `feature` holds
      the feature of the last line, and the script ends with the final test
      on the variables the loop leaves. */
  lemma FinishLines(lines: seq<string>, parseFloat: string -> Option<real>, st: Loop)
    requires lines != []
    requires FirstMalformed(Rows(lines)) == |lines|
    requires LineFold(Rows(lines), Echoes(lines), parseFloat) == st
    ensures st.feature.Some? && (st.acc.current.Some? ==> st.acc.count > 0)
    ensures Spec(lines, parseFloat) == Outcome(st.out + FinalClosing(st.acc, st.feature.value), Finished)
  {
    AnalysisFinish(Rows(lines), Echoes(lines), parseFloat);
  }

  /** `feature` is bound once the loop has read a line. */
  lemma FeatureBound(lines: seq<string>, parseFloat: string -> Option<real>, st: Loop)
    requires FirstMalformed(Rows(lines)) == |lines|
    requires LineFold(Rows(lines), Echoes(lines), parseFloat) == st
    ensures st.feature.None? <==> lines == []
  {
    if lines != [] {
      FinishLines(lines, parseFloat, st);
    } else {
      FinishEmpty(lines, parseFloat, st);
    }
  }

  /** The final test when the loop left `feature` unbound. */
  lemma FinishUnbound(lines: seq<string>, parseFloat: string -> Option<real>, st: Loop)
    requires FirstMalformed(Rows(lines)) == |lines|
    requires LineFold(Rows(lines), Echoes(lines), parseFloat) == st
    requires st.feature.None?
    ensures Spec(lines, parseFloat) == Outcome(st.out, Crashed(|lines|, UnboundLocalError))
  {
    FeatureBound(lines, parseFloat, st);
    FinishEmpty(lines, parseFloat, st);
  }

  /** The final test when the loop left `feature` bound. */
  lemma FinishBound(lines: seq<string>, parseFloat: string -> Option<real>, st: Loop)
    requires FirstMalformed(Rows(lines)) == |lines|
    requires LineFold(Rows(lines), Echoes(lines), parseFloat) == st
    requires st.feature.Some?
    ensures st.acc.current.Some? ==> st.acc.count > 0
    ensures Spec(lines, parseFloat) == Outcome(st.out + FinalClosing(st.acc, st.feature.value), Finished)
  {
    FeatureBound(lines, parseFloat, st);
    FinishLines(lines, parseFloat, st);
  }

  /** The debug echoes among printed lines, in order. */
  function Receipts(out: seq<Printed>): seq<string>
  {
    if out == [] then []
    else Receipts(out[..|out| - 1]) + (if out[|out| - 1].Received? then [out[|out| - 1].line] else [])
  }

  /** The result lines among printed lines, in order. */
  function Results(out: seq<Printed>): seq<Printed>
  {
    if out == [] then []
    else Results(out[..|out| - 1]) + (if out[|out| - 1].Average? then [out[|out| - 1]] else [])
  }

  lemma {:induction false} ReceiptsAppend(a: seq<Printed>, b: seq<Printed>)
    ensures Receipts(a + b) == Receipts(a) + Receipts(b)
  {
    if b == [] {
      assert a + b == a;
    } else {
      DropLastOfAppend(a, b);
      ReceiptsAppend(a, b[..|b| - 1]);
      assert (a + b)[|a + b| - 1] == b[|b| - 1];
    }
  }

  lemma {:induction false} ResultsAppend(a: seq<Printed>, b: seq<Printed>)
    ensures Results(a + b) == Results(a) + Results(b)
  {
    if b == [] {
      assert a + b == a;
    } else {
      DropLastOfAppend(a, b);
      ResultsAppend(a, b[..|b| - 1]);
      assert (a + b)[|a + b| - 1] == b[|b| - 1];
    }
  }

  /** Lines that are all result lines hold no echo. */
  lemma {:induction false} NoReceipts(p: seq<Printed>)
    requires forall i :: 0 <= i < |p| ==> p[i].Average?
    ensures Receipts(p) == []
  {
    if p != [] {
      NoReceipts(p[..|p| - 1]);
    }
  }

  lemma {:induction false} AllResults(p: seq<Printed>)
    requires forall i :: 0 <= i < |p| ==> p[i].Average?
    ensures Results(p) == p
  {
    if p != [] {
      AllResults(p[..|p| - 1]);
      SplitLast(p);
    }
  }

  lemma {:induction false} ReportResults(gs: seq<Group<real>>)
    requires forall i :: 0 <= i < |gs| ==> gs[i].values != []
    ensures forall i :: 0 <= i < |Report(gs)| ==> Report(gs)[i].Average?
  {
    if gs != [] {
      ReportResults(gs[..|gs| - 1]);
    }
  }

  /** All runs but the last (still open) one. */
  function Closed(gs: seq<Group<real>>): (r: seq<Group<real>>)
    ensures |r| == if gs == [] then 0 else |gs| - 1
    ensures forall i :: 0 <= i < |r| ==> r[i] == gs[i]
  {
    if gs == [] then [] else gs[..|gs| - 1]
  }

  /** The result lines of the runs of `s` closed so far. */
  function ClosedResults(s: seq<(string, real)>): seq<Printed>
  {
    Report(Closed(Runs(s)))
  }

  /** The loop echoes every row it reads, in order. */
  lemma {:induction false} EchoedReceipts(rows: seq<seq<string>>, echoes: seq<string>, parseFloat: string -> Option<real>)
    requires |rows| == |echoes|
    ensures Receipts(Echoed(rows, echoes, parseFloat)) == echoes
  {
    if rows != [] {
      var n := |rows| - 1;
      var e := Echoed(rows[..n], echoes[..n], parseFloat);
      var b := Boundary(Runs(Parsed(rows[..n], parseFloat)), rows[n], parseFloat);
      EchoedReceipts(rows[..n], echoes[..n], parseFloat);
      assert Echoed(rows, echoes, parseFloat) == e + [Received(echoes[n])] + b;
      BoundaryResults(Runs(Parsed(rows[..n], parseFloat)), rows[n], parseFloat);
      SplitLast(echoes);
      ReceiptsStep(e, echoes[n], b, echoes[..n], echoes);
    }
  }

  /** A row closes the open run exactly when its pair, added to the stream,
      starts a new run. */
  lemma BoundaryCloses(s: seq<(string, real)>, row: seq<string>, parseFloat: string -> Option<real>)
    ensures ClosedResults(s) + Boundary(Runs(s), row, parseFloat) == ClosedResults(s + ParseOne(row, parseFloat))
  {
    var gs := Runs(s);
    if Unpacks(row) && parseFloat(row[1]).Some? {
      var k, v := row[0], parseFloat(row[1]).value;
      assert ParseOne(row, parseFloat) == [(k, v)];
      if s == [] {
        RunsNewKey(s, k, v);
      } else {
        RunsLast(s);
        if gs[|gs| - 1].key == k {
          RunsSameKey(s, k, v);
          assert Closed(Runs(s + [(k, v)])) == Closed(gs);
        } else {
          RunsNewKey(s, k, v);
          assert Closed(Runs(s + [(k, v)])) == gs;
        }
      }
    } else {
      assert s + ParseOne(row, parseFloat) == s;
    }
  }

  /** The result lines the loop prints are those of the closed runs, in
      order: a run is printed when the next parsed feature differs. */
  lemma {:induction false} EchoedResults(rows: seq<seq<string>>, echoes: seq<string>, parseFloat: string -> Option<real>)
    requires |rows| == |echoes|
    ensures Results(Echoed(rows, echoes, parseFloat)) == ClosedResults(Parsed(rows, parseFloat))
  {
    if rows != [] {
      var n := |rows| - 1;
      EchoedResults(rows[..n], echoes[..n], parseFloat);
      EchoedResultsStep(rows, echoes, parseFloat);
    }
  }

  lemma EchoedResultsStep(rows: seq<seq<string>>, echoes: seq<string>, parseFloat: string -> Option<real>)
    requires |rows| == |echoes| && rows != []
    requires var n := |rows| - 1;
             Results(Echoed(rows[..n], echoes[..n], parseFloat)) == ClosedResults(Parsed(rows[..n], parseFloat))
    ensures Results(Echoed(rows, echoes, parseFloat)) == ClosedResults(Parsed(rows, parseFloat))
  {
    var n := |rows| - 1;
    var s := Parsed(rows[..n], parseFloat);
    var b := Boundary(Runs(s), rows[n], parseFloat);
    assert Parsed(rows, parseFloat) == s + ParseOne(rows[n], parseFloat);
    assert Echoed(rows, echoes, parseFloat) == Echoed(rows[..n], echoes[..n], parseFloat) + [Received(echoes[n])] + b;
    BoundaryResults(Runs(s), rows[n], parseFloat);
    BoundaryCloses(s, rows[n], parseFloat);
    ResultsStep(Echoed(rows[..n], echoes[..n], parseFloat), echoes[n], b,
                ClosedResults(s), ClosedResults(Parsed(rows, parseFloat)));
  }

  lemma BoundaryResults(gs: seq<Group<real>>, row: seq<string>, parseFloat: string -> Option<real>)
    requires forall i :: 0 <= i < |gs| ==> gs[i].values != []
    ensures forall i :: 0 <= i < |Boundary(gs, row, parseFloat)| ==> Boundary(gs, row, parseFloat)[i].Average?
  {
  }

  /** An echo and then result lines `b` add `b` to the results. */
  lemma ResultsStep(e: seq<Printed>, echo: string, b: seq<Printed>, before: seq<Printed>, after: seq<Printed>)
    requires Results(e) == before && after == before + b
    requires forall i :: 0 <= i < |b| ==> b[i].Average?
    ensures Results(e + [Received(echo)] + b) == after
  {
    ResultsAppend(e + [Received(echo)], b);
    ResultsAppend(e, [Received(echo)]);
    AllResults(b);
    assert [Received(echo)][..0] == [];
    assert before + [] == before;
  }

  /** An echo and then result lines `b` add the echo to the echoes. */
  lemma ReceiptsStep(e: seq<Printed>, echo: string, b: seq<Printed>, before: seq<string>, after: seq<string>)
    requires Receipts(e) == before && after == before + [echo]
    requires forall i :: 0 <= i < |b| ==> b[i].Average?
    ensures Receipts(e + [Received(echo)] + b) == after
  {
    ReceiptsAppend(e + [Received(echo)], b);
    ReceiptsAppend(e, [Received(echo)]);
    NoReceipts(b);
    assert [Received(echo)][..0] == [];
    assert after + [] == after;
  }

  /** Every row read is echoed, up to and including the row that stops
      the script. */
  lemma EchoesRead(rows: seq<seq<string>>, echoes: seq<string>, parseFloat: string -> Option<real>)
    requires |rows| == |echoes|
    ensures var n := FirstMalformed(rows);
            Receipts(RowsSpec(rows, echoes, parseFloat).out) == if n < |rows| then echoes[..n + 1] else echoes
  {
    var n := FirstMalformed(rows);
    if n < |rows| {
      EchoedReceipts(rows[..n + 1], echoes[..n + 1], parseFloat);
    } else if rows != [] {
      FirstMalformedUnpacks(rows, n - 1);
      var f := FinalFlush(Parsed(rows, parseFloat), rows[n - 1][0]);
      assert RowsSpec(rows, echoes, parseFloat).out == Echoed(rows, echoes, parseFloat) + f;
      EchoedReceipts(rows, echoes, parseFloat);
      ReceiptsAppend(Echoed(rows, echoes, parseFloat), f);
      FinalFlushReceipts(Parsed(rows, parseFloat), rows[n - 1][0]);
      assert echoes + [] == echoes;
    }
  }

  lemma FinalFlushReceipts(s: seq<(string, real)>, feature: string)
    ensures Receipts(FinalFlush(s, feature)) == []
  {
    var f := FinalFlush(s, feature);
    if f != [] {
      assert f[..0] == [];
    }
  }

  /** Every line read is echoed, stripped and in input order, up to and
      including the line that stops the script. */
  lemma EveryLineEchoed(lines: seq<string>, parseFloat: string -> Option<real>)
    ensures var r := Receipts(Spec(lines, parseFloat).out);
            var n := FirstMalformed(Rows(lines));
            && |r| == (if n < |lines| then n + 1 else |lines|)
            && forall i :: 0 <= i < |r| ==> r[i] == Strip(lines[i])
  {
    var rows, echoes := Rows(lines), Echoes(lines);
    var n := FirstMalformed(rows);
    var k := if n < |lines| then n + 1 else |lines|;
    EchoesReadPrefix(rows, echoes, parseFloat);
    assert Receipts(Spec(lines, parseFloat).out) == echoes[..k];
    EchoesPrefix(lines, k);
  }

  /** The echoes printed are a prefix of all echoes, one longer than the
      rows before the first malformed one when there is such a row. */
  lemma EchoesReadPrefix(rows: seq<seq<string>>, echoes: seq<string>, parseFloat: string -> Option<real>)
    requires |rows| == |echoes|
    ensures var n := FirstMalformed(rows);
            Receipts(RowsSpec(rows, echoes, parseFloat).out) == echoes[..if n < |rows| then n + 1 else |rows|]
  {
    EchoesRead(rows, echoes, parseFloat);
    assert echoes[..|rows|] == echoes;
  }

  /** The first `k` echoes are the first `k` lines, stripped. */
  lemma EchoesPrefix(lines: seq<string>, k: nat)
    requires k <= |lines|
    ensures var r := Echoes(lines)[..k];
            forall i :: 0 <= i < |r| ==> r[i] == Strip(lines[i])
  {
    forall i | 0 <= i < k
      ensures Echoes(lines)[..k][i] == Strip(lines[i])
    {
      EchoesIndex(lines, i);
    }
  }

  /** A line that does not unpack stops the script with the results of the
      closed runs printed: the open run is lost. */
  lemma CrashLosesOpenRun(rows: seq<seq<string>>, echoes: seq<string>, parseFloat: string -> Option<real>)
    requires |rows| == |echoes| && FirstMalformed(rows) < |rows|
    ensures var n := FirstMalformed(rows);
            Results(RowsSpec(rows, echoes, parseFloat).out) == ClosedResults(Parsed(rows[..n], parseFloat))
  {
    var n := FirstMalformed(rows);
    EchoedResults(rows[..n + 1], echoes[..n + 1], parseFloat);
    ParsedStep(rows, n, parseFloat);
    assert Parsed(rows[..n], parseFloat) + ParseOne(rows[n], parseFloat) == Parsed(rows[..n], parseFloat);
  }

  /** On complete input the results are those of the closed runs, then the
      open run if the last line carries its feature. */
  lemma CompleteResults(rows: seq<seq<string>>, echoes: seq<string>, parseFloat: string -> Option<real>)
    requires |rows| == |echoes| && rows != [] && FirstMalformed(rows) == |rows|
    ensures Unpacks(rows[|rows| - 1])
    ensures var s := Parsed(rows, parseFloat);
            Results(RowsSpec(rows, echoes, parseFloat).out) == ClosedResults(s) + FinalFlush(s, rows[|rows| - 1][0])
  {
    FirstMalformedUnpacks(rows, |rows| - 1);
    var s := Parsed(rows, parseFloat);
    var f := FinalFlush(s, rows[|rows| - 1][0]);
    assert RowsSpec(rows, echoes, parseFloat).out == Echoed(rows, echoes, parseFloat) + f;
    EchoedResults(rows, echoes, parseFloat);
    ResultsAppend(Echoed(rows, echoes, parseFloat), f);
    FinalFlushResults(s, rows[|rows| - 1][0]);
  }

  lemma FinalFlushResults(s: seq<(string, real)>, feature: string)
    ensures Results(FinalFlush(s, feature)) == FinalFlush(s, feature)
  {
    var f := FinalFlush(s, feature);
    if f != [] {
      assert f[..0] == [];
    }
  }

  /** A result line carrying the mean of every value of its feature in `s`. */
  predicate FeatureMean(s: seq<(string, real)>, r: Printed)
  {
    r.Average? && ValuesOf(s, r.feature) != [] && r.mean == Mean(ValuesOf(s, r.feature))
  }

  /** Each result line of a sequence of runs is the line of one of them. */
  lemma {:induction false} ReportFrom(gs: seq<Group<real>>)
    requires forall i :: 0 <= i < |gs| ==> gs[i].values != []
    ensures forall k :: 0 <= k < |Report(gs)| ==> exists i :: 0 <= i < |gs| && Report(gs)[k] == AverageOf(gs[i])
  {
    if gs != [] {
      var init, r := gs[..|gs| - 1], Report(gs);
      ReportFrom(init);
      var ri := Report(init);
      assert r == ri + Flush(gs[|gs| - 1]);
      forall k | 0 <= k < |r|
        ensures exists i :: 0 <= i < |gs| && r[k] == AverageOf(gs[i])
      {
        if k < |ri| {
          var i :| 0 <= i < |init| && ri[k] == AverageOf(init[i]);
          assert init[i] == gs[i] && r[k] == ri[k];
          assert r[k] == AverageOf(gs[i]);
        } else {
          assert r[k] == AverageOf(gs[|gs| - 1]);
        }
      }
      assert forall k :: 0 <= k < |Report(gs)| ==> exists i :: 0 <= i < |gs| && Report(gs)[k] == AverageOf(gs[i]);
    } else {
      assert Report(gs) == [];
    }
  }

  /** On a stream of contiguous features a run's line is its feature's mean. */
  lemma RunMean(s: seq<(string, real)>, i: nat)
    requires KeysContiguous(s) && i < |Runs(s)|
    ensures FeatureMean(s, AverageOf(Runs(s)[i]))
  {
    RunHoldsAllValues(s, i);
  }

  /** With the shuffle's guarantee (each feature's lines contiguous among the
      parsed ones), every result line of a complete run carries the mean of
      all the values of its feature. */
  lemma FeatureAverages(rows: seq<seq<string>>, echoes: seq<string>, parseFloat: string -> Option<real>)
    requires |rows| == |echoes| && rows != [] && FirstMalformed(rows) == |rows|
    requires KeysContiguous(Parsed(rows, parseFloat))
    ensures var r := Results(RowsSpec(rows, echoes, parseFloat).out);
            forall k :: 0 <= k < |r| ==> FeatureMean(Parsed(rows, parseFloat), r[k])
  {
    CompleteResults(rows, echoes, parseFloat);
    ReportedMeans(Parsed(rows, parseFloat), rows[|rows| - 1][0]);
  }

  /** The result lines of the closed runs and of the final test each carry
      the mean of their feature when the features are contiguous. */
  lemma ReportedMeans(s: seq<(string, real)>, feature: string)
    requires KeysContiguous(s)
    ensures var r := ClosedResults(s) + FinalFlush(s, feature);
            forall k :: 0 <= k < |r| ==> FeatureMean(s, r[k])
  {
    var gs := Runs(s);
    var c, f := ClosedResults(s), FinalFlush(s, feature);
    var r := c + f;
    ReportFrom(Closed(gs));
    forall k | 0 <= k < |r|
      ensures FeatureMean(s, r[k])
    {
      if k < |c| {
        var j :| 0 <= j < |Closed(gs)| && c[k] == AverageOf(Closed(gs)[j]);
        RunMean(s, j);
      } else {
        assert r[k] == AverageOf(gs[|gs| - 1]);
        RunMean(s, |gs| - 1);
      }
    }
  }

  /** The line of the open run, if its feature is truthy. */
  function OpenResult(s: seq<(string, real)>): seq<Printed>
  {
    var gs := Runs(s);
    if gs == [] then [] else Flush(gs[|gs| - 1])
  }

  /** The script with the final test as evidently intended, `if
      current_feature:` in place of `if current_feature == feature:`: the
      open run is printed whatever the last line was, and empty input prints
      nothing and ends normally. */
  function FixedRowsSpec(rows: seq<seq<string>>, echoes: seq<string>, parseFloat: string -> Option<real>): Outcome<Printed>
    requires |rows| == |echoes|
  {
    var n := FirstMalformed(rows);
    if n < |rows| then Outcome(Echoed(rows[..n + 1], echoes[..n + 1], parseFloat), Crashed(n, ValueError))
    else Outcome(Echoed(rows, echoes, parseFloat) + OpenResult(Parsed(rows, parseFloat)), Finished)
  }

  function FixedSpec(lines: seq<string>, parseFloat: string -> Option<real>): Outcome<Printed>
  {
    FixedRowsSpec(Rows(lines), Echoes(lines), parseFloat)
  }

  /** With the intended final test a complete input reports every run. */
  lemma FixedReportsEveryRun(rows: seq<seq<string>>, echoes: seq<string>, parseFloat: string -> Option<real>)
    requires |rows| == |echoes| && FirstMalformed(rows) == |rows|
    ensures FixedRowsSpec(rows, echoes, parseFloat).status == Finished
    ensures Results(FixedRowsSpec(rows, echoes, parseFloat).out) == Report(Runs(Parsed(rows, parseFloat)))
  {
    var s := Parsed(rows, parseFloat);
    var o := OpenResult(s);
    assert FixedRowsSpec(rows, echoes, parseFloat).out == Echoed(rows, echoes, parseFloat) + o;
    EchoedResults(rows, echoes, parseFloat);
    ResultsAppend(Echoed(rows, echoes, parseFloat), o);
    AllResults(o);
    OpenResultCompletes(s);
  }

  /** The open run's line completes the report of the closed runs. */
  lemma OpenResultCompletes(s: seq<(string, real)>)
    ensures ClosedResults(s) + OpenResult(s) == Report(Runs(s))
  {
    var gs := Runs(s);
    if gs != [] {
      assert Report(gs) == Report(Closed(gs)) + Flush(gs[|gs| - 1]);
    }
  }

  /** With the intended final test a row whose value does not parse changes
      no result line, wherever it stands. */
  lemma FixedUnparsableIgnored(a: seq<seq<string>>, row: seq<string>, b: seq<seq<string>>,
                               ex: seq<string>, ey: seq<string>, parseFloat: string -> Option<real>)
    requires Unpacks(row) && parseFloat(row[1]).None?
    requires FirstMalformed(a) == |a| && FirstMalformed(b) == |b|
    requires |ex| == |a| + 1 + |b| && |ey| == |a| + |b|
    ensures Results(FixedRowsSpec(a + [row] + b, ex, parseFloat).out) == Results(FixedRowsSpec(a + b, ey, parseFloat).out)
  {
    FirstMalformedInsert(a, row, b);
    FixedReportsEveryRun(a + [row] + b, ex, parseFloat);
    FixedReportsEveryRun(a + b, ey, parseFloat);
    UnparsableRowDropped(a, row, b, parseFloat);
  }

  /** As written, a last line whose value does not parse and whose feature
      differs from the open run's loses that run: `a<TAB>1` then `b<TAB>x`
      print no result line, where the intended test prints the run `a`. */
  lemma LostLastRun(parseFloat: string -> Option<real>)
    requires parseFloat("1") == Some(1.0) && parseFloat("x") == None
    ensures var rows, echoes := [["a", "1"], ["b", "x"]], ["a\t1", "b\tx"];
            && RowsSpec(rows, echoes, parseFloat).status == Finished
            && Results(RowsSpec(rows, echoes, parseFloat).out) == []
            && Results(FixedRowsSpec(rows, echoes, parseFloat).out) == [Average("a", 1.0)]
  {
    var rows, echoes := [["a", "1"], ["b", "x"]], ["a\t1", "b\tx"];
    LostLastRunStream(rows, parseFloat);
    CompleteResults(rows, echoes, parseFloat);
    FixedReportsEveryRun(rows, echoes, parseFloat);
    assert [1.0][..0] == [];
    assert Mean([1.0]) == 1.0;
    assert [Group("a", [1.0])][..0] == [];
  }

  /** The same counterexample on the input lines themselves: `a<TAB>1`
      then `b<TAB>x` finish with no result line, where the intended test
      prints the run `a` with mean 1. */
  lemma LostLastRunLines(parseFloat: string -> Option<real>)
    requires parseFloat("1") == Some(1.0) && parseFloat("x") == None
    ensures var lines := ["a\t1", "b\tx"];
            && Spec(lines, parseFloat).status == Finished
            && Results(Spec(lines, parseFloat).out) == []
            && Results(FixedSpec(lines, parseFloat).out) == [Average("a", 1.0)]
  {
    var lines := ["a\t1", "b\tx"];
    FirstLineFields();
    SecondLineFields();
    assert lines[..1] == ["a\t1"] && lines[..1][..0] == [];
    assert Rows(lines) == [["a", "1"], ["b", "x"]];
    assert Echoes(lines) == ["a\t1", "b\tx"];
    LostLastRun(parseFloat);
  }

  /** The first line of the counterexample is its own strip and splits
      into its two fields. */
  lemma FirstLineFields()
    ensures Strip("a\t1") == "a\t1" && Fields("a\t1") == ["a", "1"]
  {
    StripNoOp("a\t1");
    assert Join(["a", "1"], '\t') == "a\t1";
    JoinSplit(["a", "1"], '\t');
  }

  /** The same for the second line. */
  lemma SecondLineFields()
    ensures Strip("b\tx") == "b\tx" && Fields("b\tx") == ["b", "x"]
  {
    StripNoOp("b\tx");
    assert Join(["b", "x"], '\t') == "b\tx";
    JoinSplit(["b", "x"], '\t');
  }

  /** The two rows of the counterexample unpack, and only the first parses. */
  lemma LostLastRunStream(rows: seq<seq<string>>, parseFloat: string -> Option<real>)
    requires parseFloat("1") == Some(1.0) && parseFloat("x") == None
    requires rows == [["a", "1"], ["b", "x"]]
    ensures FirstMalformed(rows) == 2
    ensures Parsed(rows, parseFloat) == [("a", 1.0)]
    ensures Runs(Parsed(rows, parseFloat)) == [Group("a", [1.0])]
  {
    assert rows[1..][1..] == [];
    assert FirstMalformed(rows) == 2;
    assert rows[..1] == [["a", "1"]] && rows[..1][..0] == [];
    assert Parsed(rows[..1][..0], parseFloat) == [];
    assert ParseOne(rows[0], parseFloat) == [("a", 1.0)];
    assert Parsed(rows[..1], parseFloat) == [("a", 1.0)];
    assert ParseOne(rows[1], parseFloat) == [];
    var s := Parsed(rows, parseFloat);
    assert s == [("a", 1.0)] + [];
    assert s[..0] == [];
  }

  /** As written, empty input ends with `UnboundLocalError` in the final
      test; with the intended test it prints nothing and ends normally. */
  lemma EmptyInputFails(parseFloat: string -> Option<real>)
    ensures Spec([], parseFloat) == Outcome([], Crashed(0, UnboundLocalError))
    ensures FixedSpec([], parseFloat) == Outcome([], Finished)
  {
    assert Rows([]) == [] && Echoes([]) == [];
  }
}
