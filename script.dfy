/** What running one of the streaming scripts over its input lines produces.

    A script prints as it goes, so the lines printed before an uncaught
    exception are part of its output; the status records whether it ran to
    the end or stopped on an exception, and at which input line. */
module Script {

  datatype Option<+T> = None | Some(value: T)

  /** The Python exceptions the scripts can raise and not catch. */
  datatype Error = ValueError | IndexError | UnboundLocalError

  /** `Crashed(at, e)`: exception `e` escaped while handling input line `at`;
      `at` equal to the number of input lines means after the input loop. */
  datatype Status = Finished | Crashed(at: nat, error: Error)

  datatype Outcome<+E> = Outcome(out: seq<E>, status: Status)

  /** What one mapper iteration does with its line: print zero or more items
      (`Emit([])` is a skipped line), or raise an exception nobody catches. */
  datatype LineResult<+E> = Emit(items: seq<E>) | Raise(error: Error)

  /** The mapper loop `for line in sys.stdin: ...` over a per-line function
      that carries no state from one line to the next: the items of every
      line in order, up to the first line that raises. */
  function RunMapper<E>(lines: seq<string>, f: string -> LineResult<E>): (r: Outcome<E>)
    ensures r.status == Finished <==> forall j :: 0 <= j < |lines| ==> f(lines[j]).Emit?
    ensures r.status.Crashed? ==>
              && r.status.at < |lines|
              && f(lines[r.status.at]) == Raise(r.status.error)
              && forall j :: 0 <= j < r.status.at ==> f(lines[j]).Emit?
  {
    if lines == [] then Outcome([], Finished)
    else match f(lines[0])
      case Raise(e) => Outcome([], Crashed(0, e))
      case Emit(items) =>
        var rest := RunMapper(lines[1..], f);
        assert forall j :: 1 <= j < |lines| ==> lines[j] == lines[1..][j - 1];
        Outcome(items + rest.out, Shift(rest.status, 1))
  }

  /** The items printed for a prefix of lines none of which raises. */
  function Emitted<E>(lines: seq<string>, f: string -> LineResult<E>): seq<E>
    requires forall j :: 0 <= j < |lines| ==> f(lines[j]).Emit?
  {
    if lines == [] then [] else f(lines[0]).items + Emitted(lines[1..], f)
  }

  lemma {:induction false} EmittedAppend<E>(a: seq<string>, b: seq<string>, f: string -> LineResult<E>)
    requires forall j :: 0 <= j < |a| ==> f(a[j]).Emit?
    requires forall j :: 0 <= j < |b| ==> f(b[j]).Emit?
    ensures forall j :: 0 <= j < |a + b| ==> f((a + b)[j]).Emit?
    ensures Emitted(a + b, f) == Emitted(a, f) + Emitted(b, f)
  {
    assert forall j :: 0 <= j < |a + b| ==> (a + b)[j] == if j < |a| then a[j] else b[j - |a|];
    if a == [] {
      assert a + b == b;
    } else {
      assert (a + b)[1..] == a[1..] + b;
      EmittedAppend(a[1..], b, f);
    }
  }

  /** The output of a mapper run is exactly what the lines before the first
      raising line print, in order; nothing of the raising line is printed. */
  lemma {:induction false} RunMapperOutput<E>(lines: seq<string>, f: string -> LineResult<E>)
    ensures var n := if RunMapper(lines, f).status.Crashed? then RunMapper(lines, f).status.at else |lines|;
            n <= |lines| && RunMapper(lines, f).out == Emitted(lines[..n], f)
  {
    if lines != [] && f(lines[0]).Emit? {
      RunMapperOutput(lines[1..], f);
      var rest := RunMapper(lines[1..], f);
      var m := if rest.status.Crashed? then rest.status.at else |lines| - 1;
      assert lines[..m + 1][1..] == lines[1..][..m];
    }
  }

  /** Lines are handled independently: running the mapper over two
      consecutive chunks of input is running it over each chunk in turn. */
  lemma {:induction false} RunMapperAppend<E>(a: seq<string>, b: seq<string>, f: string -> LineResult<E>)
    ensures RunMapper(a + b, f) == Then(RunMapper(a, f), |a|, RunMapper(b, f))
  {
    if a == [] {
      assert a + b == b;
      assert Then(Outcome([], Finished), 0, RunMapper(b, f)) == RunMapper(b, f);
    } else {
      var x, a' := a[0], a[1..];
      assert a == [x] + a';
      assert a + b == [x] + (a' + b);
      RunMapperCons(x, a' + b, f);
      RunMapperCons(x, a', f);
      match f(x)
      case Raise(e) =>
      case Emit(items) =>
        RunMapperAppend(a', b, f);
        ThenCons(items, RunMapper(a', f), |a'|, RunMapper(b, f));
    }
  }

  /** `Then` for a first run that printed `items` for one more line
      before it. */
  lemma ThenCons<E>(items: seq<E>, first: Outcome<E>, n: nat, second: Outcome<E>)
    ensures var t := Then(first, n, second);
            Then(Outcome(items + first.out, Shift(first.status, 1)), n + 1, second) ==
            Outcome(items + t.out, Shift(t.status, 1))
  {
    if !first.status.Crashed? {
      assert items + (first.out + second.out) == (items + first.out) + second.out;
    }
  }

  /** The run over a line and the lines after it. */
  lemma RunMapperCons<E>(x: string, rest: seq<string>, f: string -> LineResult<E>)
    ensures RunMapper([x] + rest, f) ==
            match f(x)
            case Raise(e) => Outcome([], Crashed(0, e))
            case Emit(items) => Outcome(items + RunMapper(rest, f).out, Shift(RunMapper(rest, f).status, 1))
  {
    assert ([x] + rest)[0] == x && ([x] + rest)[1..] == rest;
  }

  /** The outcome of running `first` over `n` lines and then `second` over the
      lines after them; an uncaught exception ends the run. */
  function Then<E>(first: Outcome<E>, n: nat, second: Outcome<E>): Outcome<E>
  {
    if first.status.Crashed? then first
    else Outcome(first.out + second.out, Shift(second.status, n))
  }

  /** A status seen from `n` lines earlier in the input. */
  function Shift(s: Status, n: nat): Status
  {
    match s
    case Finished => Finished
    case Crashed(at, e) => Crashed(at + n, e)
  }

  /** A mapper that prints at most `k` items per line prints at most `k`
      items per input line overall. */
  lemma {:induction false} RunMapperBound<E>(lines: seq<string>, f: string -> LineResult<E>, k: nat)
    requires forall l :: f(l).Emit? ==> |f(l).items| <= k
    ensures |RunMapper(lines, f).out| <= k * |lines|
  {
    if lines != [] && f(lines[0]).Emit? {
      RunMapperBound(lines[1..], f, k);
    }
  }

  /** The number of input lines a run handled completely: all of them, or
      those before the line that raised. */
  function Handled<E>(o: Outcome<E>, n: nat): nat
  {
    if o.status.Crashed? then o.status.at else n
  }

  /** An item is printed exactly when some line handled before the run
      stopped prints it. */
  lemma {:induction false} RunMapperMember<E>(lines: seq<string>, f: string -> LineResult<E>, x: E)
    ensures var o := RunMapper(lines, f);
            x in o.out <==>
            exists j :: 0 <= j < Handled(o, |lines|) && f(lines[j]).Emit? && x in f(lines[j]).items
  {
    var o := RunMapper(lines, f);
    if lines != [] && f(lines[0]).Emit? {
      var items := f(lines[0]).items;
      var rest := RunMapper(lines[1..], f);
      RunMapperMember(lines[1..], f, x);
      assert Handled(o, |lines|) == Handled(rest, |lines| - 1) + 1;
      if x in o.out {
        if x !in items {
          assert x in rest.out;
          var j :| 0 <= j < Handled(rest, |lines| - 1) && f(lines[1..][j]).Emit? && x in f(lines[1..][j]).items;
          assert lines[1..][j] == lines[j + 1];
        }
      }
      if exists j :: 0 <= j < Handled(o, |lines|) && f(lines[j]).Emit? && x in f(lines[j]).items {
        var j :| 0 <= j < Handled(o, |lines|) && f(lines[j]).Emit? && x in f(lines[j]).items;
        if j > 0 {
          assert lines[1..][j - 1] == lines[j];
        }
      }
    }
  }
}
