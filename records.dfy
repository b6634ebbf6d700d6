/** The `key<TAB>value` records both grouping reducers read: a line is cut
    into its fields, unpacked into exactly two of them (a `ValueError` the
    scripts do not catch otherwise), and its value handed to `float()`,
    whose failure the scripts catch and skip. */
module Records {
  import opened Script
  import opened Text

  /** The unpacking `key, value = line.strip().split("\t")` succeeds only on
      exactly two fields. */
  predicate Unpacks(row: seq<string>)
  {
    |row| == 2
  }

  /** Index of the first row the unpacking fails on (`|rows|` if none). */
  function FirstMalformed(rows: seq<seq<string>>): (n: nat)
    ensures n <= |rows|
    ensures n < |rows| ==> !Unpacks(rows[n])
  {
    if rows == [] || !Unpacks(rows[0]) then 0
    else
      var m := FirstMalformed(rows[1..]);
      assert m < |rows| - 1 ==> rows[1..][m] == rows[1 + m];
      1 + m
  }

  /** Every row before the first malformed one unpacks. */
  lemma {:induction false} FirstMalformedUnpacks(rows: seq<seq<string>>, j: nat)
    requires j < FirstMalformed(rows)
    ensures Unpacks(rows[j])
  {
    if j > 0 {
      FirstMalformedUnpacks(rows[1..], j - 1);
      assert rows[1..][j - 1] == rows[j];
    }
  }

  /** The `(key, value)` pair of one row that unpacks, if its value
      parses. */
  function ParseOne(row: seq<string>, parseFloat: string -> Option<real>): seq<(string, real)>
  {
    if !Unpacks(row) then []
    else match parseFloat(row[1])
      case None => []
      case Some(v) => [(row[0], v)]
  }

  /** The pairs of the rows whose value `float()` accepts, in input order
      (applied only to rows that all unpack). */
  function Parsed(rows: seq<seq<string>>, parseFloat: string -> Option<real>): seq<(string, real)>
  {
    if rows == [] then []
    else Parsed(rows[..|rows| - 1], parseFloat) + ParseOne(rows[|rows| - 1], parseFloat)
  }

  /** Scanning one more row that unpacks. */
  lemma FirstMalformedGrow(rows: seq<seq<string>>, i: nat)
    requires i < |rows| && FirstMalformed(rows[..i]) == i && Unpacks(rows[i])
    ensures FirstMalformed(rows[..i + 1]) == i + 1
  {
    FirstMalformedStep(rows, i);
  }

  /** Scanning one more row: it either unpacks, or it is the first that
      does not. */
  lemma FirstMalformedStep(rows: seq<seq<string>>, i: nat)
    requires i < |rows| && FirstMalformed(rows[..i]) == i
    ensures Unpacks(rows[i]) ==> FirstMalformed(rows[..i + 1]) == i + 1
    ensures !Unpacks(rows[i]) ==> FirstMalformed(rows) == i
  {
    if Unpacks(rows[i]) {
      TakeNext(rows, i);
      FirstMalformedAppend(rows[..i], [rows[i]]);
    } else {
      FirstMalformedStop(rows, i);
    }
  }

  lemma FirstMalformedStop(rows: seq<seq<string>>, i: nat)
    requires i < |rows| && FirstMalformed(rows[..i]) == i && !Unpacks(rows[i])
    ensures FirstMalformed(rows) == i
  {
    SplitAt(rows, i);
    FirstMalformedAppend(rows[..i], rows[i..]);
    assert rows[i..][0] == rows[i];
  }

  lemma ParsedStep(rows: seq<seq<string>>, i: nat, parseFloat: string -> Option<real>)
    requires i < |rows|
    ensures Parsed(rows[..i + 1], parseFloat) == Parsed(rows[..i], parseFloat) + ParseOne(rows[i], parseFloat)
  {
    assert rows[..i + 1][..i] == rows[..i];
    assert rows[..i + 1][i] == rows[i];
  }

  /** A row that unpacks, placed before the first malformed row, moves that
      row one place on. */
  lemma FirstMalformedInsert(a: seq<seq<string>>, row: seq<string>, b: seq<seq<string>>)
    requires Unpacks(row) && FirstMalformed(a) == |a|
    ensures FirstMalformed(a + [row] + b) == |a| + 1 + FirstMalformed(b)
    ensures FirstMalformed(a + b) == |a| + FirstMalformed(b)
  {
    assert FirstMalformed([row]) == 1 by {
      assert [row][1..] == [];
    }
    FirstMalformedAppend(a, [row]);
    FirstMalformedAppend(a + [row], b);
    FirstMalformedAppend(a, b);
  }

  lemma UnparsableRowDropped(a: seq<seq<string>>, row: seq<string>, c: seq<seq<string>>, parseFloat: string -> Option<real>)
    requires Unpacks(row) && parseFloat(row[1]).None?
    ensures Parsed(a + [row] + c, parseFloat) == Parsed(a + c, parseFloat)
  {
    ParsedAppend(a, [row], parseFloat);
    ParsedAppend(a + [row], c, parseFloat);
    ParsedAppend(a, c, parseFloat);
    assert Parsed([row], parseFloat) == [] by {
      assert [row][..0] == [];
    }
  }

  /** Input with no malformed row has none in any prefix either. */
  lemma FirstMalformedPrefix(rows: seq<seq<string>>, k: nat)
    requires k <= |rows| && FirstMalformed(rows) == |rows|
    ensures FirstMalformed(rows[..k]) == k
  {
    SplitAt(rows, k);
    FirstMalformedAppend(rows[..k], rows[k..]);
  }

  /** The first malformed row of two chunks of input in turn. */
  lemma {:induction false} FirstMalformedAppend(a: seq<seq<string>>, b: seq<seq<string>>)
    ensures FirstMalformed(a + b) == if FirstMalformed(a) < |a| then FirstMalformed(a) else |a| + FirstMalformed(b)
  {
    if a == [] {
      assert a + b == b;
    } else {
      assert (a + b)[0] == a[0];
      if Unpacks(a[0]) {
        assert (a + b)[1..] == a[1..] + b;
        FirstMalformedAppend(a[1..], b);
      }
    }
  }

  lemma {:induction false} ParsedAppend(a: seq<seq<string>>, b: seq<seq<string>>, parseFloat: string -> Option<real>)
    ensures Parsed(a + b, parseFloat) == Parsed(a, parseFloat) + Parsed(b, parseFloat)
    decreases |b|
  {
    if b == [] {
      assert a + b == a;
    } else {
      var b' := b[..|b| - 1];
      ParsedAppend(a, b', parseFloat);
      DropLastOfAppend(a, b);
      assert (a + b)[|a + b| - 1] == b[|b| - 1];
    }
  }
}
