/** Python's `str.strip()` and `str.split(sep)` on text lines, as the
    streaming scripts use them to cut a record into tab-separated fields. */
module Text {

  /** Python's `str.isspace()`: the characters `str.strip()` removes when it
      is called without an argument. */
  predicate IsSpace(c: char) {
    || ('\t' <= c <= '\r')            // tab, line feed, vertical tab, form feed, carriage return
    || ('\U{1C}' <= c <= '\U{1F}')    // file, group, record and unit separators
    || c == ' ' || c == '\U{85}' || c == '\U{A0}' || c == '\U{1680}'
    || ('\U{2000}' <= c <= '\U{200A}')
    || c == '\U{2028}' || c == '\U{2029}' || c == '\U{202F}' || c == '\U{205F}' || c == '\U{3000}'
  }

  /** Removes leading whitespace. */
  function TrimStart(s: string): (r: string)
    ensures |r| <= |s| && r == s[|s| - |r|..]
    ensures r == [] || !IsSpace(r[0])
    ensures forall i :: 0 <= i < |s| - |r| ==> IsSpace(s[i])
  {
    if s != [] && IsSpace(s[0]) then TrimStart(s[1..]) else s
  }

  /** Removes trailing whitespace. */
  function TrimEnd(s: string): (r: string)
    ensures |r| <= |s| && r == s[..|r|]
    ensures r == [] || !IsSpace(r[|r| - 1])
    ensures forall i :: |r| <= i < |s| ==> IsSpace(s[i])
  {
    if s != [] && IsSpace(s[|s| - 1]) then TrimEnd(s[..|s| - 1]) else s
  }

  /** Python's `s.strip()`. */
  function Strip(s: string): (r: string)
  {
    TrimEnd(TrimStart(s))
  }

  /** `Strip` keeps the contiguous middle `s[a..b]` of the line, removing
      only whitespace before `a` and after `b`, and leaves a string that
      neither starts nor ends with whitespace. */
  lemma StripShape(s: string)
    ensures var a := |s| - |TrimStart(s)|;
            && a + |Strip(s)| <= |s| && Strip(s) == s[a..a + |Strip(s)|]
            && (forall i :: 0 <= i < a ==> IsSpace(s[i]))
            && (forall i :: a + |Strip(s)| <= i < |s| ==> IsSpace(s[i]))
    ensures Strip(s) == [] || (!IsSpace(Strip(s)[0]) && !IsSpace(Strip(s)[|Strip(s)| - 1]))
  {
    StripMiddle(s);
    StripEdges(s);
  }

  lemma StripMiddle(s: string)
    ensures var a := |s| - |TrimStart(s)|;
            && a + |Strip(s)| <= |s| && Strip(s) == s[a..a + |Strip(s)|]
            && (forall i :: a + |Strip(s)| <= i < |s| ==> IsSpace(s[i]))
  {
    StripIsSlice(s);
    StripTrailing(s);
  }

  lemma StripIsSlice(s: string)
    ensures var a := |s| - |TrimStart(s)|;
            a + |Strip(s)| <= |s| && Strip(s) == s[a..a + |Strip(s)|]
  {
    var t := TrimStart(s);
    var a := |s| - |t|;
    var r := TrimEnd(t);
    SliceOfSuffix(s, t, r, a);
  }

  lemma StripTrailing(s: string)
    ensures forall i :: |s| - |TrimStart(s)| + |Strip(s)| <= i < |s| ==> IsSpace(s[i])
  {
    var t := TrimStart(s);
    var a := |s| - |t|;
    var r := TrimEnd(t);
    forall i | a + |r| <= i < |s| ensures IsSpace(s[i]) {
      assert t == s[a..];
      assert s[i] == t[i - a];
    }
  }

  lemma StripEdges(s: string)
    ensures Strip(s) == [] || (!IsSpace(Strip(s)[0]) && !IsSpace(Strip(s)[|Strip(s)| - 1]))
  {
    var t := TrimStart(s);
    var r := TrimEnd(t);
    if r != [] {
      assert r == t[..|r|];
      assert r[0] == t[0];
    }
  }

  lemma SliceOfSuffix<T>(s: seq<T>, t: seq<T>, r: seq<T>, a: nat)
    requires a <= |s| && t == s[a..] && |r| <= |t| && r == t[..|r|]
    ensures a + |r| <= |s| && r == s[a..a + |r|]
  {
  }

  /** Stripping a stripped line changes nothing. */
  lemma StripIdempotent(s: string)
    ensures Strip(Strip(s)) == Strip(s)
  {
    StripShape(s);
  }

  /** A string that neither starts nor ends with whitespace is its own strip. */
  lemma StripNoOp(s: string)
    requires s == [] || (!IsSpace(s[0]) && !IsSpace(s[|s| - 1]))
    ensures Strip(s) == s
  {
  }

  /** Python's `s.split(sep)` with an explicit one-character separator: the
      pieces between separators, so there is always at least one piece and
      `"".split(sep) == [""]`. */
  function Split(s: string, sep: char): (r: seq<string>)
    ensures |r| >= 1
    ensures forall i :: 0 <= i < |r| ==> sep !in r[i]
  {
    if s == [] then [[]]
    else
      var rest := Split(s[1..], sep);
      if s[0] == sep then [[]] + rest
      else [[s[0]] + rest[0]] + rest[1..]
  }

  /** Python's `sep.join(pieces)`. */
  function Join(pieces: seq<string>, sep: char): string
    requires |pieces| >= 1
  {
    if |pieces| == 1 then pieces[0] else pieces[0] + [sep] + Join(pieces[1..], sep)
  }

  /** Number of occurrences of `c` in `s`. */
  function Occurrences(s: string, c: char): nat
  {
    if s == [] then 0 else (if s[0] == c then 1 else 0) + Occurrences(s[1..], c)
  }

  /** Joining the pieces of a split gives the original text back, and there
      is one more piece than there are separators. */
  lemma {:induction false} SplitJoin(s: string, sep: char)
    ensures Join(Split(s, sep), sep) == s
    ensures |Split(s, sep)| == Occurrences(s, sep) + 1
  {
    if s != [] {
      SplitJoin(s[1..], sep);
      var rest := Split(s[1..], sep);
      if s[0] != sep {
        if |rest| > 1 {
          assert rest == [rest[0]] + rest[1..];
          assert Join(rest, sep) == rest[0] + [sep] + Join(rest[1..], sep);
        }
      }
    }
  }

  /** Splitting a join of separator-free pieces gives the pieces back. */
  lemma {:induction false} JoinSplit(pieces: seq<string>, sep: char)
    requires |pieces| >= 1
    requires forall i :: 0 <= i < |pieces| ==> sep !in pieces[i]
    ensures Split(Join(pieces, sep), sep) == pieces
  {
    if |pieces| == 1 {
      NoSeparatorSplit(pieces[0], sep);
    } else {
      JoinSplit(pieces[1..], sep);
      SplitPrefix(pieces[0], Join(pieces[1..], sep), sep);
    }
  }

  /** A text with no separator is one piece. */
  lemma {:induction false} NoSeparatorSplit(s: string, sep: char)
    requires sep !in s
    ensures Split(s, sep) == [s]
  {
    if s != [] {
      assert s[0] in s;
      NoSeparatorSplit(s[1..], sep);
      assert [s[0]] + s[1..] == s;
    }
  }

  /** A separator-free prefix followed by a separator becomes the first piece. */
  lemma {:induction false} SplitPrefix(p: string, t: string, sep: char)
    requires sep !in p
    ensures Split(p + [sep] + t, sep) == [p] + Split(t, sep)
  {
    if p == [] {
      assert p + [sep] + t == [sep] + t;
      assert ([sep] + t)[1..] == t;
    } else {
      SplitPrefix(p[1..], t, sep);
      assert (p + [sep] + t)[1..] == p[1..] + [sep] + t;
      assert [p[0]] + p[1..] == p;
    }
  }

  /** The tab-separated fields of a stripped line:
      `line.strip().split("\t")`. */
  function Fields(line: string): (r: seq<string>)
    ensures |r| >= 1
    ensures forall i :: 0 <= i < |r| ==> '\t' !in r[i]
  {
    Split(Strip(line), '\t')
  }

  /** A stripped line has at least two fields exactly when it holds a tab. */
  lemma FieldCount(line: string)
    ensures |Fields(line)| == Occurrences(Strip(line), '\t') + 1
    ensures |Fields(line)| >= 2 <==> '\t' in Strip(line)
  {
    SplitJoin(Strip(line), '\t');
    OccurrencesIn(Strip(line), '\t');
  }

  /** A line that has a second field has a non-empty first one: stripping
      removes any tab at its start. */
  lemma FirstFieldNonEmpty(line: string)
    requires |Fields(line)| >= 2
    ensures Fields(line)[0] != ""
  {
    var s := Strip(line);
    StripEdges(line);
    assert s != [];
    assert s[0] != '\t';
  }

  lemma {:induction false} OccurrencesIn(s: string, c: char)
    ensures Occurrences(s, c) > 0 <==> c in s
  {
    if s != [] {
      OccurrencesIn(s[1..], c);
      assert s == [s[0]] + s[1..];
    }
  }

  /** The fields of every input line, in order: the view of the input that
      the scripts' per-line logic works on. */
  function Rows(lines: seq<string>): (r: seq<seq<string>>)
    ensures |r| == |lines|
  {
    if lines == [] then [] else Rows(lines[..|lines| - 1]) + [Fields(lines[|lines| - 1])]
  }

  /** Row `i` holds the fields of line `i`. */
  lemma {:induction false} RowsIndex(lines: seq<string>, i: nat)
    requires i < |lines|
    ensures Rows(lines)[i] == Fields(lines[i])
  {
    var init := lines[..|lines| - 1];
    assert Rows(lines) == Rows(init) + [Fields(lines[|lines| - 1])];
    if i < |lines| - 1 {
      RowsIndex(init, i);
      assert init[i] == lines[i];
    }
  }

  /** Every input line stripped, in order: what the scripts' debug echo
      shows of each line. */
  function Echoes(lines: seq<string>): (r: seq<string>)
    ensures |r| == |lines|
  {
    if lines == [] then [] else Echoes(lines[..|lines| - 1]) + [Strip(lines[|lines| - 1])]
  }

  lemma {:induction false} EchoesIndex(lines: seq<string>, i: nat)
    requires i < |lines|
    ensures Echoes(lines)[i] == Strip(lines[i])
  {
    var init := lines[..|lines| - 1];
    assert Echoes(lines) == Echoes(init) + [Strip(lines[|lines| - 1])];
    if i < |lines| - 1 {
      EchoesIndex(init, i);
      assert init[i] == lines[i];
    }
  }

  /** The rows of consecutive chunks of input are the chunks' rows in turn. */
  lemma {:induction false} RowsAppend(a: seq<string>, b: seq<string>)
    ensures Rows(a + b) == Rows(a) + Rows(b)
    decreases |b|
  {
    if b == [] {
      assert a + b == a;
    } else {
      var init, last := b[..|b| - 1], b[|b| - 1];
      RowsAppend(a, init);
      DropLastOfAppend(a, b);
      assert (a + b)[|a + b| - 1] == last;
      assert Rows(a + b) == Rows(a + init) + [Fields(last)];
      assert Rows(b) == Rows(init) + [Fields(last)];
      AppendAssociative(Rows(a), Rows(init), [Fields(last)]);
    }
  }

  lemma AppendAssociative<T>(x: seq<T>, y: seq<T>, z: seq<T>)
    ensures (x + y) + z == x + (y + z)
  {
  }

  /** The rows of a prefix of the input are a prefix of its rows. */
  lemma RowsPrefix(lines: seq<string>, k: nat)
    requires k <= |lines|
    ensures Rows(lines)[..k] == Rows(lines[..k])
  {
    RowsAppend(lines[..k], lines[k..]);
    SplitAt(lines, k);
    PrefixOfAppend(Rows(lines[..k]), Rows(lines[k..]));
  }

  lemma PrefixOfAppend<T>(x: seq<T>, y: seq<T>)
    ensures (x + y)[..|x|] == x
  {
  }

  lemma DropLastOfAppend<T>(x: seq<T>, y: seq<T>)
    requires y != []
    ensures (x + y)[..|x + y| - 1] == x + y[..|y| - 1]
  {
  }

  lemma TakeNext<T>(x: seq<T>, i: nat)
    requires i < |x|
    ensures x[..i + 1] == x[..i] + [x[i]]
  {
  }

  lemma TakeAll<T>(x: seq<T>)
    ensures x[..|x|] == x
  {
  }

  lemma SplitAt<T>(x: seq<T>, k: nat)
    requires k <= |x|
    ensures x[..k] + x[k..] == x
  {
  }

  lemma TakeInsert<T>(a: seq<T>, r: T, b: seq<T>, m: nat)
    requires m <= |b|
    ensures (a + [r] + b)[..|a| + 1 + m] == a + [r] + b[..m]
    ensures (a + b)[..|a| + m] == a + b[..m]
  {
    TakeAppend(a + [r], b, m);
    TakeAppend(a, b, m);
  }

  lemma TakeOfAppend<T>(x: seq<T>, y: seq<T>, n: nat)
    requires n <= |x|
    ensures (x + y)[..n] == x[..n]
  {
  }

  lemma TakeAppend<T>(x: seq<T>, y: seq<T>, m: nat)
    requires m <= |y|
    ensures (x + y)[..|x| + m] == x + y[..m]
  {
  }

  /** The last element of `a` occurs in any permutation `b` of `a`, and
      taking it out of both leaves permutations of each other. */
  lemma PermutationPick<T>(a: seq<T>, b: seq<T>) returns (k: nat)
    requires a != [] && multiset(a) == multiset(b)
    ensures k < |b| && b[k] == a[|a| - 1]
    ensures a == a[..|a| - 1] + [a[|a| - 1]]
    ensures b == b[..k] + [b[k]] + b[k + 1..]
    ensures multiset(a[..|a| - 1]) == multiset(b[..k] + b[k + 1..])
  {
    var x := a[|a| - 1];
    assert x in multiset(b) by {
      assert x in multiset(a);
    }
    k :| 0 <= k < |b| && b[k] == x;
    TakeOut(a, |a| - 1);
    TakeOut(b, k);
    assert a[..|a| - 1] + a[|a| - 1 + 1..] == a[..|a| - 1];
    Cancel(multiset(a[..|a| - 1]), multiset(b[..k] + b[k + 1..]), x);
  }

  lemma Cancel<T>(m: multiset<T>, n: multiset<T>, x: T)
    requires m + multiset{x} == n + multiset{x}
    ensures m == n
  {
    forall y
      ensures m[y] == n[y]
    {
      assert (m + multiset{x})[y] == (n + multiset{x})[y];
    }
  }

  /** A sequence is the part before position `k`, the element at `k` and
      the part after it. */
  lemma TakeOut<T>(s: seq<T>, k: nat)
    requires k < |s|
    ensures s == s[..k] + [s[k]] + s[k + 1..]
    ensures multiset(s) == multiset(s[..k] + s[k + 1..]) + multiset{s[k]}
  {
    assert s == s[..k] + [s[k]] + s[k + 1..];
    calc {
      multiset(s);
      multiset(s[..k] + [s[k]] + s[k + 1..]);
      multiset(s[..k]) + multiset{s[k]} + multiset(s[k + 1..]);
      multiset(s[..k] + s[k + 1..]) + multiset{s[k]};
    }
  }
}
