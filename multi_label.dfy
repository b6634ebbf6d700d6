/** `map_scripts/multi_label.py`: the mapper explodes the comma-separated
    hobby and language fields of each record into `hobby:<item>` and
    `language:<item>` labels with count 1; the reducer adds up the integer
    counts of each label in a dictionary and prints one line per label, in
    the order the labels first appeared. */
module MultiLabel {
  import opened Script
  import opened Text

  /** The two multi-label columns. */
  datatype Kind = Hobby | Language

  /** The tag a kind's labels start with. */
  function Tag(k: Kind): string
  {
    match k
    case Hobby => "hobby:"
    case Language => "language:"
  }

  /** One printed pair `<label><TAB><count>`. */
  datatype Emission = Emission(name: string, count: int)

  /** What `for item in items: print(f"<tag>{item.strip()}\t1")` prints. */
  function Tagged(k: Kind, items: seq<string>): seq<Emission>
  {
    seq(|items|, i requires 0 <= i < |items| => Label(k, items[i]))
  }

  /** The label printed for one item: tagged with its kind, stripped, with
      count 1. */
  function Label(k: Kind, item: string): Emission
  {
    Emission(Tag(k) + Strip(item), 1)
  }

  /** One iteration of the mapper loop. Lines with fewer than two fields
      are skipped; on a two-field line `parts[2]` raises an `IndexError`
      that `except ValueError` does not catch, before anything of the line
      is printed. */
  function MapLine(line: string): (r: LineResult<Emission>)
    ensures r.Raise? <==> |Fields(line)| == 2
    ensures r.Raise? ==> r.error == IndexError
    ensures r.Emit? ==> forall i :: 0 <= i < |r.items| ==> r.items[i].count == 1
    ensures |Fields(line)| < 2 ==> r == Emit([])
    ensures r.Emit? && r.items != [] <==> |Fields(line)| >= 3
  {
    var parts := Fields(line);
    if |parts| < 2 then Emit([])
    else if |parts| < 3 then Raise(IndexError)
    else Emit(Tagged(Hobby, Split(parts[1], ',')) + Tagged(Language, Split(parts[2], ',')))
  }

  /** A record prints one `hobby:` label per comma-separated item of its
      second field, then one `language:` label per item of its third field,
      each item stripped, so one more label per field than it has commas. */
  lemma RecordLabels(line: string)
    requires |Fields(line)| >= 3
    ensures var parts := Fields(line);
            var hobbies, languages := Split(parts[1], ','), Split(parts[2], ',');
            var items := MapLine(line).items;
            && |items| == |hobbies| + |languages| == Occurrences(parts[1], ',') + Occurrences(parts[2], ',') + 2
            && (forall i :: 0 <= i < |hobbies| ==> items[i] == Emission(Tag(Hobby) + Strip(hobbies[i]), 1))
            && (forall i :: 0 <= i < |languages| ==>
                  items[|hobbies| + i] == Emission(Tag(Language) + Strip(languages[i]), 1))
  {
    var parts := Fields(line);
    var hobbies, languages := Split(parts[1], ','), Split(parts[2], ',');
    SplitJoin(parts[1], ',');
    SplitJoin(parts[2], ',');
    assert MapLine(line).items == Tagged(Hobby, hobbies) + Tagged(Language, languages);
    TaggedConcat(hobbies, languages);
  }

  /** The labels of two item lists in turn. */
  lemma TaggedConcat(hobbies: seq<string>, languages: seq<string>)
    ensures var items := Tagged(Hobby, hobbies) + Tagged(Language, languages);
            && |items| == |hobbies| + |languages|
            && (forall i :: 0 <= i < |hobbies| ==> items[i] == Emission(Tag(Hobby) + Strip(hobbies[i]), 1))
            && (forall i :: 0 <= i < |languages| ==>
                  items[|hobbies| + i] == Emission(Tag(Language) + Strip(languages[i]), 1))
  {
  }

  /** The whole mapper over its input lines. */
  function Mapper(lines: seq<string>): Outcome<Emission>
  {
    RunMapper(lines, MapLine)
  }

  /** `e` is the label of one of `items`, stripped and tagged with `k`,
      with count 1. */
  predicate Labels(k: Kind, items: seq<string>, e: Emission)
  {
    exists i :: 0 <= i < |items| && e == Label(k, items[i])
  }

  /** `e` is one of the labels a record line prints: a hobby item of its
      second field or a language item of its third. */
  predicate Prints(line: string, e: Emission)
  {
    var parts := Fields(line);
    |parts| >= 3 && (Labels(Hobby, Split(parts[1], ','), e) || Labels(Language, Split(parts[2], ','), e))
  }

  /** The labels printed for a list of items are exactly its tagged items. */
  lemma TaggedMember(k: Kind, items: seq<string>, e: Emission)
    ensures e in Tagged(k, items) <==> Labels(k, items, e)
  {
    if e in Tagged(k, items) {
      TaggedFrom(k, items, e);
    }
    if Labels(k, items, e) {
      var i :| 0 <= i < |items| && e == Label(k, items[i]);
      TaggedAt(k, items, i);
    }
  }

  lemma TaggedFrom(k: Kind, items: seq<string>, e: Emission)
    requires e in Tagged(k, items)
    ensures Labels(k, items, e)
  {
    var r := Tagged(k, items);
    var i :| 0 <= i < |r| && r[i] == e;
    assert r[i] == Label(k, items[i]);
  }

  lemma TaggedAt(k: Kind, items: seq<string>, i: nat)
    requires i < |items|
    ensures Label(k, items[i]) in Tagged(k, items)
  {
    assert Tagged(k, items)[i] == Label(k, items[i]);
  }

  /** What one line prints is exactly its labels. */
  lemma MapLineEmits(line: string, e: Emission)
    ensures MapLine(line).Emit? && e in MapLine(line).items <==> Prints(line, e)
  {
    var parts := Fields(line);
    if |parts| >= 3 {
      TaggedMember(Hobby, Split(parts[1], ','), e);
      TaggedMember(Language, Split(parts[2], ','), e);
    }
  }

  /** A label is printed exactly when some line handled before the mapper
      stopped prints it. */
  lemma MapperEmissions(lines: seq<string>, e: Emission)
    ensures var o := Mapper(lines);
            e in o.out <==> exists j :: 0 <= j < Handled(o, |lines|) && Prints(lines[j], e)
  {
    RunMapperMember(lines, MapLine, e);
    forall j | 0 <= j < |lines|
      ensures MapLine(lines[j]).Emit? && e in MapLine(lines[j]).items <==> Prints(lines[j], e)
    {
      MapLineEmits(lines[j], e);
    }
  }

  /** The mapper stops exactly at the first line with two fields, with an
      `IndexError`, and every count it prints is 1. */
  lemma MapperStopsAndCountsOne(lines: seq<string>)
    ensures var o := Mapper(lines);
            && (o.status == Finished <==> forall j :: 0 <= j < |lines| ==> |Fields(lines[j])| != 2)
            && (o.status.Crashed? ==>
                  && o.status.error == IndexError
                  && |Fields(lines[o.status.at])| == 2
                  && forall j :: 0 <= j < o.status.at ==> |Fields(lines[j])| != 2)
            && forall e :: e in o.out ==> e.count == 1
  {
    var o := Mapper(lines);
    if o.status.Crashed? {
      assert MapLine(lines[o.status.at]) == Raise(o.status.error);
    }
    forall e | e in o.out
      ensures e.count == 1
    {
      RunMapperMember(lines, MapLine, e);
    }
  }

  // ---------------------------------------------------------------------
  // The reducer.

  /** `counts`, a `defaultdict(int)`: the count of each label, and its keys
      in insertion order, which is the order `counts.items()` yields. */
  datatype Counter = Counter(counts: map<string, int>, order: seq<string>)

  const Empty: Counter := Counter(map[], [])

  /** `counts[label] += n`: a label not yet present starts from 0 and goes
      to the end of the insertion order. */
  function Add(c: Counter, name: string, n: int): Counter
  {
    if name in c.counts then Counter(c.counts[name := c.counts[name] + n], c.order)
    else Counter(c.counts[name := n], c.order + [name])
  }

  /** A label and the count `int()` read for it. */
  datatype Entry = Entry(name: string, count: int)

  /** The counter after adding `entries` in turn. */
  function Tallied(entries: seq<Entry>): Counter
  {
    if entries == [] then Empty
    else
      var last := entries[|entries| - 1];
      Add(Tallied(entries[..|entries| - 1]), last.name, last.count)
  }

  /** The sum of the counts of the entries labelled `name`. */
  function Total(entries: seq<Entry>, name: string): int
  {
    if entries == [] then 0
    else
      var last := entries[|entries| - 1];
      Total(entries[..|entries| - 1], name) + (if last.name == name then last.count else 0)
  }

  /** Some entry is labelled `name`. */
  predicate Labelled(entries: seq<Entry>, name: string)
  {
    exists q :: 0 <= q < |entries| && entries[q].name == name
  }

  /** No label occurs twice in `order`. */
  predicate Distinct(order: seq<string>)
  {
    forall i, j :: 0 <= i < j < |order| ==> order[i] != order[j]
  }

  /** `order` lists labels by first appearance in `entries`: every entry
      labelled `order[j]` comes after some entry labelled `order[i]`, for
      each `i < j`. */
  predicate FirstAppearance(entries: seq<Entry>, order: seq<string>)
  {
    forall i, j, p {:trigger order[i], order[j], entries[p]} ::
      0 <= i < j < |order| && 0 <= p < |entries| && entries[p].name == order[j] ==>
      SeenBefore(entries, p, order[i])
  }

  /** Some entry before position `p` carries the label. */
  predicate SeenBefore(entries: seq<Entry>, p: nat, name: string)
  {
    exists q :: 0 <= q < p && q < |entries| && entries[q].name == name
  }

  lemma TalliedSnoc(entries: seq<Entry>, x: Entry)
    ensures Tallied(entries + [x]) == Add(Tallied(entries), x.name, x.count)
    ensures Total(entries + [x], x.name) == Total(entries, x.name) + x.count
    ensures forall name :: name != x.name ==> Total(entries + [x], name) == Total(entries, name)
  {
    assert (entries + [x])[..|entries|] == entries;
  }

  lemma {:induction false} LabelledSnoc(entries: seq<Entry>, x: Entry, name: string)
    ensures Labelled(entries + [x], name) <==> Labelled(entries, name) || x.name == name
  {
    var e := entries + [x];
    if Labelled(entries, name) {
      var q :| 0 <= q < |entries| && entries[q].name == name;
      assert e[q] == entries[q];
    }
    if Labelled(e, name) && x.name != name {
      var q :| 0 <= q < |e| && e[q].name == name;
      assert e[q] == entries[q];
    }
    if x.name == name {
      assert e[|entries|] == x;
    }
  }

  /** A label of no entry adds up to zero. */
  lemma {:induction false} TotalUnlabelled(entries: seq<Entry>, name: string)
    requires !Labelled(entries, name)
    ensures Total(entries, name) == 0
  {
    if entries != [] {
      var init, x := entries[..|entries| - 1], entries[|entries| - 1];
      assert entries == init + [x];
      LabelledSnoc(init, x, name);
      TotalUnlabelled(init, name);
      TalliedSnoc(init, x);
    }
  }

  /** The counter's keys are the labels of the entries, and its insertion
      order lists exactly its keys, none twice. */
  lemma {:induction false} TalliedKeys(entries: seq<Entry>)
    ensures var c := Tallied(entries);
            && (forall name :: name in c.counts <==> Labelled(entries, name))
            && (forall name :: name in c.order <==> name in c.counts)
            && Distinct(c.order)
  {
    if entries != [] {
      var init, x := entries[..|entries| - 1], entries[|entries| - 1];
      assert entries == init + [x];
      TalliedKeys(init);
      TalliedSnoc(init, x);
      forall name
        ensures name in Tallied(entries).counts <==> Labelled(entries, name)
      {
        LabelledSnoc(init, x, name);
      }
    }
  }

  /** Each key of the counter holds the sum of the counts of its label. */
  lemma {:induction false} TalliedTotals(entries: seq<Entry>)
    ensures var c := Tallied(entries);
            forall name :: name in c.counts ==> c.counts[name] == Total(entries, name)
  {
    if entries != [] {
      var init, x := entries[..|entries| - 1], entries[|entries| - 1];
      assert entries == init + [x];
      TalliedTotals(init);
      TalliedSnoc(init, x);
      TalliedKeys(init);
      if !Labelled(init, x.name) {
        TotalUnlabelled(init, x.name);
      }
    }
  }

  /** The counter lists its keys in order of first appearance. */
  lemma {:induction false} TalliedOrder(entries: seq<Entry>)
    ensures FirstAppearance(entries, Tallied(entries).order)
  {
    if entries != [] {
      var init, x := entries[..|entries| - 1], entries[|entries| - 1];
      assert entries == init + [x];
      TalliedOrder(init);
      TalliedSnoc(init, x);
      TalliedKeys(init);
      var c := Tallied(init);
      if x.name in c.counts {
        FirstAppearanceOld(init, x, c.order);
      } else {
        FirstAppearanceNew(init, x, c.order);
      }
    }
  }

  /** What `FirstAppearance` says about one pair of listed labels. */
  lemma FirstAppearanceAt(entries: seq<Entry>, order: seq<string>, i: nat, j: nat, p: nat)
    requires FirstAppearance(entries, order)
    requires i < j < |order| && p < |entries| && entries[p].name == order[j]
    ensures SeenBefore(entries, p, order[i])
  {
  }

  /** Adding an entry whose label is already listed keeps the order one of
      first appearance. */
  lemma FirstAppearanceOld(init: seq<Entry>, x: Entry, order: seq<string>)
    requires FirstAppearance(init, order) && x.name in order
    requires forall name :: name in order ==> Labelled(init, name)
    ensures FirstAppearance(init + [x], order)
  {
    var entries, n := init + [x], |init|;
    forall i, j, p | 0 <= i < j < |order| && 0 <= p < |entries| && entries[p].name == order[j]
      ensures SeenBefore(entries, p, order[i])
    {
      var p' := p;
      if p == n {
        assert Labelled(init, order[j]);
        p' :| 0 <= p' < |init| && init[p'].name == order[j];
      } else {
        assert init[p] == entries[p];
      }
      FirstAppearanceAt(init, order, i, j, p');
      var q :| 0 <= q < p' && q < |init| && init[q].name == order[i];
      assert entries[q] == init[q];
    }
  }

  /** Adding an entry with a new label and listing that label last keeps
      the order one of first appearance. */
  lemma FirstAppearanceNew(init: seq<Entry>, x: Entry, order: seq<string>)
    requires FirstAppearance(init, order) && x.name !in order
    requires forall name :: name in order <==> Labelled(init, name)
    ensures FirstAppearance(init + [x], order + [x.name])
  {
    var entries, n, order' := init + [x], |init|, order + [x.name];
    forall i, j, p | 0 <= i < j < |order'| && 0 <= p < |entries| && entries[p].name == order'[j]
      ensures SeenBefore(entries, p, order'[i])
    {
      assert order'[i] == order[i];
      if j < |order| {
        assert order'[j] == order[j];
        OldLabelEarlier(init, x, order, i, j, p);
      } else {
        NewLabelLast(init, x, order, i, p);
      }
    }
  }

  lemma OldLabelEarlier(init: seq<Entry>, x: Entry, order: seq<string>, i: nat, j: nat, p: nat)
    requires FirstAppearance(init, order) && x.name !in order
    requires i < j < |order| && p <= |init| && (init + [x])[p].name == order[j]
    ensures SeenBefore(init + [x], p, order[i])
  {
    var entries := init + [x];
    assert entries[|init|] == x;
    assert order[j] in order;
    assert p < |init|;
    assert init[p] == entries[p];
    FirstAppearanceAt(init, order, i, j, p);
    var q :| 0 <= q < p && q < |init| && init[q].name == order[i];
    assert entries[q] == init[q];
  }

  lemma NewLabelLast(init: seq<Entry>, x: Entry, order: seq<string>, i: nat, p: nat)
    requires x.name !in order
    requires forall name :: name in order <==> Labelled(init, name)
    requires i < |order| && p <= |init| && (init + [x])[p].name == x.name
    ensures SeenBefore(init + [x], p, order[i])
  {
    var entries := init + [x];
    assert forall q :: 0 <= q < |init| ==> entries[q] == init[q];
    assert !Labelled(init, x.name);
    assert p == |init|;
    assert Labelled(init, order[i]);
    var q :| 0 <= q < |init| && init[q].name == order[i];
    assert entries[q] == init[q];
  }

  // ---------------------------------------------------------------------
  // The reducer over its input lines.

  /** A `label<TAB>count` row whose count `int()` refuses: the `ValueError`
      nothing catches. */
  predicate Refused(row: seq<string>, parseInt: string -> Option<int>)
  {
    |row| == 2 && parseInt(row[1]).None?
  }

  /** Index of the first refused row (`|rows|` if none). */
  function FirstRefused(rows: seq<seq<string>>, parseInt: string -> Option<int>): (n: nat)
    ensures n <= |rows|
    ensures n < |rows| ==> Refused(rows[n], parseInt)
  {
    if rows == [] then 0
    else
      var m := FirstRefused(rows[..|rows| - 1], parseInt);
      if m < |rows| - 1 then m
      else if Refused(rows[|rows| - 1], parseInt) then |rows| - 1
      else |rows|
  }

  /** The entry a row adds: a row of exactly two fields whose count `int()`
      reads; any other row is skipped by `if len(parts) == 2`. */
  function EntryOf(row: seq<string>, parseInt: string -> Option<int>): seq<Entry>
  {
    if |row| == 2 && parseInt(row[1]).Some? then [Entry(row[0], parseInt(row[1]).value)] else []
  }

  /** The entries of all rows, in input order. */
  function Entries(rows: seq<seq<string>>, parseInt: string -> Option<int>): seq<Entry>
  {
    if rows == [] then []
    else Entries(rows[..|rows| - 1], parseInt) + EntryOf(rows[|rows| - 1], parseInt)
  }

  /** `for label, count in counts.items(): print(f"{label}\t{count}")`. */
  function Report(c: Counter): (r: seq<Entry>)
    requires forall name :: name in c.order ==> name in c.counts
    ensures |r| == |c.order|
  {
    seq(|c.order|, j requires 0 <= j < |c.order| => Entry(c.order[j], c.counts[c.order[j]]))
  }

  /** What the reducer prints and how it ends: at the first refused count
      it stops before printing anything; otherwise it prints the tallied
      counter. */
  function Spec(lines: seq<string>, parseInt: string -> Option<int>): Outcome<Entry>
  {
    var rows := Rows(lines);
    var n := FirstRefused(rows, parseInt);
    if n < |rows| then Outcome([], Crashed(n, ValueError))
    else
      var entries := Entries(rows, parseInt);
      TalliedKeys(entries);
      Outcome(Report(Tallied(entries)), Finished)
  }

  /** No row before the first refused one is refused. */
  lemma {:induction false} FirstRefusedMinimal(rows: seq<seq<string>>, parseInt: string -> Option<int>, j: nat)
    requires j < FirstRefused(rows, parseInt)
    ensures !Refused(rows[j], parseInt)
  {
    var init := rows[..|rows| - 1];
    if j < |init| {
      FirstRefusedMinimal(init, parseInt, j);
      assert init[j] == rows[j];
    }
  }

  /** A refusal within a prefix is the first refusal of the whole. */
  lemma {:induction false} FirstRefusedPrefix(rows: seq<seq<string>>, parseInt: string -> Option<int>, k: nat)
    requires k <= |rows| && FirstRefused(rows[..k], parseInt) < k
    ensures FirstRefused(rows, parseInt) == FirstRefused(rows[..k], parseInt)
    decreases |rows| - k
  {
    if k < |rows| {
      var init := rows[..|rows| - 1];
      assert init[..k] == rows[..k];
      FirstRefusedPrefix(init, parseInt, k);
    } else {
      assert rows[..k] == rows;
    }
  }

  /** One more row that is not refused: a row of two fields adds its
      count, any other row changes nothing. */
  lemma TallyRow(rows: seq<seq<string>>, parseInt: string -> Option<int>, i: nat)
    requires i < |rows| && FirstRefused(rows[..i], parseInt) == i && !Refused(rows[i], parseInt)
    ensures FirstRefused(rows[..i + 1], parseInt) == i + 1
    ensures var before := Tallied(Entries(rows[..i], parseInt));
            Tallied(Entries(rows[..i + 1], parseInt)) ==
              if |rows[i]| == 2 then Add(before, rows[i][0], parseInt(rows[i][1]).value) else before
  {
    var prefix := rows[..i + 1];
    assert prefix[..i] == rows[..i];
    assert prefix[i] == rows[i];
    var e := Entries(rows[..i], parseInt);
    if |rows[i]| == 2 {
      TalliedSnoc(e, Entry(rows[i][0], parseInt(rows[i][1]).value));
    } else {
      assert e + [] == e;
    }
  }

  /** One more row that is refused: the whole run stops there. */
  lemma StopRow(rows: seq<seq<string>>, parseInt: string -> Option<int>, i: nat)
    requires i < |rows| && FirstRefused(rows[..i], parseInt) == i && Refused(rows[i], parseInt)
    ensures FirstRefused(rows, parseInt) == i
  {
    var prefix := rows[..i + 1];
    assert prefix[..i] == rows[..i];
    assert prefix[i] == rows[i];
    FirstRefusedPrefix(rows, parseInt, i + 1);
  }

  /** `counts[label] += n` on the dictionary and its insertion order. */
  method Increment(counts: map<string, int>, order: seq<string>, name: string, n: int)
    returns (counts': map<string, int>, order': seq<string>)
    ensures Counter(counts', order') == Add(Counter(counts, order), name, n)
  {
    if name in counts {
      counts', order' := counts[name := counts[name] + n], order;
    } else {
      counts', order' := counts[name := n], order + [name];
    }
  }

  /** The counting loop `for line in sys.stdin: ...`. It runs to the end,
      or stops at the first refused count with `stop` its index: after a
      full run the dictionary holds the tallied entries. */
  method CountLabels(lines: seq<string>, parseInt: string -> Option<int>)
    returns (counts: map<string, int>, order: seq<string>, stop: nat)
    ensures stop == FirstRefused(Rows(lines), parseInt)
    ensures stop == |lines| ==> Counter(counts, order) == Tallied(Entries(Rows(lines), parseInt))
  {
    ghost var rows := Rows(lines);
    counts, order := map[], [];
    var i := 0;
    while i < |lines|
      invariant 0 <= i <= |lines|
      invariant FirstRefused(rows[..i], parseInt) == i
      invariant Counter(counts, order) == Tallied(Entries(rows[..i], parseInt))
    {
      RowsIndex(lines, i);
      var parts := Fields(lines[i]);  // line.strip().split("\t")
      if |parts| == 2 {
        var name, text := parts[0], parts[1];
        var n := parseInt(text);
        if n.None? {
          StopRow(rows, parseInt, i);
          return counts, order, i;
        }
        TallyRow(rows, parseInt, i);
        counts, order := Increment(counts, order, name, n.value);
      } else {
        TallyRow(rows, parseInt, i);
      }
      i := i + 1;
    }
    assert rows[..i] == rows;
    stop := i;
  }

  /** The printing loop `for label, count in counts.items(): ...`. */
  method PrintCounts(counts: map<string, int>, order: seq<string>) returns (out: seq<Entry>)
    requires forall name :: name in order ==> name in counts
    ensures out == Report(Counter(counts, order))
  {
    out := [];
    var j := 0;
    while j < |order|
      invariant 0 <= j <= |order|
      invariant out == Report(Counter(counts, order))[..j]
    {
      out := out + [Entry(order[j], counts[order[j]])];
      j := j + 1;
    }
  }

  /** The reducer: the counting loop, then the printing loop; an uncaught
      `ValueError` stops it before anything is printed. */
  method Reducer(lines: seq<string>, parseInt: string -> Option<int>) returns (out: seq<Entry>, status: Status)
    ensures Outcome(out, status) == Spec(lines, parseInt)
  {
    var counts, order, stop := CountLabels(lines, parseInt);
    if stop < |lines| {
      return [], Crashed(stop, ValueError);
    }
    TalliedKeys(Entries(Rows(lines), parseInt));
    out := PrintCounts(counts, order);
    status := Finished;
  }

  // ---------------------------------------------------------------------
  // What the reducer promises.

  /** The reducer stops exactly when some line has two fields and a count
      `int()` refuses, at the first such line and before printing anything. */
  lemma ReducerCrash(lines: seq<string>, parseInt: string -> Option<int>)
    ensures var o := Spec(lines, parseInt);
            && (o.status.Crashed? <==> exists j :: 0 <= j < |lines| && Refused(Fields(lines[j]), parseInt))
            && (o.status.Crashed? ==>
                  && o.out == []
                  && o.status.error == ValueError
                  && Refused(Fields(lines[o.status.at]), parseInt)
                  && forall j :: 0 <= j < o.status.at ==> !Refused(Fields(lines[j]), parseInt))
  {
    var rows := Rows(lines);
    var n := FirstRefused(rows, parseInt);
    forall j | 0 <= j < n
      ensures !Refused(Fields(lines[j]), parseInt)
    {
      RowsIndex(lines, j);
      FirstRefusedMinimal(rows, parseInt, j);
    }
    if n < |rows| {
      RowsIndex(lines, n);
    }
  }

  /** The labels of printed pairs, in order. */
  function Names(out: seq<Entry>): (r: seq<string>)
    ensures |r| == |out| && forall k :: 0 <= k < |out| ==> r[k] == out[k].name
  {
    seq(|out|, k requires 0 <= k < |out| => out[k].name)
  }

  /** A run that finishes prints the tallied counter. */
  lemma SpecFinished(lines: seq<string>, parseInt: string -> Option<int>)
    requires Spec(lines, parseInt).status == Finished
    ensures var entries := Entries(Rows(lines), parseInt);
            (forall name :: name in Tallied(entries).order ==> name in Tallied(entries).counts) &&
            Spec(lines, parseInt).out == Report(Tallied(entries))
  {
    TalliedKeys(Entries(Rows(lines), parseInt));
  }

  /** The tallied counter prints each label of the entries exactly once,
      with the sum of its counts, in the order the labels first appeared. */
  lemma TalliedReport(entries: seq<Entry>)
    ensures var c := Tallied(entries);
            (forall name :: name in c.order ==> name in c.counts) &&
            var out := Report(c);
            && Distinct(Names(out))
            && (forall j :: 0 <= j < |out| ==> out[j].count == Total(entries, out[j].name))
            && (forall name :: Labelled(entries, name) <==> name in Names(out))
            && FirstAppearance(entries, Names(out))
  {
    var c := Tallied(entries);
    TalliedKeys(entries);
    TalliedTotals(entries);
    TalliedOrder(entries);
    assert Names(Report(c)) == c.order;
  }

  /** A run that finishes prints each label of the entries exactly once,
      with the sum of its counts, in the order the labels first appeared. */
  lemma ReducerReport(lines: seq<string>, parseInt: string -> Option<int>)
    requires Spec(lines, parseInt).status == Finished
    ensures var out, entries := Spec(lines, parseInt).out, Entries(Rows(lines), parseInt);
            && Distinct(Names(out))
            && (forall j :: 0 <= j < |out| ==> out[j].count == Total(entries, out[j].name))
            && (forall name :: Labelled(entries, name) <==> name in Names(out))
            && FirstAppearance(entries, Names(out))
  {
    SpecFinished(lines, parseInt);
    TalliedReport(Entries(Rows(lines), parseInt));
  }

  /** Row `row` gives the entry `x`. */
  predicate Gives(row: seq<string>, parseInt: string -> Option<int>, x: Entry)
  {
    |row| == 2 && row[0] == x.name && parseInt(row[1]) == Some(x.count)
  }

  /** The entries are exactly what the two-field rows with a readable count
      give. */
  lemma {:induction false} EntriesMember(rows: seq<seq<string>>, parseInt: string -> Option<int>, x: Entry)
    ensures x in Entries(rows, parseInt) <==> exists j :: 0 <= j < |rows| && Gives(rows[j], parseInt, x)
  {
    if rows != [] {
      var init, last := rows[..|rows| - 1], rows[|rows| - 1];
      EntriesMember(init, parseInt, x);
      if exists j :: 0 <= j < |rows| && Gives(rows[j], parseInt, x) {
        var j :| 0 <= j < |rows| && Gives(rows[j], parseInt, x);
        if j < |init| {
          assert init[j] == rows[j];
        }
      }
      if exists j :: 0 <= j < |init| && Gives(init[j], parseInt, x) {
        var j :| 0 <= j < |init| && Gives(init[j], parseInt, x);
        assert init[j] == rows[j];
      }
    }
  }

  lemma {:induction false} EntriesAppend(a: seq<seq<string>>, b: seq<seq<string>>, parseInt: string -> Option<int>)
    ensures Entries(a + b, parseInt) == Entries(a, parseInt) + Entries(b, parseInt)
    decreases |b|
  {
    if b == [] {
      assert a + b == a;
    } else {
      DropLastOfAppend(a, b);
      EntriesAppend(a, b[..|b| - 1], parseInt);
      assert (a + b)[|a + b| - 1] == b[|b| - 1];
    }
  }

  /** A row without exactly two fields may sit anywhere in the input: it
      adds no entry. */
  lemma IgnoredRow(a: seq<seq<string>>, row: seq<string>, b: seq<seq<string>>, parseInt: string -> Option<int>)
    requires |row| != 2
    ensures Entries(a + [row] + b, parseInt) == Entries(a + b, parseInt)
  {
    EntriesMiddle(a, row, b, parseInt);
    EntriesAppend(a, b, parseInt);
    assert Entries(a, parseInt) + [] == Entries(a, parseInt);
  }

  /** A last row without exactly two fields adds no entry and no refusal. */
  lemma IgnoredLastRow(rows: seq<seq<string>>, row: seq<string>, parseInt: string -> Option<int>)
    requires |row| != 2
    ensures var n := FirstRefused(rows, parseInt);
            FirstRefused(rows + [row], parseInt) == if n < |rows| then n else |rows| + 1
    ensures Entries(rows + [row], parseInt) == Entries(rows, parseInt)
  {
    var longer := rows + [row];
    assert longer[..|rows|] == rows;
    assert longer[|rows|] == row;
    assert Entries(rows, parseInt) + [] == Entries(rows, parseInt);
  }

  /** A last line without exactly two fields changes nothing the reducer
      does. */
  lemma IgnoredLine(lines: seq<string>, line: string, parseInt: string -> Option<int>)
    requires |Fields(line)| != 2
    ensures Spec(lines + [line], parseInt) == Spec(lines, parseInt)
  {
    var longer := lines + [line];
    assert longer[..|lines|] == lines;
    assert Rows(longer) == Rows(lines) + [Fields(line)];
    IgnoredLastRow(Rows(lines), Fields(line), parseInt);
  }

  lemma {:induction false} TotalAppend(a: seq<Entry>, b: seq<Entry>, name: string)
    ensures Total(a + b, name) == Total(a, name) + Total(b, name)
    decreases |b|
  {
    if b == [] {
      assert a + b == a;
    } else {
      DropLastOfAppend(a, b);
      TotalAppend(a, b[..|b| - 1], name);
      assert (a + b)[|a + b| - 1] == b[|b| - 1];
    }
  }

  lemma TotalRemove(b: seq<Entry>, k: nat, name: string)
    requires k < |b|
    ensures Total(b, name) == Total(b[..k] + b[k + 1..], name) + (if b[k].name == name then b[k].count else 0)
  {
    assert b == b[..k] + [b[k]] + b[k + 1..];
    TotalAppend(b[..k] + [b[k]], b[k + 1..], name);
    TotalAppend(b[..k], [b[k]], name);
    TotalAppend(b[..k], b[k + 1..], name);
    assert [b[k]][..0] == [];
  }

  /** The total of a label does not depend on the order of the entries. */
  lemma {:induction false} TotalPermutation(a: seq<Entry>, b: seq<Entry>, name: string)
    requires multiset(a) == multiset(b)
    ensures Total(a, name) == Total(b, name)
    decreases |a|
  {
    if a != [] {
      var k := PermutationPick(a, b);
      TotalPermutation(a[..|a| - 1], b[..k] + b[k + 1..], name);
      TotalRemove(b, k, name);
    }
  }

  /** Whether a label occurs does not depend on the order of the entries. */
  lemma LabelledPermutation(a: seq<Entry>, b: seq<Entry>, name: string)
    requires multiset(a) == multiset(b)
    ensures Labelled(a, name) <==> Labelled(b, name)
  {
    if Labelled(a, name) {
      var q :| 0 <= q < |a| && a[q].name == name;
      assert a[q] in multiset(b);
    }
    if Labelled(b, name) {
      var q :| 0 <= q < |b| && b[q].name == name;
      assert b[q] in multiset(a);
    }
  }

  /** The entries of a row between two stretches of rows. */
  lemma EntriesMiddle(front: seq<seq<string>>, row: seq<string>, rest: seq<seq<string>>, parseInt: string -> Option<int>)
    ensures Entries(front + [row] + rest, parseInt) == Entries(front, parseInt) + EntryOf(row, parseInt) + Entries(rest, parseInt)
  {
    EntriesAppend(front + [row], rest, parseInt);
    EntriesSnoc(front, row, parseInt);
  }

  lemma EntriesSnoc(rows: seq<seq<string>>, row: seq<string>, parseInt: string -> Option<int>)
    ensures Entries(rows + [row], parseInt) == Entries(rows, parseInt) + EntryOf(row, parseInt)
  {
    assert (rows + [row])[..|rows|] == rows;
  }

  lemma MultisetOfThree<T>(x: seq<T>, y: seq<T>, z: seq<T>)
    ensures multiset(x + y + z) == multiset(x + z) + multiset(y)
  {
    assert multiset(x + y + z) == multiset(x) + multiset(y) + multiset(z);
    assert multiset(x + z) == multiset(x) + multiset(z);
  }

  /** Putting a row back into both of two stretches of rows whose entries
      agree up to order keeps them agreeing. */
  lemma EntriesReinsert(init: seq<seq<string>>, x: seq<string>, front: seq<seq<string>>, rest: seq<seq<string>>, parseInt: string -> Option<int>)
    requires multiset(Entries(init, parseInt)) == multiset(Entries(front + rest, parseInt))
    ensures multiset(Entries(init + [x], parseInt)) == multiset(Entries(front + [x] + rest, parseInt))
  {
    var ef, ex, er := Entries(front, parseInt), EntryOf(x, parseInt), Entries(rest, parseInt);
    EntriesSnoc(init, x, parseInt);
    EntriesAppend(front, rest, parseInt);
    EntriesMiddle(front, x, rest, parseInt);
    MultisetOfThree(ef, ex, er);
  }

  /** Reordering the rows reorders the entries. */
  lemma {:induction false} EntriesPermutation(a: seq<seq<string>>, b: seq<seq<string>>, parseInt: string -> Option<int>)
    requires multiset(a) == multiset(b)
    ensures multiset(Entries(a, parseInt)) == multiset(Entries(b, parseInt))
    decreases |a|
  {
    if a != [] {
      var k := PermutationPick(a, b);
      var init, x := a[..|a| - 1], a[|a| - 1];
      var front, rest := b[..k], b[k + 1..];
      EntriesPermutation(init, front + rest, parseInt);
      EntriesReinsert(init, x, front, rest, parseInt);
    }
  }

  /** The final counts do not depend on the order of the input rows: the
      reducer needs its input grouped by label no more than it needs it
      sorted. */
  lemma OrderIndependent(a: seq<seq<string>>, b: seq<seq<string>>, parseInt: string -> Option<int>)
    requires multiset(a) == multiset(b)
    ensures Tallied(Entries(a, parseInt)).counts == Tallied(Entries(b, parseInt)).counts
  {
    var ea, eb := Entries(a, parseInt), Entries(b, parseInt);
    EntriesPermutation(a, b, parseInt);
    TalliedKeys(ea);
    TalliedKeys(eb);
    TalliedTotals(ea);
    TalliedTotals(eb);
    forall name
      ensures name in Tallied(ea).counts <==> name in Tallied(eb).counts
    {
      LabelledPermutation(ea, eb, name);
    }
    forall name | name in Tallied(ea).counts
      ensures Tallied(ea).counts[name] == Tallied(eb).counts[name]
    {
      TotalPermutation(ea, eb, name);
    }
  }
}
