/** `map_scripts/mapper_correlation.py`: for every record with more than
    four tab fields, prints the completion percentage (the fifth field, as
    text) under each of the constant keys `age`, `gender` and `region`. */
module MapperCorrelation {
  import opened Script
  import opened Text

  /** The three constant keys, printed as `age`, `gender` and `region`. */
  datatype Feature = Age | Gender | Region

  /** One printed pair `<feature><TAB>fields[4]`. */
  datatype Emission = Emission(feature: Feature, completion: string)

  /** The key of the `k`-th pair a record prints. */
  function FeatureAt(k: nat): Feature
    requires k < 3
  {
    [Age, Gender, Region][k]
  }

  /** A record line: more than four fields. */
  predicate Qualifies(line: string)
  {
    |Fields(line)| > 4
  }

  /** One iteration of the mapper loop; nothing in it can raise. */
  function MapLine(line: string): (r: LineResult<Emission>)
    ensures r.Emit?
    ensures |r.items| == if Qualifies(line) then 3 else 0
    ensures forall k :: 0 <= k < |r.items| ==> r.items[k].feature == FeatureAt(k)
  {
    var fields := Fields(line);
    if |fields| > 4 then
      var completion := fields[4];
      Emit([Emission(Age, completion), Emission(Gender, completion), Emission(Region, completion)])
    else Emit([])
  }

  /** The whole mapper over its input lines. */
  function Mapper(lines: seq<string>): Outcome<Emission>
  {
    RunMapper(lines, MapLine)
  }

  /** The number of record lines. */
  function Qualifying(lines: seq<string>): nat
  {
    if lines == [] then 0 else (if Qualifies(lines[0]) then 1 else 0) + Qualifying(lines[1..])
  }

  /** The number of pairs printed under `f`. */
  function CountOf(out: seq<Emission>, f: Feature): nat
  {
    if out == [] then 0 else (if out[0].feature == f then 1 else 0) + CountOf(out[1..], f)
  }

  lemma {:induction false} CountOfAppend(a: seq<Emission>, b: seq<Emission>, f: Feature)
    ensures CountOf(a + b, f) == CountOf(a, f) + CountOf(b, f)
  {
    if a == [] {
      assert a + b == b;
    } else {
      assert (a + b)[1..] == a[1..] + b;
      CountOfAppend(a[1..], b, f);
    }
  }

  /** The mapper always runs to the end, and its output is one
      `age`, `gender`, `region` triple per record line, in that order. */
  lemma {:induction false} MapperTriples(lines: seq<string>)
    ensures Mapper(lines).status == Finished
    ensures var out := Mapper(lines).out;
            |out| == 3 * Qualifying(lines) &&
            forall i :: 0 <= i < |out| ==> out[i].feature == FeatureAt(i % 3)
  {
    if lines != [] {
      MapperTriples(lines[1..]);
      var items: seq<Emission> := MapLine(lines[0]).items;
      var rest: seq<Emission> := Mapper(lines[1..]).out;
      assert Mapper(lines).out == items + rest;
      TriplesConcat(items, rest);
    }
  }

  /** A triple, or nothing, before a sequence of triples is a sequence of
      triples. */
  lemma TriplesConcat(items: seq<Emission>, rest: seq<Emission>)
    requires |items| == 0 || |items| == 3
    requires forall k :: 0 <= k < |items| ==> items[k].feature == FeatureAt(k)
    requires forall i :: 0 <= i < |rest| ==> rest[i].feature == FeatureAt(i % 3)
    ensures forall i :: 0 <= i < |items + rest| ==> (items + rest)[i].feature == FeatureAt(i % 3)
  {
    forall i | 0 <= i < |items + rest|
      ensures (items + rest)[i].feature == FeatureAt(i % 3)
    {
      ModThree(i);
      if i < |items| {
        assert (items + rest)[i] == items[i];
      } else {
        var k := i - |items|;
        assert (items + rest)[i] == rest[k];
        assert k % 3 == i % 3;
      }
    }
  }

  lemma ModThree(i: nat)
    ensures i < 3 ==> i % 3 == i
    ensures i >= 3 ==> (i - 3) % 3 == i % 3
  {
  }

  /** Over `n` record lines each of the three keys is printed exactly `n`
      times. */
  lemma {:induction false} FeatureCounts(lines: seq<string>, f: Feature)
    ensures CountOf(Mapper(lines).out, f) == Qualifying(lines)
  {
    if lines != [] {
      FeatureCounts(lines[1..], f);
      var items: seq<Emission> := MapLine(lines[0]).items;
      CountOfAppend(items, Mapper(lines[1..]).out, f);
      if Qualifies(lines[0]) {
        RecordCount(lines[0], f);
      }
    }
  }

  /** A record line prints each key once. */
  lemma RecordCount(line: string, f: Feature)
    requires Qualifies(line)
    ensures CountOf(MapLine(line).items, f) == 1
  {
    var c := Fields(line)[4];
    var items := [Emission(Age, c), Emission(Gender, c), Emission(Region, c)];
    assert MapLine(line).items == items;
    assert items[1..] == [Emission(Gender, c), Emission(Region, c)];
    assert items[1..][1..] == [Emission(Region, c)];
    assert items[1..][1..][1..] == [];
    assert CountOf(items[1..][1..], f) == if f == Region then 1 else 0;
    assert CountOf(items[1..], f) == if f == Region || f == Gender then 1 else 0;
  }

  /** What one line prints under the keys: its fifth field, if it is a
      record line. */
  lemma MapLineEmits(line: string, e: Emission)
    ensures e in MapLine(line).items <==> Qualifies(line) && e.completion == Fields(line)[4]
  {
    if Qualifies(line) {
      var c := Fields(line)[4];
      assert MapLine(line).items == [Emission(Age, c), Emission(Gender, c), Emission(Region, c)];
      assert e.feature == Age || e.feature == Gender || e.feature == Region;
    }
  }

  /** Every printed value is the fifth field of some record line, verbatim,
      and every record line's fifth field is printed under each key. */
  lemma MapperEmissions(lines: seq<string>, e: Emission)
    ensures e in Mapper(lines).out <==>
            exists j :: 0 <= j < |lines| && Qualifies(lines[j]) && e.completion == Fields(lines[j])[4]
  {
    MapperTriples(lines);
    RunMapperMember(lines, MapLine, e);
    forall j | 0 <= j < |lines|
      ensures e in MapLine(lines[j]).items <==> Qualifies(lines[j]) && e.completion == Fields(lines[j])[4]
    {
      MapLineEmits(lines[j], e);
    }
  }

  /** The first four fields play no part: two record lines with the same
      fifth field print the same pairs. */
  lemma LeadingFieldsIgnored(a: string, b: string)
    requires Qualifies(a) && Qualifies(b) && Fields(a)[4] == Fields(b)[4]
    ensures MapLine(a) == MapLine(b)
  {
  }
}
