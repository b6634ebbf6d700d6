/** `map_scripts/mapper_analysis.py`: for every record with at least four
    tab fields, prints the age, gender and region fields as tagged keys
    `AGE:<age>`, `Gender:<gender>`, `Region:<region>`, each with count 1;
    shorter lines are skipped on the `IndexError` of the field reads. */
module MapperAnalysis {
  import opened Script
  import opened Text

  /** The three features a record contributes. */
  datatype Feature = Age | Gender | Region

  /** One printed pair `<tagged key><TAB><count>`. */
  datatype Emission = Emission(key: string, count: nat)

  /** The tag each feature's keys start with. */
  function Prefix(f: Feature): string
  {
    match f
    case Age => "AGE:"
    case Gender => "Gender:"
    case Region => "Region:"
  }

  /** The tab field each feature is read from. */
  function Column(f: Feature): nat
  {
    match f
    case Age => 1
    case Gender => 2
    case Region => 3
  }

  /** The printed key of a feature value: its tag, then the raw field text. */
  function Label(f: Feature, value: string): string
  {
    Prefix(f) + value
  }

  /** Reads a printed key back into its feature and raw field text. */
  function ParseLabel(key: string): Option<(Feature, string)>
  {
    if |key| >= 4 && key[..4] == "AGE:" then Some((Age, key[4..]))
    else if |key| >= 7 && key[..7] == "Gender:" then Some((Gender, key[7..]))
    else if |key| >= 7 && key[..7] == "Region:" then Some((Region, key[7..]))
    else None
  }

  /** The tags are told apart by their first letter, so a key names one
      feature and one value: reading a key back is the inverse of printing
      it, in both directions. */
  lemma LabelRoundTrip(key: string, f: Feature, value: string)
    ensures ParseLabel(key) == Some((f, value)) <==> key == Label(f, value)
  {
    var p := Prefix(f);
    if key == Label(f, value) {
      assert key[..|p|] == p && key[|p|..] == value;
      assert key[0] == p[0];
      assert f != Age ==> key[..4] != "AGE:" by {
        if f != Age { assert key[..4][0] == key[0] != 'A'; }
      }
      assert f == Region ==> key[..7] != "Gender:" by {
        if f == Region { assert key[..7][0] == 'R'; }
      }
    }
    if ParseLabel(key) == Some((f, value)) {
      match f
      case Age =>
        assert key == key[..4] + key[4..];
      case Gender =>
        assert key == key[..7] + key[7..];
      case Region =>
        assert key == key[..7] + key[7..];
    }
  }

  /** A record line: at least four fields, so that `fields[1]` to
      `fields[3]` exist. */
  predicate IsRecord(line: string)
  {
    |Fields(line)| >= 4
  }

  /** One iteration of the loop. All three field reads come before the
      first print, so a short line prints nothing at all. */
  function MapLine(line: string): (r: LineResult<Emission>)
    ensures r.Emit?
    ensures |r.items| == if IsRecord(line) then 3 else 0
    ensures IsRecord(line) ==>
              r.items == [ Emission(Label(Age, Fields(line)[1]), 1),
                           Emission(Label(Gender, Fields(line)[2]), 1),
                           Emission(Label(Region, Fields(line)[3]), 1) ]
  {
    var fields := Fields(line);
    if |fields| >= 4 then
      Emit([ Emission(Label(Age, fields[1]), 1),
             Emission(Label(Gender, fields[2]), 1),
             Emission(Label(Region, fields[3]), 1) ])
    else Emit([])
  }

  /** The whole script over its input lines. */
  function Mapper(lines: seq<string>): Outcome<Emission>
  {
    RunMapper(lines, MapLine)
  }

  /** `e` is one of the pairs a record line prints: the tagged field of
      some feature, with count 1. */
  predicate Prints(line: string, e: Emission)
  {
    e.count == 1 && IsRecord(line) && exists f :: e.key == Label(f, Fields(line)[Column(f)])
  }

  /** A record prints the three tagged fields, each with count 1. */
  lemma PrintsCases(line: string, e: Emission)
    requires IsRecord(line)
    ensures var fields := Fields(line);
            Prints(line, e) <==>
              (e.count == 1 && (e.key == Label(Age, fields[1]) || e.key == Label(Gender, fields[2]) || e.key == Label(Region, fields[3])))
  {
    var fields := Fields(line);
    if Prints(line, e) {
      var f :| e.key == Label(f, fields[Column(f)]);
      assert f == Age || f == Gender || f == Region;
    }
    if e.key == Label(Age, fields[1]) {
      assert e.key == Label(Age, fields[Column(Age)]);
    } else if e.key == Label(Gender, fields[2]) {
      assert e.key == Label(Gender, fields[Column(Gender)]);
    } else if e.key == Label(Region, fields[3]) {
      assert e.key == Label(Region, fields[Column(Region)]);
    }
  }

  /** What one line prints is exactly the pairs of `Prints`. */
  lemma MapLineEmits(line: string, e: Emission)
    ensures e in MapLine(line).items <==> Prints(line, e)
  {
    if IsRecord(line) {
      var fields := Fields(line);
      assert MapLine(line).items == [ Emission(Label(Age, fields[1]), 1),
                                      Emission(Label(Gender, fields[2]), 1),
                                      Emission(Label(Region, fields[3]), 1) ];
      PrintsCases(line, e);
    }
  }

  /** The script never stops early, and what it prints is exactly the
      tagged age, gender and region fields of its record lines, each with
      count 1. */
  lemma MapperEmissions(lines: seq<string>, e: Emission)
    ensures Mapper(lines).status == Finished
    ensures e in Mapper(lines).out <==> exists j :: 0 <= j < |lines| && Prints(lines[j], e)
  {
    RunMapperMember(lines, MapLine, e);
    forall j | 0 <= j < |lines|
      ensures e in MapLine(lines[j]).items <==> Prints(lines[j], e)
    {
      MapLineEmits(lines[j], e);
    }
  }

  /** A printed pair has count 1 and a key that reads back as a feature of
      the record and the raw text of that feature's field. */
  lemma PrintsTagged(line: string, e: Emission)
    requires Prints(line, e)
    ensures e.count == 1
    ensures var p := ParseLabel(e.key);
            p.Some? && e.key == Label(p.value.0, p.value.1) && p.value.1 == Fields(line)[Column(p.value.0)]
  {
    var fields := Fields(line);
    PrintsCases(line, e);
    if e.key == Label(Age, fields[1]) {
      LabelReadBack(Age, fields[1]);
    } else if e.key == Label(Gender, fields[2]) {
      LabelReadBack(Gender, fields[2]);
    } else {
      LabelReadBack(Region, fields[3]);
    }
  }

  /** A printed key reads back as the feature and text it was made of. */
  lemma LabelReadBack(f: Feature, value: string)
    ensures ParseLabel(Label(f, value)) == Some((f, value))
  {
    LabelRoundTrip(Label(f, value), f, value);
  }

  /** Every key the script prints carries one of the three tags. */
  lemma EmittedKeysTagged(lines: seq<string>, e: Emission)
    requires e in Mapper(lines).out
    ensures e.count == 1 && ParseLabel(e.key).Some?
  {
    MapperEmissions(lines, e);
    var j :| 0 <= j < |lines| && Prints(lines[j], e);
    PrintsTagged(lines[j], e);
  }

  /** Only fields 1 to 3 matter: two records that agree on them print the
      same pairs, whatever their first field and their fields after the
      fourth. */
  lemma OtherFieldsIgnored(a: string, b: string)
    requires IsRecord(a) && IsRecord(b) && Fields(a)[1..4] == Fields(b)[1..4]
    ensures MapLine(a) == MapLine(b)
  {
    assert Fields(a)[1] == Fields(a)[1..4][0] && Fields(b)[1] == Fields(b)[1..4][0];
    assert Fields(a)[2] == Fields(a)[1..4][1] && Fields(b)[2] == Fields(b)[1..4][1];
    assert Fields(a)[3] == Fields(a)[1..4][2] && Fields(b)[3] == Fields(b)[1..4][2];
  }
}
