/** `map_scripts/color_completion_mapper.py`: re-keys each record line to
    `favourite_color<TAB>completion_percentage`, taken from the second and
    third tab fields. */
module ColorCompletionMapper {
  import opened Script
  import opened Text

  /** One printed pair `fields[1]<TAB>float(fields[2])`. */
  datatype Emission = Emission(color: string, percentage: real)

  /** One iteration of the mapper loop. Only `ValueError` is caught, so the
      `IndexError` of `fields[2]` on a two-field line escapes. */
  function MapLine(line: string, pf: string -> Option<real>): (r: LineResult<Emission>)
    ensures r.Raise? <==> |Fields(line)| == 2
    ensures r.Raise? ==> r.error == IndexError
    ensures r.Emit? ==> |r.items| <= 1
    ensures r.Emit? && r.items != [] <==> |Fields(line)| >= 3 && pf(Fields(line)[2]).Some?
  {
    var fields := Fields(line);
    if |fields| >= 2 then
      if |fields| < 3 then Raise(IndexError)
      else match pf(fields[2])
        case None => Emit([])
        case Some(v) => Emit([Emission(fields[1], v)])
    else Emit([])
  }

  /** The whole mapper over its input lines. */
  function Mapper(lines: seq<string>, pf: string -> Option<real>): Outcome<Emission>
  {
    RunMapper(lines, l => MapLine(l, pf))
  }

  /** The mapper stops exactly at the first line with two fields, with an
      `IndexError`; without such a line it runs to the end. */
  lemma MapperStops(lines: seq<string>, pf: string -> Option<real>)
    ensures var o := Mapper(lines, pf);
            && (o.status == Finished <==> forall j :: 0 <= j < |lines| ==> |Fields(lines[j])| != 2)
            && (o.status.Crashed? ==>
                  && o.status.error == IndexError
                  && |Fields(lines[o.status.at])| == 2
                  && forall j :: 0 <= j < o.status.at ==> |Fields(lines[j])| != 2)
  {
    var o := Mapper(lines, pf);
    if o.status.Crashed? {
      assert MapLine(lines[o.status.at], pf) == Raise(o.status.error);
    }
  }

  /** A line with at least three fields whose second field is `e.color`
      and whose third field parses to `e.percentage`. */
  predicate Yields(line: string, pf: string -> Option<real>, e: Emission)
  {
    var fields := Fields(line);
    |fields| >= 3 && e.color == fields[1] && pf(fields[2]) == Some(e.percentage)
  }

  /** What one line prints is exactly the pair it yields. */
  lemma MapLineYields(line: string, pf: string -> Option<real>, e: Emission)
    ensures MapLine(line, pf).Emit? && e in MapLine(line, pf).items <==> Yields(line, pf, e)
  {
  }

  /** A pair is printed exactly when some line handled before the mapper
      stopped yields it. */
  lemma MapperEmissions(lines: seq<string>, pf: string -> Option<real>, e: Emission)
    ensures var o := Mapper(lines, pf);
            e in o.out <==> exists j :: 0 <= j < Handled(o, |lines|) && Yields(lines[j], pf, e)
  {
    var f := l => MapLine(l, pf);
    RunMapperMember(lines, f, e);
    forall j | 0 <= j < |lines|
      ensures f(lines[j]).Emit? && e in f(lines[j]).items <==> Yields(lines[j], pf, e)
    {
      MapLineYields(lines[j], pf, e);
    }
  }

  /** At most one pair is printed per input line. */
  lemma MapperAtMostOnePerLine(lines: seq<string>, pf: string -> Option<real>)
    ensures |Mapper(lines, pf).out| <= |lines|
  {
    var f := l => MapLine(l, pf);
    assert forall l :: f(l).Emit? ==> |f(l).items| <= 1;
    RunMapperBound(lines, f, 1);
  }
}
