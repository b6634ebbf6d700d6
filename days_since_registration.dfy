/** `map_scripts/days_since_regsitration.py`: the mapper prints, for each
    record `user_id<TAB>registration_date<TAB>last_login_date`, the number of
    days from registration to last login; the reducer prints its input lines
    back, stripped. */
module DaysSinceRegistration {
  import opened Script
  import opened Text
  import opened Calendar
  import opened Strptime

  /** One printed pair `user_id<TAB>days`. */
  datatype Emission = Emission(userId: string, days: int)

  /** One iteration of the mapper loop. Lines with fewer than two fields
      are skipped; reading `parts[2]` of a two-field line raises an
      `IndexError`, which `except ValueError` does not catch; a date that
      `strptime` refuses raises a `ValueError`, which skips the line. */
  function MapLine(line: string): (r: LineResult<Emission>)
    ensures r.Raise? <==> |Fields(line)| == 2
    ensures r.Raise? ==> r.error == IndexError
    ensures r.Emit? ==> |r.items| <= 1
  {
    var parts := Fields(line);
    if |parts| < 2 then Emit([])
    else if |parts| < 3 then Raise(IndexError)
    else match (ParseDate(parts[1]), ParseDate(parts[2]))
      case (Some(registration), Some(lastLogin)) =>
        Emit([Emission(parts[0], DaysBetween(registration, lastLogin))])
      case _ => Emit([])
  }

  /** The whole mapper over its input lines. */
  function Mapper(lines: seq<string>): Outcome<Emission>
  {
    RunMapper(lines, MapLine)
  }

  /** A record line with two dates `strptime` reads, and the pair it
      prints: its first field and the days from the first date to the
      second. */
  predicate Yields(line: string, e: Emission)
  {
    var parts := Fields(line);
    && |parts| >= 3
    && ParseDate(parts[1]).Some? && ParseDate(parts[2]).Some?
    && e == Emission(parts[0], DaysBetween(ParseDate(parts[1]).value, ParseDate(parts[2]).value))
  }

  /** What one line prints is exactly the pair it yields: a line with a
      date that is not a valid calendar date prints nothing. */
  lemma MapLineYields(line: string, e: Emission)
    ensures MapLine(line).Emit? && e in MapLine(line).items <==> Yields(line, e)
  {
    var parts := Fields(line);
    if |parts| >= 3 {
      var registration, lastLogin := ParseDate(parts[1]), ParseDate(parts[2]);
      if registration.Some? && lastLogin.Some? {
        assert MapLine(line).items == [Emission(parts[0], DaysBetween(registration.value, lastLogin.value))];
      } else {
        assert MapLine(line).items == [];
      }
    }
  }

  /** The mapper stops exactly at the first line with two fields, with an
      `IndexError`; without such a line it runs to the end. */
  lemma MapperStops(lines: seq<string>)
    ensures var o := Mapper(lines);
            && (o.status == Finished <==> forall j :: 0 <= j < |lines| ==> |Fields(lines[j])| != 2)
            && (o.status.Crashed? ==>
                  && o.status.error == IndexError
                  && |Fields(lines[o.status.at])| == 2
                  && forall j :: 0 <= j < o.status.at ==> |Fields(lines[j])| != 2)
  {
    var o := Mapper(lines);
    if o.status.Crashed? {
      assert MapLine(lines[o.status.at]) == Raise(o.status.error);
    }
  }

  /** A pair is printed exactly when some line handled before the mapper
      stopped yields it. */
  lemma MapperEmissions(lines: seq<string>, e: Emission)
    ensures var o := Mapper(lines);
            e in o.out <==> exists j :: 0 <= j < Handled(o, |lines|) && Yields(lines[j], e)
  {
    RunMapperMember(lines, MapLine, e);
    forall j | 0 <= j < |lines|
      ensures MapLine(lines[j]).Emit? && e in MapLine(lines[j]).items <==> Yields(lines[j], e)
    {
      MapLineYields(lines[j], e);
    }
  }

  /** The days a line yields are negative exactly when its last login is
      dated before its registration, and zero exactly when the two dates
      are the same day. */
  lemma YieldedDaysSign(line: string, e: Emission)
    requires Yields(line, e)
    ensures var parts := Fields(line);
            var registration, lastLogin := ParseDate(parts[1]).value, ParseDate(parts[2]).value;
            && (e.days < 0 <==> Before(lastLogin, registration))
            && (e.days == 0 <==> lastLogin == registration)
  {
    var parts := Fields(line);
    DaysBetweenSign(ParseDate(parts[1]).value, ParseDate(parts[2]).value);
  }

  /** One iteration of the reducer loop: print the line stripped. */
  function EchoLine(line: string): LineResult<string>
  {
    Emit([Strip(line)])
  }

  /** The whole reducer over its input lines. */
  function Reducer(lines: seq<string>): Outcome<string>
  {
    RunMapper(lines, EchoLine)
  }

  /** The reducer prints every input line stripped, one for one and in
      order, and always runs to the end. */
  lemma {:induction false} ReducerEchoes(lines: seq<string>)
    ensures Reducer(lines) == Outcome(Echoes(lines), Finished)
  {
    if lines != [] {
      var init, last := lines[..|lines| - 1], lines[|lines| - 1];
      assert lines == init + [last];
      ReducerEchoes(init);
      RunMapperAppend(init, [last], EchoLine);
      assert RunMapper([last], EchoLine) == Outcome([Strip(last)], Finished) by {
        assert [last][1..] == [];
      }
    }
  }
}
