/**
 * The four statistics routines: most frequent times of travel, most popular
 * stations and trip, trip duration, and user statistics with the padded
 * count table of `display_count_values`.
 */
module Reports {
  import opened Wrappers
  import opened Text
  import opened Trips
  import opened Counting

  // ---------------------------------------------------------------------------
  // Columns of a loaded table

  function MonthColumn(rows: seq<Row>): seq<string> {
    seq(|rows|, i requires 0 <= i < |rows| => rows[i].month)
  }

  function DayColumn(rows: seq<Row>): seq<string> {
    seq(|rows|, i requires 0 <= i < |rows| => rows[i].dayOfWeek)
  }

  function HourColumn(rows: seq<Row>): seq<Hour> {
    seq(|rows|, i requires 0 <= i < |rows| => rows[i].startHour)
  }

  function StartStationColumn(rows: seq<Row>): seq<string> {
    seq(|rows|, i requires 0 <= i < |rows| => rows[i].trip.startStation)
  }

  function EndStationColumn(rows: seq<Row>): seq<string> {
    seq(|rows|, i requires 0 <= i < |rows| => rows[i].trip.endStation)
  }

  /** The (`Start Station`, `End Station`) keys of `groupby`. */
  function TripColumn(rows: seq<Row>): seq<(string, string)> {
    seq(|rows|, i requires 0 <= i < |rows| => (rows[i].trip.startStation, rows[i].trip.endStation))
  }

  function UserTypeColumn(rows: seq<Row>): seq<Option<string>> {
    seq(|rows|, i requires 0 <= i < |rows| => rows[i].trip.userType)
  }

  function GenderColumn(rows: seq<Row>): seq<Option<string>> {
    seq(|rows|, i requires 0 <= i < |rows| => rows[i].trip.gender)
  }

  function BirthYearColumn(rows: seq<Row>): seq<Option<int>> {
    seq(|rows|, i requires 0 <= i < |rows| => rows[i].trip.birthYear)
  }

  // ---------------------------------------------------------------------------
  // time_stats and station_stats

  datatype TimeReport = TimeReport(month: string, dayOfWeek: string, startHour: Hour)

  /** `time_stats`: the most frequent derived month, weekday and start hour; none (pandas raises) on an empty table. */
  function TimeStats(t: Table): (r: Option<TimeReport>)
    ensures r.Some? <==> |t.rows| > 0
    ensures r.Some? ==>
      && IsMode(r.value.month, MonthColumn(t.rows))
      && IsMode(r.value.dayOfWeek, DayColumn(t.rows))
      && IsMode(r.value.startHour, HourColumn(t.rows))
      && 0 <= r.value.startHour <= 23
  {
    var month := MostCommon(MonthColumn(t.rows));
    var day := MostCommon(DayColumn(t.rows));
    var hour := MostCommon(HourColumn(t.rows));
    if |t.rows| == 0 then None
    else Some(TimeReport(month.value, day.value, hour.value))
  }

  datatype StationReport = StationReport(startStation: string, endStation: string, trip: (string, string))

  /** `station_stats`: the most used start station, end station and (start, end) pair. */
  function StationStats(t: Table): (r: Option<StationReport>)
    ensures r.Some? <==> |t.rows| > 0
    ensures r.Some? ==>
      && IsMode(r.value.startStation, StartStationColumn(t.rows))
      && IsMode(r.value.endStation, EndStationColumn(t.rows))
      && IsMode(r.value.trip, TripColumn(t.rows))
  {
    var start := MostCommon(StartStationColumn(t.rows));
    var end := MostCommon(EndStationColumn(t.rows));
    var trip := MostCommon(TripColumn(t.rows));
    if |t.rows| == 0 then None
    else Some(StationReport(start.value, end.value, trip.value))
  }

  // ---------------------------------------------------------------------------
  // trip_duration_stats

  /** `df['Trip Duration'].sum()`; zero on an empty table. */
  function TotalDuration(rows: seq<Row>): int {
    if rows == [] then 0 else rows[0].trip.duration + TotalDuration(rows[1..])
  }

  /** What `trip_duration_stats` prints: the total in days and, under the name of an average, the total in minutes. */
  datatype DurationReport = DurationReport(totalDays: real, averageMinutes: real)

  function TripDurationStats(t: Table): (r: DurationReport)
    ensures r.totalDays * 86400.0 == TotalDuration(t.rows) as real
    ensures r.averageMinutes * 60.0 == TotalDuration(t.rows) as real
  {
    var total := TotalDuration(t.rows) as real;
    DurationReport(total / 86400.0, total / 60.0)
  }

  /** The report with a true average: the mean duration in minutes, undefined (NaN) on an empty table. */
  datatype MeanDurationReport = MeanDurationReport(totalDays: real, averageMinutes: Option<real>)

  function TripDurationStatsCorrected(t: Table): (r: MeanDurationReport)
    ensures r.totalDays * 86400.0 == TotalDuration(t.rows) as real
    ensures r.averageMinutes.Some? <==> |t.rows| > 0
    ensures r.averageMinutes.Some? ==>
      r.averageMinutes.value * 60.0 * (|t.rows| as real) == TotalDuration(t.rows) as real
  {
    var total := TotalDuration(t.rows) as real;
    var mean := if |t.rows| > 0 then Some(total / (|t.rows| as real)) else None;
    MeanDurationReport(total / 86400.0, if mean.Some? then Some(mean.value / 60.0) else None)
  }

  // ---------------------------------------------------------------------------
  // display_count_values

  /** `len(max(labels, key=len))`: the length of a longest label. */
  function MaxLength(labels: seq<string>): (r: nat)
    requires |labels| > 0
    ensures forall k :: 0 <= k < |labels| ==> |labels[k]| <= r
    ensures exists k :: 0 <= k < |labels| && |labels[k]| == r
  {
    if |labels| == 1 then |labels[0]|
    else
      var m := MaxLength(labels[1..]);
      assert forall k :: 1 <= k < |labels| ==> labels[k] == labels[1..][k - 1];
      if |labels[0]| >= m then |labels[0]| else m
  }

  /** `max(counts)`. */
  function MaxCount(ts: seq<Tally<string>>): (r: nat)
    requires |ts| > 0
    ensures forall k :: 0 <= k < |ts| ==> ts[k].count <= r
    ensures exists k :: 0 <= k < |ts| && ts[k].count == r
  {
    var counts := Counts(ts);
    var m := MaxOf(counts);
    assert forall k :: 0 <= k < |ts| ==> counts[k] == ts[k].count && counts[k] in counts;
    m
  }

  /** The label column is three wider than the longest label. */
  function LabelWidth(ts: seq<Tally<string>>): (r: nat)
    requires |ts| > 0
    ensures forall i :: 0 <= i < |ts| ==> |ts[i].value| + 3 <= r
    ensures exists i :: 0 <= i < |ts| && |ts[i].value| + 3 == r
  {
    var labels := Values(ts);
    assert forall i :: 0 <= i < |ts| ==> labels[i] == ts[i].value;
    MaxLength(labels) + 3
  }

  /** The count column is as wide as the largest count's digits. */
  function CountWidth(ts: seq<Tally<string>>): (r: nat)
    requires |ts| > 0
    ensures forall i :: 0 <= i < |ts| ==> |NatToString(ts[i].count)| <= r
    ensures exists i :: 0 <= i < |ts| && |NatToString(ts[i].count)| == r
  {
    var m := MaxCount(ts);
    forall i | 0 <= i < |ts| ensures |NatToString(ts[i].count)| <= |NatToString(m)| {
      DigitsMonotone(ts[i].count, m);
    }
    |NatToString(m)|
  }

  function IntroLine(details: string): string {
    "The types and count of " + details + " are: "
  }

  function HeaderLine(typeName: string, labelWidth: nat, countWidth: nat): string {
    RJust(typeName, labelWidth, ' ') + "|" + LJust("total", countWidth, ' ')
  }

  function SeparatorLine(labelWidth: nat, countWidth: nat): string {
    RJust("-", labelWidth, '-') + "|" + RJust("|", countWidth + 1, '-')
  }

  function DataLine(t: Tally<string>, labelWidth: nat, countWidth: nat): string {
    RJust(t.value, labelWidth, ' ') + "|" + LJust(NatToString(t.count), countWidth, ' ') + "|"
  }

  function DataLines(ts: seq<Tally<string>>, labelWidth: nat, countWidth: nat): seq<string> {
    seq(|ts|, i requires 0 <= i < |ts| => DataLine(ts[i], labelWidth, countWidth))
  }

  /**
   * Everything `display_count_values` prints for the given `value_counts()`
   * result; none when it is empty, where `max()` of an empty sequence raises.
   */
  function CountTableText(ts: seq<Tally<string>>, details: string, typeName: string): (r: Option<seq<string>>)
    ensures r.Some? <==> |ts| > 0
  {
    if ts == [] then None
    else
      var wL, wC := LabelWidth(ts), CountWidth(ts);
      Some([IntroLine(details), HeaderLine(typeName, wL, wC), SeparatorLine(wL, wC)]
           + DataLines(ts, wL, wC) + [""])
  }

  /** The loop of `display_count_values`: one padded line per `value_counts()` entry, in order. */
  method EmitDataLines(ts: seq<Tally<string>>, wL: nat, wC: nat) returns (lines: seq<string>)
    ensures lines == DataLines(ts, wL, wC)
  {
    lines := [];
    for i := 0 to |ts|
      invariant lines == DataLines(ts[..i], wL, wC)
    {
      DataLinesSnoc(ts, i, wL, wC);
      lines := lines + [DataLine(ts[i], wL, wC)];
    }
    assert ts[..|ts|] == ts;
  }

  /** `display_count_values`: the header lines, then one line per entry, then an empty line. */
  method DisplayCountValues(ts: seq<Tally<string>>, details: string, typeName: string) returns (out: Option<seq<string>>)
    ensures out == CountTableText(ts, details, typeName)
  {
    if |ts| == 0 {
      return None;
    }
    var wL := LabelWidth(ts);
    var wC := CountWidth(ts);
    var body := EmitDataLines(ts, wL, wC);
    out := Some([IntroLine(details), HeaderLine(typeName, wL, wC), SeparatorLine(wL, wC)] + body + [""]);
  }

  // ---------------------------------------------------------------------------
  // user_stats

  /**
   * The `ValueError` of `user_stats`: the column that had no non-missing value,
   * and the lines printed before the exception ended the report.
   */
  datatype StatsError = EmptyColumn(column: string, printed: seq<string>)

  /** A part of the user report: printed lines, or the message saying the column is absent. */
  datatype Section = Shown(lines: seq<string>) | Absent(message: string)

  datatype UserReport = UserReport(userTypes: seq<string>, gender: Section, birthYear: Section)

  const NoGenderMessage := "There is no information of Users Gender in this dataset."
  const NoBirthYearMessage := "There is no Users Birth Year information in this dataset."

  datatype BirthYears = BirthYears(earliest: int, mostRecent: int, mostCommon: int)

  /** The birth-year statistics, read off `value_counts()`: its index minimum and maximum and its `idxmax`. */
  function BirthYearStats(years: seq<int>): (r: Option<BirthYears>)
    ensures r.Some? <==> |years| > 0
    ensures r.Some? ==>
      var b := r.value;
      && b.earliest in years && b.mostRecent in years
      && IsMode(b.mostCommon, years)
      && (forall y :: y in years ==> b.earliest <= y <= b.mostRecent)
      && b.earliest <= b.mostCommon <= b.mostRecent
  {
    var counts := ValueCounts(years);
    if |years| == 0 then
      None
    else
      FirstIsMode(years);
      Some(BirthYears(MinOf(Values(counts)), MaxOf(Values(counts)), counts[0].value))
  }

  const EarliestLabel := "The earliest year of birth is: "
  const MostRecentLabel := "The most recent year of birth is: "
  const MostCommonLabel := "The most common year of birth is: "

  /** The three `display_value` lines of the birth-year statistics; each ends in the year, written in decimal. */
  function BirthYearLines(b: BirthYears): (r: seq<string>)
    ensures |r| == 3
    ensures |r[0]| > |EarliestLabel| && |r[1]| > |MostRecentLabel| && |r[2]| > |MostCommonLabel|
    ensures r[0][..|EarliestLabel|] == EarliestLabel && r[0][|EarliestLabel|..] == IntToString(b.earliest) && IntValue(r[0][|EarliestLabel|..]) == b.earliest
    ensures r[1][..|MostRecentLabel|] == MostRecentLabel && r[1][|MostRecentLabel|..] == IntToString(b.mostRecent) && IntValue(r[1][|MostRecentLabel|..]) == b.mostRecent
    ensures r[2][..|MostCommonLabel|] == MostCommonLabel && r[2][|MostCommonLabel|..] == IntToString(b.mostCommon) && IntValue(r[2][|MostCommonLabel|..]) == b.mostCommon
  {
    var e, m, c := IntToString(b.earliest), IntToString(b.mostRecent), IntToString(b.mostCommon);
    assert (EarliestLabel + e)[|EarliestLabel|..] == e && (EarliestLabel + e)[..|EarliestLabel|] == EarliestLabel;
    assert (MostRecentLabel + m)[|MostRecentLabel|..] == m && (MostRecentLabel + m)[..|MostRecentLabel|] == MostRecentLabel;
    assert (MostCommonLabel + c)[|MostCommonLabel|..] == c && (MostCommonLabel + c)[..|MostCommonLabel|] == MostCommonLabel;
    [EarliestLabel + e, MostRecentLabel + m, MostCommonLabel + c]
  }

  /**
   * `display_count_values` on one column: the table of its `value_counts()`,
   * none when the column has no value.
   */
  function ColumnTable(column: seq<Option<string>>, details: string, typeName: string): (r: Option<seq<string>>)
    ensures r.Some? <==> Present(column) != []
  {
    ValueCountsEmpty(Present(column));
    CountTableText(ValueCounts(Present(column)), details, typeName)
  }

  /** The lines a section prints. */
  function SectionLines(s: Section): seq<string> {
    match s
    case Shown(lines) => lines
    case Absent(message) => [message]
  }

  /** The gender part of `user_stats`; none when the column exists but has no value. */
  function GenderSection(t: Table): (r: Option<Section>)
    ensures !t.hasGender ==> r == Some(Absent(NoGenderMessage))
    ensures t.hasGender ==>
      && (r.None? <==> Present(GenderColumn(t.rows)) == [])
      && (r.Some? ==> r.value.Shown? && Some(r.value.lines) == ColumnTable(GenderColumn(t.rows), "gender", "gender"))
  {
    if !t.hasGender then Some(Absent(NoGenderMessage))
    else
      match ColumnTable(GenderColumn(t.rows), "gender", "gender")
      case None => None
      case Some(lines) => Some(Shown(lines))
  }

  /** The birth-year part of `user_stats`; none when the column exists but has no value. */
  function BirthYearSection(t: Table): (r: Option<Section>)
    ensures !t.hasBirthYear ==> r == Some(Absent(NoBirthYearMessage))
    ensures t.hasBirthYear ==>
      var b := BirthYearStats(Present(BirthYearColumn(t.rows)));
      && (r.None? <==> b.None?)
      && (r.Some? ==> r.value == Shown(BirthYearLines(b.value)))
  {
    if !t.hasBirthYear then Some(Absent(NoBirthYearMessage))
    else
      match BirthYearStats(Present(BirthYearColumn(t.rows)))
      case None => None
      case Some(b) => Some(Shown(BirthYearLines(b)))
  }

  /**
   * `user_stats`: the user-type table always, the gender table and the birth-year
   * statistics only when the table has those columns. The first column without a
   * single value raises, after the parts before it were printed.
   */
  function UserStats(t: Table): (r: Result<UserReport, StatsError>)
    ensures
      var noUserType := Present(UserTypeColumn(t.rows)) == [];
      var noGender := t.hasGender && Present(GenderColumn(t.rows)) == [];
      var noBirthYear := t.hasBirthYear && Present(BirthYearColumn(t.rows)) == [];
      && (r.Failure? <==> noUserType || noGender || noBirthYear)
      && (r.Failure? ==>
            r.error.column == (if noUserType then "User Type" else if noGender then "Gender" else "Birth Year"))
    ensures
      var users := ColumnTable(UserTypeColumn(t.rows), "users", "user type");
      var gender, birth := GenderSection(t), BirthYearSection(t);
      && (r.Success? ==>
            && Some(r.value.userTypes) == users
            && Some(r.value.gender) == gender
            && Some(r.value.birthYear) == birth)
      && (r.Failure? && users.None? ==> r.error.printed == [])
      && (r.Failure? && users.Some? && gender.None? ==> r.error.printed == users.value)
      && (r.Failure? && users.Some? && gender.Some? ==> r.error.printed == users.value + SectionLines(gender.value))
  {
    match ColumnTable(UserTypeColumn(t.rows), "users", "user type")
    case None => Failure(EmptyColumn("User Type", []))
    case Some(userLines) =>
      match GenderSection(t)
      case None => Failure(EmptyColumn("Gender", userLines))
      case Some(gender) =>
        match BirthYearSection(t)
        case None => Failure(EmptyColumn("Birth Year", userLines + SectionLines(gender)))
        case Some(birth) => Success(UserReport(userLines, gender, birth))
  }

  // ---------------------------------------------------------------------------
  // Properties

  lemma SeparatorShape(wL: nat, wC: nat)
    requires wL >= 1
    ensures SeparatorLine(wL, wC) == Repeat('-', wL) + "|" + Repeat('-', wC) + "|"
    ensures |SeparatorLine(wL, wC)| == wL + wC + 2
  {
    var dashes := RJust("-", wL, '-');
    assert dashes == Repeat('-', wL - 1) + "-";
    assert |dashes| == wL;
    forall k | 0 <= k < wL ensures dashes[k] == Repeat('-', wL)[k] {
    }
    assert dashes == Repeat('-', wL);
    if wC == 0 {
      assert RJust("|", wC + 1, '-') == "|";
      assert Repeat('-', wC) == [];
    } else {
      assert RJust("|", wC + 1, '-') == Repeat('-', wC) + "|";
    }
  }

  /** Every label and every count fits its column, so each data line has the same length. */
  lemma DataLineFits(ts: seq<Tally<string>>, i: int)
    requires 0 <= i < |ts|
    ensures |ts[i].value| + 3 <= LabelWidth(ts)
    ensures |NatToString(ts[i].count)| <= CountWidth(ts)
    ensures |DataLine(ts[i], LabelWidth(ts), CountWidth(ts))| == LabelWidth(ts) + CountWidth(ts) + 2
  {
    RJustFacts(ts[i].value, LabelWidth(ts), ' ');
    LJustFacts(NatToString(ts[i].count), CountWidth(ts), ' ');
  }

  /**
   * The header has no closing bar; each of its columns is as wide as the data
   * column below it, or as the word it holds when that is longer.
   */
  lemma HeaderLineLength(ts: seq<Tally<string>>, typeName: string)
    requires |ts| > 0
    ensures
      var wL, wC := LabelWidth(ts), CountWidth(ts);
      |HeaderLine(typeName, wL, wC)| == (if |typeName| >= wL then |typeName| else wL) + 1 + (if wC >= 5 then wC else 5)
  {
    RJustFacts(typeName, LabelWidth(ts), ' ');
    LJustFacts("total", CountWidth(ts), ' ');
  }

  /**
   * The layout `display_count_values` prints: an introduction, the header, a
   * separator of dashes, one line of equal length per entry, an empty line.
   */
  lemma CountTableLayout(ts: seq<Tally<string>>, details: string, typeName: string)
    requires |ts| > 0
    ensures CountTableText(ts, details, typeName).Some?
    ensures
      var lines, wL, wC := CountTableText(ts, details, typeName).value, LabelWidth(ts), CountWidth(ts);
      && |lines| == |ts| + 4
      && lines[0] == IntroLine(details)
      && lines[1] == HeaderLine(typeName, wL, wC)
      && lines[2] == Repeat('-', wL) + "|" + Repeat('-', wC) + "|"
      && lines[|ts| + 3] == ""
      && (forall i :: 0 <= i < |ts| ==> lines[3 + i] == DataLine(ts[i], wL, wC) && |lines[3 + i]| == wL + wC + 2)
  {
    var wL, wC := LabelWidth(ts), CountWidth(ts);
    SeparatorShape(wL, wC);
    var body := DataLines(ts, wL, wC);
    var lines := [IntroLine(details), HeaderLine(typeName, wL, wC), SeparatorLine(wL, wC)] + body + [""];
    assert CountTableText(ts, details, typeName) == Some(lines);
    Framed(IntroLine(details), HeaderLine(typeName, wL, wC), SeparatorLine(wL, wC), body, lines);
    forall i | 0 <= i < |ts| ensures lines[3 + i] == DataLine(ts[i], wL, wC) && |lines[3 + i]| == wL + wC + 2 {
      assert lines[3 + i] == body[i];
      DataLineFits(ts, i);
    }
  }

  /** Where the lines of a table of three header lines, a body and an empty line sit. */
  lemma Framed(a: string, b: string, c: string, body: seq<string>, lines: seq<string>)
    requires lines == [a, b, c] + body + [""]
    ensures |lines| == |body| + 4
    ensures lines[0] == a && lines[1] == b && lines[2] == c && lines[|body| + 3] == ""
    ensures forall i :: 0 <= i < |body| ==> lines[3 + i] == body[i]
  {
  }

  /** A data line is the label right-aligned in its column, a bar, the count left-aligned in its column, a bar. */
  lemma PaddedLineLayout(t: Tally<string>, wL: nat, wC: nat)
    requires |t.value| <= wL && |NatToString(t.count)| <= wC
    ensures
      var line, name, digits := DataLine(t, wL, wC), t.value, NatToString(t.count);
      && |line| == wL + wC + 2
      && line[..wL - |name|] == Repeat(' ', wL - |name|)
      && line[wL - |name|..wL] == name
      && line[wL] == '|'
      && line[wL + 1..wL + 1 + |digits|] == digits
      && (forall k :: wL + 1 + |digits| <= k < wL + 1 + wC ==> line[k] == ' ')
      && line[wL + 1 + wC] == '|'
  {
    var name, digits := t.value, NatToString(t.count);
    var left := RJust(name, wL, ' ');
    var right := LJust(digits, wC, ' ');
    RJustFacts(name, wL, ' ');
    LJustFacts(digits, wC, ' ');
    var pad := wL - |name|;
    assert left[..pad] == Repeat(' ', pad);
    var line := DataLine(t, wL, wC);
    assert line == left + "|" + right + "|";
    BarredLayout(left, right);
    assert line[..pad] == line[..wL][..pad];
    assert line[pad..wL] == line[..wL][pad..];
    assert line[wL + 1..wL + 1 + |digits|] == line[wL + 1..wL + 1 + wC][..|digits|];
    forall k | wL + 1 + |digits| <= k < wL + 1 + wC ensures line[k] == ' ' {
      assert line[k] == line[wL + 1..wL + 1 + wC][k - wL - 1];
    }
  }

  /** Where the two columns and the two bars of a data line sit. */
  lemma BarredLayout(left: string, right: string)
    ensures
      var line := left + "|" + right + "|";
      && |line| == |left| + |right| + 2
      && line[..|left|] == left
      && line[|left|] == '|'
      && line[|left| + 1..|left| + 1 + |right|] == right
      && line[|left| + 1 + |right|] == '|'
  {
    var line := left + "|" + right + "|";
    assert line == left + ("|" + right + "|");
    assert line[|left| + 1..] == right + "|";
  }

  lemma DataLinesSnoc(ts: seq<Tally<string>>, i: int, wL: nat, wC: nat)
    requires 0 <= i < |ts|
    ensures DataLines(ts[..i + 1], wL, wC) == DataLines(ts[..i], wL, wC) + [DataLine(ts[i], wL, wC)]
  {
  }

  /**
   * The tallies listed by `display_count_values` are the distinct non-missing
   * values of the column, each with its number of cells, most frequent first;
   * together they count every non-missing cell.
   */
  lemma CountTableTotals(column: seq<Option<string>>)
    ensures
      var ts := ValueCounts(Present(column));
      && TotalCount(ts) == |column| - Count(None, column)
      && NoDup(Values(ts))
      && NonIncreasing(ts)
      && (forall i :: 0 <= i < |ts| ==> ts[i].count == Count(Some(ts[i].value), column) && ts[i].count > 0)
      && (forall v :: v in Values(ts) <==> Some(v) in column)
  {
    PresentCounts(column);
  }

  /**
   * A report that completes shows the gender and birth-year parts exactly when
   * the table has those columns, and prints the absence messages otherwise.
   */
  lemma UserStatsSections(t: Table)
    requires UserStats(t).Success?
    ensures
      var u := UserStats(t).value;
      && (u.gender.Absent? <==> !t.hasGender)
      && (!t.hasGender ==> u.gender.message == NoGenderMessage)
      && (t.hasGender ==> Some(u.gender.lines) == ColumnTable(GenderColumn(t.rows), "gender", "gender"))
      && (u.birthYear.Absent? <==> !t.hasBirthYear)
      && (!t.hasBirthYear ==> u.birthYear.message == NoBirthYearMessage)
      && (t.hasBirthYear ==>
            var b := BirthYearStats(Present(BirthYearColumn(t.rows)));
            b.Some? && u.birthYear.lines == BirthYearLines(b.value))
  {
  }

  /** A table without a `Gender` column reports its absence instead of raising. */
  lemma NoGenderColumnIsReported(t: Table)
    requires !t.hasGender && !t.hasBirthYear
    requires exists i :: 0 <= i < |t.rows| && t.rows[i].trip.userType.Some?
    ensures UserStats(t).Success?
    ensures UserStats(t).value.gender == Absent(NoGenderMessage)
    ensures UserStats(t).value.birthYear == Absent(NoBirthYearMessage)
  {
    var i :| 0 <= i < |t.rows| && t.rows[i].trip.userType.Some?;
    assert UserTypeColumn(t.rows)[i] == Some(t.rows[i].trip.userType.value);
    assert t.rows[i].trip.userType.value in Present(UserTypeColumn(t.rows));
  }

  lemma {:induction false} TotalDurationAppend(a: seq<Row>, b: seq<Row>)
    ensures TotalDuration(a + b) == TotalDuration(a) + TotalDuration(b)
  {
    if a == [] {
      assert a + b == b;
    } else {
      assert (a + b)[1..] == a[1..] + b;
      TotalDurationAppend(a[1..], b);
    }
  }

  /** The printed "average" is the row count times the true average whenever the table is not empty. */
  lemma ReportedAverageIsCountTimesMean(t: Table)
    requires |t.rows| > 0
    ensures TripDurationStats(t).averageMinutes
      == (|t.rows| as real) * TripDurationStatsCorrected(t).averageMinutes.value
  {
  }

  /** Three trips of 60, 120 and 180 seconds: the program prints 6 minutes where the mean is 2. */
  lemma AverageQuirkExample(a: Trip, b: Trip, c: Trip)
    requires a.duration == 60 && b.duration == 120 && c.duration == 180
    ensures
      var t := Table([Row(a, "January", "Monday", 0), Row(b, "January", "Monday", 0), Row(c, "January", "Monday", 0)], false, false);
      && TripDurationStats(t).averageMinutes == 6.0
      && TripDurationStatsCorrected(t).averageMinutes == Some(2.0)
      && TripDurationStats(t).totalDays == 360.0 / 86400.0
  {
    var rows := [Row(a, "January", "Monday", 0), Row(b, "January", "Monday", 0), Row(c, "January", "Monday", 0)];
    assert TotalDuration(rows[2..]) == 180;
    assert TotalDuration(rows[1..]) == 300;
    assert TotalDuration(rows) == 360;
  }
}
