/** Worked examples of the whole pipeline on a small Chicago file. */
module Scenarios {
  import opened Wrappers
  import opened Text
  import opened Trips
  import opened Loader
  import opened Counting
  import opened Reports

  /** Two trips within January and one within February, as in the file of the scenarios below. */
  predicate JanuaryJanuaryFebruary(trips: seq<Trip>) {
    && |trips| == 3
    && trips[0].start.month == 1 && trips[0].end.month == 1
    && trips[1].start.month == 1 && trips[1].end.month == 1
    && trips[2].start.month == 2 && trips[2].end.month == 2
  }

  /** Loading `Chicago` reads `chicago.csv` and applies the selected filters. */
  lemma ChicagoLoad(files: Files, month: string, day: string)
    requires ChicagoFile in files
    ensures Load("Chicago", month, day, files)
      == Success(Table(ByDayUnlessAll(ByMonthUnlessAll(Derived(files[ChicagoFile].trips), month), day),
                       files[ChicagoFile].hasGender, files[ChicagoFile].hasBirthYear))
  {
    TitleFromFacts("Chicago", false);
    CityFileNames();
  }

  lemma JanuaryIsNotAll()
    ensures Title("January") != "All"
  {
    TitleFromFacts("January", false);
  }

  /** `All` passes through title-casing unchanged, so it switches a filter off. */
  lemma AllStaysAll(rows: seq<Row>)
    ensures ByMonthUnlessAll(rows, "All") == rows
    ensures ByDayUnlessAll(rows, "All") == rows
  {
    var t := Title("All");
    TitleFromFacts("All", false);
    assert t[0] == 'A';
    assert t[1] == 'l' && t[2] == 'l';
    assert t == "All";
  }

  lemma JanuaryAndFebruary()
    ensures MonthName(1) == "January" && MonthName(2) == "February"
    ensures "January" != "February"
  {
    assert "January"[0] != "February"[0];
  }

  /** The month filter for `January` keeps exactly the first two trips. */
  lemma JanuaryRows(trips: seq<Trip>)
    requires JanuaryJanuaryFebruary(trips)
    ensures ByMonthUnlessAll(Derived(trips), "January") == Derived(trips)[..2]
  {
    JanuaryIsNotAll();
    var rows := Derived(trips);
    DerivedColumns(trips, 0);
    DerivedColumns(trips, 1);
    DerivedColumns(trips, 2);
    JanuaryFilter(rows, ByMonth("January"));
  }

  lemma JanuaryFilter(rows: seq<Row>, sel: Selection)
    requires sel == ByMonth("January") && |rows| == 3
    requires rows[0].trip.start.month == 1 && rows[1].trip.start.month == 1
    requires rows[2].trip.start.month == 2 && rows[2].trip.end.month == 2
    ensures Filter(rows, sel) == rows[..2]
  {
    JanuaryAndFebruary();
    assert Keeps(sel, rows[0]) && Keeps(sel, rows[1]) && !Keeps(sel, rows[2]);
    FilterKeepsAll(rows[..2], sel);
    FilterSingle(rows[2], sel);
    assert rows == rows[..2] + [rows[2]];
    FilterAppend(rows[..2], [rows[2]], sel);
    assert Filter(rows, sel) == rows[..2] + [];
  }

  /** The month column of the three trips. */
  lemma ThreeMonths(trips: seq<Trip>)
    requires JanuaryJanuaryFebruary(trips)
    ensures MonthColumn(Derived(trips)) == ["January", "January", "February"]
  {
    DerivedColumns(trips, 0);
    DerivedColumns(trips, 1);
    DerivedColumns(trips, 2);
    assert MonthName(2) == "February";
  }

  /** A table of the two January trips reports January as its most common month. */
  lemma JanuaryTable(t: Table, trips: seq<Trip>)
    requires JanuaryJanuaryFebruary(trips) && t.rows == Derived(trips)[..2]
    ensures |t.rows| == 2 && TimeStats(t).Some? && TimeStats(t).value.month == "January"
  {
    ThreeMonths(trips);
    var months := MonthColumn(Derived(trips));
    assert MonthColumn(t.rows) == months[..2];
    assert months[..2] == ["January", "January"];
  }

  /** The January filter keeps the two January trips, and January is the most common month. */
  lemma JanuaryScenario(files: Files)
    requires ChicagoFile in files && JanuaryJanuaryFebruary(files[ChicagoFile].trips)
    ensures Load("Chicago", "January", "All", files).Success?
    ensures
      var t := Load("Chicago", "January", "All", files).value;
      && |t.rows| == 2
      && TimeStats(t).Some? && TimeStats(t).value.month == "January"
  {
    var trips := files[ChicagoFile].trips;
    ChicagoLoad(files, "January", "All");
    JanuaryRows(trips);
    AllStaysAll(Derived(trips)[..2]);
    JanuaryTable(Load("Chicago", "January", "All", files).value, trips);
  }

  /** January, occurring twice, is the only mode of the three months; February occurs once. */
  lemma JanuaryOnlyMode(months: seq<string>, v: string)
    requires months == ["January", "January", "February"]
    requires IsMode(v, months)
    ensures v == "January"
  {
    var jf: seq<string> := ["January", "February"];
    var f: seq<string> := ["February"];
    assert months[1..] == jf && jf[1..] == f && f[1..] == [];
    assert Count("February", f) == 1 && Count("January", f) == 0;
    assert Count("January", months) == 2;
    assert Count("February", months) == 1;
  }

  /** The total duration of three trips of one, two and three minutes. */
  lemma ThreeDurations(rows: seq<Row>)
    requires |rows| == 3
    requires rows[0].trip.duration == 60 && rows[1].trip.duration == 120 && rows[2].trip.duration == 180
    ensures TotalDuration(rows) == 360
  {
    assert rows[1..][1..] == rows[2..];
    assert TotalDuration(rows[2..]) == 180;
    assert TotalDuration(rows[1..]) == 300;
  }

  /** Without filters the most common month is still January; the printed average is the sum over 60, the true one the mean over 60. */
  lemma UnfilteredScenario(files: Files)
    requires ChicagoFile in files && JanuaryJanuaryFebruary(files[ChicagoFile].trips)
    requires !files[ChicagoFile].hasGender && !files[ChicagoFile].hasBirthYear
    requires files[ChicagoFile].trips[0].userType.Some?
    requires files[ChicagoFile].trips[0].duration == 60
    requires files[ChicagoFile].trips[1].duration == 120
    requires files[ChicagoFile].trips[2].duration == 180
    ensures Load("Chicago", "All", "All", files).Success?
    ensures
      var t := Load("Chicago", "All", "All", files).value;
      && |t.rows| == 3
      && TimeStats(t).Some? && TimeStats(t).value.month == "January"
      && UserStats(t).Success?
      && UserStats(t).value.gender == Absent(NoGenderMessage)
      && TripDurationStats(t).averageMinutes == 6.0
      && TripDurationStatsCorrected(t).averageMinutes == Some(2.0)
  {
    var trips := files[ChicagoFile].trips;
    ChicagoLoad(files, "All", "All");
    var rows := Derived(trips);
    AllStaysAll(rows);
    ThreeMonths(trips);
    var t := Load("Chicago", "All", "All", files).value;
    assert t == Table(rows, false, false);
    JanuaryOnlyMode(MonthColumn(rows), TimeStats(t).value.month);
    DerivedColumns(trips, 0);
    DerivedColumns(trips, 1);
    DerivedColumns(trips, 2);
    ThreeDurations(rows);
    NoGenderColumnIsReported(t);
  }
}
