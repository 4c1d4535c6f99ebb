/**
 * `load_data`: resolve the city to its source file(s), derive the time-part
 * columns from the start time, then apply the month and day filters.
 */
module Loader {
  import opened Wrappers
  import opened Text
  import opened Trips

  /** `pd.read_csv` of a file that does not exist. */
  datatype LoadError = MissingFile(name: string)

  /** The CSV files the program can open, by file name. */
  type Files = map<string, RawTable>

  const ChicagoFile := "chicago.csv"
  const NewYorkFile := "new_york_city.csv"
  const WashingtonFile := "washington.csv"

  /** The file a (non-`All`) city is read from: spaces become underscores, then lower case, then `.csv`. */
  function FileName(city: string): (r: string)
    ensures |r| == |city| + 4 && r[|city|..] == ".csv"
    ensures forall k :: 0 <= k < |city| ==> r[k] != ' '
    ensures Lower(r[..|city|]) == r[..|city|]
    ensures forall k :: 0 <= k < |city| ==> r[k] == (if city[k] == ' ' then '_' else LowerChar(city[k]))
  {
    var stem := Lower(ReplaceChar(city, ' ', '_'));
    assert Lower(stem) == stem;
    assert (stem + ".csv")[..|city|] == stem;
    stem + ".csv"
  }

  function ReadCsv(files: Files, name: string): (r: Result<RawTable, LoadError>)
    ensures r.Success? <==> name in files
    ensures r.Success? ==> r.value == files[name]
    ensures r.Failure? ==> r.error == MissingFile(name)
  {
    if name in files then Success(files[name]) else Failure(MissingFile(name))
  }

  /** `pd.concat` of three tables: rows in order, a column present if any part has it. */
  function Concat3(a: RawTable, b: RawTable, c: RawTable): RawTable {
    RawTable(a.trips + b.trips + c.trips,
             a.hasGender || b.hasGender || c.hasGender,
             a.hasBirthYear || b.hasBirthYear || c.hasBirthYear)
  }

  /** Source resolution; the three files of `All` are read in order, so the first missing one is reported. */
  function ResolveSource(city: string, files: Files): (r: Result<RawTable, LoadError>)
    ensures Title(city) != "All" ==>
      && (r.Success? <==> FileName(city) in files)
      && (r.Success? ==> r.value == files[FileName(city)])
      && (r.Failure? ==> r.error == MissingFile(FileName(city)))
    ensures Title(city) == "All" ==>
      && (r.Success? <==> ChicagoFile in files && NewYorkFile in files && WashingtonFile in files)
      && (r.Success? ==>
            && r.value.trips == files[ChicagoFile].trips + files[NewYorkFile].trips + files[WashingtonFile].trips
            && |r.value.trips| == |files[ChicagoFile].trips| + |files[NewYorkFile].trips| + |files[WashingtonFile].trips|
            && r.value.hasGender == (files[ChicagoFile].hasGender || files[NewYorkFile].hasGender || files[WashingtonFile].hasGender)
            && r.value.hasBirthYear == (files[ChicagoFile].hasBirthYear || files[NewYorkFile].hasBirthYear || files[WashingtonFile].hasBirthYear))
      && (r.Failure? ==> r.error.name in {ChicagoFile, NewYorkFile, WashingtonFile} && r.error.name !in files)
      && (r.Failure? ==>
            r.error.name == (if ChicagoFile !in files then ChicagoFile else if NewYorkFile !in files then NewYorkFile else WashingtonFile))
  {
    if Title(city) == "All" then
      match ReadCsv(files, ChicagoFile)
      case Failure(e) => Failure(e)
      case Success(chicago) =>
        match ReadCsv(files, NewYorkFile)
        case Failure(e) => Failure(e)
        case Success(newYork) =>
          match ReadCsv(files, WashingtonFile)
          case Failure(e) => Failure(e)
          case Success(washington) => Success(Concat3(chicago, newYork, washington))
    else
      ReadCsv(files, FileName(city))
  }

  /** The derived columns of one row, all read from the start time. */
  function DeriveRow(t: Trip): Row {
    Row(t, MonthName(t.start.month), DayName(t.start.weekday), t.start.hour)
  }

  function Derived(trips: seq<Trip>): seq<Row> {
    seq(|trips|, i requires 0 <= i < |trips| => DeriveRow(trips[i]))
  }

  /** One filter dimension with the value to match. */
  datatype Selection = ByMonth(month: string) | ByDay(day: string)

  /** The keep-condition of a filter: the start OR the end timestamp matches. */
  predicate Keeps(sel: Selection, r: Row) {
    match sel
    case ByMonth(m) => MonthName(r.trip.start.month) == m || MonthName(r.trip.end.month) == m
    case ByDay(d) => DayName(r.trip.start.weekday) == d || DayName(r.trip.end.weekday) == d
  }

  /** Boolean-mask indexing `df[mask]`: the rows that satisfy the condition, in their order. */
  function Filter(rows: seq<Row>, sel: Selection): (r: seq<Row>)
    ensures |r| <= |rows|
  {
    if rows == [] then []
    else (if Keeps(sel, rows[0]) then [rows[0]] else []) + Filter(rows[1..], sel)
  }

  /** The month step of `load_data`: no filter when the month title-cases to `All`. */
  function ByMonthUnlessAll(rows: seq<Row>, month: string): seq<Row> {
    if Title(month) != "All" then Filter(rows, ByMonth(month)) else rows
  }

  function ByDayUnlessAll(rows: seq<Row>, day: string): seq<Row> {
    if Title(day) != "All" then Filter(rows, ByDay(day)) else rows
  }

  /** The whole of `load_data` as a function of the selection and the files on disk. */
  function Load(city: string, month: string, day: string, files: Files): (r: Result<Table, LoadError>)
    ensures r.Success? <==> ResolveSource(city, files).Success?
    ensures r.Failure? ==> r.error == ResolveSource(city, files).error
  {
    match ResolveSource(city, files)
    case Failure(e) => Failure(e)
    case Success(src) =>
      Success(Table(ByDayUnlessAll(ByMonthUnlessAll(Derived(src.trips), month), day),
                    src.hasGender, src.hasBirthYear))
  }

  // ---------------------------------------------------------------------------
  // The imperative `load_data`

  /** `df = df[mask]`, one row at a time. */
  method FilterRows(rows: seq<Row>, sel: Selection) returns (kept: seq<Row>)
    ensures kept == Filter(rows, sel)
  {
    kept := [];
    for i := 0 to |rows|
      invariant kept == Filter(rows[..i], sel)
    {
      FilterStep(rows, i, sel);
      if Keeps(sel, rows[i]) {
        kept := kept + [rows[i]];
      }
    }
    assert rows[..|rows|] == rows;
  }

  /**
   * `load_data`: read the source, add the derived columns row by row, then
   * replace the table by its filtered views.
   */
  method LoadData(city: string, month: string, day: string, files: Files) returns (res: Result<Table, LoadError>)
    ensures res == Load(city, month, day, files)
  {
    var source := ResolveSource(city, files);
    if source.Failure? {
      return Failure(source.error);
    }
    var trips := source.value.trips;
    var rows: seq<Row> := [];
    for i := 0 to |trips|
      invariant |rows| == i
      invariant forall k :: 0 <= k < i ==> rows[k] == DeriveRow(trips[k])
    {
      rows := rows + [DeriveRow(trips[i])];
    }
    assert rows == Derived(trips);
    if Title(month) != "All" {
      rows := FilterRows(rows, ByMonth(month));
    }
    if Title(day) != "All" {
      rows := FilterRows(rows, ByDay(day));
    }
    res := Success(Table(rows, source.value.hasGender, source.value.hasBirthYear));
  }

  // ---------------------------------------------------------------------------
  // Properties

  /**
   * The loaded table keeps the columns of its source and exactly those derived
   * rows that pass every active filter; with no active filter it is the whole source.
   */
  lemma LoadKeepsMatchingRows(city: string, month: string, day: string, files: Files)
    requires Load(city, month, day, files).Success?
    ensures
      var t, src := Load(city, month, day, files).value, ResolveSource(city, files).value;
      && t.hasGender == src.hasGender
      && t.hasBirthYear == src.hasBirthYear
      && (forall x :: x in t.rows <==>
            && x in Derived(src.trips)
            && (Title(month) == "All" || Keeps(ByMonth(month), x))
            && (Title(day) == "All" || Keeps(ByDay(day), x)))
      && (Title(month) == "All" && Title(day) == "All" ==> t.rows == Derived(src.trips))
  {
    var src := ResolveSource(city, files).value;
    var byMonth := ByMonthUnlessAll(Derived(src.trips), month);
    FilterMembers(Derived(src.trips), ByMonth(month));
    FilterMembers(byMonth, ByDay(day));
  }

  /** A filter keeps exactly the rows that satisfy its condition. */
  lemma {:induction false} FilterMembers(rows: seq<Row>, sel: Selection)
    ensures forall x :: x in Filter(rows, sel) <==> x in rows && Keeps(sel, x)
  {
    if rows != [] {
      FilterMembers(rows[1..], sel);
      assert rows == [rows[0]] + rows[1..];
    }
  }

  /** Filtering a concatenation filters each part. */
  lemma {:induction false} FilterAppend(a: seq<Row>, b: seq<Row>, sel: Selection)
    ensures Filter(a + b, sel) == Filter(a, sel) + Filter(b, sel)
  {
    if a == [] {
      assert a + b == b;
    } else {
      var head := if Keeps(sel, a[0]) then [a[0]] else [];
      assert (a + b)[0] == a[0];
      assert (a + b)[1..] == a[1..] + b;
      assert Filter(a + b, sel) == head + Filter(a[1..] + b, sel);
      FilterAppend(a[1..], b, sel);
      AppendAssoc(head, Filter(a[1..], sel), Filter(b, sel));
    }
  }

  lemma AppendAssoc(x: seq<Row>, y: seq<Row>, z: seq<Row>)
    ensures x + (y + z) == (x + y) + z
  {
  }

  /** A one-row table keeps its row or becomes empty. */
  lemma FilterSingle(r: Row, sel: Selection)
    ensures Filter([r], sel) == if Keeps(sel, r) then [r] else []
  {
    assert [r][1..] == [];
  }

  /** Filtering one more row of a prefix appends that row when it passes. */
  lemma FilterStep(rows: seq<Row>, i: int, sel: Selection)
    requires 0 <= i < |rows|
    ensures Filter(rows[..i + 1], sel) == Filter(rows[..i], sel) + if Keeps(sel, rows[i]) then [rows[i]] else []
  {
    assert rows[..i + 1] == rows[..i] + [rows[i]];
    FilterAppend(rows[..i], [rows[i]], sel);
    FilterSingle(rows[i], sel);
  }

  /** A filter that keeps every row returns the table unchanged. */
  lemma {:induction false} FilterKeepsAll(rows: seq<Row>, sel: Selection)
    requires forall i :: 0 <= i < |rows| ==> Keeps(sel, rows[i])
    ensures Filter(rows, sel) == rows
  {
    if rows != [] {
      FilterKeepsAll(rows[1..], sel);
    }
  }

  /** The month and day filters commute, so their order in `load_data` does not matter. */
  lemma {:induction false} FiltersCommute(rows: seq<Row>, a: Selection, b: Selection)
    ensures Filter(Filter(rows, a), b) == Filter(Filter(rows, b), a)
  {
    if rows != [] {
      var x := rows[0];
      FiltersCommute(rows[1..], a, b);
      var ka := if Keeps(a, x) then [x] else [];
      var kb := if Keeps(b, x) then [x] else [];
      FilterAppend(ka, Filter(rows[1..], a), b);
      FilterAppend(kb, Filter(rows[1..], b), a);
    }
  }

  /** The derived columns come from the start time: changing the end time leaves them alone. */
  lemma DerivedIgnoresEndTime(t: Trip, end: Timestamp)
    ensures DeriveRow(t.(end := end)).month == DeriveRow(t).month
    ensures DeriveRow(t.(end := end)).dayOfWeek == DeriveRow(t).dayOfWeek
    ensures DeriveRow(t.(end := end)).startHour == DeriveRow(t).startHour
  {
  }

  /** Every loaded row carries its own trip and the columns derived from its start time. */
  lemma DerivedColumns(trips: seq<Trip>, i: int)
    requires 0 <= i < |trips|
    ensures |Derived(trips)| == |trips|
    ensures Derived(trips)[i].trip == trips[i]
    ensures Derived(trips)[i].month == MonthName(trips[i].start.month)
    ensures Derived(trips)[i].dayOfWeek == DayName(trips[i].start.weekday)
    ensures Derived(trips)[i].startHour == trips[i].start.hour
    ensures 0 <= Derived(trips)[i].startHour <= 23
  {
  }

  /** `New York City` is read from `new_york_city.csv`, and likewise for the other two cities. */
  lemma CityFileNames()
    ensures FileName("Chicago") == ChicagoFile
    ensures FileName("New York City") == NewYorkFile
    ensures FileName("Washington") == WashingtonFile
  {
    ChicagoFileName();
    NewYorkFileName();
    WashingtonFileName();
  }

  lemma ChicagoFileName()
    ensures FileName("Chicago") == ChicagoFile
  {
    assert ReplaceChar("Chicago", ' ', '_') == "Chicago";
    assert Lower("Chicago") == "chicago";
  }

  lemma NewYorkFileName()
    ensures FileName("New York City") == NewYorkFile
  {
    assert ReplaceChar("New York City", ' ', '_') == "New_York_City";
    assert Lower("New_York_City") == "new_york_city";
  }

  lemma WashingtonFileName()
    ensures FileName("Washington") == WashingtonFile
  {
    assert ReplaceChar("Washington", ' ', '_') == "Washington";
    assert Lower("Washington") == "washington";
  }

  /** `All` loads exactly the rows of the three cities, one after another. */
  lemma AllIsTheThreeCities(files: Files)
    requires ResolveSource("All", files).Success?
    ensures ResolveSource("Chicago", files).Success?
    ensures ResolveSource("New York City", files).Success?
    ensures ResolveSource("Washington", files).Success?
    ensures ResolveSource("All", files).value.trips ==
      ResolveSource("Chicago", files).value.trips
      + ResolveSource("New York City", files).value.trips
      + ResolveSource("Washington", files).value.trips
  {
    CityFileNames();
    assert Title("All") == "All";
    TitleFromFacts("Chicago", false);
    TitleFromFacts("New York City", false);
    TitleFromFacts("Washington", false);
    assert |Title("Chicago")| == 7 && |Title("New York City")| == 13 && |Title("Washington")| == 10;
  }

  /** A trip from January into February is kept by the February filter although its `Month` is January. */
  lemma KeptRowMayHaveOtherMonth()
    ensures
      var t := Trip(Timestamp(1, 1, 23), Timestamp(2, 2, 0), "A", "B", 3600, Some("Subscriber"), None, None);
      var r := DeriveRow(t);
      Keeps(ByMonth("February"), r) && r.month == "January" && Filter([r], ByMonth("February")) == [r]
  {
    var t := Trip(Timestamp(1, 1, 23), Timestamp(2, 2, 0), "A", "B", 3600, Some("Subscriber"), None, None);
    var r := DeriveRow(t);
    assert Filter([r], ByMonth("February")) == [r] + Filter([], ByMonth("February"));
  }

  /**
   * When every file keeps the invariant that a missing column means missing
   * cells, so does the loaded table: without a `Gender` (`Birth Year`) column
   * none of its rows has a gender (birth year).
   */
  lemma LoadWellFormed(city: string, month: string, day: string, files: Files)
    requires forall name :: name in files ==> WellFormed(files[name])
    requires Load(city, month, day, files).Success?
    ensures
      var t := Load(city, month, day, files).value;
      && (!t.hasGender ==> forall x :: x in t.rows ==> x.trip.gender.None?)
      && (!t.hasBirthYear ==> forall x :: x in t.rows ==> x.trip.birthYear.None?)
  {
    var t, src := Load(city, month, day, files).value, ResolveSource(city, files).value;
    if Title(city) == "All" {
      var a, b, c := files[ChicagoFile], files[NewYorkFile], files[WashingtonFile];
      ConcatWellFormed(a, b, c);
      assert src == Concat3(a, b, c);
    }
    assert WellFormed(src);
    LoadKeepsMatchingRows(city, month, day, files);
    forall x | x in t.rows ensures x.trip in src.trips {
      var i :| 0 <= i < |Derived(src.trips)| && Derived(src.trips)[i] == x;
      DerivedColumns(src.trips, i);
    }
  }

  /**
   * `pd.concat` fills the columns a file does not have with NaN: the rows that
   * come from such a file have those cells missing, whatever the other files
   * hold, and a column none of the files has is missing in every row.
   */
  lemma ConcatWellFormed(a: RawTable, b: RawTable, c: RawTable)
    requires WellFormed(a) && WellFormed(b) && WellFormed(c)
    ensures WellFormed(Concat3(a, b, c))
    ensures
      var t, i, j := Concat3(a, b, c), |a.trips|, |a.trips| + |b.trips|;
      && (!a.hasGender ==> forall k :: 0 <= k < i ==> t.trips[k].gender.None?)
      && (!b.hasGender ==> forall k :: i <= k < j ==> t.trips[k].gender.None?)
      && (!c.hasGender ==> forall k :: j <= k < |t.trips| ==> t.trips[k].gender.None?)
      && (!a.hasBirthYear ==> forall k :: 0 <= k < i ==> t.trips[k].birthYear.None?)
      && (!b.hasBirthYear ==> forall k :: i <= k < j ==> t.trips[k].birthYear.None?)
      && (!c.hasBirthYear ==> forall k :: j <= k < |t.trips| ==> t.trips[k].birthYear.None?)
  {
  }
}
