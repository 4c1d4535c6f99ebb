/**
 * The bikeshare trip data model: one record per rental, with its start and end
 * timestamps already decomposed into the parts the program reads from them.
 */
module Trips {
  import opened Wrappers

  /** A calendar month, 1 = January. */
  type Month = m: int | 1 <= m <= 12 witness 1

  /** A day of the week, 0 = Monday (pandas' `dayofweek`). */
  type Weekday = d: int | 0 <= d <= 6

  /** An hour of the day. */
  type Hour = h: int | 0 <= h <= 23

  /** A parsed `Start Time` or `End Time` cell, reduced to the parts the program uses. */
  datatype Timestamp = Timestamp(month: Month, weekday: Weekday, hour: Hour)

  /**
   * One row of a city's CSV file. `userType`, `gender` and `birthYear` are
   * `None` where the cell is missing (or where the file has no such column).
   */
  datatype Trip = Trip(
    start: Timestamp,
    end: Timestamp,
    startStation: string,
    endStation: string,
    duration: int,
    userType: Option<string>,
    gender: Option<string>,
    birthYear: Option<int>)

  /** A table as read from CSV: its rows and whether the optional columns exist. */
  datatype RawTable = RawTable(trips: seq<Trip>, hasGender: bool, hasBirthYear: bool)

  /** A loaded row: the trip plus the derived `Month`, `Day of Week` and `Start Hour` columns. */
  datatype Row = Row(trip: Trip, month: string, dayOfWeek: string, startHour: Hour)

  /** The table the statistics routines read. */
  datatype Table = Table(rows: seq<Row>, hasGender: bool, hasBirthYear: bool)

  /** pandas' `dt.month_name()`. */
  function MonthName(m: Month): string {
    ["January", "February", "March", "April", "May", "June", "July",
     "August", "September", "October", "November", "December"][m - 1]
  }

  /** pandas' `dt.day_name()`. */
  function DayName(d: Weekday): string {
    ["Monday", "Tuesday", "Wednesday", "Thursday", "Friday", "Saturday", "Sunday"][d]
  }

  /** A table read from a file without a `Gender` (`Birth Year`) column has no such values. */
  ghost predicate WellFormed(t: RawTable) {
    && (!t.hasGender ==> forall i :: 0 <= i < |t.trips| ==> t.trips[i].gender.None?)
    && (!t.hasBirthYear ==> forall i :: 0 <= i < |t.trips| ==> t.trips[i].birthYear.None?)
  }
}
