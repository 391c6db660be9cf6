/** The Full Term start-date resolver: the statutory table of Full Term start
    days, the month in which each term starts, and `full_term_start`, which
    combines the two into a midnight `datetime`. */
module UccCalGen {
  import opened Wrappers
  import opened Calendar

  /** The three terms of the academic year, with the values of the `Terms` enum. */
  datatype Term = M | L | E {
    /** The enum member's integer value, the index used in the tables below. */
    function Value(): (v: int)
      ensures 0 <= v < 3
    {
      match this
      case M => 0
      case L => 1
      case E => 2
    }
  }

  /** `Terms(v)`: the member whose value is `v`; any other value raises `ValueError`. */
  function TermOf(v: int): (r: Result<Term>)
    ensures r.Ok? <==> 0 <= v < 3
    ensures r.Ok? ==> r.value.Value() == v
    ensures r.Err? ==> r.error == ValueError
  {
    if v == 0 then Ok(M)
    else if v == 1 then Ok(L)
    else if v == 2 then Ok(E)
    else Err(ValueError)
  }

  /** Every term's value names that term again. */
  lemma TermValueRoundTrip(t: Term)
    ensures TermOf(t.Value()) == Ok(t)
  {
  }

  /** The day of the month on which Full Term starts, keyed by the calendar
      year in which the academic year's Michaelmas Term falls; each row lists
      Michaelmas, Lent and Easter in that order. */
  const FullTermDates: map<int, seq<int>> := map[
    2022 := [4, 17, 25],
    2023 := [3, 16, 23],
    2024 := [8, 21, 29],
    2025 := [7, 20, 28],
    2026 := [6, 19, 27],
    2027 := [5, 18, 25],
    2028 := [3, 16, 24],
    2029 := [2, 15, 23]
  ]

  /** The month in which each term starts: October, January, April. */
  const TermMonths: seq<int> := [10, 1, 4]

  /** Python's subscript `xs[i]` on a list: a negative index counts back from
      the end; an index outside the list raises `IndexError`. */
  function ListGet<T>(xs: seq<T>, i: int): (r: Result<T>)
    ensures r.Ok? <==> -|xs| <= i < |xs|
    ensures r.Ok? ==> r.value == xs[i % |xs|]
    ensures r.Err? ==> r.error == IndexError
  {
    if 0 <= i < |xs| then Ok(xs[i])
    else if -|xs| <= i < 0 then Ok(xs[|xs| + i])
    else Err(IndexError)
  }

  /** Python's subscript `m[k]` on a dictionary: a missing key raises `KeyError`. */
  function DictGet<K, V>(m: map<K, V>, k: K): (r: Result<V>)
    ensures r.Ok? <==> k in m
    ensures r.Ok? ==> r.value == m[k]
    ensures r.Err? ==> r.error == KeyError
  {
    if k in m then Ok(m[k]) else Err(KeyError)
  }

  /** `full_term_start(year, term)`: midnight on the first day of Full Term,
      with `year` passed through unchanged. The arguments are evaluated left
      to right, so a bad term raises `IndexError` before a missing year
      raises `KeyError`; the date itself is always valid (TableDatesValid). */
  function FullTermStart(year: int, term: int): (r: Result<DateTime>)
    ensures r.Ok? <==> (-3 <= term < 3 && year in FullTermDates)
    ensures !(-3 <= term < 3) ==> r == Err(IndexError)
    ensures -3 <= term < 3 && year !in FullTermDates ==> r == Err(KeyError)
    ensures r.Ok? ==> && r.value.year == year
                      && r.value.month == (if term % 3 == 0 then 10 else if term % 3 == 1 then 1 else 4)
                      && r.value.day == FullTermDates[year][term % 3]
                      && r.value.hour == 0 && r.value.minute == 0
                      && r.value.second == 0 && r.value.microsecond == 0
  {
    match ListGet(TermMonths, term)
    case Err(e) => Err(e)
    case Ok(month) =>
      match DictGet(FullTermDates, year)
      case Err(e) => Err(e)
      case Ok(row) =>
        match ListGet(row, term)
        case Err(e) => Err(e)
        case Ok(day) =>
          TableDatesValid();
          NewDateTime(year, month, day, 0, 0, 0, 0)
  }

  /** The table covers the Michaelmas years 2022 to 2029, and every row has
      one entry per term, as many as there are term months. */
  lemma TableShape()
    ensures forall y :: y in FullTermDates <==> 2022 <= y <= 2029
    ensures |TermMonths| == 3
    ensures forall y | y in FullTermDates :: |FullTermDates[y]| == |TermMonths|
  {
  }

  /** Each table entry, read in the month of its term and in the table row's
      own year, is a date the `datetime` constructor accepts. */
  lemma TableDatesValid()
    ensures forall y, i | y in FullTermDates && 0 <= i < 3 ::
      |FullTermDates[y]| == 3 && ValidDate(Date(y, TermMonths[i], FullTermDates[y][i]))
  {
  }

  /** A resolved start, as a date: the row's own year, the term's month and
      the term's entry. */
  lemma StartDate(year: int, term: int)
    requires year in FullTermDates && -3 <= term < 3
    ensures FullTermStart(year, term).Ok?
    ensures FullTermStart(year, term).value.ToDate()
         == Date(year, TermMonths[term % 3], FullTermDates[year][term % 3])
  {
  }

  /** The weekdays of one table row: its Michaelmas entry in October of the
      row's year, and its Lent and Easter entries in January and April of
      both the row's year and the next. */
  predicate RowWeekdays(year: int, row: seq<int>) {
    && |row| == 3
    && ValidDate(Date(year, 10, row[0])) && Weekday(Date(year, 10, row[0])) == Tuesday
    && ValidDate(Date(year + 1, 1, row[1])) && Weekday(Date(year + 1, 1, row[1])) == Tuesday
    && ValidDate(Date(year + 1, 4, row[2])) && Weekday(Date(year + 1, 4, row[2])) == Tuesday
    && ValidDate(Date(year, 1, row[1])) && Weekday(Date(year, 1, row[1])) in {Sunday, Monday}
    && ValidDate(Date(year, 4, row[2])) && Weekday(Date(year, 4, row[2])) in {Sunday, Monday}
  }

  /** Every row of the table has the weekdays described by RowWeekdays; the
      rows are checked one lemma each to keep each proof small. */
  lemma TableWeekdays(year: int)
    requires year in FullTermDates
    ensures RowWeekdays(year, FullTermDates[year])
  {
    if year == 2022 {
      RowWeekdays2022();
    } else if year == 2023 {
      RowWeekdays2023();
    } else if year == 2024 {
      RowWeekdays2024();
    } else if year == 2025 {
      RowWeekdays2025();
    } else if year == 2026 {
      RowWeekdays2026();
    } else if year == 2027 {
      RowWeekdays2027();
    } else if year == 2028 {
      RowWeekdays2028();
    } else {
      RowWeekdays2029();
    }
  }

  lemma RowWeekdays2022()
    ensures RowWeekdays(2022, [4, 17, 25])
  {
  }

  lemma RowWeekdays2023()
    ensures RowWeekdays(2023, [3, 16, 23])
  {
  }

  lemma RowWeekdays2024()
    ensures RowWeekdays(2024, [8, 21, 29])
  {
  }

  lemma RowWeekdays2025()
    ensures RowWeekdays(2025, [7, 20, 28])
  {
  }

  lemma RowWeekdays2026()
    ensures RowWeekdays(2026, [6, 19, 27])
  {
  }

  lemma RowWeekdays2027()
    ensures RowWeekdays(2027, [5, 18, 25])
  {
  }

  lemma RowWeekdays2028()
    ensures RowWeekdays(2028, [3, 16, 24])
  {
  }

  lemma RowWeekdays2029()
    ensures RowWeekdays(2029, [2, 15, 23])
  {
  }

  /** Michaelmas Full Term, as resolved, starts on a Tuesday in every
      tabulated year. */
  lemma MichaelmasStartsOnTuesday(year: int)
    requires year in FullTermDates
    ensures FullTermStart(year, M.Value()).Ok?
    ensures Weekday(FullTermStart(year, M.Value()).value.ToDate()) == Tuesday
  {
    StartDate(year, M.Value());
    TableWeekdays(year);
  }

  /** The Lent and Easter entries of the row for Michaelmas year `year` are
      Tuesdays of January and April of the following calendar year. */
  lemma LentEasterTuesdayNextYear(year: int, t: Term)
    requires year in FullTermDates && t != M
    ensures ValidDate(Date(year + 1, TermMonths[t.Value()], FullTermDates[year][t.Value()]))
    ensures Weekday(Date(year + 1, TermMonths[t.Value()], FullTermDates[year][t.Value()])) == Tuesday
  {
    TableWeekdays(year);
  }

  /** `full_term_start` reads the Lent and Easter entries in the row's own
      year, not the following one, so the dates it returns for those terms
      fall on a Sunday or a Monday, never on the statutory Tuesday. */
  lemma ResolvedLentEasterMissTuesday(year: int, t: Term)
    requires year in FullTermDates && t != M
    ensures FullTermStart(year, t.Value()).Ok?
    ensures Weekday(FullTermStart(year, t.Value()).value.ToDate()) in {Sunday, Monday}
  {
    StartDate(year, t.Value());
    TableWeekdays(year);
  }

  /** The term values 0, 1, 2 index the month list and every table row alike:
      Michaelmas reads October and the first entry, Lent January and the
      second, Easter April and the third. */
  lemma TermsIndexTables(t: Term)
    ensures ListGet(TermMonths, t.Value()) == Ok(match t case M => 10 case L => 1 case E => 4)
    ensures forall y | y in FullTermDates :: ListGet(FullTermDates[y], t.Value()).Ok?
  {
  }

  /** A year outside the table is a lookup failure for every term; no date of
      a neighbouring year is substituted. */
  lemma UnknownYearFails(year: int, term: int)
    requires year < 2022 || 2029 < year
    ensures FullTermStart(year, term).Err?
    ensures -3 <= term < 3 ==> FullTermStart(year, term) == Err(KeyError)
  {
  }

  /** Python's negative list indices make the terms -3, -2, -1 resolve
      exactly like 0, 1, 2. */
  lemma NegativeTermAliases(year: int, t: Term)
    ensures FullTermStart(year, t.Value() - 3) == FullTermStart(year, t.Value())
  {
  }

  /** The three calls made when the module is loaded: 4 October 2022 (a
      Tuesday), 16 January 2023 (a Monday) and 23 April 2023 (a Sunday). */
  lemma LoadTimeCalls()
    ensures FullTermStart(2022, 0) == Ok(DateTime(2022, 10, 4, 0, 0, 0, 0))
    ensures FullTermStart(2023, 1) == Ok(DateTime(2023, 1, 16, 0, 0, 0, 0))
    ensures FullTermStart(2023, 2) == Ok(DateTime(2023, 4, 23, 0, 0, 0, 0))
    ensures Weekday(Date(2022, 10, 4)) == Tuesday
    ensures Weekday(Date(2023, 1, 16)) == Monday
    ensures Weekday(Date(2023, 4, 23)) == Sunday
  {
  }
}
