/**
 * The pure specification of the daily aggregation: which CSV rows yield a
 * reading, the temperatures recorded on each calendar date, and the one
 * correct output of `lesOgAggreger` for every input.
 */
module Aggregation {
  import opened Wrappers
  import opened Lexicographic
  import opened Rfc3339

  /** One CSV record as the CSV reader returns it: its fields. */
  type Row = seq<string>

  /** `DagTemp`: the date `dato` (`YYYY-MM-DD`) and its mean temperature `gjennomsnitt`. */
  datatype DagTemp = DagTemp(dato: string, gjennomsnitt: real)

  /** A reading taken from one valid data row: its date key and temperature. */
  datatype Reading = Reading(dato: string, temp: real)

  /**
   * The failures `lesOgAggreger` reports: the file cannot be opened or read
   * as CSV (the reader's message), or it holds no data rows.
   */
  datatype Error = ReadFailed(message: string) | NoDataRows

  function Message(e: Error): string
  {
    match e
    case ReadFailed(m) => m
    case NoDataRows => "ingen data rader i CSV"
  }

  /**
   * The reading a data row yields, if any: at least two fields, the first
   * an RFC 3339 timestamp and the second a number. Further fields are not
   * looked at. `parseFloat` stands for `strconv.ParseFloat(_, 64)`.
   */
  function ParseRow(row: Row, parseFloat: string -> Option<real>): (r: Option<Reading>)
    ensures r.Some? ==>
      && |row| >= 2 && ParseTimestamp(row[0]).Some? && parseFloat(row[1]).Some?
      && |row[0]| >= 20
      && r.value == Reading(row[0][..10], parseFloat(row[1]).value)
  {
    if |row| < 2 then None
    else
      match ParseTimestamp(row[0])
      case None => None
      case Some(t) =>
        match parseFloat(row[1])
        case None => None
        case Some(temp) =>
          DateKeyIsPrefix(row[0]);
          Some(Reading(FormatDate(t), temp))
  }

  /** The values `f` yields on the elements of `xs`, in order; elements it rejects are skipped. */
  function Keep<T, U>(xs: seq<T>, f: T -> Option<U>): seq<U>
  {
    if xs == [] then []
    else
      Keep(xs[..|xs| - 1], f) + Listed(f(xs[|xs| - 1]))
  }

  /** The value an option holds, as a sequence of zero or one elements. */
  function Listed<U>(o: Option<U>): seq<U>
  {
    match o
    case None => []
    case Some(y) => [y]
  }

  /** The readings of the valid rows, in row order; invalid rows are skipped. */
  function Readings(rows: seq<Row>, parseFloat: string -> Option<real>): seq<Reading>
  {
    Keep(rows, row => ParseRow(row, parseFloat))
  }

  /** The temperatures read on date `d`, in reading order: the bag that is averaged. */
  function TemperaturesOn(rs: seq<Reading>, d: string): seq<real>
  {
    if rs == [] then []
    else
      TemperaturesOn(rs[..|rs| - 1], d)
      + if rs[|rs| - 1].dato == d then [rs[|rs| - 1].temp] else []
  }

  function Sum(xs: seq<real>): real
  {
    if xs == [] then 0.0 else Sum(xs[..|xs| - 1]) + xs[|xs| - 1]
  }

  function Mean(xs: seq<real>): real
    requires |xs| > 0
  {
    Sum(xs) / |xs| as real
  }

  /** The dates that have at least one reading. */
  function Dates(rs: seq<Reading>): (ds: set<string>)
    ensures forall d :: d in ds <==> |TemperaturesOn(rs, d)| > 0
  {
    if rs == [] then {}
    else Dates(rs[..|rs| - 1]) + {rs[|rs| - 1].dato}
  }

  function Datos(out: seq<DagTemp>): seq<string>
  {
    seq(|out|, i requires 0 <= i < |out| => out[i].dato)
  }

  /**
   * What the output must be for readings `rs`: one entry per date that has
   * a reading, in strictly ascending date order, each holding the mean of
   * exactly that date's temperatures.
   */
  ghost predicate IsDailyAverages(out: seq<DagTemp>, rs: seq<Reading>)
  {
    && StrictlySorted(Datos(out))
    && Elems(Datos(out)) == Dates(rs)
    && forall i :: 0 <= i < |out| ==>
         out[i].dato in Dates(rs) && out[i].gjennomsnitt == Mean(TemperaturesOn(rs, out[i].dato))
  }

  lemma DatosCons(e: DagTemp, rest: seq<DagTemp>)
    ensures Datos([e] + rest) == [e.dato] + Datos(rest)
  {
  }

  /** One entry per key, in the keys' order, each holding the mean of that date's temperatures. */
  ghost function Entries(rs: seq<Reading>, keys: seq<string>): (out: seq<DagTemp>)
    requires forall i :: 0 <= i < |keys| ==> |TemperaturesOn(rs, keys[i])| > 0
    ensures Datos(out) == keys
    ensures forall i :: 0 <= i < |out| ==> out[i].gjennomsnitt == Mean(TemperaturesOn(rs, keys[i]))
  {
    if keys == [] then []
    else
      var rest := Entries(rs, keys[1..]);
      var out := [DagTemp(keys[0], Mean(TemperaturesOn(rs, keys[0])))] + rest;
      DatosCons(out[0], rest);
      out
  }

  /** The daily averages of `rs`, as a reference value. */
  ghost function DailyAverages(rs: seq<Reading>): (out: seq<DagTemp>)
    ensures IsDailyAverages(out, rs)
    ensures |out| == |Dates(rs)|
  {
    var keys := SortedKeys(Dates(rs));
    assert forall i :: 0 <= i < |keys| ==> keys[i] in Elems(keys);
    Entries(rs, keys)
  }

  /** The specification of `lesOgAggreger` on the outcome of reading the CSV file. */
  ghost function Aggregated(read: Result<seq<Row>, string>, parseFloat: string -> Option<real>)
    : Result<seq<DagTemp>, Error>
  {
    match read
    case Failure(msg) => Failure(ReadFailed(msg))
    case Success(records) =>
      if |records| <= 1 then Failure(NoDataRows)
      else Success(DailyAverages(Readings(records[1..], parseFloat)))
  }

  // ---------------------------------------------------------------------
  // Properties of the specification

  /** One more reading extends its own date's temperatures and leaves every other date's alone. */
  lemma TemperaturesSnoc(rs: seq<Reading>, r: Reading, d: string)
    ensures TemperaturesOn(rs + [r], d) == TemperaturesOn(rs, d) + (if r.dato == d then [r.temp] else [])
  {
    assert (rs + [r])[..|rs|] == rs;
  }

  lemma DatesSnoc(rs: seq<Reading>, r: Reading)
    ensures Dates(rs + [r]) == Dates(rs) + {r.dato}
  {
    assert (rs + [r])[..|rs|] == rs;
  }

  lemma SumSnoc(xs: seq<real>, x: real)
    ensures Sum(xs + [x]) == Sum(xs) + x
  {
    assert (xs + [x])[..|xs|] == xs;
  }

  /** There is exactly one correct output: any sequence meeting IsDailyAverages is DailyAverages. */
  lemma DailyAveragesUnique(out: seq<DagTemp>, rs: seq<Reading>)
    requires IsDailyAverages(out, rs)
    ensures out == DailyAverages(rs)
  {
    var ref := DailyAverages(rs);
    SortedUnique(Datos(out), Datos(ref));
    assert |out| == |Datos(out)| == |Datos(ref)| == |ref|;
    forall i | 0 <= i < |out|
      ensures out[i] == ref[i]
    {
      assert out[i].dato == Datos(out)[i] == Datos(ref)[i] == ref[i].dato;
    }
  }

  /** A row yields a reading exactly when it passes all three checks; its key is the timestamp's leading date. */
  lemma RowContributes(row: Row, parseFloat: string -> Option<real>)
    ensures ParseRow(row, parseFloat).Some? <==>
      |row| >= 2 && ParseTimestamp(row[0]).Some? && parseFloat(row[1]).Some?
    ensures ParseRow(row, parseFloat).Some? ==>
      && |row[0]| >= 20
      && ParseRow(row, parseFloat).value == Reading(row[0][..10], parseFloat(row[1]).value)
  {
  }

  /** Only the first two fields of a row matter. */
  lemma ExtraColumnsIgnored(row: Row, extra: seq<string>, parseFloat: string -> Option<real>)
    requires |row| >= 2
    ensures ParseRow(row + extra, parseFloat) == ParseRow(row, parseFloat)
  {
    assert (row + extra)[0] == row[0] && (row + extra)[1] == row[1];
  }

  lemma {:induction false} KeepAppend<T, U>(xs: seq<T>, ys: seq<T>, f: T -> Option<U>)
    ensures Keep(xs + ys, f) == Keep(xs, f) + Keep(ys, f)
    decreases |ys|
  {
    if ys != [] {
      var init := ys[..|ys| - 1];
      KeepAppend(xs, init, f);
      assert (xs + ys)[..|xs + ys| - 1] == xs + init;
      assert (xs + ys)[|xs + ys| - 1] == ys[|ys| - 1];
    } else {
      assert xs + ys == xs;
    }
  }

  lemma {:induction false} KeepMember<T, U>(xs: seq<T>, f: T -> Option<U>, y: U)
    ensures y in Keep(xs, f) <==> exists i :: 0 <= i < |xs| && f(xs[i]) == Some(y)
    decreases |xs|
  {
    if xs != [] {
      var n := |xs| - 1;
      var init := xs[..n];
      KeepMember(init, f, y);
      assert Keep(xs, f) == Keep(init, f) + Listed(f(xs[n]));
      if y in Keep(init, f) {
        var i :| 0 <= i < |init| && f(init[i]) == Some(y);
        assert xs[i] == init[i];
      } else if f(xs[n]) != Some(y) {
        forall i | 0 <= i < |xs|
          ensures f(xs[i]) != Some(y)
        {
          if i < n {
            assert xs[i] == init[i];
          }
        }
      }
    }
  }

  lemma {:induction false} KeepEmpty<T, U>(xs: seq<T>, f: T -> Option<U>)
    ensures Keep(xs, f) == [] <==> forall i :: 0 <= i < |xs| ==> f(xs[i]).None?
    decreases |xs|
  {
    if xs != [] {
      var init := xs[..|xs| - 1];
      KeepEmpty(init, f);
      assert forall i :: 0 <= i < |init| ==> init[i] == xs[i];
    }
  }

  lemma {:induction false} KeepSameOn<T, U>(xs: seq<T>, ys: seq<T>, f: T -> Option<U>)
    requires |xs| == |ys|
    requires forall i :: 0 <= i < |xs| ==> f(xs[i]) == f(ys[i])
    ensures Keep(xs, f) == Keep(ys, f)
    decreases |xs|
  {
    if xs != [] {
      var n := |xs| - 1;
      KeepSameOn(xs[..n], ys[..n], f);
    }
  }

  lemma KeepSkip<T, U>(xs: seq<T>, bad: T, ys: seq<T>, f: T -> Option<U>)
    requires f(bad).None?
    ensures Keep(xs + [bad] + ys, f) == Keep(xs + ys, f)
  {
    KeepAppend(xs + [bad], ys, f);
    KeepAppend(xs, [bad], f);
    KeepAppend(xs, ys, f);
    assert Keep([bad], f) == [] by {
      assert [bad][..0] == [];
    }
  }

  /** The readings of `rows` followed by one more row. */
  lemma ReadingsSnoc(rows: seq<Row>, row: Row, parseFloat: string -> Option<real>)
    ensures ParseRow(row, parseFloat).None? ==>
      Readings(rows + [row], parseFloat) == Readings(rows, parseFloat)
    ensures ParseRow(row, parseFloat).Some? ==>
      Readings(rows + [row], parseFloat) == Readings(rows, parseFloat) + [ParseRow(row, parseFloat).value]
  {
    assert (rows + [row])[..|rows|] == rows;
  }

  /** A reading comes from some data row, and every valid data row contributes its reading. */
  lemma ReadingsFromRows(rows: seq<Row>, parseFloat: string -> Option<real>, r: Reading)
    ensures r in Readings(rows, parseFloat) <==>
      exists i :: 0 <= i < |rows| && ParseRow(rows[i], parseFloat) == Some(r)
  {
    KeepMember(rows, row => ParseRow(row, parseFloat), r);
  }

  /** A row that fails the checks changes nothing, wherever it stands. */
  lemma MalformedRowIgnored(xs: seq<Row>, bad: Row, ys: seq<Row>, parseFloat: string -> Option<real>)
    requires ParseRow(bad, parseFloat).None?
    ensures Readings(xs + [bad] + ys, parseFloat) == Readings(xs + ys, parseFloat)
  {
    KeepSkip(xs, bad, ys, row => ParseRow(row, parseFloat));
  }

  /** Rows that agree on their first two fields (or are both too short) yield the same readings. */
  lemma SameLeadingFields(rows: seq<Row>, rows': seq<Row>, parseFloat: string -> Option<real>)
    requires |rows| == |rows'|
    requires forall i :: 0 <= i < |rows| ==>
      (|rows[i]| < 2 && |rows'[i]| < 2)
      || (|rows[i]| >= 2 && |rows'[i]| >= 2 && rows[i][..2] == rows'[i][..2])
    ensures Readings(rows, parseFloat) == Readings(rows', parseFloat)
  {
    forall i | 0 <= i < |rows|
      ensures ParseRow(rows[i], parseFloat) == ParseRow(rows'[i], parseFloat)
    {
      var a, b := rows[i], rows'[i];
      if |a| >= 2 {
        assert a[0] == a[..2][0] == b[..2][0] == b[0];
        assert a[1] == a[..2][1] == b[..2][1] == b[1];
      }
    }
    KeepSameOn(rows, rows', row => ParseRow(row, parseFloat));
  }

  /** No reading at all exactly when every row fails the checks. */
  lemma NoReadings(rows: seq<Row>, parseFloat: string -> Option<real>)
    ensures Readings(rows, parseFloat) == [] <==>
      forall i :: 0 <= i < |rows| ==> ParseRow(rows[i], parseFloat).None?
  {
    KeepEmpty(rows, row => ParseRow(row, parseFloat));
  }

  /** The header row is never parsed: replacing it changes nothing. */
  lemma HeaderIgnored(records: seq<Row>, header: Row, parseFloat: string -> Option<real>)
    requires |records| >= 1
    ensures Aggregated(Success([header] + records[1..]), parseFloat) == Aggregated(Success(records), parseFloat)
  {
    assert ([header] + records[1..])[1..] == records[1..];
  }

  /** The "no data rows" error depends only on the raw number of records. */
  lemma NoDataRowsBoundary(records: seq<Row>, parseFloat: string -> Option<real>)
    ensures Aggregated(Success(records), parseFloat).Failure? <==> |records| <= 1
    ensures Aggregated(Success(records), parseFloat).Failure? ==>
      Aggregated(Success(records), parseFloat).error == NoDataRows
  {
  }

  /** Data rows that all fail the checks give an empty result, not an error. */
  lemma AllRowsInvalid(records: seq<Row>, parseFloat: string -> Option<real>)
    requires |records| >= 2
    requires forall i :: 1 <= i < |records| ==> ParseRow(records[i], parseFloat).None?
    ensures Aggregated(Success(records), parseFloat) == Success([])
  {
    var body := records[1..];
    NoReadings(body, parseFloat);
    assert forall i :: 0 <= i < |body| ==> body[i] == records[i + 1];
    assert Readings(body, parseFloat) == [];
    assert Dates([]) == {};
  }
}
