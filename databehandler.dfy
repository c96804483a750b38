/**
 * `lesOgAggreger` as the program runs it: one pass over the data rows that
 * updates a per-date accumulator map, a second pass that appends one
 * `DagTemp` per accumulator to a slice, and an in-place sort by date.
 */
module Databehandler {
  import opened Wrappers
  import opened Lexicographic
  import opened Rfc3339
  import opened Aggregation

  /** The accumulator `akk` of one date: the running sum and the number of readings. */
  datatype Akk = Akk(sum: real, antall: nat)

  /** `perDag` accounts for exactly the readings `rs`: one accumulator per date, holding their sum and count. */
  ghost predicate Tallies(perDag: map<string, Akk>, rs: seq<Reading>)
  {
    && perDag.Keys == Dates(rs)
    && forall d :: d in perDag ==>
         perDag[d] == Akk(Sum(TemperaturesOn(rs, d)), |TemperaturesOn(rs, d)|)
  }

  /** `sum / float64(antall)`: the value that, counted `antall` times, makes up the sum. */
  function MeanOf(a: Akk): (m: real)
    requires a.antall > 0
    ensures m * a.antall as real == a.sum
  {
    a.sum / a.antall as real
  }

  /** No two entries share a date. */
  ghost predicate DistinctDatos(out: seq<DagTemp>)
  {
    forall i, j :: 0 <= i < |out| && 0 <= j < |out| && out[i].dato == out[j].dato ==> i == j
  }

  /** Entries are in non-decreasing date order. */
  ghost predicate SortedByDato(out: seq<DagTemp>)
  {
    forall i, j :: 0 <= i < j < |out| ==> LessEq(out[i].dato, out[j].dato)
  }

  /** `out` holds one entry per accumulator of `perDag`, in any order, each with that accumulator's mean. */
  ghost predicate Finalized(out: seq<DagTemp>, perDag: map<string, Akk>)
  {
    && |out| == |perDag|
    && Elems(Datos(out)) == perDag.Keys
    && DistinctDatos(out)
    && MeansOf(out, perDag)
  }

  /** Every entry of `out` is the mean of its date's accumulator. */
  ghost predicate MeansOf(out: seq<DagTemp>, perDag: map<string, Akk>)
  {
    forall i :: 0 <= i < |out| ==>
      out[i].dato in perDag && perDag[out[i].dato].antall > 0
      && out[i].gjennomsnitt == MeanOf(perDag[out[i].dato])
  }

  /** The accumulator map after adding reading `r` to its date's accumulator (created empty if new). */
  function AddReading(perDag: map<string, Akk>, r: Reading): (after: map<string, Akk>)
    ensures after.Keys == perDag.Keys + {r.dato}
    ensures forall d :: d in perDag && d != r.dato ==> after[d] == perDag[d]
    ensures r.dato in perDag ==>
      after[r.dato] == Akk(perDag[r.dato].sum + r.temp, perDag[r.dato].antall + 1)
    ensures r.dato !in perDag ==> after[r.dato] == Akk(r.temp, 1)
  {
    var a := if r.dato in perDag then perDag[r.dato] else Akk(0.0, 0);
    perDag[r.dato := Akk(a.sum + r.temp, a.antall + 1)]
  }

  lemma AddReadingAt(rs: seq<Reading>, r: Reading, perDag: map<string, Akk>, d: string)
    requires Tallies(perDag, rs)
    requires d in AddReading(perDag, r)
    ensures AddReading(perDag, r)[d]
         == Akk(Sum(TemperaturesOn(rs + [r], d)), |TemperaturesOn(rs + [r], d)|)
  {
    TemperaturesSnoc(rs, r, d);
    if d == r.dato {
      var t := TemperaturesOn(rs, d);
      SumSnoc(t, r.temp);
      if d !in perDag {
        assert t == [];
      }
    } else {
      assert d in perDag;
      assert AddReading(perDag, r)[d] == perDag[d];
      assert TemperaturesOn(rs, d) + [] == TemperaturesOn(rs, d);
    }
  }

  /** Adding one reading to its date's accumulator keeps the tallies exact. */
  lemma TalliesStep(rs: seq<Reading>, r: Reading, perDag: map<string, Akk>)
    requires Tallies(perDag, rs)
    ensures Tallies(AddReading(perDag, r), rs + [r])
  {
    forall d | d in AddReading(perDag, r)
      ensures AddReading(perDag, r)[d]
           == Akk(Sum(TemperaturesOn(rs + [r], d)), |TemperaturesOn(rs + [r], d)|)
    {
      AddReadingAt(rs, r, perDag, d);
    }
    DatesSnoc(rs, r);
  }

  /**
   * One iteration of the row loop: a row with fewer than two fields, an
   * unparsable timestamp or an unparsable temperature is skipped (Go's
   * `continue`); otherwise its temperature is added to its date's
   * accumulator, which is created empty first if the date is new.
   */
  method AddRow(perDag: map<string, Akk>, row: Row, parseFloat: string -> Option<real>)
    returns (perDag': map<string, Akk>)
    ensures ParseRow(row, parseFloat).None? ==> perDag' == perDag
    ensures ParseRow(row, parseFloat).Some? ==> perDag' == AddReading(perDag, ParseRow(row, parseFloat).value)
  {
    perDag' := perDag;
    if |row| < 2 {
      return;
    }
    var t := ParseTimestamp(row[0]);
    if t.None? {
      return;
    }
    var dato := FormatDate(t.value);
    var temp := parseFloat(row[1]);
    if temp.None? {
      return;
    }
    if dato !in perDag' {
      perDag' := perDag'[dato := Akk(0.0, 0)];
    }
    var a := perDag'[dato];
    perDag' := perDag'[dato := Akk(a.sum + temp.value, a.antall + 1)];
  }

  /**
   * The row loop over `records[1:]`: afterwards the map holds exactly one
   * accumulator per date that has a valid row, with the sum and the number
   * of that date's temperatures.
   */
  method Accumulate(dataRows: seq<Row>, parseFloat: string -> Option<real>)
    returns (perDag: map<string, Akk>)
    ensures Tallies(perDag, Readings(dataRows, parseFloat))
    ensures forall d :: d in perDag ==> perDag[d].antall >= 1
  {
    perDag := map[];
    for i := 0 to |dataRows|
      invariant Tallies(perDag, Readings(dataRows[..i], parseFloat))
    {
      var row := dataRows[i];
      ghost var before := Readings(dataRows[..i], parseFloat);
      assert dataRows[..i + 1] == dataRows[..i] + [row];
      ReadingsSnoc(dataRows[..i], row, parseFloat);
      if ParseRow(row, parseFloat).Some? {
        TalliesStep(before, ParseRow(row, parseFloat).value, perDag);
      }
      perDag := AddRow(perDag, row, parseFloat);
    }
    assert dataRows[..|dataRows|] == dataRows;
  }

  /** Appending an entry for a new date keeps the dates distinct and adds that date. */
  lemma AppendEntry(done: seq<DagTemp>, e: DagTemp, perDag: map<string, Akk>)
    requires DistinctDatos(done) && MeansOf(done, perDag)
    requires e.dato !in Elems(Datos(done))
    requires e.dato in perDag && perDag[e.dato].antall > 0 && e.gjennomsnitt == MeanOf(perDag[e.dato])
    ensures DistinctDatos(done + [e]) && MeansOf(done + [e], perDag)
    ensures Elems(Datos(done + [e])) == Elems(Datos(done)) + {e.dato}
  {
    var s := done + [e];
    assert Datos(s) == Datos(done) + [e.dato];
    forall i | 0 <= i < |done|
      ensures s[i].dato != e.dato
    {
      assert Datos(done)[i] == done[i].dato;
    }
  }

  /**
   * `done` holds one entry for each date of `perDag` outside `remaining`,
   * each such date once, each with its accumulator's mean.
   */
  ghost predicate Visited(done: seq<DagTemp>, remaining: set<string>, perDag: map<string, Akk>)
  {
    && remaining <= perDag.Keys
    && Elems(Datos(done)) == perDag.Keys - remaining
    && DistinctDatos(done)
    && MeansOf(done, perDag)
  }

  /** Visiting one more date keeps `Visited`. */
  lemma VisitStep(done: seq<DagTemp>, e: DagTemp, remaining: set<string>, perDag: map<string, Akk>)
    requires Visited(done, remaining, perDag)
    requires e.dato in remaining && perDag[e.dato].antall > 0
    requires e.gjennomsnitt == MeanOf(perDag[e.dato])
    ensures Visited(done + [e], remaining - {e.dato}, perDag)
    ensures |remaining - {e.dato}| == |remaining| - 1
  {
    AppendEntry(done, e, perDag);
  }

  /**
   * The result loop (`for dato, a := range perDag`): appends one entry per
   * accumulator, holding its date and `sum / antall`, to a slice whose
   * capacity is `len(perDag)`. Go visits the map in an unspecified order,
   * so the loop picks any key not yet visited.
   */
  method Finalize(perDag: map<string, Akk>) returns (res: array<DagTemp>)
    requires forall d :: d in perDag ==> perDag[d].antall >= 1
    ensures fresh(res)
    ensures Finalized(res[..], perDag)
  {
    res := new DagTemp[|perDag|];
    var n := 0;
    var remaining := perDag.Keys;
    assert Datos(res[..0]) == [];
    while remaining != {}
      invariant n + |remaining| == |perDag| == res.Length
      invariant Visited(res[..n], remaining, perDag)
      decreases |remaining|
    {
      var dato :| dato in remaining;
      var a := perDag[dato];
      ghost var done := res[..n];
      res[n] := DagTemp(dato, a.sum / a.antall as real);
      assert res[..n + 1] == done + [res[n]];
      VisitStep(done, res[n], remaining, perDag);
      n := n + 1;
      remaining := remaining - {dato};
    }
    assert res[..n] == res[..];
  }

  /** Exchanges two entries of `a`. */
  method Swap(a: array<DagTemp>, i: int, j: int)
    requires 0 <= i < a.Length && 0 <= j < a.Length
    modifies a
    ensures a[..] == old(a[..])[i := old(a[j])][j := old(a[i])]
    ensures multiset(a[..]) == multiset(old(a[..]))
    ensures DistinctDatos(old(a[..])) ==> DistinctDatos(a[..])
  {
    var t := a[i];
    a[i] := a[j];
    a[j] := t;
    if DistinctDatos(old(a[..])) {
      forall p, q | 0 <= p < a.Length && 0 <= q < a.Length && a[p].dato == a[q].dato
        ensures p == q
      {
        var p' := if p == i then j else if p == j then i else p;
        var q' := if q == i then j else if q == j then i else q;
        assert a[p] == old(a[p']) && a[q] == old(a[q']);
      }
    }
  }

  /** Apart from position `j`, the prefix `s[..i + 1]` is in order. */
  ghost predicate SortedExcept(s: seq<DagTemp>, j: int, i: int)
    requires 0 <= j <= i < |s|
  {
    forall p, q :: 0 <= p < q <= i && p != j && q != j ==> LessEq(s[p].dato, s[q].dato)
  }

  /** The entry at `j` sorts strictly before everything after it up to `i`. */
  ghost predicate BelowRight(s: seq<DagTemp>, j: int, i: int)
    requires 0 <= j <= i < |s|
  {
    forall q :: j < q <= i ==> Less(s[j].dato, s[q].dato)
  }

  lemma SinkStep(s: seq<DagTemp>, j: int, i: int)
    requires 0 < j <= i < |s|
    requires SortedExcept(s, j, i) && BelowRight(s, j, i)
    requires Less(s[j].dato, s[j - 1].dato)
    ensures SortedExcept(s[j - 1 := s[j]][j := s[j - 1]], j - 1, i)
    ensures BelowRight(s[j - 1 := s[j]][j := s[j - 1]], j - 1, i)
  {
  }

  lemma SinkDone(s: seq<DagTemp>, j: int, i: int)
    requires 0 <= j <= i < |s|
    requires SortedExcept(s, j, i) && BelowRight(s, j, i)
    requires j > 0 ==> LessEq(s[j - 1].dato, s[j].dato)
    ensures SortedByDato(s[..i + 1])
  {
    forall p, q | 0 <= p < q <= i
      ensures LessEq(s[p].dato, s[q].dato)
    {
      if p == j {
        LessAsymmetric(s[p].dato, s[q].dato);
      } else if q == j && p < j - 1 {
        LessEqTransitive(s[p].dato, s[j - 1].dato, s[j].dato);
      }
    }
  }

  /**
   * Sinks `a[i]` into the sorted prefix `a[..i]` by swapping it with each
   * larger neighbour to its left.
   */
  method InsertNext(a: array<DagTemp>, i: int)
    requires 0 <= i < a.Length
    requires SortedByDato(a[..i])
    modifies a
    ensures SortedByDato(a[..i + 1])
    ensures a[i + 1..] == old(a[i + 1..])
    ensures multiset(a[..]) == multiset(old(a[..]))
    ensures DistinctDatos(old(a[..])) ==> DistinctDatos(a[..])
  {
    var j := i;
    assert SortedExcept(a[..], j, i);
    while 0 < j && Less(a[j].dato, a[j - 1].dato)
      invariant 0 <= j <= i
      invariant a[i + 1..] == old(a[i + 1..])
      invariant multiset(a[..]) == multiset(old(a[..]))
      invariant DistinctDatos(old(a[..])) ==> DistinctDatos(a[..])
      invariant SortedExcept(a[..], j, i) && BelowRight(a[..], j, i)
      decreases j
    {
      SinkStep(a[..], j, i);
      Swap(a, j - 1, j);
      j := j - 1;
    }
    SinkDone(a[..], j, i);
  }

  /**
   * Go's `sort.Slice` ordering the entries by `Dato` with `<`: reorders
   * them in place into ascending date order.
   */
  method SortByDato(a: array<DagTemp>)
    modifies a
    ensures SortedByDato(a[..])
    ensures multiset(a[..]) == multiset(old(a[..]))
    ensures DistinctDatos(old(a[..])) ==> DistinctDatos(a[..])
  {
    var i := 0;
    while i < a.Length
      invariant 0 <= i <= a.Length
      invariant SortedByDato(a[..i])
      invariant multiset(a[..]) == multiset(old(a[..]))
      invariant DistinctDatos(old(a[..])) ==> DistinctDatos(a[..])
    {
      InsertNext(a, i);
      i := i + 1;
    }
    assert a[..i] == a[..];
  }

  lemma PermutedMeans(out: seq<DagTemp>, unsorted: seq<DagTemp>,
                       perDag: map<string, Akk>, rs: seq<Reading>)
    requires Tallies(perDag, rs)
    requires MeansOf(unsorted, perDag)
    requires multiset(out) == multiset(unsorted)
    ensures forall i :: 0 <= i < |out| ==>
      out[i].dato in Dates(rs) && out[i].gjennomsnitt == Mean(TemperaturesOn(rs, out[i].dato))
  {
    forall i | 0 <= i < |out|
      ensures out[i].dato in Dates(rs)
      ensures out[i].gjennomsnitt == Mean(TemperaturesOn(rs, out[i].dato))
    {
      assert out[i] in multiset(unsorted);
      var k :| 0 <= k < |unsorted| && unsorted[k] == out[i];
      var d := out[i].dato;
      assert perDag[d] == Akk(Sum(TemperaturesOn(rs, d)), |TemperaturesOn(rs, d)|);
    }
  }

  lemma PermutedDates(out: seq<DagTemp>, unsorted: seq<DagTemp>)
    requires multiset(out) == multiset(unsorted)
    ensures Elems(Datos(out)) == Elems(Datos(unsorted))
  {
    forall d | d in Elems(Datos(unsorted))
      ensures d in Elems(Datos(out))
    {
      var k :| 0 <= k < |unsorted| && Datos(unsorted)[k] == d;
      assert unsorted[k] in multiset(out);
      var i :| 0 <= i < |out| && out[i] == unsorted[k];
      assert Datos(out)[i] == d;
    }
    forall d | d in Elems(Datos(out))
      ensures d in Elems(Datos(unsorted))
    {
      var i :| 0 <= i < |out| && Datos(out)[i] == d;
      assert out[i] in multiset(unsorted);
      var k :| 0 <= k < |unsorted| && unsorted[k] == out[i];
      assert Datos(unsorted)[k] == d;
    }
  }

  /** Sorted with no date twice means strictly sorted. */
  lemma SortedDistinctIsStrict(out: seq<DagTemp>)
    requires SortedByDato(out) && DistinctDatos(out)
    ensures StrictlySorted(Datos(out))
  {
    forall i, j | 0 <= i < j < |out|
      ensures Less(Datos(out)[i], Datos(out)[j])
    {
      LessEqDistinct(out[i].dato, out[j].dato);
    }
  }

  /**
   * The finalized entries, once sorted, are the daily averages of the
   * readings that the accumulators tallied.
   */
  lemma SortedFinalizedIsDailyAverages(out: seq<DagTemp>, unsorted: seq<DagTemp>,
                                       perDag: map<string, Akk>, rs: seq<Reading>)
    requires Tallies(perDag, rs)
    requires Finalized(unsorted, perDag)
    requires multiset(out) == multiset(unsorted)
    requires SortedByDato(out) && DistinctDatos(out)
    ensures IsDailyAverages(out, rs)
  {
    PermutedMeans(out, unsorted, perDag, rs);
    PermutedDates(out, unsorted);
    SortedDistinctIsStrict(out);
  }

  /**
   * `lesOgAggreger` from the outcome of opening and reading the CSV file:
   * a read failure is passed on; a file with at most one record (a header
   * alone, or nothing) fails with "ingen data rader i CSV"; otherwise the
   * data rows after the header are aggregated, finalized and sorted.
   */
  method LesOgAggreger(read: Result<seq<Row>, string>, parseFloat: string -> Option<real>)
    returns (res: Result<seq<DagTemp>, Error>)
    ensures res.Failure? <==> read.Failure? || |read.value| <= 1
    ensures read.Failure? ==> res == Failure(ReadFailed(read.error))
    ensures read.Success? && |read.value| <= 1 ==> res == Failure(NoDataRows)
    ensures res.Success? ==> IsDailyAverages(res.value, Readings(read.value[1..], parseFloat))
    ensures res.Success? ==> |res.value| == |Dates(Readings(read.value[1..], parseFloat))|
    ensures res == Aggregated(read, parseFloat)
  {
    if read.Failure? {
      return Failure(ReadFailed(read.error));
    }
    var records := read.value;
    if |records| <= 1 {
      return Failure(NoDataRows);
    }
    var perDag := Accumulate(records[1..], parseFloat);
    var dager := Finalize(perDag);
    ghost var unsorted := dager[..];
    SortByDato(dager);
    ghost var rs := Readings(records[1..], parseFloat);
    SortedFinalizedIsDailyAverages(dager[..], unsorted, perDag, rs);
    DailyAveragesUnique(dager[..], rs);
    return Success(dager[..]);
  }
}
