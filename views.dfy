/**
 * The read-only views the front desk shows (App.tsx): the filtered record
 * table, the filtered car table, total revenue, and the report's rows and
 * grand total. Each is a pure function of the collections and the filter
 * inputs.
 */
module Views {

  import opened Types
  import opened Sequences

  /** `toLowerCase` on the ASCII letters. */
  function LowerChar(c: char): char
  {
    if 'A' <= c <= 'Z' then (c as int + 32) as char else c
  }

  /** Every ASCII capital becomes its small letter; every other character is kept; no capital remains. */
  function ToLower(s: string): (r: string)
    ensures |r| == |s|
    ensures forall i :: 0 <= i < |s| ==> !('A' <= r[i] <= 'Z')
    ensures forall i :: 0 <= i < |s| ==>
              if 'A' <= s[i] <= 'Z' then r[i] as int == s[i] as int + 32 else r[i] == s[i]
  {
    seq(|s|, i requires 0 <= i < |s| => LowerChar(s[i]))
  }

  /** Lower-casing twice is lower-casing once. */
  lemma ToLowerIsIdempotent(s: string)
    ensures ToLower(ToLower(s)) == ToLower(s)
  {
    assert forall i :: 0 <= i < |s| ==> ToLower(ToLower(s))[i] == ToLower(s)[i];
  }

  /** `s.includes(sub)`: `sub` occurs in `s` at some position. */
  predicate Contains(s: string, sub: string)
    ensures sub == [] ==> Contains(s, sub)
    ensures Contains(s, sub) ==> |sub| <= |s|
  {
    sub <= s || (s != [] && Contains(s[1..], sub))
  }

  /** An occurrence of `sub` at position `i` of `s` makes `s` contain `sub`. */
  lemma {:induction false} ContainsAt(s: string, sub: string, i: nat)
    requires i + |sub| <= |s| && s[i..i + |sub|] == sub
    ensures Contains(s, sub)
  {
    if i == 0 {
      assert s[..|sub|] == sub;
    } else {
      assert s[1..][i - 1..i - 1 + |sub|] == s[i..i + |sub|];
      ContainsAt(s[1..], sub, i - 1);
    }
  }

  /** When `s` contains `sub`, there is a position where `sub` occurs. */
  lemma {:induction false} ContainsWitness(s: string, sub: string) returns (i: nat)
    requires Contains(s, sub)
    ensures i + |sub| <= |s| && s[i..i + |sub|] == sub
  {
    if sub <= s {
      i := 0;
      assert s[..|sub|] == sub;
    } else {
      var j := ContainsWitness(s[1..], sub);
      i := j + 1;
      assert s[1..][j..j + |sub|] == s[i..i + |sub|];
    }
  }

  /** The case-insensitive substring test both search boxes use. */
  predicate TextMatches(text: string, search: string)
    ensures search == [] ==> TextMatches(text, search)
    ensures TextMatches(text, search) ==> |search| <= |text|
  {
    Contains(ToLower(text), ToLower(search))
  }

  /** The test does not change when either side is lower-cased first. */
  lemma SearchIgnoresCase(text: string, search: string)
    ensures TextMatches(text, search) == TextMatches(ToLower(text), ToLower(search))
  {
    ToLowerIsIdempotent(text);
    ToLowerIsIdempotent(search);
  }

  /** The status drop-down: `'All'` or one record status. */
  datatype StatusFilter = All | Only(status: RecordStatus)

  /**
   * The record filters. An unset date bound is `None`; a set one is the day
   * number of the chosen date.
   */
  datatype RecordFilter = RecordFilter(
    searchPlate: string,
    status: StatusFilter,
    startDay: Option<int>,
    endDay: Option<int>)

  const NO_RECORD_FILTER := RecordFilter("", All, None, None)

  predicate StatusMatches(filter: StatusFilter, status: RecordStatus)
  {
    filter.All? || filter.status == status
  }

  /** Both bounds are inclusive and each is optional. */
  predicate DayInRange(day: int, startDay: Option<int>, endDay: Option<int>)
  {
    (startDay.None? || startDay.value <= day) && (endDay.None? || day <= endDay.value)
  }

  /** `dayOf` maps a timestamp to its calendar day (midnight of that day). */
  predicate RecordMatches(r: ParkingRecord, f: RecordFilter, dayOf: int -> int)
  {
    TextMatches(r.plateNumber, f.searchPlate)
    && StatusMatches(f.status, r.status)
    && DayInRange(dayOf(r.entryTime), f.startDay, f.endDay)
  }

  /**
   * `filteredRecords`: the records, in order, whose plate contains the search
   * text, whose status passes the drop-down and whose entry day lies in the
   * range; every such record is kept.
   */
  function FilteredRecords(records: seq<ParkingRecord>, f: RecordFilter, dayOf: int -> int): (r: seq<ParkingRecord>)
    ensures IsSubsequence(r, records)
    ensures forall i :: 0 <= i < |r| ==>
              && TextMatches(r[i].plateNumber, f.searchPlate)
              && StatusMatches(f.status, r[i].status)
              && DayInRange(dayOf(r[i].entryTime), f.startDay, f.endDay)
    ensures forall x :: multiset(r)[x] == if RecordMatches(x, f, dayOf) then multiset(records)[x] else 0
  {
    Filter(records, x => RecordMatches(x, f, dayOf))
  }

  /** With every filter cleared the table shows all records. */
  lemma ClearedFiltersShowAllRecords(records: seq<ParkingRecord>, dayOf: int -> int)
    ensures FilteredRecords(records, NO_RECORD_FILTER, dayOf) == records
  {
    forall i | 0 <= i < |records|
      ensures RecordMatches(records[i], NO_RECORD_FILTER, dayOf)
    {
    }
  }

  predicate CarMatches(c: Car, search: string)
  {
    TextMatches(c.plateNumber, search) || TextMatches(c.driverName, search)
  }

  /**
   * `filteredCars`: the cars, in order, whose plate or driver name contains
   * the search text; every such car is kept.
   */
  function FilteredCars(cars: seq<Car>, search: string): (r: seq<Car>)
    ensures IsSubsequence(r, cars)
    ensures forall i :: 0 <= i < |r| ==>
              TextMatches(r[i].plateNumber, search) || TextMatches(r[i].driverName, search)
    ensures forall x :: multiset(r)[x] == if CarMatches(x, search) then multiset(cars)[x] else 0
  {
    Filter(cars, c => CarMatches(c, search))
  }

  /** An empty search box shows every car. */
  lemma EmptySearchShowsAllCars(cars: seq<Car>)
    ensures FilteredCars(cars, "") == cars
  {
    forall i | 0 <= i < |cars|
      ensures CarMatches(cars[i], "")
    {
    }
  }

  /** "Total Revenue": the sum of all payment amounts. */
  function TotalRevenue(payments: seq<Payment>): (r: int)
    ensures payments == [] ==> r == 0
    ensures (forall i :: 0 <= i < |payments| ==> payments[i].amountPaid >= 0) ==>
              0 <= r && forall i :: 0 <= i < |payments| ==> payments[i].amountPaid <= r
  {
    SumOf(payments, (p: Payment) => p.amountPaid)
  }

  /** Each new payment adds exactly its amount to the total revenue. */
  lemma TotalRevenueAppend(payments: seq<Payment>, p: Payment)
    ensures TotalRevenue(payments + [p]) == TotalRevenue(payments) + p.amountPaid
  {
    SumOfAppend(payments, [p], (q: Payment) => q.amountPaid);
  }

  /** The report lists the Completed records, in order, and all of them. */
  function ReportRows(records: seq<ParkingRecord>): (r: seq<ParkingRecord>)
    ensures IsSubsequence(r, records)
    ensures forall i :: 0 <= i < |r| ==> r[i].status == Completed
    ensures forall x :: multiset(r)[x] == if x.status == Completed then multiset(records)[x] else 0
  {
    Filter(records, (x: ParkingRecord) => x.status == Completed)
  }

  /** `r.amountPaid || 0`. */
  function AmountOrZero(r: ParkingRecord): int
  {
    r.amountPaid.GetOr(0)
  }

  /** The report's "Grand Total": amounts summed over ALL records, not only the listed rows. */
  function GrandTotal(records: seq<ParkingRecord>): (r: int)
    ensures records == [] ==> r == 0
    ensures (forall i :: 0 <= i < |records| ==> AmountOrZero(records[i]) >= 0) ==>
              0 <= r && forall i :: 0 <= i < |records| && records[i].amountPaid.Some? ==>
                          records[i].amountPaid.value <= r
  {
    SumOf(records, AmountOrZero)
  }

  /**
   * The grand total agrees with the listed rows as long as no record that is
   * not Completed carries an amount.
   */
  lemma GrandTotalMatchesReportRows(records: seq<ParkingRecord>)
    requires forall i :: 0 <= i < |records| && records[i].status != Completed ==> AmountOrZero(records[i]) == 0
    ensures GrandTotal(ReportRows(records)) == GrandTotal(records)
  {
    SumOfFilter(records, (x: ParkingRecord) => x.status == Completed, AmountOrZero);
  }
}
