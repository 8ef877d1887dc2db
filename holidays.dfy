/** Holiday records and the two places the calculator picks out the national
    holidays that fall on a weekday: the count subtracted from the working days,
    and the date-sorted list shown beside the result. */
module Holidays {
  import opened Calendar

  /** One record from the holiday provider. The date is kept as the year, month
      and day of its `holiday_date` field. */
  datatype Holiday = Holiday(y: int, m: Month, d: Day, name: string, isNational: bool)

  /** `isWeekend`: the weekday of the date is Sunday (0) or Saturday (6).
      Against the day count (day 0, 0001-01-01, was a Monday), these are the
      days whose number is 5 (Saturday) or 6 (Sunday) modulo 7. */
  predicate IsWeekend(y: int, m: Month, d: int): (weekend: bool)
    ensures weekend <==> DayNumber(y, m, d) % 7 == 5 || DayNumber(y, m, d) % 7 == 6
  {
    DayOfWeekFromDayNumber(y, m, d);
    WeekendResidues(DayNumber(y, m, d));
    var day := DayOfWeek(y, m, d);
    day == 0 || day == 6
  }

  /** The day after a day numbered 5 or 6 modulo 7 is numbered 6 or 0. */
  lemma WeekendResidues(n: int)
    ensures (n + 1) % 7 == 0 || (n + 1) % 7 == 6 <==> n % 7 == 5 || n % 7 == 6
  {
    var r := n % 7;
    ModSucc(n);
    assert (n + 1) % 7 == (r + 1) % 7;
  }

  /** The test inside the count of `calculateWorkingDays`: the record is national
      and its own weekday is neither 0 nor 6. This is the test the display
      filter writes as `is_national_holiday && !isWeekend(..)`. */
  predicate IsNationalWeekday(h: Holiday): (counted: bool)
    ensures counted <==> h.isNational && !IsWeekend(h.y, h.m, h.d)
  {
    var holidayDayOfWeek := DayOfWeek(h.y, h.m, h.d);
    h.isNational && holidayDayOfWeek != 0 && holidayDayOfWeek != 6
  }

  /** `holidaysData.filter(...)` as written in `calculateWorkingDays`;
      `FilterCounts` gives its meaning. */
  function NationalWeekdayHolidays(hs: seq<Holiday>): (r: seq<Holiday>)
    ensures |r| <= |hs|
  {
    if hs == [] then []
    else
      (if IsNationalWeekday(hs[0]) then [hs[0]] else []) + NationalWeekdayHolidays(hs[1..])
  }

  /** The same filter as `displayResult` writes it, through `isWeekend`;
      `DisplayFilterCounts` gives its meaning. */
  function DisplayedHolidays(hs: seq<Holiday>): (r: seq<Holiday>)
    ensures |r| <= |hs|
  {
    if hs == [] then []
    else
      var h := hs[0];
      (if h.isNational && !IsWeekend(h.y, h.m, h.d) then [h] else []) + DisplayedHolidays(hs[1..])
  }

  /** The counting filter holds every qualifying record as often as the input
      does, and nothing else. */
  lemma {:induction false} FilterCounts(hs: seq<Holiday>)
    ensures forall h :: multiset(NationalWeekdayHolidays(hs))[h] == if IsNationalWeekday(h) then multiset(hs)[h] else 0
  {
    if hs != [] {
      var keep := if IsNationalWeekday(hs[0]) then [hs[0]] else [];
      FilterStep(hs);
      FilterCounts(hs[1..]);
      assert hs == [hs[0]] + hs[1..];
      assert multiset(hs) == multiset{hs[0]} + multiset(hs[1..]);
      assert multiset(NationalWeekdayHolidays(hs)) == multiset(keep) + multiset(NationalWeekdayHolidays(hs[1..]));
    }
  }

  /** The display filter holds every national record not dated on a weekend
      as often as the input does, and nothing else. */
  lemma {:induction false} DisplayFilterCounts(hs: seq<Holiday>)
    ensures forall h :: multiset(DisplayedHolidays(hs))[h] == if h.isNational && !IsWeekend(h.y, h.m, h.d) then multiset(hs)[h] else 0
  {
    if hs != [] {
      var h := hs[0];
      var keep := if h.isNational && !IsWeekend(h.y, h.m, h.d) then [h] else [];
      DisplayFilterCounts(hs[1..]);
      assert hs == [h] + hs[1..];
      assert DisplayedHolidays(hs) == keep + DisplayedHolidays(hs[1..]);
      assert multiset(hs) == multiset{h} + multiset(hs[1..]);
      assert multiset(DisplayedHolidays(hs)) == multiset(keep) + multiset(DisplayedHolidays(hs[1..]));
    }
  }

  /** The display filter and the counting filter select the same records in the
      same order, so the list shown has `result.nationalHolidays` entries. */
  lemma {:induction false} FiltersAgree(hs: seq<Holiday>)
    ensures DisplayedHolidays(hs) == NationalWeekdayHolidays(hs)
  {
    if hs != [] {
      FiltersAgree(hs[1..]);
    }
  }

  /** The filter distributes over concatenation: each record is judged alone. */
  lemma {:induction false} FilterAppend(a: seq<Holiday>, b: seq<Holiday>)
    ensures NationalWeekdayHolidays(a + b) == NationalWeekdayHolidays(a) + NationalWeekdayHolidays(b)
  {
    if a == [] {
      assert a + b == b;
    } else {
      var keep := if IsNationalWeekday(a[0]) then [a[0]] else [];
      var x, y := NationalWeekdayHolidays(a[1..]), NationalWeekdayHolidays(b);
      FilterCons(a, b);
      FilterStep(a);
      FilterAppend(a[1..], b);
      ConcatAssociates(keep, x, y);
    }
  }

  lemma ConcatAssociates(p: seq<Holiday>, q: seq<Holiday>, r: seq<Holiday>)
    ensures p + (q + r) == (p + q) + r
  {
  }

  /** The filter judges the first record, then the rest. */
  lemma FilterStep(s: seq<Holiday>)
    requires s != []
    ensures NationalWeekdayHolidays(s) == (if IsNationalWeekday(s[0]) then [s[0]] else []) + NationalWeekdayHolidays(s[1..])
  {
  }

  lemma FilterCons(a: seq<Holiday>, b: seq<Holiday>)
    requires a != []
    ensures NationalWeekdayHolidays(a + b)
         == (if IsNationalWeekday(a[0]) then [a[0]] else []) + NationalWeekdayHolidays(a[1..] + b)
  {
    assert (a + b)[0] == a[0];
    assert (a + b)[1..] == a[1..] + b;
    FilterStep(a + b);
  }

  /** Adding one record anywhere raises the count by one when it is a national
      weekday holiday (duplicates included) and leaves the selection unchanged
      otherwise (non-national or weekend-dated records). */
  lemma RecordEffect(a: seq<Holiday>, h: Holiday, b: seq<Holiday>)
    ensures NationalWeekdayHolidays(a + [h] + b)
         == NationalWeekdayHolidays(a) + (if IsNationalWeekday(h) then [h] else []) + NationalWeekdayHolidays(b)
    ensures |NationalWeekdayHolidays(a + [h] + b)|
         == |NationalWeekdayHolidays(a + b)| + (if IsNationalWeekday(h) then 1 else 0)
  {
    FilterAppend(a + [h], b);
    FilterAppend(a, [h]);
    FilterAppend(a, b);
    assert NationalWeekdayHolidays([h]) == if IsNationalWeekday(h) then [h] else [] by {
      assert [h][1..] == [];
    }
  }

  /** n copies of the same record. */
  function Copies(h: Holiday, n: nat): (r: seq<Holiday>)
    ensures |r| == n
  {
    if n == 0 then [] else [h] + Copies(h, n - 1)
  }

  /** The filter keeps all n copies of a record, or none of them. */
  lemma {:induction false} FilterCopies(h: Holiday, n: nat)
    ensures NationalWeekdayHolidays(Copies(h, n)) == if IsNationalWeekday(h) then Copies(h, n) else []
  {
    if n == 0 {
      assert Copies(h, n) == [] == NationalWeekdayHolidays([]);
    } else {
      var rest := Copies(h, n - 1);
      var s := [h] + rest;
      assert Copies(h, n) == s;
      assert s[0] == h && s[1..] == rest;
      FilterStep(s);
      FilterCopies(h, n - 1);
    }
  }

  /** No deduplication: n copies of a national weekday holiday count n times. */
  lemma {:induction false} DuplicatesCounted(h: Holiday, n: nat)
    requires IsNationalWeekday(h)
    ensures |NationalWeekdayHolidays(Copies(h, n))| == n
  {
    FilterCopies(h, n);
  }

  /** The comparator `new Date(a.holiday_date) - new Date(b.holiday_date)` is the
      difference of the two day numbers times the length of a day, so the
      sort key is the record's day number; `DateKeyOrder` gives its meaning. */
  function DateKey(h: Holiday): int {
    DayNumber(h.y, h.m, h.d)
  }

  /** For records with real dates, the comparator is negative exactly when the
      first date is earlier, and zero exactly when the dates are the same. */
  lemma DateKeyOrder(a: Holiday, b: Holiday)
    requires IsValidDate(a.y, a.m, a.d) && IsValidDate(b.y, b.m, b.d)
    ensures DateKey(a) < DateKey(b) <==> DateBefore(a.y, a.m, a.d, b.y, b.m, b.d)
    ensures DateKey(a) == DateKey(b) <==> (a.y, a.m, a.d) == (b.y, b.m, b.d)
  {
    DayNumberOrdersDates(a.y, a.m, a.d, b.y, b.m, b.d);
    DayNumberOrdersDates(b.y, b.m, b.d, a.y, a.m, a.d);
  }

  predicate SortedByDate(s: seq<Holiday>) {
    forall i, j :: 0 <= i < j < |s| ==> DateKey(s[i]) <= DateKey(s[j])
  }

  /** A list sorted by the comparator, whose records carry real dates, is in
      calendar order: no record comes before one with an earlier date. */
  lemma SortedIsChronological(s: seq<Holiday>, i: int, j: int)
    requires SortedByDate(s)
    requires 0 <= i < j < |s|
    requires IsValidDate(s[i].y, s[i].m, s[i].d) && IsValidDate(s[j].y, s[j].m, s[j].d)
    ensures !DateBefore(s[j].y, s[j].m, s[j].d, s[i].y, s[i].m, s[i].d)
  {
    DayNumberOrdersDates(s[j].y, s[j].m, s[j].d, s[i].y, s[i].m, s[i].d);
  }

  /** Insertion of x into t from the right: x moves left past every record
      with a strictly later date, and stops behind the first one that is not
      later, so records with equal dates keep their order. */
  function InsertByDate(t: seq<Holiday>, x: Holiday): (r: seq<Holiday>)
    ensures |r| == |t| + 1
  {
    if t == [] || DateKey(t[|t| - 1]) <= DateKey(x) then t + [x]
    else InsertByDate(t[..|t| - 1], x) + [t[|t| - 1]]
  }

  /** The order `Array.prototype.sort` produces with the date comparator: the
      sort is stable, so this is insertion sort, one record at a time from the left. */
  function StableSort(s: seq<Holiday>): (r: seq<Holiday>)
    ensures |r| == |s|
  {
    if s == [] then [] else InsertByDate(StableSort(s[..|s| - 1]), s[|s| - 1])
  }

  /** The records of s dated on day number k, in the order of s. */
  function OnDate(s: seq<Holiday>, k: int): seq<Holiday> {
    if s == [] then []
    else OnDate(s[..|s| - 1], k) + (if DateKey(s[|s| - 1]) == k then [s[|s| - 1]] else [])
  }

  lemma {:induction false} InsertByDatePermutes(t: seq<Holiday>, x: Holiday)
    ensures multiset(InsertByDate(t, x)) == multiset(t) + multiset{x}
  {
    if t == [] || DateKey(t[|t| - 1]) <= DateKey(x) {
      assert InsertByDate(t, x) == t + [x];
    } else {
      var u, last := t[..|t| - 1], t[|t| - 1];
      var v := InsertByDate(u, x);
      assert InsertByDate(t, x) == v + [last];
      assert t == u + [last];
      InsertByDatePermutes(u, x);
      MultisetSnoc(v, last);
      MultisetSnoc(u, last);
    }
  }

  lemma MultisetSnoc(s: seq<Holiday>, e: Holiday)
    ensures multiset(s + [e]) == multiset(s) + multiset{e}
  {
  }

  lemma {:induction false} InsertByDateSorted(t: seq<Holiday>, x: Holiday)
    requires SortedByDate(t)
    ensures SortedByDate(InsertByDate(t, x))
  {
    if t == [] || DateKey(t[|t| - 1]) <= DateKey(x) {
      SortedSnoc(t, x);
    } else {
      var u, last := t[..|t| - 1], t[|t| - 1];
      var v := InsertByDate(u, x);
      InsertByDateSorted(u, x);
      InsertByDatePermutes(u, x);
      forall i | 0 <= i < |v|
        ensures DateKey(v[i]) <= DateKey(last)
      {
        assert v[i] in multiset(v);
        assert v[i] == x || v[i] in multiset(u);
      }
      SortedSnoc(v, last);
    }
  }

  /** A sorted list stays sorted when a record no earlier than all of it is appended. */
  lemma SortedSnoc(v: seq<Holiday>, last: Holiday)
    requires SortedByDate(v)
    requires forall i :: 0 <= i < |v| ==> DateKey(v[i]) <= DateKey(last)
    ensures SortedByDate(v + [last])
  {
  }

  /** Inserting x keeps the order among the records of every date. */
  lemma {:induction false} InsertByDateKeepsTies(t: seq<Holiday>, x: Holiday, k: int)
    ensures OnDate(InsertByDate(t, x), k) == OnDate(t, k) + OnDate([x], k)
  {
    if t == [] || DateKey(t[|t| - 1]) <= DateKey(x) {
      assert (t + [x])[..|t|] == t;
    } else {
      var u, last := t[..|t| - 1], t[|t| - 1];
      InsertByDateKeepsTies(u, x, k);
      var v := InsertByDate(u, x);
      assert (v + [last])[..|v|] == v;
    }
  }

  /** The sort leaves the records ordered by date ... */
  lemma {:induction false} StableSortSorted(s: seq<Holiday>)
    ensures SortedByDate(StableSort(s))
  {
    if s != [] {
      StableSortSorted(s[..|s| - 1]);
      InsertByDateSorted(StableSort(s[..|s| - 1]), s[|s| - 1]);
    }
  }

  /** ... is a permutation of its input ... */
  lemma {:induction false} StableSortPermutes(s: seq<Holiday>)
    ensures multiset(StableSort(s)) == multiset(s)
  {
    if s != [] {
      var u, y := s[..|s| - 1], s[|s| - 1];
      StableSortPermutes(u);
      InsertByDatePermutes(StableSort(u), y);
      assert StableSort(s) == InsertByDate(StableSort(u), y);
      assert s == u + [y];
      assert multiset(s) == multiset(u) + multiset{y};
    }
  }

  /** ... and keeps records with the same date in their input order. */
  lemma {:induction false} StableSortKeepsTies(s: seq<Holiday>, k: int)
    ensures OnDate(StableSort(s), k) == OnDate(s, k)
  {
    if s != [] {
      var u, x := s[..|s| - 1], s[|s| - 1];
      StableSortKeepsTies(u, k);
      InsertByDateKeepsTies(StableSort(u), x, k);
      assert [x][..0] == [];
    }
  }

  /** `Array.prototype.sort` with the date comparator, as an in-place insertion sort. */
  method SortByDate(a: array<Holiday>)
    modifies a
    ensures a[..] == StableSort(old(a[..]))
    ensures SortedByDate(a[..])
    ensures multiset(a[..]) == old(multiset(a[..]))
  {
    ghost var s := a[..];
    var i := 0;
    while i < a.Length
      invariant 0 <= i <= a.Length
      invariant a[..i] == StableSort(s[..i])
      invariant a[i..] == s[i..]
    {
      ghost var before := a[..];
      assert before[i] == s[i] by {
        assert before[i..][0] == s[i..][0];
      }
      InsertNext(a, i);
      StableSortStep(s, i);
      assert a[i + 1..] == s[i + 1..] by {
        assert before[i + 1..] == before[i..][1..];
        assert s[i + 1..] == s[i..][1..];
      }
      i := i + 1;
    }
    assert a[..a.Length] == a[..];
    assert s[..a.Length] == s;
    StableSortSorted(s);
    StableSortPermutes(s);
  }

  lemma StableSortStep(s: seq<Holiday>, i: int)
    requires 0 <= i < |s|
    ensures StableSort(s[..i + 1]) == InsertByDate(StableSort(s[..i]), s[i])
  {
    assert s[..i + 1][..i] == s[..i];
  }

  /** One insertion step: moves a[i] left into a[..i], past the records with a
      strictly later date. */
  method InsertNext(a: array<Holiday>, i: int)
    requires 0 <= i < a.Length
    modifies a
    ensures a[..i + 1] == InsertByDate(old(a[..i]), old(a[i]))
    ensures a[i + 1..] == old(a[i + 1..])
  {
    ghost var t, x, rest := a[..i], a[i], a[i + 1..];
    var j := i;
    assert a[..] == Placed(t, x, j) + rest by {
      assert a[..] == a[..i] + [a[i]] + a[i + 1..];
    }
    assert t[..j] == t && t[j..] == [];
    while j > 0 && DateKey(a[j - 1]) > DateKey(a[j])
      invariant 0 <= j <= i
      invariant a[..] == Placed(t, x, j) + rest
      invariant InsertByDate(t, x) == InsertByDate(t[..j], x) + t[j..]
    {
      PlacedAt(t, x, j, rest);
      InsertPastLater(t, x, j);
      ghost var before := a[..];
      a[j - 1], a[j] := a[j], a[j - 1];
      assert a[..] == before[j - 1 := x][j := t[j - 1]];
      MoveLeft(t, x, j, rest);
      j := j - 1;
    }
    PlacedAt(t, x, j, rest);
    InsertStops(t, x, j);
    assert a[..] == Placed(t, x, j) + rest;
    assert a[..i + 1] == (Placed(t, x, j) + rest)[..i + 1];
    assert a[i + 1..] == (Placed(t, x, j) + rest)[i + 1..];
  }

  /** x placed at position j of t. */
  function Placed(t: seq<Holiday>, x: Holiday, j: int): (r: seq<Holiday>)
    requires 0 <= j <= |t|
    ensures |r| == |t| + 1
  {
    t[..j] + [x] + t[j..]
  }

  lemma PlacedAt(t: seq<Holiday>, x: Holiday, j: int, rest: seq<Holiday>)
    requires 0 <= j <= |t|
    ensures (Placed(t, x, j) + rest)[j] == x
    ensures j > 0 ==> (Placed(t, x, j) + rest)[j - 1] == t[j - 1]
    ensures (Placed(t, x, j) + rest)[..|t| + 1] == Placed(t, x, j)
    ensures (Placed(t, x, j) + rest)[|t| + 1..] == rest
  {
  }

  /** Swapping x with the record before it places x one position earlier. */
  lemma MoveLeft(t: seq<Holiday>, x: Holiday, j: int, rest: seq<Holiday>)
    requires 0 < j <= |t|
    ensures (Placed(t, x, j) + rest)[j - 1 := x][j := t[j - 1]] == Placed(t, x, j - 1) + rest
  {
    var u := (Placed(t, x, j) + rest)[j - 1 := x][j := t[j - 1]];
    var v := Placed(t, x, j - 1) + rest;
    assert |u| == |v|;
    forall k | 0 <= k < |u|
      ensures u[k] == v[k]
    {
      if k < j - 1 {
      } else if k == j - 1 {
      } else if k == j {
      } else if k <= |t| {
        assert u[k] == t[k - 1] == v[k];
      } else {
        assert u[k] == rest[k - |t| - 1] == v[k];
      }
    }
  }

  /** One step of the insertion: x moves left past a record with a later date. */
  lemma InsertPastLater(t: seq<Holiday>, x: Holiday, j: int)
    requires 0 < j <= |t| && DateKey(t[j - 1]) > DateKey(x)
    ensures InsertByDate(t[..j], x) + t[j..] == InsertByDate(t[..j - 1], x) + t[j - 1..]
  {
    assert t[..j][..j - 1] == t[..j - 1];
    assert t[j - 1..] == [t[j - 1]] + t[j..];
  }

  /** The insertion stops behind a record that is not later, or at the front. */
  lemma InsertStops(t: seq<Holiday>, x: Holiday, j: int)
    requires 0 <= j <= |t|
    requires j == 0 || DateKey(t[j - 1]) <= DateKey(x)
    ensures InsertByDate(t[..j], x) + t[j..] == Placed(t, x, j)
  {
  }

  /** The list `displayResult` prints: the national weekday holidays, sorted
      ascending by date, with holidays of the same date in their input order.
      It is a permutation of the counted selection. */
  method WeekdayHolidayList(hs: seq<Holiday>) returns (list: seq<Holiday>)
    ensures list == StableSort(NationalWeekdayHolidays(hs))
    ensures SortedByDate(list)
    ensures multiset(list) == multiset(NationalWeekdayHolidays(hs))
    ensures forall k :: OnDate(list, k) == OnDate(NationalWeekdayHolidays(hs), k)
    ensures |list| == |NationalWeekdayHolidays(hs)|
    ensures forall h :: h in list <==> h in hs && IsNationalWeekday(h)
  {
    var nationalHolidays := DisplayedHolidays(hs);
    var a := new Holiday[|nationalHolidays|](i requires 0 <= i < |nationalHolidays| => nationalHolidays[i]);
    assert a[..] == nationalHolidays by {
      forall i | 0 <= i < a.Length
        ensures a[..][i] == nationalHolidays[i]
      {
      }
    }
    SortByDate(a);
    list := a[..];
    FiltersAgree(hs);
    SortedSelection(hs, list);
  }

  /** What the sorted selection is: ordered by date, a permutation of the
      selection with same-date records in selection order, and holding exactly
      the national weekday holidays of the input. */
  lemma SortedSelection(hs: seq<Holiday>, list: seq<Holiday>)
    requires list == StableSort(NationalWeekdayHolidays(hs))
    ensures SortedByDate(list)
    ensures multiset(list) == multiset(NationalWeekdayHolidays(hs))
    ensures forall k :: OnDate(list, k) == OnDate(NationalWeekdayHolidays(hs), k)
    ensures |list| == |NationalWeekdayHolidays(hs)|
    ensures forall h :: h in list <==> h in hs && IsNationalWeekday(h)
  {
    var selection := NationalWeekdayHolidays(hs);
    StableSortSorted(selection);
    StableSortPermutes(selection);
    forall k ensures OnDate(list, k) == OnDate(selection, k) {
      StableSortKeepsTies(selection, k);
    }
    SameMembers(list, hs);
  }

  lemma SameMembers(list: seq<Holiday>, hs: seq<Holiday>)
    requires multiset(list) == multiset(NationalWeekdayHolidays(hs))
    ensures forall h :: h in list <==> h in hs && IsNationalWeekday(h)
  {
    FilterCounts(hs);
    forall h ensures h in list <==> h in hs && IsNationalWeekday(h) {
      assert h in list <==> multiset(list)[h] > 0;
      assert h in hs <==> multiset(hs)[h] > 0;
    }
  }
}
