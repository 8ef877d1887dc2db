/** The manual parse of a `YYYY-MM-DD` holiday date in `formatDateToIndonesian`:
    split the string at '-', read each of the first three parts with
    `parseInt(part, 10)`, and hand year, zero-based month and day to `Date.UTC`. */
module DateString {

  datatype Option<T> = None | Some(value: T)

  /** The arguments handed to `Date.UTC(year, monthIndex, day)`; monthIndex is
      zero-based, as JavaScript months are. */
  datatype UtcArgs = UtcArgs(year: int, monthIndex: int, day: int)

  /** `s.split('-')`: the pieces between separators, empty pieces included. */
  function Split(s: string): (parts: seq<string>)
    ensures |parts| >= 1
    ensures forall p :: p in parts ==> '-' !in p
  {
    if s == [] then [[]]
    else
      var rest := Split(s[1..]);
      if s[0] == '-' then [[]] + rest
      else [[s[0]] + rest[0]] + rest[1..]
  }

  /** `parts.join('-')` */
  function Join(parts: seq<string>): string
    requires |parts| >= 1
  {
    if |parts| == 1 then parts[0] else parts[0] + "-" + Join(parts[1..])
  }

  /** Splitting loses nothing: joining the pieces gives the string back. */
  lemma {:induction false} JoinSplit(s: string)
    ensures Join(Split(s)) == s
  {
    if s != [] {
      var rest := Split(s[1..]);
      JoinSplit(s[1..]);
      if s[0] == '-' {
        assert Split(s) == [[]] + rest;
        assert Split(s)[1..] == rest;
      } else {
        var parts := Split(s);
        assert parts == [[s[0]] + rest[0]] + rest[1..];
        if |rest| == 1 {
          assert Join(parts) == [s[0]] + rest[0];
        } else {
          assert parts[1..] == rest[1..];
          assert Join(parts) == [s[0]] + rest[0] + "-" + Join(rest[1..]);
        }
        assert s == [s[0]] + s[1..];
      }
    }
  }

  lemma {:induction false} SplitWithoutSeparator(a: string)
    requires '-' !in a
    ensures Split(a) == [a]
  {
    if a != [] {
      SplitWithoutSeparator(a[1..]);
      assert a == [a[0]] + a[1..];
    }
  }

  lemma {:induction false} SplitAtFirstSeparator(a: string, rest: string)
    requires '-' !in a
    ensures Split(a + "-" + rest) == [a] + Split(rest)
  {
    var s := a + "-" + rest;
    if a == [] {
      assert s == "-" + rest;
      assert s[1..] == rest;
    } else {
      assert s[1..] == a[1..] + "-" + rest;
      SplitAtFirstSeparator(a[1..], rest);
      assert a == [a[0]] + a[1..];
    }
  }

  /** Joining pieces that hold no separator and splitting again gives the pieces back. */
  lemma {:induction false} SplitJoin(parts: seq<string>)
    requires |parts| >= 1
    requires forall p :: p in parts ==> '-' !in p
    ensures Split(Join(parts)) == parts
  {
    if |parts| == 1 {
      SplitWithoutSeparator(parts[0]);
    } else {
      assert parts[0] in parts;
      assert forall p :: p in parts[1..] ==> p in parts;
      SplitJoin(parts[1..]);
      SplitAtFirstSeparator(parts[0], Join(parts[1..]));
      assert parts == [parts[0]] + parts[1..];
    }
  }

  predicate IsDigit(c: char) {
    '0' <= c <= '9'
  }

  /** Length of the run of decimal digits at the start of s. */
  function DigitRun(s: string): (n: nat)
    ensures n <= |s|
    ensures forall i :: 0 <= i < n ==> IsDigit(s[i])
    ensures n < |s| ==> !IsDigit(s[n])
  {
    if s == [] || !IsDigit(s[0]) then 0 else 1 + DigitRun(s[1..])
  }

  /** The value of a string of decimal digits, read left to right. */
  function DigitsValue(s: string): nat
    requires forall i :: 0 <= i < |s| ==> IsDigit(s[i])
  {
    if s == [] then 0
    else DigitsValue(s[..|s| - 1]) * 10 + DigitValue(s[|s| - 1])
  }

  function DigitValue(c: char): nat
    requires IsDigit(c)
  {
    c as int - '0' as int
  }

  /** `parseInt(s, 10)`: an optional sign, then the leading digits; anything
      after them is ignored, and no digits at all gives NaN (None). A string
      that does not start with a sign or a digit is NaN; only a leading '-'
      gives a negative number, and it never gives a positive one. */
  function ParseInt(s: string): (r: Option<int>)
    ensures s == [] || !(IsDigit(s[0]) || s[0] == '+' || s[0] == '-') ==> r.None?
    ensures r.Some? ==> s != [] && (r.value < 0 ==> s[0] == '-') && (s[0] == '-' ==> r.value <= 0)
    ensures s != [] && IsDigit(s[0]) ==> r.Some? && r.value >= 0
  {
    var negative := s != [] && s[0] == '-';
    var body := if s != [] && (s[0] == '+' || s[0] == '-') then s[1..] else s;
    var n := DigitRun(body);
    if n == 0 then None
    else
      var magnitude: int := DigitsValue(body[..n]);
      Some(if negative then -magnitude else magnitude)
  }

  /** The parse in `formatDateToIndonesian`. A missing part is `undefined`,
      which `parseInt` also reads as NaN; parts after the third are ignored.
      The month handed on is one less than the month written. */
  function ParseIsoDate(dateString: string): (r: Option<UtcArgs>)
    ensures r.Some? <==> (|Split(dateString)| >= 3 && ParseInt(Split(dateString)[0]).Some?
                          && ParseInt(Split(dateString)[1]).Some? && ParseInt(Split(dateString)[2]).Some?)
    ensures r.Some? ==> r.value.year == ParseInt(Split(dateString)[0]).value
    ensures r.Some? ==> r.value.monthIndex == ParseInt(Split(dateString)[1]).value - 1
    ensures r.Some? ==> r.value.day == ParseInt(Split(dateString)[2]).value
  {
    var parts := Split(dateString);
    var year := ParseInt(parts[0]);
    var month := if |parts| > 1 then ParseInt(parts[1]) else None;
    var day := if |parts| > 2 then ParseInt(parts[2]) else None;
    if year.Some? && month.Some? && day.Some? then
      Some(UtcArgs(year.value, month.value - 1, day.value))
    else None
  }

  function Pow10(w: nat): (p: nat)
    ensures p >= 1
  {
    if w == 0 then 1 else 10 * Pow10(w - 1)
  }

  /** n written with exactly w decimal digits, zero-padded on the left. */
  function Digits(n: nat, w: nat): (s: string)
    ensures |s| == w
    ensures forall i :: 0 <= i < w ==> IsDigit(s[i])
  {
    if w == 0 then [] else Digits(n / 10, w - 1) + [('0' as int + n % 10) as char]
  }

  /** The `YYYY-MM-DD` form the holiday provider writes. */
  function FormatIsoDate(y: nat, m: nat, d: nat): string {
    Digits(y, 4) + "-" + Digits(m, 2) + "-" + Digits(d, 2)
  }

  lemma {:induction false} DigitsValueOfDigits(n: nat, w: nat)
    requires n < Pow10(w)
    ensures DigitsValue(Digits(n, w)) == n
  {
    if w > 0 {
      var q, r := n / 10, n % 10;
      assert n == 10 * q + r && 0 <= r < 10;
      assert q < Pow10(w - 1);
      DigitsValueOfDigits(q, w - 1);
      var s := Digits(n, w);
      assert s == Digits(q, w - 1) + [('0' as int + r) as char];
      assert s[..w - 1] == Digits(q, w - 1);
      assert DigitValue(s[w - 1]) == r;
    }
  }

  lemma {:induction false} DigitRunOfDigits(s: string, rest: string)
    requires forall i :: 0 <= i < |s| ==> IsDigit(s[i])
    requires rest == [] || !IsDigit(rest[0])
    ensures DigitRun(s + rest) == |s|
  {
    if s != [] {
      assert (s + rest)[1..] == s[1..] + rest;
      DigitRunOfDigits(s[1..], rest);
    }
  }

  /** `parseInt` reads back a zero-padded number, leading zeros included, and
      stops at the first character that is not a digit. */
  lemma ParseIntOfDigits(n: nat, w: nat, rest: string)
    requires 1 <= w && n < Pow10(w)
    requires rest == [] || !IsDigit(rest[0])
    ensures ParseInt(Digits(n, w) + rest) == Some(n)
  {
    var s := Digits(n, w);
    DigitRunOfDigits(s, rest);
    DigitsValueOfDigits(n, w);
    assert (s + rest)[..w] == s;
  }

  lemma ParseIntOfPadded(n: nat, w: nat)
    requires 1 <= w && n < Pow10(w)
    ensures ParseInt(Digits(n, w)) == Some(n)
  {
    ParseIntOfDigits(n, w, []);
    assert Digits(n, w) + [] == Digits(n, w);
  }

  /** A date the provider writes as `YYYY-MM-DD` parses to its year, its month
      minus one, and its day; text after the day digits that holds no '-'
      and does not start with a digit (a time, say) is ignored. */
  lemma ParseFormattedDate(y: nat, m: nat, d: nat, rest: string)
    requires y <= 9999 && 1 <= m <= 12 && 1 <= d <= 31
    requires '-' !in rest && (rest == [] || !IsDigit(rest[0]))
    ensures ParseIsoDate(FormatIsoDate(y, m, d) + rest) == Some(UtcArgs(y, m - 1, d))
  {
    var ys, ms, dd := Digits(y, 4), Digits(m, 2), Digits(d, 2);
    NoSeparatorInDigits(ys);
    NoSeparatorInDigits(ms);
    NoSeparatorInDigits(dd);
    SplitDate(ys, ms, dd, rest);
    assert Pow10(4) == 10000 && Pow10(2) == 100;
    ParseIntOfPadded(y, 4);
    ParseIntOfPadded(m, 2);
    ParseIntOfDigits(d, 2, rest);
    ParseOfThreeParts(FormatIsoDate(y, m, d) + rest, ys, ms, dd + rest);
  }

  lemma SplitDate(ys: string, ms: string, dd: string, rest: string)
    requires '-' !in ys && '-' !in ms && '-' !in dd && '-' !in rest
    ensures Split(ys + "-" + ms + "-" + dd + rest) == [ys, ms, dd + rest]
  {
    var ds := dd + rest;
    var tail := ms + "-" + ds;
    SplitAtFirstSeparator(ms, ds);
    SplitWithoutSeparator(ds);
    SplitAtFirstSeparator(ys, tail);
    assert ys + "-" + ms + "-" + dd + rest == ys + "-" + tail;
  }

  lemma NoSeparatorInDigits(s: string)
    requires forall i :: 0 <= i < |s| ==> IsDigit(s[i])
    ensures '-' !in s
  {
  }

  lemma ParseOfThreeParts(dateString: string, a: string, b: string, c: string)
    requires Split(dateString) == [a, b, c]
    requires ParseInt(a).Some? && ParseInt(b).Some? && ParseInt(c).Some?
    ensures ParseIsoDate(dateString) == Some(UtcArgs(ParseInt(a).value, ParseInt(b).value - 1, ParseInt(c).value))
  {
    var r := ParseIsoDate(dateString);
    assert r.Some?;
    var u := r.value;
    assert u.year == ParseInt(a).value;
    assert u.monthIndex == ParseInt(b).value - 1;
    assert u.day == ParseInt(c).value;
  }

  /** With fewer than three parts, a part is `undefined`, read as NaN, and no
      date comes out. */
  lemma MissingPartIsNaN(a: string, b: string)
    requires '-' !in a && '-' !in b
    ensures ParseIsoDate(a) == None
    ensures ParseIsoDate(a + "-" + b) == None
  {
    SplitWithoutSeparator(a);
    SplitAtFirstSeparator(a, b);
    SplitWithoutSeparator(b);
  }
}
