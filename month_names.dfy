/** The two month-name lookups: `monthNameToNumber` (English name in any letter
    case to 1 .. 12, otherwise 0) and `getMonthName` (Title-case English name to
    the Indonesian name, otherwise the input). Both read a property of a plain
    object literal, so they are modelled twice: as written, where a key that
    names a member inherited from `Object.prototype` also finds a value, and
    as intended, where only the object's own twelve keys do. */
module MonthNames {

  /** The keys of the object in `monthNameToNumber`, in month order. */
  const MONTH_KEYS: seq<string> := [
    "january", "february", "march", "april", "may", "june",
    "july", "august", "september", "october", "november", "december"]

  /** The keys of the object in `getMonthName`, in month order. */
  const TITLE_NAMES: seq<string> := [
    "January", "February", "March", "April", "May", "June",
    "July", "August", "September", "October", "November", "December"]

  /** The values of the object in `getMonthName`, in month order. */
  const INDONESIAN_NAMES: seq<string> := [
    "Januari", "Februari", "Maret", "April", "Mei", "Juni",
    "Juli", "Agustus", "September", "Oktober", "November", "Desember"]

  const MONTH_NUMBERS: map<string, int> := map[
    "january" := 1, "february" := 2, "march" := 3, "april" := 4,
    "may" := 5, "june" := 6, "july" := 7, "august" := 8,
    "september" := 9, "october" := 10, "november" := 11, "december" := 12]

  const INDONESIAN_BY_TITLE: map<string, string> := map[
    "January" := "Januari", "February" := "Februari", "March" := "Maret", "April" := "April",
    "May" := "Mei", "June" := "Juni", "July" := "Juli", "August" := "Agustus",
    "September" := "September", "October" := "Oktober", "November" := "November", "December" := "Desember"]

  /** Property names every object literal inherits from `Object.prototype`. */
  const OBJECT_PROTOTYPE_KEYS: set<string> := {
    "constructor", "__proto__", "hasOwnProperty", "isPrototypeOf",
    "propertyIsEnumerable", "toString", "toLocaleString", "valueOf",
    "__defineGetter__", "__defineSetter__", "__lookupGetter__", "__lookupSetter__"}

  /** `toLowerCase` on one character; only ASCII letters change. */
  function ToLowerChar(c: char): char {
    if 'A' <= c <= 'Z' then (c as int - 'A' as int + 'a' as int) as char else c
  }

  /** `toUpperCase` on one character; only ASCII letters change. */
  function ToUpperChar(c: char): char {
    if 'a' <= c <= 'z' then (c as int - 'a' as int + 'A' as int) as char else c
  }

  function ToLower(s: string): string {
    seq(|s|, i requires 0 <= i < |s| => ToLowerChar(s[i]))
  }

  /** `toTitleCase` on a single word: first letter upper case, the rest lower
      case. Only the letter case changes. */
  function TitleCaseWord(s: string): (r: string)
    ensures |r| == |s|
    ensures ToLower(r) == ToLower(s)
    ensures forall i :: 1 <= i < |r| ==> !('A' <= r[i] <= 'Z')
    ensures r != [] ==> !('a' <= r[0] <= 'z')
  {
    if s == [] then []
    else
      var r := [ToUpperChar(s[0])] + ToLower(s[1..]);
      assert ToLower(r)[0] == ToLower(s)[0];
      assert forall i :: 1 <= i < |s| ==> ToLower(r)[i] == ToLowerChar(ToLowerChar(s[i])) == ToLower(s)[i];
      r
  }

  // ---- Intended behaviour: only the objects' own keys are looked up ----

  /** `monthNameToNumber`: the position of the lower-cased name among the
      twelve month names, or 0 when it is none of them. */
  function MonthNameToNumber(monthName: string): (n: int)
    ensures 0 <= n <= 12
    ensures n >= 1 ==> ToLower(monthName) == MONTH_KEYS[n - 1]
    ensures n == 0 ==> ToLower(monthName) !in MONTH_KEYS
  {
    var key := ToLower(monthName);
    if key in MONTH_NUMBERS then MONTH_NUMBERS[key] else 0
  }

  /** `getMonthName`: the Indonesian name of a Title-case English month name;
      any other input comes back unchanged. */
  function IndonesianMonthName(monthName: string): (r: string)
    ensures forall k :: 0 <= k < 12 && monthName == TITLE_NAMES[k] ==> r == INDONESIAN_NAMES[k]
    ensures monthName !in TITLE_NAMES ==> r == monthName
  {
    if monthName in INDONESIAN_BY_TITLE then INDONESIAN_BY_TITLE[monthName] else monthName
  }

  /** A name gives month number k exactly when, lower-cased, it is the k-th
      month name; letter case is ignored. */
  lemma MonthNumberOfName(monthName: string, k: int)
    requires 1 <= k <= 12
    ensures MonthNameToNumber(monthName) == k <==> ToLower(monthName) == MONTH_KEYS[k - 1]
  {
    var n := MonthNameToNumber(monthName);
    if ToLower(monthName) == MONTH_KEYS[k - 1] {
      assert MONTH_KEYS[k - 1] in MONTH_KEYS;
      assert n >= 1;
      DistinctKeys(n - 1, k - 1);
    }
  }

  lemma DistinctKeys(i: int, j: int)
    requires 0 <= i < 12 && 0 <= j < 12
    requires MONTH_KEYS[i] == MONTH_KEYS[j]
    ensures i == j
  {
  }

  lemma TitleCaseOfKey(k: int)
    requires 0 <= k < 12
    ensures TITLE_NAMES[k] == [ToUpperChar(MONTH_KEYS[k][0])] + MONTH_KEYS[k][1..]
  {
  }

  /** The month shown in the result heading, `getMonthName(toTitleCase(monthName))`,
      is the Indonesian name of the month whose number `monthNameToNumber` gave. */
  lemma HeadingMatchesMonthNumber(monthName: string)
    requires MonthNameToNumber(monthName) >= 1
    ensures IndonesianMonthName(TitleCaseWord(monthName)) == INDONESIAN_NAMES[MonthNameToNumber(monthName) - 1]
  {
    var k := MonthNameToNumber(monthName) - 1;
    var key := MONTH_KEYS[k];
    assert ToLower(monthName) == key;
    assert |monthName| == |key| > 0;
    assert ToUpperChar(monthName[0]) == ToUpperChar(key[0]) by {
      assert ToLowerChar(monthName[0]) == key[0];
    }
    assert ToLower(monthName[1..]) == key[1..] by {
      forall i | 0 <= i < |key| - 1
        ensures ToLower(monthName[1..])[i] == key[1..][i]
      {
        assert ToLower(monthName)[i + 1] == key[i + 1];
      }
    }
    TitleCaseOfKey(k);
    assert TitleCaseWord(monthName) == TITLE_NAMES[k];
  }

  // ---- As written: a lookup on a plain object also finds inherited members ----

  /** The JavaScript values these lookups can produce. */
  datatype JsValue = Undefined | Number(n: int) | Text(s: string) | InheritedMember(key: string)

  /** ToBoolean, for the values above. */
  predicate Truthy(v: JsValue) {
    match v
    case Undefined => false
    case Number(n) => n != 0
    case Text(s) => s != []
    case InheritedMember(_) => true
  }

  /** `object[key]` on an object literal with the given own properties. */
  function Property(own: map<string, JsValue>, key: string): JsValue {
    if key in own then own[key]
    else if key in OBJECT_PROTOTYPE_KEYS then InheritedMember(key)
    else Undefined
  }

  /** `a || b` */
  function Or(a: JsValue, b: JsValue): JsValue {
    if Truthy(a) then a else b
  }

  function MonthNumberObject(): map<string, JsValue> {
    map key | key in MONTH_NUMBERS :: Number(MONTH_NUMBERS[key])
  }

  function IndonesianObject(): map<string, JsValue> {
    map key | key in INDONESIAN_BY_TITLE :: Text(INDONESIAN_BY_TITLE[key])
  }

  /** `months[monthName.toLowerCase()] || 0` exactly as written. The answer is
      a month number 1 .. 12 or 0, unless the lower-cased name is an inherited key. */
  function MonthNameToNumberAsWritten(monthName: string): (r: JsValue)
    ensures r.Number? || r.InheritedMember?
    ensures r.Number? ==> 0 <= r.n <= 12
    ensures r.InheritedMember? ==> ToLower(monthName) in OBJECT_PROTOTYPE_KEYS
  {
    Or(Property(MonthNumberObject(), ToLower(monthName)), Number(0))
  }

  /** `months[monthName] || monthName` exactly as written. The answer is a
      string, unless the name is an inherited key. */
  function GetMonthNameAsWritten(monthName: string): (r: JsValue)
    ensures r.Text? || r.InheritedMember?
    ensures r.InheritedMember? ==> monthName in OBJECT_PROTOTYPE_KEYS
  {
    Or(Property(IndonesianObject(), monthName), Text(monthName))
  }

  /** As written, "Constructor" lower-cases to an inherited key, and the lookup
      returns the `Object` constructor instead of a number in 0 .. 12. */
  lemma MonthNumberEscapesRange()
    ensures MonthNameToNumberAsWritten("Constructor") == InheritedMember("constructor")
  {
    assert ToLower("Constructor") == "constructor";
  }

  /** As written, "__proto__", which the heading's `toTitleCase` leaves as it is,
      is answered with the inherited `Object.prototype` instead of the unchanged input. */
  lemma MonthNameEscapesFallback()
    ensures TitleCaseWord("__proto__") == "__proto__"
    ensures GetMonthNameAsWritten(TitleCaseWord("__proto__")) == InheritedMember("__proto__")
  {
    assert ToLower("_proto__") == "_proto__";
  }

  /** Away from the inherited keys, the code as written and the intended lookup agree. */
  lemma MonthNumberAsWrittenAgrees(monthName: string)
    requires ToLower(monthName) !in OBJECT_PROTOTYPE_KEYS
    ensures MonthNameToNumberAsWritten(monthName) == Number(MonthNameToNumber(monthName))
  {
  }

  lemma MonthNameAsWrittenAgrees(monthName: string)
    requires monthName !in OBJECT_PROTOTYPE_KEYS
    ensures GetMonthNameAsWritten(monthName) == Text(IndonesianMonthName(monthName))
  {
  }
}
