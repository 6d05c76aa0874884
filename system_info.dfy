/** `SystemInfo`: the name/value pairs of a database's reserved `tb_sys_info`
    table, held in a dictionary. `DatabaseName` and `Version` are views of two
    of its entries; the version is stored as its decimal text. */
module SystemInfos {
  import opened Common
  import opened DatabaseErrors

  const VersionKey: string := "Version"
  const DatabaseNameKey: string := "DatabaseName"

  // ---- decimal text of a 32-bit integer (`int.ToString` / `Convert.ToInt32`) ----

  predicate IsDigit(c: char) { '0' <= c <= '9' }

  predicate AllDigits(s: string) {
    forall i :: 0 <= i < |s| ==> IsDigit(s[i])
  }

  function DigitChar(d: nat): (c: char)
    requires d < 10
    ensures IsDigit(c) && c as int - '0' as int == d
  {
    ('0' as int + d) as char
  }

  /** The decimal text of a natural number, without leading zeros. */
  function NatToString(n: nat): (s: string)
    ensures s != [] && AllDigits(s)
  {
    if n < 10 then [DigitChar(n)] else NatToString(n / 10) + [DigitChar(n % 10)]
  }

  /** The value of a run of decimal digits. */
  function DigitsValue(s: string): nat
    requires AllDigits(s)
  {
    if s == [] then 0
    else DigitsValue(s[..|s| - 1]) * 10 + (s[|s| - 1] as int - '0' as int)
  }

  /** `value.ToString(culture)` for an `int`. */
  function Int32ToString(v: int32): (s: string)
  {
    if v < 0 then "-" + NatToString(-(v as int)) else NatToString(v)
  }

  /** `Convert.ToInt32(text, culture)`: an optional sign followed by digits;
      other text is a `FormatException`, a value outside the 32-bit range an
      `OverflowException`. */
  function ParseInt32(s: string): (r: Result<int32, Exception>)
    ensures r.Success? ==> s != "" && (IsDigit(s[0]) || s[0] == '-' || s[0] == '+')
    ensures s == "" ==> r.Failure?
    ensures s != "" && AllDigits(s) ==>
      r == (if DigitsValue(s) <= MaxInt32 then Success(DigitsValue(s))
            else Failure(Other("OverflowException", s)))
    ensures |s| > 1 && s[0] == '-' && AllDigits(s[1..]) ==>
      if DigitsValue(s[1..]) <= -MinInt32 then r.Success? && r.value == -(DigitsValue(s[1..]) as int)
      else r == Failure(Other("OverflowException", s))
    ensures |s| > 1 && s[0] == '+' && AllDigits(s[1..]) && DigitsValue(s[1..]) <= MaxInt32 ==>
      r == Success(DigitsValue(s[1..]))
  {
    var negative := s != "" && s[0] == '-';
    var digits := if s != "" && (s[0] == '-' || s[0] == '+') then s[1..] else s;
    if digits == [] || !AllDigits(digits) then Failure(Other("FormatException", s))
    else
      var v: int := if negative then -(DigitsValue(digits) as int) else DigitsValue(digits);
      if MinInt32 <= v <= MaxInt32 then Success(v) else Failure(Other("OverflowException", s))
  }

  lemma {:induction false} DigitsOfNat(n: nat)
    ensures DigitsValue(NatToString(n)) == n
  {
    var s := NatToString(n);
    if n < 10 {
      assert s[..|s| - 1] == [];
    } else {
      DigitsOfNat(n / 10);
      assert s[..|s| - 1] == NatToString(n / 10);
    }
  }

  /** Writing a version as text and reading it back gives the version. */
  lemma {:induction false} Int32RoundTrip(v: int32)
    ensures ParseInt32(Int32ToString(v)) == Success(v)
  {
    var s := Int32ToString(v);
    if v < 0 {
      DigitsOfNat(-(v as int));
      assert s[1..] == NatToString(-(v as int));
    } else {
      DigitsOfNat(v);
      assert s[0] != '-' && s[0] != '+';
    }
  }

  // ---- the dictionary behind a SystemInfo ----

  /** The `DatabaseName` getter: a missing entry is a `KeyNotFoundException`. */
  function DatabaseNameOf(d: map<string, string>): (r: Result<string, Exception>)
    ensures r.Success? <==> DatabaseNameKey in d
    ensures r.Success? ==> r.value == d[DatabaseNameKey]
  {
    if DatabaseNameKey in d then Success(d[DatabaseNameKey])
    else Failure(Other("KeyNotFoundException", DatabaseNameKey))
  }

  /** The `Version` getter: the stored text parsed as a 32-bit integer. */
  function VersionOf(d: map<string, string>): (r: Result<int32, Exception>)
    ensures VersionKey !in d ==> r == Failure(Other("KeyNotFoundException", VersionKey))
    ensures VersionKey in d ==> r == ParseInt32(d[VersionKey])
  {
    if VersionKey in d then ParseInt32(d[VersionKey])
    else Failure(Other("KeyNotFoundException", VersionKey))
  }

  /** The `Version` setter stores the decimal text, so the getter returns the
      value set, and the `DatabaseName` entry is left alone. */
  lemma VersionSetThenGet(d: map<string, string>, v: int32)
    ensures VersionOf(d[VersionKey := Int32ToString(v)]) == Success(v)
    ensures DatabaseNameOf(d[VersionKey := Int32ToString(v)]) == DatabaseNameOf(d)
  {
    Int32RoundTrip(v);
  }

  /** `Add("Version", text)` is what the getter then parses. */
  lemma AddVersionIsParsed(d: map<string, string>, text: string)
    ensures VersionOf(d[VersionKey := text]) == ParseInt32(text)
  {
  }

  /** The `DatabaseName` setter: the getter returns the name set, and the
      `Version` entry is left alone. */
  lemma DatabaseNameSetThenGet(d: map<string, string>, name: string)
    ensures DatabaseNameOf(d[DatabaseNameKey := name]) == Success(name)
    ensures VersionOf(d[DatabaseNameKey := name]) == VersionOf(d)
  {
  }

  class SystemInfo {
    /** `_sysDict`. */
    var entries: map<string, string>

    /** `new SystemInfo()`: an empty dictionary. */
    constructor ()
      ensures entries == map[]
    {
      entries := map[];
    }

    /** `new SystemInfo(databaseName)`: the dictionary holds the name only. */
    constructor WithDatabaseName(databaseName: string)
      ensures entries == map[DatabaseNameKey := databaseName]
      ensures DatabaseName() == Success(databaseName)
    {
      entries := map[DatabaseNameKey := databaseName];
    }

    function DatabaseName(): Result<string, Exception>
      reads this
    {
      DatabaseNameOf(entries)
    }

    function Version(): Result<int32, Exception>
      reads this
    {
      VersionOf(entries)
    }

    method SetDatabaseName(value: string)
      modifies this
      ensures entries == old(entries)[DatabaseNameKey := value]
      ensures DatabaseName() == Success(value) && Version() == old(Version())
    {
      entries := entries[DatabaseNameKey := value];
    }

    method SetVersion(value: int32)
      modifies this
      ensures entries == old(entries)[VersionKey := Int32ToString(value)]
      ensures Version() == Success(value) && DatabaseName() == old(DatabaseName())
    {
      entries := entries[VersionKey := Int32ToString(value)];
      VersionSetThenGet(old(entries), value);
    }

    /** `Add(name, value)` overwrites any existing entry. */
    method Add(name: string, value: string)
      modifies this
      ensures entries == old(entries)[name := value]
      ensures forall k :: k in old(entries) && k != name ==> entries[k] == old(entries)[k]
    {
      entries := entries[name := value];
    }
  }
}
