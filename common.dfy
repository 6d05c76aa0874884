/** Shared vocabulary of the model: optional values and results (the source's
    nullable references and thrown exceptions), the integer widths of C#, and
    the small text operations the framework relies on. */
module Common {

  datatype Option<+T> = None | Some(value: T)

  /** The outcome of an operation that may throw: `Failure` carries what was thrown. */
  datatype Result<+T, +E> = Success(value: T) | Failure(error: E)

  const MinInt32: int := -0x8000_0000
  const MaxInt32: int := 0x7fff_ffff
  const MinInt64: int := -0x8000_0000_0000_0000
  const MaxInt64: int := 0x7fff_ffff_ffff_ffff

  type int32 = x: int | MinInt32 <= x <= MaxInt32
  type int64 = x: int | MinInt64 <= x <= MaxInt64

  /** Unchecked C# `int` arithmetic: the result is reduced into the 32-bit range. */
  function Wrap32(x: int): (r: int32)
    ensures MinInt32 <= x <= MaxInt32 ==> r == x
    ensures (r - x) % 0x1_0000_0000 == 0
  {
    var m := (x - MinInt32) % 0x1_0000_0000;
    m + MinInt32
  }

  /** Unchecked C# `long` arithmetic. */
  function Wrap64(x: int): (r: int64)
    ensures MinInt64 <= x <= MaxInt64 ==> r == x
    ensures (r - x) % 0x1_0000_0000_0000_0000 == 0
  {
    var m := (x - MinInt64) % 0x1_0000_0000_0000_0000;
    m + MinInt64
  }

  /** A C# `string?`: `None` is null. */
  type NString = Option<string>

  predicate IsNullOrEmpty(s: NString) {
    s.None? || s.value == ""
  }

  /** Lower-casing of one character; only the ASCII letters are folded. */
  function LowerChar(c: char): (r: char)
    ensures 'A' <= c <= 'Z' ==> 'a' <= r <= 'z'
    ensures !('A' <= c <= 'Z') ==> r == c
  {
    if 'A' <= c <= 'Z' then (c as int + 32) as char else c
  }

  function Lower(s: string): (r: string)
    ensures |r| == |s|
    ensures forall i :: 0 <= i < |s| ==> r[i] == LowerChar(s[i])
  {
    if s == [] then [] else [LowerChar(s[0])] + Lower(s[1..])
  }

  /** `a.Equals(b, ComparisonIgnoreCase)` on two non-null strings. */
  predicate EqualsIgnoreCase(a: string, b: string) {
    Lower(a) == Lower(b)
  }

  lemma EqualsIgnoreCaseIsEquivalence(a: string, b: string, c: string)
    ensures EqualsIgnoreCase(a, a)
    ensures EqualsIgnoreCase(a, b) ==> EqualsIgnoreCase(b, a)
    ensures EqualsIgnoreCase(a, b) && EqualsIgnoreCase(b, c) ==> EqualsIgnoreCase(a, c)
  {
  }

  predicate EndsWith(s: string, suffix: string) {
    |suffix| <= |s| && s[|s| - |suffix|..] == suffix
  }

  /** Items separated by `sep`: what a `StringBuilder` holds after appending
      `item + sep` for each item and then removing the last character when it
      is not empty (for a one-character separator). */
  function Join(items: seq<string>, sep: string): (r: string)
  {
    if items == [] then ""
    else if |items| == 1 then items[0]
    else items[0] + sep + Join(items[1..], sep)
  }

  /** The text of the builder before its trailing separator is trimmed. */
  function Terminated(items: seq<string>, sep: string): string
  {
    if items == [] then "" else items[0] + sep + Terminated(items[1..], sep)
  }

  lemma {:induction false} TerminatedSnoc(items: seq<string>, x: string, sep: string)
    ensures Terminated(items + [x], sep) == Terminated(items, sep) + x + sep
  {
    if items == [] {
      assert items + [x] == [x];
    } else {
      assert (items + [x])[1..] == items[1..] + [x];
      TerminatedSnoc(items[1..], x, sep);
    }
  }

  /** Removing the last character of the terminated text yields the joined text. */
  lemma {:induction false} TrimTerminated(items: seq<string>, c: char)
    requires items != []
    ensures |Terminated(items, [c])| > 0
    ensures Terminated(items, [c])[..|Terminated(items, [c])| - 1] == Join(items, [c])
  {
    if |items| == 1 {
      assert Terminated(items[1..], [c]) == "";
      assert Terminated(items, [c]) == items[0] + [c];
    } else {
      TrimTerminated(items[1..], c);
      var t := Terminated(items[1..], [c]);
      assert Terminated(items, [c]) == items[0] + [c] + t;
      assert (items[0] + [c] + t)[..|items[0] + [c] + t| - 1] == items[0] + [c] + t[..|t| - 1];
    }
  }

  /** When no item ends with the separator character and none is empty,
      the joined text does not end with it. */
  lemma {:induction false} JoinHasNoTrailingSeparator(items: seq<string>, c: char)
    requires forall i :: 0 <= i < |items| ==> items[i] != "" && items[i][|items[i]| - 1] != c
    ensures var j := Join(items, [c]); j == "" || j[|j| - 1] != c
  {
    if |items| > 1 {
      JoinHasNoTrailingSeparator(items[1..], c);
      var rest := Join(items[1..], [c]);
      assert rest != "" by { NonEmptyJoin(items[1..], c); }
      assert (items[0] + [c] + rest)[|items[0] + [c] + rest| - 1] == rest[|rest| - 1];
    }
  }

  lemma {:induction false} NonEmptyJoin(items: seq<string>, c: char)
    requires items != [] && items[0] != ""
    ensures Join(items, [c]) != ""
  {
  }

  /** A prefix one longer is the prefix with the next element appended. */
  lemma PrefixSnoc<T>(s: seq<T>, i: nat)
    requires i < |s|
    ensures s[..i + 1] == s[..i] + [s[i]]
  {
  }
}
