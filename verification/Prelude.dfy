/** Result types and the string operations of the runtime that several components share. */
module Prelude {

  datatype Option<+T> = None | Some(value: T) {
    function GetOr(default: T): T {
      match this
      case Some(v) => v
      case None => default
    }
  }

  datatype Result<+T, +E> = Ok(value: T) | Err(error: E)

  /** An optional text counts only when it is there and not empty. */
  function Truthy(o: Option<string>): Option<string> {
    if o.Some? && o.value != "" then o else None
  }

  function CeilDiv(a: int, b: int): int
    requires b > 0
  {
    -((-a) / b)
  }

  /** `s.split(sep)` for a separator of one character. */
  function Split(s: string, sep: char): (parts: seq<string>)
    ensures |parts| >= 1
    ensures forall i :: 0 <= i < |parts| ==> sep !in parts[i]
  {
    if s == "" then [""]
    else
      var rest := Split(s[1..], sep);
      if s[0] == sep then [""] + rest else [[s[0]] + rest[0]] + rest[1..]
  }

  /** `parts.join(sep)` */
  function Join(parts: seq<string>, sep: string): string {
    if parts == [] then ""
    else if |parts| == 1 then parts[0]
    else parts[0] + sep + Join(parts[1..], sep)
  }

  /** Splitting undoes joining when no part holds the separator. */
  lemma {:induction false} SplitJoin(parts: seq<string>, sep: char)
    requires |parts| >= 1 && forall i :: 0 <= i < |parts| ==> sep !in parts[i]
    ensures Split(Join(parts, [sep]), sep) == parts
  {
    if |parts| == 1 {
      SplitPrefix(parts[0], "", sep);
      assert parts[0] + "" == parts[0];
      assert Split("", sep) == [""];
    } else {
      var rest := Join(parts[1..], [sep]);
      SplitJoin(parts[1..], sep);
      SplitPrefix(parts[0], [sep] + rest, sep);
      assert ([sep] + rest)[1..] == rest;
      assert parts[0] + [sep] + rest == parts[0] + ([sep] + rest);
      assert Split([sep] + rest, sep) == [""] + parts[1..];
      assert parts[0] + "" == parts[0] && [parts[0]] + parts[1..] == parts;
    }
  }

  lemma {:induction false} SplitPrefix(a: string, s: string, sep: char)
    requires sep !in a
    ensures Split(a + s, sep) == [a + Split(s, sep)[0]] + Split(s, sep)[1..]
  {
    var parts := Split(s, sep);
    if a == "" {
      assert a + s == s && a + parts[0] == parts[0] && [parts[0]] + parts[1..] == parts;
    } else {
      hide Split;
      assert (a + s)[1..] == a[1..] + s;
      SplitPrefix(a[1..], s, sep);
      SplitStep(a + s, sep);
      assert [a[0]] + (a[1..] + parts[0]) == a + parts[0];
    }
  }

  lemma SplitStep(s: string, sep: char)
    requires s != "" && s[0] != sep
    ensures var rest := Split(s[1..], sep); Split(s, sep) == [[s[0]] + rest[0]] + rest[1..]
  {
  }

  /** `r` are the elements of `s` at the increasing positions `at`. */
  predicate Picks<T(==)>(s: seq<T>, at: seq<nat>, r: seq<T>) {
    && |at| == |r|
    && (forall k :: 0 <= k < |at| ==> at[k] < |s| && r[k] == s[at[k]])
    && (forall j, k :: 0 <= j < k < |at| ==> at[j] < at[k])
  }

  lemma NothingPicked<T>()
    ensures Picks<T>([], [], [])
  {
  }

  lemma PickOneMore<T>(s: seq<T>, at: seq<nat>, r: seq<T>)
    requires s != [] && Picks(s[..|s| - 1], at, r)
    ensures var n := |s| - 1; Picks(s, at, r) && Picks(s, at + [n], r + [s[n]]) && n !in at
  {
  }
}
