/** The parts of the .NET base library that the configuration client relies on:
    nullable string references, `Char.IsWhiteSpace`, `String.Trim`,
    `String.IsNullOrEmpty`, `String.IsNullOrWhiteSpace`, the `??` operator,
    ordinal case-insensitive comparison, and the exceptions that can arise. */
module Runtime {
  import opened Wrappers

  /** A .NET `string` reference: `None` stands for `null`. */
  type Str = Option<string>

  /** The exceptions the modelled code throws or catches. */
  datatype Exception =
    | ArgumentException(message: string)
    | NullReferenceException
    | RemoteCallFailed  // any transport or deserialisation failure of a remote call

  /** `Char.IsWhiteSpace`: the Unicode space, line and paragraph separators,
      the ASCII control characters 9 to 13, U+0085 and U+00A0. */
  predicate IsWhiteSpace(c: char) {
    var n := c as int;
    n == 0x20 || 0x09 <= n <= 0x0D || n == 0x85 || n == 0xA0 || n == 0x1680
    || 0x2000 <= n <= 0x200A || n == 0x2028 || n == 0x2029 || n == 0x202F
    || n == 0x205F || n == 0x3000
  }

  /** Every character of `s` is white space (true of the empty string). */
  predicate IsBlank(s: string) {
    forall i :: 0 <= i < |s| ==> IsWhiteSpace(s[i])
  }

  /** Drops leading white space: the result is the suffix of `s` that starts
      at its first non-white-space character. */
  function TrimStart(s: string): (r: string)
    ensures |r| <= |s| && r == s[|s| - |r|..]
    ensures forall i :: 0 <= i < |s| - |r| ==> IsWhiteSpace(s[i])
    ensures r == [] || !IsWhiteSpace(r[0])
  {
    if s != [] && IsWhiteSpace(s[0]) then
      var r := TrimStart(s[1..]);
      assert forall i :: 1 <= i < |s| - |r| ==> s[1..][i - 1] == s[i];
      r
    else
      s
  }

  /** Drops trailing white space: the result is the prefix of `s` that ends
      at its last non-white-space character. */
  function TrimEnd(s: string): (r: string)
    ensures |r| <= |s| && r == s[..|r|]
    ensures forall i :: |r| <= i < |s| ==> IsWhiteSpace(s[i])
    ensures r == [] || !IsWhiteSpace(r[|r| - 1])
  {
    if s != [] && IsWhiteSpace(s[|s| - 1]) then
      var r := TrimEnd(s[..|s| - 1]);
      assert forall i :: |r| <= i < |s| - 1 ==> s[..|s| - 1][i] == s[i];
      r
    else
      s
  }

  /** `String.Trim()`: removes white space at both ends. */
  function Trim(s: string): (r: string)
    ensures r == [] || (!IsWhiteSpace(r[0]) && !IsWhiteSpace(r[|r| - 1]))
  {
    TrimEnd(TrimStart(s))
  }

  /** A string trims to `""` exactly when it consists of white space only:
      the `Trim() == string.Empty` test and `IsNullOrWhiteSpace` agree on
      non-null strings. */
  lemma TrimEmptyIffBlank(s: string)
    ensures Trim(s) == "" <==> IsBlank(s)
  {
    var t := TrimStart(s);
    if Trim(s) == "" {
      assert t == [];
    }
  }

  /** `String.IsNullOrEmpty`. */
  predicate IsNullOrEmpty(s: Str) {
    s == None || s == Some("")
  }

  /** `String.IsNullOrWhiteSpace`. */
  predicate IsNullOrWhiteSpace(s: Str)
    ensures IsNullOrWhiteSpace(s) <==> s.None? || Trim(s.value) == ""
  {
    s == None || (TrimEmptyIffBlank(s.value); IsBlank(s.value))
  }

  /** `s ?? ""`. */
  function OrEmpty(s: Str): string {
    match s
    case Some(v) => v
    case None => ""
  }

  /** Upper-case mapping used by the ordinal case-insensitive comparison,
      for the ASCII letters. */
  function ToUpperAscii(c: char): char {
    if 'a' <= c <= 'z' then (c as int - 32) as char else c
  }

  /** `String.Equals(a, b, StringComparison.OrdinalIgnoreCase)` restricted to
      ASCII case folding: equal lengths and equal characters once both are
      upper-cased. */
  predicate EqualsIgnoreCase(a: string, b: string) {
    |a| == |b| && forall i :: 0 <= i < |a| ==> ToUpperAscii(a[i]) == ToUpperAscii(b[i])
  }

  /** The comparison is an equivalence: reflexive, symmetric and transitive. */
  lemma EqualsIgnoreCaseEquivalence(a: string, b: string, c: string)
    ensures EqualsIgnoreCase(a, a)
    ensures EqualsIgnoreCase(a, b) ==> EqualsIgnoreCase(b, a)
    ensures EqualsIgnoreCase(a, b) && EqualsIgnoreCase(b, c) ==> EqualsIgnoreCase(a, c)
  {
  }
}
