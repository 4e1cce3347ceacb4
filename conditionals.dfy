/** The `if` expression of `foo(param)` and the `when`-with-type-test of `hasPrefix`. */
module Conditionals {

  /** The value the `if`/`else if`/`else` chain of `foo(param)` binds to `result`. */
  function Foo(param: int): (result: string)
    ensures result == "one" <==> param == 1
    ensures result == "two" <==> param == 2
    ensures result == "three" <==> param != 1 && param != 2
  {
    if param == 1 then "one"
    else if param == 2 then "two"
    else "three"
  }

  /** A Kotlin `Any`: either a `String` or some other object whose contents the
      `when` never looks at. */
  datatype AnyValue = StringValue(text: string) | OtherValue

  /** The constant `hasPrefix` tests for. */
  const Prefix: string := "prefix"

  /** `s.startsWith(p)`, compared character by character from the front. */
  function StartsWith(s: string, p: string): (r: bool)
    ensures r <==> |p| <= |s| && s[..|p|] == p
  {
    if p == [] then true
    else if s == [] then false
    else s[0] == p[0] && StartsWith(s[1..], p[1..])
  }

  /** `hasPrefix(x)`: `is String -> x.startsWith("prefix")`, `else -> false`. */
  function HasPrefix(x: AnyValue): (r: bool)
    ensures r <==> x.StringValue? && |x.text| >= 6 && x.text[..6] == "prefix"
  {
    match x
    case StringValue(s) => StartsWith(s, Prefix)
    case OtherValue => false
  }

  /** Prefixing a string with "prefix" always makes `hasPrefix` true, whatever follows. */
  lemma HasPrefixOfConcat(rest: string)
    ensures HasPrefix(StringValue(Prefix + rest))
  {
    assert (Prefix + rest)[..6] == Prefix;
  }
}
