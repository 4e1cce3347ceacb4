/** The colour-code table of `transform` and its single-expression twin `transform2`. */
module Colors {
  import opened Wrappers

  const InvalidColor: Exception := IllegalArgumentException("Invalid color param value")

  /** `transform(color)`: a `when` over the three colour names; anything else throws. */
  function Transform(color: string): (r: Result<int>)
    ensures r == Ok(0) <==> color == "Red"
    ensures r == Ok(1) <==> color == "Green"
    ensures r == Ok(2) <==> color == "Blue"
    ensures r.Thrown? <==> color !in {"Red", "Green", "Blue"}
    ensures r.Thrown? ==> r.exception == InvalidColor
  {
    match color
    case "Red" => Ok(0)
    case "Green" => Ok(1)
    case "Blue" => Ok(2)
    case _ => Thrown(InvalidColor)
  }

  /** `transform2(color)`: the same table written as a single-expression function. */
  function Transform2(color: string): (r: Result<int>)
    ensures r.Ok? ==> 0 <= r.value <= 2
    ensures r.Thrown? ==> r.exception == InvalidColor
  {
    match color
    case "Red" => Ok(0)
    case "Green" => Ok(1)
    case "Blue" => Ok(2)
    case _ => Thrown(InvalidColor)
  }

  /** The colour a code stands for: the inverse table, used as an independent reference. */
  function ColorName(code: int): (r: Option<string>)
  {
    if code == 0 then Some("Red")
    else if code == 1 then Some("Green")
    else if code == 2 then Some("Blue")
    else None
  }

  /** Both functions agree on every string. */
  lemma TransformsAgree(color: string)
    ensures Transform2(color) == Transform(color)
  {
  }

  /** Decoding a colour name and encoding the code back gives the name again, and the
      only strings that decode are the names of the three codes. */
  lemma TransformInvertsColorName(color: string, code: int)
    ensures Transform(color) == Ok(code) <==> ColorName(code) == Some(color)
  {
  }

  /** Every code the table produces lies in 0..2, and every code in 0..2 is produced. */
  lemma TransformOnto(code: int)
    requires 0 <= code <= 2
    ensures exists color :: Transform(color) == Ok(code)
  {
    assert Transform(ColorName(code).value) == Ok(code);
  }
}
