/**
 * The colour domain of the game: eight named colours and the `Null`
 * sentinel, each carrying the string raw value the label shows.
 */
module Colors {

  datatype Option<T> = None | Some(value: T)

  datatype Color = Red | Blue | Yellow | Green | Pink | Orange | Black | Purple | Null

  /** The string raw value of each case; `Null` is the empty string. */
  function RawValue(c: Color): (s: string)
    ensures s == "" <==> c == Null
    ensures c != Null ==> |s| >= 3
  {
    match c
    case Red => "red"
    case Blue => "blue"
    case Yellow => "yellow"
    case Green => "green"
    case Pink => "pink"
    case Orange => "orange"
    case Black => "black"
    case Purple => "purple"
    case Null => ""
  }

  /**
   * The failable initialiser a string-backed enumeration has: the case whose
   * raw value is `s`, if any.
   */
  function FromRawValue(s: string): (r: Option<Color>)
    ensures r.Some? ==> RawValue(r.value) == s
  {
    if s == "red" then Some(Red)
    else if s == "blue" then Some(Blue)
    else if s == "yellow" then Some(Yellow)
    else if s == "green" then Some(Green)
    else if s == "pink" then Some(Pink)
    else if s == "orange" then Some(Orange)
    else if s == "black" then Some(Black)
    else if s == "purple" then Some(Purple)
    else if s == "" then Some(Null)
    else None
  }

  /** Reading back a raw value gives the case it came from. */
  lemma RawValueRoundTrip(c: Color)
    ensures FromRawValue(RawValue(c)) == Some(c)
  {
  }

  /** The nine raw values are pairwise distinct. */
  lemma RawValueInjective(a: Color, b: Color)
    ensures RawValue(a) == RawValue(b) ==> a == b
  {
    RawValueRoundTrip(a);
    RawValueRoundTrip(b);
  }
}
