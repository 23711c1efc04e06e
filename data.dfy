/**
 * Well names of a 14 x 22 plate ("B02", "O23"): the row is a letter, the
 * column a two-character decimal number.  Python's `str.lower`, `ord` and
 * `int` are modelled for ASCII text.
 */
module Data {
  import opened Outcomes

  /** The exceptions `well_coordinate` can raise. */
  datatype WellError =
    | AssertionError  // the name is not three characters long
    | ValueError      // characters 1-2 are not an integer literal

  /** Number of columns of the plate, used by `well_index`. */
  const PlateColumns := 22

  /** Python's `str.lower` on one character, for ASCII letters. */
  function Lower(c: char): (r: char)
    ensures 'A' <= c <= 'Z' ==> 'a' <= r <= 'z' && r as int - c as int == 32
    ensures !('A' <= c <= 'Z') ==> r == c
  {
    if 'A' <= c <= 'Z' then (c as int + 32) as char else c
  }

  predicate IsDigit(c: char) { '0' <= c <= '9' }

  /** The whitespace characters Python's `int` strips from its argument (ASCII). */
  predicate IsSpace(c: char) {
    c == ' ' || c == '\t' || c == '\n' || c == '\r' || c == '\U{B}' || c == '\U{C}'
  }

  function DigitValue(c: char): (d: int)
    requires IsDigit(c)
    ensures 0 <= d <= 9
  {
    c as int - '0' as int
  }

  /**
   * Python's `int(s)` for a two-character string: two digits, a sign and a
   * digit, or one digit padded with whitespace on either side.
   */
  function ParseTwo(s: string): (r: Result<int, WellError>)
    requires |s| == 2
    ensures r.Ok? ==> -9 <= r.value <= 99
    ensures IsDigit(s[0]) && IsDigit(s[1]) ==> r == Ok(10 * DigitValue(s[0]) + DigitValue(s[1]))
    ensures !IsDigit(s[0]) && !IsDigit(s[1]) ==> r == Err(ValueError)
  {
    if IsDigit(s[0]) && IsDigit(s[1]) then Ok(10 * DigitValue(s[0]) + DigitValue(s[1]))
    else if s[0] == '+' && IsDigit(s[1]) then Ok(DigitValue(s[1]))
    else if s[0] == '-' && IsDigit(s[1]) then Ok(-DigitValue(s[1]))
    else if IsSpace(s[0]) && IsDigit(s[1]) then Ok(DigitValue(s[1]))
    else if IsDigit(s[0]) && IsSpace(s[1]) then Ok(DigitValue(s[0]))
    else Err(ValueError)
  }

  /**
   * `well_coordinate`: (row, column) of a well name.  The row is the
   * 1-based, case-insensitive alphabet position of the first character
   * ('A' -> 1, 'B' -> 2); the column is the integer value of the rest.
   */
  function WellCoordinate(well: string): (r: Result<(int, int), WellError>)
    ensures |well| != 3 <==> r == Err(AssertionError)
    ensures r.Ok? ==> r.value.0 == Lower(well[0]) as int - 96
    ensures |well| == 3 ==> (r.Ok? <==> ParseTwo(well[1..]).Ok?)
    ensures r.Ok? && 'A' <= well[0] <= 'Z' ==> r.value.0 == well[0] as int - 'A' as int + 1
    ensures r.Ok? && 'a' <= well[0] <= 'z' ==> r.value.0 == well[0] as int - 'a' as int + 1
    ensures r.Ok? && IsDigit(well[1]) && IsDigit(well[2]) ==>
              r.value.1 == 10 * DigitValue(well[1]) + DigitValue(well[2])
  {
    if |well| != 3 then Err(AssertionError)
    else
      match ParseTwo(well[1..])
      case Err(e) => Err(e)
      case Ok(col) => Ok((Lower(well[0]) as int - 96, col))
  }

  /** `well_index`: row * 22 + column, or the error of `well_coordinate`. */
  function WellIndex(well: string): (r: Result<int, WellError>)
    ensures WellCoordinate(well).Err? ==> r == Err(WellCoordinate(well).error)
    ensures WellCoordinate(well).Ok? ==>
              r == Ok(WellCoordinate(well).value.0 * PlateColumns + WellCoordinate(well).value.1)
  {
    match WellCoordinate(well)
    case Err(e) => Err(e)
    case Ok(rc) => Ok(rc.0 * PlateColumns + rc.1)
  }

  /** The canonical name of a well: upper-case row letter and a two-digit column. */
  function WellName(row: int, col: int): (w: string)
    requires 1 <= row <= 26 && 0 <= col <= 99
    ensures |w| == 3 && 'A' <= w[0] <= 'Z' && IsDigit(w[1]) && IsDigit(w[2])
  {
    [('A' as int + row - 1) as char, ('0' as int + col / 10) as char, ('0' as int + col % 10) as char]
  }

  /** Parsing a canonical well name gives back its row and column. */
  lemma WellCoordinateOfName(row: int, col: int)
    requires 1 <= row <= 26 && 0 <= col <= 99
    ensures WellCoordinate(WellName(row, col)) == Ok((row, col))
    ensures WellIndex(WellName(row, col)) == Ok(row * PlateColumns + col)
  {
    var w := WellName(row, col);
    assert w[1..] == [w[1], w[2]];
    assert 10 * DigitValue(w[1]) + DigitValue(w[2]) == col;
  }

  /**
   * The code gives "B02" the coordinate (2, 2), although the documentation
   * of `well_coordinate` announces (0, 0).  The model follows the code.
   */
  lemma WellCoordinateExample()
    ensures WellCoordinate("B02") == Ok((2, 2))
    ensures WellCoordinate("b02") == Ok((2, 2))
    ensures WellIndex("B02") == Ok(46)
    ensures WellCoordinate("B2") == Err(AssertionError)
    ensures WellCoordinate("Bx2") == Err(ValueError)
  {
    assert "B02"[1..] == "02";
    assert "b02"[1..] == "02";
    assert "Bx2"[1..] == "x2";
  }
}
