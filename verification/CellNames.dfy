/**
 lib.go: column letters as bijective base 26, and cell names as column letters followed by a
 decimal row number (ECMA-376 Part 1, section 18.18.7).
 */
module CellNames {
  import opened Wrappers
  import opened Text

  // ---------- columns

  function LetterValue(c: char): (v: int)
    requires IsAlpha(c)
    ensures 1 <= v <= 26
  {
    if IsUpper(c) then c as int - 'A' as int + 1 else c as int - 'a' as int + 1
  }

  function Letter(v: int): (c: char)
    requires 1 <= v <= 26
    ensures IsUpper(c) && LetterValue(c) == v
  {
    (v + 64) as char
  }

  /** The number a word of letters stands for in bijective base 26. */
  function ColumnValue(name: string): (num: nat)
    requires AllAlpha(name)
  {
    if name == [] then 0
    else ColumnValue(name[..|name| - 1]) * 26 + LetterValue(name[|name| - 1])
  }

  /** The word that stands for a number; the empty word for zero. */
  function ColumnName(num: nat): (name: string)
    ensures AllUpper(name) && (num > 0 ==> name != [])
  {
    if num == 0 then [] else ColumnName((num - 1) / 26) + [Letter((num - 1) % 26 + 1)]
  }

  /** What ColumnNameToNumber returns. */
  function ColumnNumber(name: string): (num: Result<int>) {
    if name != [] && AllAlpha(name) then Ok(ColumnValue(name)) else Err(InvalidColumnName(name))
  }

  /** Letters are read from the right, each weighted by a growing power of 26. */
  method ColumnNameToNumber(name: string) returns (r: Result<int>)
    ensures r == ColumnNumber(name)
  {
    if |name| == 0 {
      return Err(InvalidColumnName(name));
    }
    var col, multi := 0, 1;
    var i := |name| - 1;
    assert name[..|name|] == name;
    while i >= 0
      invariant -1 <= i < |name|
      invariant forall k :: i < k < |name| ==> IsAlpha(name[k])
      invariant AllAlpha(name) ==> AllAlpha(name[..i + 1])
      invariant AllAlpha(name) ==> ColumnValue(name) == ColumnValue(name[..i + 1]) * multi + col
    {
      var c := name[i];
      if IsUpper(c) || IsLower(c) {
        if AllAlpha(name) {
          assert name[..i + 1][..i] == name[..i];
          assert AllAlpha(name[..i]);
          WeighDigit(ColumnValue(name[..i]), LetterValue(c), multi);
        }
        col := col + LetterValue(c) * multi;
      } else {
        return Err(InvalidColumnName(name));
      }
      multi := multi * 26;
      i := i - 1;
    }
    return Ok(col);
  }

  lemma WeighDigit(high: int, digit: int, multi: int)
    ensures (high * 26 + digit) * multi == high * (multi * 26) + digit * multi
  {
  }

  /** What ColumnNumberToName returns. */
  function NumberedColumn(num: int): (name: Result<string>) {
    if num < 1 then Err(InvalidColumnNumber(num)) else Ok(ColumnName(num))
  }

  /** Letters are produced from the right, by repeated division. */
  method ColumnNumberToName(num: int) returns (r: Result<string>)
    ensures r == NumberedColumn(num)
  {
    if num < 1 {
      return Err(InvalidColumnNumber(num));
    }
    var col, n := "", num;
    while n > 0
      invariant n >= 0
      invariant ColumnName(num) == ColumnName(n) + col
    {
      col := [Letter((n - 1) % 26 + 1)] + col;
      n := (n - 1) / 26;
    }
    assert ColumnName(num) == col;
    return Ok(col);
  }

  lemma {:induction false} ColumnValueOfName(num: nat)
    ensures AllAlpha(ColumnName(num)) && ColumnValue(ColumnName(num)) == num
  {
    if num > 0 {
      ColumnValueOfName((num - 1) / 26);
      var name := ColumnName(num);
      assert name[..|name| - 1] == ColumnName((num - 1) / 26);
    }
  }

  lemma LetterIsUpper(c: char)
    requires IsAlpha(c)
    ensures Letter(LetterValue(c)) == UpperChar(c)
  {
  }

  /** Division and remainder undo one step of bijective base 26. */
  lemma LastDigit(high: nat, digit: int)
    requires 1 <= digit <= 26
    ensures var num := high * 26 + digit; num >= 1 && (num - 1) / 26 == high && (num - 1) % 26 + 1 == digit
  {
  }

  lemma {:induction false} ColumnNameOfValue(name: string)
    requires AllAlpha(name)
    ensures ColumnName(ColumnValue(name)) == ToUpper(name)
  {
    if name != [] {
      var front, last := name[..|name| - 1], LetterValue(name[|name| - 1]);
      ColumnNameOfValue(front);
      LastDigit(ColumnValue(front), last);
      LetterIsUpper(name[|name| - 1]);
      hide IsAlpha, UpperChar, Letter, LetterValue;
      assert ToUpper(name) == ToUpper(front) + [UpperChar(name[|name| - 1])];
    }
  }

  /**
   The two conversions are inverse bijections between the positive numbers and the non-empty
   upper-case words; lower case is folded.
   */
  lemma ColumnsRoundTrip(num: int, name: string)
    ensures NumberedColumn(num).Ok? <==> num >= 1
    ensures num >= 1 ==> ColumnNumber(NumberedColumn(num).value) == Ok(num)
    ensures ColumnNumber(name).Ok? <==> name != [] && AllAlpha(name)
    ensures ColumnNumber(name).Ok? ==>
              ColumnNumber(name).value >= 1 && NumberedColumn(ColumnNumber(name).value) == Ok(ToUpper(name))
  {
    if num >= 1 { ColumnValueOfName(num); }
    if name != [] && AllAlpha(name) { ColumnNameOfValue(name); }
  }

  ghost predicate AlphabeticallyBefore(s: string, t: string)
    requires |s| == |t|
  {
    exists i :: 0 <= i < |s| && s[..i] == t[..i] && s[i] < t[i]
  }

  lemma AlphabeticalStep(s: string, t: string)
    requires |s| == |t| > 0
    ensures var n := |s| - 1;
            AlphabeticallyBefore(s, t) <==>
            AlphabeticallyBefore(s[..n], t[..n]) || (s[..n] == t[..n] && s[n] < t[n])
  {
    var n := |s| - 1;
    if AlphabeticallyBefore(s, t) {
      var i :| 0 <= i < |s| && s[..i] == t[..i] && s[i] < t[i];
      if i < n {
        assert s[..n][..i] == s[..i] && t[..n][..i] == t[..i];
        assert s[..n][i] == s[i] && t[..n][i] == t[i];
      }
    }
    if AlphabeticallyBefore(s[..n], t[..n]) {
      var i :| 0 <= i < n && s[..n][..i] == t[..n][..i] && s[..n][i] < t[..n][i];
      assert s[..n][..i] == s[..i] && t[..n][..i] == t[..i];
      assert s[i] < t[i];
    }
  }

  /** Columns are numbered by length first and alphabetically among names of one length. */
  lemma {:induction false} ColumnOrder(s: string, t: string)
    requires AllUpper(s) && AllUpper(t)
    ensures ColumnValue(s) < ColumnValue(t) <==>
            |s| < |t| || (|s| == |t| && AlphabeticallyBefore(s, t))
    ensures ColumnValue(s) == ColumnValue(t) <==> s == t
    decreases |s| + |t|
  {
    if s == [] || t == [] {
    } else {
      var m, n := |s| - 1, |t| - 1;
      ColumnOrder(s[..m], t[..n]);
      assert s == s[..m] + [s[m]] && t == t[..n] + [t[n]];
      if |s| == |t| { AlphabeticalStep(s, t); }
      if |t| < |s| { ColumnOrder(t[..n], s[..m]); }
    }
  }

  // ---------- cell names

  /** strings.LastIndexFunc with the letter test. */
  function LastAlpha(s: string): (i: int)
    ensures -1 <= i < |s|
  {
    if s == [] then -1
    else if IsAlpha(s[|s| - 1]) then |s| - 1
    else LastAlpha(s[..|s| - 1])
  }

  function SplitCellName(cell: string): (parts: Result<(string, int)>) {
    if cell != [] && IsAlpha(cell[0]) && LastAlpha(cell) < |cell| - 1 then
      var i := LastAlpha(cell);
      var row := Atoi(cell[i + 1..]);
      if row.Some? && row.value > 0 then Ok((cell[..i + 1], row.value)) else Err(InvalidCellName(cell))
    else Err(InvalidCellName(cell))
  }

  /** The letters of a word in upper case, everything else dropped. */
  function NormalColumn(col: string): (norm: string)
    ensures |norm| <= |col|
  {
    if col == [] then []
    else if IsAlpha(col[0]) then [UpperChar(col[0])] + NormalColumn(col[1..])
    else NormalColumn(col[1..])
  }

  function JoinCellName(col: string, row: int): (cell: Result<string>) {
    var norm := NormalColumn(col);
    if |col| == 0 || |col| != |norm| then Err(InvalidColumnName(col))
    else if row < 1 then Err(InvalidRowNumber(row))
    else Ok(norm + Itoa(row))
  }

  function CellNameToCoordinates(cell: string): (at: Result<(int, int)>) {
    match SplitCellName(cell)
    case Err(e) => Err(NotCoordinates(cell, e))
    case Ok((colName, row)) =>
      match ColumnNumber(colName)
      case Err(e) => Err(NotCoordinates(cell, e))
      case Ok(col) => Ok((col, row))
  }

  function CoordinatesToCellName(col: int, row: int): (cell: Result<string>) {
    if col < 1 || row < 1 then Err(InvalidCoordinates(col, row)) else Ok(CellName(col, row))
  }

  /** The canonical name of a position. */
  function CellName(col: nat, row: nat): (cell: string) {
    ColumnName(col) + Itoa(row)
  }

  lemma {:induction false} LastAlphaConcat(s: string, t: string)
    requires s != [] && IsAlpha(s[|s| - 1]) && NoAlpha(t)
    ensures LastAlpha(s + t) == |s| - 1
  {
    if t == [] {
      assert s + t == s;
    } else {
      assert (s + t)[..|s + t| - 1] == s + t[..|t| - 1];
      LastAlphaConcat(s, t[..|t| - 1]);
    }
  }

  lemma {:induction false} LastAlphaFound(s: string)
    ensures forall i :: LastAlpha(s) < i < |s| ==> !IsAlpha(s[i])
    ensures LastAlpha(s) >= 0 ==> IsAlpha(s[LastAlpha(s)])
  {
    hide IsAlpha;
    if s != [] && !IsAlpha(s[|s| - 1]) {
      LastAlphaFound(s[..|s| - 1]);
    }
  }

  lemma LastAlphaIsLast(s: string)
    ensures NoAlpha(s[LastAlpha(s) + 1..])
    ensures LastAlpha(s) >= 0 ==> IsAlpha(s[LastAlpha(s)])
  {
    hide IsAlpha, LastAlpha;
    LastAlphaFound(s);
  }

  lemma AllAlphaStep(s: string)
    requires s != []
    ensures AllAlpha(s) <==> IsAlpha(s[0]) && AllAlpha(s[1..])
  {
    hide IsAlpha;
    assert forall i :: 1 <= i < |s| ==> s[i] == s[1..][i - 1];
  }

  lemma {:induction false} NormalColumnIsUpper(col: string)
    ensures |NormalColumn(col)| == |col| <==> AllAlpha(col)
    ensures AllAlpha(col) ==> NormalColumn(col) == ToUpper(col)
  {
    if col != [] {
      hide IsAlpha, UpperChar;
      var rest := col[1..];
      NormalColumnIsUpper(rest);
      AllAlphaStep(col);
      if AllAlpha(col) {
        assert ToUpper(col) == [UpperChar(col[0])] + ToUpper(rest);
      }
    }
  }

  /** A word of letters followed by a numeral splits where the letters end. */
  lemma SplitLetters(col: string, row: int)
    requires col != [] && AllAlpha(col) && row >= 1
    ensures SplitCellName(col + Itoa(row)) == Ok((col, row))
  {
    var cell := col + Itoa(row);
    LastAlphaConcat(col, Itoa(row));
    assert cell[..|col|] == col && cell[|col|..] == Itoa(row);
    AtoiItoa(row);
  }

  /** Splitting undoes joining, up to the case of the letters; joining fails on anything else. */
  lemma SplitJoin(col: string, row: int)
    ensures JoinCellName(col, row).Ok? <==> col != [] && AllAlpha(col) && row >= 1
    ensures JoinCellName(col, row).Ok? ==>
              SplitCellName(JoinCellName(col, row).value) == Ok((ToUpper(col), row))
  {
    NormalColumnIsUpper(col);
    if JoinCellName(col, row).Ok? { SplitLetters(ToUpper(col), row); }
  }

  /** Exactly the positions of a sheet have a name. */
  lemma OnlyPositionsNamed(col: int, row: int)
    ensures CoordinatesToCellName(col, row).Ok? <==> col >= 1 && row >= 1
    ensures col >= 1 && row >= 1 ==> CellNameToCoordinates(CoordinatesToCellName(col, row).value) == Ok((col, row))
  {
    hide CellName;
    if col >= 1 && row >= 1 { CoordinatesRoundTrip(col, row); }
  }

  /** Every position is the position of its name. */
  lemma CoordinatesRoundTrip(col: int, row: int)
    requires col >= 1 && row >= 1
    ensures CellNameToCoordinates(CellName(col, row)) == Ok((col, row))
    ensures SplitCellName(CellName(col, row)) == Ok((ColumnName(col), row))
  {
    SplitLetters(ColumnName(col), row);
    ColumnValueOfName(col);
  }

  /** Renaming a canonical name to another row changes only the row. */
  lemma RenameRow(col: int, row: int)
    requires col >= 1 && row >= 1
    ensures JoinCellName(ColumnName(col), row) == Ok(CellName(col, row))
  {
    NormalColumnIsUpper(ColumnName(col));
    assert ToUpper(ColumnName(col)) == ColumnName(col);
  }

  lemma NamesDistinct(c: int, r: int, c': int, r': int)
    requires c >= 1 && r >= 1 && c' >= 1 && r' >= 1
    ensures CellName(c, r) == CellName(c', r') <==> c == c' && r == r'
  {
    CoordinatesRoundTrip(c, r);
    CoordinatesRoundTrip(c', r');
  }

  lemma NameCharacters(col: int, row: int)
    requires col >= 1 && row >= 1
    ensures NoColon(CellName(col, row)) && ToUpper(CellName(col, row)) == CellName(col, row)
  {
    var name := CellName(col, row);
    forall i | 0 <= i < |name|
      ensures UpperChar(name[i]) == name[i] && name[i] != ':'
    {
      assert name[i] == if i < |ColumnName(col)| then ColumnName(col)[i] else Itoa(row)[i - |ColumnName(col)|];
    }
  }

  /** A canonical name: upper-case letters, then a numeral with no sign and no leading zero. */
  predicate Canonical(cell: string) {
    var i := LastAlpha(cell);
    i >= 0 && AllUpper(cell[..i + 1]) && Plain(cell[i + 1..]) && cell[i + 1] != '0'
  }

  lemma PlainNumeral(digits: string)
    requires Plain(digits) && digits[0] != '0'
    ensures AllDigits(digits) && DigitsValue(digits) >= 1 && Itoa(DigitsValue(digits)) == digits
  {
    ItoaDigitsValue(digits);
  }

  lemma UpperIsAlpha(col: string)
    requires AllUpper(col)
    ensures AllAlpha(col) && ToUpper(col) == col
  {
  }

  lemma CanonicalSplits(cell: string)
    requires Canonical(cell)
    ensures var i := LastAlpha(cell);
            && CellNameToCoordinates(cell) == Ok((ColumnValue(cell[..i + 1]), DigitsValue(cell[i + 1..])))
            && CellName(ColumnValue(cell[..i + 1]), DigitsValue(cell[i + 1..])) == cell
  {
    hide IsUpper, IsAlpha, LastAlpha, Plain, Itoa, ColumnName, SplitCellName;
    var i := LastAlpha(cell);
    var col, digits := cell[..i + 1], cell[i + 1..];
    assert cell == col + digits;
    PlainNumeral(digits);
    UpperIsAlpha(col);
    SplitLetters(col, DigitsValue(digits));
    ColumnNameOfValue(col);
  }

  lemma AcceptedIsPositive(cell: string)
    requires CellNameToCoordinates(cell).Ok?
    ensures CellNameToCoordinates(cell).value.0 >= 1 && CellNameToCoordinates(cell).value.1 >= 1
  {
    var colName := SplitCellName(cell).value.0;
    assert CellNameToCoordinates(cell).value.0 == ColumnValue(colName);
  }

  /**
   Every accepted name reprints as one name of the same position, and it is that name already
   exactly when it is canonical.
   */
  lemma Reprint(cell: string)
    ensures CellNameToCoordinates(cell).Ok? ==>
              var (col, row) := CellNameToCoordinates(cell).value;
              && col >= 1 && row >= 1
              && CellNameToCoordinates(CellName(col, row)) == Ok((col, row))
              && (CellName(col, row) == cell <==> Canonical(cell))
    ensures Canonical(cell) ==> CellNameToCoordinates(cell).Ok?
  {
    if Canonical(cell) { CanonicalSplits(cell); }
    var at := CellNameToCoordinates(cell);
    if at.Ok? {
      AcceptedIsPositive(cell);
      CoordinatesRoundTrip(at.value.0, at.value.1);
      CanonicalIsNamed(at.value.0, at.value.1);
    }
  }

  /** A name made from a position is canonical. */
  lemma CanonicalIsNamed(col: int, row: int)
    requires col >= 1 && row >= 1
    ensures Canonical(CellName(col, row))
  {
    var name, letters := CellName(col, row), ColumnName(col);
    ItoaPlain(row);
    LastAlphaConcat(letters, Itoa(row));
    assert name[..|letters|] == letters && name[|letters|..] == Itoa(row);
  }
}
