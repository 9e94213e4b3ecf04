/** `FixedPoint::ln_tables`: the natural logarithm read from a table.
    The number is first divided by a power of two, `2^n` with `n` its bit
    length estimated from decimal logarithms, which leaves a quotient in
    [1, 2). Ten lookups then peel one decimal digit each off that quotient:
    column `c` truncates the running quotient to `c + 1` decimal places,
    reads its last digit `d` and adds ln(1 + d / 10^(c + 1)) from the table,
    and divides the quotient by the truncation before the next column. The
    result is `n * ln(2)` plus the sum (minus it below one). */
module TableLn {
  import opened Bounded
  import opened FixedLogs

  /** ln(2) at twelve places. */
  const LN_2: nat := 693_147_180_559

  /** The table of `log_table`, nine rows by twelve columns: the entry at
      row `r` and column `c` is ln(1 + (r + 1) / 10^(c + 1)) at twelve
      places, within one unit of the truncated value. */
  const LN_TABLE: seq<seq<nat>> :=
    [
      [95310179804, 9950330853, 999500333, 99995000, 9999950, 999999, 99999, 9999, 1000, 100, 10, 1],
      [182321556793, 19802627296, 1998002662, 199980002, 19999800, 1999998, 199999, 19999, 1999, 200, 20, 1],
      [262364264467, 29558802241, 2995508979, 299955008, 29999550, 2999995, 299999, 29999, 3000, 300, 30, 3],
      [336472236621, 39220713153, 3992021269, 399920021, 39999200, 3999991, 399999, 39999, 4000, 400, 40, 3],
      [405465108108, 48790164169, 4987541511, 499875041, 49998750, 4999987, 499999, 49999, 4999, 500, 50, 5],
      [470003629245, 58268908123, 5982071677, 599820071, 59998200, 5999982, 599999, 59999, 6000, 600, 60, 6],
      [530628251062, 67658648473, 6975613736, 699755114, 69997550, 6999975, 699999, 69999, 6999, 700, 70, 6],
      [587786664902, 76961041136, 7968169649, 799680170, 79996800, 7999968, 799999, 79999, 7999, 800, 80, 8],
      [641853886172, 86177696241, 8959741371, 899595242, 89995950, 8999959, 899999, 89999, 9000, 900, 90, 8]
    ]

  lemma TableShape()
    ensures |LN_TABLE| == 9
    ensures forall r :: 0 <= r < 9 ==> |LN_TABLE[r]| == 12
  {
    forall r | 0 <= r < 9
      ensures |LN_TABLE[r]| == 12
    {
      if r == 0 {
      } else if r == 1 {
      } else if r == 2 {
      } else if r == 3 {
      } else if r == 4 {
      } else if r == 5 {
      } else if r == 6 {
      } else if r == 7 {
      } else {
        assert r == 8;
      }
    }
  }

  /** The second- and third-order Taylor bounds of ln(1 + y) for
      y = d / 10^p, at twelve places and give or take one unit:
      y - y^2/2 <= ln(1 + y) <= y - y^2/2 + y^3/3. */
  predicate InLogBracket(v: nat, d: nat, p: nat)
  {
    var y := d as real / Pow10(p) as real;
    var s := ONE as real;
    s * (y - y * y / 2.0) - 1.0 <= v as real <= s * (y - y * y / 2.0 + y * y * y / 3.0) + 1.0
  }

  /** What each entry satisfies: its Taylor bracket, no more than the last
      row of its column, no less than the row above, and less than the
      column to its left. */
  predicate EntryFacts(r: nat, c: nat)
    requires r < 9 && c < 12
  {
    TableShape();
    InLogBracket(LN_TABLE[r][c], r + 1, c + 1)
    && LN_TABLE[r][c] <= LN_TABLE[8][c]
    && (r > 0 ==> LN_TABLE[r - 1][c] <= LN_TABLE[r][c])
    && (c > 0 ==> LN_TABLE[r][c] < LN_TABLE[r][c - 1])
  }

  /** Row 0, columns 0 to 5: the logarithms of 1 + 1 / 10^(c + 1). */
  lemma TableRow0Left()
    ensures forall c :: 0 <= c < 6 ==> EntryFacts(0, c)
  {
    Pow10Table();
    forall c | 0 <= c < 6
      ensures EntryFacts(0, c)
    {
      if c == 0 {
      } else if c == 1 {
      } else if c == 2 {
      } else if c == 3 {
      } else if c == 4 {
      } else {
        assert c == 5;
      }
    }
  }

  /** Row 0, columns 6 to 11: the same for the smaller steps. */
  lemma TableRow0Right()
    ensures forall c :: 6 <= c < 12 ==> EntryFacts(0, c)
  {
    Pow10Table();
    forall c | 6 <= c < 12
      ensures EntryFacts(0, c)
    {
      if c == 6 {
      } else if c == 7 {
      } else if c == 8 {
      } else if c == 9 {
      } else if c == 10 {
      } else {
        assert c == 11;
      }
    }
  }

  lemma TableRow0()
    ensures forall c :: 0 <= c < 12 ==> EntryFacts(0, c)
  {
    TableRow0Left();
    TableRow0Right();
  }

  /** Row 1, columns 0 to 5: the logarithms of 1 + 2 / 10^(c + 1). */
  lemma TableRow1Left()
    ensures forall c :: 0 <= c < 6 ==> EntryFacts(1, c)
  {
    Pow10Table();
    forall c | 0 <= c < 6
      ensures EntryFacts(1, c)
    {
      if c == 0 {
      } else if c == 1 {
      } else if c == 2 {
      } else if c == 3 {
      } else if c == 4 {
      } else {
        assert c == 5;
      }
    }
  }

  /** Row 1, columns 6 to 11: the same for the smaller steps. */
  lemma TableRow1Right()
    ensures forall c :: 6 <= c < 12 ==> EntryFacts(1, c)
  {
    Pow10Table();
    forall c | 6 <= c < 12
      ensures EntryFacts(1, c)
    {
      if c == 6 {
      } else if c == 7 {
      } else if c == 8 {
      } else if c == 9 {
      } else if c == 10 {
      } else {
        assert c == 11;
      }
    }
  }

  lemma TableRow1()
    ensures forall c :: 0 <= c < 12 ==> EntryFacts(1, c)
  {
    TableRow1Left();
    TableRow1Right();
  }

  /** Row 2, columns 0 to 5: the logarithms of 1 + 3 / 10^(c + 1). */
  lemma TableRow2Left()
    ensures forall c :: 0 <= c < 6 ==> EntryFacts(2, c)
  {
    Pow10Table();
    forall c | 0 <= c < 6
      ensures EntryFacts(2, c)
    {
      if c == 0 {
      } else if c == 1 {
      } else if c == 2 {
      } else if c == 3 {
      } else if c == 4 {
      } else {
        assert c == 5;
      }
    }
  }

  /** Row 2, columns 6 to 11: the same for the smaller steps. */
  lemma TableRow2Right()
    ensures forall c :: 6 <= c < 12 ==> EntryFacts(2, c)
  {
    Pow10Table();
    forall c | 6 <= c < 12
      ensures EntryFacts(2, c)
    {
      if c == 6 {
      } else if c == 7 {
      } else if c == 8 {
      } else if c == 9 {
      } else if c == 10 {
      } else {
        assert c == 11;
      }
    }
  }

  lemma TableRow2()
    ensures forall c :: 0 <= c < 12 ==> EntryFacts(2, c)
  {
    TableRow2Left();
    TableRow2Right();
  }

  /** Row 3, columns 0 to 5: the logarithms of 1 + 4 / 10^(c + 1). */
  lemma TableRow3Left()
    ensures forall c :: 0 <= c < 6 ==> EntryFacts(3, c)
  {
    Pow10Table();
    forall c | 0 <= c < 6
      ensures EntryFacts(3, c)
    {
      if c == 0 {
      } else if c == 1 {
      } else if c == 2 {
      } else if c == 3 {
      } else if c == 4 {
      } else {
        assert c == 5;
      }
    }
  }

  /** Row 3, columns 6 to 11: the same for the smaller steps. */
  lemma TableRow3Right()
    ensures forall c :: 6 <= c < 12 ==> EntryFacts(3, c)
  {
    Pow10Table();
    forall c | 6 <= c < 12
      ensures EntryFacts(3, c)
    {
      if c == 6 {
      } else if c == 7 {
      } else if c == 8 {
      } else if c == 9 {
      } else if c == 10 {
      } else {
        assert c == 11;
      }
    }
  }

  lemma TableRow3()
    ensures forall c :: 0 <= c < 12 ==> EntryFacts(3, c)
  {
    TableRow3Left();
    TableRow3Right();
  }

  /** Row 4, columns 0 to 5: the logarithms of 1 + 5 / 10^(c + 1). */
  lemma TableRow4Left()
    ensures forall c :: 0 <= c < 6 ==> EntryFacts(4, c)
  {
    Pow10Table();
    forall c | 0 <= c < 6
      ensures EntryFacts(4, c)
    {
      if c == 0 {
      } else if c == 1 {
      } else if c == 2 {
      } else if c == 3 {
      } else if c == 4 {
      } else {
        assert c == 5;
      }
    }
  }

  /** Row 4, columns 6 to 11: the same for the smaller steps. */
  lemma TableRow4Right()
    ensures forall c :: 6 <= c < 12 ==> EntryFacts(4, c)
  {
    Pow10Table();
    forall c | 6 <= c < 12
      ensures EntryFacts(4, c)
    {
      if c == 6 {
      } else if c == 7 {
      } else if c == 8 {
      } else if c == 9 {
      } else if c == 10 {
      } else {
        assert c == 11;
      }
    }
  }

  lemma TableRow4()
    ensures forall c :: 0 <= c < 12 ==> EntryFacts(4, c)
  {
    TableRow4Left();
    TableRow4Right();
  }

  /** Row 5, columns 0 to 5: the logarithms of 1 + 6 / 10^(c + 1). */
  lemma TableRow5Left()
    ensures forall c :: 0 <= c < 6 ==> EntryFacts(5, c)
  {
    Pow10Table();
    forall c | 0 <= c < 6
      ensures EntryFacts(5, c)
    {
      if c == 0 {
      } else if c == 1 {
      } else if c == 2 {
      } else if c == 3 {
      } else if c == 4 {
      } else {
        assert c == 5;
      }
    }
  }

  /** Row 5, columns 6 to 11: the same for the smaller steps. */
  lemma TableRow5Right()
    ensures forall c :: 6 <= c < 12 ==> EntryFacts(5, c)
  {
    Pow10Table();
    forall c | 6 <= c < 12
      ensures EntryFacts(5, c)
    {
      if c == 6 {
      } else if c == 7 {
      } else if c == 8 {
      } else if c == 9 {
      } else if c == 10 {
      } else {
        assert c == 11;
      }
    }
  }

  lemma TableRow5()
    ensures forall c :: 0 <= c < 12 ==> EntryFacts(5, c)
  {
    TableRow5Left();
    TableRow5Right();
  }

  /** Row 6, columns 0 to 5: the logarithms of 1 + 7 / 10^(c + 1). */
  lemma TableRow6Left()
    ensures forall c :: 0 <= c < 6 ==> EntryFacts(6, c)
  {
    Pow10Table();
    forall c | 0 <= c < 6
      ensures EntryFacts(6, c)
    {
      if c == 0 {
      } else if c == 1 {
      } else if c == 2 {
      } else if c == 3 {
      } else if c == 4 {
      } else {
        assert c == 5;
      }
    }
  }

  /** Row 6, columns 6 to 11: the same for the smaller steps. */
  lemma TableRow6Right()
    ensures forall c :: 6 <= c < 12 ==> EntryFacts(6, c)
  {
    Pow10Table();
    forall c | 6 <= c < 12
      ensures EntryFacts(6, c)
    {
      if c == 6 {
      } else if c == 7 {
      } else if c == 8 {
      } else if c == 9 {
      } else if c == 10 {
      } else {
        assert c == 11;
      }
    }
  }

  lemma TableRow6()
    ensures forall c :: 0 <= c < 12 ==> EntryFacts(6, c)
  {
    TableRow6Left();
    TableRow6Right();
  }

  /** Row 7, columns 0 to 5: the logarithms of 1 + 8 / 10^(c + 1). */
  lemma TableRow7Left()
    ensures forall c :: 0 <= c < 6 ==> EntryFacts(7, c)
  {
    Pow10Table();
    forall c | 0 <= c < 6
      ensures EntryFacts(7, c)
    {
      if c == 0 {
      } else if c == 1 {
      } else if c == 2 {
      } else if c == 3 {
      } else if c == 4 {
      } else {
        assert c == 5;
      }
    }
  }

  /** Row 7, columns 6 to 11: the same for the smaller steps. */
  lemma TableRow7Right()
    ensures forall c :: 6 <= c < 12 ==> EntryFacts(7, c)
  {
    Pow10Table();
    forall c | 6 <= c < 12
      ensures EntryFacts(7, c)
    {
      if c == 6 {
      } else if c == 7 {
      } else if c == 8 {
      } else if c == 9 {
      } else if c == 10 {
      } else {
        assert c == 11;
      }
    }
  }

  lemma TableRow7()
    ensures forall c :: 0 <= c < 12 ==> EntryFacts(7, c)
  {
    TableRow7Left();
    TableRow7Right();
  }

  /** Row 8, columns 0 to 5: the logarithms of 1 + 9 / 10^(c + 1). */
  lemma TableRow8Left()
    ensures forall c :: 0 <= c < 6 ==> EntryFacts(8, c)
  {
    Pow10Table();
    forall c | 0 <= c < 6
      ensures EntryFacts(8, c)
    {
      if c == 0 {
      } else if c == 1 {
      } else if c == 2 {
      } else if c == 3 {
      } else if c == 4 {
      } else {
        assert c == 5;
      }
    }
  }

  /** Row 8, columns 6 to 11: the same for the smaller steps. */
  lemma TableRow8Right()
    ensures forall c :: 6 <= c < 12 ==> EntryFacts(8, c)
  {
    Pow10Table();
    forall c | 6 <= c < 12
      ensures EntryFacts(8, c)
    {
      if c == 6 {
      } else if c == 7 {
      } else if c == 8 {
      } else if c == 9 {
      } else if c == 10 {
      } else {
        assert c == 11;
      }
    }
  }

  lemma TableRow8()
    ensures forall c :: 0 <= c < 12 ==> EntryFacts(8, c)
  {
    TableRow8Left();
    TableRow8Right();
  }

  lemma TableFacts()
    ensures forall r, c :: 0 <= r < 9 && 0 <= c < 12 ==> EntryFacts(r, c)
  {
    forall r, c | 0 <= r < 9 && 0 <= c < 12
      ensures EntryFacts(r, c)
    {
      if r == 0 {
        TableRow0();
      } else if r == 1 {
        TableRow1();
      } else if r == 2 {
        TableRow2();
      } else if r == 3 {
        TableRow3();
      } else if r == 4 {
        TableRow4();
      } else if r == 5 {
        TableRow5();
      } else if r == 6 {
        TableRow6();
      } else if r == 7 {
        TableRow7();
      } else {
        TableRow8();
      }
    }
  }

  /** `log_table(row, col)`: the entry of the table, which lies within the
      Taylor bracket of ln(1 + (row + 1) / 10^(col + 1)) and is at most the
      largest entry of its column. */
  function LogTable(row: nat, col: nat): (v: nat)
    requires row < 9 && col < 12
    ensures v <= ColumnMax(col)
  {
    TableShape();
    TableFacts();
    assert EntryFacts(row, col);
    LN_TABLE[row][col]
  }

  /** Each entry is ln(1 + (row + 1) / 10^(col + 1)) within the Taylor
      bracket, grows down its column and shrinks along its row. */
  lemma LogTableIsLog(row: nat, col: nat)
    requires row < 9 && col < 12
    ensures InLogBracket(LogTable(row, col), row + 1, col + 1)
    ensures row > 0 ==> LogTable(row - 1, col) <= LogTable(row, col)
    ensures col > 0 ==> LogTable(row, col) < LogTable(row, col - 1)
  {
    TableShape();
    TableFacts();
    assert EntryFacts(row, col);
  }

  /** The largest entry of a column, the one for the digit nine; nothing
      outside the twelve columns. */
  function ColumnMax(col: nat): nat
  {
    TableShape();
    if col < 12 then LN_TABLE[8][col] else 0
  }

  /** The most the lookups of columns `col` to 9 can add together. */
  function MaxCorrection(col: nat): nat
    requires col <= 10
    decreases 10 - col
  {
    if col == 10 then 0 else ColumnMax(col) + MaxCorrection(col + 1)
  }

  /** The lookups together add less than 0.738, however the digits fall. */
  lemma MaxCorrectionValue()
    ensures MaxCorrection(0) == 737_990_914_833
  {
    TableShape();
    assert MaxCorrection(9) == 900;
    assert MaxCorrection(7) == 89999 + 9000 + 900;
    assert MaxCorrection(4) == 89995950 + 8999959 + 899999 + 89999 + 9000 + 900;
  }

  // ---------------------------------------------------------------------
  // One lookup

  /** `FixedPoint` multiplication: the product rescaled to twelve places,
      panicking when the product overflows. */
  predicate FixedMulDefined(a: nat, b: nat)
  {
    a * b < U128_LIMIT
  }

  function FixedMul(a: nat, b: nat): (r: u128)
    requires FixedMulDefined(a, b)
  {
    FloorDiv(a * b, ONE)
  }

  /** The guarded lookup of one column: the computed row index less one
      must fall in the nine rows and the column in the twelve columns, or
      the column adds nothing. Inside the table the digit `row` at column
      `col` adds ln(1 + row / 10^(col + 1)). */
  function Contribution(row: nat, col: nat): (lx: nat)
    ensures !(1 <= row <= 9 && col < 12) ==> lx == 0
    ensures lx <= ColumnMax(col)
  {
    if row >= 1 && row - 1 < 9 && col < 12 then LogTable(row - 1, col) else 0
  }

  /** Inside the table the digit `row` at column `col` adds
      ln(1 + row / 10^(col + 1)), within the Taylor bracket. */
  lemma ContributionIsLog(row: nat, col: nat)
    requires 1 <= row <= 9 && col < 12
    ensures InLogBracket(Contribution(row, col), row, col + 1)
  {
    LogTableIsLog(row - 1, col);
  }

  /** `log_table_value`: the running quotient `s / t`, its truncation to
      `col + 1` decimal places (a multiplication and a division by the raw
      value `10^(col + 1)`), the row index read off the truncation (the
      `sub` panics below one; the `as usize` cast keeps the low 64 bits) and
      the contribution of that row. Within the twelve columns the
      truncation is the quotient rounded down to a multiple of
      `10^(11 - col)`, and the lookup panics exactly when the quotient is
      below one. */
  function LogTableValue(s: u128, t: u128, col: nat): (r: Run<(u128, u128, nat)>)
    ensures r.Returns? ==> FixedDivDefined(s, t) && r.value.0 == FixedDiv(s, t)
    ensures r.Returns? ==> r.value.2 <= ColumnMax(col)
  {
    if !FixedDivDefined(s, t) then Panics
    else
      var q := FixedDiv(s, t);
      if col + 1 > 38 then Panics
      else
        var f := Pow10(col + 1);
        if !FixedMulDefined(q, f) then Panics
        else
          TruncationInColumns(q, col);
          var m := FixedMul(q, f);
          if !FixedDivDefined(m, f) then Panics
          else
            var tq := FixedDiv(m, f);
            if !FixedMulDefined(tq, f) then Panics
            else
              var m2 := FixedMul(tq, f);
              if m2 < f then Panics
              else
                Returns((q, tq, Contribution((m2 - f) % U64_LIMIT, col)))
  }

  /** Within the twelve columns the truncation is the quotient rounded
      down to a multiple of `10^(11 - col)`, the row index is the quotient's
      digits up to place `col + 1` less `10^(col + 1)`, and the lookup
      panics exactly when the quotient is below one. */
  lemma LogTableValueTruncates(s: u128, t: u128, col: nat)
    requires col < 12
    ensures var r := LogTableValue(s, t, col);
      r.Returns? ==>
        var unit := Pow10(11 - col);
        ONE <= r.value.1 <= r.value.0 < r.value.1 + unit && r.value.1 % unit == 0
        && r.value.2 == Contribution((r.value.0 / unit - Pow10(col + 1)) % U64_LIMIT, col)
    ensures FixedDivDefined(s, t) && FixedDiv(s, t) * Pow10(col + 1) < U128_LIMIT ==>
      (LogTableValue(s, t, col).Panics? <==> FixedDiv(s, t) < ONE)
  {
    LogTableValueReads(s, t, col);
    LogTableValuePanics(s, t, col);
  }

  lemma LogTableValueReads(s: u128, t: u128, col: nat)
    requires col < 12
    ensures var r := LogTableValue(s, t, col);
      r.Returns? ==>
        var unit := Pow10(11 - col);
        ONE <= r.value.1 <= r.value.0 < r.value.1 + unit && r.value.1 % unit == 0
        && r.value.2 == Contribution((r.value.0 / unit - Pow10(col + 1)) % U64_LIMIT, col)
  {
    if LogTableValue(s, t, col).Returns? {
      PlaceValues(col);
      TruncationInPlaces(FixedDiv(s, t), col);
    }
  }

  lemma LogTableValuePanics(s: u128, t: u128, col: nat)
    requires col < 12
    ensures FixedDivDefined(s, t) && FixedDiv(s, t) * Pow10(col + 1) < U128_LIMIT ==>
      (LogTableValue(s, t, col).Panics? <==> FixedDiv(s, t) < ONE)
  {
    if FixedDivDefined(s, t) && FixedDiv(s, t) * Pow10(col + 1) < U128_LIMIT {
      PlaceValues(col);
      TruncationInPlaces(FixedDiv(s, t), col);
    }
  }

  /** When the quotient lies in [1, 1 + 10^-col), the index read at
      column `col` is its decimal digit at place `col + 1`: the row stays
      within the table, or the column adds nothing for a zero digit. */
  lemma RowIsNextDigit(q: nat, col: nat)
    requires col < 12 && ONE <= q < ONE + Pow10(12 - col)
    ensures var d := q / Pow10(11 - col);
      Pow10(col + 1) <= d && d - Pow10(col + 1) == d % 10 && d % 10 < 10
  {
    var f, unit := Pow10(col + 1), Pow10(11 - col);
    PlaceValues(col);
    assert Pow10(12 - col) == 10 * unit;
    MulDistrib(f, 10, unit);
    QuotientBracket(q, unit, f, f + 10);
    assert f == 10 * Pow10(col);
    LastDigit(q / unit, Pow10(col));
  }

  /** A number in [10m, 10m + 10) has the excess over `10m` as its last
      decimal digit. */
  lemma LastDigit(d: nat, m: nat)
    requires 10 * m <= d < 10 * m + 10
    ensures d % 10 == d - 10 * m
  {
    DivUnique(d, 10, m);
  }

  /** The next quotient, this one divided by its truncation to `col + 1`
      places, lies in [1, 1 + 10^-(col + 1)): the next column again reads a
      single digit. */
  lemma NextQuotient(q: nat, tq: nat, col: nat)
    requires col < 12 && ONE <= tq <= q < tq + Pow10(11 - col) && q * ONE < U128_LIMIT
    ensures FixedDivDefined(q, tq) && ONE <= FixedDiv(q, tq) < ONE + Pow10(11 - col)
  {
    QuotientNearScale(q, tq, ONE, Pow10(11 - col));
  }

  /** On any scale `s`, a number less than `u` above a divisor of at least
      `s` divides by it to a quotient in [s, s + u). */
  lemma QuotientNearScale(q: nat, tq: nat, s: nat, u: nat)
    requires 0 < s <= tq <= q < tq + u
    ensures s <= (q * s) / tq < s + u
  {
    MulMonotone(tq, q, s);
    MulMonotone(q + 1, tq + u, s);
    MulDistrib(q, 1, s);
    MulDistrib(tq, u, s);
    MulMonotone(s, tq, u);
    MulDistrib(s, u, tq);
    QuotientBracket(q * s, tq, s, s + u);
  }

  // ---------------------------------------------------------------------
  // The ten lookups

  /** The lookups of columns `col` to 9, chained as the original chains its
      ten calls: each column divides the running quotient by the previous
      truncation, and the contributions are summed. The checked additions
      of the sum cannot overflow, the whole sum being below one. */
  function Lookups(s: u128, t: u128, col: nat): (r: Run<nat>)
    requires col <= 10
    decreases 10 - col
    ensures r.Returns? ==> r.value <= MaxCorrection(col)
  {
    if col == 10 then Returns(0)
    else
      match LogTableValue(s, t, col)
      case Panics => Panics
      case Returns((q, tq, lx)) =>
        match Lookups(q, tq, col + 1)
        case Panics => Panics
        case Returns(rest) => Returns(lx + rest)
  }

  /** Started on a quotient in [1, 1 + 10^-col), every remaining lookup
      reads one digit and none of them panics; for the first column that is
      a quotient in [1, 2). */
  lemma {:induction false} LookupsReadDigits(s: u128, t: u128, col: nat)
    requires col <= 10 && FixedDivDefined(s, t)
    requires ONE <= FixedDiv(s, t) < ONE + Pow10(12 - col)
    ensures Lookups(s, t, col).Returns?
    decreases 10 - col
  {
    if col < 10 {
      var q := FixedDiv(s, t);
      var f := Pow10(col + 1);
      PlaceValues(col);
      Pow10Monotone(12 - col, 12);
      OneIsPow10();
      MulMonotone(q, 2 * ONE, f);
      MulMonotone(f, ONE, 2 * ONE);
      assert q * f < U128_LIMIT;
      LogTableValueTruncates(s, t, col);
      var r := LogTableValue(s, t, col);
      assert r.Returns?;
      var (q', tq, lx) := r.value;
      MulMonotone(q', 2 * ONE, ONE);
      NextQuotient(q', tq, col);
      assert 12 - (col + 1) == 11 - col;
      LookupsReadDigits(q', tq, col + 1);
    }
  }

  // ---------------------------------------------------------------------
  // Bit length

  /** `bit_length`: zero has bit length zero; otherwise the decimal
      logarithm of the number over that of two, rounded up when the two
      logarithms have different signs (the number is below one) and down
      otherwise, with that sign. */
  function FixedBitLength(raw: u128): (r: Run<Option<(nat, bool)>>)
    ensures raw == 0 ==> r == Returns(Some((0, false)))
    ensures raw > 0 && r.Returns? && r.value.Some? ==> (r.value.value.1 <==> raw < ONE)
  {
    if raw == 0 then Returns(Some((0, false)))
    else
      match Log10(raw)
      case Panics => Panics
      case Returns(None) => Returns(None)
      case Returns(Some((l, numeratorNegative))) =>
        match Log10(2 * ONE)
        case Panics => Panics
        case Returns(None) => Returns(None)
        case Returns(Some((l2, denominatorNegative))) =>
          var negative := numeratorNegative != denominatorNegative;
          if !FixedDivDefined(l, l2) then Panics
          else
            var q := FixedDiv(l, l2);
            OneIsPow10();
            Returns(Some((if negative then CeilDiv(q, ONE) else FloorDiv(q, ONE), negative)))
  }

  /** log10(2) = 0.301029995664 at twelve places: log2(2) divided by
      log2(10). */
  lemma Log10OfTwo()
    ensures Log10(2 * ONE) == Returns(Some((301_029_995_664, false)))
  {
    assert Pow2(1) == 2;
    Log2PowerOfTwo(1);
    assert TableExponent(2 * ONE) == 0;
    assert FloorDiv(ONE * ONE, LOG2_10) == 301_029_995_664;
  }

  /** The bit length is the decimal logarithm `l` divided by log10(2)
      `l2`: exactly `l / l2` rounded down for numbers from one on, and
      rounded up for numbers below one, although the quotient passes
      through twelve places on the way. */
  lemma BitLengthIsQuotient(raw: u128)
    requires raw > 0 && FixedBitLength(raw).Returns? && FixedBitLength(raw).value.Some?
    ensures var l := Log10(raw).value.value.0;
      var (n, negative) := FixedBitLength(raw).value.value;
      if negative then (n == 0 || (n - 1) * 301_029_995_664 < l) && l <= n * 301_029_995_664
      else n * 301_029_995_664 <= l < (n + 1) * 301_029_995_664
  {
    Log10OfTwo();
    var l := Log10(raw).value.value.0;
    var l2 := 301_029_995_664;
    var (n, negative) := FixedBitLength(raw).value.value;
    OneIsPow10();
    var q := FixedDiv(l, l2);
    FloorDivBracket(l * ONE, l2);
    if negative {
      assert n == CeilDiv(q, ONE);
      CeilingThroughPlaces(l, l2, q, n, ONE);
    } else {
      assert n == FloorDiv(q, ONE);
      FloorDivBracket(q, ONE);
      FloorThroughPlaces(l, l2, q, n, ONE);
    }
  }

  /** On any scale `s`: when `q` is `l / l2` at that scale and `n` is `q`
      rounded down to a whole number, `n` is `l / l2` rounded down. */
  lemma FloorThroughPlaces(l: nat, l2: nat, q: nat, n: nat, s: nat)
    requires 0 < l2 && 0 < s
    requires q * l2 <= l * s < (q + 1) * l2
    requires n * s <= q < (n + 1) * s
    ensures n * l2 <= l < (n + 1) * l2
  {
    MulMonotone(n * s, q, l2);
    MulSwap(n, s, l2);
    CancelLe(n * l2, l, s);
    MulMonotone(q + 1, (n + 1) * s, l2);
    MulSwap(n + 1, s, l2);
    CancelLt(l, (n + 1) * l2, s);
  }

  /** On any scale `s`: when `q` is `l / l2` at that scale and `n` is `q`
      rounded up to a whole number, `n` is `l / l2` rounded up. */
  lemma CeilingThroughPlaces(l: nat, l2: nat, q: nat, n: nat, s: nat)
    requires 0 < l2 <= s
    requires q * l2 <= l * s < (q + 1) * l2
    requires n * s >= q && (n == 0 || (n - 1) * s < q)
    ensures n == 0 || (n - 1) * l2 < l
    ensures l <= n * l2
  {
    if n > 0 {
      MulMonotone((n - 1) * s + 1, q, l2);
      MulDistrib((n - 1) * s, 1, l2);
      MulSwap(n - 1, s, l2);
      CancelLt((n - 1) * l2, l, s);
    }
    MulMonotone(q + 1, n * s + 1, l2);
    MulDistrib(n * s, 1, l2);
    MulSwap(n, s, l2);
    MulDistrib(n * l2, 1, s);
    CancelLt(l, n * l2 + 1, s);
  }

  // ---------------------------------------------------------------------
  // The logarithm

  /** `ln_tables`: zero fails the assertion; otherwise the bit length `n`
      and its sign, the divisor `2^n` (its reciprocal below one, at twelve
      places), the ten lookups from the number over that divisor, and
      `n * ln(2)` plus the lookups, or minus them below one. The bit length
      is taken to twelve places, `2^n` is computed on a u128 from the bit
      length cast to u32, and its product with 10^12 is checked (`None` on
      overflow). The sign is that of the logarithm, and the magnitude is
      `n * ln(2)` corrected by less than 0.738. */
  function LnTables(raw: u128): (r: Run<Option<(u128, bool)>>)
    ensures raw == 0 ==> r.Panics?
    ensures r.Returns? && r.value.Some? ==> (r.value.value.1 <==> raw < ONE)
    ensures r.Returns? && r.value.Some? ==>
      FixedBitLength(raw).Returns? && FixedBitLength(raw).value.Some?
      && var n := FixedBitLength(raw).value.value.0;
         var v := r.value.value.0;
         if raw < ONE then v <= LN_2 * n <= v + MaxCorrection(0)
         else LN_2 * n <= v <= LN_2 * n + MaxCorrection(0)
  {
    if raw == 0 then Panics
    else
      match FixedBitLength(raw)
      case Panics => Panics
      case Returns(None) => Returns(None)
      case Returns(Some((n, negative))) => FromBitLength(raw, n, negative)
  }

  /** The rest of `ln_tables` once the bit length `n` and its sign are
      known: the divisor, the lookups and the whole part `n * ln(2)`. */
  function FromBitLength(raw: u128, n: nat, negative: bool): (r: Run<Option<(u128, bool)>>)
    ensures r.Returns? && r.value.Some? ==> r.value.value.1 == negative
    ensures r.Returns? && r.value.Some? ==>
      var v := r.value.value.0;
      if negative then v <= LN_2 * n <= v + MaxCorrection(0)
      else LN_2 * n <= v <= LN_2 * n + MaxCorrection(0)
  {
    if n * ONE >= U128_LIMIT then Panics
    else
      var e := n % 0x1_0000_0000;
      if e >= 128 then Panics
      else if Pow2(e) * ONE >= U128_LIMIT then Returns(None)
      else Assemble(n, negative, Lookups(raw, Divisor(e, negative), 0))
  }

  /** The whole part `n * ln(2)` with the sum of the lookups added, or
      taken away below one; a panicking lookup panics. */
  function Assemble(n: nat, negative: bool, lookups: Run<nat>): (r: Run<Option<(u128, bool)>>)
    requires n * ONE < U128_LIMIT
    ensures r.Returns? ==> r.value.Some? && lookups.Returns? && r.value.value.1 == negative
    ensures r.Returns? ==>
      var v := r.value.value.0;
      if negative then v + lookups.value == LN_2 * n else v == LN_2 * n + lookups.value
  {
    match lookups
    case Panics => Panics
    case Returns(sum) =>
      if !FixedMulDefined(LN_2, n * ONE) then Panics
      else
        var whole := FixedMul(LN_2, n * ONE);
        LnOfTwoTimes(n);
        if negative then
          if whole < sum then Panics else Returns(Some((whole - sum, true)))
        else
          if whole + sum >= U128_LIMIT then Panics else Returns(Some((whole + sum, false)))
  }

  /** The divisor that brings the number into [1, 2): `2^n`, or below one
      its reciprocal at twelve places. */
  function Divisor(n: nat, negative: bool): (max: u128)
    requires Pow2(n) * ONE < U128_LIMIT
    ensures !negative ==> max == Pow2(n) * ONE
    ensures negative ==> max * Pow2(n) <= ONE < (max + 1) * Pow2(n)
  {
    OneIsPow10();
    var p := Pow2(n) * ONE;
    if negative then
      ReciprocalBracket(n);
      FixedDiv(ONE, p)
    else p
  }

  lemma ReciprocalBracket(n: nat)
    requires Pow2(n) * ONE < U128_LIMIT
    ensures FixedDivDefined(ONE, Pow2(n) * ONE)
    ensures var max := FixedDiv(ONE, Pow2(n) * ONE);
      max * Pow2(n) <= ONE < (max + 1) * Pow2(n)
  {
    OneIsPow10();
    var k := Pow2(n);
    MulAssoc(ONE, ONE, k);
    assert ONE * ONE == ONE * (ONE * 1);
    DivDiv(ONE * ONE, ONE, k);
    MulDivCancel(ONE, ONE);
    MulAssoc(ONE, k, ONE);
    assert FixedDiv(ONE, k * ONE) == ONE / k by {
      assert ONE * ONE / (k * ONE) == ONE * ONE / (ONE * k);
    }
    DivBracket(ONE, k);
  }

  /** The whole part is exact for every bit length below 128, so the
      result is `n * ln(2)` plus or minus the lookups, unless the
      subtraction goes below zero. */
  lemma AssembleSteps(n: nat, negative: bool, sum: nat)
    requires n < 128
    ensures n * ONE < U128_LIMIT
    ensures Assemble(n, negative, Returns(sum)) ==
      if negative then
        if LN_2 * n < sum then Panics else Returns(Some((LN_2 * n - sum, true)))
      else
        if LN_2 * n + sum >= U128_LIMIT then Panics else Returns(Some((LN_2 * n + sum, false)))
  {
    OneIsPow10();
    MulMonotone(n, 128, ONE);
    MulMonotone(LN_2, ONE, n * ONE);
    MulMonotone(n * ONE, 128 * ONE, ONE);
    LnOfTwoTimes(n);
  }

  /** Below 128 the bit length survives the cast to u32, and when `2^n`
      fits at twelve places the rest of `ln_tables` is the assembly of the
      ten lookups from the number over the divisor. */
  lemma FromBitLengthSteps(raw: u128, n: nat, negative: bool)
    requires n < 128 && Pow2(n) * ONE < U128_LIMIT
    ensures n * ONE < U128_LIMIT
    ensures FromBitLength(raw, n, negative) == Assemble(n, negative, Lookups(raw, Divisor(n, negative), 0))
  {
    OneIsPow10();
    MulMonotone(n, 128, ONE);
    assert n % 0x1_0000_0000 == n;
  }

  /** From one on, when the bit length `n` is the right one,
      2^n <= x < 2^(n + 1), and the first division does not overflow, the
      first quotient lies in [1, 2), every lookup reads a digit, and
      `ln_tables` returns `n * ln(2)` corrected upwards by less than 0.738. */
  lemma LnTablesWhenBitLengthFits(raw: u128, n: nat)
    requires FixedBitLength(raw) == Returns(Some((n, false)))
    requires Pow2(n) * ONE <= raw < 2 * Pow2(n) * ONE && raw * ONE < U128_LIMIT
    ensures LnTables(raw).Returns? && LnTables(raw).value.Some?
    ensures LN_2 * n <= LnTables(raw).value.value.0 <= LN_2 * n + MaxCorrection(0)
  {
    assert LnTables(raw) == FromBitLength(raw, n, false);
    FromBitLengthFits(raw, n);
  }

  lemma FromBitLengthFits(raw: u128, n: nat)
    requires Pow2(n) * ONE <= raw < 2 * Pow2(n) * ONE && raw * ONE < U128_LIMIT
    ensures FromBitLength(raw, n, false).Returns? && FromBitLength(raw, n, false).value.Some?
  {
    BitLengthBelow128(raw, n);
    FromBitLengthSteps(raw, n, false);
    var p := Divisor(n, false);
    FirstQuotientInRange(raw, Pow2(n));
    LookupsReadDigits(raw, p, 0);
    SumFits(n, Lookups(raw, p, 0));
  }

  /** A power of two at twelve places that fits in a u128 has an exponent
      below 128. */
  lemma BitLengthBelow128(raw: u128, n: nat)
    requires Pow2(n) * ONE <= raw
    ensures n < 128
  {
    if n >= 128 {
      Pow2Values();
      Pow2Monotone(128, n);
      OneIsPow10();
      MulMonotone(1, ONE, Pow2(n));
    }
  }

  lemma SumFits(n: nat, lookups: Run<nat>)
    requires n < 128 && lookups.Returns? && lookups.value <= MaxCorrection(0)
    ensures n * ONE < U128_LIMIT
    ensures Assemble(n, false, lookups).Returns? && Assemble(n, false, lookups).value.Some?
  {
    MaxCorrectionValue();
    AssembleSteps(n, false, lookups.value);
    MulMonotone(n, 128, LN_2);
  }

  /** Dividing `x` in [2^n, 2^(n + 1)) by `2^n` at twelve places gives a
      quotient in [1, 2). */
  lemma FirstQuotientInRange(raw: nat, k: nat)
    requires k >= 1 && k * ONE <= raw < 2 * k * ONE && raw * ONE < U128_LIMIT
    ensures FixedDivDefined(raw, k * ONE)
    ensures ONE <= FixedDiv(raw, k * ONE) < ONE + Pow10(12)
  {
    OneIsPow10();
    var p := k * ONE;
    var q := FixedDiv(raw, p);
    FloorDivBracket(raw * ONE, p);
    MulMonotone(p, raw, ONE);
    if q < ONE {
      MulMonotone(q + 1, ONE, p);
    }
    MulMonotone(raw, 2 * p, ONE);
    if q >= 2 * ONE {
      MulMonotone(2 * ONE, q, p);
    }
  }

  /** `n` times ln(2) at twelve places is exact. */
  lemma LnOfTwoTimes(n: nat)
    requires FixedMulDefined(LN_2, n * ONE)
    ensures FixedMul(LN_2, n * ONE) == LN_2 * n
  {
    MulAssoc(LN_2, ONE, n);
    MulDivCancel(LN_2 * n, ONE);
  }

  /** The place values of column `col`: `10^(col + 1)` raw is that many
      units of 10^-12, and the truncation keeps multiples of `10^(11 - col)`. */
  lemma PlaceValues(col: nat)
    requires col < 12
    ensures Pow10(col + 1) * Pow10(11 - col) == ONE
    ensures 1 <= Pow10(11 - col) && 1 <= Pow10(col + 1) <= ONE
  {
    Pow10Add(col + 1, 11 - col);
    OneIsPow10();
    Pow10Monotone(0, 11 - col);
    Pow10Monotone(0, col + 1);
    Pow10Monotone(col + 1, 12);
  }

  /** Multiplying by the raw place value and dividing by it again rounds
      the quotient down to a multiple of `10^(11 - col)`, and multiplying
      once more reads off the digits up to that place. */
  lemma TruncationInColumns(q: nat, col: nat)
    requires col + 1 <= 38 && q * Pow10(col + 1) < U128_LIMIT
    ensures col < 12 ==> var f, unit := Pow10(col + 1), Pow10(11 - col);
      FixedMulDefined(q, f) && FixedMul(q, f) == q / unit
      && FixedDivDefined(q / unit, f) && FixedDiv(q / unit, f) == q / unit * unit
      && FixedMulDefined(q / unit * unit, f) && FixedMul(q / unit * unit, f) == q / unit
      && q / unit * unit <= q < q / unit * unit + unit && (q / unit * unit) % unit == 0
      && (q / unit < f <==> q < ONE) && (ONE <= q ==> ONE <= q / unit * unit)
  {
    if col < 12 {
      TruncationInPlaces(q, col);
    }
  }

  lemma TruncationInPlaces(q: nat, col: nat)
    requires col < 12 && q * Pow10(col + 1) < U128_LIMIT
    ensures var f, unit := Pow10(col + 1), Pow10(11 - col);
      FixedMulDefined(q, f) && FixedMul(q, f) == q / unit
      && FixedDivDefined(q / unit, f) && FixedDiv(q / unit, f) == q / unit * unit
      && FixedMulDefined(q / unit * unit, f) && FixedMul(q / unit * unit, f) == q / unit
      && q / unit * unit <= q < q / unit * unit + unit && (q / unit * unit) % unit == 0
      && (q / unit < f <==> q < ONE) && (ONE <= q ==> ONE <= q / unit * unit)
  {
    PlaceValues(col);
    Truncation(q, Pow10(col + 1), Pow10(11 - col));
  }

  lemma Truncation(q: nat, f: nat, unit: nat)
    requires f >= 1 && unit >= 1 && f * unit == ONE && q * f < U128_LIMIT
    ensures FixedMulDefined(q, f) && FixedMul(q, f) == q / unit
    ensures FixedDivDefined(q / unit, f) && FixedDiv(q / unit, f) == q / unit * unit
    ensures FixedMulDefined(q / unit * unit, f) && FixedMul(q / unit * unit, f) == q / unit
    ensures q / unit * unit <= q < q / unit * unit + unit && (q / unit * unit) % unit == 0
    ensures q / unit < f <==> q < ONE
    ensures ONE <= q ==> ONE <= q / unit * unit
  {
    TruncationScales(q, f, unit, q / unit);
    DivBracket(q, unit);
    ModOfMultiple(q / unit, unit);
    DigitsBelowOne(q, f, unit);
  }

  /** The three scalings of one lookup on the digits `d = q / unit`: down
      to `d`, back up to `d * unit`, and down again to `d`. */
  lemma TruncationScales(q: nat, f: nat, unit: nat, d: nat)
    requires f >= 1 && unit >= 1 && f * unit == ONE && q * f < U128_LIMIT && d == q / unit
    ensures FixedMulDefined(q, f) && FixedMul(q, f) == d
    ensures FixedDivDefined(d, f) && FixedDiv(d, f) == d * unit
    ensures FixedMulDefined(d * unit, f) && FixedMul(d * unit, f) == d
  {
    ScaleDown(q, f, unit);
    DivBracket(q, unit);
    MulMonotone(d * unit, q, f);
    MulAssoc(d, unit, f);
    ScaleBackUp(d, f, unit);
  }

  lemma ScaleDown(q: nat, f: nat, unit: nat)
    requires f >= 1 && unit >= 1 && f * unit == ONE
    ensures (q * f) / ONE == q / unit
  {
    var d := q / unit;
    DivBracket(q, unit);
    MulMonotone(d * unit, q, f);
    MulMonotone(q + 1, (d + 1) * unit, f);
    MulAssoc(d, f, unit);
    MulAssoc(d + 1, f, unit);
    DivUnique(q * f, ONE, d);
  }

  lemma ScaleBackUp(d: nat, f: nat, unit: nat)
    requires f >= 1 && unit >= 1 && f * unit == ONE
    ensures (d * ONE) / f == d * unit
    ensures (d * unit * f) / ONE == d
  {
    MulAssoc(d, unit, f);
    MulDivCancel(d * unit, f);
    MulDivCancel(d, ONE);
  }

  lemma ModOfMultiple(d: nat, unit: nat)
    requires unit >= 1
    ensures (d * unit) % unit == 0
  {
    MulDivCancel(d, unit);
  }

  lemma DigitsBelowOne(q: nat, f: nat, unit: nat)
    requires f >= 1 && unit >= 1 && f * unit == ONE
    ensures q / unit < f <==> q < ONE
    ensures ONE <= q ==> ONE <= q / unit * unit
  {
    var d := q / unit;
    DivBracket(q, unit);
    if d < f {
      MulMonotone(d + 1, f, unit);
    } else {
      MulMonotone(f, d, unit);
    }
  }
}
