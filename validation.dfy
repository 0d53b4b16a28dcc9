/** The CSV validator: it walks the sheet row by row and cell by cell and
    stops at the first cell that breaks a rule. */
module Validation {

  import opened Wrappers
  import opened Schema

  /** Why a cell was rejected (each reason has its own error popup). */
  datatype Reason =
    | HeaderMismatch
    | BlankCell
    | TitleTooLong
    | DescriptionTooLong
    | NotTrueOrFalse
    | CoverPhotoIdNot24
    | CoverPhotoFileNameTooLong
    | FieldNameTooLong
    | UnknownFieldType
    | FieldDescriptionTooLong

  /** What checking one cell does when it does not pass: the validator returns
      False with a reason, or an index into the header raises IndexError. */
  datatype Stop = Reject(reason: Reason) | IndexError

  /** The outcome of validating a sheet. `row` and `col` are 1-based, as in the
      error messages. */
  datatype Verdict =
    | Valid
    | Invalid(row: nat, col: nat, reason: Reason)
    | Raises(row: nat, col: nat)

  /** The rules for one data cell under header `h`, in the order the validator
      tries them. */
  function ColumnRule(h: string, cell: string): (r: Option<Reason>)
    ensures r.None? <==> CellAcceptable(h, cell)
    ensures h != NewValueForAllMeritsColumn && cell == "" ==> r == Some(BlankCell)
    ensures r != Some(HeaderMismatch)
  {
    if h != NewValueForAllMeritsColumn && cell == "" then Some(BlankCell)
    else if h == TitleColumn && |cell| > 60 then Some(TitleTooLong)
    else if h == DescriptionColumn && |cell| > 160 then Some(DescriptionTooLong)
    else if h == CanOnlyBeSentOnceColumn && cell != "TRUE" && cell != "FALSE" then Some(NotTrueOrFalse)
    else if h == CoverPhotoIdColumn && |cell| != 24 then Some(CoverPhotoIdNot24)
    else if h == CoverPhotoFileNameColumn && |cell| > 160 then Some(CoverPhotoFileNameTooLong)
    else if h == FieldNameColumn && |cell| > 35 then Some(FieldNameTooLong)
    else if h == FieldTypeColumn && cell !in FieldTypes then Some(UnknownFieldType)
    else if h == FieldDescriptionColumn && |cell| > 160 then Some(FieldDescriptionTooLong)
    else if h == NewEnabledColumn && cell != "TRUE" && cell != "FALSE" then Some(NotTrueOrFalse)
    else if h == NewRequiredColumn && cell != "TRUE" && cell != "FALSE" then Some(NotTrueOrFalse)
    else None
  }

  /** What a data cell under header `h` must satisfy, stated rule by rule. */
  predicate CellAcceptable(h: string, cell: string)
  {
    && (cell == "" ==> h == NewValueForAllMeritsColumn)
    && (h == TitleColumn ==> |cell| <= 60)
    && (h == DescriptionColumn ==> |cell| <= 160)
    && (h == CanOnlyBeSentOnceColumn ==> cell == "TRUE" || cell == "FALSE")
    && (h == CoverPhotoIdColumn ==> |cell| == 24)
    && (h == CoverPhotoFileNameColumn ==> |cell| <= 160)
    && (h == FieldNameColumn ==> |cell| <= 35)
    && (h == FieldTypeColumn ==> cell in FieldTypes)
    && (h == FieldDescriptionColumn ==> |cell| <= 160)
    && (h == NewEnabledColumn ==> cell == "TRUE" || cell == "FALSE")
    && (h == NewRequiredColumn ==> cell == "TRUE" || cell == "FALSE")
  }

  /** What the validator does with the cell at 0-based row `num`, column `col`. */
  function CellStop(sheet: Sheet, num: nat, col: nat): (r: Option<Stop>)
    requires num < |sheet| && col < |sheet[num]|
    ensures num == 0 ==> (r.None? <==> col < |Header| && sheet[0][col] == Header[col])
    ensures num > 0 ==> (r.None? <==> col < |sheet[0]| && CellAcceptable(sheet[0][col], sheet[num][col]))
    ensures r == Some(IndexError) <==> col >= (if num == 0 then |Header| else |sheet[0]|)
    ensures r.Some? && r.value.Reject? ==> (r.value.reason == HeaderMismatch <==> num == 0)
  {
    var cell := sheet[num][col];
    if num == 0 then
      if col >= |Header| then Some(IndexError)
      else if cell != Header[col] then Some(Reject(HeaderMismatch))
      else None
    else if col >= |sheet[0]| then Some(IndexError)
    else
      match ColumnRule(sheet[0][col], cell)
      case None => None
      case Some(r) => Some(Reject(r))
  }

  /** The verdict reported when the walk stops at 0-based (`num`, `col`). */
  function VerdictAt(num: nat, col: nat, s: Stop): (v: Verdict)
    ensures v != Valid
  {
    match s
    case Reject(r) => Invalid(num + 1, col + 1, r)
    case IndexError => Raises(num + 1, col + 1)
  }

  /** The walk in row-major order, starting at (`num`, `col`). */
  function Scan(sheet: Sheet, num: nat, col: nat): (v: Verdict)
    requires num <= |sheet|
    requires num < |sheet| ==> col <= |sheet[num]|
    ensures v != Valid ==> num + 1 <= v.row <= |sheet| && 1 <= v.col <= |sheet[v.row - 1]|
    ensures v != Valid && v.row == num + 1 ==> v.col >= col + 1
    ensures v.Invalid? ==> (v.reason == HeaderMismatch <==> v.row == 1)
    decreases |sheet| - num, if num < |sheet| then |sheet[num]| - col else 0
  {
    if num == |sheet| then Valid
    else if col == |sheet[num]| then Scan(sheet, num + 1, 0)
    else
      match CellStop(sheet, num, col)
      case None => Scan(sheet, num, col + 1)
      case Some(s) => VerdictAt(num, col, s)
  }

  /** The verdict on a whole sheet. */
  function Validate(sheet: Sheet): (v: Verdict)
    ensures v != Valid ==> 1 <= v.row <= |sheet| && 1 <= v.col <= |sheet[v.row - 1]|
    ensures v.Invalid? ==> (v.reason == HeaderMismatch <==> v.row == 1)
  {
    Scan(sheet, 0, 0)
  }

  /** The validator over an already tokenised CSV. */
  method TemplatesFileValidation(sheet: Sheet) returns (v: Verdict)
    ensures v == Validate(sheet)
  {
    var num := 0;
    while num < |sheet|
      invariant num <= |sheet|
      invariant Scan(sheet, num, 0) == Validate(sheet)
    {
      var row := sheet[num];
      var col := 0;
      while col < |row|
        invariant col <= |row|
        invariant Scan(sheet, num, col) == Validate(sheet)
      {
        var cell := row[col];
        if num == 0 {
          if col >= |Header| {
            return Raises(num + 1, col + 1);
          }
          if cell != Header[col] {
            return Invalid(num + 1, col + 1, HeaderMismatch);
          }
        } else if col >= |sheet[0]| {
          return Raises(num + 1, col + 1);
        } else if sheet[0][col] != NewValueForAllMeritsColumn && cell == "" {
          return Invalid(num + 1, col + 1, BlankCell);
        } else {
          var h := sheet[0][col];
          if h == TitleColumn && |cell| > 60 {
            return Invalid(num + 1, col + 1, TitleTooLong);
          }
          if h == DescriptionColumn && |cell| > 160 {
            return Invalid(num + 1, col + 1, DescriptionTooLong);
          }
          if h == CanOnlyBeSentOnceColumn && cell != "TRUE" && cell != "FALSE" {
            return Invalid(num + 1, col + 1, NotTrueOrFalse);
          }
          if h == CoverPhotoIdColumn && |cell| != 24 {
            return Invalid(num + 1, col + 1, CoverPhotoIdNot24);
          }
          if h == CoverPhotoFileNameColumn && |cell| > 160 {
            return Invalid(num + 1, col + 1, CoverPhotoFileNameTooLong);
          }
          if h == FieldNameColumn && |cell| > 35 {
            return Invalid(num + 1, col + 1, FieldNameTooLong);
          }
          if h == FieldTypeColumn && cell !in FieldTypes {
            return Invalid(num + 1, col + 1, UnknownFieldType);
          }
          if h == FieldDescriptionColumn && |cell| > 160 {
            return Invalid(num + 1, col + 1, FieldDescriptionTooLong);
          }
          if h == NewEnabledColumn && cell != "TRUE" && cell != "FALSE" {
            return Invalid(num + 1, col + 1, NotTrueOrFalse);
          }
          if h == NewRequiredColumn && cell != "TRUE" && cell != "FALSE" {
            return Invalid(num + 1, col + 1, NotTrueOrFalse);
          }
        }
        col := col + 1;
      }
      num := num + 1;
    }
    return Valid;
  }

  // ---------------------------------------------------------------------
  // Where the walk stops

  /** Every cell of row `n` from column `c` on passes. */
  ghost predicate CleanRowFrom(sheet: Sheet, n: nat, c: nat)
    requires n < |sheet|
  {
    forall k :: c <= k < |sheet[n]| ==> CellStop(sheet, n, k) == None
  }

  /** Every cell from (`num`, `col`) to the end of the sheet passes. */
  ghost predicate CleanFrom(sheet: Sheet, num: nat, col: nat)
    requires num <= |sheet|
  {
    && (num < |sheet| ==> CleanRowFrom(sheet, num, col))
    && (forall n :: num < n < |sheet| ==> CleanRowFrom(sheet, n, 0))
  }

  /** Every cell strictly before (`n`, `c`) in row-major order passes. */
  ghost predicate CleanBefore(sheet: Sheet, n: nat, c: nat)
    requires n < |sheet| && c <= |sheet[n]|
  {
    && (forall m :: 0 <= m < n ==> CleanRowFrom(sheet, m, 0))
    && (forall k :: 0 <= k < c ==> CellStop(sheet, n, k) == None)
  }

  /** Every cell from (`num`, `col`) up to, not including, (`n`, `c`) passes. */
  ghost predicate CleanBetween(sheet: Sheet, num: nat, col: nat, n: nat, c: nat)
    requires num <= n < |sheet| && col <= |sheet[num]| && c <= |sheet[n]|
  {
    if num == n then
      forall k :: col <= k < c ==> CellStop(sheet, n, k) == None
    else
      && CleanRowFrom(sheet, num, col)
      && (forall m :: num < m < n ==> CleanRowFrom(sheet, m, 0))
      && (forall k :: 0 <= k < c ==> CellStop(sheet, n, k) == None)
  }

  lemma {:induction false} ScanValidIff(sheet: Sheet, num: nat, col: nat)
    requires num <= |sheet|
    requires num < |sheet| ==> col <= |sheet[num]|
    ensures Scan(sheet, num, col) == Valid <==> CleanFrom(sheet, num, col)
    decreases |sheet| - num, if num < |sheet| then |sheet[num]| - col else 0
  {
    if num == |sheet| {
    } else if col == |sheet[num]| {
      ScanValidIff(sheet, num + 1, 0);
    } else if CellStop(sheet, num, col) == None {
      ScanValidIff(sheet, num, col + 1);
    }
  }

  /** The walk from (`num`, `col`) stops first at (`n`, `c`), with that verdict. */
  ghost predicate FirstStopAt(sheet: Sheet, num: nat, col: nat, n: nat, c: nat)
    requires num <= |sheet|
    requires num < |sheet| ==> col <= |sheet[num]|
  {
    && num <= n < |sheet| && c < |sheet[n]| && (n == num ==> col <= c)
    && CellStop(sheet, n, c).Some?
    && CleanBetween(sheet, num, col, n, c)
    && Scan(sheet, num, col) == VerdictAt(n, c, CellStop(sheet, n, c).value)
  }

  lemma {:induction false} ScanReportsFirstStop(sheet: Sheet, num: nat, col: nat)
    requires num <= |sheet|
    requires num < |sheet| ==> col <= |sheet[num]|
    ensures Scan(sheet, num, col) != Valid ==> exists n: nat, c: nat :: FirstStopAt(sheet, num, col, n, c)
    decreases |sheet| - num, if num < |sheet| then |sheet[num]| - col else 0
  {
    if num == |sheet| {
    } else if col == |sheet[num]| {
      ScanReportsFirstStop(sheet, num + 1, 0);
      if Scan(sheet, num, col) != Valid {
        var n: nat, c: nat :| FirstStopAt(sheet, num + 1, 0, n, c);
        assert CleanBetween(sheet, num, col, n, c);
        assert FirstStopAt(sheet, num, col, n, c);
      }
    } else if CellStop(sheet, num, col) == None {
      ScanReportsFirstStop(sheet, num, col + 1);
      if Scan(sheet, num, col) != Valid {
        var n: nat, c: nat :| FirstStopAt(sheet, num, col + 1, n, c);
        assert CleanBetween(sheet, num, col, n, c);
        assert FirstStopAt(sheet, num, col, n, c);
      }
    } else {
      assert CleanBetween(sheet, num, col, num, col);
      assert FirstStopAt(sheet, num, col, num, col);
    }
  }

  lemma {:induction false} ScanStopsAt(sheet: Sheet, num: nat, col: nat, n: nat, c: nat)
    requires num <= n < |sheet| && col <= |sheet[num]| && c < |sheet[n]|
    requires n == num ==> col <= c
    requires CellStop(sheet, n, c).Some?
    requires CleanBetween(sheet, num, col, n, c)
    ensures Scan(sheet, num, col) == VerdictAt(n, c, CellStop(sheet, n, c).value)
    decreases |sheet| - num, |sheet[num]| - col
  {
    if num == n && col == c {
    } else if col == |sheet[num]| {
      ScanStopsAt(sheet, num + 1, 0, n, c);
    } else {
      assert CellStop(sheet, num, col) == None;
      ScanStopsAt(sheet, num, col + 1, n, c);
    }
  }

  // ---------------------------------------------------------------------
  // The validator's promises

  /** The sheet is valid exactly when no cell trips a rule or an index. */
  lemma ValidateValidIff(sheet: Sheet)
    ensures Validate(sheet) == Valid <==> CleanFrom(sheet, 0, 0)
  {
    ScanValidIff(sheet, 0, 0);
  }

  /** When the sheet is not valid, the verdict names a cell that stops the
      walk, and every cell before it passes. */
  lemma ValidateReportsFirstStop(sheet: Sheet)
    requires Validate(sheet) != Valid
    ensures exists n: nat, c: nat ::
      && n < |sheet| && c < |sheet[n]|
      && CellStop(sheet, n, c).Some?
      && CleanBefore(sheet, n, c)
      && Validate(sheet) == VerdictAt(n, c, CellStop(sheet, n, c).value)
  {
    ScanReportsFirstStop(sheet, 0, 0);
    var n: nat, c: nat :| FirstStopAt(sheet, 0, 0, n, c);
    assert CleanBefore(sheet, n, c);
  }

  /** The first cell that does not pass decides the verdict. */
  lemma ValidateStopsAt(sheet: Sheet, n: nat, c: nat)
    requires n < |sheet| && c < |sheet[n]|
    requires CellStop(sheet, n, c).Some?
    requires CleanBefore(sheet, n, c)
    ensures Validate(sheet) == VerdictAt(n, c, CellStop(sheet, n, c).value)
  {
    if n == 0 {
      assert CleanBetween(sheet, 0, 0, n, c);
    } else {
      assert CleanBetween(sheet, 0, 0, n, c);
    }
    ScanStopsAt(sheet, 0, 0, n, c);
  }

  // ---------------------------------------------------------------------
  // The rules, stated over the whole sheet

  /** A sheet the validator accepts, described without the walk: the header
      row is a prefix of `Header`, no data row is longer than the header row,
      and every data cell meets the rules of its column. */
  ghost predicate WellFormed(sheet: Sheet)
  {
    |sheet| > 0 ==>
      && sheet[0] <= Header
      && (forall n :: 0 < n < |sheet| ==> |sheet[n]| <= |sheet[0]|)
      && (forall n, c :: 0 < n < |sheet| && 0 <= c < |sheet[n]| && c < |sheet[0]| ==>
            CellAcceptable(sheet[0][c], sheet[n][c]))
  }

  /** The validator returns True exactly for well-formed sheets. */
  lemma ValidIffWellFormed(sheet: Sheet)
    ensures Validate(sheet) == Valid <==> WellFormed(sheet)
  {
    ValidateValidIff(sheet);
    if |sheet| > 0 {
      if CleanFrom(sheet, 0, 0) {
        assert CleanRowFrom(sheet, 0, 0);
        assert |sheet[0]| <= |Header| by {
          if |sheet[0]| > 0 {
            assert CellStop(sheet, 0, |sheet[0]| - 1) == None;
          }
        }
        forall k | 0 <= k < |sheet[0]|
          ensures sheet[0][k] == Header[..|sheet[0]|][k]
        {
          assert CellStop(sheet, 0, k) == None;
        }
        assert sheet[0] == Header[..|sheet[0]|];
        forall n | 0 < n < |sheet|
          ensures |sheet[n]| <= |sheet[0]|
        {
          assert CleanRowFrom(sheet, n, 0);
          if |sheet[n]| > 0 {
            assert CellStop(sheet, n, |sheet[n]| - 1) == None;
          }
        }
        forall n, c | 0 < n < |sheet| && 0 <= c < |sheet[n]| && c < |sheet[0]|
          ensures CellAcceptable(sheet[0][c], sheet[n][c])
        {
          assert CleanRowFrom(sheet, n, 0);
          assert CellStop(sheet, n, c) == None;
        }
      }
      if WellFormed(sheet) {
        forall k | 0 <= k < |sheet[0]|
          ensures CellStop(sheet, 0, k) == None
        {
          assert sheet[0][k] == Header[k];
        }
        assert CleanRowFrom(sheet, 0, 0);
        forall n | 0 < n < |sheet|
          ensures CleanRowFrom(sheet, n, 0)
        {
          forall k | 0 <= k < |sheet[n]|
            ensures CellStop(sheet, n, k) == None
          {
            assert k < |sheet[0]|;
          }
        }
        assert CleanFrom(sheet, 0, 0);
      }
    }
  }

  /** A verdict in row 1 is a header mismatch at the reported column, and
      the header row agrees with `Header` everywhere before it. */
  lemma HeaderMismatchReported(sheet: Sheet)
    requires Validate(sheet).Invalid? && Validate(sheet).row == 1
    ensures |sheet| > 0
    ensures var c := Validate(sheet).col - 1;
      && Validate(sheet).reason == HeaderMismatch
      && 0 <= c < |sheet[0]| && c < |Header| && sheet[0][c] != Header[c]
      && sheet[0][..c] == Header[..c]
  {
    ValidateReportsFirstStop(sheet);
    var n: nat, c: nat :|
      && n < |sheet| && c < |sheet[n]|
      && CellStop(sheet, n, c).Some?
      && CleanBefore(sheet, n, c)
      && Validate(sheet) == VerdictAt(n, c, CellStop(sheet, n, c).value);
    assert n == 0;
    assert CellStop(sheet, 0, c) == Some(Reject(HeaderMismatch));
    assert c < |Header| && sheet[0][c] != Header[c];
    HeaderPrefixPasses(sheet, c);
  }

  /** Header cells that pass agree with `Header`. */
  lemma HeaderPrefixPasses(sheet: Sheet, c: nat)
    requires |sheet| > 0 && c <= |sheet[0]|
    requires forall k :: 0 <= k < c ==> CellStop(sheet, 0, k) == None
    ensures c <= |Header| && sheet[0][..c] == Header[..c]
  {
    if c > 0 {
      assert CellStop(sheet, 0, c - 1) == None;
    }
    forall k | 0 <= k < c
      ensures sheet[0][..c][k] == Header[..c][k]
    {
      assert CellStop(sheet, 0, k) == None;
    }
  }

  /** A header row no longer than `Header` that is not rejected is a prefix
      of `Header`. */
  lemma HeaderAccepted(sheet: Sheet)
    requires |sheet| > 0 && |sheet[0]| <= |Header|
    requires !(Validate(sheet).Invalid? && Validate(sheet).row == 1)
    ensures sheet[0] == Header[..|sheet[0]|]
  {
    if Validate(sheet) == Valid {
      ValidateValidIff(sheet);
      assert CleanRowFrom(sheet, 0, 0);
    } else {
      ValidateReportsFirstStop(sheet);
      var n: nat, c: nat :|
        && n < |sheet| && c < |sheet[n]|
        && CellStop(sheet, n, c).Some?
        && CleanBefore(sheet, n, c)
        && Validate(sheet) == VerdictAt(n, c, CellStop(sheet, n, c).value);
      assert n > 0;
      assert CleanRowFrom(sheet, 0, 0);
    }
    forall k | 0 <= k < |sheet[0]|
      ensures sheet[0][k] == Header[..|sheet[0]|][k]
    {
      assert CellStop(sheet, 0, k) == None;
    }
  }

  /** A header row no longer than `Header` never raises IndexError. */
  lemma HeaderNeverRaises(sheet: Sheet)
    requires |sheet| > 0 && |sheet[0]| <= |Header|
    ensures Validate(sheet).Raises? ==> Validate(sheet).row > 1
  {
    if Validate(sheet).Raises? {
      ValidateReportsFirstStop(sheet);
      var n: nat, c: nat :|
        && n < |sheet| && c < |sheet[n]|
        && CellStop(sheet, n, c).Some?
        && CleanBefore(sheet, n, c)
        && Validate(sheet) == VerdictAt(n, c, CellStop(sheet, n, c).value);
      assert n > 0;
    }
  }

  /** The header row is rejected exactly when one of its cells differs from
      the expected column name. */
  lemma HeaderRejectedIff(sheet: Sheet)
    requires |sheet| > 0 && |sheet[0]| <= |Header|
    ensures (Validate(sheet).Invalid? && Validate(sheet).row == 1) <==>
      (exists c :: 0 <= c < |sheet[0]| && sheet[0][c] != Header[c])
  {
    if Validate(sheet).Invalid? && Validate(sheet).row == 1 {
      HeaderMismatchReported(sheet);
      var c := Validate(sheet).col - 1;
      assert sheet[0][c] != Header[c];
    } else {
      HeaderAccepted(sheet);
      forall c | 0 <= c < |sheet[0]|
        ensures sheet[0][c] == Header[c]
      {
        assert Header[..|sheet[0]|][c] == Header[c];
      }
    }
  }

  /** A header row that agrees with all 215 columns of `Header` and goes on
      raises IndexError at its 216th cell. */
  lemma HeaderTooLongRaises(sheet: Sheet)
    requires |sheet| > 0 && |sheet[0]| > |Header|
    requires sheet[0][..|Header|] == Header
    ensures Validate(sheet) == Raises(1, 216)
  {
    HeaderLayout(0);
    forall k | 0 <= k < |Header|
      ensures CellStop(sheet, 0, k) == None
    {
      assert sheet[0][..|Header|][k] == sheet[0][k];
    }
    ValidateStopsAt(sheet, 0, |Header|);
  }

  /** A blank data cell outside the `field.newValueForAllMerits` columns is
      rejected, with its 1-based row and column, once every earlier cell
      passes. */
  lemma BlankCellRejected(sheet: Sheet, n: nat, c: nat)
    requires 0 < n < |sheet| && c < |sheet[n]| && c < |sheet[0]|
    requires sheet[n][c] == "" && sheet[0][c] != NewValueForAllMeritsColumn
    requires CleanBefore(sheet, n, c)
    ensures Validate(sheet) == Invalid(n + 1, c + 1, BlankCell)
  {
    ValidateStopsAt(sheet, n, c);
  }

  /** A non-blank `coverPhotoId` cell that is not exactly 24 characters long
      (23, say) is rejected, naming that cell, once every earlier cell passes. */
  lemma CoverPhotoIdWrongLength(sheet: Sheet, n: nat, c: nat)
    requires 0 < n < |sheet| && c < |sheet[n]| && c < |sheet[0]|
    requires sheet[0][c] == CoverPhotoIdColumn
    requires sheet[n][c] != "" && |sheet[n][c]| != 24
    requires CleanBefore(sheet, n, c)
    ensures Validate(sheet) == Invalid(n + 1, c + 1, CoverPhotoIdNot24)
  {
    ValidateStopsAt(sheet, n, c);
  }
}
