/**
 * The spreadsheet-to-CSV ticker normaliser: find the code column of a
 * constituents sheet by a list of accepted names, and turn every cell into an
 * exchange-qualified code (`600000` to `600000.SH`, `000001` to `000001.SZ`).
 */
module TickerCodes {
  import opened Wrappers

  /** Python's `str.isspace()`: the characters that `str.strip()` removes. */
  predicate IsSpace(c: char) {
    c == ' ' || ('\t' <= c <= '\r') || ('\U{1c}' <= c <= '\U{1f}')
    || c == '\U{85}' || c == '\U{a0}' || c == '\U{1680}' || ('\U{2000}' <= c <= '\U{200a}')
    || c == '\U{2028}' || c == '\U{2029}' || c == '\U{202f}' || c == '\U{205f}' || c == '\U{3000}'
  }

  predicate AllSpace(s: string) {
    forall i :: 0 <= i < |s| ==> IsSpace(s[i])
  }

  /** Neither end of `s` is whitespace. */
  predicate IsStripped(s: string) {
    |s| == 0 || (!IsSpace(s[0]) && !IsSpace(s[|s| - 1]))
  }

  function TrimStart(s: string): (r: string)
    ensures |r| <= |s|
  {
    if |s| > 0 && IsSpace(s[0]) then TrimStart(s[1..]) else s
  }

  function TrimEnd(s: string): (r: string)
    ensures |r| <= |s|
  {
    if |s| > 0 && IsSpace(s[|s| - 1]) then TrimEnd(s[..|s| - 1]) else s
  }

  /** Python's `str.strip()` with no argument; `StripShape` says which slice of `s` it is. */
  function Strip(s: string): (r: string)
    ensures |r| <= |s|
  {
    TrimEnd(TrimStart(s))
  }

  lemma {:induction false} TrimStartShape(s: string)
    ensures var t := TrimStart(s);
      |t| <= |s| && t == s[|s| - |t|..] && AllSpace(s[..|s| - |t|]) && (|t| == 0 || !IsSpace(t[0]))
  {
    if |s| > 0 && IsSpace(s[0]) {
      TrimStartShape(s[1..]);
      var t := TrimStart(s);
      assert s[..|s| - |t|] == [s[0]] + s[1..][..|s| - 1 - |t|];
    }
  }

  lemma {:induction false} TrimEndShape(s: string)
    ensures var t := TrimEnd(s);
      |t| <= |s| && t == s[..|t|] && AllSpace(s[|t|..]) && (|t| == 0 || !IsSpace(t[|t| - 1]))
  {
    if |s| > 0 && IsSpace(s[|s| - 1]) {
      TrimEndShape(s[..|s| - 1]);
      var t := TrimEnd(s);
      assert s[|t|..] == s[..|s| - 1][|t|..] + [s[|s| - 1]];
    }
  }

  /**
   * `Strip(s)` is the slice of `s` left after removing whitespace at both ends:
   * all that was removed is whitespace, and what is left neither starts nor ends with it.
   */
  lemma StripShape(s: string)
    ensures var r, i := Strip(s), |s| - |TrimStart(s)|;
      0 <= i && i + |r| <= |s| && r == s[i..i + |r|]
      && AllSpace(s[..i]) && AllSpace(s[i + |r|..]) && IsStripped(r)
  {
    var t := TrimStart(s);
    TrimStartShape(s);
    TrimEndShape(t);
    var r, i := Strip(s), |s| - |t|;
    assert s[i + |r|..] == t[|r|..];
  }

  lemma {:induction false} TrimStartOfSpaces(p: string, x: string)
    requires AllSpace(p)
    ensures TrimStart(p + x) == TrimStart(x)
  {
    if |p| > 0 {
      assert (p + x)[1..] == p[1..] + x;
      TrimStartOfSpaces(p[1..], x);
    } else {
      assert p + x == x;
    }
  }

  lemma {:induction false} TrimEndOfSpaces(x: string, q: string)
    requires AllSpace(q)
    ensures TrimEnd(x + q) == TrimEnd(x)
  {
    if |q| > 0 {
      assert (x + q)[..|x + q| - 1] == x + q[..|q| - 1];
      TrimEndOfSpaces(x, q[..|q| - 1]);
    } else {
      assert x + q == x;
    }
  }

  lemma {:induction false} TrimStartAppend(x: string, q: string)
    ensures TrimStart(x) != [] ==> TrimStart(x + q) == TrimStart(x) + q
    ensures TrimStart(x) == [] ==> AllSpace(x)
  {
    if |x| > 0 {
      assert (x + q)[0] == x[0];
      if IsSpace(x[0]) {
        assert (x + q)[1..] == x[1..] + q;
        TrimStartAppend(x[1..], q);
      }
    }
  }

  lemma {:induction false} SpacesAppend(x: string, q: string)
    requires AllSpace(x) && AllSpace(q)
    ensures AllSpace(x + q)
  {
    forall i | 0 <= i < |x + q| ensures IsSpace((x + q)[i]) {
      if i < |x| { assert (x + q)[i] == x[i]; } else { assert (x + q)[i] == q[i - |x|]; }
    }
  }

  lemma {:induction false} TrimStartOfAllSpace(x: string)
    requires AllSpace(x)
    ensures TrimStart(x) == []
  {
    if |x| > 0 {
      TrimStartOfAllSpace(x[1..]);
    }
  }

  /** Whitespace around a value does not change what `strip` gives. */
  lemma StripPadded(p: string, s: string, q: string)
    requires AllSpace(p) && AllSpace(q)
    ensures Strip(p + s + q) == Strip(s)
  {
    assert p + s + q == p + (s + q);
    TrimStartOfSpaces(p, s + q);
    TrimStartAppend(s, q);
    if TrimStart(s) != [] {
      TrimEndOfSpaces(TrimStart(s), q);
    } else {
      SpacesAppend(s, q);
      TrimStartOfAllSpace(s + q);
    }
  }

  /** A string with no whitespace at either end is its own strip. */
  lemma StripOfStripped(s: string)
    requires IsStripped(s)
    ensures Strip(s) == s
  {
  }

  /** `strip` is idempotent. */
  lemma StripIdempotent(s: string)
    ensures Strip(Strip(s)) == Strip(s)
  {
    StripShape(s);
    StripOfStripped(Strip(s));
  }

  datatype CodeError = UnrecognizedCode(code: string)

  /**
   * `normalize_code`: strip, then qualify a six-character code by its exchange
   * (leading `6`: Shanghai, otherwise Shenzhen), pass through a code that
   * already carries a `.`, and reject anything else.
   */
  function NormalizeCode(code: string): (r: Result<string, CodeError>)
    ensures r.Success? ==> '.' in r.value && IsStripped(r.value)
  {
    var c := Strip(code);
    StripShape(code);
    if |c| == 6 then
      if c[0] == '6' then Success(c + ".SH") else Success(c + ".SZ")
    else if '.' in c then
      Success(c)
    else
      Failure(UnrecognizedCode(c))
  }

  /** The four cases of `normalize_code`, stated on the stripped input. */
  lemma NormalizeCodeCases(code: string)
    ensures var c := Strip(code);
      && (|c| == 6 && c[0] == '6' ==> NormalizeCode(code) == Success(c + ".SH"))
      && (|c| == 6 && c[0] != '6' ==> NormalizeCode(code) == Success(c + ".SZ"))
      && (|c| != 6 && '.' in c ==> NormalizeCode(code) == Success(c))
      && (|c| != 6 && '.' !in c ==> NormalizeCode(code) == Failure(UnrecognizedCode(c)))
  {
  }

  /** Padded and unpadded inputs normalise identically. */
  lemma NormalizeIgnoresPadding(p: string, code: string, q: string)
    requires AllSpace(p) && AllSpace(q)
    ensures NormalizeCode(p + code + q) == NormalizeCode(code)
  {
    StripPadded(p, code, q);
  }

  /** Every code `normalize_code` produces is returned unchanged when normalised again. */
  lemma NormalizeIdempotent(code: string)
    requires NormalizeCode(code).Success?
    ensures NormalizeCode(NormalizeCode(code).value) == NormalizeCode(code)
  {
    var r := NormalizeCode(code).value;
    StripOfStripped(r);
    if |Strip(code)| == 6 {
      assert |r| == 9;
    } else {
      assert r == Strip(code);
      StripIdempotent(code);
    }
  }

  /** The column names accepted for the code column, in order of preference. */
  const POSSIBLE_COLS: seq<string> := ["ts_code", "证券代码", "代码", "stock_code"]

  /** `POSSIBLE_COLS[k]` is a column of the sheet and no name before it is. */
  predicate IsEarliestAlias(columns: seq<string>, k: int) {
    0 <= k < |POSSIBLE_COLS| && POSSIBLE_COLS[k] in columns
    && forall j :: 0 <= j < k ==> POSSIBLE_COLS[j] !in columns
  }

  /** The loop of `main` that picks the code column: the first accepted name the sheet has. */
  method DetectCodeColumn(columns: seq<string>) returns (colCode: Option<string>)
    ensures colCode.None? <==> forall k :: 0 <= k < |POSSIBLE_COLS| ==> POSSIBLE_COLS[k] !in columns
    ensures colCode.Some? ==> exists k :: IsEarliestAlias(columns, k) && POSSIBLE_COLS[k] == colCode.value
  {
    colCode := None;
    var i := 0;
    while i < |POSSIBLE_COLS|
      invariant 0 <= i <= |POSSIBLE_COLS|
      invariant forall j :: 0 <= j < i ==> POSSIBLE_COLS[j] !in columns
    {
      if POSSIBLE_COLS[i] in columns {
        colCode := Some(POSSIBLE_COLS[i]);
        return;
      }
      i := i + 1;
    }
  }

  /** A sheet as `pd.read_excel` gives it: column names and, per row, one cell string per column. */
  datatype Sheet = Sheet(columns: seq<string>, rows: seq<seq<string>>)

  predicate WellFormed(sheet: Sheet) {
    forall i :: 0 <= i < |sheet.rows| ==> |sheet.rows[i]| == |sheet.columns|
  }

  /** The position of the first column called `name`. */
  function IndexOf(columns: seq<string>, name: string): (k: nat)
    requires name in columns
    ensures k < |columns| && columns[k] == name
    ensures forall j :: 0 <= j < k ==> columns[j] != name
  {
    if columns[0] == name then 0 else 1 + IndexOf(columns[1..], name)
  }

  /** The cells of column `k`, in row order (`df[col]`). */
  function Column(sheet: Sheet, k: nat): (cells: seq<string>)
    requires WellFormed(sheet) && k < |sheet.columns|
    ensures |cells| == |sheet.rows|
    ensures forall i :: 0 <= i < |cells| ==> cells[i] == sheet.rows[i][k]
  {
    seq(|sheet.rows|, i requires 0 <= i < |sheet.rows| => sheet.rows[i][k])
  }

  /**
   * `df[col].apply(normalize_code)`: every cell normalised in row order; the
   * first cell that fails aborts the whole column with its error.
   */
  function NormalizeAll(cells: seq<string>): (r: Result<seq<string>, CodeError>)
    ensures r.Success? <==> forall i :: 0 <= i < |cells| ==> NormalizeCode(cells[i]).Success?
    ensures r.Success? ==>
      |r.value| == |cells| && forall i :: 0 <= i < |cells| ==> NormalizeCode(cells[i]) == Success(r.value[i])
    ensures r.Failure? ==>
      exists k :: 0 <= k < |cells| && NormalizeCode(cells[k]) == Failure(r.error)
        && forall j :: 0 <= j < k ==> NormalizeCode(cells[j]).Success?
  {
    if cells == [] then
      Success([])
    else
      match NormalizeCode(cells[0])
      case Failure(e) => Failure(e)
      case Success(c) =>
        match NormalizeAll(cells[1..])
        case Failure(e) =>
          assert forall j :: 1 <= j <= |cells| - 1 ==> cells[1..][j - 1] == cells[j];
          Failure(e)
        case Success(rest) => Success([c] + rest)
  }

  datatype ConvertError = NoCodeColumn(tried: seq<string>) | BadCode(cause: CodeError)

  /**
   * `main`: detect the code column, normalise it, and yield the single
   * `ts_code` column that is written out; nothing is written on an error.
   */
  method ExcelToCsv(sheet: Sheet) returns (r: Result<seq<string>, ConvertError>)
    requires WellFormed(sheet)
    ensures r == Failure(NoCodeColumn(POSSIBLE_COLS))
      <==> forall k :: 0 <= k < |POSSIBLE_COLS| ==> POSSIBLE_COLS[k] !in sheet.columns
    ensures r.Failure? && r.error.NoCodeColumn? ==> r.error.tried == POSSIBLE_COLS
    ensures
      (exists k :: IsEarliestAlias(sheet.columns, k) &&
        var c := IndexOf(sheet.columns, POSSIBLE_COLS[k]);
        forall i :: 0 <= i < |sheet.rows| ==> NormalizeCode(sheet.rows[i][c]).Success?)
      ==> r.Success?
    ensures r.Success? ==> |r.value| == |sheet.rows|
    ensures r.Success? ==>
      (exists k :: IsEarliestAlias(sheet.columns, k) &&
        var c := IndexOf(sheet.columns, POSSIBLE_COLS[k]);
        forall i :: 0 <= i < |sheet.rows| ==> NormalizeCode(sheet.rows[i][c]) == Success(r.value[i]))
    ensures r.Failure? && r.error.BadCode? ==>
      (exists k :: IsEarliestAlias(sheet.columns, k) &&
        var c := IndexOf(sheet.columns, POSSIBLE_COLS[k]);
        exists i :: 0 <= i < |sheet.rows| && NormalizeCode(sheet.rows[i][c]) == Failure(r.error.cause))
  {
    var colCode := DetectCodeColumn(sheet.columns);
    if colCode.None? {
      return Failure(NoCodeColumn(POSSIBLE_COLS));
    }
    var c := IndexOf(sheet.columns, colCode.value);
    var cells := Column(sheet, c);
    var out := NormalizeAll(cells);
    match out
    case Failure(e) =>
      r := Failure(BadCode(e));
    case Success(codes) =>
      r := Success(codes);
  }
}
