/**
 * `build_hs300_panel`: restrict the daily quotes and the daily metrics to the
 * index constituents, turn their `YYYYMMDD` trade dates into days, left-merge
 * the metrics onto the quotes on (code, day), and sort by (code, day).
 */
module Hs300Panel {
  import opened Wrappers
  import opened TradeDates
  import opened Hs300Data

  /** A provider row whose trade date has been parsed. */
  datatype DatedRow<P> = DatedRow(tsCode: string, tradeDate: Date, payload: P)

  /** A row of the panel: a quote, with the metrics of the same code and day when there are any. */
  datatype PanelRow = PanelRow(tsCode: string, tradeDate: Date, quote: Quote, metrics: Option<Metrics>)

  datatype PanelError = BadTradeDate(value: string)

  // ---------------------------------------------------------------------------
  // Universe filter

  /** `df[df["ts_code"].isin(codes)]`: the rows whose code is in `codes`, in their original order. */
  function InUniverse<P(==,!new)>(rows: seq<Row<P>>, codes: set<string>): (r: seq<Row<P>>)
    ensures IsSubsequence(r, rows)
    ensures forall x :: multiset(r)[x] == if x.tsCode in codes then multiset(rows)[x] else 0
  {
    if rows == [] then []
    else
      var rest := InUniverse(rows[1..], codes);
      assert rows == [rows[0]] + rows[1..];
      if rows[0].tsCode in codes then
        assert ([rows[0]] + rest)[1..] == rest;
        [rows[0]] + rest
      else
        SubsequenceSkip(rest, rows[0], rows[1..]);
        rest
  }

  // ---------------------------------------------------------------------------
  // Trade dates

  function Dated<P>(row: Row<P>): DatedRow<P>
    requires ParseTradeDate(row.tradeDate).Some?
  {
    DatedRow(row.tsCode, ParseTradeDate(row.tradeDate).value, row.payload)
  }

  /** `pd.to_datetime(df["trade_date"], format="%Y%m%d")`: every date parsed, or an error for the first one that is not a day. */
  function ParseDates<P>(rows: seq<Row<P>>): (r: Result<seq<DatedRow<P>>, PanelError>)
    ensures r.Success? <==> forall i :: 0 <= i < |rows| ==> ParseTradeDate(rows[i].tradeDate).Some?
    ensures r.Success? ==> |r.value| == |rows| && forall i :: 0 <= i < |rows| ==> r.value[i] == Dated(rows[i])
    ensures r.Failure? ==>
      exists i :: 0 <= i < |rows| && ParseTradeDate(rows[i].tradeDate).None? && r.error == BadTradeDate(rows[i].tradeDate)
  {
    if rows == [] then Success([])
    else if ParseTradeDate(rows[0].tradeDate).None? then Failure(BadTradeDate(rows[0].tradeDate))
    else
      match ParseDates(rows[1..])
      case Failure(e) =>
        assert forall i :: 1 <= i < |rows| ==> rows[1..][i - 1] == rows[i];
        Failure(e)
      case Success(rest) =>
        assert forall i :: 1 <= i < |rows| ==> rows[1..][i - 1] == rows[i];
        Success([Dated(rows[0])] + rest)
  }

  /**
   * No two rows share a (code, trade date) key. The same condition is stated on raw rows
   * (`UniqueRowKeys`, date strings), parsed rows (`UniqueDatedKeys`, days) and panel rows
   * (`UniquePanelKeys`); the row types differ, so each is written over its own type.
   */
  predicate UniqueRowKeys<P>(rows: seq<Row<P>>) {
    forall i, j :: 0 <= i < j < |rows| ==> !(rows[i].tsCode == rows[j].tsCode && rows[i].tradeDate == rows[j].tradeDate)
  }

  /** `UniqueRowKeys` for parsed rows. */
  predicate UniqueDatedKeys<P>(rows: seq<DatedRow<P>>) {
    forall i, j :: 0 <= i < j < |rows| ==> !(rows[i].tsCode == rows[j].tsCode && rows[i].tradeDate == rows[j].tradeDate)
  }

  /** Parsing keeps keys apart: rows with distinct (code, date string) keys get distinct (code, day) keys. */
  lemma ParsedKeysUnique<P>(rows: seq<Row<P>>)
    requires ParseDates(rows).Success? && UniqueRowKeys(rows)
    ensures UniqueDatedKeys(ParseDates(rows).value)
  {
    var d := ParseDates(rows).value;
    forall i, j | 0 <= i < j < |d| ensures !(d[i].tsCode == d[j].tsCode && d[i].tradeDate == d[j].tradeDate) {
      if d[i].tsCode == d[j].tsCode && d[i].tradeDate == d[j].tradeDate {
        ParseInjective(rows[i].tradeDate, rows[j].tradeDate);
      }
    }
  }

  // ---------------------------------------------------------------------------
  // Left merge

  predicate HasKey<P>(row: DatedRow<P>, code: string, date: Date) {
    row.tsCode == code && row.tradeDate == date
  }

  /** The metrics of every right row with the given key, in right order. */
  function Matches(right: seq<DatedRow<Metrics>>, code: string, date: Date): (ms: seq<Metrics>)
    ensures forall m :: m in ms ==> exists j :: 0 <= j < |right| && HasKey(right[j], code, date) && right[j].payload == m
    ensures ms == [] <==> forall j :: 0 <= j < |right| ==> !HasKey(right[j], code, date)
  {
    if right == [] then []
    else
      var rest := Matches(right[1..], code, date);
      assert forall j :: 1 <= j < |right| ==> right[1..][j - 1] == right[j];
      (if HasKey(right[0], code, date) then [right[0].payload] else []) + rest
  }

  /** The output rows of one left row: one per matching right row, or one with absent metrics. */
  function MergeRow(l: DatedRow<Quote>, right: seq<DatedRow<Metrics>>): (out: seq<PanelRow>)
    ensures |out| >= 1
    ensures forall k :: 0 <= k < |out| ==> out[k].tsCode == l.tsCode && out[k].tradeDate == l.tradeDate && out[k].quote == l.payload
  {
    var ms := Matches(right, l.tsCode, l.tradeDate);
    if ms == [] then [PanelRow(l.tsCode, l.tradeDate, l.payload, None)]
    else seq(|ms|, i requires 0 <= i < |ms| => PanelRow(l.tsCode, l.tradeDate, l.payload, Some(ms[i])))
  }

  /** `row` carries the code, day and quote of the left row `l`. */
  predicate FromLeft(row: PanelRow, l: DatedRow<Quote>) {
    row.tsCode == l.tsCode && row.tradeDate == l.tradeDate && row.quote == l.payload
  }

  /**
   * `pd.merge(left, right, on=["ts_code", "trade_date"], how="left")`: the
   * left rows in order, each followed through by its output rows (one per
   * matching right row, or one with absent metrics).
   */
  function MergeLeft(left: seq<DatedRow<Quote>>, right: seq<DatedRow<Metrics>>): (r: seq<PanelRow>)
    ensures |r| >= |left|
  {
    if left == [] then [] else MergeRow(left[0], right) + MergeLeft(left[1..], right)
  }

  /** `row` continues some row of `left`. */
  predicate ContinuesLeft(row: PanelRow, left: seq<DatedRow<Quote>>) {
    exists i :: 0 <= i < |left| && FromLeft(row, left[i])
  }

  /** Some row of `out` continues the left row `l`. */
  predicate Continued(l: DatedRow<Quote>, out: seq<PanelRow>) {
    exists k :: 0 <= k < |out| && FromLeft(out[k], l)
  }

  /** Every output row of the merge continues a left row: the merge invents no rows. */
  lemma {:induction false} MergeLeftFromLeft(left: seq<DatedRow<Quote>>, right: seq<DatedRow<Metrics>>)
    ensures forall k :: 0 <= k < |MergeLeft(left, right)| ==> ContinuesLeft(MergeLeft(left, right)[k], left)
  {
    if left != [] {
      var head, rest := MergeRow(left[0], right), MergeLeft(left[1..], right);
      MergeLeftFromLeft(left[1..], right);
      var r := MergeLeft(left, right);
      assert r == head + rest;
      forall k | 0 <= k < |r| ensures ContinuesLeft(r[k], left) {
        if k < |head| {
          assert r[k] == head[k] && FromLeft(r[k], left[0]);
        } else {
          var k' := k - |head|;
          assert 0 <= k' < |rest| && r[k] == rest[k'];
          assert ContinuesLeft(rest[k'], left[1..]);
          var i :| 0 <= i < |left[1..]| && FromLeft(rest[k'], left[1..][i]);
          assert left[1..][i] == left[i + 1];
        }
      }
    }
  }

  /** Every left row has at least one output row: the merge is left-preserving. */
  lemma {:induction false} MergeLeftKeepsLeft(left: seq<DatedRow<Quote>>, right: seq<DatedRow<Metrics>>)
    ensures var r := MergeLeft(left, right);
      forall i :: 0 <= i < |left| ==> Continued(left[i], r)
  {
    if left != [] {
      var head, rest := MergeRow(left[0], right), MergeLeft(left[1..], right);
      MergeLeftKeepsLeft(left[1..], right);
      var r := MergeLeft(left, right);
      assert r == head + rest;
      forall i | 0 <= i < |left| ensures Continued(left[i], r) {
        if i == 0 {
          assert r[0] == head[0] && FromLeft(r[0], left[0]);
        } else {
          assert left[1..][i - 1] == left[i];
          assert Continued(left[1..][i - 1], rest);
          var k :| 0 <= k < |rest| && FromLeft(rest[k], left[i]);
          assert r[k + |head|] == rest[k];
        }
      }
    }
  }

  /** The metrics a left-merge attaches under unique right keys. */
  function Lookup(right: seq<DatedRow<Metrics>>, code: string, date: Date): Option<Metrics> {
    var ms := Matches(right, code, date);
    if ms == [] then None else Some(ms[0])
  }

  lemma {:induction false} MatchesAtMostOne(right: seq<DatedRow<Metrics>>, code: string, date: Date)
    requires UniqueDatedKeys(right)
    ensures |Matches(right, code, date)| <= 1
  {
    if right != [] {
      MatchesAtMostOne(right[1..], code, date);
      if HasKey(right[0], code, date) {
        assert forall j :: 1 <= j < |right| ==> right[1..][j - 1] == right[j];
        assert Matches(right[1..], code, date) == [];
      }
    }
  }

  /** With unique right keys one left row yields exactly one row, carrying the metrics of its key or none. */
  lemma MergeRowUniqueRight(l: DatedRow<Quote>, right: seq<DatedRow<Metrics>>)
    requires UniqueDatedKeys(right)
    ensures MergeRow(l, right) == [PanelRow(l.tsCode, l.tradeDate, l.payload, Lookup(right, l.tsCode, l.tradeDate))]
  {
    MatchesAtMostOne(right, l.tsCode, l.tradeDate);
    var ms := Matches(right, l.tsCode, l.tradeDate);
    if ms != [] {
      assert |ms| == 1;
    }
  }

  /**
   * With unique right keys the merge neither drops nor duplicates: output row
   * `i` is left row `i` with the metrics of its key attached, or absent metrics.
   */
  lemma {:induction false} MergeLeftUniqueRight(left: seq<DatedRow<Quote>>, right: seq<DatedRow<Metrics>>)
    requires UniqueDatedKeys(right)
    ensures var r := MergeLeft(left, right);
      |r| == |left|
      && forall i :: 0 <= i < |left| ==>
        r[i] == PanelRow(left[i].tsCode, left[i].tradeDate, left[i].payload, Lookup(right, left[i].tsCode, left[i].tradeDate))
  {
    if left != [] {
      var l := left[0];
      MergeRowUniqueRight(l, right);
      var head := MergeRow(l, right);
      MergeLeftUniqueRight(left[1..], right);
      var rest := MergeLeft(left[1..], right);
      var r := MergeLeft(left, right);
      assert r == head + rest;
      forall i | 0 <= i < |left|
        ensures r[i] == PanelRow(left[i].tsCode, left[i].tradeDate, left[i].payload, Lookup(right, left[i].tsCode, left[i].tradeDate))
      {
        if i > 0 {
          assert r[i] == rest[i - 1] && left[1..][i - 1] == left[i];
        }
      }
    }
  }

  // ---------------------------------------------------------------------------
  // Sorting by (ts_code, trade_date)

  /** Python's string order: lexicographic by code point, a proper prefix first. */
  predicate StrLe(a: string, b: string) {
    if a == [] then true
    else if b == [] then false
    else if a[0] == b[0] then StrLe(a[1..], b[1..])
    else a[0] < b[0]
  }

  lemma {:induction false} StrLeTotal(a: string, b: string)
    ensures StrLe(a, b) || StrLe(b, a)
    ensures StrLe(a, b) && StrLe(b, a) ==> a == b
  {
    if a != [] && b != [] && a[0] == b[0] {
      StrLeTotal(a[1..], b[1..]);
      assert a == [a[0]] + a[1..] && b == [b[0]] + b[1..];
    }
  }

  lemma {:induction false} StrLeTransitive(a: string, b: string, c: string)
    requires StrLe(a, b) && StrLe(b, c)
    ensures StrLe(a, c)
  {
    if a != [] && b != [] && c != [] && a[0] == b[0] && b[0] == c[0] {
      StrLeTransitive(a[1..], b[1..], c[1..]);
    }
  }

  /** The order of `sort_values(["ts_code", "trade_date"])`. */
  predicate KeyLe(a: PanelRow, b: PanelRow) {
    (a.tsCode != b.tsCode && StrLe(a.tsCode, b.tsCode))
    || (a.tsCode == b.tsCode && DateLe(a.tradeDate, b.tradeDate))
  }

  lemma KeyLeTotal(a: PanelRow, b: PanelRow)
    ensures KeyLe(a, b) || KeyLe(b, a)
  {
    StrLeTotal(a.tsCode, b.tsCode);
    DateLeTotal(a.tradeDate, b.tradeDate);
  }

  lemma KeyLeTransitive(a: PanelRow, b: PanelRow, c: PanelRow)
    requires KeyLe(a, b) && KeyLe(b, c)
    ensures KeyLe(a, c)
  {
    StrLeTotal(a.tsCode, b.tsCode);
    StrLeTotal(a.tsCode, c.tsCode);
    StrLeTotal(b.tsCode, c.tsCode);
    if StrLe(a.tsCode, b.tsCode) && StrLe(b.tsCode, c.tsCode) {
      StrLeTransitive(a.tsCode, b.tsCode, c.tsCode);
    }
    if a.tsCode == b.tsCode == c.tsCode {
      DateLeTransitive(a.tradeDate, b.tradeDate, c.tradeDate);
    }
  }

  predicate Sorted(s: seq<PanelRow>) {
    forall i, j :: 0 <= i < j < |s| ==> KeyLe(s[i], s[j])
  }

  lemma InsertFront(x: PanelRow, s: seq<PanelRow>)
    requires Sorted(s) && s != [] && KeyLe(x, s[0])
    ensures Sorted([x] + s)
  {
    var r := [x] + s;
    forall i, j | 0 <= i < j < |r| ensures KeyLe(r[i], r[j]) {
      if i == 0 && j > 1 {
        KeyLeTransitive(x, s[0], s[j - 1]);
      }
    }
  }

  lemma InsertBehind(y: PanelRow, x: PanelRow, rest: seq<PanelRow>, tail: seq<PanelRow>)
    requires Sorted([y] + tail) && KeyLe(y, x)
    requires Sorted(rest) && multiset(rest) == multiset(tail) + multiset{x}
    ensures Sorted([y] + rest)
  {
    var r := [y] + rest;
    forall j | 1 <= j < |r| ensures KeyLe(y, r[j]) {
      assert r[j] == rest[j - 1] && rest[j - 1] in multiset(rest);
      if r[j] != x {
        assert r[j] in multiset(tail);
        assert r[j] in tail;
        var k :| 0 <= k < |tail| && tail[k] == r[j];
        assert ([y] + tail)[0] == y && ([y] + tail)[k + 1] == tail[k];
        assert KeyLe(([y] + tail)[0], ([y] + tail)[k + 1]);
      }
    }
  }

  function Insert(x: PanelRow, s: seq<PanelRow>): (r: seq<PanelRow>)
    requires Sorted(s)
    ensures Sorted(r) && multiset(r) == multiset(s) + multiset{x}
  {
    if s == [] then [x]
    else if KeyLe(x, s[0]) then
      InsertFront(x, s);
      [x] + s
    else
      KeyLeTotal(x, s[0]);
      assert s == [s[0]] + s[1..];
      var rest := Insert(x, s[1..]);
      InsertBehind(s[0], x, rest, s[1..]);
      [s[0]] + rest
  }

  /** `sort_values(["ts_code", "trade_date"])`: ascending by (code, day), a permutation of its input. */
  function SortPanel(s: seq<PanelRow>): (r: seq<PanelRow>)
    ensures Sorted(r) && multiset(r) == multiset(s)
  {
    if s == [] then []
    else
      assert s == [s[0]] + s[1..];
      Insert(s[0], SortPanel(s[1..]))
  }

  /** The rows of `s` whose key is (`code`, `day`), in their order in `s`. */
  function WithKey(s: seq<PanelRow>, code: string, day: Date): seq<PanelRow> {
    if s == [] then []
    else (if s[0].tsCode == code && s[0].tradeDate == day then [s[0]] else []) + WithKey(s[1..], code, day)
  }

  /** Insertion puts the new row after every row of its key that comes before it in the result: in front of the rows of its own key. */
  lemma {:induction false} InsertStable(x: PanelRow, s: seq<PanelRow>, code: string, day: Date)
    requires Sorted(s)
    ensures WithKey(Insert(x, s), code, day) == WithKey([x], code, day) + WithKey(s, code, day)
    decreases |s|
  {
    var mine := if x.tsCode == code && x.tradeDate == day then [x] else [];
    assert WithKey([x], code, day) == mine by {
      assert [x][1..] == [];
      assert mine + [] == mine;
    }
    if s == [] {
      assert Insert(x, s) == [x];
      assert WithKey(s, code, day) == [];
      assert mine + [] == mine;
    } else if KeyLe(x, s[0]) {
      var r := Insert(x, s);
      assert r == [x] + s && r[0] == x && r[1..] == s;
    } else {
      DateLeTotal(x.tradeDate, x.tradeDate);
      assert !(s[0].tsCode == x.tsCode && s[0].tradeDate == x.tradeDate);
      var rest := Insert(x, s[1..]);
      var r := Insert(x, s);
      assert r == [s[0]] + rest && r[0] == s[0] && r[1..] == rest;
      InsertStable(x, s[1..], code, day);
      var head := if s[0].tsCode == code && s[0].tradeDate == day then [s[0]] else [];
      var tail := WithKey(s[1..], code, day);
      assert WithKey(r, code, day) == head + (mine + tail);
      assert WithKey(s, code, day) == head + tail;
      if head == [] {
        assert head + (mine + tail) == mine + tail;
        assert head + tail == tail;
      } else {
        assert mine == [];
        assert mine + (head + tail) == head + tail;
        assert mine + tail == tail;
      }
    }
  }

  /** The sort is stable: rows with equal (code, day) keys keep their relative order. */
  lemma {:induction false} SortPanelStable(s: seq<PanelRow>, code: string, day: Date)
    ensures WithKey(SortPanel(s), code, day) == WithKey(s, code, day)
  {
    if s != [] {
      SortPanelStable(s[1..], code, day);
      InsertStable(s[0], SortPanel(s[1..]), code, day);
    }
  }

  /** `UniqueRowKeys` for panel rows. */
  predicate UniquePanelKeys(s: seq<PanelRow>) {
    forall i, j :: 0 <= i < j < |s| ==> !(s[i].tsCode == s[j].tsCode && s[i].tradeDate == s[j].tradeDate)
  }

  lemma {:induction false} TwiceInMultiset(s: seq<PanelRow>, v: PanelRow)
    requires multiset(s)[v] >= 2
    ensures exists i, j :: 0 <= i < j < |s| && s[i] == v && s[j] == v
  {
    assert s == [s[0]] + s[1..];
    if s[0] == v {
      assert v in s[1..];
      var j :| 0 <= j < |s[1..]| && s[1..][j] == v;
      assert s[j + 1] == v;
    } else {
      TwiceInMultiset(s[1..], v);
      var i, j :| 0 <= i < j < |s[1..]| && s[1..][i] == v && s[1..][j] == v;
      assert s[i + 1] == v && s[j + 1] == v;
    }
  }

  lemma PositionOf(a: seq<PanelRow>, v: PanelRow) returns (p: nat)
    requires v in multiset(a)
    ensures p < |a| && a[p] == v
  {
    assert v in a;
    p :| 0 <= p < |a| && a[p] == v;
  }

  /** A permutation of rows with unique keys has unique keys. */
  lemma PermutationKeepsUniqueKeys(a: seq<PanelRow>, b: seq<PanelRow>)
    requires multiset(a) == multiset(b) && UniquePanelKeys(a)
    ensures UniquePanelKeys(b)
  {
    forall i, j | 0 <= i < j < |b| ensures !(b[i].tsCode == b[j].tsCode && b[i].tradeDate == b[j].tradeDate) {
      if b[i] == b[j] {
        assert multiset(b)[b[i]] >= 2 by {
          assert b == b[..i] + [b[i]] + b[i + 1..j] + [b[j]] + b[j + 1..];
        }
        TwiceInMultiset(a, b[i]);
      } else {
        var p := PositionOf(a, b[i]);
        var q := PositionOf(a, b[j]);
        assert p != q;
        if p < q {
          assert !(a[p].tsCode == a[q].tsCode && a[p].tradeDate == a[q].tradeDate);
        } else {
          assert !(a[q].tsCode == a[p].tsCode && a[q].tradeDate == a[p].tradeDate);
        }
      }
    }
  }

  // ---------------------------------------------------------------------------
  // The panel

  /** `build_hs300_panel`. */
  function BuildPanel(daily: seq<DailyRow>, basic: seq<BasicRow>, uni: seq<WeightRow>): (r: Result<seq<PanelRow>, PanelError>)
    ensures r.Success? ==> Sorted(r.value)
  {
    var codes := Codes(uni);
    match ParseDates(InUniverse(daily, codes))
    case Failure(e) => Failure(e)
    case Success(dailyP) =>
      match ParseDates(InUniverse(basic, codes))
      case Failure(e) => Failure(e)
      case Success(basicP) => Success(SortPanel(MergeLeft(dailyP, basicP)))
  }

  lemma InUniverseMembers<P(!new)>(rows: seq<Row<P>>, codes: set<string>)
    ensures forall x :: x in InUniverse(rows, codes) <==> x in rows && x.tsCode in codes
  {
    var r := InUniverse(rows, codes);
    forall x ensures x in r <==> x in rows && x.tsCode in codes {
      assert x in r <==> multiset(r)[x] > 0;
      assert x in rows <==> multiset(rows)[x] > 0;
    }
  }

  /** The panel row `p` carries the code, the parsed trade date and the quote of the daily row `d`. */
  predicate Carries(p: PanelRow, d: DailyRow) {
    p.tsCode == d.tsCode && ParseTradeDate(d.tradeDate) == Some(p.tradeDate) && p.quote == d.payload
  }

  lemma ParseFilteredFails<P(!new)>(rows: seq<Row<P>>, codes: set<string>)
    ensures ParseDates(InUniverse(rows, codes)).Failure? <==>
      exists d :: d in rows && d.tsCode in codes && ParseTradeDate(d.tradeDate).None?
  {
    var u := InUniverse(rows, codes);
    InUniverseMembers(rows, codes);
    if exists d :: d in rows && d.tsCode in codes && ParseTradeDate(d.tradeDate).None? {
      var d :| d in rows && d.tsCode in codes && ParseTradeDate(d.tradeDate).None?;
      var i :| 0 <= i < |u| && u[i] == d;
    } else {
      assert forall i :: 0 <= i < |u| ==> u[i] in u;
    }
  }

  /** The build fails exactly when a universe row of either table has a trade date that is not a day. */
  lemma PanelFailsOnBadDate(daily: seq<DailyRow>, basic: seq<BasicRow>, uni: seq<WeightRow>)
    ensures BuildPanel(daily, basic, uni).Failure? <==>
      (exists d :: d in daily && d.tsCode in Codes(uni) && ParseTradeDate(d.tradeDate).None?)
      || (exists b :: b in basic && b.tsCode in Codes(uni) && ParseTradeDate(b.tradeDate).None?)
  {
    ParseFilteredFails(daily, Codes(uni));
    ParseFilteredFails(basic, Codes(uni));
  }

  /**
   * Every panel row belongs to the universe and comes from a daily row:
   * daily rows of codes outside the universe leave no trace in the panel.
   */
  lemma PanelRowsFromUniverseDaily(daily: seq<DailyRow>, basic: seq<BasicRow>, uni: seq<WeightRow>)
    requires BuildPanel(daily, basic, uni).Success?
    ensures forall p :: p in BuildPanel(daily, basic, uni).value ==>
      p.tsCode in Codes(uni) && exists d :: d in daily && Carries(p, d)
  {
    var codes := Codes(uni);
    var dailyU := InUniverse(daily, codes);
    var dailyP := ParseDates(dailyU).value;
    var basicP := ParseDates(InUniverse(basic, codes)).value;
    var merged := MergeLeft(dailyP, basicP);
    InUniverseMembers(daily, codes);
    MergeLeftFromLeft(dailyP, basicP);
    forall p | p in BuildPanel(daily, basic, uni).value
      ensures p.tsCode in codes && exists d :: d in daily && Carries(p, d)
    {
      assert p in multiset(SortPanel(merged));
      assert p in merged;
      var k :| 0 <= k < |merged| && merged[k] == p;
      assert ContinuesLeft(merged[k], dailyP);
      var i :| 0 <= i < |dailyP| && FromLeft(p, dailyP[i]);
      assert dailyU[i] in dailyU && Carries(p, dailyU[i]);
    }
  }

  /** Left preservation: every daily row of a universe code reaches the panel. */
  lemma PanelKeepsUniverseDaily(daily: seq<DailyRow>, basic: seq<BasicRow>, uni: seq<WeightRow>)
    requires BuildPanel(daily, basic, uni).Success?
    ensures forall d :: d in daily && d.tsCode in Codes(uni) ==>
      exists p :: p in BuildPanel(daily, basic, uni).value && Carries(p, d)
  {
    var codes := Codes(uni);
    var dailyU := InUniverse(daily, codes);
    var dailyP := ParseDates(dailyU).value;
    var basicP := ParseDates(InUniverse(basic, codes)).value;
    var merged := MergeLeft(dailyP, basicP);
    var panel := BuildPanel(daily, basic, uni).value;
    InUniverseMembers(daily, codes);
    MergeLeftKeepsLeft(dailyP, basicP);
    forall d | d in daily && d.tsCode in codes ensures exists p :: p in panel && Carries(p, d) {
      var i :| 0 <= i < |dailyU| && dailyU[i] == d;
      assert Continued(dailyP[i], merged);
      var k :| 0 <= k < |merged| && FromLeft(merged[k], dailyP[i]);
      assert merged[k] in multiset(panel);
      assert Carries(merged[k], d);
    }
  }

  /** The stages of a successful build, spelled out. */
  lemma PanelUnfold(daily: seq<DailyRow>, basic: seq<BasicRow>, uni: seq<WeightRow>)
    requires BuildPanel(daily, basic, uni).Success?
    ensures var codes := Codes(uni);
      && ParseDates(InUniverse(daily, codes)).Success?
      && ParseDates(InUniverse(basic, codes)).Success?
      && BuildPanel(daily, basic, uni).value
        == SortPanel(MergeLeft(ParseDates(InUniverse(daily, codes)).value, ParseDates(InUniverse(basic, codes)).value))
  {
  }

  /** The panel is ascending by (code, day) and holds exactly the rows of the left merge, each as often. */
  lemma PanelIsSortedMerge(daily: seq<DailyRow>, basic: seq<BasicRow>, uni: seq<WeightRow>)
    requires BuildPanel(daily, basic, uni).Success?
    ensures var codes := Codes(uni);
      && ParseDates(InUniverse(daily, codes)).Success?
      && ParseDates(InUniverse(basic, codes)).Success?
      && var panel := BuildPanel(daily, basic, uni).value;
         var merged := MergeLeft(ParseDates(InUniverse(daily, codes)).value, ParseDates(InUniverse(basic, codes)).value);
         Sorted(panel) && multiset(panel) == multiset(merged)
  {
    PanelUnfold(daily, basic, uni);
  }

  /**
   * With unique (code, date) keys among the universe's metrics rows the panel
   * has exactly one row per universe daily row.
   */
  lemma PanelOneRowPerDailyRow(daily: seq<DailyRow>, basic: seq<BasicRow>, uni: seq<WeightRow>)
    requires BuildPanel(daily, basic, uni).Success?
    requires UniqueRowKeys(InUniverse(basic, Codes(uni)))
    ensures |BuildPanel(daily, basic, uni).value| == |InUniverse(daily, Codes(uni))|
  {
    var codes := Codes(uni);
    var dailyU, basicU := InUniverse(daily, codes), InUniverse(basic, codes);
    PanelUnfold(daily, basic, uni);
    var dailyP, basicP := ParseDates(dailyU).value, ParseDates(basicU).value;
    var merged := MergeLeft(dailyP, basicP);
    var panel := BuildPanel(daily, basic, uni).value;
    ParsedKeysUnique(basicU);
    MergeLeftUniqueRight(dailyP, basicP);
    assert |panel| == |multiset(panel)| == |multiset(merged)| == |merged|;
  }

  /**
   * With unique (code, date) keys among the universe's metrics rows, a panel
   * row's metrics are those of the metrics row with its code and day, and are
   * absent exactly when there is no such row.
   */
  lemma PanelRowMetrics(daily: seq<DailyRow>, basic: seq<BasicRow>, uni: seq<WeightRow>, p: PanelRow)
    requires BuildPanel(daily, basic, uni).Success? && p in BuildPanel(daily, basic, uni).value
    requires UniqueRowKeys(InUniverse(basic, Codes(uni)))
    ensures p.metrics.None? <==>
      forall b :: b in basic ==> !(b.tsCode == p.tsCode && ParseTradeDate(b.tradeDate) == Some(p.tradeDate))
    ensures p.metrics.Some? ==>
      exists b :: b in basic && b.tsCode == p.tsCode && ParseTradeDate(b.tradeDate) == Some(p.tradeDate) && b.payload == p.metrics.value
  {
    var codes := Codes(uni);
    var dailyU, basicU := InUniverse(daily, codes), InUniverse(basic, codes);
    PanelUnfold(daily, basic, uni);
    var dailyP, basicP := ParseDates(dailyU).value, ParseDates(basicU).value;
    var merged := MergeLeft(dailyP, basicP);
    ParsedKeysUnique(basicU);
    MergeLeftUniqueRight(dailyP, basicP);
    assert p in multiset(merged);
    var i :| 0 <= i < |merged| && merged[i] == p;
    assert p.metrics == Lookup(basicP, p.tsCode, p.tradeDate);
    assert p.tsCode in codes by {
      PanelRowsFromUniverseDaily(daily, basic, uni);
    }
    LookupOfParsed(basicU, p.tsCode, p.tradeDate);
    InUniverseMembers(basic, codes);
  }

  /** `Lookup` on parsed metrics rows, stated on the rows before parsing. */
  lemma LookupOfParsed(rows: seq<BasicRow>, code: string, date: Date)
    requires ParseDates(rows).Success?
    ensures var found := Lookup(ParseDates(rows).value, code, date);
      && (found.None? <==> forall b :: b in rows ==> !(b.tsCode == code && ParseTradeDate(b.tradeDate) == Some(date)))
      && (found.Some? ==>
        exists b :: b in rows && b.tsCode == code && ParseTradeDate(b.tradeDate) == Some(date) && b.payload == found.value)
  {
    var parsed := ParseDates(rows).value;
    var ms := Matches(parsed, code, date);
    if ms == [] {
      forall b | b in rows ensures !(b.tsCode == code && ParseTradeDate(b.tradeDate) == Some(date)) {
        var j :| 0 <= j < |rows| && rows[j] == b;
        assert !HasKey(parsed[j], code, date);
      }
    } else {
      assert ms[0] in ms;
      var j :| 0 <= j < |parsed| && HasKey(parsed[j], code, date) && parsed[j].payload == ms[0];
      assert rows[j] in rows;
    }
  }

  /** No panel holds two rows for the same code and day when both tables have unique keys among universe rows. */
  lemma PanelUniqueKeys(daily: seq<DailyRow>, basic: seq<BasicRow>, uni: seq<WeightRow>)
    requires BuildPanel(daily, basic, uni).Success?
    requires UniqueRowKeys(InUniverse(daily, Codes(uni))) && UniqueRowKeys(InUniverse(basic, Codes(uni)))
    ensures UniquePanelKeys(BuildPanel(daily, basic, uni).value)
  {
    var codes := Codes(uni);
    var dailyU, basicU := InUniverse(daily, codes), InUniverse(basic, codes);
    var dailyP, basicP := ParseDates(dailyU).value, ParseDates(basicU).value;
    var merged := MergeLeft(dailyP, basicP);
    ParsedKeysUnique(dailyU);
    ParsedKeysUnique(basicU);
    MergeLeftUniqueRight(dailyP, basicP);
    assert UniquePanelKeys(merged) by {
      forall i, j | 0 <= i < j < |merged| ensures !(merged[i].tsCode == merged[j].tsCode && merged[i].tradeDate == merged[j].tradeDate) {
        assert merged[i].tsCode == dailyP[i].tsCode && merged[i].tradeDate == dailyP[i].tradeDate;
        assert merged[j].tsCode == dailyP[j].tsCode && merged[j].tradeDate == dailyP[j].tradeDate;
      }
    }
    PermutationKeepsUniqueKeys(merged, SortPanel(merged));
  }

  lemma ParseExampleDay()
    ensures ParseTradeDate("20240102") == Some(Date(2024, 1, 2))
  {
    FormatThenParse(Date(2024, 1, 2));
    ExampleDayFormat();
  }

  /** The eight-digit form of 2 January 2024. */
  lemma ExampleDayFormat()
    ensures FormatTradeDate(Date(2024, 1, 2)) == "20240102"
  {
    assert Padded(0, 1) == "0";
    assert Padded(2, 1) == "2";
    assert Padded(20, 2) == "20";
    assert Padded(202, 3) == "202";
    assert Padded(2024, 4) == "2024";
    assert Padded(1, 2) == "01";
    assert Padded(2, 2) == "02";
  }

  /** One universe code, one quote, no metrics: the panel is that quote with absent metrics. */
  lemma PanelSingleQuoteNoMetrics()
    ensures BuildPanel(
      [Row("000001.SZ", "20240102", Quote([10.0]))],
      [],
      [WeightRow("000300.SH", "000001.SZ", "20241231", 1.0)])
      == Success([PanelRow("000001.SZ", Date(2024, 1, 2), Quote([10.0]), None)])
  {
    var uni := [WeightRow("000300.SH", "000001.SZ", "20241231", 1.0)];
    var daily := [Row("000001.SZ", "20240102", Quote([10.0]))];
    var codes := Codes(uni);
    assert codes == {"000001.SZ"} by {
      assert uni[0] in uni;
    }
    assert InUniverse(daily, codes) == daily;
    assert InUniverse<Metrics>([], codes) == [];
    ParseExampleDay();
    var dated := DatedRow("000001.SZ", Date(2024, 1, 2), Quote([10.0]));
    var parsed := ParseDates(daily);
    assert |parsed.value| == 1 && parsed.value[0] == dated;
    assert parsed.value == [dated];
    assert ParseDates<Metrics>([]) == Success([]);
    var row := PanelRow("000001.SZ", Date(2024, 1, 2), Quote([10.0]), None);
    assert MergeRow(dated, []) == [row];
    assert [dated][1..] == [];
    assert MergeLeft([dated], []) == [row];
    assert SortPanel([row]) == [row] by {
      assert [row][1..] == [];
    }
  }
}
