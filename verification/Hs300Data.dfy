/**
 * The tables of the HS300 pipeline and the de-duplication of the index
 * constituents (`get_hs300_universe`).
 */
module Hs300Data {

  /** A row of `index_weight`: the index, one constituent code, the weighting date and the weight. */
  datatype WeightRow = WeightRow(indexCode: string, conCode: string, tradeDate: string, weight: real)

  /** The numeric columns of a `daily` row (open, high, low, close, volume, ...), kept opaque. */
  datatype Quote = Quote(fields: seq<real>)

  /** The numeric columns of a `daily_basic` row (turnover, PE, PB, market values, ...), kept opaque. */
  datatype Metrics = Metrics(fields: seq<real>)

  /** A provider row keyed by instrument code and `YYYYMMDD` trade date. */
  datatype Row<P> = Row(tsCode: string, tradeDate: string, payload: P)

  type DailyRow = Row<Quote>
  type BasicRow = Row<Metrics>

  /** The constituent codes a table mentions. */
  function Codes(rows: seq<WeightRow>): set<string> {
    set r | r in rows :: r.conCode
  }

  predicate UniqueCodes(rows: seq<WeightRow>) {
    forall i, j :: 0 <= i < j < |rows| ==> rows[i].conCode != rows[j].conCode
  }

  /** `a` is `b` with some elements left out, the rest in their original order. */
  predicate IsSubsequence<T(==)>(a: seq<T>, b: seq<T>) {
    if a == [] then true
    else if b == [] then false
    else if a[0] == b[0] then IsSubsequence(a[1..], b[1..])
    else IsSubsequence(a, b[1..])
  }

  /** Prepending an element to the longer sequence keeps a subsequence. */
  lemma {:induction false} SubsequenceSkip<T>(a: seq<T>, x: T, b: seq<T>)
    requires IsSubsequence(a, b)
    ensures IsSubsequence(a, [x] + b)
    decreases |a| + |b|, 1
  {
    assert ([x] + b)[1..] == b;
    if a != [] && a[0] == x {
      SubsequenceTail(a, b);
    }
  }

  /** Dropping the first element of the shorter sequence keeps a subsequence. */
  lemma {:induction false} SubsequenceTail<T>(a: seq<T>, b: seq<T>)
    requires a != [] && IsSubsequence(a, b)
    ensures IsSubsequence(a[1..], b)
    decreases |a| + |b|, 0
  {
    assert [b[0]] + b[1..] == b;
    if a[0] == b[0] {
      SubsequenceSkip(a[1..], b[0], b[1..]);
    } else {
      SubsequenceTail(a, b[1..]);
      SubsequenceSkip(a[1..], b[0], b[1..]);
    }
  }

  /** The position of the first row with constituent code `c`. */
  function FirstIndex(rows: seq<WeightRow>, c: string): (i: nat)
    requires c in Codes(rows)
    ensures i < |rows| && rows[i].conCode == c
    ensures forall j :: 0 <= j < i ==> rows[j].conCode != c
  {
    assert rows == [rows[0]] + rows[1..];
    CodesCons(rows[0], rows[1..]);
    if rows[0].conCode == c then 0 else 1 + FirstIndex(rows[1..], c)
  }

  /** The scan behind `drop_duplicates`: keep a row when its code has not been seen before. */
  function DedupFrom(rows: seq<WeightRow>, seen: set<string>): (r: seq<WeightRow>)
    ensures |r| <= |rows|
    ensures forall k :: 0 <= k < |r| ==> r[k].conCode !in seen
  {
    if rows == [] then []
    else if rows[0].conCode in seen then DedupFrom(rows[1..], seen)
    else [rows[0]] + DedupFrom(rows[1..], seen + {rows[0].conCode})
  }

  lemma CodesCons(x: WeightRow, rows: seq<WeightRow>)
    ensures Codes([x] + rows) == {x.conCode} + Codes(rows)
  {
    assert forall r :: r in [x] + rows <==> r == x || r in rows;
  }

  /** The scan keeps every code it has not seen before, and no other. */
  lemma {:induction false} DedupFromCodes(rows: seq<WeightRow>, seen: set<string>)
    ensures Codes(DedupFrom(rows, seen)) == Codes(rows) - seen
  {
    if rows != [] {
      var x, tail := rows[0], rows[1..];
      assert rows == [x] + tail;
      CodesCons(x, tail);
      if x.conCode in seen {
        DedupFromCodes(tail, seen);
      } else {
        DedupFromCodes(tail, seen + {x.conCode});
        CodesCons(x, DedupFrom(tail, seen + {x.conCode}));
      }
    }
  }

  /** The scan keeps at most one row per code. */
  lemma {:induction false} DedupFromUnique(rows: seq<WeightRow>, seen: set<string>)
    ensures UniqueCodes(DedupFrom(rows, seen))
  {
    if rows != [] {
      var x, tail := rows[0], rows[1..];
      if x.conCode in seen {
        DedupFromUnique(tail, seen);
      } else {
        var rest := DedupFrom(tail, seen + {x.conCode});
        DedupFromUnique(tail, seen + {x.conCode});
        DedupFromCodes(tail, seen + {x.conCode});
        var r := DedupFrom(rows, seen);
        assert r == [x] + rest;
        forall i, j | 0 <= i < j < |r| ensures r[i].conCode != r[j].conCode {
          assert r[j] == rest[j - 1] && rest[j - 1] in rest;
          if i == 0 {
            assert rest[j - 1].conCode in Codes(rest);
          } else {
            assert r[i] == rest[i - 1];
          }
        }
      }
    }
  }

  /** The scan only leaves rows out; the rows it keeps stay in input order. */
  lemma {:induction false} DedupFromSubsequence(rows: seq<WeightRow>, seen: set<string>)
    ensures IsSubsequence(DedupFrom(rows, seen), rows)
  {
    if rows != [] {
      var x, tail := rows[0], rows[1..];
      assert rows == [x] + tail;
      if x.conCode in seen {
        DedupFromSubsequence(tail, seen);
        SubsequenceSkip(DedupFrom(tail, seen), x, tail);
      } else {
        var rest := DedupFrom(tail, seen + {x.conCode});
        DedupFromSubsequence(tail, seen + {x.conCode});
        assert ([x] + rest)[1..] == rest;
      }
    }
  }

  /** Each kept row is the first row of the input with its code. */
  lemma {:induction false} DedupFromFirst(rows: seq<WeightRow>, seen: set<string>)
    ensures forall k :: 0 <= k < |DedupFrom(rows, seen)| ==>
      DedupFrom(rows, seen)[k].conCode in Codes(rows)
      && DedupFrom(rows, seen)[k] == rows[FirstIndex(rows, DedupFrom(rows, seen)[k].conCode)]
  {
    if rows != [] {
      var x, tail := rows[0], rows[1..];
      assert rows == [x] + tail;
      CodesCons(x, tail);
      var r := DedupFrom(rows, seen);
      var seen' := if x.conCode in seen then seen else seen + {x.conCode};
      var rest := DedupFrom(tail, seen');
      DedupFromFirst(tail, seen');
      DedupFromCodes(tail, seen');
      var offset := if x.conCode in seen then 0 else 1;
      assert r == if x.conCode in seen then rest else [x] + rest;
      forall k | 0 <= k < |r|
        ensures r[k].conCode in Codes(rows) && r[k] == rows[FirstIndex(rows, r[k].conCode)]
      {
        if k < offset {
          assert r[k] == x;
        } else {
          assert r[k] == rest[k - offset] && rest[k - offset] in rest;
          assert r[k].conCode in Codes(rest);
          assert FirstIndex(rows, r[k].conCode) == 1 + FirstIndex(tail, r[k].conCode);
        }
      }
    }
  }

  /**
   * `drop_duplicates(subset=["con_code"])`: exactly one row per constituent
   * code, namely its first occurrence, kept in input order.
   */
  function DropDuplicates(rows: seq<WeightRow>): (r: seq<WeightRow>)
    ensures Codes(r) == Codes(rows)
    ensures UniqueCodes(r)
    ensures IsSubsequence(r, rows)
    ensures forall k :: 0 <= k < |r| ==> r[k] == rows[FirstIndex(rows, r[k].conCode)]
  {
    DedupFromCodes(rows, {});
    DedupFromUnique(rows, {});
    DedupFromSubsequence(rows, {});
    DedupFromFirst(rows, {});
    DedupFrom(rows, {})
  }
}
