/**
 * The download side of the CSI 300 pipeline: the data provider's three endpoints
 * (index constituents, daily quotes, daily valuation metrics), the artifact files
 * the script keeps between runs, the cache-then-fetch steps, the year-by-year
 * metrics download, and the end-to-end run.
 */
module Hs300Fetch {
  import opened Wrappers
  import opened TradeDates
  import opened Hs300Data
  import opened Hs300Panel

  const START_DATE := "20150101"
  const END_DATE := "20241231"
  /** The CSI 300 index. */
  const INDEX_CODE := "000300.SH"

  /** The metric columns requested from the valuation endpoint. */
  const BASIC_FIELDS := [
    "ts_code", "trade_date", "turnover_rate", "turnover_rate_f",
    "pe", "pe_ttm", "pb", "ps", "ps_ttm", "total_share",
    "float_share", "free_share", "total_mv", "circ_mv"
  ]

  /** The artifact names: raw universe, raw quotes, raw metrics, processed panel. */
  const UNIVERSE_FILE := "hs300_constituents_latest.parquet"
  const DAILY_FILE := "daily_" + START_DATE + "_" + END_DATE + ".parquet"
  const BASIC_FILE := "daily_basic_" + START_DATE + "_" + END_DATE + ".parquet"
  const PANEL_FILE := "hs300_panel_" + START_DATE + "_" + END_DATE + ".parquet"

  /** The first and last year of the metrics download: the integer value of the first four characters of each bound. */
  function FirstYear(): (y: nat)
    ensures y == 2015
  {
    ConfiguredYears();
    DecimalValue(START_DATE[..4])
  }

  function LastYear(): (y: nat)
    ensures y == 2024
  {
    ConfiguredYears();
    DecimalValue(END_DATE[..4])
  }

  /** The configured bounds begin with the years 2015 and 2024. */
  lemma ConfiguredYears()
    ensures DecimalValue(START_DATE[..4]) == 2015 && DecimalValue(END_DATE[..4]) == 2024
  {
    assert START_DATE[..4] == "2015" && END_DATE[..4] == "2024";
    assert DecimalValue("2015") == 2015 by {
      assert "2015"[..3] == "201" && "201"[..2] == "20" && "20"[..1] == "2" && "2"[..0] == "";
    }
    assert DecimalValue("2024") == 2024 by {
      assert "2024"[..3] == "202" && "202"[..2] == "20" && "20"[..1] == "2" && "2"[..0] == "";
    }
  }

  // ----- the provider -----

  /** One call made to the provider, with its arguments. */
  datatype Request =
    | IndexWeight(indexCode: string, tradeDate: string)
    | Daily(startDate: string, endDate: string)
    | DailyBasic(startDate: string, endDate: string, fields: seq<string>)

  /** The provider raised instead of answering. */
  datatype ProviderError = ProviderError(message: string)

  datatype PipelineError =
    | Provider(cause: ProviderError)
    | NothingToConcatenate
    | Panel(panelCause: PanelError)

  type WeightAnswer = (string, string) -> Result<seq<WeightRow>, ProviderError>
  type DailyAnswer = (string, string) -> Result<seq<DailyRow>, ProviderError>
  type BasicAnswer = (string, string, seq<string>) -> Result<seq<BasicRow>, ProviderError>

  /**
   * The remote data service. What it answers is not modelled: each endpoint is a
   * fixed function of the request. Every call is appended to `log`.
   */
  class Provider {
    const indexWeight: WeightAnswer
    const daily: DailyAnswer
    const dailyBasic: BasicAnswer
    var log: seq<Request>

    constructor (indexWeight: WeightAnswer, daily: DailyAnswer, dailyBasic: BasicAnswer)
      ensures this.indexWeight == indexWeight && this.daily == daily && this.dailyBasic == dailyBasic
      ensures log == []
    {
      this.indexWeight := indexWeight;
      this.daily := daily;
      this.dailyBasic := dailyBasic;
      log := [];
    }

    method CallIndexWeight(indexCode: string, tradeDate: string) returns (r: Result<seq<WeightRow>, ProviderError>)
      modifies this
      ensures log == old(log) + [IndexWeight(indexCode, tradeDate)]
      ensures r == indexWeight(indexCode, tradeDate)
    {
      log := log + [IndexWeight(indexCode, tradeDate)];
      r := indexWeight(indexCode, tradeDate);
    }

    method CallDaily(startDate: string, endDate: string) returns (r: Result<seq<DailyRow>, ProviderError>)
      modifies this
      ensures log == old(log) + [Daily(startDate, endDate)]
      ensures r == daily(startDate, endDate)
    {
      log := log + [Daily(startDate, endDate)];
      r := daily(startDate, endDate);
    }

    method CallDailyBasic(startDate: string, endDate: string, fields: seq<string>) returns (r: Result<seq<BasicRow>, ProviderError>)
      modifies this
      ensures log == old(log) + [DailyBasic(startDate, endDate, fields)]
      ensures r == dailyBasic(startDate, endDate, fields)
    {
      log := log + [DailyBasic(startDate, endDate, fields)];
      r := dailyBasic(startDate, endDate, fields);
    }
  }

  // ----- the artifact files -----

  /** The files kept between runs, by name; a name that is a key is a file that exists. */
  class ArtifactStore {
    var universes: map<string, seq<WeightRow>>
    var dailies: map<string, seq<DailyRow>>
    var basics: map<string, seq<BasicRow>>
    var panels: map<string, seq<PanelRow>>

    constructor ()
      ensures universes == map[] && dailies == map[] && basics == map[] && panels == map[]
    {
      universes, dailies, basics, panels := map[], map[], map[], map[];
    }

    method WriteUniverse(name: string, rows: seq<WeightRow>)
      modifies this
      ensures universes == old(universes)[name := rows]
      ensures dailies == old(dailies) && basics == old(basics) && panels == old(panels)
    {
      universes := universes[name := rows];
    }

    method WriteDaily(name: string, rows: seq<DailyRow>)
      modifies this
      ensures dailies == old(dailies)[name := rows]
      ensures universes == old(universes) && basics == old(basics) && panels == old(panels)
    {
      dailies := dailies[name := rows];
    }

    method WriteBasic(name: string, rows: seq<BasicRow>)
      modifies this
      ensures basics == old(basics)[name := rows]
      ensures universes == old(universes) && dailies == old(dailies) && panels == old(panels)
    {
      basics := basics[name := rows];
    }

    method WritePanel(name: string, rows: seq<PanelRow>)
      modifies this
      ensures panels == old(panels)[name := rows]
      ensures universes == old(universes) && dailies == old(dailies) && basics == old(basics)
    {
      panels := panels[name := rows];
    }
  }

  // ----- year segments -----

  /** The first and last day of calendar year `y`, as request bounds. */
  function YearStart(y: nat): string {
    Decimal(y) + "0101"
  }

  function YearEnd(y: nat): string {
    Decimal(y) + "1231"
  }

  function SegmentRequest(y: nat): Request {
    DailyBasic(YearStart(y), YearEnd(y), BASIC_FIELDS)
  }

  function SegmentAnswer(answer: BasicAnswer, y: nat): Result<seq<BasicRow>, ProviderError> {
    answer(YearStart(y), YearEnd(y), BASIC_FIELDS)
  }

  /** The segment results for years `y0` up to but excluding `y`, or the first failure. */
  function FetchThrough(answer: BasicAnswer, y0: nat, y: nat): (r: Result<seq<seq<BasicRow>>, ProviderError>)
    decreases y
  {
    if y <= y0 then Success([])
    else match FetchThrough(answer, y0, y - 1)
      case Failure(e) => Failure(e)
      case Success(parts) =>
        match SegmentAnswer(answer, y - 1)
        case Failure(e) => Failure(e)
        case Success(t) => Success(parts + [t])
  }

  /** The calls made for years `y0` up to but excluding `y`: one per year, stopping at the first failure. */
  function CallsThrough(answer: BasicAnswer, y0: nat, y: nat): (r: seq<Request>)
    ensures |r| <= if y0 <= y then y - y0 else 0
    decreases y
  {
    if y <= y0 then []
    else if FetchThrough(answer, y0, y - 1).Failure? then CallsThrough(answer, y0, y - 1)
    else CallsThrough(answer, y0, y - 1) + [SegmentRequest(y - 1)]
  }

  /** All segments concatenated in order. */
  function Flatten<T>(parts: seq<seq<T>>): seq<T> {
    if parts == [] then [] else Flatten(parts[..|parts| - 1]) + parts[|parts| - 1]
  }

  function TotalLength<T>(parts: seq<seq<T>>): nat {
    if parts == [] then 0 else TotalLength(parts[..|parts| - 1]) + |parts[|parts| - 1]|
  }

  /** The metrics for years `y0..y1`, concatenated; concatenating no segment at all raises. */
  function SegmentedBasic(answer: BasicAnswer, y0: nat, y1: nat): (r: Result<seq<BasicRow>, PipelineError>)
    ensures r == Failure(NothingToConcatenate) <==> y0 > y1
  {
    FetchedSomeYear(answer, y0, y1 + 1);
    match FetchThrough(answer, y0, y1 + 1)
    case Failure(e) => Failure(Provider(e))
    case Success(parts) => if parts == [] then Failure(NothingToConcatenate) else Success(Flatten(parts))
  }

  /** A successful download of at least one year has at least one segment. */
  lemma FetchedSomeYear(answer: BasicAnswer, y0: nat, y: nat)
    ensures FetchThrough(answer, y0, y).Success? && y0 < y ==> FetchThrough(answer, y0, y).value != []
  {
  }

  /** Once a segment has failed, later years add neither results nor calls. */
  lemma {:induction false} FailureSticks(answer: BasicAnswer, y0: nat, y: nat, z: nat)
    requires FetchThrough(answer, y0, y).Failure? && y <= z
    ensures FetchThrough(answer, y0, z) == FetchThrough(answer, y0, y)
    ensures CallsThrough(answer, y0, z) == CallsThrough(answer, y0, y)
    decreases z
  {
    if z > y {
      FailureSticks(answer, y0, y, z - 1);
    }
  }

  /** Years `y0..y-1` all succeed exactly when every one of them is answered. */
  lemma {:induction false} FetchThroughAnswered(answer: BasicAnswer, y0: nat, y: nat)
    requires y0 <= y
    ensures FetchThrough(answer, y0, y).Success? <==> forall z :: y0 <= z < y ==> SegmentAnswer(answer, z).Success?
    decreases y
  {
    if y > y0 {
      FetchThroughAnswered(answer, y0, y - 1);
      if FetchThrough(answer, y0, y - 1).Failure? {
        var z :| y0 <= z < y - 1 && SegmentAnswer(answer, z).Failure?;
      }
    }
  }

  /** The calls made are, in order, the requests for the years `y0`, `y0 + 1`, and so on. */
  lemma {:induction false} CallsThroughRequests(answer: BasicAnswer, y0: nat, y: nat)
    ensures forall k :: 0 <= k < |CallsThrough(answer, y0, y)| ==> CallsThrough(answer, y0, y)[k] == SegmentRequest(y0 + k)
    decreases y
  {
    if y > y0 {
      CallsThroughRequests(answer, y0, y - 1);
      var prev, calls := CallsThrough(answer, y0, y - 1), CallsThrough(answer, y0, y);
      if FetchThrough(answer, y0, y - 1).Success? {
        assert calls == prev + [SegmentRequest(y - 1)];
        assert |prev| == y - 1 - y0 by {
          FetchThroughSuccess(answer, y0, y - 1);
        }
        forall k | 0 <= k < |calls| ensures calls[k] == SegmentRequest(y0 + k) {
          if k < |prev| {
            assert calls[k] == prev[k];
          }
        }
      }
    }
  }

  /** When years `y0..y-1` all succeed there is one result and one call per year, in year order, each result that year's answer. */
  lemma {:induction false} FetchThroughSuccess(answer: BasicAnswer, y0: nat, y: nat)
    requires y0 <= y && FetchThrough(answer, y0, y).Success?
    ensures |FetchThrough(answer, y0, y).value| == y - y0
    ensures forall k :: 0 <= k < y - y0 ==> SegmentAnswer(answer, y0 + k) == Success(FetchThrough(answer, y0, y).value[k])
    ensures |CallsThrough(answer, y0, y)| == y - y0
    decreases y
  {
    if y > y0 {
      var prev := FetchThrough(answer, y0, y - 1);
      assert prev.Success?;
      FetchThroughSuccess(answer, y0, y - 1);
      var t := SegmentAnswer(answer, y - 1).value;
      assert FetchThrough(answer, y0, y).value == prev.value + [t];
      assert CallsThrough(answer, y0, y) == CallsThrough(answer, y0, y - 1) + [SegmentRequest(y - 1)];
    }
  }

  /**
   * When years `y0..y-1` fail, they fail at the first year whose answer is an error,
   * the error is that answer's, and the calls are those for the years up to and including it.
   */
  lemma {:induction false} FetchThroughFailure(answer: BasicAnswer, y0: nat, y: nat)
    requires FetchThrough(answer, y0, y).Failure?
    ensures var f := y0 + |CallsThrough(answer, y0, y)| - 1;
      y0 <= f < y
      && SegmentAnswer(answer, f) == Failure(FetchThrough(answer, y0, y).error)
      && (forall z :: y0 <= z < f ==> SegmentAnswer(answer, z).Success?)
    decreases y
  {
    var prev := FetchThrough(answer, y0, y - 1);
    if prev.Failure? {
      assert FetchThrough(answer, y0, y) == prev;
      assert CallsThrough(answer, y0, y) == CallsThrough(answer, y0, y - 1);
      FetchThroughFailure(answer, y0, y - 1);
    } else {
      FetchThroughAnswered(answer, y0, y - 1);
      FetchThroughSuccess(answer, y0, y - 1);
      assert CallsThrough(answer, y0, y) == CallsThrough(answer, y0, y - 1) + [SegmentRequest(y - 1)];
      assert SegmentAnswer(answer, y - 1) == Failure(FetchThrough(answer, y0, y).error);
    }
  }

  lemma {:induction false} FlattenLength<T>(parts: seq<seq<T>>)
    ensures |Flatten(parts)| == TotalLength(parts)
  {
    if parts != [] {
      FlattenLength(parts[..|parts| - 1]);
    }
  }

  /** A row is in the concatenation exactly when it is in one of the segments. */
  lemma {:induction false} FlattenMembers<T>(parts: seq<seq<T>>, x: T)
    ensures x in Flatten(parts) <==> exists k :: 0 <= k < |parts| && x in parts[k]
  {
    if parts != [] {
      var init := parts[..|parts| - 1];
      FlattenMembers(init, x);
      if x in Flatten(parts) && x !in parts[|parts| - 1] {
        var k :| 0 <= k < |init| && x in init[k];
        assert parts[k] == init[k];
      }
      if x !in Flatten(parts) {
        forall k | 0 <= k < |parts| ensures x !in parts[k] {
          if k < |init| {
            assert parts[k] == init[k];
          }
        }
      }
    }
  }

  /**
   * The metrics download for years `y0..y1` fails for want of segments exactly when
   * `y0 > y1`; it succeeds exactly when `y0 <= y1` and every year is answered; and then
   * it is the years' answers concatenated in year order, as long as their lengths summed.
   */
  lemma SegmentedBasicOutcome(answer: BasicAnswer, y0: nat, y1: nat, parts: seq<seq<BasicRow>>)
    requires |parts| == if y0 <= y1 then y1 + 1 - y0 else 0
    requires forall k :: 0 <= k < |parts| ==> SegmentAnswer(answer, y0 + k) == Success(parts[k])
    ensures SegmentedBasic(answer, y0, y1) == Failure(NothingToConcatenate) <==> y0 > y1
    ensures SegmentedBasic(answer, y0, y1).Success? <==> y0 <= y1
    ensures y0 <= y1 ==> (SegmentedBasic(answer, y0, y1) == Success(Flatten(parts))
      && |Flatten(parts)| == TotalLength(parts))
  {
    if y0 <= y1 {
      forall z | y0 <= z < y1 + 1 ensures SegmentAnswer(answer, z).Success? {
        assert SegmentAnswer(answer, y0 + (z - y0)) == Success(parts[z - y0]);
      }
      FetchThroughAnswered(answer, y0, y1 + 1);
      FetchThroughSuccess(answer, y0, y1 + 1);
      var got := FetchThrough(answer, y0, y1 + 1).value;
      assert got == parts;
      FlattenLength(parts);
    }
  }

  /** A downloaded row is one some year in `y0..y1` answered, and every row a year answered is downloaded. */
  lemma SegmentedBasicMembers(answer: BasicAnswer, y0: nat, y1: nat, x: BasicRow)
    requires SegmentedBasic(answer, y0, y1).Success?
    ensures x in SegmentedBasic(answer, y0, y1).value <==>
      exists y :: y0 <= y <= y1 && SegmentAnswer(answer, y).Success? && x in SegmentAnswer(answer, y).value
  {
    var parts := FetchThrough(answer, y0, y1 + 1).value;
    FetchThroughSuccess(answer, y0, y1 + 1);
    FlattenMembers(parts, x);
    if x in Flatten(parts) {
      var k :| 0 <= k < |parts| && x in parts[k];
      assert SegmentAnswer(answer, y0 + k) == Success(parts[k]);
    }
    if exists y :: y0 <= y <= y1 && SegmentAnswer(answer, y).Success? && x in SegmentAnswer(answer, y).value {
      var y :| y0 <= y <= y1 && SegmentAnswer(answer, y).Success? && x in SegmentAnswer(answer, y).value;
      assert SegmentAnswer(answer, y0 + (y - y0)) == Success(parts[y - y0]);
    }
  }

  /** Whenever some year fails, the whole download fails with that year's error. */
  lemma SegmentedBasicFails(answer: BasicAnswer, y0: nat, y1: nat, f: nat)
    requires y0 <= f <= y1 && SegmentAnswer(answer, f).Failure?
    ensures SegmentedBasic(answer, y0, y1).Failure?
    ensures SegmentedBasic(answer, y0, y1) != Failure(NothingToConcatenate)
    ensures SegmentedBasic(answer, y0, y1).error.Provider?
  {
    FetchThroughAnswered(answer, y0, y1 + 1);
  }

  /** A four-digit year is written with four digits. */
  lemma FourDigitYear(y: nat)
    requires 1000 <= y < 10000
    ensures Decimal(y) == Padded(y, 4)
  {
    assert Pow10(3) == 1000 && Pow10(4) == 10000;
    DecimalIsPadded(y, 4);
  }

  /** For a four-digit year, the first request bound is 1 January of that year in the eight-digit form. */
  lemma YearStartIsFormat(y: nat)
    requires 1000 <= y < 10000
    ensures YearStart(y) == FormatTradeDate(Date(y, 1, 1))
  {
    FourDigitYear(y);
    assert Padded(1, 2) == "01";
  }

  /** For a four-digit year, the last request bound is 31 December of that year in the eight-digit form. */
  lemma YearEndIsFormat(y: nat)
    requires 1000 <= y < 10000
    ensures YearEnd(y) == FormatTradeDate(Date(y, 12, 31))
  {
    FourDigitYear(y);
    assert Padded(12, 2) == "12" && Padded(31, 2) == "31";
  }

  /** The bounds of a year pandas can hold are read back as that year's first and last day. */
  lemma SegmentBounds(y: nat)
    requires 1678 <= y <= 2261
    ensures ParseTradeDate(YearStart(y)) == Some(Date(y, 1, 1))
    ensures ParseTradeDate(YearEnd(y)) == Some(Date(y, 12, 31))
  {
    YearStartIsFormat(y);
    YearEndIsFormat(y);
    FormatThenParse(Date(y, 1, 1));
    FormatThenParse(Date(y, 12, 31));
  }

  /** Whole-year segments never overlap and leave no gap: a day lies in the segment of its own year and no other. */
  lemma SegmentOfDay(d: Date, y: int)
    requires IsCalendarDate(d)
    ensures DateLe(Date(y, 1, 1), d) && DateLe(d, Date(y, 12, 31)) <==> d.year == y
  {
  }

  /** The first segment starts on the configured start day and the last ends on the configured end day. */
  lemma ConfiguredOuterBounds()
    ensures YearStart(FirstYear()) == START_DATE && YearEnd(LastYear()) == END_DATE
  {
    assert Decimal(2015) == "2015";
    assert Decimal(2024) == "2024";
  }

  /** With every year answered, the calls cover the years `y0..y1` in order, each from its 1 January to its 31 December. */
  lemma SegmentCallsCoverYears(answer: BasicAnswer, y0: nat, y1: nat)
    requires 1678 <= y0 <= y1 <= 2261
    requires forall y :: y0 <= y <= y1 ==> SegmentAnswer(answer, y).Success?
    ensures var calls := CallsThrough(answer, y0, y1 + 1);
      |calls| == y1 + 1 - y0
      && (forall k :: 0 <= k < |calls| ==>
            (calls[k] == SegmentRequest(y0 + k)
            && ParseTradeDate(calls[k].startDate) == Some(Date(y0 + k, 1, 1))
            && ParseTradeDate(calls[k].endDate) == Some(Date(y0 + k, 12, 31))))
  {
    FetchThroughAnswered(answer, y0, y1 + 1);
    FetchThroughSuccess(answer, y0, y1 + 1);
    CallsThroughRequests(answer, y0, y1 + 1);
    var calls := CallsThrough(answer, y0, y1 + 1);
    forall k | 0 <= k < |calls|
      ensures ParseTradeDate(calls[k].startDate) == Some(Date(y0 + k, 1, 1))
      ensures ParseTradeDate(calls[k].endDate) == Some(Date(y0 + k, 12, 31))
    {
      assert calls[k] == SegmentRequest(y0 + k);
      SegmentBounds(y0 + k);
    }
  }

  /**
   * With the configured bounds, a download in which every year is answered makes ten
   * calls, one per year from 2015 to 2024 in order, each covering its whole year; the
   * first starts on the configured start day and the last ends on the configured end day.
   */
  lemma ConfiguredDownload(answer: BasicAnswer)
    requires forall y :: FirstYear() <= y <= LastYear() ==> SegmentAnswer(answer, y).Success?
    ensures var calls := CallsThrough(answer, FirstYear(), LastYear() + 1);
      |calls| == 10
      && (forall k :: 0 <= k < 10 ==>
            (calls[k] == SegmentRequest(2015 + k)
            && ParseTradeDate(calls[k].startDate) == Some(Date(2015 + k, 1, 1))
            && ParseTradeDate(calls[k].endDate) == Some(Date(2015 + k, 12, 31))))
      && calls[0].startDate == START_DATE && calls[9].endDate == END_DATE
  {
    ConfiguredOuterBounds();
    SegmentCallsCoverYears(answer, 2015, 2024);
  }

  // ----- the pipeline steps -----

  /** What the quotes step yields given the stored quote files: the stored file, else the provider's answer. */
  function DailyStep(answer: DailyAnswer, files: map<string, seq<DailyRow>>): Result<seq<DailyRow>, PipelineError> {
    if DAILY_FILE in files then Success(files[DAILY_FILE])
    else match answer(START_DATE, END_DATE)
      case Failure(e) => Failure(Provider(e))
      case Success(rows) => Success(rows)
  }

  function DailyStepCalls(files: map<string, seq<DailyRow>>): seq<Request> {
    if DAILY_FILE in files then [] else [Daily(START_DATE, END_DATE)]
  }

  /** What the metrics step yields given the stored metrics files: the stored file, else the year-by-year download. */
  function BasicStep(answer: BasicAnswer, files: map<string, seq<BasicRow>>): Result<seq<BasicRow>, PipelineError> {
    if BASIC_FILE in files then Success(files[BASIC_FILE]) else SegmentedBasic(answer, FirstYear(), LastYear())
  }

  function BasicStepCalls(answer: BasicAnswer, files: map<string, seq<BasicRow>>): seq<Request> {
    if BASIC_FILE in files then [] else CallsThrough(answer, FirstYear(), LastYear() + 1)
  }

  /** A stored map after a step that writes `name` only when it fetched `step` itself and `step` succeeded. */
  function AfterStep<T>(files: map<string, T>, name: string, step: Result<T, PipelineError>): map<string, T> {
    if name !in files && step.Success? then files[name := step.value] else files
  }

  /** The constituents on `endDate`, first row per code kept; always asks the provider and overwrites the universe file. */
  method GetHs300Universe(pro: Provider, store: ArtifactStore, endDate: string) returns (r: Result<seq<WeightRow>, PipelineError>)
    modifies pro, store
    ensures pro.log == old(pro.log) + [IndexWeight(INDEX_CODE, endDate)]
    ensures match pro.indexWeight(INDEX_CODE, endDate)
      case Failure(e) => r == Failure(Provider(e)) && store.universes == old(store.universes)
      case Success(w) => r == Success(DropDuplicates(w)) && store.universes == old(store.universes)[UNIVERSE_FILE := r.value]
    ensures store.dailies == old(store.dailies) && store.basics == old(store.basics) && store.panels == old(store.panels)
  {
    var w := pro.CallIndexWeight(INDEX_CODE, endDate);
    if w.Failure? {
      return Failure(Provider(w.error));
    }
    var rows := DropDuplicates(w.value);
    store.WriteUniverse(UNIVERSE_FILE, rows);
    r := Success(rows);
  }

  /** The quotes for the whole configured range: the stored file when it exists, else one provider call whose answer is stored. */
  method GetDailyAll(pro: Provider, store: ArtifactStore) returns (r: Result<seq<DailyRow>, PipelineError>)
    modifies pro, store
    ensures r == DailyStep(pro.daily, old(store.dailies))
    ensures pro.log == old(pro.log) + DailyStepCalls(old(store.dailies))
    ensures store.dailies == AfterStep(old(store.dailies), DAILY_FILE, r)
    ensures DAILY_FILE in old(store.dailies) ==>
      r == Success(old(store.dailies)[DAILY_FILE]) && pro.log == old(pro.log) && store.dailies == old(store.dailies)
    ensures DAILY_FILE !in old(store.dailies) ==>
      pro.log == old(pro.log) + [Daily(START_DATE, END_DATE)]
      && match pro.daily(START_DATE, END_DATE)
        case Failure(e) => r == Failure(Provider(e)) && store.dailies == old(store.dailies)
        case Success(rows) => r == Success(rows) && store.dailies == old(store.dailies)[DAILY_FILE := rows]
    ensures store.universes == old(store.universes) && store.basics == old(store.basics) && store.panels == old(store.panels)
  {
    if DAILY_FILE in store.dailies {
      return Success(store.dailies[DAILY_FILE]);
    }
    var df := pro.CallDaily(START_DATE, END_DATE);
    if df.Failure? {
      return Failure(Provider(df.error));
    }
    store.WriteDaily(DAILY_FILE, df.value);
    r := Success(df.value);
  }

  /** One metrics call per calendar year from `y0` to `y1`, then the answers concatenated; nothing is stored here. */
  method FetchBasicSegments(pro: Provider, y0: nat, y1: nat) returns (r: Result<seq<BasicRow>, PipelineError>)
    modifies pro
    ensures r == SegmentedBasic(pro.dailyBasic, y0, y1)
    ensures pro.log == old(pro.log) + CallsThrough(pro.dailyBasic, y0, y1 + 1)
  {
    var parts: seq<seq<BasicRow>> := [];
    var year := y0;
    while year <= y1
      invariant year == y0 || y0 < year <= y1 + 1
      invariant FetchThrough(pro.dailyBasic, y0, year) == Success(parts)
      invariant pro.log == old(pro.log) + CallsThrough(pro.dailyBasic, y0, year)
    {
      var tmp := pro.CallDailyBasic(YearStart(year), YearEnd(year), BASIC_FIELDS);
      assert CallsThrough(pro.dailyBasic, y0, year + 1) == CallsThrough(pro.dailyBasic, y0, year) + [SegmentRequest(year)];
      if tmp.Failure? {
        assert FetchThrough(pro.dailyBasic, y0, year + 1) == Failure(tmp.error);
        FailureSticks(pro.dailyBasic, y0, year + 1, y1 + 1);
        return Failure(Provider(tmp.error));
      }
      assert FetchThrough(pro.dailyBasic, y0, year + 1) == Success(parts + [tmp.value]);
      parts := parts + [tmp.value];
      year := year + 1;
    }
    assert FetchThrough(pro.dailyBasic, y0, y1 + 1) == Success(parts);
    if parts == [] {
      return Failure(NothingToConcatenate);
    }
    r := Success(Flatten(parts));
  }

  /** The metrics for the whole configured range: the stored file when it exists, else the year-by-year download, stored only when every year succeeded. */
  method GetDailyBasicAll(pro: Provider, store: ArtifactStore) returns (r: Result<seq<BasicRow>, PipelineError>)
    modifies pro, store
    ensures r == BasicStep(pro.dailyBasic, old(store.basics))
    ensures pro.log == old(pro.log) + BasicStepCalls(pro.dailyBasic, old(store.basics))
    ensures store.basics == AfterStep(old(store.basics), BASIC_FILE, r)
    ensures BASIC_FILE in old(store.basics) ==>
      r == Success(old(store.basics)[BASIC_FILE]) && pro.log == old(pro.log) && store.basics == old(store.basics)
    ensures BASIC_FILE !in old(store.basics) ==>
      r == SegmentedBasic(pro.dailyBasic, FirstYear(), LastYear())
      && pro.log == old(pro.log) + CallsThrough(pro.dailyBasic, FirstYear(), LastYear() + 1)
      && store.basics == if r.Success? then old(store.basics)[BASIC_FILE := r.value] else old(store.basics)
    ensures store.universes == old(store.universes) && store.dailies == old(store.dailies) && store.panels == old(store.panels)
  {
    if BASIC_FILE in store.basics {
      return Success(store.basics[BASIC_FILE]);
    }
    r := FetchBasicSegments(pro, FirstYear(), LastYear());
    if r.Success? {
      store.WriteBasic(BASIC_FILE, r.value);
    }
  }

  /** The panel of the given tables, with a date error reported as a pipeline error. */
  function PanelOutcome(daily: seq<DailyRow>, basic: seq<BasicRow>, uni: seq<WeightRow>): Result<seq<PanelRow>, PipelineError> {
    match BuildPanel(daily, basic, uni)
    case Failure(e) => Failure(Panel(e))
    case Success(p) => Success(p)
  }

  /** The outcome of a run in which both downloads are already on disk: only the constituents are asked for. */
  function CachedRun(weights: Result<seq<WeightRow>, ProviderError>, daily: seq<DailyRow>, basic: seq<BasicRow>): Result<seq<PanelRow>, PipelineError> {
    match weights
    case Failure(e) => Failure(Provider(e))
    case Success(w) => PanelOutcome(daily, basic, DropDuplicates(w))
  }

  /** The panel of the given tables, stored under the panel file when it can be built. */
  method BuildHs300Panel(store: ArtifactStore, daily: seq<DailyRow>, basic: seq<BasicRow>, uni: seq<WeightRow>)
    returns (r: Result<seq<PanelRow>, PipelineError>)
    modifies store
    ensures r == PanelOutcome(daily, basic, uni)
    ensures store.panels == if r.Success? then old(store.panels)[PANEL_FILE := r.value] else old(store.panels)
    ensures store.universes == old(store.universes) && store.dailies == old(store.dailies) && store.basics == old(store.basics)
  {
    var panel := BuildPanel(daily, basic, uni);
    if panel.Failure? {
      return Failure(Panel(panel.error));
    }
    store.WritePanel(PANEL_FILE, panel.value);
    r := Success(panel.value);
  }

  lemma AppendFour<T>(a: seq<T>, b: seq<T>, c: seq<T>, d: seq<T>)
    ensures a + b + c + d == a + (b + (c + d))
  {
  }

  /** The outcome of a run from the outcomes of its steps: the first failing step's error, else the panel. */
  function RunOutcome(
    weights: Result<seq<WeightRow>, ProviderError>,
    daily: Result<seq<DailyRow>, PipelineError>,
    basic: Result<seq<BasicRow>, PipelineError>): Result<seq<PanelRow>, PipelineError>
  {
    match weights
    case Failure(e) => Failure(Provider(e))
    case Success(w) =>
      match daily
      case Failure(e) => Failure(e)
      case Success(d) =>
        match basic
        case Failure(e) => Failure(e)
        case Success(b) => PanelOutcome(d, b, DropDuplicates(w))
  }

  /** The calls of a run: the constituents, then each later step's calls up to the first failing step. */
  function RunCalls(
    weights: Result<seq<WeightRow>, ProviderError>,
    daily: Result<seq<DailyRow>, PipelineError>, dailyCalls: seq<Request>,
    basicCalls: seq<Request>): seq<Request>
  {
    [IndexWeight(INDEX_CODE, END_DATE)]
      + if weights.Failure? then []
        else dailyCalls + if daily.Failure? then [] else basicCalls
  }

  /** A run in which both downloads are already on disk asks only for the constituents and builds the panel from the stored files. */
  lemma CachedRunOutcome(weights: Result<seq<WeightRow>, ProviderError>, dailyAnswer: DailyAnswer, basicAnswer: BasicAnswer,
                         dailies: map<string, seq<DailyRow>>, basics: map<string, seq<BasicRow>>)
    requires DAILY_FILE in dailies && BASIC_FILE in basics
    ensures var daily := DailyStep(dailyAnswer, dailies);
      && RunOutcome(weights, daily, BasicStep(basicAnswer, basics)) == CachedRun(weights, dailies[DAILY_FILE], basics[BASIC_FILE])
      && RunCalls(weights, daily, DailyStepCalls(dailies), BasicStepCalls(basicAnswer, basics)) == [IndexWeight(INDEX_CODE, END_DATE)]
  {
    assert DailyStepCalls(dailies) + BasicStepCalls(basicAnswer, basics) == [];
  }

  /**
   * A successful run had every step succeed; its panel is sorted, and it is the panel of
   * the universe, quotes and metrics files as they stand after the run.
   */
  lemma RunOutcomeSuccess(weights: Result<seq<WeightRow>, ProviderError>, dailyAnswer: DailyAnswer, basicAnswer: BasicAnswer,
                          dailies: map<string, seq<DailyRow>>, basics: map<string, seq<BasicRow>>)
    requires RunOutcome(weights, DailyStep(dailyAnswer, dailies), BasicStep(basicAnswer, basics)).Success?
    ensures var daily, basic := DailyStep(dailyAnswer, dailies), BasicStep(basicAnswer, basics);
      var r := RunOutcome(weights, daily, basic);
      var dailiesAfter, basicsAfter := AfterStep(dailies, DAILY_FILE, daily), AfterStep(basics, BASIC_FILE, basic);
      && weights.Success? && daily.Success? && basic.Success?
      && Sorted(r.value)
      && DAILY_FILE in dailiesAfter && BASIC_FILE in basicsAfter
      && r == PanelOutcome(dailiesAfter[DAILY_FILE], basicsAfter[BASIC_FILE], DropDuplicates(weights.value))
  {
    var daily, basic := DailyStep(dailyAnswer, dailies), BasicStep(basicAnswer, basics);
    var r := RunOutcome(weights, daily, basic);
    assert weights.Success? && daily.Success? && basic.Success?;
    var panel := BuildPanel(daily.value, basic.value, DropDuplicates(weights.value));
    assert panel.Success? && r.value == panel.value;
  }

  /**
   * The whole run: universe, quotes, metrics, then the panel. The first failing step ends
   * it with that step's error and no later call; every file written before it stays written.
   */
  method RunPipeline(pro: Provider, store: ArtifactStore) returns (r: Result<seq<PanelRow>, PipelineError>)
    modifies pro, store
    ensures
      var weights := pro.indexWeight(INDEX_CODE, END_DATE);
      var daily := DailyStep(pro.daily, old(store.dailies));
      var basic := BasicStep(pro.dailyBasic, old(store.basics));
      && r == RunOutcome(weights, daily, basic)
      && pro.log == old(pro.log) + RunCalls(weights, daily, DailyStepCalls(old(store.dailies)), BasicStepCalls(pro.dailyBasic, old(store.basics)))
      && store.universes == (if weights.Success? then old(store.universes)[UNIVERSE_FILE := DropDuplicates(weights.value)] else old(store.universes))
      && store.dailies == (if weights.Success? then AfterStep(old(store.dailies), DAILY_FILE, daily) else old(store.dailies))
      && store.basics == (if weights.Success? && daily.Success? then AfterStep(old(store.basics), BASIC_FILE, basic) else old(store.basics))
      && store.panels == (if r.Success? then old(store.panels)[PANEL_FILE := r.value] else old(store.panels))
    ensures pro.indexWeight(INDEX_CODE, END_DATE).Failure? ==>
      r == Failure(Provider(pro.indexWeight(INDEX_CODE, END_DATE).error))
      && pro.log == old(pro.log) + [IndexWeight(INDEX_CODE, END_DATE)]
      && store.universes == old(store.universes) && store.dailies == old(store.dailies)
      && store.basics == old(store.basics) && store.panels == old(store.panels)
    ensures pro.indexWeight(INDEX_CODE, END_DATE).Success? ==>
      UNIVERSE_FILE in store.universes
      && (DailyStep(pro.daily, old(store.dailies)).Success? ==> DAILY_FILE in store.dailies)
  {
    ghost var log0 := pro.log;
    ghost var dailyCalls, basicCalls := DailyStepCalls(store.dailies), BasicStepCalls(pro.dailyBasic, store.basics);
    var uni := GetHs300Universe(pro, store, END_DATE);
    ghost var log1 := pro.log;
    if uni.Failure? {
      return Failure(uni.error);
    }
    var daily := GetDailyAll(pro, store);
    ghost var log2 := pro.log;
    assert log2 == log1 + dailyCalls;
    if daily.Failure? {
      return Failure(daily.error);
    }
    var basic := GetDailyBasicAll(pro, store);
    assert pro.log == log2 + basicCalls;
    AppendFour(log0, [IndexWeight(INDEX_CODE, END_DATE)], dailyCalls, basicCalls);
    if basic.Failure? {
      return Failure(basic.error);
    }
    r := BuildHs300Panel(store, daily.value, basic.value, uni.value);
  }

  /** After a successful quotes step the file exists, so asking again returns the same rows with no provider call. */
  method GetDailyTwice(pro: Provider, store: ArtifactStore)
    returns (first: Result<seq<DailyRow>, PipelineError>, second: Result<seq<DailyRow>, PipelineError>)
    modifies pro, store
    ensures first.Success? ==> second == first
    ensures first.Success? ==> pro.log == old(pro.log) + (if DAILY_FILE in old(store.dailies) then [] else [Daily(START_DATE, END_DATE)])
  {
    first := GetDailyAll(pro, store);
    second := GetDailyAll(pro, store);
  }

  /** After a successful metrics step the file exists, so asking again returns the same rows with no provider call. */
  method GetDailyBasicTwice(pro: Provider, store: ArtifactStore)
    returns (first: Result<seq<BasicRow>, PipelineError>, second: Result<seq<BasicRow>, PipelineError>)
    modifies pro, store
    ensures first.Success? ==> second == first
    ensures first.Success? ==> pro.log == old(pro.log) + (if BASIC_FILE in old(store.basics) then [] else CallsThrough(pro.dailyBasic, FirstYear(), LastYear() + 1))
  {
    first := GetDailyBasicAll(pro, store);
    second := GetDailyBasicAll(pro, store);
  }

  /** Running twice: after a successful run both downloads are on disk, so the second run asks only for the constituents and returns the same panel. */
  method RunTwice(pro: Provider, store: ArtifactStore)
    returns (first: Result<seq<PanelRow>, PipelineError>, second: Result<seq<PanelRow>, PipelineError>, ghost firstCalls: seq<Request>)
    modifies pro, store
    ensures first.Success? ==> second == first
    ensures firstCalls == RunCalls(pro.indexWeight(INDEX_CODE, END_DATE), DailyStep(pro.daily, old(store.dailies)),
                                   DailyStepCalls(old(store.dailies)), BasicStepCalls(pro.dailyBasic, old(store.basics)))
    ensures old(pro.log) + firstCalls <= pro.log
    ensures first.Success? ==> pro.log == old(pro.log) + firstCalls + [IndexWeight(INDEX_CODE, END_DATE)]
  {
    ghost var daily0, basic0 := store.dailies, store.basics;
    first := RunPipeline(pro, store);
    firstCalls := pro.log[|old(pro.log)|..];
    ghost var daily, basic := store.dailies, store.basics;
    second := RunPipeline(pro, store);
    if first.Success? {
      RunOutcomeSuccess(pro.indexWeight(INDEX_CODE, END_DATE), pro.daily, pro.dailyBasic, daily0, basic0);
      assert DAILY_FILE in daily && BASIC_FILE in basic;
      CachedRunOutcome(pro.indexWeight(INDEX_CODE, END_DATE), pro.daily, pro.dailyBasic, daily, basic);
      assert second == CachedRun(pro.indexWeight(INDEX_CODE, END_DATE), daily[DAILY_FILE], basic[BASIC_FILE]);
    }
  }
}
