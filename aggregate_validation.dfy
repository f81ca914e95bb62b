/** The aggregate layer of `src/ge_validation.py`: the value catalog, the
    ordered suite of nine column expectations it declares, and the summary it
    draws from the library's results. */
module AggregateValidation {
  import opened Wrappers
  import opened Expectations
  import RecordValidation

  // ---------------------------------------------------------------------------
  // The catalog
  // ---------------------------------------------------------------------------

  const VALID_STATUSES: seq<string> := [
    "Cancelled",
    "Shipped",
    "Shipped - Delivered to Buyer",
    "Pending",
    "Shipped - Returned to Seller",
    "Shipped - Rejected by Buyer",
    "Shipped - Returning to Seller",
    "Shipped - Out for Delivery",
    "Shipped - Picked Up"
  ]

  const VALID_FULFILMENT: seq<string> := ["Merchant", "Amazon"]
  const VALID_CURRENCIES: seq<string> := ["INR"]
  const VALID_COUNTRIES: seq<string> := ["IN"]

  const SUITE_NAME: string := "amazon_sales_suite"
  const DATE_REGEX: string := @"^\d{2}-\d{2}-\d{2}$"

  /** The statuses the record layer accepts and this layer rejects. */
  const RECORD_ONLY_STATUSES: set<string> :=
    {"Pending - Waiting for Pick Up", "Shipped - Damaged", "Shipped - Lost in Transit", "Shipping"}

  /** Every status this layer accepts, the record layer accepts too; the
      record layer accepts exactly four more. A row with status "Shipping"
      passes the record layer and fails this one. */
  lemma {:induction false} StatusCatalogsDiverge()
    ensures forall s :: s in VALID_STATUSES ==> s in RecordValidation.VALID_STATUSES
    ensures forall s :: s in RecordValidation.VALID_STATUSES && s !in VALID_STATUSES <==> s in RECORD_ONLY_STATUSES
    ensures |VALID_STATUSES| == 9 && |RecordValidation.VALID_STATUSES| == 13
    ensures RecordValidation.StatusValid("Shipping") && "Shipping" !in VALID_STATUSES
  {
    var record := RecordValidation.VALID_STATUSES;
    forall s | s in RECORD_ONLY_STATUSES ensures s in record && s !in VALID_STATUSES {
      assert s == record[2] || s == record[4] || s == record[6] || s == record[12];
    }
  }

  /** The fulfilment, currency and country catalogs and the date pattern are
      those of the record layer. */
  lemma CatalogsAgree()
    ensures VALID_FULFILMENT == RecordValidation.VALID_FULFILMENT
    ensures VALID_CURRENCIES == RecordValidation.VALID_CURRENCIES
    ensures VALID_COUNTRIES == RecordValidation.VALID_COUNTRIES
    ensures DATE_REGEX == RecordValidation.DATE_REGEX_SOURCE
  {
  }

  // ---------------------------------------------------------------------------
  // The suite
  // ---------------------------------------------------------------------------

  /** The expectations `run_ge_validation` declares, in declaration order. */
  const AMAZON_SALES_SUITE: seq<Expectation> := [
    ExpectColumnValuesToNotBeNull("Order ID"),
    ExpectColumnValuesToBeUnique("Order ID"),
    ExpectColumnValuesToBeBetween("Qty", Some(0), None),
    ExpectColumnValuesToBeBetween("Amount", Some(0), None),
    ExpectColumnValuesToBeInSet("Status", VALID_STATUSES),
    ExpectColumnValuesToBeInSet("Fulfilment", VALID_FULFILMENT),
    ExpectColumnValuesToBeInSet("currency", VALID_CURRENCIES),
    ExpectColumnValuesToBeInSet("ship-country", VALID_COUNTRIES),
    ExpectColumnValuesToMatchRegex("Date", DATE_REGEX)
  ]

  /** The last expectation checks the record layer's date column against the
      record layer's date pattern, character for character. */
  lemma DateExpectationIsRecordPattern()
    ensures AMAZON_SALES_SUITE[8] == ExpectColumnValuesToMatchRegex(RecordValidation.DATE_COLUMN, RecordValidation.DATE_REGEX_SOURCE)
  {
  }

  /** The column each expectation of `suite` is about, in order. */
  function Columns(suite: seq<Expectation>): (cols: seq<string>)
    ensures |cols| == |suite|
    ensures forall i :: 0 <= i < |suite| ==> cols[i] == suite[i].column
  {
    seq(|suite|, i requires 0 <= i < |suite| => suite[i].column)
  }

  /** Nine expectations over the record layer's eight columns: every column
      the record layer reads has one, and Order ID has two. Both bounds are
      a minimum of 0 with no maximum. */
  lemma SuiteShape()
    ensures |AMAZON_SALES_SUITE| == 9
    ensures Columns(AMAZON_SALES_SUITE)
            == ["Order ID", "Order ID", "Qty", "Amount", "Status", "Fulfilment", "currency", "ship-country", "Date"]
    ensures forall c :: c in Columns(AMAZON_SALES_SUITE) <==> c in RecordValidation.COLUMNS
    ensures forall e :: e in AMAZON_SALES_SUITE && e.ExpectColumnValuesToBeBetween? ==>
              e.minValue == Some(0) && e.maxValue == None
  {
    var cols := Columns(AMAZON_SALES_SUITE);
    assert cols == ["Order ID", "Order ID", "Qty", "Amount", "Status", "Fulfilment", "currency", "ship-country", "Date"];
  }

  /** `run_ge_validation`'s suite: created empty under its name, then one
      `add_expectation` per expectation in declaration order. */
  method BuildSuite() returns (suite: ExpectationSuite)
    ensures fresh(suite)
    ensures suite.name == SUITE_NAME
    ensures suite.expectations == AMAZON_SALES_SUITE
  {
    suite := new ExpectationSuite(SUITE_NAME);
    suite.AddExpectation(ExpectColumnValuesToNotBeNull("Order ID"));
    suite.AddExpectation(ExpectColumnValuesToBeUnique("Order ID"));
    suite.AddExpectation(ExpectColumnValuesToBeBetween("Qty", Some(0), None));
    suite.AddExpectation(ExpectColumnValuesToBeBetween("Amount", Some(0), None));
    suite.AddExpectation(ExpectColumnValuesToBeInSet("Status", VALID_STATUSES));
    suite.AddExpectation(ExpectColumnValuesToBeInSet("Fulfilment", VALID_FULFILMENT));
    suite.AddExpectation(ExpectColumnValuesToBeInSet("currency", VALID_CURRENCIES));
    suite.AddExpectation(ExpectColumnValuesToBeInSet("ship-country", VALID_COUNTRIES));
    suite.AddExpectation(ExpectColumnValuesToMatchRegex("Date", DATE_REGEX));
  }

  // ---------------------------------------------------------------------------
  // Processing the results
  // ---------------------------------------------------------------------------

  /** The entry built for one result. */
  datatype ExpectationInfo = ExpectationInfo(expectation: string, column: string, success: bool, result: ResultDetail)

  /** The summary dictionary, without its timestamp. */
  datatype AggregateSummary = AggregateSummary(
    overallSuccess: bool,
    totalExpectations: nat,
    passedCount: nat,
    failedCount: nat,
    passed: seq<ExpectationInfo>,
    failed: seq<ExpectationInfo>)

  /** `results_dict.get("results", [])` */
  function ResultsOf(sr: SuiteResult): seq<ExpectationResult> {
    sr.results.GetOr([])
  }

  /** `exp_result.get("success", False)` */
  function SuccessFlag(r: ExpectationResult): bool {
    r.success.GetOr(false)
  }

  /** The entry for one result, each missing key read with its default. */
  function InfoOf(r: ExpectationResult): ExpectationInfo {
    var config := r.expectationConfig.GetOr(ExpectationConfig(None, None));
    var kwargs := config.kwargs.GetOr(map[]);
    ExpectationInfo(
      config.typeName.GetOr("Unknown"),
      if "column" in kwargs then kwargs["column"] else "N/A",
      SuccessFlag(r),
      r.result.GetOr(map[]))
  }

  /** A missing type reads as "Unknown", a missing column as "N/A", a missing
      success flag as a failure and missing details as none; present values
      are taken as they are. */
  lemma InfoDefaults(r: ExpectationResult)
    ensures r.expectationConfig.None? || r.expectationConfig.value.typeName.None? ==>
              InfoOf(r).expectation == "Unknown"
    ensures r.expectationConfig.None? || r.expectationConfig.value.kwargs.None?
            || "column" !in r.expectationConfig.value.kwargs.value ==>
              InfoOf(r).column == "N/A"
    ensures InfoOf(r).success <==> r.success == Some(true)
    ensures r.result.None? ==> InfoOf(r).result == map[]
    ensures r.expectationConfig.Some? && r.expectationConfig.value.typeName.Some? ==>
              InfoOf(r).expectation == r.expectationConfig.value.typeName.value
    ensures r.expectationConfig.Some? && r.expectationConfig.value.kwargs.Some?
            && "column" in r.expectationConfig.value.kwargs.value ==>
              InfoOf(r).column == r.expectationConfig.value.kwargs.value["column"]
    ensures r.result.Some? ==> InfoOf(r).result == r.result.value
  {
  }

  /** The entries of the results whose success flag is `flag`, in input order. */
  function Select(rs: seq<ExpectationResult>, flag: bool): seq<ExpectationInfo>
    decreases |rs|
  {
    if rs == [] then []
    else
      var r := rs[|rs| - 1];
      Select(rs[..|rs| - 1], flag) + (if SuccessFlag(r) == flag then [InfoOf(r)] else [])
  }

  /** The positions of the results whose success flag is `flag`, ascending. */
  function IndicesWith(rs: seq<ExpectationResult>, flag: bool): seq<nat>
    decreases |rs|
  {
    if rs == [] then []
    else IndicesWith(rs[..|rs| - 1], flag) + (if SuccessFlag(rs[|rs| - 1]) == flag then [|rs| - 1] else [])
  }

  /** The positions with flag `flag` are listed in ascending order, each
      once, and no other position is. */
  lemma {:induction false} IndicesWithSpec(rs: seq<ExpectationResult>, flag: bool)
    ensures var idx := IndicesWith(rs, flag);
      && (forall k :: 0 <= k < |idx| ==> idx[k] < |rs|)
      && (forall k, l :: 0 <= k < l < |idx| ==> idx[k] < idx[l])
      && (forall i :: 0 <= i < |rs| ==> (i in idx <==> SuccessFlag(rs[i]) == flag))
    decreases |rs|
  {
    if rs != [] {
      var n := |rs| - 1;
      var init := rs[..n];
      IndicesWithSpec(init, flag);
      var before := IndicesWith(init, flag);
      assert forall i :: 0 <= i < n ==> init[i] == rs[i];
      assert n !in before;
    }
  }

  /** The selection keeps input order: its k-th entry is the entry of the
      k-th position whose flag is `flag`. */
  lemma {:induction false} SelectKeepsOrder(rs: seq<ExpectationResult>, flag: bool)
    ensures var idx := IndicesWith(rs, flag);
      && |Select(rs, flag)| == |idx|
      && (forall k :: 0 <= k < |idx| ==> idx[k] < |rs| && Select(rs, flag)[k] == InfoOf(rs[idx[k]]))
    decreases |rs|
  {
    if rs != [] {
      var n := |rs| - 1;
      var init := rs[..n];
      SelectKeepsOrder(init, flag);
      var before := IndicesWith(init, flag);
      forall k | 0 <= k < |before|
        ensures Select(rs, flag)[k] == InfoOf(rs[before[k]])
      {
        assert init[before[k]] == rs[before[k]];
      }
    }
  }

  /** The entries of all results, in input order. */
  function Infos(rs: seq<ExpectationResult>): (infos: seq<ExpectationInfo>)
    ensures |infos| == |rs|
    ensures forall i :: 0 <= i < |rs| ==> infos[i] == InfoOf(rs[i])
  {
    seq(|rs|, i requires 0 <= i < |rs| => InfoOf(rs[i]))
  }

  /** Every entry selected with flag `flag` carries that flag. */
  lemma {:induction false} SelectFlags(rs: seq<ExpectationResult>, flag: bool)
    ensures forall e :: e in Select(rs, flag) ==> e.success == flag
    decreases |rs|
  {
    if rs != [] {
      SelectFlags(rs[..|rs| - 1], flag);
    }
  }

  /** Every result lands in exactly one of the two lists: together they are
      a rearrangement of all entries. */
  lemma {:induction false} SelectPartitions(rs: seq<ExpectationResult>)
    ensures multiset(Select(rs, true)) + multiset(Select(rs, false)) == multiset(Infos(rs))
    ensures |Select(rs, true)| + |Select(rs, false)| == |rs|
    decreases |rs|
  {
    if rs != [] {
      var init := rs[..|rs| - 1];
      SelectPartitions(init);
      assert Infos(rs) == Infos(init) + [InfoOf(rs[|rs| - 1])];
    }
  }

  /** A result without a success flag is counted among the failed ones. */
  lemma MissingSuccessCountsAsFailed(rs: seq<ExpectationResult>, i: int)
    requires 0 <= i < |rs| && rs[i].success.None?
    ensures InfoOf(rs[i]) in Select(rs, false)
    ensures InfoOf(rs[i]) !in Select(rs, true)
  {
    IndicesWithSpec(rs, false);
    SelectKeepsOrder(rs, false);
    SelectFlags(rs, true);
    var idx := IndicesWith(rs, false);
    var k :| 0 <= k < |idx| && idx[k] == i;
    assert Select(rs, false)[k] == InfoOf(rs[i]);
  }

  /** What `_process_results` returns for the results of a run. */
  function SummariseResults(sr: SuiteResult): (s: AggregateSummary)
    ensures s.overallSuccess == (sr.success == Some(true))
    ensures s.totalExpectations == |ResultsOf(sr)| == s.passedCount + s.failedCount
    ensures s.passedCount == |s.passed| && s.failedCount == |s.failed|
    ensures s.passed == Select(ResultsOf(sr), true) && s.failed == Select(ResultsOf(sr), false)
    ensures forall e :: e in s.passed ==> e.success
    ensures forall e :: e in s.failed ==> !e.success
  {
    var rs := ResultsOf(sr);
    var passed := Select(rs, true);
    var failed := Select(rs, false);
    SelectPartitions(rs);
    SelectFlags(rs, true);
    SelectFlags(rs, false);
    AggregateSummary(sr.success.GetOr(false), |rs|, |passed|, |failed|, passed, failed)
  }

  /** The overall verdict is the run's own `success` key, not a verdict drawn
      from the partition: a run without that key fails even when every
      expectation passed, and a run reporting success keeps it even when an
      entry without a flag is counted as failed. */
  lemma OverallSuccessIsCopied()
    ensures var s := SummariseResults(SuiteResult(None, Some([ExpectationResult(None, Some(true), None)])));
      !s.overallSuccess && s.passedCount == 1 && s.failedCount == 0
    ensures var s := SummariseResults(SuiteResult(Some(true), Some([ExpectationResult(None, None, None)])));
      s.overallSuccess && s.passedCount == 0 && s.failedCount == 1
  {
    var one := [ExpectationResult(None, Some(true), None)];
    assert one[..0] == [];
    var flagless := [ExpectationResult(None, None, None)];
    assert flagless[..0] == [];
  }

  /** `_process_results`: walk the results once, appending each entry to
      `passed` or `failed` by its success flag, then count. */
  method ProcessResults(sr: SuiteResult) returns (summary: AggregateSummary)
    ensures summary == SummariseResults(sr)
  {
    var success := sr.success.GetOr(false);
    var expectationResults := sr.results.GetOr([]);
    var passed: seq<ExpectationInfo> := [];
    var failed: seq<ExpectationInfo> := [];
    var i := 0;
    while i < |expectationResults|
      invariant 0 <= i <= |expectationResults|
      invariant passed == Select(expectationResults[..i], true)
      invariant failed == Select(expectationResults[..i], false)
    {
      var expResult := expectationResults[i];
      var successFlag := expResult.success.GetOr(false);
      var info := InfoOf(expResult);
      if successFlag {
        passed := passed + [info];
      } else {
        failed := failed + [info];
      }
      assert expectationResults[..i + 1][..i] == expectationResults[..i];
      i := i + 1;
    }
    assert expectationResults[..i] == expectationResults;
    summary := AggregateSummary(success, |expectationResults|, |passed|, |failed|, passed, failed);
  }

  /** The library's run of a suite over a data frame, as `validation_definition.run`
      performs it; how it judges each column is not part of this model. */
  type Validator = (seq<Expectation>, seq<RecordValidation.Row>) -> SuiteResult

  /** `run_ge_validation(df)`: build the suite, run it over `df` through the
      library and process the results. */
  method RunGeValidation(validate: Validator, df: seq<RecordValidation.Row>) returns (summary: AggregateSummary)
    ensures summary == SummariseResults(validate(AMAZON_SALES_SUITE, df))
  {
    var suite := BuildSuite();
    var results := validate(suite.expectations, df);
    summary := ProcessResults(results);
  }
}
