/** The standalone script `ge_validation.py`, the earlier copy of the
    aggregate layer: its own catalog, the same suite declared in
    `run_validation`, and `process_results`. */
module StandaloneValidation {
  import opened Wrappers
  import opened Expectations
  import RecordValidation
  import AggregateValidation

  const VALID_STATUSES: seq<string> := [
    "Cancelled",
    "Shipped",
    "Shipped - Delivered to Buyer",
    "Pending",
    "Shipped - Returned to Seller",
    "Shipped - Rejected by Buyer",
    "Shipped - Returning to Seller",
    "Shipped - Out for Delivery",
    "Shipped - Picked Up"
  ]

  const VALID_FULFILMENT: seq<string> := ["Merchant", "Amazon"]
  const VALID_CURRENCIES: seq<string> := ["INR"]
  const VALID_COUNTRIES: seq<string> := ["IN"]

  /** The script's catalog is the packaged layer's, value for value and in the same order. */
  lemma SameCatalog()
    ensures VALID_STATUSES == AggregateValidation.VALID_STATUSES
    ensures VALID_FULFILMENT == AggregateValidation.VALID_FULFILMENT
    ensures VALID_CURRENCIES == AggregateValidation.VALID_CURRENCIES
    ensures VALID_COUNTRIES == AggregateValidation.VALID_COUNTRIES
  {
  }

  /** The suite of `run_validation`, grown by `add_expectation` in declaration order. */
  method BuildSuite() returns (suite: ExpectationSuite)
    ensures fresh(suite)
    ensures suite.name == AggregateValidation.SUITE_NAME
    ensures suite.expectations == AggregateValidation.AMAZON_SALES_SUITE
  {
    suite := new ExpectationSuite("amazon_sales_suite");
    suite.AddExpectation(ExpectColumnValuesToNotBeNull("Order ID"));
    suite.AddExpectation(ExpectColumnValuesToBeUnique("Order ID"));
    suite.AddExpectation(ExpectColumnValuesToBeBetween("Qty", Some(0), None));
    suite.AddExpectation(ExpectColumnValuesToBeBetween("Amount", Some(0), None));
    suite.AddExpectation(ExpectColumnValuesToBeInSet("Status", VALID_STATUSES));
    suite.AddExpectation(ExpectColumnValuesToBeInSet("Fulfilment", VALID_FULFILMENT));
    suite.AddExpectation(ExpectColumnValuesToBeInSet("currency", VALID_CURRENCIES));
    suite.AddExpectation(ExpectColumnValuesToBeInSet("ship-country", VALID_COUNTRIES));
    suite.AddExpectation(ExpectColumnValuesToMatchRegex("Date", @"^\d{2}-\d{2}-\d{2}$"));
  }

  /** `run_validation(df)`: build the suite and return the library's raw
      results of running it over `df`. */
  method RunValidation(validate: AggregateValidation.Validator, df: seq<RecordValidation.Row>) returns (results: SuiteResult)
    ensures results == validate(AggregateValidation.AMAZON_SALES_SUITE, df)
  {
    var suite := BuildSuite();
    results := validate(suite.expectations, df);
  }

  /** The script's `result_info` for one result: the type, the column, the
      success flag and the details, each missing key read with its default. */
  function ResultInfo(r: ExpectationResult): AggregateValidation.ExpectationInfo {
    var expType := match r.expectationConfig
      case Some(ExpectationConfig(Some(t), _)) => t
      case _ => "Unknown";
    var column := match r.expectationConfig
      case Some(ExpectationConfig(_, Some(kwargs))) => if "column" in kwargs then kwargs["column"] else "N/A"
      case _ => "N/A";
    var successFlag := match r.success
      case Some(b) => b
      case None => false;
    var detail := match r.result
      case Some(d) => d
      case None => map[];
    AggregateValidation.ExpectationInfo(expType, column, successFlag, detail)
  }

  /** The script builds each entry exactly as the packaged layer does. */
  lemma SameResultInfo(r: ExpectationResult)
    ensures ResultInfo(r) == AggregateValidation.InfoOf(r)
  {
  }

  /** `process_results`: the same walk as the packaged layer's, appending
      each entry to `passed` or `failed`; it yields the same summary. */
  method ProcessResults(sr: SuiteResult) returns (summary: AggregateValidation.AggregateSummary)
    ensures summary == AggregateValidation.SummariseResults(sr)
  {
    var success := sr.success.GetOr(false);
    var expectationResults := sr.results.GetOr([]);
    var passed: seq<AggregateValidation.ExpectationInfo> := [];
    var failed: seq<AggregateValidation.ExpectationInfo> := [];
    var i := 0;
    while i < |expectationResults|
      invariant 0 <= i <= |expectationResults|
      invariant passed == AggregateValidation.Select(expectationResults[..i], true)
      invariant failed == AggregateValidation.Select(expectationResults[..i], false)
    {
      var expResult := expectationResults[i];
      var successFlag := expResult.success.GetOr(false);
      var resultInfo := ResultInfo(expResult);
      SameResultInfo(expResult);
      if successFlag {
        passed := passed + [resultInfo];
      } else {
        failed := failed + [resultInfo];
      }
      assert expectationResults[..i + 1][..i] == expectationResults[..i];
      i := i + 1;
    }
    assert expectationResults[..i] == expectationResults;
    summary := AggregateValidation.AggregateSummary(success, |expectationResults|, |passed|, |failed|, passed, failed);
  }
}
