/** The shapes the aggregate layer exchanges with its validation library:
    expectation declarations, the suite they are added to, and the results
    of a run as the library's JSON dictionary presents them. How the library
    decides whether a column meets an expectation is not part of this model. */
module Expectations {
  import opened Wrappers

  /** One column expectation, with the parameters it is declared with. */
  datatype Expectation =
    | ExpectColumnValuesToNotBeNull(column: string)
    | ExpectColumnValuesToBeUnique(column: string)
    | ExpectColumnValuesToBeBetween(column: string, minValue: Option<int>, maxValue: Option<int>)
    | ExpectColumnValuesToBeInSet(column: string, valueSet: seq<string>)
    | ExpectColumnValuesToMatchRegex(column: string, regex: string)

  /** A named suite of expectations, grown one expectation at a time. */
  class ExpectationSuite {
    const name: string
    var expectations: seq<Expectation>

    constructor (name: string)
      ensures this.name == name
      ensures expectations == []
    {
      this.name := name;
      expectations := [];
    }

    /** `suite.add_expectation(e)`: append `e` after the expectations already declared. */
    method AddExpectation(e: Expectation)
      modifies this
      ensures expectations == old(expectations) + [e]
    {
      expectations := expectations + [e];
    }
  }

  /** `expectation_config` of one result; each key may be missing. */
  datatype ExpectationConfig = ExpectationConfig(typeName: Option<string>, kwargs: Option<map<string, string>>)

  /** The details of one result (`unexpected_count` and the like), values kept as text. */
  type ResultDetail = map<string, string>

  /** One entry of `results`; each key may be missing. */
  datatype ExpectationResult = ExpectationResult(
    expectationConfig: Option<ExpectationConfig>,
    success: Option<bool>,
    result: Option<ResultDetail>)

  /** `results.to_json_dict()` of a whole run; each key may be missing. */
  datatype SuiteResult = SuiteResult(success: Option<bool>, results: Option<seq<ExpectationResult>>)
}
