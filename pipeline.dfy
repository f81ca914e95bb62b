/** The verdict of the whole pipeline (`dq_pipeline.py`), combining the
    aggregate layer and the record layer run over the same rows. */
module Pipeline {
  import opened Wrappers
  import RecordValidation
  import AggregateValidation

  /** `ge_summary["overall_success"] and pydantic_summary["overall_success"]`;
      the notifier computes the same conjunction. */
  function AllPassed(ge: AggregateValidation.AggregateSummary, record: RecordValidation.RecordSummary): bool {
    ge.overallSuccess && record.overallSuccess
  }

  /** The pipeline passes exactly when the library reports the suite as
      passed and every row reads as a valid order. */
  lemma {:induction false} AllPassedIff(validate: AggregateValidation.Validator, rows: seq<RecordValidation.Row>)
    requires RecordValidation.Loadable(rows)
    ensures AllPassed(AggregateValidation.SummariseResults(validate(AggregateValidation.AMAZON_SALES_SUITE, rows)),
                      RecordValidation.Summarise(RecordValidation.NormaliseAll(rows)))
            <==> validate(AggregateValidation.AMAZON_SALES_SUITE, rows).success == Some(true)
                 && forall i :: 0 <= i < |rows| ==> RecordValidation.OrderValid(RecordValidation.Normalise(rows[i]))
  {
    var orders := RecordValidation.NormaliseAll(rows);
    assert forall i :: 0 <= i < |rows| ==> orders[i] == RecordValidation.Normalise(rows[i]);
  }

  /** The pipeline's steps 2 to 5: run both layers over the same rows and
      combine their verdicts. */
  method RunPipeline(validate: AggregateValidation.Validator, rows: seq<RecordValidation.Row>) returns (allOk: bool)
    requires RecordValidation.Loadable(rows)
    ensures allOk <==> validate(AggregateValidation.AMAZON_SALES_SUITE, rows).success == Some(true)
                       && forall i :: 0 <= i < |rows| ==> RecordValidation.OrderValid(RecordValidation.Normalise(rows[i]))
  {
    var geSummary := AggregateValidation.RunGeValidation(validate, rows);
    var pydanticSummary := RecordValidation.RunPydanticValidation(rows);
    AllPassedIff(validate, rows);
    allOk := AllPassed(geSummary, pydanticSummary);
  }
}
