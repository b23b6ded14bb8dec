/** The shapes of data that move through the report pipeline.

    Two views are kept apart. The parsers and the summary formatter handle
    plain dictionaries, where a key can be absent (`None` of `Option`) and a
    present key can hold the JSON/Python value `None` (`Null`); the
    formatter's defaults depend on that difference. The API's response is
    validated into the typed records of src/api/schemas.py, mirrored at the
    end of this module. */
module Schemas {
  import PyStr

  datatype Option<+T> = None | Some(value: T)

  /** The exceptions that decide control flow in the modelled code. */
  datatype Exception = TypeError | AttributeError

  /** A Python call that either returns a value or raises. */
  datatype Outcome<+T> = Returned(value: T) | Raised(error: Exception)

  /** A scalar value a result dictionary can hold: what `json.loads` or the
      regex parser can put under `test_name`, `result`, `unit`,
      `reference_range` or `name`. */
  datatype Scalar = Null | Boolean(b: bool) | Integer(i: int) | Float(f: real) | Text(s: string)
  {
    /** `str(value)`, as an f-string prints it. How a float is printed is
        given by `showFloat`. */
    function Str(showFloat: real -> string): (r: string)
      ensures Null? ==> r == "None"
      ensures Boolean? ==> r == (if b then "True" else "False")
      ensures Integer? ==> PyStr.IsNumeral(r) && PyStr.NumeralValue(r) == i
      ensures Float? ==> r == showFloat(f)
      ensures Text? ==> r == s
    {
      match this
      case Null => "None"
      case Boolean(b) => if b then "True" else "False"
      case Integer(i) => PyStr.IntToString(i)
      case Float(f) => showFloat(f)
      case Text(s) => s
    }
  }

  /** One `test_results` dictionary; `None` marks an absent key. */
  datatype TestEntry = TestEntry(
    testName: Option<Scalar>,
    result: Option<Scalar>,
    unit: Option<Scalar>,
    referenceRange: Option<Scalar>)

  /** The `patient_details` dictionary. */
  datatype DetailsEntry = DetailsEntry(name: Option<Scalar>, age: Option<Scalar>, sex: Option<Scalar>)

  /** The structured dictionary a parser returns. */
  datatype Payload = Payload(patientDetails: Option<DetailsEntry>, testResults: Option<seq<TestEntry>>)

  /** `structured_data.get('test_results', [])`. */
  function TestsOf(data: Payload): seq<TestEntry>
  {
    match data.testResults
    case None => []
    case Some(tests) => tests
  }

  /** `{"patient_details": {}, "test_results": []}`. */
  function EmptyPayload(): Payload
  {
    Payload(Some(DetailsEntry(None, None, None)), Some([]))
  }

  // The typed response records of the API (Pydantic models).

  datatype TestResult = TestResult(
    testName: string,
    result: Scalar,
    unit: Option<string>,
    referenceRange: Option<string>)

  datatype PatientDetails = PatientDetails(name: Option<string>, age: Option<int>, sex: Option<string>)

  datatype StructuredData = StructuredData(patientDetails: PatientDetails, testResults: seq<TestResult>)

  datatype AnalysisPayload = AnalysisPayload(structuredData: StructuredData, summary: string)

  datatype AnalysisResponse = AnalysisResponse(filename: string, analysis: AnalysisPayload)
}
