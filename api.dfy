/** The decision logic of the report endpoint in src/api/main.py: the prompt
    text built for the summary model, and the sequence length gate, regex
    parse, escalation to the model-backed parser, summary. The web framework,
    uploads, temporary files and configuration loading are not modelled. */
module Api {
  import opened Schemas
  import opened PyStr
  import opened Parser
  import Pipeline

  /** The tests the summary concentrates on. */
  const KeyTests: seq<string> :=
    ["Hemoglobin", "RBC Count", "Platelet Count", "WBC Count",
     "Cholesterol", "Triglycerides", "HDL", "LDL",
     "AST", "ALT", "Creatinine", "Urea", "Glucose"]

  /** How many tests are summarised when none of them is a key test. */
  const FallbackCount := 5

  /** The escalation threshold when the configuration does not set one. */
  const DefaultThreshold := 5

  /** The shortest extracted text the endpoint goes on to parse. */
  const MinTextLength := 20

  // ---------------------------------------------------------------------
  // Selecting the tests to summarise

  /** `key.lower() in name.lower()` for some key test. */
  ghost predicate IsKeyTestName(keys: seq<string>, name: string)
  {
    exists k :: 0 <= k < |keys| && IsSubstring(Lower(keys[k]), Lower(name))
  }

  /** The generator expression `any(key.lower() in lname for key in keys)`. */
  function AnyKeyIn(keys: seq<string>, lname: string): bool
  {
    |keys| > 0 && (Contains(lname, Lower(keys[0])) || AnyKeyIn(keys[1..], lname))
  }

  lemma {:induction false} AnyKeyInIff(keys: seq<string>, lname: string)
    ensures AnyKeyIn(keys, lname) <==> exists k :: 0 <= k < |keys| && IsSubstring(Lower(keys[k]), lname)
  {
    if |keys| > 0 {
      ContainsIsSubstring(lname, Lower(keys[0]));
      AnyKeyInIff(keys[1..], lname);
      if exists k :: 0 <= k < |keys| && IsSubstring(Lower(keys[k]), lname) {
        var k :| 0 <= k < |keys| && IsSubstring(Lower(keys[k]), lname);
        if k > 0 {
          assert keys[1..][k - 1] == keys[k];
        }
      }
      if exists k :: 0 <= k < |keys[1..]| && IsSubstring(Lower(keys[1..][k]), lname) {
        var k :| 0 <= k < |keys[1..]| && IsSubstring(Lower(keys[1..][k]), lname);
        assert keys[1..][k] == keys[k + 1];
      }
    }
  }

  /** The executable key-test check on a test name. */
  function MentionsKeyTest(keys: seq<string>, name: string): bool
  {
    AnyKeyIn(keys, Lower(name))
  }

  /** A name mentions a key test exactly when some key test, lower-cased,
      occurs in the lower-cased name. */
  lemma MentionsKeyTestIff(keys: seq<string>, name: string)
    ensures MentionsKeyTest(keys, name) <==> IsKeyTestName(keys, name)
  {
    AnyKeyInIff(keys, Lower(name));
  }

  /** A test the first loop keeps: its `test_name` (or `''` when absent)
      names a key test. */
  predicate IsKeyTest(keys: seq<string>, t: TestEntry)
  {
    MentionsKeyTest(keys, NameText(t))
  }

  /** `test.get('test_name', '')` when it is a string, and `''` otherwise. */
  function NameText(t: TestEntry): string
  {
    if t.testName.Some? && t.testName.value.Text? then t.testName.value.s else ""
  }

  /** `test_name.lower()` raises AttributeError, unless the key is absent
      (then the name is `''`) or holds a string. */
  predicate HasNonStringName(t: TestEntry)
  {
    t.testName.Some? && !t.testName.value.Text?
  }

  /** The key tests among `tests`, in their order (the first loop). */
  function KeyTestsOf(keys: seq<string>, tests: seq<TestEntry>): seq<TestEntry>
    decreases |tests|
  {
    if tests == [] then []
    else
      var last := tests[|tests| - 1];
      KeyTestsOf(keys, tests[..|tests| - 1]) + (if IsKeyTest(keys, last) then [last] else [])
  }

  /** The tests that are summarised. */
  function Chosen(tests: seq<TestEntry>): seq<TestEntry>
  {
    var keys := KeyTestsOf(KeyTests, tests);
    if keys != [] then keys
    else tests[..if |tests| < FallbackCount then |tests| else FallbackCount]
  }

  /** `a` is `b` with some elements left out, the rest in their order. */
  ghost predicate IsSubsequence<T>(a: seq<T>, b: seq<T>)
    decreases |b|
  {
    if a == [] then true
    else if b == [] then false
    else if a[|a| - 1] == b[|b| - 1] then IsSubsequence(a[..|a| - 1], b[..|b| - 1])
    else IsSubsequence(a, b[..|b| - 1])
  }

  /** The key tests are exactly the tests that mention a key test name, in
      their original relative order. */
  lemma {:induction false} KeyTestsOfSelects(keys: seq<string>, tests: seq<TestEntry>)
    ensures forall t :: t in KeyTestsOf(keys, tests) <==> t in tests && IsKeyTest(keys, t)
    ensures IsSubsequence(KeyTestsOf(keys, tests), tests)
    ensures forall t :: multiset(KeyTestsOf(keys, tests))[t] ==
                          (if IsKeyTest(keys, t) then multiset(tests)[t] else 0)
    decreases |tests|
  {
    KeyTestsOfCounts(keys, tests);
    if tests != [] {
      var init := tests[..|tests| - 1];
      var last := tests[|tests| - 1];
      KeyTestsOfSelects(keys, init);
      assert tests == init + [last];
      if IsKeyTest(keys, last) {
        assert KeyTestsOf(keys, tests) == KeyTestsOf(keys, init) + [last];
      } else {
        assert KeyTestsOf(keys, tests) == KeyTestsOf(keys, init);
      }
    }
  }

  /** Each key test is kept as many times as it occurs, and no other test is. */
  lemma {:induction false} KeyTestsOfCounts(keys: seq<string>, tests: seq<TestEntry>)
    ensures forall t :: multiset(KeyTestsOf(keys, tests))[t] ==
                          (if IsKeyTest(keys, t) then multiset(tests)[t] else 0)
    decreases |tests|
  {
    if tests != [] {
      var init := tests[..|tests| - 1];
      var last := tests[|tests| - 1];
      KeyTestsOfCounts(keys, init);
      assert tests == init + [last];
      assert multiset(tests) == multiset(init) + multiset{last};
      if IsKeyTest(keys, last) {
        assert multiset(KeyTestsOf(keys, tests)) == multiset(KeyTestsOf(keys, init)) + multiset{last};
      }
    }
  }

  /** Without a key test, nothing is selected by the first loop. */
  lemma {:induction false} KeyTestsOfEmpty(keys: seq<string>, tests: seq<TestEntry>)
    ensures KeyTestsOf(keys, tests) == [] <==> forall t :: t in tests ==> !IsKeyTest(keys, t)
  {
    KeyTestsOfSelects(keys, tests);
    if KeyTestsOf(keys, tests) != [] {
      assert KeyTestsOf(keys, tests)[0] in KeyTestsOf(keys, tests);
    }
  }

  /** What is summarised: the key tests in their order when there is one,
      otherwise the first `min(5, n)` tests; nothing only when there are no
      tests at all. */
  lemma ChosenTests(tests: seq<TestEntry>)
    ensures (exists t :: t in tests && IsKeyTest(KeyTests, t)) ==>
              && (forall t :: t in Chosen(tests) <==> t in tests && IsKeyTest(KeyTests, t))
              && IsSubsequence(Chosen(tests), tests)
              && (forall t :: multiset(Chosen(tests))[t] ==
                                (if IsKeyTest(KeyTests, t) then multiset(tests)[t] else 0))
    ensures (forall t :: t in tests ==> !IsKeyTest(KeyTests, t)) ==>
              Chosen(tests) == tests[..if |tests| < FallbackCount then |tests| else FallbackCount]
    ensures Chosen(tests) == [] <==> tests == []
  {
    KeyTestsOfSelects(KeyTests, tests);
    KeyTestsOfEmpty(KeyTests, tests);
  }

  // ---------------------------------------------------------------------
  // The prompt text

  /** `d.get(key, default)` printed by an f-string: the default only when
      the key is absent. */
  function FieldText(field: Option<Scalar>, default: string, showFloat: real -> string): string
  {
    match field
    case None => default
    case Some(v) => v.Str(showFloat)
  }

  /** `structured_data.get('patient_details', {}).get('name', 'Valued Patient')`. */
  function PatientName(data: Payload, showFloat: real -> string): string
  {
    match data.patientDetails
    case None => "Valued Patient"
    case Some(details) => FieldText(details.name, "Valued Patient", showFloat)
  }

  function Header(data: Payload, showFloat: real -> string): string
  {
    "Patient Name: " + PatientName(data, showFloat) + "\n\nKey Test Results:\n"
  }

  /** The line printed for one test. */
  function TestLine(t: TestEntry, showFloat: real -> string): string
  {
    "- " + FieldText(t.testName, "N/A", showFloat) + ": " + FieldText(t.result, "N/A", showFloat) + " " +
    FieldText(t.unit, "", showFloat) + " (Normal: " + FieldText(t.referenceRange, "N/A", showFloat) + ")\n"
  }

  function LineOf(showFloat: real -> string): TestEntry -> string
  {
    t => TestLine(t, showFloat)
  }

  /** The lines printed for `tests`, one per test, in order. */
  function Lines(tests: seq<TestEntry>, showFloat: real -> string): string
  {
    ConcatMap(tests, LineOf(showFloat))
  }

  /** Printing two runs of tests one after the other prints their lines one
      after the other, and a single test prints exactly its own line. */
  lemma LinesAppend(a: seq<TestEntry>, b: seq<TestEntry>, showFloat: real -> string)
    ensures Lines(a + b, showFloat) == Lines(a, showFloat) + Lines(b, showFloat)
    ensures forall t :: Lines([t], showFloat) == TestLine(t, showFloat)
  {
    ConcatMapAppend(a, b, LineOf(showFloat));
    forall t ensures Lines([t], showFloat) == TestLine(t, showFloat) {
      assert [t][..0] == [];
      assert ConcatMap([t], LineOf(showFloat)) == "" + LineOf(showFloat)(t);
    }
  }

  /** The name defaults to 'Valued Patient' only where a key is absent; a
      present name is printed as it is, even when it is `None`. */
  lemma PatientNameDefault(data: Payload, showFloat: real -> string)
    ensures (data.patientDetails.None? || data.patientDetails.value.name.None?) ==>
              PatientName(data, showFloat) == "Valued Patient"
    ensures data.patientDetails.Some? && data.patientDetails.value.name.Some? ==>
              PatientName(data, showFloat) == data.patientDetails.value.name.value.Str(showFloat)
  {
  }

  /** A test without any of the four keys prints the defaults. */
  lemma TestLineDefaults(showFloat: real -> string)
    ensures TestLine(TestEntry(None, None, None, None), showFloat) == "- N/A: N/A  (Normal: N/A)\n"
  {
  }

  /** The prompt text `format_data_for_summary` builds from `data`. */
  function SummaryText(data: Payload, showFloat: real -> string): string
  {
    Header(data, showFloat) + Lines(Chosen(TestsOf(data)), showFloat)
  }

  /** The prompt text for the empty payload of a failed fallback parse. */
  lemma EmptySummaryText(showFloat: real -> string)
    ensures SummaryText(EmptyPayload(), showFloat) == "Patient Name: Valued Patient\n\nKey Test Results:\n"
  {
    assert TestsOf(EmptyPayload()) == [];
    assert Chosen([]) == [];
    assert Lines([], showFloat) == "";
    assert PatientName(EmptyPayload(), showFloat) == "Valued Patient";
  }

  /** The first loop of `format_data_for_summary`: the key tests in order,
      or AttributeError at the first present, non-string `test_name`. The
      key list is not empty, so `any(...)` always evaluates
      `test_name.lower()`. */
  method SelectKeyTests(keys: seq<string>, tests: seq<TestEntry>) returns (r: Outcome<seq<TestEntry>>)
    requires |keys| > 0
    ensures r.Raised? <==> exists i :: 0 <= i < |tests| && HasNonStringName(tests[i])
    ensures r.Raised? ==> r.error == AttributeError
    ensures r.Returned? ==> r.value == KeyTestsOf(keys, tests)
  {
    var toSummarize: seq<TestEntry> := [];
    var i := 0;
    while i < |tests|
      invariant 0 <= i <= |tests|
      invariant forall j :: 0 <= j < i ==> !HasNonStringName(tests[j])
      invariant toSummarize == KeyTestsOf(keys, tests[..i])
    {
      var test := tests[i];
      var testName := "";
      if test.testName.Some? {
        match test.testName.value {
          case Text(s) => testName := s;
          case _ => return Raised(AttributeError);
        }
      }
      assert tests[..i + 1][..i] == tests[..i];
      if MentionsKeyTest(keys, testName) {
        toSummarize := toSummarize + [test];
      }
      i := i + 1;
    }
    assert tests[..i] == tests;
    return Returned(toSummarize);
  }

  /** The second loop: `line(t)` appended to `header` for each test `t`, in order. */
  method AppendLines(header: string, tests: seq<TestEntry>, line: TestEntry -> string) returns (text: string)
    ensures text == header + ConcatMap(tests, line)
  {
    text := header;
    var k := 0;
    while k < |tests|
      invariant 0 <= k <= |tests|
      invariant text == header + ConcatMap(tests[..k], line)
    {
      assert tests[..k + 1][..k] == tests[..k];
      text := text + line(tests[k]);
      k := k + 1;
    }
    assert tests[..k] == tests;
  }

  /** Builds the prompt text: a header with the patient's name, then one line
      per chosen test. A present, non-string `test_name` makes `.lower()`
      raise AttributeError. */
  method FormatDataForSummary(data: Payload, showFloat: real -> string) returns (r: Outcome<string>)
    ensures r.Raised? <==> exists i :: 0 <= i < |TestsOf(data)| && HasNonStringName(TestsOf(data)[i])
    ensures r.Raised? ==> r.error == AttributeError
    ensures r.Returned? ==> r.value == SummaryText(data, showFloat)
  {
    var patientName := PatientName(data, showFloat);
    var header := "Patient Name: " + patientName + "\n\nKey Test Results:\n";
    var tests := TestsOf(data);
    var selected := SelectKeyTests(KeyTests, tests);
    match selected {
      case Raised(e) => return Raised(e);
      case Returned(keys) =>
        var toSummarize := keys;
        if toSummarize == [] {
          toSummarize := tests[..if |tests| < FallbackCount then |tests| else FallbackCount];
        }
        var text := AppendLines(header, toSummarize, LineOf(showFloat));
        return Returned(text);
    }
  }

  // ---------------------------------------------------------------------
  // The report endpoint

  /** `params.get('parser_config', {}).get('gemini_fallback_threshold', 5)`;
      `None` stands for either key being absent. */
  function Threshold(setting: Option<int>): (t: int)
    ensures setting.None? ==> t == 5
    ensures setting.Some? ==> t == setting.value
  {
    match setting
    case None => DefaultThreshold
    case Some(t) => t
  }

  /** The services the endpoint calls and that are not modelled. */
  datatype Services = Services(
    search: Search,
    toFloat: ToFloat,
    generate: Generate,
    loads: Loads,
    showFloat: real -> string,
    /** The summary model: its reply text, or `None` where the call raised. */
    summarize: (string, string) -> Option<string>,
    /** Pydantic validation of the chosen dictionary into the typed
        records, or `None` where it raises. */
    validate: Payload -> Option<StructuredData>)

  /** What the caller of the endpoint receives. */
  datatype Report =
    | Analysed(structuredData: Payload, escalated: bool, response: AnalysisResponse)
    | HttpError(status: int)

  /** The payload the regex parser returns for its result list. */
  function RegexPayload(results: seq<TestEntry>): Payload
  {
    Payload(None, Some(results))
  }

  /** The endpoint after text extraction. `modelsReady` is whether start-up
      built all three models; `summaryInstruction` is the configured system
      prompt passed to the summary model. The regex result is kept unless it
      holds fewer results than the threshold, in which case the fallback
      parser's payload replaces it whole. The chosen dictionary is then
      summarised and validated into the response. Every exception inside the
      `try`, including the 400 for too little text, reaches the caller as a
      500. */
  method ProcessReport(modelsReady: bool, filename: string, rawText: string, thresholdSetting: Option<int>,
                       summaryInstruction: string, regex: RegexParser, gemini: GeminiParser, services: Services)
    returns (report: Report)
    ensures !modelsReady ==> report == HttpError(503)
    ensures modelsReady && |rawText| < MinTextLength ==> report == HttpError(500)
    ensures (modelsReady && |rawText| >= MinTextLength &&
             Extracted(regex.patterns, rawText, services.search, services.toFloat).Raised?) ==> report == HttpError(500)
    ensures report.HttpError? ==> report.status == 500 || report.status == 503
    ensures report.HttpError? ==> (report.status == 503 <==> !modelsReady)
    ensures report.Analysed? ==>
              var parsed := Extracted(regex.patterns, rawText, services.search, services.toFloat);
              && modelsReady && |rawText| >= MinTextLength && parsed.Returned?
              && (report.escalated <==> |parsed.value| < Threshold(thresholdSetting))
              && report.structuredData ==
                   (if report.escalated then gemini.Parse(rawText, services.generate, services.loads)
                    else RegexPayload(parsed.value))
              && !(exists i :: 0 <= i < |TestsOf(report.structuredData)| && HasNonStringName(TestsOf(report.structuredData)[i]))
              && report.response.filename == filename
              && services.summarize(summaryInstruction, SummaryText(report.structuredData, services.showFloat)) ==
                   Some(report.response.analysis.summary)
              && services.validate(report.structuredData) == Some(report.response.analysis.structuredData)
    ensures (modelsReady && |rawText| >= MinTextLength &&
             Extracted(regex.patterns, rawText, services.search, services.toFloat).Returned?) ==>
              var kept := RegexPayload(Extracted(regex.patterns, rawText, services.search, services.toFloat).value);
              var count := |Extracted(regex.patterns, rawText, services.search, services.toFloat).value|;
              var data := if count < Threshold(thresholdSetting) then gemini.Parse(rawText, services.generate, services.loads) else kept;
              (!(exists i :: 0 <= i < |TestsOf(data)| && HasNonStringName(TestsOf(data)[i])) &&
               services.summarize(summaryInstruction, SummaryText(data, services.showFloat)).Some? &&
               services.validate(data).Some?) ==> report.Analysed?
  {
    if !modelsReady {
      return HttpError(503);
    }
    if rawText == "" || |rawText| < MinTextLength {
      return HttpError(500);
    }
    var structuredData := regex.Parse(rawText, services.search, services.toFloat);
    if structuredData.Raised? {
      return HttpError(500);
    }
    var data := structuredData.value;
    var escalated := |TestsOf(data)| < Threshold(thresholdSetting);
    if escalated {
      data := gemini.Parse(rawText, services.generate, services.loads);
    }
    var prompt := FormatDataForSummary(data, services.showFloat);
    if prompt.Raised? {
      return HttpError(500);
    }
    var summary := services.summarize(summaryInstruction, prompt.value);
    if summary.None? {
      return HttpError(500);
    }
    var validated := services.validate(data);
    if validated.None? {
      return HttpError(500);
    }
    return Analysed(data, escalated, AnalysisResponse(filename, AnalysisPayload(validated.value, summary.value)));
  }

  /** The length gate counts the page-break markers: a PDF of two or more
      pages whose tasks all raise ConnectionError (no client, and its
      construction fails) yields the markers alone, with no recognised text
      at all, and still passes the gate, so the parsers go on to read it. */
  lemma MarkerOnlyTextPassesGate(images: seq<seq<Pipeline.Byte>>, detect: seq<Pipeline.Byte> -> Pipeline.Detection)
    requires |images| >= 2
    ensures Pipeline.PdfText(false, false, images, detect) == Join(Pipeline.PageBreak, Pipeline.Blank(|images|))
    ensures |Pipeline.PdfText(false, false, images, detect)| >= MinTextLength
  {
    Pipeline.NoClientPdfText(images, detect);
  }

  /** The fallback threshold bounds escalation from both sides: a threshold
      of at most 0 never escalates, and one above the catalog size always
      does, since the regex parser yields at most one result per entry. */
  lemma EscalationBounds(patterns: seq<(string, string)>, text: string, search: Search, toFloat: ToFloat, threshold: int)
    requires Extracted(patterns, text, search, toFloat).Returned?
    ensures threshold <= 0 ==> !(|Extracted(patterns, text, search, toFloat).value| < threshold)
    ensures threshold > |patterns| ==> |Extracted(patterns, text, search, toFloat).value| < threshold
  {
    ExtractedBound(patterns, text, search, toFloat);
  }
}
