/** The two report parsers of src/parser.py: the pattern-catalog parser that
    runs first, and the model-backed parser it escalates to.

    The regular-expression engine, `float()`, the generative model and
    `json.loads` are not modelled; each is a function parameter (an oracle). */
module Parser {
  import opened Schemas
  import PyStr

  /** The result of `re.search(pattern, text, re.IGNORECASE | re.DOTALL)`: no
      match, or the match's `groups()` (group 1 first), where `None` is a
      group that did not take part in the match. */
  datatype Match = NoMatch | Found(groups: seq<Option<string>>)

  /** `re.search`, given the pattern and the text. */
  type Search = (string, string) -> Match

  /** `float(s)` on a string: a number, or `None` where it raises ValueError. */
  type ToFloat = string -> Option<real>

  /** What one catalog entry does to the result list. */
  datatype Step = Skipped | Emitted(entry: TestEntry) | Escaped(error: Exception)

  /** The `unit` expression: group 3 stripped, when the pattern has more than
      two groups and group 3 matched a non-empty string; `None` otherwise. */
  function UnitOf(groups: seq<Option<string>>): Scalar
  {
    if |groups| > 2 && groups[2].Some? && groups[2].value != "" then Text(PyStr.Strip(groups[2].value))
    else Null
  }

  /** One iteration of the catalog loop, for the entry `testName` whose
      pattern gave `m`. A missing group 2 (IndexError) and a group 2 that
      does not convert (ValueError) skip the entry; a group 2 that did not
      take part makes `float(None)` raise TypeError, which nothing absorbs. */
  function EntryStep(testName: string, m: Match, toFloat: ToFloat): (s: Step)
    ensures m.NoMatch? ==> s == Skipped
    ensures s.Escaped? <==> m.Found? && |m.groups| >= 2 && m.groups[1].None?
    ensures s.Escaped? ==> s.error == TypeError
    ensures s.Emitted? <==> m.Found? && |m.groups| >= 2 && m.groups[1].Some? && toFloat(m.groups[1].value).Some?
    ensures s.Emitted? ==>
              && s.entry.testName == Some(Text(testName))
              && s.entry.result == Some(Float(toFloat(m.groups[1].value).value))
              && s.entry.unit == Some(UnitOf(m.groups))
              && s.entry.referenceRange.None?
  {
    match m
    case NoMatch => Skipped
    case Found(groups) =>
      if |groups| < 2 then Skipped
      else
        match groups[1]
        case None => Escaped(TypeError)
        case Some(g) =>
          match toFloat(g)
          case None => Skipped
          case Some(x) => Emitted(TestEntry(Some(Text(testName)), Some(Float(x)), Some(UnitOf(groups)), None))
  }

  /** The step of catalog entry `i`. */
  function StepAt(patterns: seq<(string, string)>, i: nat, text: string, search: Search, toFloat: ToFloat): Step
    requires i < |patterns|
  {
    EntryStep(patterns[i].0, search(patterns[i].1, text), toFloat)
  }

  /** A dictionary has each key once. */
  ghost predicate KeysDistinct(patterns: seq<(string, string)>)
  {
    forall i, j :: 0 <= i < j < |patterns| ==> patterns[i].0 != patterns[j].0
  }

  /** What the parse loop has produced after the entries `patterns`, in
      order: the result list so far, or the exception that left the loop. */
  function Extracted(patterns: seq<(string, string)>, text: string, search: Search, toFloat: ToFloat): Outcome<seq<TestEntry>>
    decreases |patterns|
  {
    if patterns == [] then Returned([])
    else
      var last := patterns[|patterns| - 1];
      match Extracted(patterns[..|patterns| - 1], text, search, toFloat)
      case Raised(e) => Raised(e)
      case Returned(results) =>
        match EntryStep(last.0, search(last.1, text), toFloat)
        case Skipped => Returned(results)
        case Escaped(e) => Raised(e)
        case Emitted(r) => Returned(results + [r])
  }

  /** Reference definition: the entries the catalog emits, read front to back. */
  function Emissions(patterns: seq<(string, string)>, text: string, search: Search, toFloat: ToFloat): seq<TestEntry>
  {
    if patterns == [] then []
    else
      var head := match StepAt(patterns, 0, text, search, toFloat)
                  case Emitted(r) => [r]
                  case _ => [];
      head + Emissions(patterns[1..], text, search, toFloat)
  }

  /** Some catalog entry raises TypeError. */
  ghost predicate Escapes(patterns: seq<(string, string)>, text: string, search: Search, toFloat: ToFloat)
  {
    exists i :: 0 <= i < |patterns| && StepAt(patterns, i, text, search, toFloat).Escaped?
  }

  lemma {:induction false} EmissionsAppend(a: seq<(string, string)>, b: seq<(string, string)>, text: string, search: Search, toFloat: ToFloat)
    ensures Emissions(a + b, text, search, toFloat) == Emissions(a, text, search, toFloat) + Emissions(b, text, search, toFloat)
  {
    if a == [] {
      assert a + b == b;
    } else {
      assert (a + b)[1..] == a[1..] + b;
      assert (a + b)[0] == a[0];
      EmissionsAppend(a[1..], b, text, search, toFloat);
    }
  }

  /** The parse loop raises iff some entry raises TypeError; otherwise its
      result list is exactly the reference list of emitted entries. */
  lemma {:induction false} ExtractedIsEmissions(patterns: seq<(string, string)>, text: string, search: Search, toFloat: ToFloat)
    ensures Extracted(patterns, text, search, toFloat) ==
            if Escapes(patterns, text, search, toFloat) then Raised(TypeError)
            else Returned(Emissions(patterns, text, search, toFloat))
    decreases |patterns|
  {
    if patterns != [] {
      var n := |patterns| - 1;
      var init := patterns[..n];
      ExtractedIsEmissions(init, text, search, toFloat);
      assert patterns == init + [patterns[n]];
      EmissionsAppend(init, [patterns[n]], text, search, toFloat);
      var step := StepAt(patterns, n, text, search, toFloat);
      assert EntryStep(patterns[n].0, search(patterns[n].1, text), toFloat) == step;
      assert StepAt([patterns[n]], 0, text, search, toFloat) == step;
      assert Emissions([patterns[n]], text, search, toFloat) == (if step.Emitted? then [step.entry] else []);
      assert Escapes(patterns, text, search, toFloat) <==>
             Escapes(init, text, search, toFloat) || StepAt(patterns, n, text, search, toFloat).Escaped? by {
        if Escapes(patterns, text, search, toFloat) {
          var i :| 0 <= i < |patterns| && StepAt(patterns, i, text, search, toFloat).Escaped?;
          if i < n {
            assert StepAt(init, i, text, search, toFloat) == StepAt(patterns, i, text, search, toFloat);
          }
        }
        if Escapes(init, text, search, toFloat) {
          var i :| 0 <= i < |init| && StepAt(init, i, text, search, toFloat).Escaped?;
          assert StepAt(init, i, text, search, toFloat) == StepAt(patterns, i, text, search, toFloat);
        }
      }
      if Escapes(init, text, search, toFloat) {
        assert Extracted(patterns, text, search, toFloat) == Raised(TypeError);
      } else if step.Escaped? {
        assert Extracted(patterns, text, search, toFloat) == Raised(TypeError);
      } else {
        assert Emissions(patterns, text, search, toFloat) ==
               Emissions(init, text, search, toFloat) + (if step.Emitted? then [step.entry] else []);
        assert Extracted(init, text, search, toFloat) == Returned(Emissions(init, text, search, toFloat));
        if step.Emitted? {
          assert Extracted(patterns, text, search, toFloat) == Returned(Emissions(init, text, search, toFloat) + [step.entry]);
        } else {
          assert Extracted(patterns, text, search, toFloat) == Returned(Emissions(init, text, search, toFloat));
          assert Emissions(init, text, search, toFloat) + [] == Emissions(init, text, search, toFloat);
        }
      }
    }
  }

  /** Once the loop has raised on a prefix, the whole parse raises. */
  lemma {:induction false} ExtractedRaisedPrefix(patterns: seq<(string, string)>, i: nat, text: string, search: Search, toFloat: ToFloat)
    requires i <= |patterns|
    requires Extracted(patterns[..i], text, search, toFloat).Raised?
    ensures Extracted(patterns, text, search, toFloat) == Extracted(patterns[..i], text, search, toFloat)
    decreases |patterns|
  {
    if i < |patterns| {
      var init := patterns[..|patterns| - 1];
      assert init[..i] == patterns[..i];
      ExtractedRaisedPrefix(init, i, text, search, toFloat);
    } else {
      assert patterns[..i] == patterns;
    }
  }

  /** Each catalog entry contributes at most one result. */
  lemma {:induction false} EmissionsBound(patterns: seq<(string, string)>, text: string, search: Search, toFloat: ToFloat)
    ensures |Emissions(patterns, text, search, toFloat)| <= |patterns|
  {
    if patterns != [] {
      EmissionsBound(patterns[1..], text, search, toFloat);
    }
  }

  /** A parse that returns has at most one result per catalog entry. */
  lemma ExtractedBound(patterns: seq<(string, string)>, text: string, search: Search, toFloat: ToFloat)
    requires Extracted(patterns, text, search, toFloat).Returned?
    ensures |Extracted(patterns, text, search, toFloat).value| <= |patterns|
  {
    ExtractedIsEmissions(patterns, text, search, toFloat);
    EmissionsBound(patterns, text, search, toFloat);
  }

  /** Each position in `idx` is a catalog entry that emitted the result at the same place. */
  ghost predicate IndexesEmit(idx: seq<nat>, patterns: seq<(string, string)>, results: seq<TestEntry>,
                              text: string, search: Search, toFloat: ToFloat)
  {
    && |idx| == |results|
    && forall k :: 0 <= k < |idx| ==>
         idx[k] < |patterns| && StepAt(patterns, idx[k], text, search, toFloat) == Emitted(results[k])
  }

  ghost predicate Increasing(idx: seq<nat>)
  {
    forall k, l :: 0 <= k < l < |idx| ==> idx[k] < idx[l]
  }

  /** Every catalog position from `from` on whose entry emits is listed in `idx`. */
  ghost predicate CoversEmitting(idx: seq<nat>, patterns: seq<(string, string)>, from: nat,
                                 text: string, search: Search, toFloat: ToFloat)
  {
    forall i :: from <= i < |patterns| && StepAt(patterns, i, text, search, toFloat).Emitted? ==> i in idx
  }

  /** `idx` lists the catalog positions the results came from: strictly
      increasing, each emitting its result, and every emitting position listed. */
  ghost predicate IsEmissionIndex(idx: seq<nat>, patterns: seq<(string, string)>, results: seq<TestEntry>,
                                  text: string, search: Search, toFloat: ToFloat)
  {
    && IndexesEmit(idx, patterns, results, text, search, toFloat)
    && Increasing(idx)
    && CoversEmitting(idx, patterns, 0, text, search, toFloat)
  }

  /** Positions in `patterns[1..]`, read as positions in `patterns`. */
  function Shift(idx: seq<nat>): (r: seq<nat>)
    ensures |r| == |idx| && forall k :: 0 <= k < |idx| ==> r[k] == idx[k] + 1
  {
    seq(|idx|, k requires 0 <= k < |idx| => idx[k] + 1)
  }

  lemma ShiftIndexesEmit(patterns: seq<(string, string)>, idx: seq<nat>, rest: seq<TestEntry>,
                         text: string, search: Search, toFloat: ToFloat)
    requires |patterns| > 0
    requires IndexesEmit(idx, patterns[1..], rest, text, search, toFloat)
    ensures IndexesEmit(Shift(idx), patterns, rest, text, search, toFloat)
    ensures forall k :: 0 <= k < |idx| ==> Shift(idx)[k] > 0
  {
    var shifted := Shift(idx);
    forall k | 0 <= k < |idx|
      ensures shifted[k] < |patterns| && StepAt(patterns, shifted[k], text, search, toFloat) == Emitted(rest[k])
    {
      assert StepAt(patterns[1..], idx[k], text, search, toFloat) == StepAt(patterns, shifted[k], text, search, toFloat);
    }
  }

  lemma ShiftCovers(patterns: seq<(string, string)>, idx: seq<nat>, text: string, search: Search, toFloat: ToFloat)
    requires |patterns| > 0
    requires CoversEmitting(idx, patterns[1..], 0, text, search, toFloat)
    ensures CoversEmitting(Shift(idx), patterns, 1, text, search, toFloat)
  {
    forall i | 1 <= i < |patterns| && StepAt(patterns, i, text, search, toFloat).Emitted?
      ensures i in Shift(idx)
    {
      assert StepAt(patterns[1..], i - 1, text, search, toFloat) == StepAt(patterns, i, text, search, toFloat);
      var k :| 0 <= k < |idx| && idx[k] == i - 1;
      assert Shift(idx)[k] == i;
    }
  }

  lemma PrependIndexesEmit(patterns: seq<(string, string)>, idx: seq<nat>, rest: seq<TestEntry>,
                           text: string, search: Search, toFloat: ToFloat)
    requires |patterns| > 0 && StepAt(patterns, 0, text, search, toFloat).Emitted?
    requires IndexesEmit(idx, patterns, rest, text, search, toFloat)
    ensures IndexesEmit([0] + idx, patterns, [StepAt(patterns, 0, text, search, toFloat).entry] + rest, text, search, toFloat)
  {
    var all := [0] + idx;
    var results := [StepAt(patterns, 0, text, search, toFloat).entry] + rest;
    forall k | 0 <= k < |all|
      ensures all[k] < |patterns| && StepAt(patterns, all[k], text, search, toFloat) == Emitted(results[k])
    {
      if k > 0 {
        assert all[k] == idx[k - 1] && results[k] == rest[k - 1];
      }
    }
  }

  lemma PrependIncreasing(idx: seq<nat>)
    requires Increasing(idx)
    requires forall k :: 0 <= k < |idx| ==> idx[k] > 0
    ensures Increasing([0] + idx)
  {
    var all := [0] + idx;
    forall k, l | 0 <= k < l < |all|
      ensures all[k] < all[l]
    {
      assert all[l] == idx[l - 1];
      if k > 0 {
        assert all[k] == idx[k - 1];
      }
    }
  }

  lemma PrependCovers(patterns: seq<(string, string)>, idx: seq<nat>, text: string, search: Search, toFloat: ToFloat)
    requires CoversEmitting(idx, patterns, 1, text, search, toFloat)
    ensures CoversEmitting([0] + idx, patterns, 0, text, search, toFloat)
  {
    forall i | 0 <= i < |patterns| && StepAt(patterns, i, text, search, toFloat).Emitted?
      ensures i in [0] + idx
    {
      if i > 0 {
        var k :| 0 <= k < |idx| && idx[k] == i;
        assert ([0] + idx)[k + 1] == i;
      }
    }
  }

  lemma ShiftIncreasing(idx: seq<nat>)
    requires Increasing(idx)
    ensures Increasing(Shift(idx))
  {
  }

  /** The reference list is the emitting entries in catalog order, each once. */
  lemma {:induction false} EmissionsInCatalogOrder(patterns: seq<(string, string)>, text: string, search: Search, toFloat: ToFloat)
    ensures exists idx :: IsEmissionIndex(idx, patterns, Emissions(patterns, text, search, toFloat), text, search, toFloat)
  {
    var results := Emissions(patterns, text, search, toFloat);
    if patterns == [] {
      assert IsEmissionIndex([], patterns, results, text, search, toFloat);
    } else {
      var tail := patterns[1..];
      EmissionsInCatalogOrder(tail, text, search, toFloat);
      var rest := Emissions(tail, text, search, toFloat);
      var idx' :| IsEmissionIndex(idx', tail, rest, text, search, toFloat);
      var shifted := Shift(idx');
      ShiftIndexesEmit(patterns, idx', rest, text, search, toFloat);
      ShiftCovers(patterns, idx', text, search, toFloat);
      ShiftIncreasing(idx');
      var first := StepAt(patterns, 0, text, search, toFloat);
      if first.Emitted? {
        assert results == [first.entry] + rest;
        PrependIndexesEmit(patterns, shifted, rest, text, search, toFloat);
        PrependIncreasing(shifted);
        PrependCovers(patterns, shifted, text, search, toFloat);
        assert IsEmissionIndex([0] + shifted, patterns, results, text, search, toFloat);
      } else {
        assert results == rest;
        assert CoversEmitting(shifted, patterns, 0, text, search, toFloat);
        assert IsEmissionIndex(shifted, patterns, results, text, search, toFloat);
      }
    }
  }

  /** A parse that returns lists its results in catalog order, each result
      coming from a distinct entry that emitted it, and loses no entry that emits. */
  lemma ExtractedInCatalogOrder(patterns: seq<(string, string)>, text: string, search: Search, toFloat: ToFloat)
    requires Extracted(patterns, text, search, toFloat).Returned?
    ensures exists idx :: IsEmissionIndex(idx, patterns, Extracted(patterns, text, search, toFloat).value, text, search, toFloat)
  {
    ExtractedIsEmissions(patterns, text, search, toFloat);
    EmissionsInCatalogOrder(patterns, text, search, toFloat);
  }

  /** Every result is named by its catalog key, and no key is reported twice. */
  lemma ExtractedNamesAreDistinctKeys(patterns: seq<(string, string)>, text: string, search: Search, toFloat: ToFloat)
    requires KeysDistinct(patterns)
    requires Extracted(patterns, text, search, toFloat).Returned?
    ensures var results := Extracted(patterns, text, search, toFloat).value;
            && (forall k :: 0 <= k < |results| ==> exists i :: 0 <= i < |patterns| && results[k].testName == Some(Text(patterns[i].0)))
            && (forall k, l :: 0 <= k < l < |results| ==> results[k].testName != results[l].testName)
  {
    var results := Extracted(patterns, text, search, toFloat).value;
    ExtractedInCatalogOrder(patterns, text, search, toFloat);
    var idx :| IsEmissionIndex(idx, patterns, results, text, search, toFloat);
    forall k | 0 <= k < |results|
      ensures results[k].testName == Some(Text(patterns[idx[k]].0))
    {
      assert StepAt(patterns, idx[k], text, search, toFloat) == Emitted(results[k]);
    }
  }

  /** The first-pass parser: a catalog mapping each test name to a pattern,
      kept in the dictionary's iteration order. */
  class RegexParser {
    const patterns: seq<(string, string)>

    constructor (patterns: seq<(string, string)>)
      requires KeysDistinct(patterns)
      ensures this.patterns == patterns
    {
      this.patterns := patterns;
    }

    /** Walks the catalog once, appending one record per entry whose pattern
        matches and whose group 2 converts. The dictionary returned has a
        `test_results` list and never a `patient_details` key. */
    method Parse(text: string, search: Search, toFloat: ToFloat) returns (out: Outcome<Payload>)
      ensures out.Returned? ==> out.value.patientDetails.None? && out.value.testResults.Some?
      ensures match Extracted(patterns, text, search, toFloat)
              case Raised(e) => out == Raised(e)
              case Returned(results) => out == Returned(Payload(None, Some(results)))
    {
      var results: seq<TestEntry> := [];
      var i := 0;
      while i < |patterns|
        invariant 0 <= i <= |patterns|
        invariant Extracted(patterns[..i], text, search, toFloat) == Returned(results)
      {
        var testName, pattern := patterns[i].0, patterns[i].1;
        assert patterns[..i + 1][..i] == patterns[..i];
        var m := search(pattern, text);
        if m.Found? && |m.groups| >= 2 {
          match m.groups[1] {
            case None =>
              ExtractedRaisedPrefix(patterns, i + 1, text, search, toFloat);
              return Raised(TypeError);
            case Some(g) =>
              var value := toFloat(g);
              if value.Some? {
                results := results + [TestEntry(Some(Text(testName)), Some(Float(value.value)), Some(UnitOf(m.groups)), None)];
              }
          }
        }
        i := i + 1;
      }
      assert patterns[..i] == patterns;
      return Returned(Payload(None, Some(results)));
    }
  }

  /** Generation through the model: `generate(systemPrompt, text)` is the
      reply text, or `None` where the call raised. */
  type Generate = (string, string) -> Option<string>

  /** `json.loads` on the reply: a dictionary, or `None` where it raised. */
  type Loads = string -> Option<Payload>

  /** The fallback parser, sending the raw text to a generative model. */
  class GeminiParser {
    const modelName: string
    const systemPrompt: string

    constructor (modelName: string, systemPrompt: string)
      ensures this.modelName == modelName && this.systemPrompt == systemPrompt
    {
      this.modelName := modelName;
      this.systemPrompt := systemPrompt;
    }

    /** The decoded reply, or exactly the empty payload when the call or the
        decoding raises. */
    function Parse(text: string, generate: Generate, loads: Loads): (p: Payload)
      ensures (generate(systemPrompt, text).None? || loads(generate(systemPrompt, text).value).None?) ==> p == EmptyPayload()
      ensures generate(systemPrompt, text).Some? && loads(generate(systemPrompt, text).value).Some? ==>
                p == loads(generate(systemPrompt, text).value).value
    {
      match generate(systemPrompt, text)
      case None => EmptyPayload()
      case Some(reply) =>
        match loads(reply)
        case None => EmptyPayload()
        case Some(parsed) => parsed
    }
  }
}
