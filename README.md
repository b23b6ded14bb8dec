# Aarogya-AI report pipeline, modelled in Dafny

This project models the core of the Aarogya-AI lab-report service. That core has three parts:

- **Text extraction** (`src/data_processing/pipeline.py`). The file extension picks the path. A PDF is rasterised page by page and every page goes to the recognition service on a thread pool. Each finished page writes its text into its own slot of a pre-sized list, and a failed page leaves `""` there. The slots are joined with the page-break marker `"\n\n--- PAGE BREAK ---\n\n"`. An image is sent to the service in a single call. Any other extension, and any exception, gives `""`. The recognition client is created lazily, once, and shared.
- **Parsing** (`src/parser.py`). `RegexParser` walks a catalog of test names and patterns. For every entry whose pattern matches and whose group 2 converts to a number, it appends one result. `GeminiParser` asks a generative model for the whole payload. It falls back to the empty payload `{"patient_details": {}, "test_results": []}` when the call or the JSON decoding raises.
- **The report endpoint** (`src/api/main.py`). It rejects text shorter than 20 characters. It escalates from the regex result to the model's result when the regex found fewer results than the configured threshold (default 5). It builds the summary prompt with `format_data_for_summary`, summarises it and validates the result into the typed response of `src/api/schemas.py`. Inside the `try`, every exception becomes status 500.

Modules:

- `PyStr` (`pystr.dfy`) holds the Python string built-ins the code relies on: `lower`, `strip`, `in`, `rfind`, `join` and `str(int)`.
- `Schemas` (`schemas.dfy`) holds two things. One is the dictionary-shaped payload the parsers return; it keeps "key absent" apart from "value `None`". The other is the typed response records.
- `Parser` (`parser.dfy`) holds the two parser classes.
- `Api` (`api.dfy`) holds the prompt builder and the endpoint.
- `Pipeline` (`pipeline.dfy`) holds the extraction.

The services the code calls are function parameters of the model, and what each returns is arbitrary:

- `re.search`, `float()`
- the generative model, `json.loads`, the summary model
- Pydantic validation
- the recognition service
- how a float prints (`str(float)`)

The PDF library and the file system enter as data:

- whether the PDF opens; the page images it rasterises into, or the pages rasterised before one fails; and the order in which the page tasks complete;
- the bytes of an image file, or the fact that reading it failed;
- whether constructing the recognition client succeeds.

Two behaviours of the code are worth knowing, and the model keeps both:

- A failure to construct the recognition client is not fatal. `get_vision_client` raises ConnectionError (src/data_processing/pipeline.py:26-28), and where it lands depends on the file:
  - For an image, the error reaches the `except` of `extract_text_from_file` (src/data_processing/pipeline.py:79-81), which gives `""`. The endpoint then answers 500.
  - For a PDF, each page task raises it separately, and the collection loop absorbs it page by page (src/data_processing/pipeline.py:61-65). The text is then the page-break markers alone, 22 characters for every page after the first. A PDF of two or more pages therefore passes the 20-character gate (src/api/main.py:119), and the parsers go on to read marker text (`Api.MarkerOnlyTextPassesGate`).
- `RegexParser.parse` can raise TypeError. A pattern whose group 2 does not take part in the match makes `float(None)` raise (src/parser.py:28). Nothing catches it before the endpoint's handler, which answers 500. The model keeps that path (`Parser.EntryStep`, `Parser.RegexParser.Parse`).

## Model

| member | source | states |
|---|---|---|
| `Parser.EntryStep` | src/parser.py:24-34 | One catalog entry's effect, covering every case. No match: nothing is added. Fewer than two groups (IndexError), or a group 2 that does not convert (ValueError): the entry is skipped. A group 2 that did not take part: TypeError escapes. Otherwise, exactly one record is added with the catalog name, the converted number, the stripped group 3 (or `None` when group 3 is missing or empty) and no reference range. |
| `Parser.RegexParser.constructor` | src/parser.py:15-17 | The parser keeps the catalog it is given, with distinct keys as a dictionary has them. |
| `Parser.RegexParser.Parse` | src/parser.py:19-36 | The loop's outcome is the catalog fold `Extracted`. If that fold raises, the same exception leaves `parse`. Otherwise the result is `{"test_results": results}` with no `patient_details` key. |
| `Parser.ExtractedIsEmissions` | src/parser.py:21-34 | The loop raises TypeError iff some entry raises. Otherwise its list equals an independent front-to-back definition of the emitted entries. |
| `Parser.ExtractedRaisedPrefix` | src/parser.py:21-34 | Once an entry has raised, the rest of the catalog changes nothing: the exception ends the loop. |
| `Parser.ExtractedBound` | src/parser.py:21-31 | A parse that returns has at most one result per catalog entry. |
| `Parser.ExtractedInCatalogOrder` | src/parser.py:21-31 | The results appear in catalog order. Each comes from a distinct entry that emitted it. No emitting entry is lost. |
| `Parser.ExtractedNamesAreDistinctKeys` | src/parser.py:21-31 | Every result is named by a catalog key, and no two results share a name. |
| `Parser.GeminiParser.constructor` | src/parser.py:40-42 | The parser keeps the configured model name and system prompt. |
| `Parser.GeminiParser.Parse` | src/parser.py:51-60 | If the model call or the JSON decoding raises, the result is exactly the empty payload. Otherwise it is the decoded reply. |
| `PyStr.Lower` | src/api/main.py:85 | The result has the same length, and each character is lower-cased on its own. |
| `PyStr.Strip` | src/parser.py:29 | Only whitespace is removed, and only from the two ends. The result neither starts nor ends with whitespace. |
| `PyStr.ContainsIsSubstring` | src/api/main.py:85 | The executable search succeeds iff the needle occurs in the string at some position. |
| `PyStr.LastIndexOf` | src/data_processing/pipeline.py:47 | The result is the position of the last occurrence of the character, or -1 when it does not occur. |
| `PyStr.JoinAppend` | src/data_processing/pipeline.py:67 | Joining one more part adds exactly one separator and that part. |
| `PyStr.IntToString` | src/api/main.py:98 | `str(i)` is a numeral: a minus sign exactly for a negative number, then digits with no leading zero. The number it denotes is `i`. |
| `Api.AnyKeyInIff` | src/api/main.py:85 | `any(...)` over the key list holds iff some key, lower-cased, occurs in the name. |
| `Api.MentionsKeyTestIff` | src/api/main.py:76-85 | A name is a key-test name iff some key test, lower-cased, occurs in the lower-cased name. |
| `Api.KeyTestsOfSelects` | src/api/main.py:82-86 | The first loop keeps exactly the tests that mention a key test, in their original relative order, each as many times as it occurs in the input. |
| `Api.KeyTestsOfCounts` | src/api/main.py:82-86 | Each test that mentions a key test is kept as many times as it occurs, and no other test is kept. |
| `Api.KeyTestsOfEmpty` | src/api/main.py:82-89 | The first loop selects nothing iff no test mentions a key test. |
| `Api.ChosenTests` | src/api/main.py:82-90 | If there is a key test, the chosen tests are the key tests, in order, each as many times as it occurs in the input. Otherwise they are the first min(5, n) tests. The choice is empty only when there are no tests. |
| `Api.PatientNameDefault` | src/api/main.py:69-73 | The name is 'Valued Patient' when `patient_details` or its `name` key is absent. A present name is printed as it is. |
| `Api.TestLineDefaults` | src/api/main.py:92-98 | A test with none of the four keys prints `N/A`, `N/A`, `''` and `N/A`. |
| `Schemas.Scalar.Str` | src/api/main.py:73-98 | An f-string prints `None` as `None`, booleans as `True` and `False`, an integer as the numeral of its value, a string as itself. |
| `Api.LinesAppend` | src/api/main.py:92-98 | The printed lines of two runs of tests are those of each run, one after the other. One test prints exactly its own line. |
| `Api.EmptySummaryText` | src/api/main.py:69-100 | The empty payload of a failed fallback parse prints the default header and no lines. |
| `Api.SelectKeyTests` | src/api/main.py:82-86 | The first loop raises AttributeError iff some `test_name` is present and not a string. Otherwise it returns exactly the key tests in order. |
| `Api.AppendLines` | src/api/main.py:92-98 | The second loop appends one line per test, in order, to the header. |
| `Api.FormatDataForSummary` | src/api/main.py:65-100 | The prompt raises AttributeError iff some `test_name` is present and not a string. Otherwise it is the header with the patient's name, then one line per chosen test. |
| `Api.ProcessReport` | src/api/main.py:110-150 | 503 when the models are not ready. 500 for text shorter than 20 characters and for a regex parse that raises. Otherwise escalation happens iff the regex found fewer results than the threshold (default 5), and the fallback payload then replaces the regex payload whole. The response carries the filename, the summary of that payload's prompt and its validated records. Whenever prompt, summary and validation all succeed, a response is produced. Every error status is 500 or 503, and it is 503 exactly when the models are not ready, so every failure inside the `try` answers 500. |
| `Api.Threshold` | src/api/main.py:123 | The escalation threshold is the configured value, or 5 when it is not configured. |
| `Api.MarkerOnlyTextPassesGate` | src/api/main.py:118-121 | A PDF of two or more pages whose page tasks all raise ConnectionError gives only page-break markers, and that text still passes the 20-character gate. |
| `Api.EscalationBounds` | src/api/main.py:122-124 | A threshold of at most 0 never escalates. A threshold above the catalog size always escalates. |
| `Pipeline.VisionService.constructor` | src/data_processing/pipeline.py:13 | The shared client slot starts empty. |
| `Pipeline.VisionService.GetVisionClient` | src/data_processing/pipeline.py:15-29 | With a client present, the same instance is returned and kept. With the slot empty, a successful construction stores a fresh client and returns it. A failed construction raises ConnectionError and leaves the slot empty for the next call. |
| `Pipeline.Interpret` | src/data_processing/pipeline.py:35-40 | A reply yields its full text iff its error message is empty. A non-empty message is an error carrying that message. |
| `Pipeline.ImageOutcome` | src/data_processing/pipeline.py:31-40 | The client is unavailable iff none exists and its construction fails. Otherwise the reply decides. |
| `Pipeline.ProcessSingleImageBytes` | src/data_processing/pipeline.py:31-40 | The outcome is `ImageOutcome` of the old client state, the construction and the service's reply. An existing client is kept. An empty slot is filled iff construction succeeds. |
| `Pipeline.Blank` | src/data_processing/pipeline.py:58 | `page_count` slots, all `""`. |
| `Pipeline.CompleteFrame` | src/data_processing/pipeline.py:59-65 | A completion writes only the slot at its own page index. A task that raised writes nothing. |
| `Pipeline.AfterCompletionsAt` | src/data_processing/pipeline.py:58-65 | Starting from blank slots, a slot holds its page's text once that page has completed, and `""` before. |
| `Pipeline.CompletionOrderIrrelevant` | src/data_processing/pipeline.py:53-65 | When every page has completed, in any order, the slots are the pages' texts in page order, with `""` for failed pages. |
| `Pipeline.CompletionOrdersAgree` | src/data_processing/pipeline.py:53-65 | Any two completion orders of the same pages give the same slots. |
| `Pipeline.AssemblePages` | src/data_processing/pipeline.py:53-67 | Every page task runs `_process_single_image_bytes` on its page image and fills its own slot. The text is the page texts in page order, joined with the page-break marker, whatever the completion order. Every page sees the same client availability, so with no client and a failing construction every page fails. An existing client is kept. An empty slot is filled iff construction succeeds, unless there are no pages. Zero pages give `""`. |
| `Pipeline.NoClientPdfText` | src/data_processing/pipeline.py:31-67 | With no client and a failing construction, every page fails with ConnectionError. The text is then `n - 1` page-break markers of 22 characters each. |
| `Pipeline.RunSubmitted` | src/data_processing/pipeline.py:53-57 | When a page fails to rasterise, the tasks already submitted still run. An existing client is kept. If one of them ran, an empty slot is filled iff construction succeeds. |
| `Pipeline.ExtractPdfText` | src/data_processing/pipeline.py:51-67 | The PDF branch gives the assembled pages, or `""` when the PDF cannot be opened or a page cannot be rasterised. The client slot changes only when a page task runs. An existing client is kept. After at least one task, an empty slot is filled iff construction succeeds. |
| `Pipeline.Extension` | src/data_processing/pipeline.py:47 | `splitext`'s extension is `""` or a suffix of the path. It starts with its only `.` and holds no `/`. It is non-empty iff the last path component has a `.` with something other than a dot before it. |
| `Pipeline.ExtensionAtNonEmpty` | src/data_processing/pipeline.py:47 | After the last `/`, there is an extension iff some `.` has a character other than a dot before it. |
| `Pipeline.ExtensionLower` | src/data_processing/pipeline.py:47 | The extension of the lower-cased path is the lower-cased extension. |
| `Pipeline.KindOf` | src/data_processing/pipeline.py:47-51 | PDF iff the lower-cased extension is `.pdf`. Image iff it is one of `.jpg`, `.jpeg`, `.png`. |
| `Pipeline.KindOfIgnoresCase` | src/data_processing/pipeline.py:47-77 | The dispatch does not depend on the case of the path. |
| `Pipeline.ExtractTextFromFile` | src/data_processing/pipeline.py:42-81 | Any other extension gives `""`. A PDF gives the assembled pages, or `""` when it cannot be opened or a page cannot be rasterised. An image gives the recognised text, or `""` when reading it or recognising it fails. The client slot changes only when some recognition call is made, on either path. An existing client is kept. After at least one call, an empty slot is filled iff construction succeeds. |

## Left out

- Other operations of the service:
  - the dashboard;
  - the FastAPI application and its root route;
  - the start-up event and `load_app_config` (a YAML file read). Start-up success is the `modelsReady` input of `Api.ProcessReport`.
  - `run_pipeline.py`.
- Api.ProcessReport: starts after the upload has been written to a temporary file (src/api/main.py:113-115).
  - It does not model that write, or the unlink in `finally`, because those are file-system I/O outside the `try`.
  - It takes the extracted text as an input instead of calling `Pipeline.ExtractTextFromFile`.
  - A threshold value from the configuration that is not an integer is not modelled.
- The external services are oracles, and nothing about their results is assumed. These are the recognition service, the generative models, the `re` engine, `float()` and `json.loads`.
- Parser.RegexParser.Parse: `re.search` cannot raise in the model. An invalid pattern in the catalog raises `re.error` (src/parser.py:23), and the endpoint would answer 500.
- Pipeline.Extension: models `posixpath.splitext` only. On Windows `os.path` also treats `\\` and drive letters as separators.
- Api.ProcessReport: an error is its status code only. The `detail` text of the HTTPException is not modelled. That text is "Service Unavailable: …" for 503 (src/api/main.py:111), and it carries `str(e)` for 500 (src/api/main.py:150).
- Floating point is not modelled. Converted numbers are reals, and how they print is a parameter.
- Concurrency:
  - The thread pool is reduced to a completion order, which is an input that lists each page once.
  - Pipeline.AssemblePages: runs the page tasks one after the other, in completion order. Two tasks that both find the client slot empty may each construct a client, and the last one stored wins; the model constructs at most one.
  - Whether constructing the client succeeds is one input per extraction, so it succeeds or fails alike on every attempt.
  - The `max_workers` and `dpi` parameters change nothing the model can observe.
- Shapes of JSON the payload cannot express are not modelled. These include a `patient_details` or `test_results` key holding `null` or a non-container, a result entry that is not a dictionary, and extra keys. The Python code raises AttributeError or TypeError on several of these.
- PyStr.Lower: lower-cases ASCII letters only. For the extension dispatch this decides exactly as Python does, since no other character lower-cases to a letter of `pdf`, `jpg`, `jpeg` or `png`. For the key list `KeyTests` it decides as Python does too. The only non-ASCII characters that Python lower-cases into ASCII are U+212A (to `k`) and U+0130 (to `i` and U+0307). No key test contains `k`, and none ends in `i`. For another key list passed to `Api.SelectKeyTests`, matching can differ from Python on test names with those two capitals.
- Log messages are not modelled. Neither is the page number in the recognition error message (src/data_processing/pipeline.py:38), which is only written to the log.
