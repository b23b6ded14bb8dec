/** Text extraction in src/data_processing/pipeline.py: the lazily created,
    shared recognition client; the check on one recognition response; the
    extension dispatch; and the assembly of a PDF's pages into one text, in
    page order, whatever order the page tasks finish in. Recognition,
    rasterisation and file reading are inputs of the model. */
module Pipeline {
  import opened PyStr
  import opened Schemas

  type Byte = x: int | 0 <= x < 256

  // ---------------------------------------------------------------------
  // The shared recognition client

  /** A client of the recognition service; its construction is the only
      thing about it the model needs. */
  class VisionClient {
    constructor ()
    {
    }
  }

  /** What `get_vision_client` gives its caller: the shared client, or a
      raised ConnectionError when constructing it failed. */
  datatype ClientResult = Connected(client: VisionClient) | ConnectionFailed

  /** The module-level slot `_VISION_CLIENT`, which starts empty. */
  class VisionService {
    var client: VisionClient?

    constructor ()
      ensures client == null
    {
      client := null;
    }

    /** Constructs the client on the first successful call and hands out
        that same instance on every call after it. A failed construction
        leaves the slot empty, so the next call tries again.
        `constructionSucceeds` is whether the constructor would return. */
    method GetVisionClient(constructionSucceeds: bool) returns (r: ClientResult)
      modifies this
      ensures old(client) != null ==> r == Connected(old(client)) && client == old(client)
      ensures old(client) == null && constructionSucceeds ==>
                r.Connected? && fresh(r.client) && client == r.client
      ensures old(client) == null && !constructionSucceeds ==> r == ConnectionFailed && client == null
      ensures r.Connected? ==> client == r.client
    {
      if client == null {
        if !constructionSucceeds {
          return ConnectionFailed;
        }
        client := new VisionClient();
      }
      return Connected(client);
    }
  }

  // ---------------------------------------------------------------------
  // Recognising one image

  /** The reply of `document_text_detection`, or the call raising. */
  datatype Detection = DetectionRaised | Response(errorMessage: string, fullText: string)

  /** Why a page produced no text. */
  datatype Failure = ClientUnavailable | CallRaised | ApiError(message: string)

  /** The outcome of recognising one page or image. */
  datatype PageOutcome = Recognized(text: string) | RecognitionFailed(reason: Failure)

  /** A reply with a non-empty error message is an error; otherwise its
      full text is the page's text. */
  function Interpret(d: Detection): (o: PageOutcome)
    ensures o.Recognized? <==> d.Response? && d.errorMessage == []
    ensures o.Recognized? ==> o.text == d.fullText
    ensures d.Response? && d.errorMessage != [] ==> o == RecognitionFailed(ApiError(d.errorMessage))
  {
    match d
    case DetectionRaised => RecognitionFailed(CallRaised)
    case Response(message, fullText) =>
      if message != [] then RecognitionFailed(ApiError(message)) else Recognized(fullText)
  }

  /** `_process_single_image_bytes` as a function of whether the shared
      client already exists, whether constructing it would succeed, and the
      service's reply. */
  function ImageOutcome(hasClient: bool, constructionSucceeds: bool, d: Detection): (o: PageOutcome)
    ensures !hasClient && !constructionSucceeds ==> o == RecognitionFailed(ClientUnavailable)
    ensures hasClient || constructionSucceeds ==> o == Interpret(d)
  {
    if !hasClient && !constructionSucceeds then RecognitionFailed(ClientUnavailable) else Interpret(d)
  }

  /** Obtains the shared client, sends the image and checks the reply.
      `detect` is the recognition service. */
  method ProcessSingleImageBytes(vision: VisionService, constructionSucceeds: bool,
                                 imageBytes: seq<Byte>, detect: seq<Byte> -> Detection)
    returns (out: PageOutcome)
    modifies vision
    ensures out == ImageOutcome(old(vision.client) != null, constructionSucceeds, detect(imageBytes))
    ensures old(vision.client) != null ==> vision.client == old(vision.client)
    ensures old(vision.client) == null ==> (vision.client != null <==> constructionSucceeds)
  {
    var client := vision.GetVisionClient(constructionSucceeds);
    if client.ConnectionFailed? {
      return RecognitionFailed(ClientUnavailable);
    }
    var response := detect(imageBytes);
    match response {
      case DetectionRaised =>
        return RecognitionFailed(CallRaised);
      case Response(message, fullText) =>
        if message != [] {
          return RecognitionFailed(ApiError(message));
        }
        return Recognized(fullText);
    }
  }

  // ---------------------------------------------------------------------
  // Assembling the pages of a PDF

  /** The separator placed between page texts. */
  const PageBreak := "\n\n--- PAGE BREAK ---\n\n"

  /** The text a page leaves in its slot: its recognised text, or `""`
      when its task raised. */
  function SlotText(o: PageOutcome): string
  {
    if o.Recognized? then o.text else ""
  }

  /** The slots in page order once every page has completed. */
  function Slots(outcomes: seq<PageOutcome>): (s: seq<string>)
    ensures |s| == |outcomes|
    ensures forall i :: 0 <= i < |outcomes| ==> s[i] == SlotText(outcomes[i])
  {
    seq(|outcomes|, i requires 0 <= i < |outcomes| => SlotText(outcomes[i]))
  }

  /** `[""] * page_count`. */
  function Blank(n: nat): (b: seq<string>)
    ensures |b| == n
    ensures forall i :: 0 <= i < n ==> b[i] == ""
  {
    seq(n, _ => "")
  }

  /** Every entry of `order` is a page index. */
  ghost predicate InPages(order: seq<nat>, n: nat)
  {
    forall k :: 0 <= k < |order| ==> order[k] < n
  }

  /** What `as_completed` yields: each of the `n` page tasks exactly once,
      in some order. */
  ghost predicate IsCompletionOrder(order: seq<nat>, n: nat)
  {
    |order| == n && InPages(order, n) && forall j :: 0 <= j < n ==> j in order
  }

  lemma InPagesPrefix(order: seq<nat>, n: nat, k: nat)
    requires InPages(order, n) && k <= |order|
    ensures InPages(order[..k], n)
  {
  }

  /** The slots after the task of `page` completes. */
  function Complete(slots: seq<string>, page: nat, outcomes: seq<PageOutcome>): seq<string>
    requires page < |slots| == |outcomes|
  {
    match outcomes[page]
    case Recognized(t) => slots[page := t]
    case RecognitionFailed(_) => slots
  }

  /** A completion writes only the slot at its own page index, and writes
      nothing when the task raised. */
  lemma CompleteFrame(slots: seq<string>, page: nat, outcomes: seq<PageOutcome>)
    requires page < |slots| == |outcomes|
    ensures |Complete(slots, page, outcomes)| == |slots|
    ensures forall j :: 0 <= j < |slots| && j != page ==> Complete(slots, page, outcomes)[j] == slots[j]
    ensures Complete(slots, page, outcomes)[page] ==
              (if outcomes[page].Recognized? then outcomes[page].text else slots[page])
  {
  }

  /** The slots after the tasks in `order` have completed, one after the
      other. */
  function AfterCompletions(slots: seq<string>, order: seq<nat>, outcomes: seq<PageOutcome>): (r: seq<string>)
    requires |slots| == |outcomes| && InPages(order, |outcomes|)
    ensures |r| == |slots|
    decreases |order|
  {
    if order == [] then slots
    else
      InPagesPrefix(order, |outcomes|, |order| - 1);
      Complete(AfterCompletions(slots, order[..|order| - 1], outcomes), order[|order| - 1], outcomes)
  }

  /** Starting from blank slots, a slot holds its page's text once that page
      has completed, and `""` before. */
  lemma {:induction false} AfterCompletionsAt(order: seq<nat>, outcomes: seq<PageOutcome>, j: nat)
    requires InPages(order, |outcomes|) && j < |outcomes|
    ensures AfterCompletions(Blank(|outcomes|), order, outcomes)[j] ==
              (if j in order then SlotText(outcomes[j]) else "")
    decreases |order|
  {
    if order != [] {
      var init := order[..|order| - 1];
      var page := order[|order| - 1];
      InPagesPrefix(order, |outcomes|, |order| - 1);
      AfterCompletionsAt(init, outcomes, j);
      var before := AfterCompletions(Blank(|outcomes|), init, outcomes);
      CompleteFrame(before, page, outcomes);
      assert order == init + [page];
      assert j in order <==> j in init || j == page;
    }
  }

  /** Once every page has completed, the slots are the pages' texts in page
      order, whatever order the tasks completed in. */
  lemma CompletionOrderIrrelevant(order: seq<nat>, outcomes: seq<PageOutcome>)
    requires IsCompletionOrder(order, |outcomes|)
    ensures AfterCompletions(Blank(|outcomes|), order, outcomes) == Slots(outcomes)
  {
    forall j | 0 <= j < |outcomes|
      ensures AfterCompletions(Blank(|outcomes|), order, outcomes)[j] == Slots(outcomes)[j]
    {
      AfterCompletionsAt(order, outcomes, j);
    }
  }

  /** Two completion orders of the same pages yield the same slots. */
  lemma CompletionOrdersAgree(order1: seq<nat>, order2: seq<nat>, outcomes: seq<PageOutcome>)
    requires IsCompletionOrder(order1, |outcomes|) && IsCompletionOrder(order2, |outcomes|)
    ensures AfterCompletions(Blank(|outcomes|), order1, outcomes) ==
            AfterCompletions(Blank(|outcomes|), order2, outcomes)
  {
    CompletionOrderIrrelevant(order1, outcomes);
    CompletionOrderIrrelevant(order2, outcomes);
  }

  /** What each page task returns or raises when the pages' images are
      `images`: a task finds the client in the state the extraction started
      with, or one an earlier task created, so every page sees the same
      client availability. */
  function PageOutcomes(hasClient: bool, constructionSucceeds: bool, images: seq<seq<Byte>>,
                        detect: seq<Byte> -> Detection): (os: seq<PageOutcome>)
    ensures |os| == |images|
    ensures forall i :: 0 <= i < |images| ==> os[i] == ImageOutcome(hasClient, constructionSucceeds, detect(images[i]))
  {
    seq(|images|, i requires 0 <= i < |images| => ImageOutcome(hasClient, constructionSucceeds, detect(images[i])))
  }

  /** The text of a PDF whose pages all rasterised. */
  function PdfText(hasClient: bool, constructionSucceeds: bool, images: seq<seq<Byte>>,
                   detect: seq<Byte> -> Detection): string
  {
    Join(PageBreak, Slots(PageOutcomes(hasClient, constructionSucceeds, images, detect)))
  }

  /** `n` empty slots joined with `sep` are `n - 1` separators. */
  lemma {:induction false} JoinBlank(sep: string, n: nat)
    requires n > 0
    ensures |Join(sep, Blank(n))| == |sep| * (n - 1)
  {
    if n > 1 {
      JoinBlank(sep, n - 1);
      assert Blank(n) == Blank(n - 1) + [""];
      JoinAppend(sep, Blank(n - 1), "");
    }
  }

  /** Without a client and with a construction that fails, every page task
      raises ConnectionError, so the PDF's text is the page-break markers
      alone: 22 characters for every page after the first. */
  lemma NoClientPdfText(images: seq<seq<Byte>>, detect: seq<Byte> -> Detection)
    ensures forall i :: 0 <= i < |images| ==>
              PageOutcomes(false, false, images, detect)[i] == RecognitionFailed(ClientUnavailable)
    ensures PdfText(false, false, images, detect) == Join(PageBreak, Blank(|images|))
    ensures |images| > 0 ==> |PdfText(false, false, images, detect)| == 22 * (|images| - 1)
  {
    assert Slots(PageOutcomes(false, false, images, detect)) == Blank(|images|);
    if |images| > 0 {
      JoinBlank(PageBreak, |images|);
    }
  }

  /** The PDF branch once every page has rasterised. The task of page `i`
      runs `_process_single_image_bytes` on `images[i]`; the tasks run one
      after the other in `order`, the order `as_completed` yields them, and
      each fills its page's slot. The slots are then joined with the page
      break. */
  method AssemblePages(vision: VisionService, constructionSucceeds: bool, images: seq<seq<Byte>>,
                       order: seq<nat>, detect: seq<Byte> -> Detection)
    returns (text: string)
    requires IsCompletionOrder(order, |images|)
    modifies vision
    ensures text == PdfText(old(vision.client) != null, constructionSucceeds, images, detect)
    ensures |images| == 0 ==> text == "" && vision.client == old(vision.client)
    ensures old(vision.client) != null ==> vision.client == old(vision.client)
    ensures old(vision.client) == null && |images| > 0 ==> (vision.client != null <==> constructionSucceeds)
  {
    ghost var outcomes := PageOutcomes(vision.client != null, constructionSucceeds, images, detect);
    var n := |images|;
    var results := new string[n](_ => "");
    assert results[..] == Blank(n);
    var k := 0;
    while k < |order|
      invariant 0 <= k <= |order|
      invariant InPages(order[..k], n)
      invariant results[..] == AfterCompletions(Blank(n), order[..k], outcomes)
      invariant old(vision.client) != null ==> vision.client == old(vision.client)
      invariant old(vision.client) == null && k == 0 ==> vision.client == null
      invariant old(vision.client) == null && k > 0 ==> (vision.client != null <==> constructionSucceeds)
    {
      var pageNum := order[k];
      assert order[..k + 1][..k] == order[..k];
      var outcome := ProcessSingleImageBytes(vision, constructionSucceeds, images[pageNum], detect);
      assert outcome == outcomes[pageNum];
      match outcome {
        case Recognized(t) =>
          results[pageNum] := t;
        case RecognitionFailed(_) =>
      }
      k := k + 1;
    }
    assert order[..k] == order;
    CompletionOrderIrrelevant(order, outcomes);
    text := Join(PageBreak, results[..]);
  }

  /** A page fails to rasterise after the tasks of `submitted` were handed
      to the pool: leaving the `with` block waits for them, so they still
      run, one after the other here, before the exception is caught. Only
      their effect on the shared client remains. */
  method RunSubmitted(vision: VisionService, constructionSucceeds: bool, submitted: seq<seq<Byte>>,
                      detect: seq<Byte> -> Detection)
    modifies vision
    ensures |submitted| == 0 ==> vision.client == old(vision.client)
    ensures old(vision.client) != null ==> vision.client == old(vision.client)
    ensures old(vision.client) == null && |submitted| > 0 ==> (vision.client != null <==> constructionSucceeds)
  {
    var k := 0;
    while k < |submitted|
      invariant 0 <= k <= |submitted|
      invariant old(vision.client) != null ==> vision.client == old(vision.client)
      invariant old(vision.client) == null && k == 0 ==> vision.client == null
      invariant old(vision.client) == null && k > 0 ==> (vision.client != null <==> constructionSucceeds)
    {
      var outcome := ProcessSingleImageBytes(vision, constructionSucceeds, submitted[k], detect);
      k := k + 1;
    }
  }

  // ---------------------------------------------------------------------
  // Dispatch on the file extension

  /** `s` consists of dots only. */
  predicate AllDots(s: string)
  {
    forall i :: 0 <= i < |s| ==> s[i] == '.'
  }

  /** `os.path.splitext(path)[1]` for POSIX paths: the last `.` of the last
      path component and what follows it, provided something other than a
      dot precedes it in that component; otherwise `""`. */
  function Extension(path: string): (e: string)
    ensures e == [] || (|e| <= |path| && e == path[|path| - |e|..])
    ensures e == [] || (e[0] == '.' && forall i :: 0 < i < |e| ==> e[i] != '.' && e[i] != '/')
    ensures e != [] <==> DottedAfter(path, LastIndexOf(path, '/'))
  {
    var sep := LastIndexOf(path, '/');
    var dot := LastIndexOf(path, '.');
    ExtensionAtNonEmpty(path, sep, dot);
    if dot > sep then
      TailShape(path, sep, dot);
      ExtensionAt(path, sep, dot)
    else ExtensionAt(path, sep, dot)
  }

  /** The extension of `path` given the positions of its last `/` and its
      last `.`. */
  function ExtensionAt(path: string, sep: int, dot: int): string
    requires -1 <= sep < |path| && -1 <= dot < |path|
  {
    if dot > sep && !AllDots(path[sep + 1..dot]) then path[dot..] else ""
  }

  /** After position `sep`, `path` has a `.` with something other than a
      dot somewhere before it. */
  predicate DottedAfter(path: string, sep: int)
    requires -1 <= sep
  {
    exists i, j :: sep < i < j < |path| && path[i] != '.' && path[j] == '.'
  }

  /** There is an extension iff the last path component has a `.` with
      something other than a dot somewhere before it. */
  lemma ExtensionAtNonEmpty(path: string, sep: int, dot: int)
    requires sep == LastIndexOf(path, '/') && dot == LastIndexOf(path, '.')
    ensures ExtensionAt(path, sep, dot) != [] <==> DottedAfter(path, sep)
  {
    if ExtensionAt(path, sep, dot) != [] {
      ExtensionGivesDotted(path, sep, dot);
    }
    if DottedAfter(path, sep) {
      DottedGivesExtension(path, sep, dot);
    }
  }

  lemma ExtensionGivesDotted(path: string, sep: int, dot: int)
    requires -1 <= sep < |path| && -1 <= dot < |path|
    requires dot >= 0 ==> path[dot] == '.'
    requires ExtensionAt(path, sep, dot) != []
    ensures DottedAfter(path, sep)
  {
    var m :| 0 <= m < |path[sep + 1..dot]| && path[sep + 1..dot][m] != '.';
    assert path[sep + 1 + m] != '.';
    assert sep < sep + 1 + m < dot < |path|;
  }

  lemma DottedGivesExtension(path: string, sep: int, dot: int)
    requires -1 <= sep < |path| && dot == LastIndexOf(path, '.')
    requires DottedAfter(path, sep)
    ensures ExtensionAt(path, sep, dot) != []
  {
    var i, j :| sep < i < j < |path| && path[i] != '.' && path[j] == '.';
    assert j <= dot;
    assert path[sep + 1..dot][i - sep - 1] == path[i];
  }

  /** What follows the last `.`, itself after the last `/`, holds neither. */
  lemma TailShape(path: string, sep: int, dot: int)
    requires sep == LastIndexOf(path, '/') && dot == LastIndexOf(path, '.') && dot > sep
    ensures path[dot..][0] == '.'
    ensures forall i :: 0 < i < |path| - dot ==> path[dot..][i] != '.' && path[dot..][i] != '/'
  {
  }

  lemma LowerSlice(s: string, i: int, j: int)
    requires 0 <= i <= j <= |s|
    ensures Lower(s)[i..j] == Lower(s[i..j])
  {
  }

  lemma AllDotsLower(s: string)
    ensures AllDots(Lower(s)) <==> AllDots(s)
  {
    assert forall i :: 0 <= i < |s| ==> (Lower(s)[i] == '.' <==> s[i] == '.');
  }

  lemma ExtensionAtLower(path: string, sep: int, dot: int)
    requires -1 <= sep < |path| && -1 <= dot < |path|
    ensures ExtensionAt(Lower(path), sep, dot) == Lower(ExtensionAt(path, sep, dot))
  {
    if dot > sep {
      LowerSlice(path, sep + 1, dot);
      LowerSlice(path, dot, |path|);
      AllDotsLower(path[sep + 1..dot]);
    }
  }

  /** Lower-casing the path lower-cases its extension and changes nothing
      else about it. */
  lemma ExtensionLower(path: string)
    ensures Extension(Lower(path)) == Lower(Extension(path))
  {
    LastIndexOfLower(path, '/');
    LastIndexOfLower(path, '.');
    ExtensionAtLower(path, LastIndexOf(path, '/'), LastIndexOf(path, '.'));
  }

  lemma LowerIdempotent(s: string)
    ensures Lower(Lower(s)) == Lower(s)
  {
  }

  /** Where a file goes. */
  datatype FileKind = PdfFile | ImageFile | Unsupported

  /** The branch `extract_text_from_file` takes for `path`. */
  function KindOf(path: string): (k: FileKind)
    ensures k == PdfFile <==> Lower(Extension(path)) == ".pdf"
    ensures k == ImageFile <==> Lower(Extension(path)) in [".jpg", ".jpeg", ".png"]
  {
    var ext := Lower(Extension(path));
    if ext == ".pdf" then PdfFile
    else if ext in [".jpg", ".jpeg", ".png"] then ImageFile
    else Unsupported
  }

  /** The dispatch does not depend on the case of the path. */
  lemma KindOfIgnoresCase(path: string)
    ensures KindOf(Lower(path)) == KindOf(path)
  {
    ExtensionLower(path);
    LowerIdempotent(Extension(path));
  }

  // ---------------------------------------------------------------------
  // The whole extraction

  /** What the PDF library makes of the file: `fitz.open` raises; a page
      fails to rasterise after the pages before it, `submitted`, were handed
      to the pool; or every page rasterises into `images`, and the page
      tasks complete in `completionOrder`. */
  datatype PdfDocument =
    | PdfUnopenable
    | PdfRasterFailed(submitted: seq<seq<Byte>>)
    | PdfPages(images: seq<seq<Byte>>, completionOrder: seq<nat>)

  /** The completion order of a rasterised PDF covers each of its pages once. */
  ghost predicate WellFormedPdf(pdf: PdfDocument)
  {
    pdf.PdfPages? ==> IsCompletionOrder(pdf.completionOrder, |pdf.images|)
  }

  /** How many page tasks the PDF branch runs. */
  function PdfCalls(pdf: PdfDocument): nat
  {
    match pdf
    case PdfUnopenable => 0
    case PdfRasterFailed(submitted) => |submitted|
    case PdfPages(images, _) => |images|
  }

  /** How many times `extract_text_from_file` calls `_process_single_image_bytes`
      for a file of kind `kind`. */
  function RecognitionCalls(kind: FileKind, pdf: PdfDocument, imageBytes: Option<seq<Byte>>): nat
  {
    match kind
    case PdfFile => PdfCalls(pdf)
    case ImageFile => if imageBytes.Some? then 1 else 0
    case Unsupported => 0
  }

  /** The PDF branch of `extract_text_from_file`, up to the `except` that
      turns an exception into `""`. */
  method ExtractPdfText(pdf: PdfDocument, vision: VisionService, constructionSucceeds: bool,
                        detect: seq<Byte> -> Detection)
    returns (text: string)
    requires WellFormedPdf(pdf)
    modifies vision
    ensures text == (if pdf.PdfPages?
                     then PdfText(old(vision.client) != null, constructionSucceeds, pdf.images, detect)
                     else "")
    ensures PdfCalls(pdf) == 0 ==> vision.client == old(vision.client)
    ensures old(vision.client) != null ==> vision.client == old(vision.client)
    ensures old(vision.client) == null && PdfCalls(pdf) > 0 ==> (vision.client != null <==> constructionSucceeds)
  {
    match pdf {
      case PdfUnopenable =>
        return "";
      case PdfRasterFailed(submitted) =>
        RunSubmitted(vision, constructionSucceeds, submitted, detect);
        return "";
      case PdfPages(images, order) =>
        text := AssemblePages(vision, constructionSucceeds, images, order, detect);
    }
  }

  /** The text extracted from the file at `path`. `pdf` is what the PDF
      library makes of the file, `imageBytes` its contents (`None` when
      reading it raises), and `detect` the recognition service. Every
      exception ends in `""`. The shared client is created by the first
      recognition call that finds the slot empty and whose construction
      succeeds. */
  method ExtractTextFromFile(path: string, pdf: PdfDocument, imageBytes: Option<seq<Byte>>,
                             vision: VisionService, constructionSucceeds: bool, detect: seq<Byte> -> Detection)
    returns (text: string)
    requires WellFormedPdf(pdf)
    modifies vision
    ensures KindOf(path) == Unsupported ==> text == ""
    ensures KindOf(path) == PdfFile ==>
              text == (if pdf.PdfPages?
                       then PdfText(old(vision.client) != null, constructionSucceeds, pdf.images, detect)
                       else "")
    ensures KindOf(path) == ImageFile ==>
              text == (if imageBytes.Some?
                       then SlotText(ImageOutcome(old(vision.client) != null, constructionSucceeds, detect(imageBytes.value)))
                       else "")
    ensures RecognitionCalls(KindOf(path), pdf, imageBytes) == 0 ==> vision.client == old(vision.client)
    ensures old(vision.client) != null ==> vision.client == old(vision.client)
    ensures old(vision.client) == null && RecognitionCalls(KindOf(path), pdf, imageBytes) > 0 ==>
              (vision.client != null <==> constructionSucceeds)
  {
    match KindOf(path) {
      case PdfFile =>
        text := ExtractPdfText(pdf, vision, constructionSucceeds, detect);
      case ImageFile =>
        match imageBytes {
          case None =>
            return "";
          case Some(content) =>
            var outcome := ProcessSingleImageBytes(vision, constructionSucceeds, content, detect);
            text := SlotText(outcome);
        }
      case Unsupported =>
        return "";
    }
  }
}
