/** The pipeline of code.py: nothing is caught except the JSON decode error
    in `clean_and_save`, so any other failure ends the run; the summary is
    gated on the parsed data being truthy, the insights are not, and they
    are asked about the full document text. */
module Code {
  import opened Wrappers
  import opened PyText
  import opened Fences
  import opened Json
  import opened Pages
  import opened Pipeline

  /** What `load_pdf_text` returns, or the exception it lets escape: opening
      the file raises, or reading page `k` raises (the first such page). */
  function LoadedText(doc: Document): (r: Result<string, LoadError>)
    ensures r == Failure(CannotOpen) <==> doc.None?
    ensures r.Success? <==> doc.Some? && AllReadable(doc.value)
    ensures r.Success? ==> Trimmed(r.value)
    ensures r.Failure? && doc.Some? ==>
      r.error.PageUnreadable? && r.error.page < |doc.value|
      && AllReadable(doc.value[..r.error.page]) && doc.value[r.error.page].None?
  {
    match doc
    case None => Failure(CannotOpen)
    case Some(pages) =>
      var k := FirstUnreadable(pages);
      if k < |pages| then Failure(PageUnreadable(k))
      else Success(Strip(Assembled(Texts(pages))))
  }

  /** `load_pdf_text`: accumulate `text + "\n"` for each page with non-empty
      text, then strip; the first page whose text cannot be read ends it. */
  method LoadPdfText(doc: Document) returns (r: Result<string, LoadError>)
    ensures r == LoadedText(doc)
  {
    if doc.None? {
      return Failure(CannotOpen);
    }
    var pages := doc.value;
    var allText := "";
    for i := 0 to |pages|
      invariant AllReadable(pages[..i])
      invariant allText == Assembled(Texts(pages[..i]))
    {
      match pages[i]
      case None =>
        FirstUnreadableAt(pages, i);
        return Failure(PageUnreadable(i));
      case Some(pageText) =>
        TextsExtend(pages, i);
        if pageText != "" {
          allText := allText + pageText + "\n";
        }
    }
    assert pages[..|pages|] == pages;
    r := Success(Strip(allText));
  }

  /** The loaded text of a readable document is its non-empty page texts
      joined by newlines, stripped. */
  lemma LoadedTextIsJoin(pages: seq<Option<string>>)
    requires AllReadable(pages)
    ensures LoadedText(Some(pages)) == Success(Strip(Join(NonEmpty(Texts(pages)), "\n")))
  {
    DocumentTextIsJoin(Texts(pages));
  }

  /** `clean_and_save` with the alternation pattern: a decode error returns
      `None` and leaves `output.json` alone; a failed write is not caught. */
  function CleanAndSave(jsonText: string, parse: string -> Option<Json>, writable: bool): (r: Saved)
    ensures r.data.Some? <==> parse(CleanReply(jsonText)).Some? && writable
    ensures r.data.Some? ==> r.data == parse(CleanReply(jsonText)) && r.file == Written(r.data.value)
    ensures parse(CleanReply(jsonText)).None? ==> r == Saved(None, Untouched, None)
    ensures r.crash.Some? <==> parse(CleanReply(jsonText)).Some? && !writable
    ensures r.crash.Some? ==> r.crash == Some(WriteFailure(Fields)) && r.file.Broken?
  {
    match parse(CleanReplyAlternation(jsonText))
    case None => Saved(None, Untouched, None)
    case Some(data) =>
      if writable then Saved(Some(data), Written(data), None)
      else Saved(None, Broken, Some(WriteFailure(Fields)))
  }

  /** `generate_summary_from_json`: one model call on the data; the stripped
      reply is written; a failed call or write ends the run. */
  function SummaryStage(data: Json, reply: Option<string>, writable: bool): (s: Step)
    ensures s.call == SummaryRequest(data)
    ensures s.crash.None? <==> s.file.Written?
    ensures s.file.Written? <==> reply.Some? && writable
    ensures s.file.Written? ==> s.file.content == Strip(reply.value) && Trimmed(s.file.content)
    ensures reply.None? ==> s.file.Untouched? && s.crash == Some(ModelFailure(Summary))
    ensures reply.Some? && !writable ==> s.file.Broken? && s.crash == Some(WriteFailure(Summary))
  {
    match reply
    case None => Step(SummaryRequest(data), Untouched, Some(ModelFailure(Summary)))
    case Some(content) =>
      if writable then Step(SummaryRequest(data), Written(Strip(content)), None)
      else Step(SummaryRequest(data), Broken, Some(WriteFailure(Summary)))
  }

  /** `generate_additional_insights`: one model call on the whole text; the
      stripped reply is written; a failed call or write ends the run. */
  function InsightsStage(raw: string, reply: Option<string>, writable: bool): (s: Step)
    ensures s.call == InsightsRequest(raw)
    ensures s.crash.None? <==> s.file.Written?
    ensures s.file.Written? <==> reply.Some? && writable
    ensures s.file.Written? ==> s.file.content == Strip(reply.value) && Trimmed(s.file.content)
    ensures reply.None? ==> s.file.Untouched? && s.crash == Some(ModelFailure(Insights))
    ensures reply.Some? && !writable ==> s.file.Broken? && s.crash == Some(WriteFailure(Insights))
  {
    match reply
    case None => Step(InsightsRequest(raw), Untouched, Some(ModelFailure(Insights)))
    case Some(content) =>
      if writable then Step(InsightsRequest(raw), Written(Strip(content)), None)
      else Step(InsightsRequest(raw), Broken, Some(WriteFailure(Insights)))
  }

  /** The document `fitz.open` gives for the fixed path: a missing file
      cannot be opened. */
  function Opened(env: Environment): (d: Document)
    ensures !env.pdfExists ==> d.None?
    ensures env.pdfExists ==> d == env.pdf
  {
    if env.pdfExists then env.pdf else None
  }

  /** The `__main__` block: load the text, request and save the fields,
      summarise only truthy data, then request insights on the full text
      whatever the data; the first exception that escapes ends the run. */
  function Main(env: Environment): (r: Run)
    ensures r.calls == [] <==> LoadedText(Opened(env)).Failure?
    ensures r.calls == [] ==> NothingWritten(r) && r.crash == Some(PdfFailure(LoadedText(Opened(env)).error))
    ensures r.calls != [] ==> r.calls[0] == FieldsRequest(LoadedText(Opened(env)).value)
  {
    match LoadedText(Opened(env))
    case Failure(e) => Run([], Untouched, Untouched, Untouched, Some(PdfFailure(e)))
    case Success(text) =>
      match env.fieldsReply
      case None => Run([FieldsRequest(text)], Untouched, Untouched, Untouched, Some(ModelFailure(Fields)))
      case Some(rawJson) => AfterFields(text, CleanAndSave(rawJson, env.parse, env.outputWritable), env)
  }

  /** The run once the fields reply was cleaned and saved: a failed write
      ends it; falsy data goes straight to the insights; truthy data is
      summarised first, and a failed summary ends the run before the insights. */
  function AfterFields(text: string, saved: Saved, env: Environment): (r: Run)
    ensures r.calls != [] && r.calls[0] == FieldsRequest(text)
    ensures r.output == saved.file
    ensures saved.crash.Some? ==>
      |r.calls| == 1 && r.crash == saved.crash && r.summary.Untouched? && r.insights.Untouched?
    ensures saved.crash.None? && !DataTruthy(saved.data) ==>
      && |r.calls| == 2 && r.calls[1] == InsightsRequest(text) && r.summary.Untouched?
      && r.insights == InsightsStage(text, env.insightsReply, env.insightsWritable).file
      && r.crash == InsightsStage(text, env.insightsReply, env.insightsWritable).crash
    ensures saved.crash.None? && DataTruthy(saved.data) ==>
      && |r.calls| >= 2 && r.calls[1] == SummaryRequest(saved.data.value)
      && r.summary == SummaryStage(saved.data.value, env.summaryReply, env.summaryWritable).file
    ensures (saved.crash.None? && DataTruthy(saved.data)
             && SummaryStage(saved.data.value, env.summaryReply, env.summaryWritable).crash.Some?) ==>
      && |r.calls| == 2 && r.insights.Untouched?
      && r.crash == SummaryStage(saved.data.value, env.summaryReply, env.summaryWritable).crash
    ensures (saved.crash.None? && DataTruthy(saved.data)
             && SummaryStage(saved.data.value, env.summaryReply, env.summaryWritable).crash.None?) ==>
      && r.calls == [FieldsRequest(text), SummaryRequest(saved.data.value), InsightsRequest(text)]
      && r.insights == InsightsStage(text, env.insightsReply, env.insightsWritable).file
      && r.crash == InsightsStage(text, env.insightsReply, env.insightsWritable).crash
  {
    if saved.crash.Some? then
      Run([FieldsRequest(text)], saved.file, Untouched, Untouched, saved.crash)
    else if DataTruthy(saved.data) then
      var summary := SummaryStage(saved.data.value, env.summaryReply, env.summaryWritable);
      if summary.crash.Some? then
        Run([FieldsRequest(text), summary.call], saved.file, summary.file, Untouched, summary.crash)
      else
        var insights := InsightsStage(text, env.insightsReply, env.insightsWritable);
        Run([FieldsRequest(text), summary.call, insights.call], saved.file, summary.file, insights.file, insights.crash)
    else
      var insights := InsightsStage(text, env.insightsReply, env.insightsWritable);
      Run([FieldsRequest(text), insights.call], saved.file, Untouched, insights.file, insights.crash)
  }

  /** There is no check for empty text: a document without text still
      leads to a fields request. */
  lemma MainAsksEvenForEmptyText(env: Environment)
    requires LoadedText(Opened(env)) == Success("")
    ensures Main(env).calls != [] && Main(env).calls[0] == FieldsRequest("")
  {
  }

  /** A run that ends without an exception asked for insights last, on the
      full text, and wrote `insights.txt`. */
  lemma MainCompletesWithInsights(env: Environment)
    requires Main(env).crash.None?
    ensures LoadedText(Opened(env)).Success?
    ensures |Main(env).calls| >= 2
    ensures Main(env).calls[|Main(env).calls| - 1] == InsightsRequest(LoadedText(Opened(env)).value)
    ensures Main(env).insights.Written?
  {
  }

  /** A reply that does not parse is reported and the run goes on: no
      summary, `output.json` untouched, and insights still requested. */
  lemma MainGoesOnAfterDecodeError(env: Environment)
    requires LoadedText(Opened(env)).Success? && env.fieldsReply.Some?
    requires env.parse(CleanReply(env.fieldsReply.value)).None?
    ensures Main(env).calls == [FieldsRequest(LoadedText(Opened(env)).value),
                                InsightsRequest(LoadedText(Opened(env)).value)]
    ensures Main(env).output.Untouched? && Main(env).summary.Untouched?
  {
  }

  /** Unless `output.json` was written with a truthy value, no summary is
      requested: the fields request is followed by the insights request at most. */
  lemma MainSummaryNeedsTruthyData(env: Environment)
    requires !(Main(env).output.Written? && Truthy(Main(env).output.content))
    ensures |Main(env).calls| <= 2
    ensures |Main(env).calls| == 2 ==> Main(env).calls[1] == InsightsRequest(LoadedText(Opened(env)).value)
  {
  }

  /** Once `output.json` holds a truthy value, the second call asks for a
      summary of exactly that value. */
  lemma MainSummarisesTruthyData(env: Environment)
    requires Main(env).output.Written? && Truthy(Main(env).output.content)
    ensures |Main(env).calls| >= 2 && Main(env).calls[1] == SummaryRequest(Main(env).output.content)
  {
  }

  /** A failed fields request ends the run before anything is written. */
  lemma MainStopsOnFieldsFailure(env: Environment)
    requires LoadedText(Opened(env)).Success? && env.fieldsReply.None?
    ensures Main(env).crash == Some(ModelFailure(Fields)) && NothingWritten(Main(env))
  {
  }
}
