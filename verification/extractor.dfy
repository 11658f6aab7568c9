/** The pipeline of extractor.py: every stage catches its own exceptions, a
    model failure on the fields request becomes the reply "{}", and both
    narrative stages run only when the parsed data is truthy. */
module Extractor {
  import opened Wrappers
  import opened PyText
  import opened Fences
  import opened Json
  import opened Pages
  import opened Pipeline

  /** The text `load_pdf_text` returns for what the PDF library yields: the
      stripped page assembly, or "" when opening the file or reading any page
      raises. */
  function ExtractedText(doc: Document): (text: string)
    ensures Trimmed(text)
    ensures doc.None? ==> text == ""
    ensures doc.Some? && !AllReadable(doc.value) ==> text == ""
  {
    if doc.Some? && AllReadable(doc.value) then Strip(Assembled(Texts(doc.value))) else ""
  }

  /** `load_pdf_text`: accumulate `text + "\n"` for each page with non-empty
      text, then strip; any exception gives "". */
  method LoadPdfText(doc: Document) returns (text: string)
    ensures text == ExtractedText(doc)
  {
    if doc.None? {
      return "";
    }
    var pages := doc.value;
    var allText := "";
    for i := 0 to |pages|
      invariant AllReadable(pages[..i])
      invariant allText == Assembled(Texts(pages[..i]))
    {
      match pages[i]
      case None =>
        return "";
      case Some(pageText) =>
        TextsExtend(pages, i);
        if pageText != "" {
          allText := allText + pageText + "\n";
        }
    }
    assert pages[..|pages|] == pages;
    text := Strip(allText);
  }

  /** The extracted text of a readable document is its non-empty page texts
      joined by newlines, stripped. */
  lemma ExtractedTextIsJoin(pages: seq<Option<string>>)
    requires AllReadable(pages)
    ensures ExtractedText(Some(pages)) == Strip(Join(NonEmpty(Texts(pages)), "\n"))
  {
    assert ExtractedText(Some(pages)) == Strip(Assembled(Texts(pages)));
    DocumentTextIsJoin(Texts(pages));
  }

  /** `ask_llm_for_adt1_fields`: the reply, or the text "{}" when the call raises. */
  function AskForFields(reply: Option<string>): (raw: string)
    ensures reply.None? ==> raw == EmptyObjectText
    ensures reply.Some? ==> raw == reply.value
  {
    match reply
    case Some(content) => content
    case None => EmptyObjectText
  }

  /** `clean_and_save`: the parsed value of the cleaned reply, returned only
      when both parsing and writing `output.json` succeed; a decode error
      leaves the file untouched; no exception escapes. */
  function CleanAndSave(jsonText: string, parse: string -> Option<Json>, writable: bool): (r: Saved)
    ensures r.crash == None
    ensures r.data.Some? <==> parse(CleanReply(jsonText)).Some? && writable
    ensures r.data.Some? ==> parse(CleanReply(jsonText)) == r.data && r.file == Written(r.data.value)
    ensures parse(CleanReply(jsonText)).None? ==> r.file.Untouched?
    ensures r.file.Broken? <==> parse(CleanReply(jsonText)).Some? && !writable
  {
    match parse(CleanReply(jsonText))
    case None => Saved(None, Untouched, None)
    case Some(data) =>
      if writable then Saved(Some(data), Written(data), None)
      else Saved(None, Broken, None)
  }

  /** Cleaning the reply beforehand changes nothing, since cleaning is idempotent. */
  lemma CleanAndSaveIgnoresPriorCleaning(jsonText: string, parse: string -> Option<Json>, writable: bool)
    ensures CleanAndSave(CleanReply(jsonText), parse, writable) == CleanAndSave(jsonText, parse, writable)
  {
    CleanReplyIdempotent(jsonText);
  }

  /** A fenced reply is saved exactly as its bare body would be. */
  lemma CleanAndSaveFenced(ws1: string, tag: string, ws2: string, body: string, ws3: string, ws4: string,
                           parse: string -> Option<Json>, writable: bool)
    requires AllSpace(ws1) && AllSpace(ws2) && AllSpace(ws3) && AllSpace(ws4)
    requires tag == JsonFence || (tag == Fence && (body == [] || body[0] != 'j'))
    requires Plain(body) && Trimmed(body)
    ensures CleanAndSave(ws1 + tag + ws2 + body + ws3 + Fence + ws4, parse, writable)
         == CleanAndSave(body, parse, writable)
  {
    CleanFencedBody(ws1, tag, ws2, body, ws3, ws4);
    CleanReplyIdentity(body);
    SameCleaningSameSave(ws1 + tag + ws2 + body + ws3 + Fence + ws4, body, parse, writable);
  }

  /** Two replies that clean to the same text are saved alike. */
  lemma SameCleaningSameSave(a: string, b: string, parse: string -> Option<Json>, writable: bool)
    requires CleanReply(a) == CleanReply(b)
    ensures CleanAndSave(a, parse, writable) == CleanAndSave(b, parse, writable)
  {
  }

  /** `generate_summary_from_json`: one model call on the data; the stripped
      reply is written, and any exception is swallowed. */
  function SummaryStage(data: Json, reply: Option<string>, writable: bool): (s: Step)
    ensures s.call == SummaryRequest(data) && s.crash == None
    ensures s.file.Written? <==> reply.Some? && writable
    ensures s.file.Written? ==> s.file.content == Strip(reply.value) && Trimmed(s.file.content)
    ensures reply.None? ==> s.file.Untouched?
  {
    match reply
    case None => Step(SummaryRequest(data), Untouched, None)
    case Some(content) =>
      Step(SummaryRequest(data), if writable then Written(Strip(content)) else Broken, None)
  }

  const InsightsLimit: nat := 30000

  /** Text that follows the excerpt inside the prompt's f-string: the comment
      is part of the string, so the model receives it. */
  const LimitNote: string := "  # Limit to first 30k chars to avoid token limits"

  /** `raw_text[:30000]`: the first 30000 characters, or all of a shorter text. */
  function InsightsExcerpt(raw: string): (r: string)
    ensures |r| <= |raw| && |r| <= InsightsLimit && r == raw[..|r|]
    ensures |raw| <= InsightsLimit ==> r == raw
    ensures |raw| >= InsightsLimit ==> |r| == InsightsLimit
  {
    raw[..if |raw| <= InsightsLimit then |raw| else InsightsLimit]
  }

  /** The document-dependent text of the insights prompt. */
  function InsightsEmbedding(raw: string): (e: string)
    ensures |e| == |InsightsExcerpt(raw)| + |LimitNote|
    ensures e[..|InsightsExcerpt(raw)|] == InsightsExcerpt(raw)
    ensures e[|InsightsExcerpt(raw)|..] == LimitNote
  {
    InsightsExcerpt(raw) + LimitNote
  }

  /** `generate_additional_insights`: one model call on the truncated text;
      the stripped reply is written, and any exception is swallowed. */
  function InsightsStage(raw: string, reply: Option<string>, writable: bool): (s: Step)
    ensures s.call == InsightsRequest(InsightsEmbedding(raw)) && s.crash == None
    ensures s.file.Written? <==> reply.Some? && writable
    ensures s.file.Written? ==> s.file.content == Strip(reply.value)
    ensures reply.None? ==> s.file.Untouched?
  {
    match reply
    case None => Step(InsightsRequest(InsightsEmbedding(raw)), Untouched, None)
    case Some(content) =>
      Step(InsightsRequest(InsightsEmbedding(raw)), if writable then Written(Strip(content)) else Broken, None)
  }

  /** `main`: stop before any model call when the file is missing or no text
      was extracted; otherwise request the fields, save them, and only when
      the returned data is truthy produce the summary and the insights. */
  function Main(env: Environment): (r: Run)
    ensures r.crash == None
    ensures r.calls == [] <==> !env.pdfExists || ExtractedText(env.pdf) == ""
    ensures r.calls == [] ==> NothingWritten(r)
  {
    var text := ExtractedText(env.pdf);
    if !env.pdfExists || text == "" then
      Run([], Untouched, Untouched, Untouched, None)
    else
      AfterFields(text, CleanAndSave(AskForFields(env.fieldsReply), env.parse, env.outputWritable), env)
  }

  /** The run once the fields reply was cleaned and saved: both narratives
      when the data is truthy, nothing more otherwise. */
  function AfterFields(text: string, saved: Saved, env: Environment): (r: Run)
    ensures r.crash == None && r.output == saved.file
    ensures !DataTruthy(saved.data) ==>
      r.calls == [FieldsRequest(text)] && r.summary.Untouched? && r.insights.Untouched?
    ensures DataTruthy(saved.data) ==>
      r.calls == [FieldsRequest(text), SummaryRequest(saved.data.value), InsightsRequest(InsightsEmbedding(text))]
    ensures DataTruthy(saved.data) ==>
      && r.summary == SummaryStage(saved.data.value, env.summaryReply, env.summaryWritable).file
      && r.insights == InsightsStage(text, env.insightsReply, env.insightsWritable).file
  {
    if DataTruthy(saved.data) then
      var summary := SummaryStage(saved.data.value, env.summaryReply, env.summaryWritable);
      var insights := InsightsStage(text, env.insightsReply, env.insightsWritable);
      Run([FieldsRequest(text), summary.call, insights.call], saved.file, summary.file, insights.file, None)
    else
      Run([FieldsRequest(text)], saved.file, Untouched, Untouched, None)
  }

  /** Once text was extracted, the first model call asks for the fields of
      that text, and `output.json` is written exactly when the cleaned reply
      (or the "{}" sentinel) parses and the file is writable. */
  lemma MainAsksForFieldsFirst(env: Environment)
    requires env.pdfExists && ExtractedText(env.pdf) != ""
    ensures Main(env).calls[0] == FieldsRequest(ExtractedText(env.pdf))
    ensures Main(env).output.Written? <==>
      env.parse(CleanReply(AskForFields(env.fieldsReply))).Some? && env.outputWritable
    ensures Main(env).output.Written? ==>
      Some(Main(env).output.content) == env.parse(CleanReply(AskForFields(env.fieldsReply)))
  {
  }

  /** The summary and the insights are requested exactly when the saved data
      is truthy; otherwise their files are left untouched. */
  lemma MainGatesNarratives(env: Environment)
    ensures |Main(env).calls| > 1 <==> Main(env).output.Written? && Truthy(Main(env).output.content)
    ensures |Main(env).calls| <= 1 ==> Main(env).summary.Untouched? && Main(env).insights.Untouched?
  {
  }

  /** A run that gets past the fields request asks for a summary of the saved
      data and then for insights on the truncated text, and nothing else. */
  lemma MainNarrativeCalls(env: Environment)
    requires |Main(env).calls| > 1
    ensures Main(env).output.Written?
    ensures Main(env).calls == [FieldsRequest(ExtractedText(env.pdf)),
      SummaryRequest(Main(env).output.content), InsightsRequest(InsightsEmbedding(ExtractedText(env.pdf)))]
  {
  }

  /** "{}" is left alone by cleaning. */
  lemma CleanEmptyObjectText()
    ensures CleanReply(EmptyObjectText) == EmptyObjectText
  {
    assert NoFence(EmptyObjectText);
    CleanReplyIdentity(EmptyObjectText);
  }

  /** A failed fields request yields the sentinel "{}": `output.json` gets the
      empty object, and neither a summary nor insights are requested or written. */
  lemma SentinelSavesEmptyObjectOnly(env: Environment)
    requires env.pdfExists && ExtractedText(env.pdf) != ""
    requires env.fieldsReply.None? && env.outputWritable
    requires env.parse(EmptyObjectText) == Some(EmptyObject)
    ensures Main(env) == Run([FieldsRequest(ExtractedText(env.pdf))], Written(EmptyObject), Untouched, Untouched, None)
  {
    SentinelSaved(env.parse);
    var saved := CleanAndSave(EmptyObjectText, env.parse, true);
    assert AskForFields(env.fieldsReply) == EmptyObjectText;
    assert Main(env) == AfterFields(ExtractedText(env.pdf), saved, env);
  }

  /** The sentinel "{}" is saved as the empty object, which is falsy. */
  lemma SentinelSaved(parse: string -> Option<Json>)
    requires parse(EmptyObjectText) == Some(EmptyObject)
    ensures CleanAndSave(EmptyObjectText, parse, true) == Saved(Some(EmptyObject), Written(EmptyObject), None)
    ensures !DataTruthy(CleanAndSave(EmptyObjectText, parse, true).data)
  {
    CleanEmptyObjectText();
  }

  /** A run whose fields reply is a fenced body behaves exactly like a run
      whose reply is the bare body. */
  lemma FencedReplyRunsLikeBody(env: Environment, ws1: string, tag: string, ws2: string, body: string, ws3: string, ws4: string)
    requires AllSpace(ws1) && AllSpace(ws2) && AllSpace(ws3) && AllSpace(ws4)
    requires tag == JsonFence || (tag == Fence && (body == [] || body[0] != 'j'))
    requires Plain(body) && Trimmed(body)
    ensures Main(env.(fieldsReply := Some(ws1 + tag + ws2 + body + ws3 + Fence + ws4)))
         == Main(env.(fieldsReply := Some(body)))
  {
    CleanAndSaveFenced(ws1, tag, ws2, body, ws3, ws4, env.parse, env.outputWritable);
    SameSaveSameRun(env, ws1 + tag + ws2 + body + ws3 + Fence + ws4, body);
  }

  /** The fields reply matters to a run only through what `clean_and_save`
      makes of it. */
  lemma SameSaveSameRun(env: Environment, a: string, b: string)
    requires CleanAndSave(a, env.parse, env.outputWritable) == CleanAndSave(b, env.parse, env.outputWritable)
    ensures Main(env.(fieldsReply := Some(a))) == Main(env.(fieldsReply := Some(b)))
  {
    var e1, e2 := env.(fieldsReply := Some(a)), env.(fieldsReply := Some(b));
    var text := ExtractedText(env.pdf);
    if env.pdfExists && text != "" {
      var saved := CleanAndSave(b, env.parse, env.outputWritable);
      assert Main(e1) == AfterFields(text, saved, e1);
      assert Main(e2) == AfterFields(text, saved, e2);
    }
  }
}
