/** What both pipeline drivers share: the outcomes of the external
    collaborators a run depends on, and the effects of a run (the model calls
    it makes, the files it writes, the exception it ends with). */
module Pipeline {
  import opened Wrappers
  import opened Json
  import opened Pages

  /** One call to the language model, with the part of its prompt that
      depends on the run: the document text, the parsed fields, or the text
      embedded in the insights prompt. The fixed wording is not modelled. */
  datatype ModelCall =
    | FieldsRequest(text: string)
    | SummaryRequest(data: Json)
    | InsightsRequest(embedded: string)

  /** What a run does to one output file. `Broken`: a write was started and
      raised; what the file then holds is not modelled. */
  datatype FileEffect<T> = Untouched | Written(content: T) | Broken

  datatype Stage = Fields | Summary | Insights

  /** Why the PDF text could not be loaded. */
  datatype LoadError = CannotOpen | PageUnreadable(page: nat)

  /** An exception that escapes to the top of the run. */
  datatype Crash =
    | PdfFailure(error: LoadError)
    | ModelFailure(stage: Stage)
    | WriteFailure(stage: Stage)

  /** The outcomes of everything outside the pipeline for one run. Each model
      reply is `None` when the call raises; `parse` is `json.loads`, `None`
      on a decode error; a `...Writable` flag is false when writing that file
      raises. */
  datatype Environment = Environment(
    pdfExists: bool,
    pdf: Document,
    fieldsReply: Option<string>,
    parse: string -> Option<Json>,
    summaryReply: Option<string>,
    insightsReply: Option<string>,
    outputWritable: bool,
    summaryWritable: bool,
    insightsWritable: bool)

  /** The outcome of `clean_and_save`: the value returned and the effect on `output.json`. */
  datatype Saved = Saved(data: Option<Json>, file: FileEffect<Json>, crash: Option<Crash>)

  /** The outcome of one narrative stage: the single model call it makes. */
  datatype Step = Step(call: ModelCall, file: FileEffect<string>, crash: Option<Crash>)

  /** Everything a run does. */
  datatype Run = Run(
    calls: seq<ModelCall>,
    output: FileEffect<Json>,
    summary: FileEffect<string>,
    insights: FileEffect<string>,
    crash: Option<Crash>)

  /** `if data:` on what `clean_and_save` returned: `None` is falsy. */
  predicate DataTruthy(data: Option<Json>)
    ensures data.None? ==> !DataTruthy(data)
    ensures data == Some(EmptyObject) ==> !DataTruthy(data)
    ensures data.Some? ==> (DataTruthy(data) <==> Truthy(data.value))
  {
    data.Some? && Truthy(data.value)
  }

  /** No output file was opened. */
  predicate NothingWritten(r: Run) {
    r.output.Untouched? && r.summary.Untouched? && r.insights.Untouched?
  }
}
