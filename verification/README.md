# ADT-1 form parser: the pipeline as a verified model

The repository reads a Form ADT-1 PDF (an Indian auditor-appointment filing).
It asks a language model for twelve structured fields. It strips markdown
fences from the reply, parses it as JSON and saves it to `output.json`. Then
it asks the model for a summary (`summary.txt`) and for further insights
(`insights.txt`). Two drivers exist:

- `extractor.py` catches every failure. A failed PDF read becomes `""`, which
  stops the run before any model call. A failed fields request becomes the
  reply `"{}"`. Both narratives run only when the parsed data is truthy, and
  the insights prompt embeds only the first 30000 characters of the text.
- `code.py` catches only the JSON decode error. Any other failure escapes and
  ends the run. It has no empty-text check. Only the summary is gated on the
  data. The insights are requested on the full text whatever the data, unless
  an earlier stage raised.

The project models both drivers. The PDF library, the model replies, JSON
parsing and file writability are inputs to the model.

- `wrappers.dfy` (`Wrappers`): `Option` and `Result`.
- `pytext.dfy` (`PyText`): Python's `str.isspace()` set and `str.strip()`.
- `fences.dfy` (`Fences`): fence removal for both `re.sub` patterns, as
  Python's leftmost-first, non-overlapping scan. It also holds the cleaning
  `re.sub(...).strip()`.
- `pages.dfy` (`Pages`): a document as pages, and the text `load_pdf_text`
  assembles from them.
- `json.dfy` (`Json`): the values `json.loads` returns and Python truthiness.
- `pipeline.dfy` (`Pipeline`): the environment of one run (external outcomes)
  and the effects of a run (model calls, file effects, the escaping exception).
- `extractor.dfy` (`Extractor`) and `code.dfy` (`Code`): the two drivers.
  `load_pdf_text` is a method with a loop, proved against `Pages.Assembled`.
  `clean_and_save`, the narrative stages and the drivers' main flows are
  functions of the environment.
- `comparison.dfy` (`Comparison`): where the two drivers agree and where
  they part ways.

Three behaviours of the code are easy to misread:

- A fields reply that fails to parse still leads to an insights request in
  `code.py` (code.py:119-126). `extractor.py` makes no further request when
  the data is not truthy, and a reply that fails to parse gives `None`
  (extractor.py:295-311).
- Only `extractor.py` turns extraction failures into `""` and truncates the
  insights input to 30000 characters (extractor.py:68-71, extractor.py:238).
  `code.py` lets the exception escape and sends the full text.
- `summary.txt` holds the stripped reply. It is empty when the reply is only
  whitespace: neither driver checks for that.

## Model

| member | source | states |
|---|---|---|
| PyText.Strip | extractor.py:66 | the result of `strip()` has no whitespace at either end, and a string that already has none comes back unchanged |
| PyText.StripRemovesOnlySpace | extractor.py:66 | `strip()` returns a slice of its argument with only whitespace before and after it |
| PyText.StripPadded | extractor.py:140 | any whitespace padding around a trimmed string is exactly what `strip()` removes |
| PyText.StripIgnoresTrailingSpace | extractor.py:60-66 | appending one whitespace character (such as the last page's "\n") does not change what `strip()` returns |
| Json.Truthy | extractor.py:296 | `if data:` is false exactly for null, false, a zero number, and an empty string, array or object |
| Pipeline.DataTruthy | code.py:122 | `None` from `clean_and_save` is falsy, the empty object is falsy, and a returned value is truthy exactly when the value is |
| Pages.Texts | extractor.py:54-56 | the texts of a fully readable document, one per page, in page order |
| Pages.FirstUnreadable | code.py:22-23 | the index of the first page whose text cannot be read; it equals the number of pages exactly when every page can be read |
| Pages.AssembledIsLines | extractor.py:54-60 | the accumulated text is every non-empty page text, in page order, each followed by "\n" |
| Pages.AssembledIgnoresEmptyPages | extractor.py:59 | dropping every empty page does not change the accumulated text |
| Pages.EmptyPageLeavesNoTrace | extractor.py:59 | inserting an empty page anywhere does not change the accumulated text |
| Pages.DocumentTextIsJoin | extractor.py:51-66 | the stripped accumulated text equals the non-empty page texts joined by "\n", stripped |
| Fences.RemoveFencesOptional | extractor.py:140 | removing fences never lengthens the text |
| Fences.RemoveFencesLeavesNoFence | extractor.py:140 | no "```" is left after fence removal |
| Fences.RemoveFencesAlternation | code.py:57 | removing fences with the alternation pattern never lengthens the text, and a text it does not shorten comes back unchanged |
| Fences.SpellingsAgree | code.py:57 | code.py's alternation pattern removes exactly what extractor.py's optional-group pattern removes |
| Fences.RemoveFencesIdentity | extractor.py:140 | text without "```" passes through fence removal unchanged |
| Fences.RemoveFencesPassThrough | extractor.py:140 | a fence-free prefix that does not end in a backtick is copied through, and removal continues after it |
| Fences.RemoveJsonFence | extractor.py:140 | "```json" is always removed together with its tag |
| Fences.RemoveBareFence | extractor.py:140 | a "```" not followed by "json" is removed on its own |
| Fences.CleanReply | extractor.py:140 | the cleaned reply contains no "```" and has no whitespace at either end |
| Fences.StripKeepsNoFence | extractor.py:140 | `strip()` cannot create a fence |
| Fences.CleanReplyAlternation | code.py:57 | code.py's cleaning yields the same text as extractor.py's |
| Fences.CleanReplyIdentity | extractor.py:140 | a fence-free, trimmed reply is left unchanged by cleaning |
| Fences.CleanReplyIdempotent | extractor.py:140 | cleaning twice gives the same text as cleaning once |
| Fences.CleanFencedBody | extractor.py:139-140 | a fence-free, trimmed body wrapped in "```json" or "```" fences, with any whitespace around them, cleans to the body itself |
| Fences.UpperCaseTagSurvives | extractor.py:140 | matching is case-sensitive: after a fence, "JSON" is kept in the text |
| Extractor.ExtractedText | extractor.py:46-71 | the extracted text is trimmed, and it is "" when opening the file or reading any page raises |
| Extractor.LoadPdfText | extractor.py:46-71 | the page loop computes `ExtractedText`: the stripped assembly of a readable document, and "" when opening fails or any page is unreadable |
| Extractor.ExtractedTextIsJoin | extractor.py:51-66 | the text of a readable document is its non-empty page texts joined by "\n", stripped |
| Extractor.AskForFields | extractor.py:112-120 | the reply text, or the sentinel "{}" when the model call raises |
| Extractor.CleanAndSave | extractor.py:140-162 | the parsed value is returned only when the cleaned reply parses and `output.json` can be written; a decode error leaves the file untouched; no exception escapes |
| Extractor.CleanAndSaveIgnoresPriorCleaning | extractor.py:140-144 | cleaning the reply beforehand changes nothing |
| Extractor.CleanAndSaveFenced | extractor.py:140-151 | a fenced reply is saved exactly as its bare body would be |
| Extractor.SameCleaningSameSave | extractor.py:140-151 | two replies that clean to the same text are saved alike |
| Extractor.SummaryStage | extractor.py:192-205 | one summary request on the data; `summary.txt` holds the stripped reply exactly when the call and the write succeed, and is untouched when the call fails |
| Extractor.InsightsExcerpt | extractor.py:238 | the excerpt is the prefix of the text whose length is the smaller of the text's length and 30000 |
| Extractor.InsightsEmbedding | extractor.py:238 | the prompt embeds the excerpt followed by the comment text that sits inside the f-string |
| Extractor.InsightsStage | extractor.py:242-255 | one insights request on the truncated text; `insights.txt` holds the stripped reply exactly when the call and the write succeed |
| Extractor.Main | extractor.py:274-288 | no exception escapes; no model call is made, and no file is written, exactly when the file is missing or no text was extracted |
| Extractor.AfterFields | extractor.py:295-311 | `output.json` is left as saving left it and nothing escapes; falsy data ends the run with only the fields request and `summary.txt` and `insights.txt` untouched; truthy data is followed by a summary request on it and an insights request on the truncated text, and the two files are left as those stages leave them |
| Extractor.MainAsksForFieldsFirst | extractor.py:291-292 | the first call asks for the fields of the extracted text; `output.json` is written exactly when the cleaned reply parses and the file is writable |
| Extractor.MainGatesNarratives | extractor.py:295 | summary and insights are requested exactly when `output.json` holds a truthy value |
| Extractor.MainNarrativeCalls | extractor.py:295-302 | a run past the fields request makes exactly three calls: fields, summary of the saved value, insights on the truncated text |
| Extractor.CleanEmptyObjectText | extractor.py:120 | the sentinel "{}" is left unchanged by cleaning |
| Extractor.SentinelSaved | extractor.py:117-120 | when "{}" parses to the empty object, saving the sentinel writes that object, returns it and raises nothing, and the returned data is falsy |
| Extractor.SentinelSavesEmptyObjectOnly | extractor.py:117-120 | a failed fields request gives `output.json` holding `{}` and neither a summary nor insights |
| Extractor.SameSaveSameRun | extractor.py:291-292 | the fields reply matters to a run only through what `clean_and_save` makes of it |
| Extractor.FencedReplyRunsLikeBody | extractor.py:140 | a run with a fenced fields reply equals the run with the bare body as reply |
| Code.Opened | code.py:20 | a missing file gives no document, and an existing one gives what opening it yields |
| Code.LoadedText | code.py:19-26 | the loaded text is trimmed; opening failure and the first unreadable page are reported as escaping exceptions, not as "" |
| Code.LoadPdfText | code.py:19-26 | the page loop computes `LoadedText` |
| Code.LoadedTextIsJoin | code.py:21-26 | the text of a readable document is its non-empty page texts joined by "\n", stripped |
| Code.CleanAndSave | code.py:56-67 | the parsed value is returned when the cleaned reply parses and the write succeeds; a decode error returns nothing and leaves the file untouched; a failed write escapes |
| Code.SummaryStage | code.py:70-84 | one summary request on the data; `summary.txt` holds the stripped reply when the call and the write succeed; otherwise the failure escapes |
| Code.InsightsStage | code.py:87-108 | one insights request on the full text; `insights.txt` holds the stripped reply when the call and the write succeed; otherwise the failure escapes |
| Code.Main | code.py:111-119 | no model call is made exactly when loading the text raised, and that exception ends the run with nothing written |
| Code.AfterFields | code.py:119-126 | `output.json` is left as saving left it; a failed write ends the run there with the other files untouched; falsy data is followed by the insights request alone, with no summary, and the run ends as the insights stage ends; truthy data is summarised first, a failed summary ends the run with `insights.txt` untouched, and otherwise exactly three calls are made and the run ends as the insights stage ends |
| Code.MainAsksEvenForEmptyText | code.py:115-118 | an empty text still leads to a fields request |
| Code.MainCompletesWithInsights | code.py:125-126 | a run that ends without an exception last asked for insights on the full text and wrote `insights.txt` |
| Code.MainGoesOnAfterDecodeError | code.py:64-67 | a reply that does not parse leaves `output.json` untouched, no summary is requested, and insights are still requested |
| Code.MainSummaryNeedsTruthyData | code.py:122-123 | unless `output.json` holds a truthy value, the fields request is followed by the insights request at most |
| Code.MainSummarisesTruthyData | code.py:122-123 | a truthy saved value is summarised in the second call |
| Code.MainStopsOnFieldsFailure | code.py:52-53 | a failed fields request ends the run before anything is written |
| Comparison.LoadersAgree | code.py:19-26 | both loaders give the same text for a readable document; where code.py raises, extractor.py gives "" |
| Comparison.SaversAgree | code.py:56-67 | both versions of `clean_and_save` return the same value and leave `output.json` alike; only code.py lets a failed write escape |
| Comparison.DecodeErrorSplitsDrivers | code.py:122-126 | on a reply that does not parse, extractor.py stops after the fields request while code.py still requests insights |
| Comparison.EmptyTextSplitsDrivers | extractor.py:285-287 | a readable document without text makes no model call in extractor.py, but a fields request in code.py |
| Comparison.InsightsInputsDiffer | extractor.py:238 | for a text longer than 30000 characters, extractor.py's excerpt is a strict prefix while code.py's request carries the full text (code.py:101); the embedded texts coincide exactly when the text continues after its first 30000 characters with the comment text and nothing else, while the fixed wording of the two prompts differs (extractor.py:226-235, code.py:91-98) |

## Left out

- PDF decoding by PyMuPDF is not modelled. A document is an input: `None` when opening raises, otherwise one entry per page, `None` where reading that page raises.
- `doc.close()` is not modelled, and neither is a failure while closing.
- The language model is not modelled, and neither is the fixed prompt wording. Each reply is an input: `None` when the call raises. A `ModelCall` records only the run-dependent part of a prompt, with one exception: extractor.py's insights request also carries the fixed comment text that follows the excerpt inside the f-string (`Extractor.LimitNote`).
- The two drivers word their prompts differently (for insights, extractor.py:226-235 against code.py:91-98). Since `ModelCall` drops the wording, two calls from different drivers that are equal in the model are still different requests in the program; comparisons across drivers are about the embedded data only.
- Each reply is fixed for the run, so a reply cannot depend on the prompt text.
- `json.loads` is not modelled. It is an input function, `None` on a decode error. `json.dump` and `json.dumps` (indentation) are not modelled either: `Written(v)` records the value written.
- A write is modelled as one flag per file. A write that raises leaves the file `Broken`, which covers two cases the model does not tell apart: `open` itself raising, which leaves the file as it was, and a failure during the dump, which leaves it truncated or partly written.
- `getpass`, environment and `.env` loading, console prints and the welcome banner are not modelled.
- `KeyboardInterrupt` and extractor.py's top-level `except Exception` are not modelled. No modelled step of `main` raises.
- Exceptions that `json.loads` raises other than a decode error (such as deep recursion) are not modelled.
- Extractor.Main: its own contract states only the early stop and that nothing escapes. The call order, the gating and the file effects after the fields request are stated by Extractor.AfterFields, which Main applies to the saved reply, and by the Main lemmas listed above.
- Code.Main: its own contract states only the load failure and the first call. A failed fields request is stated by Code.MainStopsOnFieldsFailure. The call order, the file effects and the escaping exception after a reply are stated by Code.AfterFields, which Main applies to the saved reply, and by the Main lemmas listed above.
