/** How the two drivers relate: they assemble the same text and clean and
    save replies alike, but they part ways on errors, on empty text and on
    the insights request. */
module Comparison {
  import opened Wrappers
  import opened Fences
  import opened Json
  import opened Pages
  import opened Pipeline
  import Extractor
  import Code

  /** Both loaders produce the same text for a document they can read; where
      code.py raises, extractor.py returns "". */
  lemma LoadersAgree(doc: Document)
    ensures Code.LoadedText(doc).Success? ==> Code.LoadedText(doc).value == Extractor.ExtractedText(doc)
    ensures Code.LoadedText(doc).Failure? ==> Extractor.ExtractedText(doc) == ""
  {
  }

  /** Both versions of `clean_and_save` return the same value and leave
      `output.json` in the same state; they differ only in that a failed
      write escapes in code.py. */
  lemma SaversAgree(jsonText: string, parse: string -> Option<Json>, writable: bool)
    ensures Extractor.CleanAndSave(jsonText, parse, writable).data == Code.CleanAndSave(jsonText, parse, writable).data
    ensures Extractor.CleanAndSave(jsonText, parse, writable).file == Code.CleanAndSave(jsonText, parse, writable).file
    ensures Extractor.CleanAndSave(jsonText, parse, writable).crash.None?
    ensures Code.CleanAndSave(jsonText, parse, writable).crash.Some? <==>
      Code.CleanAndSave(jsonText, parse, writable).file.Broken?
  {
  }

  /** On a reply that does not parse, extractor.py stops after the fields
      request while code.py still asks for insights on the whole text. */
  lemma DecodeErrorSplitsDrivers(env: Environment)
    requires env.pdfExists && Extractor.ExtractedText(env.pdf) != ""
    requires env.fieldsReply.Some? && env.parse(CleanReply(env.fieldsReply.value)).None?
    ensures Extractor.Main(env).calls == [FieldsRequest(Extractor.ExtractedText(env.pdf))]
    ensures Code.Main(env).calls ==
      [FieldsRequest(Extractor.ExtractedText(env.pdf)), InsightsRequest(Extractor.ExtractedText(env.pdf))]
  {
  }

  /** A readable document without text: extractor.py makes no model call,
      code.py asks for the fields of the empty text. */
  lemma EmptyTextSplitsDrivers(env: Environment)
    requires env.pdfExists && env.pdf.Some? && AllReadable(env.pdf.value)
    requires Extractor.ExtractedText(env.pdf) == ""
    ensures Extractor.Main(env).calls == []
    ensures Code.Main(env).calls != [] && Code.Main(env).calls[0] == FieldsRequest("")
  {
  }

  /** When both drivers ask for insights on a text longer than the limit,
      extractor.py embeds only its first 30000 characters, code.py all of it.
      The embedded texts coincide only for a text that ends in the limit note
      right after its first 30000 characters; the fixed wording of the two
      prompts differs in any case (extractor.py:226-235, code.py:91-98). */
  lemma InsightsInputsDiffer(raw: string, reply: Option<string>, writable: bool)
    requires |raw| > Extractor.InsightsLimit
    ensures Extractor.InsightsExcerpt(raw) == raw[..Extractor.InsightsLimit]
    ensures Extractor.InsightsExcerpt(raw) != raw
    ensures Code.InsightsStage(raw, reply, writable).call == InsightsRequest(raw)
    ensures Code.InsightsStage(raw, reply, writable).call.embedded
        == Extractor.InsightsStage(raw, reply, writable).call.embedded
        <==> raw[Extractor.InsightsLimit..] == Extractor.LimitNote
  {
    var n := Extractor.InsightsLimit;
    var e := Extractor.InsightsEmbedding(raw);
    if e == raw {
      assert raw[n..] == e[n..];
    }
    if raw[n..] == Extractor.LimitNote {
      assert raw == raw[..n] + raw[n..];
    }
  }
}
