/** The text a PDF yields, page by page, and how `load_pdf_text` assembles it:
    for every page in order whose text is non-empty it appends the text and a
    newline, then strips the whole. A page holding only whitespace is
    non-empty and still contributes. */
module Pages {
  import opened Wrappers
  import opened PyText

  /** What the PDF library gives back: `None` when opening the file raises,
      otherwise one entry per page, `None` where reading that page's text raises. */
  type Document = Option<seq<Option<string>>>

  /** What one page adds to the accumulated text. */
  function Contribution(text: string): string {
    if text != "" then text + "\n" else ""
  }

  /** The accumulated text after the loop has seen `texts`, in page order. */
  function Assembled(texts: seq<string>): string {
    if texts == [] then ""
    else Assembled(texts[..|texts| - 1]) + Contribution(texts[|texts| - 1])
  }

  predicate AllReadable(pages: seq<Option<string>>) {
    forall i | 0 <= i < |pages| :: pages[i].Some?
  }

  /** The texts of pages that could all be read. */
  function Texts(pages: seq<Option<string>>): (texts: seq<string>)
    requires AllReadable(pages)
    ensures |texts| == |pages|
    ensures forall i | 0 <= i < |pages| :: pages[i] == Some(texts[i])
  {
    if pages == [] then [] else [pages[0].value] + Texts(pages[1..])
  }

  /** The index of the first page whose text cannot be read (`|pages|` if none). */
  function FirstUnreadable(pages: seq<Option<string>>): (k: nat)
    ensures k <= |pages|
    ensures AllReadable(pages[..k])
    ensures k < |pages| <==> !AllReadable(pages)
    ensures k < |pages| ==> pages[k].None?
  {
    if pages == [] then 0
    else if pages[0].None? then 0
    else
      var k := FirstUnreadable(pages[1..]);
      assert pages[..k + 1] == [pages[0]] + pages[1..][..k];
      k + 1
  }

  /** One more readable page extends the texts by that page's text. */
  lemma TextsExtend(pages: seq<Option<string>>, i: nat)
    requires i < |pages| && AllReadable(pages[..i]) && pages[i].Some?
    ensures AllReadable(pages[..i + 1])
    ensures Texts(pages[..i + 1]) == Texts(pages[..i]) + [pages[i].value]
  {
    assert pages[..i + 1] == pages[..i] + [pages[i]];
  }

  /** The first unreadable page is the one the page loop stops at. */
  lemma FirstUnreadableAt(pages: seq<Option<string>>, i: nat)
    requires i < |pages| && AllReadable(pages[..i]) && pages[i].None?
    ensures FirstUnreadable(pages) == i
  {
  }

  /** The reference reading: the non-empty texts, in order. */
  function NonEmpty(texts: seq<string>): (r: seq<string>)
    ensures |r| <= |texts|
    ensures forall t | t in r :: t != "" && t in texts
  {
    if texts == [] then []
    else (if texts[0] != "" then [texts[0]] else []) + NonEmpty(texts[1..])
  }

  /** Every text followed by a newline. */
  function Lines(texts: seq<string>): string {
    if texts == [] then "" else texts[0] + "\n" + Lines(texts[1..])
  }

  /** `sep.join(texts)`. */
  function Join(texts: seq<string>, sep: string): string {
    if texts == [] then ""
    else if |texts| == 1 then texts[0]
    else texts[0] + sep + Join(texts[1..], sep)
  }

  lemma {:induction false} NonEmptyAppend(a: seq<string>, b: seq<string>)
    ensures NonEmpty(a + b) == NonEmpty(a) + NonEmpty(b)
    decreases |a|
  {
    if a == [] {
      assert a + b == b;
    } else {
      assert (a + b)[1..] == a[1..] + b;
      NonEmptyAppend(a[1..], b);
    }
  }

  lemma {:induction false} LinesAppend(a: seq<string>, b: seq<string>)
    ensures Lines(a + b) == Lines(a) + Lines(b)
    decreases |a|
  {
    if a == [] {
      assert a + b == b;
    } else {
      assert (a + b)[1..] == a[1..] + b;
      LinesAppend(a[1..], b);
    }
  }

  /** The loop's accumulated text is every non-empty page text, in page order,
      each followed by a newline; empty pages contribute nothing. */
  lemma {:induction false} AssembledIsLines(texts: seq<string>)
    ensures Assembled(texts) == Lines(NonEmpty(texts))
    decreases |texts|
  {
    if texts != [] {
      var init, last := texts[..|texts| - 1], texts[|texts| - 1];
      assert texts == init + [last];
      AssembledIsLines(init);
      NonEmptyAppend(init, [last]);
      LinesAppend(NonEmpty(init), NonEmpty([last]));
    }
  }

  /** Dropping every empty page leaves the assembled text unchanged. */
  lemma AssembledIgnoresEmptyPages(texts: seq<string>)
    ensures Assembled(NonEmpty(texts)) == Assembled(texts)
  {
    AssembledIsLines(texts);
    AssembledIsLines(NonEmpty(texts));
    NonEmptyIdempotent(texts);
  }

  /** Inserting an empty page anywhere leaves the assembled text unchanged. */
  lemma EmptyPageLeavesNoTrace(before: seq<string>, after: seq<string>)
    ensures Assembled(before + [""] + after) == Assembled(before + after)
  {
    AssembledIsLines(before + [""] + after);
    AssembledIsLines(before + after);
    NonEmptyAppend(before + [""], after);
    NonEmptyAppend(before, [""]);
    NonEmptyAppend(before, after);
    assert NonEmpty([""]) == [];
    assert NonEmpty(before) + [] == NonEmpty(before);
  }

  lemma {:induction false} NonEmptyIdempotent(texts: seq<string>)
    ensures NonEmpty(NonEmpty(texts)) == NonEmpty(texts)
    decreases |texts|
  {
    if texts != [] {
      var head := if texts[0] != "" then [texts[0]] else [];
      NonEmptyAppend(head, NonEmpty(texts[1..]));
      NonEmptyIdempotent(texts[1..]);
    }
  }

  /** Every text followed by a newline is the texts joined by newlines plus one more. */
  lemma {:induction false} LinesIsJoin(texts: seq<string>)
    requires texts != []
    ensures Lines(texts) == Join(texts, "\n") + "\n"
    decreases |texts|
  {
    if |texts| > 1 {
      LinesIsJoin(texts[1..]);
    } else {
      assert Lines(texts[1..]) == "";
    }
  }

  /** The extracted text of a readable document is its non-empty page texts
      joined by newlines, stripped. */
  lemma DocumentTextIsJoin(texts: seq<string>)
    ensures Strip(Assembled(texts)) == Strip(Join(NonEmpty(texts), "\n"))
  {
    AssembledIsLines(texts);
    if NonEmpty(texts) != [] {
      LinesIsJoin(NonEmpty(texts));
      StripIgnoresTrailingSpace(Join(NonEmpty(texts), "\n"), '\n');
    }
  }
}
