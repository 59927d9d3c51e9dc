/** Text extraction from an uploaded PDF (`extract_text_from_pdf`). The PDF
    library is not modelled: a document is the sequence of what its pages
    yield, `None` for a page with no extractable text. */
module Extract {
  import opened Optional
  import opened Text

  /** Python truthiness of a page's text: `None` and `""` are skipped. */
  predicate Contributes(page: Option<string>) {
    page.Some? && |page.value| > 0
  }

  /** The texts of the contributing pages, in page order. */
  function Kept(pages: seq<Option<string>>): (r: seq<string>)
    ensures |r| <= |pages|
    ensures forall k :: 0 <= k < |r| ==> |r[k]| > 0
  {
    if |pages| == 0 then []
    else
      var last := pages[|pages| - 1];
      Kept(pages[..|pages| - 1]) + (if Contributes(last) then [last.value] else [])
  }

  /** All the strings of `xs`, one after the other. */
  function Concat(xs: seq<string>): string {
    if |xs| == 0 then "" else Concat(xs[..|xs| - 1]) + xs[|xs| - 1]
  }

  /** The document's text: the contributing pages concatenated with no
      separator, then stripped of surrounding white space. */
  function ExtractText(pages: seq<Option<string>>): string {
    Strip(Concat(Kept(pages)))
  }

  /** The loop of `extract_text_from_pdf`: visit the pages in order, append
      each page's text when it is truthy, strip the result. */
  method ExtractTextFromPdf(pages: seq<Option<string>>) returns (text: string)
    ensures text == ExtractText(pages)
    ensures IsStripOf(text, Concat(Kept(pages)))
  {
    var raw := "";
    var i := 0;
    while i < |pages|
      invariant 0 <= i <= |pages|
      invariant raw == Concat(Kept(pages[..i]))
    {
      var page := pages[i];
      ConcatStep(pages, i);
      if page.Some? && |page.value| > 0 {
        raw := raw + page.value;
      }
      assert raw == Concat(Kept(pages[..i + 1]));
      i := i + 1;
    }
    assert pages[..i] == pages;
    text := Strip(raw);
  }

  /** One more page adds its text, when it has any, at the end. */
  lemma ConcatStep(pages: seq<Option<string>>, i: nat)
    requires i < |pages|
    ensures Concat(Kept(pages[..i + 1]))
         == Concat(Kept(pages[..i])) + (if Contributes(pages[i]) then pages[i].value else "")
  {
    var page := pages[i];
    assert pages[..i + 1][..i] == pages[..i];
    var k := Kept(pages[..i]);
    if Contributes(page) {
      assert (k + [page.value])[..|k|] == k;
    } else {
      assert Kept(pages[..i + 1]) == k;
    }
  }

  lemma {:induction false} KeptAppend(a: seq<Option<string>>, b: seq<Option<string>>)
    ensures Kept(a + b) == Kept(a) + Kept(b)
  {
    if |b| > 0 {
      var n := |b|;
      assert (a + b)[..|a + b| - 1] == a + b[..n - 1];
      KeptAppend(a, b[..n - 1]);
    } else {
      assert a + b == a;
    }
  }

  lemma {:induction false} ConcatAppend(xs: seq<string>, ys: seq<string>)
    ensures Concat(xs + ys) == Concat(xs) + Concat(ys)
  {
    if |ys| > 0 {
      var n := |ys|;
      assert (xs + ys)[..|xs + ys| - 1] == xs + ys[..n - 1];
      ConcatAppend(xs, ys[..n - 1]);
    } else {
      assert xs + ys == xs;
    }
  }

  /** Extracting from two runs of pages is stripping the first run's raw text
      followed directly by the second's: page order is kept and nothing is
      put between pages. */
  lemma ExtractSplits(a: seq<Option<string>>, b: seq<Option<string>>)
    ensures ExtractText(a + b) == Strip(Concat(Kept(a)) + Concat(Kept(b)))
  {
    KeptAppend(a, b);
    ConcatAppend(Kept(a), Kept(b));
  }

  /** A page that yields no text, or the empty string, leaves no trace:
      removing it from anywhere in the document changes nothing. */
  lemma SkippedPageLeavesNoTrace(before: seq<Option<string>>, page: Option<string>, after: seq<Option<string>>)
    requires !Contributes(page)
    ensures ExtractText(before + [page] + after) == ExtractText(before + after)
  {
    KeptAppend(before + [page], after);
    KeptAppend(before, [page]);
    assert Kept([page]) == [] by {
      assert [page][..0] == [];
    }
    assert Kept(before + [page]) == Kept(before);
    KeptAppend(before, after);
    assert Kept(before + [page] + after) == Kept(before + after);
  }

  /** A document none of whose pages yields text extracts to the empty string. */
  lemma {:induction false} NoTextGivesEmpty(pages: seq<Option<string>>)
    requires forall k :: 0 <= k < |pages| ==> !Contributes(pages[k])
    ensures ExtractText(pages) == ""
  {
    NoneKept(pages);
    assert Strip("") == "" by {
      assert StripAt("", "", 0, 0);
      StripUnique("", "");
    }
  }

  lemma {:induction false} NoneKept(pages: seq<Option<string>>)
    requires forall k :: 0 <= k < |pages| ==> !Contributes(pages[k])
    ensures Kept(pages) == []
  {
    if |pages| > 0 {
      NoneKept(pages[..|pages| - 1]);
    }
  }
}
