/**
 * The example the blog module's own test of the index page checks: a template with
 * the title in its head and, between the markers, an entry showing each article's
 * title and description, rendered for two articles with and without a blog title.
 */
module BlogExamples {
  import opened Wrappers
  import opened Strings
  import opened PageMetadata
  import opened Blog

  // ---------------------------------------------------------------------------
  // The test's articles and template

  /**
   * The test's two articles: of the values they are given, the entry shows only the
   * titles and the descriptions.
   */
  predicate TestArticles(articles: seq<Page>) {
    && |articles| == 2
    && articles[0].title == "Test Article 1" && articles[0].description == "Test description 1"
    && articles[1].title == "Test Article 2" && articles[1].description == "Test description 2"
  }

  /** The text around the title placeholder in front of the start marker. */
  const HeadOpen := "<!DOCTYPE html><html><body>" + "<title>"
  const HeadClose := "</title>"

  /** The text around the two placeholders of the entry. */
  const EntryOpen := "<div class=\"post\">\n" + "<h2>"
  const EntryMiddle := "</h2>" + "\n" + "<p>"
  const EntryClose := "</p>" + "\n</div>"

  /** The entry template between the markers, once trimmed. */
  const Entry := EntryOpen + Placeholder("title") + EntryMiddle + Placeholder("description") + EntryClose

  /** The text after the end marker, with the pagination placeholder. */
  const Tail := "\n" + Placeholder("pagination") + "\n</body></html>"

  /**
   * `<!DOCTYPE html><html><body><title>$GENERETO['title']</title>`, the start marker,
   * the entry on lines of its own, the end marker, and the pagination placeholder on
   * a line of its own before `</body></html>`.
   */
  const Template := (HeadOpen + Placeholder("title") + HeadClose) + StartPattern + ("\n" + Entry + "\n")
                    + EndPattern + Tail

  // ---------------------------------------------------------------------------
  // The test

  /**
   * The test of `build_index_page` without pagination: the page shows the blog title,
   * or the site title when there is none, in its `<title>`, and each article's title
   * and description in the entry's `<h2>` and `<p>`.
   */
  lemma BuildIndexPageTest(template: string, articles: seq<Page>, blogTitle: Option<string>)
    requires template == Template && TestArticles(articles)
    ensures HasMarkers(template)
    ensures var page := RenderedIndex(template, articles, None, blogTitle, "Main Title");
      && IsInfix("<title>" + blogTitle.GetOr("Main Title") + "</title>", page)
      && IsInfix("<h2>" + "Test Article 1" + "</h2>", page)
      && IsInfix("<p>" + "Test description 1" + "</p>", page)
      && IsInfix("<h2>" + "Test Article 2" + "</h2>", page)
      && IsInfix("<p>" + "Test description 2" + "</p>", page)
  {
    ArticleText(articles);
    IndexPageShows(template, articles, blogTitle);
  }

  /**
   * The test's two runs: with the blog title `Custom Blog Title`, and without one,
   * where the site title `Main Title` is used.
   */
  lemma BuildIndexPageTitles(template: string, articles: seq<Page>)
    requires template == Template && TestArticles(articles)
    ensures HasMarkers(template)
    ensures var page := RenderedIndex(template, articles, None, Some("Custom Blog Title"), "Main Title");
      && IsInfix("<title>Custom Blog Title</title>", page)
      && IsInfix("<h2>Test Article 1</h2>", page) && IsInfix("<p>Test description 1</p>", page)
      && IsInfix("<h2>Test Article 2</h2>", page) && IsInfix("<p>Test description 2</p>", page)
    ensures IsInfix("<title>Main Title</title>", RenderedIndex(template, articles, None, None, "Main Title"))
  {
    BuildIndexPageTest(template, articles, Some("Custom Blog Title"));
    BuildIndexPageTest(template, articles, None);
    ExpectedText();
  }

  // ---------------------------------------------------------------------------
  // Steps of the test

  /**
   * The test template rendered for two articles whose trimmed titles and descriptions
   * hold no '$' shows the title in its `<title>` and each article in its entry.
   */
  lemma IndexPageShows(template: string, articles: seq<Page>, blogTitle: Option<string>)
    requires template == Template && |articles| == 2
    requires '$' !in Trim(articles[0].title) && '$' !in Trim(articles[0].description)
    requires '$' !in Trim(articles[1].title) && '$' !in Trim(articles[1].description)
    ensures HasMarkers(template)
    ensures var page := RenderedIndex(template, articles, None, blogTitle, "Main Title");
      && IsInfix("<title>" + blogTitle.GetOr("Main Title") + "</title>", page)
      && IsInfix("<h2>" + Trim(articles[0].title) + "</h2>", page)
      && IsInfix("<p>" + Trim(articles[0].description) + "</p>", page)
      && IsInfix("<h2>" + Trim(articles[1].title) + "</h2>", page)
      && IsInfix("<p>" + Trim(articles[1].description) + "</p>", page)
  {
    var title := blogTitle.GetOr("Main Title");
    TemplateText();
    PlainPair(articles);
    TitleDescriptionPage(HeadOpen, HeadClose, EntryOpen, EntryMiddle, EntryClose, Tail, Entry, "\n" + Entry + "\n",
                         articles, None, blogTitle, "Main Title");
    var html := EntriesHtml(articles, Entry);
    var page := RenderedIndex(template, articles, None, blogTitle, "Main Title");
    var rest := FillPlaceholders(Tail, "", title);
    assert page == HeadOpen + title + HeadClose + html + rest;
    ConcatAssoc3(HeadOpen + title + HeadClose, html, rest);
    Framed("<!DOCTYPE html><html><body>", "<title>", title, HeadClose, html + rest);
    InfixMiddle(HeadOpen + title + HeadClose, html, rest);
    ShownOnPage(articles, 0, page);
    ShownOnPage(articles, 1, page);
  }

  /** An article's entry, and so its title and description, is on a page that holds the entries. */
  lemma ShownOnPage(articles: seq<Page>, k: nat, page: string)
    requires k < |articles| && '$' !in Trim(articles[k].title) && '$' !in Trim(articles[k].description)
    requires IsInfix(EntriesHtml(articles, Entry), page)
    ensures IsInfix("<h2>" + Trim(articles[k].title) + "</h2>", page)
    ensures IsInfix("<p>" + Trim(articles[k].description) + "</p>", page)
  {
    TemplateText();
    var t, d := Trim(articles[k].title), Trim(articles[k].description);
    var e := EntryOpen + t + EntryMiddle + d + EntryClose;
    TitleDescriptionEntries(EntryOpen, EntryMiddle, EntryClose, articles, k);
    InfixTrans(e, EntriesHtml(articles, Entry), page);
    ShownInEntry("<div class=\"post\">\n", "<h2>", t, "</h2>", "\n", "<p>", d, "</p>", "\n</div>");
    InfixTrans("<h2>" + t + "</h2>", e, page);
    InfixTrans("<p>" + d + "</p>", e, page);
  }

  /** Text framed by `o` and `c` behind `x + o` is on the page. */
  lemma Framed(x: string, o: string, t: string, c: string, rest: string)
    ensures IsInfix(o + t + c, (x + o) + t + c + rest)
  {
    assert (x + o) + t + c + rest == x + (o + t + c) + rest;
    InfixMiddle(x, o + t + c, rest);
  }

  /** Both framed values of an entry are in it. */
  lemma ShownInEntry(x0: string, o1: string, t: string, c1: string, mid: string, o2: string, d: string,
                     c2: string, x2: string)
    ensures var e := (x0 + o1) + t + (c1 + mid + o2) + d + (c2 + x2);
      IsInfix(o1 + t + c1, e) && IsInfix(o2 + d + c2, e)
  {
    var e := (x0 + o1) + t + (c1 + mid + o2) + d + (c2 + x2);
    assert e == x0 + (o1 + t + c1) + (mid + o2 + d + c2 + x2);
    InfixMiddle(x0, o1 + t + c1, mid + o2 + d + c2 + x2);
    assert e == (x0 + o1 + t + c1 + mid) + (o2 + d + c2) + x2;
    InfixMiddle(x0 + o1 + t + c1 + mid, o2 + d + c2, x2);
  }

  /** What the test template's pieces hold. */
  lemma TemplateText()
    ensures '$' !in HeadOpen && '$' !in HeadClose && '$' !in EntryOpen && '$' !in EntryMiddle && '$' !in EntryClose
    ensures '_' !in HeadOpen && '_' !in HeadClose && '_' !in EntryOpen && '_' !in EntryMiddle && '_' !in EntryClose
    ensures HeadClose != [] && HeadClose[|HeadClose| - 1] == '>'
    ensures EntryOpen != [] && !IsSpace(EntryOpen[0]) && EntryClose != [] && !IsSpace(EntryClose[|EntryClose| - 1])
  {
    HeadOpenText();
    HeadCloseText();
    EntryOpenText();
    EntryMiddleText();
    EntryCloseText();
  }

  lemma HeadOpenText()
    ensures '$' !in HeadOpen && '_' !in HeadOpen
  {
  }

  lemma HeadCloseText()
    ensures '$' !in HeadClose && '_' !in HeadClose && HeadClose != [] && HeadClose[|HeadClose| - 1] == '>'
  {
  }

  lemma EntryOpenText()
    ensures '$' !in EntryOpen && '_' !in EntryOpen && EntryOpen != [] && !IsSpace(EntryOpen[0])
  {
  }

  lemma EntryMiddleText()
    ensures '$' !in EntryMiddle && '_' !in EntryMiddle
  {
  }

  lemma EntryCloseText()
    ensures '$' !in EntryClose && '_' !in EntryClose && EntryClose != [] && !IsSpace(EntryClose[|EntryClose| - 1])
  {
  }

  /** The test articles' titles and descriptions need no trimming and hold no '$'. */
  lemma ArticleText(articles: seq<Page>)
    requires TestArticles(articles)
    ensures Trim(articles[0].title) == articles[0].title && '$' !in articles[0].title
    ensures Trim(articles[0].description) == articles[0].description && '$' !in articles[0].description
    ensures Trim(articles[1].title) == articles[1].title && '$' !in articles[1].title
    ensures Trim(articles[1].description) == articles[1].description && '$' !in articles[1].description
  {
    PlainTitle1(articles[0].title);
    PlainDescription1(articles[0].description);
    PlainTitle2(articles[1].title);
    PlainDescription2(articles[1].description);
  }

  /** What holds of both of two articles holds of each. */
  lemma PlainPair(articles: seq<Page>)
    requires |articles| == 2
    requires '$' !in Trim(articles[0].title) && '$' !in Trim(articles[0].description)
    requires '$' !in Trim(articles[1].title) && '$' !in Trim(articles[1].description)
    ensures forall k :: 0 <= k < |articles| ==> '$' !in Trim(articles[k].title) && '$' !in Trim(articles[k].description)
  {
    forall k | 0 <= k < |articles|
      ensures '$' !in Trim(articles[k].title) && '$' !in Trim(articles[k].description)
    {
      if k == 0 {
        assert articles[k] == articles[0];
      } else {
        assert k == 1;
      }
    }
  }

  lemma PlainTitle1(s: string)
    requires s == "Test Article 1"
    ensures Trim(s) == s && '$' !in s
  {
    TrimUnpadded(s);
  }

  lemma PlainDescription1(s: string)
    requires s == "Test description 1"
    ensures Trim(s) == s && '$' !in s
  {
    TrimUnpadded(s);
  }

  lemma PlainTitle2(s: string)
    requires s == "Test Article 2"
    ensures Trim(s) == s && '$' !in s
  {
    TrimUnpadded(s);
  }

  lemma PlainDescription2(s: string)
    requires s == "Test description 2"
    ensures Trim(s) == s && '$' !in s
  {
    TrimUnpadded(s);
  }

  /** The expected texts of the test, written in one piece. */
  lemma ExpectedText()
    ensures "<title>" + "Custom Blog Title" + "</title>" == "<title>Custom Blog Title</title>"
    ensures "<title>" + "Main Title" + "</title>" == "<title>Main Title</title>"
    ensures "<h2>" + "Test Article 1" + "</h2>" == "<h2>Test Article 1</h2>"
    ensures "<h2>" + "Test Article 2" + "</h2>" == "<h2>Test Article 2</h2>"
    ensures "<p>" + "Test description 1" + "</p>" == "<p>Test description 1</p>"
    ensures "<p>" + "Test description 2" + "</p>" == "<p>Test description 2</p>"
  {
    ExpectedCustomTitle();
    ExpectedMainTitle();
    ExpectedHeading1();
    ExpectedHeading2();
    ExpectedDescription1();
    ExpectedDescription2();
  }

  lemma ExpectedCustomTitle()
    ensures "<title>" + "Custom Blog Title" + "</title>" == "<title>Custom Blog Title</title>"
  {
  }

  lemma ExpectedMainTitle()
    ensures "<title>" + "Main Title" + "</title>" == "<title>Main Title</title>"
  {
  }

  lemma ExpectedHeading1()
    ensures "<h2>" + "Test Article 1" + "</h2>" == "<h2>Test Article 1</h2>"
  {
  }

  lemma ExpectedHeading2()
    ensures "<h2>" + "Test Article 2" + "</h2>" == "<h2>Test Article 2</h2>"
  {
  }

  lemma ExpectedDescription1()
    ensures "<p>" + "Test description 1" + "</p>" == "<p>Test description 1</p>"
  {
  }

  lemma ExpectedDescription2()
    ensures "<p>" + "Test description 2" + "</p>" == "<p>Test description 2</p>"
  {
  }
}
