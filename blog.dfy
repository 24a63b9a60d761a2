/**
 * Blog assembly: the articles are gathered from the manifest and the blog folder,
 * sorted newest first, filtered for listing, cut into pages of a fixed size, and
 * each page of the index is rendered by splicing the articles' entries between the
 * start and end markers of the index template, with a navigation block between pages.
 */
module Blog {
  import opened Wrappers
  import opened Strings
  import opened Seqs
  import opened Paths
  import opened PageMetadata

  // ---------------------------------------------------------------------------
  // Page file names

  /**
   * `get_page_filename`: page 1 is the index itself; page N is `stem-page-N.ext`,
   * with the stem and the extension of the index's file name, each empty when absent.
   */
  function PageFilename(indexName: string, page: nat): (r: string)
    ensures page == 1 ==> r == indexName
  {
    if page == 1 then indexName
    else
      var p := PathOf(indexName);
      FileStem(p).GetOr("") + "-page-" + Decimal(page) + "." + Extension(p).GetOr("")
  }

  /** In a numeral followed by a dot, the dot is the first character that is not a digit. */
  lemma FirstNonDigit(x: string, e: string)
    requires AllDigits(x)
    ensures var t := x + "." + e; |x| < |t| && !IsDigit(t[|x|]) && forall i :: 0 <= i < |x| ==> IsDigit(t[i])
  {
    var t := x + "." + e;
    assert t[|x|] == '.';
    forall i | 0 <= i < |x|
      ensures IsDigit(t[i])
    {
      assert t[i] == x[i];
    }
  }

  /** Two numerals followed by a dot agree when the texts agree. */
  lemma DigitsBeforeDot(x: string, y: string, e: string, f: string)
    requires AllDigits(x) && AllDigits(y) && x + "." + e == y + "." + f
    ensures x == y
  {
    var t := x + "." + e;
    FirstNonDigit(x, e);
    FirstNonDigit(y, f);
    assert |x| == |y|;
    assert x == t[..|x|];
    assert y == (y + "." + f)[..|y|];
  }

  /** Pages after the first get file names of their own. */
  lemma PageFilenamesDistinct(indexName: string, m: nat, n: nat)
    requires m != 1 && n != 1 && PageFilename(indexName, m) == PageFilename(indexName, n)
    ensures m == n
  {
    var p := PathOf(indexName);
    var stem, ext := FileStem(p).GetOr(""), Extension(p).GetOr("");
    var head := stem + "-page-";
    var a, b := Decimal(m) + "." + ext, Decimal(n) + "." + ext;
    ConcatAssoc(head, Decimal(m), ".", ext);
    ConcatAssoc(head, Decimal(n), ".", ext);
    assert head + a == head + b;
    assert a == (head + a)[|head|..];
    assert b == (head + b)[|head|..];
    DigitsBeforeDot(Decimal(m), Decimal(n), ext, ext);
    DecimalInjective(m, n);
  }

  /**
   * For a plain file name with an extension, page N inserts `-page-N` before the
   * extension's dot; that name is longer than the index's, so it differs from page 1.
   */
  lemma PageFilenameOfName(name: string, page: nat)
    requires '/' !in name && name != ".."
    requires LastIndexOfChar(name, '.').Some? && LastIndexOfChar(name, '.').value > 0
    requires page != 1
    ensures var k := LastIndexOfChar(name, '.').value;
      PageFilename(name, page) == name[..k] + "-page-" + Decimal(page) + name[k..]
    ensures |PageFilename(name, page)| > |name|
  {
    var k := LastIndexOfChar(name, '.').value;
    NameStemAndExtension(name);
    PageFilenameOfParts(name, page, name[..k], name[k + 1..]);
    InsertBeforeDot(name, k, "-page-" + Decimal(page));
  }

  lemma PageFilenameOfParts(name: string, page: nat, stem: string, ext: string)
    requires page != 1
    requires FileStem(PathOf(name)) == Some(stem) && Extension(PathOf(name)) == Some(ext)
    ensures PageFilename(name, page) == stem + ("-page-" + Decimal(page)) + "." + ext
  {
  }

  /** Text inserted in front of a dot. */
  lemma InsertBeforeDot(name: string, k: nat, mid: string)
    requires k < |name| && name[k] == '.'
    ensures name[..k] + mid + "." + name[k + 1..] == name[..k] + mid + name[k..]
    ensures |name[..k] + mid + name[k..]| == |name| + |mid|
  {
    assert name[k..] == "." + name[k + 1..];
  }

  /** The stem and extension of a plain file name with a dot after its first character. */
  lemma NameStemAndExtension(name: string)
    requires '/' !in name && name != ".."
    requires LastIndexOfChar(name, '.').Some? && LastIndexOfChar(name, '.').value > 0
    ensures var k := LastIndexOfChar(name, '.').value; var p := PathOf(name);
      FileStem(p) == Some(name[..k]) && Extension(p) == Some(name[k + 1..])
  {
    PathOfName(name);
    var p := PathOf(name);
    assert FileName(p) == Some(name);
    StemAndExtension(p);
  }

  /** A name with an extension: the page number goes between the stem and the extension. */
  lemma PageFilenameOfStem(stem: string, ext: string, page: nat)
    requires stem != [] && '/' !in stem && '/' !in ext && '.' !in ext
    requires stem + "." + ext != ".."
    requires page != 1
    ensures PageFilename(stem + "." + ext, page) == stem + "-page-" + Decimal(page) + "." + ext
  {
    var name := stem + "." + ext;
    StemDotExtension(stem, ext);
    PageFilenameOfName(name, page);
  }

  /** `stem.ext` is a plain file name whose last dot follows the stem. */
  lemma StemDotExtension(stem: string, ext: string)
    requires '/' !in stem && '/' !in ext && '.' !in ext
    ensures var name := stem + "." + ext;
      && '/' !in name
      && LastIndexOfChar(name, '.') == Some(|stem|)
      && name[..|stem|] == stem && name[|stem|..] == "." + ext
  {
    var name := stem + "." + ext;
    LastIndexOfCharAt(stem, '.', ext);
    assert stem + ['.'] + ext == name;
    assert '/' !in name by {
      assert forall i :: 0 <= i < |name| ==> name[i] in stem || name[i] == '.' || name[i] in ext;
    }
  }

  /**
   * The file names of the source's own examples: the first page of `index.html` and
   * of `blog.html` is the index itself, their later pages carry the page number.
   */
  lemma PageFilenameExample()
    ensures PageFilename("index.html", 1) == "index.html"
    ensures PageFilename("index.html", 2) == "index-page-2.html"
    ensures PageFilename("index.html", 10) == "index-page-10.html"
    ensures PageFilename("blog.html", 1) == "blog.html"
    ensures PageFilename("blog.html", 3) == "blog-page-3.html"
  {
    IndexHtmlParts();
    PageFilenameOfStem("index", "html", 2);
    IndexHtmlTenthParts();
    PageFilenameOfStem("index", "html", 10);
    BlogHtmlParts();
    PageFilenameOfStem("blog", "html", 3);
  }

  lemma IndexHtmlParts()
    ensures "index" + "." + "html" == "index.html"
    ensures "index" + "-page-" + Decimal(2) + "." + "html" == "index-page-2.html"
  {
    assert Decimal(2) == "2";
  }

  lemma IndexHtmlTenthParts()
    ensures "index" + "-page-" + Decimal(10) + "." + "html" == "index-page-10.html"
  {
    assert Decimal(1) == "1" && Decimal(10) == Decimal(1) + [DigitChar(0)];
    assert Decimal(10) == "10";
  }

  lemma BlogHtmlParts()
    ensures "blog" + "." + "html" == "blog.html"
    ensures "blog" + "-page-" + Decimal(3) + "." + "html" == "blog-page-3.html"
  {
    assert Decimal(3) == "3";
  }

  // ---------------------------------------------------------------------------
  // The navigation block

  /** `PaginationContext`: where a page of the index sits among the pages. */
  datatype Pagination = Pagination(
    currentPage: nat,
    totalPages: nat,
    hasPrev: bool,
    hasNext: bool,
    prevUrl: string,
    nextUrl: string)

  const NavOpen := "<nav class=\"pagination\">\n"
  const NavClose := "</nav>"
  const PrevClass := "pagination-prev"
  const NextClass := "pagination-next"

  function PrevLink(url: string): string {
    "  <a href=\"" + url + "\" class=\"" + PrevClass + "\">Previous</a>\n"
  }

  function NextLink(url: string): string {
    "  <a href=\"" + url + "\" class=\"" + NextClass + "\">Next</a>\n"
  }

  function PageInfo(current: nat, total: nat): string {
    "  <span class=\"pagination-info\">" + PageOf(current, total) + "</span>\n"
  }

  /** The text `Page c of t`. */
  function PageOf(current: nat, total: nat): string {
    "Page " + Decimal(current) + " of " + Decimal(total)
  }

  function When(b: bool, s: string): string {
    if b then s else ""
  }

  /**
   * The navigation block `build_pagination_html` writes: a link back when there is
   * a previous page, the page's position, a link on when there is a next page.
   */
  function NavHtml(p: Pagination): (r: string)
    ensures StartsWith(r, NavOpen)
    ensures |r| >= |NavClose| && r[|r| - |NavClose|..] == NavClose
  {
    var body := When(p.hasPrev, PrevLink(p.prevUrl)) + PageInfo(p.currentPage, p.totalPages)
      + When(p.hasNext, NextLink(p.nextUrl));
    ConcatAssoc3(NavOpen, body, NavClose);
    assert (NavOpen + (body + NavClose))[..|NavOpen|] == NavOpen;
    NavOpen + body + NavClose
  }

  /** `build_pagination_html`, pushing onto the text one piece after another. */
  method BuildPaginationHtml(p: Pagination) returns (html: string)
    ensures html == NavHtml(p)
  {
    html := NavOpen;
    if p.hasPrev {
      html := html + PrevLink(p.prevUrl);
    }
    ghost var prev := html;
    var info := PageInfo(p.currentPage, p.totalPages);
    html := html + info;
    ghost var middle := html;
    if p.hasNext {
      html := html + NextLink(p.nextUrl);
    }
    html := html + NavClose;
    PaginationPieces(p, prev, info, middle, html);
  }

  lemma PaginationPieces(p: Pagination, prev: string, info: string, middle: string, html: string)
    requires prev == NavOpen + When(p.hasPrev, PrevLink(p.prevUrl))
    requires info == PageInfo(p.currentPage, p.totalPages) && middle == prev + info
    requires html == middle + When(p.hasNext, NextLink(p.nextUrl)) + NavClose
    ensures html == NavHtml(p)
  {
    var a, b := When(p.hasPrev, PrevLink(p.prevUrl)), When(p.hasNext, NextLink(p.nextUrl));
    ConcatAssoc3(NavOpen, a, info);
    ConcatAssoc3(NavOpen, a + info, b);
  }

  lemma InfixMiddle(a: string, p: string, b: string)
    ensures IsInfix(p, a + p + b)
  {
    assert (a + p + b)[|a|..|a| + |p|] == p;
    assert OccursAt(a + p + b, p, |a|);
  }

  lemma InfixLeft(p: string, a: string, b: string)
    requires IsInfix(p, a)
    ensures IsInfix(p, a + b)
  {
    var i: nat :| OccursAt(a, p, i);
    assert (a + b)[i..i + |p|] == a[i..i + |p|];
    assert OccursAt(a + b, p, i);
  }

  lemma InfixRight(p: string, a: string, b: string)
    requires IsInfix(p, b)
    ensures IsInfix(p, a + b)
  {
    var i: nat :| OccursAt(b, p, i);
    assert (a + b)[|a| + i..|a| + i + |p|] == b[i..i + |p|];
    assert OccursAt(a + b, p, |a| + i);
  }

  /**
   * The block links back to the previous page, with the `pagination-prev` class,
   * when there is one, on to the next page likewise, and always says `Page c of t`.
   */
  lemma NavHtmlLinks(p: Pagination)
    ensures p.hasPrev ==> IsInfix(PrevLink(p.prevUrl), NavHtml(p)) && IsInfix(PrevClass, NavHtml(p))
    ensures p.hasNext ==> IsInfix(NextLink(p.nextUrl), NavHtml(p)) && IsInfix(NextClass, NavHtml(p))
    ensures IsInfix(PageOf(p.currentPage, p.totalPages), NavHtml(p))
  {
    var prev := When(p.hasPrev, PrevLink(p.prevUrl));
    var info := PageInfo(p.currentPage, p.totalPages);
    var next := When(p.hasNext, NextLink(p.nextUrl));
    var r := NavHtml(p);
    assert r == NavOpen + (prev + info + next) + NavClose;
    InfixMiddle("  <span class=\"pagination-info\">", PageOf(p.currentPage, p.totalPages), "</span>\n");
    InfixRight(PageOf(p.currentPage, p.totalPages), prev, info);
    InfixLeft(PageOf(p.currentPage, p.totalPages), prev + info, next);
    InfixMiddle(NavOpen, prev + info + next, NavClose);
    InfixTrans(PageOf(p.currentPage, p.totalPages), prev + info + next, r);
    if p.hasPrev {
      InfixMiddle("  <a href=\"" + p.prevUrl + "\" class=\"", PrevClass, "\">Previous</a>\n");
      InfixSelf(prev);
      InfixLeft(prev, prev, info);
      InfixLeft(prev, prev + info, next);
      InfixTrans(prev, prev + info + next, r);
      InfixTrans(PrevClass, prev, r);
    }
    if p.hasNext {
      InfixMiddle("  <a href=\"" + p.nextUrl + "\" class=\"", NextClass, "\">Next</a>\n");
      InfixSelf(next);
      InfixRight(next, prev + info, next);
      InfixTrans(next, prev + info + next, r);
      InfixTrans(NextClass, next, r);
    }
  }

  lemma InfixSelf(p: string)
    ensures IsInfix(p, p)
  {
    assert OccursAt(p, p, 0);
  }

  lemma InfixTrans(p: string, q: string, s: string)
    requires IsInfix(p, q) && IsInfix(q, s)
    ensures IsInfix(p, s)
  {
    var i: nat :| OccursAt(q, p, i);
    var j: nat :| OccursAt(s, q, j);
    forall k | 0 <= k < |p|
      ensures s[j + i + k] == p[k]
    {
      assert s[j + i + k] == s[j..j + |q|][i + k];
      assert p[k] == q[i..i + |p|][k];
    }
    assert s[j + i..j + i + |p|] == p;
    assert OccursAt(s, p, j + i);
  }

  // ---------------------------------------------------------------------------
  // Which articles are listed

  /** The site-wide draft policy: drafts written but not listed, written and listed, or neither. */
  datatype DraftsOptions = Build | Dev | Hide

  /** The error page is never listed. */
  const ErrorPage := "error.html"

  function NotErrorPage(m: Page): bool {
    m.fileName != ErrorPage
  }

  function Visible(opts: DraftsOptions): Page -> bool {
    (m: Page) => !m.isDraft || opts.Dev?
  }

  /** An article the index lists under the policy. */
  predicate Listed(m: Page, opts: DraftsOptions) {
    m.fileName != ErrorPage && (!m.isDraft || opts.Dev?)
  }

  /** The two filters of `generate_blog`, one after the other. */
  function ListedArticles(articles: seq<Page>, opts: DraftsOptions): (r: seq<Page>)
    ensures |r| <= |articles|
    ensures (forall j :: 0 <= j < |articles| ==> Listed(articles[j], opts)) ==> r == articles
    ensures (forall j :: 0 <= j < |articles| ==> articles[j].fileName == ErrorPage) ==> r == []
  {
    FilterKeepsAll(articles, NotErrorPage);
    FilterKeepsAll(articles, Visible(opts));
    FilterDropsAll(articles, NotErrorPage);
    Filter(Filter(articles, NotErrorPage), Visible(opts))
  }

  /**
   * The listing keeps exactly the articles that are not the error page and that are
   * not drafts, unless in dev mode, in their order.
   */
  lemma ListedArticlesSpec(articles: seq<Page>, opts: DraftsOptions)
    ensures var r := ListedArticles(articles, opts);
      && r == Filter(articles, m => Listed(m, opts))
      && (forall i :: 0 <= i < |r| ==> Listed(r[i], opts) && r[i] in articles)
      && (forall i :: 0 <= i < |articles| && Listed(articles[i], opts) ==> articles[i] in r)
      && IsSubsequence(r, articles)
  {
    FilterFilter(articles, NotErrorPage, Visible(opts), m => Listed(m, opts));
    FilterSpec(articles, m => Listed(m, opts));
  }

  // ---------------------------------------------------------------------------
  // Newest first

  /**
   * `sort_by` with `partial_cmp`, a stable sort: each article goes in front of the
   * first one it is not after, so it stays ahead of the ones with its own date.
   */
  function Insert(x: Page, s: seq<Page>): (r: seq<Page>)
    ensures multiset(r) == multiset(s) + multiset{x}
  {
    if s == [] then [x]
    else if Compare(x, s[0]) == Greater then
      assert s == [s[0]] + s[1..];
      [s[0]] + Insert(x, s[1..])
    else [x] + s
  }

  function SortByDate(s: seq<Page>): (r: seq<Page>)
    ensures multiset(r) == multiset(s)
  {
    if s == [] then []
    else
      assert s == [s[0]] + s[1..];
      Insert(s[0], SortByDate(s[1..]))
  }

  /** In order for `sort_by`: no article comes after one it should precede. */
  predicate SortedByDate(s: seq<Page>) {
    forall i, j :: 0 <= i < j < |s| ==> Compare(s[i], s[j]) != Greater
  }

  lemma {:induction false} InsertSorted(x: Page, s: seq<Page>)
    requires SortedByDate(s)
    ensures SortedByDate(Insert(x, s))
  {
    if s != [] {
      if Compare(x, s[0]) == Greater {
        InsertSorted(x, s[1..]);
        InsertBehind(x, s);
      } else {
        InsertInFront(x, s);
      }
    }
  }

  /** An article not after the head of a sorted list can go in front of it. */
  lemma InsertInFront(x: Page, s: seq<Page>)
    requires SortedByDate(s) && s != [] && Compare(x, s[0]) != Greater
    ensures SortedByDate([x] + s)
  {
    forall j | 0 <= j < |s|
      ensures Compare(x, s[j]) != Greater
    {
      if j > 0 {
        CompareTransitive(x, s[0], s[j]);
      }
    }
    SortedCons(x, s);
  }

  /** An article after the head goes behind it, into the sorted rest. */
  lemma InsertBehind(x: Page, s: seq<Page>)
    requires SortedByDate(s) && s != [] && Compare(x, s[0]) == Greater
    requires SortedByDate(Insert(x, s[1..]))
    ensures SortedByDate([s[0]] + Insert(x, s[1..]))
  {
    var rest := Insert(x, s[1..]);
    CompareAntisymmetric(x, s[0]);
    forall j | 0 <= j < |rest|
      ensures Compare(s[0], rest[j]) != Greater
    {
      InsertMember(x, s[1..], rest[j]);
      if rest[j] != x {
        var k :| 0 <= k < |s[1..]| && s[1..][k] == rest[j];
        assert s[k + 1] == rest[j];
      }
    }
    SortedCons(s[0], rest);
  }

  /** Inserting adds the one article and no other. */
  lemma InsertMember(x: Page, s: seq<Page>, y: Page)
    requires y in Insert(x, s)
    ensures y == x || y in s
  {
    assert y in multiset(Insert(x, s));
  }

  /** An article not after any article of a sorted list can head it. */
  lemma SortedCons(h: Page, rest: seq<Page>)
    requires SortedByDate(rest)
    requires forall j :: 0 <= j < |rest| ==> Compare(h, rest[j]) != Greater
    ensures SortedByDate([h] + rest)
  {
    var s := [h] + rest;
    forall i, j | 0 <= i < j < |s|
      ensures Compare(s[i], s[j]) != Greater
    {
      assert s[j] == rest[j - 1];
      if i > 0 {
        assert s[i] == rest[i - 1];
      }
    }
  }

  /** The sorted list is in order and holds the same articles, as many times each. */
  lemma {:induction false} SortByDateSorted(s: seq<Page>)
    ensures SortedByDate(SortByDate(s)) && multiset(SortByDate(s)) == multiset(s)
  {
    if s != [] {
      SortByDateSorted(s[1..]);
      InsertSorted(s[0], SortByDate(s[1..]));
    }
  }

  /** In order means newest first: publish dates never increase along the list. */
  lemma SortedNewestFirst(s: seq<Page>, i: nat, j: nat)
    requires SortedByDate(s) && i < j < |s|
    ensures CompareStrings(s[i].publishDate, s[j].publishDate) != Less
  {
  }

  function HasDate(d: string): Page -> bool {
    (m: Page) => m.publishDate == d
  }

  lemma {:induction false} InsertStable(x: Page, s: seq<Page>, d: string)
    ensures Filter(Insert(x, s), HasDate(d))
      == if x.publishDate == d then [x] + Filter(s, HasDate(d)) else Filter(s, HasDate(d))
  {
    if s != [] && Compare(x, s[0]) == Greater {
      InsertStable(x, s[1..], d);
      CompareEqual(x, s[0]);
      assert ([s[0]] + Insert(x, s[1..]))[1..] == Insert(x, s[1..]);
      assert s == [s[0]] + s[1..];
    } else if s != [] {
      assert ([x] + s)[1..] == s;
    }
  }

  /** Stability: the articles of any one date keep the order they came in. */
  lemma {:induction false} SortByDateStable(s: seq<Page>, d: string)
    ensures Filter(SortByDate(s), HasDate(d)) == Filter(s, HasDate(d))
  {
    if s != [] {
      SortByDateStable(s[1..], d);
      InsertStable(s[0], SortByDate(s[1..]), d);
    }
  }

  // ---------------------------------------------------------------------------
  // Pages of the index

  /** One page of the index: its file name, its articles and, when paginated, its context. */
  datatype IndexPage = IndexPage(fileName: string, articles: seq<Page>, pagination: Option<Pagination>)

  /** `chunks.len().max(1)`. */
  function TotalPages(chunks: nat): (r: nat)
    ensures r >= 1 && r >= chunks
  {
    if chunks > 1 then chunks else 1
  }

  /** The context of page `page` of `total`: the neighbours' file names, or nothing. */
  function PaginationOf(indexName: string, page: nat, total: nat): Pagination {
    Pagination(page, total, page > 1, page < total,
      if page > 1 then PageFilename(indexName, page - 1) else "",
      if page < total then PageFilename(indexName, page + 1) else "")
  }

  /** Page `i + 1` of the index: its file name, its chunk of articles, its navigation. */
  function IndexPageAt(indexName: string, chunks: seq<seq<Page>>, total: nat, i: nat): IndexPage
    requires i < |chunks|
  {
    IndexPage(PageFilename(indexName, i + 1), chunks[i], Some(PaginationOf(indexName, i + 1, total)))
  }

  /** The pages of a paginated index: one per chunk of `perPage` articles. */
  function PaginatedPages(indexName: string, articles: seq<Page>, perPage: nat): (r: seq<IndexPage>)
    requires perPage > 0
  {
    var chunks := Chunks(articles, perPage);
    var total := TotalPages(|chunks|);
    seq(|chunks|, i requires 0 <= i < |chunks| => IndexPageAt(indexName, chunks, total, i))
  }

  /**
   * The pages `generate_blog` writes: with a page size, one per chunk; without one,
   * a single page holding every article and no navigation.
   */
  function IndexPages(indexName: string, articles: seq<Page>, maxPerPage: Option<nat>): (r: seq<IndexPage>)
    requires maxPerPage != Some(0)
    ensures Flatten(PageArticles(r)) == articles
    ensures r != [] <==> maxPerPage.None? || articles != []
    ensures r != [] ==> r[0].fileName == indexName
    ensures maxPerPage.None? ==> |r| == 1 && r[0].articles == articles && r[0].pagination.None?
  {
    match maxPerPage
    case None =>
      var pages := [IndexPage(indexName, articles, None)];
      assert PageArticles(pages) == [articles];
      assert Flatten(PageArticles(pages)) == articles + Flatten([]);
      pages
    case Some(n) =>
      PagesCoverArticles(indexName, articles, n);
      if articles == [] then PaginatedPages(indexName, articles, n)
      else
        PageFileNameAt(indexName, articles, n, 0);
        PaginatedPages(indexName, articles, n)
  }

  /** The loop of `generate_blog` over the chunks, computing each page's context. */
  method GeneratePages(indexName: string, articles: seq<Page>, perPage: nat) returns (pages: seq<IndexPage>)
    requires perPage > 0
    ensures pages == PaginatedPages(indexName, articles, perPage)
  {
    var chunks := Chunks(articles, perPage);
    var totalPages := |chunks|;
    if totalPages < 1 {
      totalPages := 1;
    }
    ghost var expected := PaginatedPages(indexName, articles, perPage);
    assert totalPages == TotalPages(|chunks|);
    pages := [];
    for pageIdx := 0 to |chunks|
      invariant pages == expected[..pageIdx]
    {
      var page := BuildPage(indexName, chunks, pageIdx, totalPages);
      assert page == expected[pageIdx];
      PrefixSnoc(expected, pageIdx);
      pages := pages + [page];
    }
    assert expected[..|chunks|] == expected;
  }

  /** One iteration of the loop: the page's file name and its navigation context. */
  method BuildPage(indexName: string, chunks: seq<seq<Page>>, pageIdx: nat, totalPages: nat) returns (page: IndexPage)
    requires pageIdx < |chunks|
    ensures page == IndexPageAt(indexName, chunks, totalPages, pageIdx)
  {
    var pageNumber := pageIdx + 1;
    var pageFilename := PageFilename(indexName, pageNumber);
    var prevUrl := "";
    if pageNumber > 1 {
      prevUrl := PageFilename(indexName, pageNumber - 1);
    }
    var nextUrl := "";
    if pageNumber < totalPages {
      nextUrl := PageFilename(indexName, pageNumber + 1);
    }
    var pagination := Pagination(pageNumber, totalPages, pageNumber > 1, pageNumber < totalPages, prevUrl, nextUrl);
    page := IndexPage(pageFilename, chunks[pageIdx], Some(pagination));
  }

  /** The articles of each page, in page order. */
  function PageArticles(pages: seq<IndexPage>): seq<seq<Page>> {
    seq(|pages|, i requires 0 <= i < |pages| => pages[i].articles)
  }

  /**
   * The pages hold the listed articles in order, each once: every page but the last
   * is full, none is empty, and there are as many pages as it takes.
   */
  lemma PagesCoverArticles(indexName: string, articles: seq<Page>, perPage: nat)
    requires perPage > 0
    ensures var pages := PaginatedPages(indexName, articles, perPage);
      && Flatten(PageArticles(pages)) == articles
      && (forall i :: 0 <= i < |pages| ==> 0 < |pages[i].articles| <= perPage)
      && (forall i :: 0 <= i < |pages| - 1 ==> |pages[i].articles| == perPage)
      && |articles| <= |pages| * perPage
      && (pages == [] || (|pages| - 1) * perPage < |articles|)
      && (articles == [] <==> pages == [])
  {
    var pages := PaginatedPages(indexName, articles, perPage);
    assert PageArticles(pages) == Chunks(articles, perPage);
    ChunksCount(articles, perPage);
  }

  /**
   * The pages link up: page i + 1 of |pages|, a previous page exactly when not first,
   * a next page exactly when not last, each link naming that neighbour's file; the
   * first page is the index itself.
   */
  lemma PagesLinked(indexName: string, articles: seq<Page>, perPage: nat, i: nat)
    requires perPage > 0
    requires i < |PaginatedPages(indexName, articles, perPage)|
    ensures var pages := PaginatedPages(indexName, articles, perPage);
      var p := pages[i].pagination;
      && p.Some?
      && p.value.currentPage == i + 1 && p.value.totalPages == |pages|
      && (p.value.hasPrev <==> i > 0)
      && (p.value.hasNext <==> i < |pages| - 1)
      && (i > 0 ==> p.value.prevUrl == pages[i - 1].fileName)
      && (i < |pages| - 1 ==> p.value.nextUrl == pages[i + 1].fileName)
      && (i == 0 ==> pages[i].fileName == indexName)
  {
    var pages := PaginatedPages(indexName, articles, perPage);
    PaginatedPageAt(indexName, articles, perPage, i);
    if i > 0 {
      PaginatedPageAt(indexName, articles, perPage, i - 1);
    }
    if i < |pages| - 1 {
      PaginatedPageAt(indexName, articles, perPage, i + 1);
    }
  }

  /** Page `i + 1` of a paginated index, with the total page count. */
  lemma PaginatedPageAt(indexName: string, articles: seq<Page>, perPage: nat, i: nat)
    requires perPage > 0
    requires i < |PaginatedPages(indexName, articles, perPage)|
    ensures var pages := PaginatedPages(indexName, articles, perPage);
      var chunks := Chunks(articles, perPage);
      && |pages| == |chunks| && TotalPages(|chunks|) == |pages|
      && pages[i] == IndexPageAt(indexName, chunks, |pages|, i)
  {
  }

  /** The pages after the first are written to files of their own. */
  lemma PagesDistinct(indexName: string, articles: seq<Page>, perPage: nat, i: nat, j: nat)
    requires perPage > 0
    requires var pages := PaginatedPages(indexName, articles, perPage);
      0 < i < |pages| && 0 < j < |pages| && i != j
    ensures var pages := PaginatedPages(indexName, articles, perPage);
      pages[i].fileName != pages[j].fileName
  {
    PageFileNameAt(indexName, articles, perPage, i);
    PageFileNameAt(indexName, articles, perPage, j);
    if PageFilename(indexName, i + 1) == PageFilename(indexName, j + 1) {
      PageFilenamesDistinct(indexName, i + 1, j + 1);
    }
  }

  lemma PageFileNameAt(indexName: string, articles: seq<Page>, perPage: nat, i: nat)
    requires perPage > 0
    requires i < |PaginatedPages(indexName, articles, perPage)|
    ensures PaginatedPages(indexName, articles, perPage)[i].fileName == PageFilename(indexName, i + 1)
  {
    PaginatedPageAt(indexName, articles, perPage, i);
  }

  /** Five articles two to a page make three pages of two, two and one. */
  lemma FiveArticlesTwoPerPage(indexName: string, articles: seq<Page>)
    requires |articles| == 5
    ensures var pages := PaginatedPages(indexName, articles, 2);
      |pages| == 3 && |pages[0].articles| == 2 && |pages[1].articles| == 2 && |pages[2].articles| == 1
  {
    FiveInTwos(articles);
  }

  lemma FiveInTwos(articles: seq<Page>)
    requires |articles| == 5
    ensures var c := Chunks(articles, 2); |c| == 3 && |c[0]| == 2 && |c[1]| == 2 && |c[2]| == 1
  {
    var c := Chunks(articles, 2);
    ChunksCount(articles, 2);
    assert |c| == 3;
    FlattenThree(c);
  }

  lemma FlattenThree<T>(c: seq<seq<T>>)
    requires |c| == 3
    ensures Flatten(c) == c[0] + c[1] + c[2]
  {
    assert c[1..][1..][1..] == [];
    assert Flatten(c[2..]) == c[2] + Flatten(c[2..][1..]);
  }

  // ---------------------------------------------------------------------------
  // Rendering a page of the index from a marker template

  const StartPattern := "<!-- start_content -->"
  const EndPattern := "<!-- end_content -->"

  /** The entry the index shows for each article when the template leaves it blank. */
  const DefaultEntryTemplate :=
    "<div class=\"post\">\n<h2><a href=\"$GENERETO['file_name']\">$GENERETO['title']</a></h2>\n"
    + "<div class=\"post-date\">$GENERETO['publish_date']</div>\n"
    + "<p class=\"post-description\">$GENERETO['description']</p>\n</div>\n"

  /**
   * Both markers are there and the first end marker does not begin before the first
   * start marker has ended; otherwise the renderer panics.
   */
  predicate HasMarkers(template: string) {
    IndexOf(template, StartPattern).Some? && IndexOf(template, EndPattern).Some?
    && IndexOf(template, StartPattern).value + |StartPattern| <= IndexOf(template, EndPattern).value
  }

  /** The entry template: the trimmed text between the markers, or the default when blank. */
  function EntryTemplate(template: string): (r: string)
    requires HasMarkers(template)
    ensures r == DefaultEntryTemplate || Trim(r) != []
  {
    var start := IndexOf(template, StartPattern).value;
    var end := IndexOf(template, EndPattern).value;
    var content := Trim(template[start + |StartPattern|..end]);
    if Trim(content) == [] then DefaultEntryTemplate else content
  }

  /** The entries of the articles, one filled-in template and a newline each, in order. */
  function EntriesHtml(articles: seq<Page>, entry: string): string {
    if articles == [] then ""
    else EntriesHtml(articles[..|articles| - 1], entry) + Apply(articles[|articles| - 1], entry) + "\n"
  }

  /** The template with everything from the start marker through the end marker replaced. */
  function Spliced(template: string, html: string): (r: string)
    requires HasMarkers(template)
  {
    var start := IndexOf(template, StartPattern).value;
    var end := IndexOf(template, EndPattern).value;
    template[..start] + html + template[end + |EndPattern|..]
  }

  /** Every pagination placeholder becomes `nav`, then every title placeholder becomes `title`. */
  function FillPlaceholders(text: string, nav: string, title: string): string {
    ReplaceAll(ReplaceAll(text, Placeholder("pagination"), nav), Placeholder("title"), title)
  }

  /** The page the marker branch of `build_index_page` writes. */
  function RenderedIndex(template: string, articles: seq<Page>, pagination: Option<Pagination>,
                         blogTitle: Option<string>, siteTitle: string): (r: string)
    requires HasMarkers(template)
    ensures var head := template[..IndexOf(template, StartPattern).value];
      '$' !in head ==> StartsWith(r, head)
  {
    var html := EntriesHtml(articles, EntryTemplate(template));
    var nav := if pagination.Some? then NavHtml(pagination.value) else "";
    RenderedHead(template, html, nav, blogTitle.GetOr(siteTitle));
    FillPlaceholders(Spliced(template, html), nav, blogTitle.GetOr(siteTitle))
  }

  /** Filling in the placeholders keeps the template's text before the start marker when it has no '$'. */
  lemma RenderedHead(template: string, html: string, nav: string, title: string)
    requires HasMarkers(template)
    ensures var head := template[..IndexOf(template, StartPattern).value];
      '$' !in head ==> StartsWith(FillPlaceholders(Spliced(template, html), nav, title), head)
  {
    var start := IndexOf(template, StartPattern).value;
    var end := IndexOf(template, EndPattern).value;
    var head := template[..start];
    var tail := html + template[end + |EndPattern|..];
    if '$' !in head {
      assert Spliced(template, html) == head + tail;
      ReplaceAfterPlain(head, tail, "pagination", nav);
      var rest := ReplaceAll(tail, Placeholder("pagination"), nav);
      ReplaceAfterPlain(head, rest, "title", title);
      assert (head + ReplaceAll(rest, Placeholder("title"), title))[..|head|] == head;
    }
  }

  /** The marker branch of `build_index_page`. */
  method BuildIndexPage(template: string, articles: seq<Page>, pagination: Option<Pagination>,
                        blogTitle: Option<string>, siteTitle: string) returns (page: string)
    requires HasMarkers(template)
    ensures page == RenderedIndex(template, articles, pagination, blogTitle, siteTitle)
  {
    var templateToUse := ChooseEntryTemplate(template);
    var htmlContent := RenderEntries(articles, templateToUse);
    var view := SpliceEntries(template, htmlContent);
    var paginationHtml := "";
    if pagination.Some? {
      paginationHtml := BuildPaginationHtml(pagination.value);
    }
    view := ReplaceAll(view, Placeholder("pagination"), paginationHtml);
    var title := siteTitle;
    if blogTitle.Some? {
      title := blogTitle.value;
    }
    page := ReplaceAll(view, Placeholder("title"), title);
  }

  /** The entry template between the markers, or the default one when that text is blank. */
  method ChooseEntryTemplate(template: string) returns (templateToUse: string)
    requires HasMarkers(template)
    ensures templateToUse == EntryTemplate(template)
  {
    var start := IndexOf(template, StartPattern).value;
    var end := IndexOf(template, EndPattern).value;
    var templateContent := Trim(template[start + |StartPattern|..end]);
    templateToUse := templateContent;
    if Trim(templateContent) == [] {
      templateToUse := DefaultEntryTemplate;
    }
  }

  /** `replace_range` from the start marker through the end marker. */
  method SpliceEntries(template: string, htmlContent: string) returns (view: string)
    requires HasMarkers(template)
    ensures view == Spliced(template, htmlContent)
  {
    var start := IndexOf(template, StartPattern).value;
    var end := IndexOf(template, EndPattern).value;
    view := template[..start] + htmlContent + template[end + |EndPattern|..];
  }

  /** The loop of `build_index_page` filling in the entry template for each article. */
  method RenderEntries(articles: seq<Page>, entry: string) returns (htmlContent: string)
    ensures htmlContent == EntriesHtml(articles, entry)
  {
    htmlContent := "";
    for i := 0 to |articles|
      invariant htmlContent == EntriesHtml(articles[..i], entry)
    {
      EntriesHtmlSnoc(articles, i, entry);
      htmlContent := htmlContent + Apply(articles[i], entry) + "\n";
    }
    assert articles[..|articles|] == articles;
  }

  /** One more article adds its filled-in template and a newline. */
  lemma EntriesHtmlSnoc(articles: seq<Page>, i: nat, entry: string)
    requires i < |articles|
    ensures EntriesHtml(articles[..i + 1], entry) == EntriesHtml(articles[..i], entry) + Apply(articles[i], entry) + "\n"
  {
    var p := articles[..i + 1];
    assert p[..|p| - 1] == articles[..i] && p[|p| - 1] == articles[i];
  }

  /** The entries of two runs of articles are the entries of the first, then of the second. */
  lemma {:induction false} EntriesHtmlAppend(a: seq<Page>, b: seq<Page>, entry: string)
    ensures EntriesHtml(a + b, entry) == EntriesHtml(a, entry) + EntriesHtml(b, entry)
    decreases |b|
  {
    if b == [] {
      assert a + b == a;
    } else {
      var n := |b| - 1;
      assert (a + b)[..|a + b| - 1] == a + b[..n];
      EntriesHtmlAppend(a, b[..n], entry);
      ConcatAssoc(EntriesHtml(a, entry), EntriesHtml(b[..n], entry), Apply(b[n], entry), "\n");
    }
  }

  /** The entries of consecutive pages, one page after another. */
  function PagesEntries(chunks: seq<seq<Page>>, entry: string): string {
    if chunks == [] then "" else EntriesHtml(chunks[0], entry) + PagesEntries(chunks[1..], entry)
  }

  /**
   * Paginating loses and repeats nothing: the entries the pages show, read page
   * after page, are the entries of the whole listing.
   */
  lemma {:induction false} PagesEntriesFlatten(chunks: seq<seq<Page>>, entry: string)
    ensures PagesEntries(chunks, entry) == EntriesHtml(Flatten(chunks), entry)
  {
    if chunks != [] {
      PagesEntriesFlatten(chunks[1..], entry);
      EntriesHtmlAppend(chunks[0], Flatten(chunks[1..]), entry);
    }
  }

  /**
   * The splice keeps the template in front of the start marker and behind the end
   * marker, and puts the entries in between.
   */
  lemma SplicedParts(template: string, html: string)
    requires HasMarkers(template)
    ensures var start := IndexOf(template, StartPattern).value;
      var end := IndexOf(template, EndPattern).value;
      var r := Spliced(template, html);
      && |r| == |template| - (end + |EndPattern| - start) + |html|
      && r[..start] == template[..start]
      && r[start..start + |html|] == html
      && r[start + |html|..] == template[end + |EndPattern|..]
  {
  }

  /** The last character of `s`, if any, is in neither placeholder the index page fills in. */
  predicate EndsOutsidePlaceholders(s: string) {
    s == [] || (s[|s| - 1] !in Placeholder("pagination") && s[|s| - 1] !in Placeholder("title"))
  }

  /** Text without '$' has nothing to fill in. */
  lemma FillPlain(s: string, nav: string, title: string)
    requires '$' !in s
    ensures FillPlaceholders(s, nav, title) == s
  {
    ReplaceInPlain(s, "pagination", nav);
    ReplaceInPlain(s, "title", title);
  }

  /** Filling in works part by part when the left part ends outside the placeholders. */
  lemma FillAppend(a: string, b: string, nav: string, title: string)
    requires EndsOutsidePlaceholders(a)
    ensures FillPlaceholders(a + b, nav, title) == FillPlaceholders(a, nav, title) + FillPlaceholders(b, nav, title)
  {
    if a == [] {
      assert a + b == b;
      FillPlain(a, nav, title);
    } else {
      ReplaceTwiceAppend(a, b, Placeholder("pagination"), nav, Placeholder("title"), title);
    }
  }

  /** The two names filled in start with different letters and hold no '$'. */
  lemma FilledNames()
    ensures '$' !in "title" && '$' !in "pagination"
    ensures "title" != [] && "pagination" != [] && "title"[0] != "pagination"[0]
  {
  }

  /** The pagination placeholder behind text without '$' becomes the navigation. */
  lemma FillPagination(x: string, y: string, nav: string, title: string)
    requires '$' !in x && '$' !in nav
    ensures FillPlaceholders(x + Placeholder("pagination") + y, nav, title)
      == x + nav + FillPlaceholders(y, nav, title)
  {
    ReplacePlaceholderHere(x, "pagination", y, nav);
    assert '$' !in x + nav;
    ReplaceAfterPlain(x + nav, ReplaceAll(y, Placeholder("pagination"), nav), "title", title);
  }

  /** The title placeholder behind text without '$' becomes the title. */
  lemma FillTitle(x: string, y: string, nav: string, title: string)
    requires '$' !in x
    ensures FillPlaceholders(x + Placeholder("title") + y, nav, title)
      == x + title + FillPlaceholders(y, nav, title)
  {
    FilledNames();
    ReplacePlaceholderOther(x, "title", y, "pagination", nav);
    ReplacePlaceholderHere(x, "title", ReplaceAll(y, Placeholder("pagination"), nav), title);
  }

  /** A pattern whose first character does not recur in it occurs first right after a prefix free of it. */
  lemma FirstAfter(pre: string, p: string, post: string)
    requires p != [] && !IsInfix(p, pre)
    requires forall j :: 0 < j < |p| ==> p[j] != p[0]
    ensures IndexOf(pre + p + post, p) == Some(|pre|)
  {
    var s := pre + p + post;
    assert s[|pre|..|pre| + |p|] == p;
    forall i: nat | i < |pre|
      ensures !OccursAt(s, p, i)
    {
      if i + |p| <= |pre| {
        assert s[i..i + |p|] == pre[i..i + |p|];
        assert !OccursAt(pre, p, i);
      } else if i + |p| <= |s| {
        assert s[i..i + |p|][|pre| - i] == s[|pre|] == p[0];
      }
    }
    IndexOfFirst(s, p, |pre|);
  }

  /** Both markers open with '<', which does not recur in them; only the start marker's `_` is at index 10. */
  lemma MarkerShapes()
    ensures forall j :: 0 < j < |StartPattern| ==> StartPattern[j] != StartPattern[0]
    ensures forall j :: 0 < j < |EndPattern| ==> EndPattern[j] != EndPattern[0]
    ensures forall j :: 0 <= j < |StartPattern| && StartPattern[j] == '_' ==> j == 10
    ensures |EndPattern| == 20 && EndPattern[0] == '<' && EndPattern[8] == '_' && StartPattern[2] == '-'
    ensures '_' in StartPattern
  {
  }

  /** Two patterns, each occurring first right after what precedes it. */
  lemma PatternsAt(head: string, sp: string, inner: string, ep: string, tail: string)
    requires sp != [] && ep != [] && !IsInfix(sp, head) && !IsInfix(ep, head + sp + inner)
    requires forall j :: 0 < j < |sp| ==> sp[j] != sp[0]
    requires forall j :: 0 < j < |ep| ==> ep[j] != ep[0]
    ensures IndexOf(head + sp + inner + ep + tail, sp) == Some(|head|)
    ensures IndexOf(head + sp + inner + ep + tail, ep) == Some(|head| + |sp| + |inner|)
  {
    ConcatAssoc(head + sp, inner, ep, tail);
    FirstAfter(head, sp, inner + ep + tail);
    FirstAfter(head + sp + inner, ep, tail);
  }

  /**
   * A template made of `head`, the start marker, `inner`, the end marker and `tail`,
   * where neither marker occurs earlier, has its markers exactly there.
   */
  lemma MarkersAt(head: string, inner: string, tail: string)
    requires !IsInfix(StartPattern, head) && !IsInfix(EndPattern, head + StartPattern + inner)
    ensures var template := head + StartPattern + inner + EndPattern + tail;
      && IndexOf(template, StartPattern) == Some(|head|)
      && IndexOf(template, EndPattern) == Some(|head| + |StartPattern| + |inner|)
  {
    MarkerShapes();
    PatternsAt(head, StartPattern, inner, EndPattern, tail);
  }

  /** The pieces of a five-part text, read back by position. */
  lemma FivePartSlices(head: string, sp: string, inner: string, ep: string, tail: string)
    ensures var t := head + sp + inner + ep + tail;
      && t[..|head|] == head
      && t[|head| + |sp|..|head| + |sp| + |inner|] == inner
      && t[|head| + |sp| + |inner| + |ep|..] == tail
  {
  }

  /**
   * The template as the splice sees it: the text before the start marker, and after
   * the end marker, with the entries between them.
   */
  lemma SplicedAt(head: string, inner: string, tail: string, html: string)
    requires !IsInfix(StartPattern, head) && !IsInfix(EndPattern, head + StartPattern + inner)
    ensures HasMarkers(head + StartPattern + inner + EndPattern + tail)
    ensures Spliced(head + StartPattern + inner + EndPattern + tail, html) == head + html + tail
    ensures EntryTemplate(head + StartPattern + inner + EndPattern + tail)
      == if Trim(inner) == [] then DefaultEntryTemplate else Trim(inner)
  {
    var template := head + StartPattern + inner + EndPattern + tail;
    MarkersAt(head, inner, tail);
    FivePartSlices(head, StartPattern, inner, EndPattern, tail);
    var start := IndexOf(template, StartPattern).value;
    var end := IndexOf(template, EndPattern).value;
    assert template[start + |StartPattern|..end] == inner;
    TrimIdempotent(inner);
    EntryTemplateOf(template, Trim(inner));
  }

  /** The entry template, given the trimmed text between the markers. */
  lemma EntryTemplateOf(template: string, content: string)
    requires HasMarkers(template)
    requires content == Trim(template[IndexOf(template, StartPattern).value + |StartPattern|..IndexOf(template, EndPattern).value])
    requires Trim(content) == content
    ensures EntryTemplate(template) == if content == [] then DefaultEntryTemplate else content
  {
  }

  /** A newline is in neither placeholder. */
  lemma NewlineOutside()
    ensures '\n' !in Placeholder("pagination") && '\n' !in Placeholder("title")
  {
  }

  /** Appending text that ends with a newline, or nothing, keeps the end outside the placeholders. */
  lemma EndsOutsideNewline(a: string, b: string)
    requires EndsOutsidePlaceholders(a) && (b == [] || b[|b| - 1] == '\n')
    ensures EndsOutsidePlaceholders(a + b)
  {
    NewlineOutside();
    if b == [] {
      assert a + b == a;
    }
  }

  /** The entries end with a newline, unless there are none. */
  lemma EntriesHtmlEnd(articles: seq<Page>, entry: string)
    ensures var html := EntriesHtml(articles, entry); html == [] || html[|html| - 1] == '\n'
  {
  }

  /** Filling in a head, entries ending with a newline, and a tail, part by part. */
  lemma FillThree(head: string, html: string, tail: string, nav: string, title: string)
    requires EndsOutsidePlaceholders(head) && (html == [] || html[|html| - 1] == '\n')
    ensures FillPlaceholders(head + html + tail, nav, title)
      == FillPlaceholders(head, nav, title) + FillPlaceholders(html, nav, title) + FillPlaceholders(tail, nav, title)
  {
    FillAppend(head, html, nav, title);
    EndsOutsideNewline(head, html);
    FillAppend(head + html, tail, nav, title);
  }

  /**
   * The marker branch piece by piece: for a template whose markers first occur around
   * `inner`, the page is the text before the start marker, each article's entry with
   * a newline, and the text after the end marker, each filled in on its own.
   */
  lemma RenderedIndexParts(head: string, inner: string, tail: string, articles: seq<Page>,
                           pagination: Option<Pagination>, blogTitle: Option<string>, siteTitle: string)
    requires !IsInfix(StartPattern, head) && !IsInfix(EndPattern, head + StartPattern + inner)
    requires EndsOutsidePlaceholders(head)
    ensures var template := head + StartPattern + inner + EndPattern + tail;
      var entry := if Trim(inner) == [] then DefaultEntryTemplate else Trim(inner);
      var nav := if pagination.Some? then NavHtml(pagination.value) else "";
      var title := blogTitle.GetOr(siteTitle);
      && HasMarkers(template)
      && EntryTemplate(template) == entry
      && RenderedIndex(template, articles, pagination, blogTitle, siteTitle)
        == FillPlaceholders(head, nav, title) + FillPlaceholders(EntriesHtml(articles, entry), nav, title)
           + FillPlaceholders(tail, nav, title)
  {
    var entry := if Trim(inner) == [] then DefaultEntryTemplate else Trim(inner);
    EntriesHtmlEnd(articles, entry);
    SplicedFilled(head, inner, tail, EntriesHtml(articles, entry),
                  if pagination.Some? then NavHtml(pagination.value) else "", blogTitle.GetOr(siteTitle));
  }

  /** The splice of entries ending with a newline, filled in part by part. */
  lemma SplicedFilled(head: string, inner: string, tail: string, html: string, nav: string, title: string)
    requires !IsInfix(StartPattern, head) && !IsInfix(EndPattern, head + StartPattern + inner)
    requires EndsOutsidePlaceholders(head) && (html == [] || html[|html| - 1] == '\n')
    ensures var template := head + StartPattern + inner + EndPattern + tail;
      && HasMarkers(template)
      && EntryTemplate(template) == (if Trim(inner) == [] then DefaultEntryTemplate else Trim(inner))
      && FillPlaceholders(Spliced(template, html), nav, title)
         == FillPlaceholders(head, nav, title) + FillPlaceholders(html, nav, title) + FillPlaceholders(tail, nav, title)
  {
    SplicedAt(head, inner, tail, html);
    FillThree(head, html, tail, nav, title);
  }

  /** A character of a three-part text, read from the part it falls in. */
  lemma CharOfThree(a: string, b: string, c: string, n: nat)
    requires n < |a + b + c|
    ensures (a + b + c)[n] == if n < |a| then a[n] else if n < |a| + |b| then b[n - |a|] else c[n - |a| - |b|]
  {
  }

  /** Around a start marker, text without `_` holds no end marker. */
  lemma EndMarkerNotIn(x: string, y: string)
    requires '_' !in x && '_' !in y
    ensures !IsInfix(EndPattern, x + StartPattern + y)
  {
    var s := x + StartPattern + y;
    MarkerShapes();
    forall i: nat
      ensures !OccursAt(s, EndPattern, i)
    {
      if i + |EndPattern| <= |s| {
        var w := s[i..i + |EndPattern|];
        assert w[0] == s[i] && w[8] == s[i + 8];
        CharOfThree(x, StartPattern, y, i + 8);
        CharOfThree(x, StartPattern, y, i);
      }
    }
  }

  /** The entries hold each article's filled-in entry. */
  lemma {:induction false} EntryInEntries(articles: seq<Page>, entry: string, k: nat)
    requires k < |articles|
    ensures IsInfix(Apply(articles[k], entry), EntriesHtml(articles, entry))
  {
    var init := articles[..|articles| - 1];
    var e := Apply(articles[|articles| - 1], entry);
    if k == |articles| - 1 {
      InfixMiddle(EntriesHtml(init, entry), e, "\n");
    } else {
      assert articles[k] == init[k];
      EntryInEntries(init, entry, k);
      InfixLeft(Apply(articles[k], entry), EntriesHtml(init, entry), e);
      InfixLeft(Apply(articles[k], entry), EntriesHtml(init, entry) + e, "\n");
    }
  }

  /** Entries filled in from an entry showing title and description hold no '$'. */
  lemma {:induction false} EntriesWithout(articles: seq<Page>, a0: string, a1: string, a2: string)
    requires '$' !in a0 && '$' !in a1 && '$' !in a2
    requires forall k :: 0 <= k < |articles| ==> '$' !in Trim(articles[k].title) && '$' !in Trim(articles[k].description)
    ensures '$' !in EntriesHtml(articles, a0 + Placeholder("title") + a1 + Placeholder("description") + a2)
  {
    if articles != [] {
      var init := articles[..|articles| - 1];
      assert forall k :: 0 <= k < |init| ==> init[k] == articles[k];
      EntriesWithout(init, a0, a1, a2);
      ApplyTitleDescription(articles[|articles| - 1], a0, a1, a2);
    }
  }

  /** A character outside a placeholder's name and its fixed frame is outside the placeholder. */
  lemma PlaceholderWithout(name: string, c: char)
    requires c !in name && c !in "$GENERETO['" && c !in "']"
    ensures c !in Placeholder(name)
  {
  }

  /** The placeholders filled in on the index page hold no `_`, and the title and pagination no `>`. */
  lemma PlaceholdersWithoutUnderscore()
    ensures '_' !in Placeholder("title") && '_' !in Placeholder("description")
    ensures '>' !in Placeholder("title") && '>' !in Placeholder("pagination")
  {
    PlaceholderWithout("title", '_');
    PlaceholderWithout("description", '_');
    PlaceholderWithout("title", '>');
    PlaceholderWithout("pagination", '>');
  }

  /**
   * An index template that shows the title between `hd` and `hc` in front of the start
   * marker, and between the markers an `entry` with each article's title and description:
   * the page begins with that text, the title filled in, followed by the entries.
   */
  lemma TitleDescriptionPage(hd: string, hc: string, a0: string, a1: string, a2: string, tl: string,
                             entry: string, inner: string, articles: seq<Page>,
                             pagination: Option<Pagination>, blogTitle: Option<string>, siteTitle: string)
    requires '$' !in hd && '$' !in hc && '$' !in a0 && '$' !in a1 && '$' !in a2
    requires '_' !in hd && '_' !in hc && '_' !in a0 && '_' !in a1 && '_' !in a2
    requires hc != [] && hc[|hc| - 1] == '>'
    requires a0 != [] && !IsSpace(a0[0]) && a2 != [] && !IsSpace(a2[|a2| - 1])
    requires entry == a0 + Placeholder("title") + a1 + Placeholder("description") + a2
    requires inner == "\n" + entry + "\n"
    requires forall k :: 0 <= k < |articles| ==> '$' !in Trim(articles[k].title) && '$' !in Trim(articles[k].description)
    ensures var template := (hd + Placeholder("title") + hc) + StartPattern + inner + EndPattern + tl;
      && HasMarkers(template)
      && EntryTemplate(template) == entry
      && RenderedIndex(template, articles, pagination, blogTitle, siteTitle)
           == hd + blogTitle.GetOr(siteTitle) + hc + EntriesHtml(articles, entry)
              + FillPlaceholders(tl, if pagination.Some? then NavHtml(pagination.value) else "", blogTitle.GetOr(siteTitle))
  {
    TitleDescriptionTemplate(hd, hc, a0, a1, a2, entry, inner);
    EntriesFilled(a0, a1, a2, articles,
                  if pagination.Some? then NavHtml(pagination.value) else "", blogTitle.GetOr(siteTitle));
    TitledPage(hd, hc, inner, entry, tl, articles, pagination, blogTitle, siteTitle);
  }

  /** A page whose head shows the title and whose entries have nothing left to fill in. */
  lemma TitledPage(hd: string, hc: string, inner: string, entry: string, tl: string,
                   articles: seq<Page>, pagination: Option<Pagination>,
                   blogTitle: Option<string>, siteTitle: string)
    requires '$' !in hd && '$' !in hc
    requires !IsInfix(StartPattern, hd + Placeholder("title") + hc)
    requires !IsInfix(EndPattern, hd + Placeholder("title") + hc + StartPattern + inner)
    requires EndsOutsidePlaceholders(hd + Placeholder("title") + hc)
    requires Trim(inner) == entry && entry != []
    requires var html := EntriesHtml(articles, entry);
      FillPlaceholders(html, if pagination.Some? then NavHtml(pagination.value) else "", blogTitle.GetOr(siteTitle)) == html
    ensures var template := (hd + Placeholder("title") + hc) + StartPattern + inner + EndPattern + tl;
      && HasMarkers(template)
      && EntryTemplate(template) == entry
      && RenderedIndex(template, articles, pagination, blogTitle, siteTitle)
           == hd + blogTitle.GetOr(siteTitle) + hc + EntriesHtml(articles, entry)
              + FillPlaceholders(tl, if pagination.Some? then NavHtml(pagination.value) else "", blogTitle.GetOr(siteTitle))
  {
    var nav := if pagination.Some? then NavHtml(pagination.value) else "";
    var title := blogTitle.GetOr(siteTitle);
    RenderedIndexParts(hd + Placeholder("title") + hc, inner, tl, articles, pagination, blogTitle, siteTitle);
    FillTitle(hd, hc, nav, title);
    FillPlain(hc, nav, title);
  }

  /** The pieces of that template meet what `RenderedIndexParts` asks of them. */
  lemma TitleDescriptionTemplate(hd: string, hc: string, a0: string, a1: string, a2: string,
                                 entry: string, inner: string)
    requires '_' !in hd && '_' !in hc && '_' !in a0 && '_' !in a1 && '_' !in a2
    requires hc != [] && hc[|hc| - 1] == '>'
    requires a0 != [] && !IsSpace(a0[0]) && a2 != [] && !IsSpace(a2[|a2| - 1])
    requires entry == a0 + Placeholder("title") + a1 + Placeholder("description") + a2
    requires inner == "\n" + entry + "\n"
    ensures !IsInfix(StartPattern, hd + Placeholder("title") + hc)
    ensures !IsInfix(EndPattern, hd + Placeholder("title") + hc + StartPattern + inner)
    ensures EndsOutsidePlaceholders(hd + Placeholder("title") + hc)
    ensures Trim(inner) == entry && entry != []
  {
    TitleHead(hd, hc);
    TitleDescriptionEntry(a0, a1, a2, entry, inner);
    EndMarkerNotIn(hd + Placeholder("title") + hc, inner);
  }

  /** Text in front of the start marker showing the title, with no `_` and ending in `>`. */
  lemma TitleHead(hd: string, hc: string)
    requires '_' !in hd && '_' !in hc
    requires hc != [] && hc[|hc| - 1] == '>'
    ensures '_' !in hd + Placeholder("title") + hc
    ensures !IsInfix(StartPattern, hd + Placeholder("title") + hc)
    ensures EndsOutsidePlaceholders(hd + Placeholder("title") + hc)
  {
    var head := hd + Placeholder("title") + hc;
    PlaceholdersWithoutUnderscore();
    NotInConcat(hd, Placeholder("title"), '_');
    NotInConcat(hd + Placeholder("title"), hc, '_');
    MarkerShapes();
    NotInfixByChar(StartPattern, head, '_');
    assert head[|head| - 1] == hc[|hc| - 1];
  }

  /** An entry showing title and description, padded with newlines, trims back to itself. */
  lemma TitleDescriptionEntry(a0: string, a1: string, a2: string, entry: string, inner: string)
    requires '_' !in a0 && '_' !in a1 && '_' !in a2
    requires a0 != [] && !IsSpace(a0[0]) && a2 != [] && !IsSpace(a2[|a2| - 1])
    requires entry == a0 + Placeholder("title") + a1 + Placeholder("description") + a2
    requires inner == "\n" + entry + "\n"
    ensures '_' !in inner && Trim(inner) == entry && entry != []
  {
    PlaceholdersWithoutUnderscore();
    NotInConcat(a0, Placeholder("title"), '_');
    NotInConcat(a0 + Placeholder("title"), a1, '_');
    NotInConcat(a0 + Placeholder("title") + a1, Placeholder("description"), '_');
    NotInConcat(a0 + Placeholder("title") + a1 + Placeholder("description"), a2, '_');
    NotInConcat("\n", entry, '_');
    NotInConcat("\n" + entry, "\n", '_');
    assert entry[0] == a0[0];
    assert entry[|entry| - 1] == a2[|a2| - 1];
    TrimPadded(entry);
  }

  /** A character in neither part is not in their concatenation. */
  lemma NotInConcat(a: string, b: string, c: char)
    requires c !in a && c !in b
    ensures c !in a + b
  {
  }

  /** Entries filled in from an entry showing title and description hold no placeholder left to fill. */
  lemma EntriesFilled(a0: string, a1: string, a2: string, articles: seq<Page>, nav: string, title: string)
    requires '$' !in a0 && '$' !in a1 && '$' !in a2
    requires forall k :: 0 <= k < |articles| ==> '$' !in Trim(articles[k].title) && '$' !in Trim(articles[k].description)
    ensures var html := EntriesHtml(articles, a0 + Placeholder("title") + a1 + Placeholder("description") + a2);
      FillPlaceholders(html, nav, title) == html
  {
    var entry := a0 + Placeholder("title") + a1 + Placeholder("description") + a2;
    EntriesWithout(articles, a0, a1, a2);
    FillPlain(EntriesHtml(articles, entry), nav, title);
  }

  /** In that template, every article's entry shows its trimmed title and description in place. */
  lemma TitleDescriptionEntries(a0: string, a1: string, a2: string, articles: seq<Page>, k: nat)
    requires '$' !in a0 && '$' !in a1 && '$' !in a2
    requires k < |articles| && '$' !in Trim(articles[k].title) && '$' !in Trim(articles[k].description)
    ensures IsInfix(a0 + Trim(articles[k].title) + a1 + Trim(articles[k].description) + a2,
                    EntriesHtml(articles, a0 + Placeholder("title") + a1 + Placeholder("description") + a2))
  {
    ApplyTitleDescription(articles[k], a0, a1, a2);
    EntryInEntries(articles, a0 + Placeholder("title") + a1 + Placeholder("description") + a2, k);
  }

  // ---------------------------------------------------------------------------
  // Gathering the articles

  /** An entry of the blog folder, with the page compiled from it when it is markdown. */
  datatype Entry = Directory | MarkdownFile(page: Page, dest: string) | OtherFile

  /** A markdown entry goes into the list unless it is a draft under the hide policy. */
  predicate Published(e: Entry, opts: DraftsOptions) {
    e.MarkdownFile? && !(e.page.isDraft && opts.Hide?)
  }

  function Contribution(e: Entry, opts: DraftsOptions): seq<Page> {
    if Published(e, opts) then [e.page] else []
  }

  function WrittenBy(e: Entry, opts: DraftsOptions): seq<string> {
    if Published(e, opts) then [e.dest] else []
  }

  /** The pages the folder contributes, in the order its entries are read. */
  function FolderArticles(entries: seq<Entry>, opts: DraftsOptions): seq<Page> {
    if entries == [] then []
    else FolderArticles(entries[..|entries| - 1], opts) + Contribution(entries[|entries| - 1], opts)
  }

  /** The files the folder's pages are written to, when single pages are generated. */
  function FolderWrites(entries: seq<Entry>, opts: DraftsOptions): seq<string> {
    if entries == [] then []
    else FolderWrites(entries[..|entries| - 1], opts) + WrittenBy(entries[|entries| - 1], opts)
  }

  /**
   * The loop of `build_articles` once the pages are compiled: manifest entries first,
   * then the folder's markdown pages, a draft under the hide policy neither written
   * nor returned.
   */
  method BuildArticles(manifest: seq<Page>, entries: seq<Entry>, opts: DraftsOptions, singlePages: bool)
    returns (articles: seq<Page>, written: seq<string>)
    ensures articles == manifest + FolderArticles(entries, opts)
    ensures written == if singlePages then FolderWrites(entries, opts) else []
  {
    articles := [];
    for i := 0 to |manifest|
      invariant articles == manifest[..i]
    {
      articles := articles + [manifest[i]];
    }
    written := [];
    for i := 0 to |entries|
      invariant articles == manifest + FolderArticles(entries[..i], opts)
      invariant written == if singlePages then FolderWrites(entries[..i], opts) else []
    {
      assert entries[..i + 1][..i] == entries[..i];
      var entry := entries[i];
      if entry.MarkdownFile? {
        var metadata := entry.page;
        if metadata.isDraft && opts.Hide? {
          continue;
        }
        if singlePages {
          written := written + [entry.dest];
        }
        articles := articles + [metadata];
      }
    }
    assert entries[..|entries|] == entries;
  }

  /** The folder contributes exactly the pages of its published entries, in order. */
  lemma {:induction false} FolderArticlesSpec(entries: seq<Entry>, opts: DraftsOptions)
    ensures var r := FolderArticles(entries, opts);
      && (forall m :: m in r ==> exists i :: 0 <= i < |entries| && Published(entries[i], opts) && entries[i].page == m)
      && (forall i :: 0 <= i < |entries| && Published(entries[i], opts) ==> entries[i].page in r)
  {
    if entries != [] {
      var n := |entries| - 1;
      var pre, r := entries[..n], FolderArticles(entries, opts);
      FolderArticlesSpec(pre, opts);
      assert r == FolderArticles(pre, opts) + Contribution(entries[n], opts);
      forall m | m in r
        ensures exists i :: 0 <= i < |entries| && Published(entries[i], opts) && entries[i].page == m
      {
        if m in FolderArticles(pre, opts) {
          var i :| 0 <= i < |pre| && Published(pre[i], opts) && pre[i].page == m;
          assert pre[i] == entries[i];
        } else {
          assert Published(entries[n], opts) && entries[n].page == m;
        }
      }
      forall i | 0 <= i < |entries| && Published(entries[i], opts)
        ensures entries[i].page in r
      {
        if i < n {
          assert pre[i] == entries[i];
        }
      }
    }
  }

  /** The files written are exactly those of the published entries. */
  lemma {:induction false} FolderWritesSpec(entries: seq<Entry>, opts: DraftsOptions)
    ensures forall d :: d in FolderWrites(entries, opts) ==>
      exists i :: 0 <= i < |entries| && Published(entries[i], opts) && entries[i].dest == d
    ensures forall i :: 0 <= i < |entries| && Published(entries[i], opts) ==> entries[i].dest in FolderWrites(entries, opts)
  {
    if entries != [] {
      var n := |entries| - 1;
      FolderWritesSpec(entries[..n], opts);
      forall i | 0 <= i < n
        ensures entries[..n][i] == entries[i]
      {
      }
    }
  }

  /** The articles `generate_blog` lists: gathered, sorted newest first, then filtered. */
  function Listing(manifest: seq<Page>, entries: seq<Entry>, opts: DraftsOptions): seq<Page> {
    ListedArticles(SortByDate(manifest + FolderArticles(entries, opts)), opts)
  }

  /** Outside dev mode no draft is listed, whether it comes from the manifest or the folder. */
  lemma DraftsUnlisted(manifest: seq<Page>, entries: seq<Entry>, opts: DraftsOptions)
    requires !opts.Dev?
    ensures forall m :: m in Listing(manifest, entries, opts) ==> !m.isDraft
  {
    var r := Listing(manifest, entries, opts);
    ListedArticlesSpec(SortByDate(manifest + FolderArticles(entries, opts)), opts);
    forall m | m in r
      ensures !m.isDraft
    {
      var i :| 0 <= i < |r| && r[i] == m;
    }
  }

  /** Under the hide policy a draft of the folder is neither returned nor written. */
  lemma DraftsHidden(entries: seq<Entry>, i: nat)
    requires i < |entries| && entries[i].MarkdownFile? && entries[i].page.isDraft
    ensures entries[i].page !in FolderArticles(entries, Hide)
    ensures forall d :: d in FolderWrites(entries, Hide) ==>
      exists k :: 0 <= k < |entries| && entries[k].MarkdownFile? && !entries[k].page.isDraft && entries[k].dest == d
  {
    FolderArticlesSpec(entries, Hide);
    FolderWritesSpec(entries, Hide);
  }

  /** In dev mode every markdown page of the folder but the error page is listed, drafts included. */
  lemma DevListsDrafts(manifest: seq<Page>, entries: seq<Entry>, i: nat)
    requires i < |entries| && entries[i].MarkdownFile? && entries[i].page.fileName != ErrorPage
    ensures entries[i].page in Listing(manifest, entries, Dev)
  {
    var all := manifest + FolderArticles(entries, Dev);
    var sorted := SortByDate(all);
    var m := entries[i].page;
    FolderArticlesSpec(entries, Dev);
    assert m in all;
    SortByDateSorted(all);
    assert m in multiset(sorted);
    var k :| 0 <= k < |sorted| && sorted[k] == m;
    ListedArticlesSpec(sorted, Dev);
  }

  /** Outside the hide policy every markdown page of the folder is returned and, with single pages on, written. */
  lemma BuildKeepsDrafts(entries: seq<Entry>, opts: DraftsOptions, i: nat)
    requires !opts.Hide? && i < |entries| && entries[i].MarkdownFile?
    ensures entries[i].page in FolderArticles(entries, opts)
    ensures entries[i].dest in FolderWrites(entries, opts)
  {
    FolderArticlesSpec(entries, opts);
    FolderWritesSpec(entries, opts);
  }
}
