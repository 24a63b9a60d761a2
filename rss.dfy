/**
 * The RSS feed's item list: one item per published article, in order, linked under
 * the site's url and dated in the date-time form of section 5 of RFC 822.
 */
module Rss {
  import opened Wrappers
  import opened Strings
  import opened Seqs
  import opened Dates
  import opened PageMetadata
  import opened Blog

  /** The four item fields the generator fills in. */
  datatype Item = Item(title: string, link: string, description: string, pubDate: string)

  /** Drafts and the error page are not syndicated. */
  function InFeed(m: Page): bool {
    !(m.isDraft || m.fileName == "error.html")
  }

  /**
   * `get_complaint_date`: a `YYYY-MM-DD` date becomes its RFC 822 date-time at
   * midnight UTC; any other text is passed through unchanged.
   */
  function ComplaintDate(date: string): (r: string)
    ensures ParseIsoDate(date).None? ==> r == date
    ensures ParseIsoDate(date).Some? ==> |r| == 29 && r[16..] == " 00:00:00 UTC"
  {
    match ParseIsoDate(date)
    case Some(d) => Rfc822Shape(d); Rfc822(d)
    case None => date
  }

  /** The item of one article. */
  function ItemOf(url: string, m: Page): Item {
    Item(m.title, url + "/" + m.fileName, m.description, ComplaintDate(m.publishDate))
  }

  /** `articles_to_items`: filter the feed's articles, then map each to its item. */
  function ArticlesToItems(url: string, articles: seq<Page>): (r: seq<Item>)
    ensures |r| <= |articles|
    ensures (forall j :: 0 <= j < |articles| ==> InFeed(articles[j]))
      ==> |r| == |articles| && forall i :: 0 <= i < |r| ==> r[i] == ItemOf(url, articles[i])
    ensures (forall j :: 0 <= j < |articles| ==> !InFeed(articles[j])) ==> r == []
  {
    FilterKeepsAll(articles, InFeed);
    FilterDropsAll(articles, InFeed);
    var feed := Filter(articles, InFeed);
    seq(|feed|, i requires 0 <= i < |feed| => ItemOf(url, feed[i]))
  }

  // ---------------------------------------------------------------------------
  // Which articles, in which order

  /**
   * There is one item per article in the feed, in the articles' order; each item
   * carries its article's title and description verbatim and links to its file
   * under the site's url; every article that is neither a draft nor the error page
   * has its item.
   */
  lemma ArticlesToItemsSpec(url: string, articles: seq<Page>)
    ensures var items := ArticlesToItems(url, articles);
      var feed := Filter(articles, InFeed);
      && |items| == |feed|
      && (forall i :: 0 <= i < |items| ==>
            && items[i].title == feed[i].title
            && items[i].description == feed[i].description
            && items[i].link == url + "/" + feed[i].fileName
            && items[i].pubDate == ComplaintDate(feed[i].publishDate)
            && !feed[i].isDraft && feed[i].fileName != "error.html"
            && feed[i] in articles)
      && (forall j :: 0 <= j < |articles| && !articles[j].isDraft && articles[j].fileName != "error.html"
            ==> ItemOf(url, articles[j]) in items)
      && IsSubsequence(feed, articles)
  {
    var feed := Filter(articles, InFeed);
    var items := ArticlesToItems(url, articles);
    FilterSpec(articles, InFeed);
    forall j | 0 <= j < |articles| && !articles[j].isDraft && articles[j].fileName != "error.html"
      ensures ItemOf(url, articles[j]) in items
    {
      assert InFeed(articles[j]);
      var k :| 0 <= k < |feed| && feed[k] == articles[j];
      assert items[k] == ItemOf(url, articles[j]);
    }
  }

  /** The feed holds exactly the articles a built index lists. */
  lemma InFeedIsListed(m: Page)
    ensures InFeed(m) <==> Listed(m, Build)
    ensures InFeed(m) <==> Listed(m, Hide)
  {
    assert ErrorPage == "error.html";
  }

  /** The feed's items are those of the articles of a built blog index, before sorting. */
  lemma ItemsOfListedArticles(url: string, articles: seq<Page>)
    ensures ArticlesToItems(url, articles)
      == seq(|ListedArticles(articles, Build)|,
             i requires 0 <= i < |ListedArticles(articles, Build)| => ItemOf(url, ListedArticles(articles, Build)[i]))
  {
    forall m: Page ensures InFeed(m) == (NotErrorPage(m) && Visible(Build)(m)) {
      InFeedIsListed(m);
    }
    FilterFilter(articles, NotErrorPage, Visible(Build), InFeed);
  }

  /** Items of consecutive article lists are consecutive. */
  lemma ArticlesToItemsAppend(url: string, a: seq<Page>, b: seq<Page>)
    ensures ArticlesToItems(url, a + b) == ArticlesToItems(url, a) + ArticlesToItems(url, b)
  {
    FilterAppend(a, b, InFeed);
    ItemsOfFilter(url, a + b);
    ItemsOfFilter(url, a);
    ItemsOfFilter(url, b);
    MapItemsAppend(url, Filter(a, InFeed), Filter(b, InFeed));
  }

  /** The items of articles already filtered, one per article. */
  function MapItems(url: string, feed: seq<Page>): (r: seq<Item>)
    ensures |r| == |feed| && forall i :: 0 <= i < |feed| ==> r[i] == ItemOf(url, feed[i])
  {
    seq(|feed|, i requires 0 <= i < |feed| => ItemOf(url, feed[i]))
  }

  lemma ItemsOfFilter(url: string, articles: seq<Page>)
    ensures ArticlesToItems(url, articles) == MapItems(url, Filter(articles, InFeed))
  {
  }

  lemma MapItemsAppend(url: string, x: seq<Page>, y: seq<Page>)
    ensures MapItems(url, x + y) == MapItems(url, x) + MapItems(url, y)
  {
    var l, r := MapItems(url, x + y), MapItems(url, x) + MapItems(url, y);
    forall i | 0 <= i < |l|
      ensures l[i] == r[i]
    {
      if i < |x| {
        assert (x + y)[i] == x[i];
      } else {
        assert (x + y)[i] == y[i - |x|];
      }
    }
  }

  // ---------------------------------------------------------------------------
  // The publication date

  /** Every valid date with a four-digit year is written in its RFC 822 form. */
  lemma ComplaintDateOfDate(d: Date)
    requires IsValidDate(d) && d.year < 10000
    ensures ComplaintDate(FormatIsoDate(d)) == Rfc822(d)
  {
    ParseFormatRoundTrip(d);
  }

  /**
   * A date that parses is the canonical text of a calendar day, and comes out as
   * a 29-character RFC 822 date-time of that day.
   */
  lemma ComplaintDateConverts(date: string)
    requires ParseIsoDate(date).Some?
    ensures var d := ParseIsoDate(date).value;
      && date == FormatIsoDate(d)
      && ComplaintDate(date) == Rfc822(d)
      && |ComplaintDate(date)| == 29
  {
    FormatParseRoundTrip(date);
    Rfc822Shape(ParseIsoDate(date).value);
  }

  /** Text that is not `DDDD-DD-DD`, a month outside 1..12, or a 30th of February passes through. */
  lemma ComplaintDatePassThrough(date: string)
    ensures !IsIsoShape(date) ==> ComplaintDate(date) == date
    ensures IsIsoShape(date) && !(1 <= DecimalValue(date[5..7]) <= 12) ==> ComplaintDate(date) == date
    ensures IsIsoShape(date) && DecimalValue(date[5..7]) == 2 && DecimalValue(date[8..]) > 29
      ==> ComplaintDate(date) == date
  {
  }

  /**
   * The layout of the RFC 822 date-time: weekday name, comma, two-digit day,
   * month name, four-digit year, midnight UTC.
   */
  lemma Rfc822Shape(d: Date)
    requires IsValidDate(d)
    ensures var r := Rfc822(d);
      && |r| == 29
      && r[..3] == WeekdayName(Weekday(d)) && r[3..5] == ", "
      && r[5..7] == FixedDigits(d.day, 2) && r[7] == ' '
      && r[8..11] == MonthName(d.month) && r[11] == ' '
      && r[12..16] == FixedDigits(d.year, 4) && r[16..] == " 00:00:00 UTC"
  {
    var w, dd, mm, yy := WeekdayName(Weekday(d)), FixedDigits(d.day, 2), MonthName(d.month), FixedDigits(d.year, 4);
    assert |w| == 3 && |mm| == 3;
    var r := Rfc822(d);
    assert r == w + ", " + dd + " " + mm + " " + yy + " 00:00:00 UTC";
  }

  lemma MonthNameInjective(m: nat, n: nat)
    requires 1 <= m <= 12 && 1 <= n <= 12
    requires MonthName(m) == MonthName(n)
    ensures m == n
  {
    var names := ["Jan", "Feb", "Mar", "Apr", "May", "Jun", "Jul", "Aug", "Sep", "Oct", "Nov", "Dec"];
    assert MonthName(m) == names[m - 1] && MonthName(n) == names[n - 1];
    assert forall i, j :: 0 <= i < j < 12 ==> names[i] != names[j];
  }

  /** Distinct days with four-digit years get distinct dates in the feed. */
  lemma Rfc822Injective(a: Date, b: Date)
    requires IsValidDate(a) && IsValidDate(b) && a.year < 10000 && b.year < 10000
    requires Rfc822(a) == Rfc822(b)
    ensures a == b
  {
    Rfc822Shape(a);
    Rfc822Shape(b);
    var r := Rfc822(a);
    assert Pow10(4) == 10000 && Pow10(2) == 100;
    ValueOfFixedDigits(a.day, 2);
    ValueOfFixedDigits(b.day, 2);
    ValueOfFixedDigits(a.year, 4);
    ValueOfFixedDigits(b.year, 4);
    MonthNameInjective(a.month, b.month);
  }

  /** Consecutive days are published under consecutive weekday names. */
  lemma ConsecutiveFeedDays(d: Date)
    requires IsValidDate(d) && d.year < 9999
    ensures ComplaintDate(FormatIsoDate(NextDay(d)))[..3] == WeekdayName((Weekday(d) + 1) % 7)
  {
    var e := NextDay(d);
    ComplaintDateOfDate(e);
    Rfc822Shape(e);
    ConsecutiveWeekdays(d);
  }

  /** The source's own example: the 6th of August 2018 was a Monday. */
  lemma ComplaintDateExample()
    ensures ComplaintDate("2018-08-06") == "Mon, 06 Aug 2018 00:00:00 UTC"
  {
    var d := Date(2018, 8, 6);
    ExampleIsoText();
    ComplaintDateOfDate(d);
    ExampleRfc822Text();
  }

  lemma ExampleIsoText()
    ensures FormatIsoDate(Date(2018, 8, 6)) == "2018-08-06"
  {
    ExampleDigits();
    assert "2018" + "-" + "08" + "-" + "06" == "2018-08-06";
  }

  lemma ExampleWeekday()
    ensures IsValidDate(Date(2018, 8, 6)) && Weekday(Date(2018, 8, 6)) == 0
  {
    assert LeapYearsBefore(2018) == 490;
    assert DaysBeforeMonth(2018, 8) == 212;
  }

  lemma ExampleRfc822Text()
    ensures IsValidDate(Date(2018, 8, 6)) && Rfc822(Date(2018, 8, 6)) == "Mon, 06 Aug 2018 00:00:00 UTC"
  {
    ExampleWeekday();
    ExampleDigits();
    ExampleNames();
    ExampleRfc822Join();
  }

  lemma ExampleRfc822Join()
    ensures "Mon" + ", " + "06" + " " + "Aug" + " " + "2018" + " 00:00:00 UTC" == "Mon, 06 Aug 2018 00:00:00 UTC"
  {
  }

  lemma ExampleDigits()
    ensures FixedDigits(2018, 4) == "2018" && FixedDigits(8, 2) == "08" && FixedDigits(6, 2) == "06"
  {
    ExampleYearDigits();
    ExampleTwoDigits(8, '8');
    ExampleTwoDigits(6, '6');
  }

  lemma ExampleYearDigits()
    ensures FixedDigits(2018, 4) == "2018"
  {
    assert FixedDigits(2, 1) == "2";
    assert FixedDigits(20, 2) == "20";
    assert FixedDigits(201, 3) == "201";
  }

  lemma ExampleTwoDigits(d: nat, c: char)
    requires d < 10 && c == DigitChar(d)
    ensures FixedDigits(d, 2) == ['0', c]
  {
    assert FixedDigits(0, 1) == "0";
  }

  lemma ExampleNames()
    ensures WeekdayName(0) == "Mon" && MonthName(8) == "Aug"
  {
  }
}
