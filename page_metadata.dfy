/**
 * The metadata the generator derives for a page from its frontmatter and its
 * markdown body: draft promotion by a to-do marker, reading time, description,
 * table of contents and last modification date, plus the order pages are listed in
 * and the placeholders a page template is filled with.
 */
module PageMetadata {
  import opened Wrappers
  import opened Strings
  import opened Seqs
  import opened Dates
  import opened LineScan
  import opened Headings
  import opened Toc

  /** The length a description is cut to. */
  const DescriptionLength: nat := 150

  /** The marker of a to-do note left in a page. */
  const TodoMarker := "$GENERETO{TODO"

  /** The words per minute the reading time assumes. */
  const ReadingSpeed: nat := 238

  /** The largest `u16`, where the reading time saturates. */
  const MaxReadingTime: nat := 65535

  /** The prefix a draft's title is shown with. */
  const DraftPrefix := "[DRAFT] "

  /** The frontmatter of a page, as written. */
  datatype RawPage = RawPage(
    title: string,
    publishDate: string,
    isDraft: bool,
    keywords: string,
    showTableOfContents: bool,
    description: Option<string>)

  /** A page's metadata once derived from its frontmatter and body. */
  datatype Page = Page(
    title: string,
    publishDate: string,
    isDraft: bool,
    keywords: string,
    readingTimeMins: string,
    description: string,
    fileName: string,
    tableOfContents: string,
    lastModifiedDate: string)

  // ---------------------------------------------------------------------------
  // To-do notes and drafts

  /** `contains_todos`: the body holds a to-do note. */
  function ContainsTodos(content: string): (r: bool)
    ensures r <==> IsInfix(TodoMarker, content)
  {
    Contains(content, TodoMarker)
  }

  // ---------------------------------------------------------------------------
  // Reading time

  /** The length of the run of non-whitespace characters that starts `s`. */
  function WordLength(s: string): (n: nat)
    ensures n <= |s|
    ensures n < |s| ==> IsSpace(s[n])
  {
    if s == [] || IsSpace(s[0]) then 0 else 1 + WordLength(s[1..])
  }

  /** `str::split_whitespace`: the maximal runs of non-whitespace characters, in order. */
  function Words(s: string): (r: seq<string>)
    decreases |s|
  {
    var t := TrimStart(s);
    if t == [] then []
    else
      var n := WordLength(t);
      [t[..n]] + Words(t[n..])
  }

  /** A word in the sense of `split_whitespace`: not empty, no whitespace in it. */
  predicate IsWord(w: string) {
    w != [] && forall i :: 0 <= i < |w| ==> !IsSpace(w[i])
  }

  lemma {:induction false} WordLengthSpec(s: string)
    ensures forall i :: 0 <= i < WordLength(s) ==> !IsSpace(s[i])
  {
    if s != [] && !IsSpace(s[0]) {
      WordLengthSpec(s[1..]);
    }
  }

  /** Every piece `Words` returns is a word. */
  lemma {:induction false} WordsAreWords(s: string)
    ensures forall i :: 0 <= i < |Words(s)| ==> IsWord(Words(s)[i])
    decreases |s|
  {
    var t := TrimStart(s);
    if t != [] {
      var n := WordLength(t);
      var w, rest := t[..n], Words(t[n..]);
      FirstWordIsWord(t);
      WordsAreWords(t[n..]);
      assert Words(s) == [w] + rest;
      forall i | 0 < i < |Words(s)|
        ensures IsWord(Words(s)[i])
      {
        ConsIndex(w, rest, i);
      }
    }
  }

  /** The run that starts text beginning with a non-space is a word. */
  lemma FirstWordIsWord(t: string)
    requires t != [] && !IsSpace(t[0])
    ensures IsWord(t[..WordLength(t)])
  {
    WordLengthSpec(t);
  }

  /** Words separated by single spaces. */
  function JoinWords(ws: seq<string>): string {
    if ws == [] then [] else ws[0] + " " + JoinWords(ws[1..])
  }

  lemma {:induction false} WordLengthOfWord(w: string, rest: string)
    requires forall i :: 0 <= i < |w| ==> !IsSpace(w[i])
    ensures WordLength(w + " " + rest) == |w|
  {
    if w != [] {
      assert (w + " " + rest)[1..] == w[1..] + " " + rest;
      WordLengthOfWord(w[1..], rest);
    }
  }

  /** Leading whitespace separates no word. */
  lemma WordsAfterSpace(rest: string)
    ensures Words(" " + rest) == Words(rest)
  {
    assert (" " + rest)[1..] == rest;
    assert TrimStart(" " + rest) == TrimStart(rest);
  }

  lemma WordsCons(w: string, rest: string)
    requires IsWord(w)
    ensures Words(w + " " + rest) == [w] + Words(rest)
  {
    var s := w + " " + rest;
    assert s[0] == w[0];
    assert TrimStart(s) == s;
    WordLengthOfWord(w, rest);
    assert s[..|w|] == w;
    assert s[|w|..] == " " + rest;
    assert Words(s) == [w] + Words(" " + rest);
    WordsAfterSpace(rest);
  }

  /** Splitting words joined by spaces gives the words back. */
  lemma {:induction false} WordsOfJoinWords(ws: seq<string>)
    requires forall i :: 0 <= i < |ws| ==> IsWord(ws[i])
    ensures Words(JoinWords(ws)) == ws
  {
    if ws == [] {
      assert TrimStart([]) == [];
    } else {
      var w, tail := ws[0], ws[1..];
      var rest := JoinWords(tail);
      assert IsWord(w);
      assert forall i :: 0 <= i < |tail| ==> IsWord(tail[i]) by {
        forall i | 0 <= i < |tail| ensures IsWord(tail[i]) {
          assert tail[i] == ws[i + 1];
        }
      }
      calc {
        Words(JoinWords(ws));
        Words(w + " " + rest);
        { WordsCons(w, rest); }
        [w] + Words(rest);
        { WordsOfJoinWords(tail); }
        [w] + tail;
        ws;
      }
    }
  }

  /** A word counts when it holds a letter; runs of symbols do not. */
  predicate HasLetter(w: string) {
    exists i :: 0 <= i < |w| && IsAsciiAlpha(w[i])
  }

  function WordCount(content: string): nat {
    |Filter(Words(content), HasLetter)|
  }

  /** Whole minutes needed for `words` words, rounded up, saturating at the `u16` maximum. */
  function ReadingMinutes(words: nat): (r: nat)
    ensures r <= MaxReadingTime
  {
    var q := (words + ReadingSpeed - 1) / ReadingSpeed;
    if q > MaxReadingTime then MaxReadingTime else q
  }

  /** `estimate_reading_time`. */
  function EstimateReadingTime(content: string): (r: nat)
    ensures r <= MaxReadingTime
  {
    ReadingMinutes(WordCount(content))
  }

  /**
   * The reading time is the word count divided by the reading speed, rounded up:
   * no words take no time, up to one minute's worth take one minute.
   */
  lemma ReadingMinutesSpec(words: nat)
    ensures ReadingMinutes(words) == 0 <==> words == 0
    ensures 1 <= words <= ReadingSpeed ==> ReadingMinutes(words) == 1
    ensures var r := ReadingMinutes(words);
      r < MaxReadingTime ==> (r - 1) * ReadingSpeed < words <= r * ReadingSpeed
    ensures ReadingMinutes(words) == MaxReadingTime ==> words > (MaxReadingTime - 1) * ReadingSpeed
  {
    var q := (words + ReadingSpeed - 1) / ReadingSpeed;
    assert q * ReadingSpeed <= words + ReadingSpeed - 1 < (q + 1) * ReadingSpeed;
  }

  // ---------------------------------------------------------------------------
  // Description

  /**
   * `truncate_text`: text within the limit is kept; longer text is cut to the limit,
   * then back to its last space if it has one, and marked with "...".
   */
  function Truncated(article: string, limit: nat): (r: string)
    ensures |r| <= limit + 3
    ensures |article| > limit ==> |r| >= 3 && r[|r| - 3..] == "..."
  {
    if |article| <= limit then article
    else
      var cut := article[..limit];
      match LastIndexOfChar(cut, ' ')
      case Some(k) => cut[..k] + "..."
      case None => cut + "..."
  }

  /** What truncation keeps: short text whole, otherwise a prefix up to a word boundary. */
  lemma TruncatedSpec(article: string, limit: nat)
    ensures |article| <= limit ==> Truncated(article, limit) == article
    ensures |article| > limit ==>
      var r := Truncated(article, limit);
      var kept := r[..|r| - 3];
      && |r| >= 3 && r[|r| - 3..] == "..." && |kept| <= limit && article[..|kept|] == kept
      && (' ' in article[..limit] ==> article[|kept|] == ' ' && ' ' !in article[|kept| + 1..limit])
      && (' ' !in article[..limit] ==> |kept| == limit)
  {
    if |article| > limit {
      var cut := article[..limit];
      var r := Truncated(article, limit);
      match LastIndexOfChar(cut, ' ')
      case Some(k) =>
        assert r[..|r| - 3] == cut[..k];
        assert cut[k + 1..] == article[k + 1..limit];
      case None =>
        assert r[..|r| - 3] == cut;
    }
  }

  /** The loop-free body of `truncate_text`, changing its copy of the text step by step. */
  method TruncateText(article: string, limit: nat) returns (truncated: string)
    ensures truncated == Truncated(article, limit)
  {
    truncated := article;
    if |truncated| > limit {
      truncated := truncated[..limit];
      match LastIndexOfChar(truncated, ' ') {
        case Some(lastSpace) =>
          truncated := truncated[..lastSpace];
        case None =>
      }
      truncated := truncated + "...";
    }
  }

  /** What a line adds to the description: a heading its shown text, any other line itself. */
  function DescriptionLine(line: string): string {
    if IsHeading(line) then HeadingText(line) else line
  }

  /** The description text of each line, in order. */
  function DescriptionLines(lines: seq<string>): (r: seq<string>)
    ensures |r| == |lines|
  {
    seq(|lines|, i requires 0 <= i < |lines| => DescriptionLine(lines[i]))
  }

  /**
   * The text the loop of `get_description` collects: pieces are taken one at a time,
   * each with a newline, until the text reaches `limit` characters or they run out.
   */
  function Collected(pieces: seq<string>, limit: nat): string {
    if pieces == [] then ""
    else
      var piece := pieces[0] + "\n";
      if |piece| >= limit then piece else piece + Collected(pieces[1..], limit - |piece|)
  }

  /** How many pieces `Collected` takes. */
  function Consumed(pieces: seq<string>, limit: nat): (n: nat)
    ensures n <= |pieces|
  {
    if pieces == [] then 0
    else if |pieces[0]| + 1 >= limit then 1
    else 1 + Consumed(pieces[1..], limit - (|pieces[0]| + 1))
  }

  /**
   * The collected text is the first pieces, each with its newline; reading stops
   * at the first piece that brings the text to the limit, and not before: every
   * shorter prefix is below the limit.
   */
  lemma {:induction false} CollectedSpec(pieces: seq<string>, limit: nat)
    ensures var n := Consumed(pieces, limit);
      && Collected(pieces, limit) == JoinLines(pieces[..n])
      && (pieces != [] ==> n >= 1)
      && (n < |pieces| ==> |JoinLines(pieces[..n])| >= limit)
      && (forall m :: 1 <= m < n ==> |JoinLines(pieces[..m])| < limit)
  {
    if pieces != [] {
      var p, rest := pieces[0], pieces[1..];
      var n := Consumed(pieces, limit);
      assert pieces[..1] == [p];
      if |p| + 1 < limit {
        var l' := limit - (|p| + 1);
        CollectedSpec(rest, l');
        forall m | 1 <= m <= n
          ensures JoinLines(pieces[..m]) == p + "\n" + JoinLines(rest[..m - 1])
        {
          assert pieces[..m] == [p] + rest[..m - 1];
          assert pieces[..m][1..] == rest[..m - 1];
        }
      }
    }
  }

  /** `get_description`: the text of the lines read, each followed by a newline, then truncated. */
  function Description(article: string, limit: nat): (r: string)
    ensures |r| <= limit + 3
  {
    Truncated(Collected(DescriptionLines(Lines(article)), limit), limit)
  }

  /**
   * One step of `get_description`'s loop: appending a piece and its newline either
   * reaches the limit, and the text is complete, or leaves the rest still to read.
   */
  lemma CollectedStep(pieces: seq<string>, i: nat, buff: string, limit: nat, total: string)
    requires i < |pieces| && |buff| <= limit
    requires buff + Collected(pieces[i..], limit - |buff|) == total
    ensures var next := buff + pieces[i] + "\n";
      && (|next| >= limit ==> next == total)
      && (|next| < limit ==> next + Collected(pieces[i + 1..], limit - |next|) == total)
  {
    assert pieces[i..][0] == pieces[i] && pieces[i..][1..] == pieces[i + 1..];
    var piece := pieces[i] + "\n";
    if |piece| < limit - |buff| {
      assert buff + (piece + Collected(pieces[i + 1..], limit - |buff| - |piece|))
        == buff + piece + Collected(pieces[i + 1..], limit - |buff| - |piece|);
    }
  }

  /** The loop of `get_description`, reading lines until the text reaches the limit. */
  method CollectLines(lines: seq<string>, limit: nat) returns (buff: string)
    ensures buff == Collected(DescriptionLines(lines), limit)
  {
    ghost var total := Collected(DescriptionLines(lines), limit);
    buff := "";
    var i := 0;
    assert DescriptionLines(lines)[i..] == DescriptionLines(lines);
    while i < |lines|
      invariant 0 <= i <= |lines|
      invariant |buff| <= limit
      invariant buff + Collected(DescriptionLines(lines)[i..], limit - |buff|) == total
    {
      var line := lines[i];
      LineStep(lines, i, buff, limit, total);
      buff := buff + DescriptionLine(line);
      buff := buff + "\n";
      i := i + 1;
      if |buff| >= limit {
        break;
      }
    }
    assert i == |lines| ==> DescriptionLines(lines)[i..] == [];
  }

  /** `CollectedStep` for the description text of line `i`. */
  lemma LineStep(lines: seq<string>, i: nat, buff: string, limit: nat, total: string)
    requires i < |lines| && |buff| <= limit
    requires buff + Collected(DescriptionLines(lines)[i..], limit - |buff|) == total
    ensures var next := buff + DescriptionLine(lines[i]) + "\n";
      && (|next| >= limit ==> next == total)
      && (|next| < limit ==> next + Collected(DescriptionLines(lines)[i + 1..], limit - |next|) == total)
  {
    CollectedStep(DescriptionLines(lines), i, buff, limit, total);
  }

  /** `get_description`: collect the lines, then truncate. */
  method GetDescription(article: string, limit: nat) returns (description: string)
    ensures description == Description(article, limit)
  {
    var buff := CollectLines(Lines(article), limit);
    description := TruncateText(buff, limit);
  }

  // ---------------------------------------------------------------------------
  // Order

  /** `partial_cmp`: pages compare by publish date, newest first. */
  function Compare(a: Page, b: Page): (r: Ordering)
    ensures r == CompareStrings(b.publishDate, a.publishDate)
  {
    CompareStringsReverse(a.publishDate, b.publishDate);
    CompareStrings(a.publishDate, b.publishDate).Reverse()
  }

  /** `eq`: pages are equal when published on the same date. */
  predicate SameDate(a: Page, b: Page) {
    a.publishDate == b.publishDate
  }

  /** The order and the equality agree. */
  lemma CompareEqual(a: Page, b: Page)
    ensures Compare(a, b) == Equal <==> SameDate(a, b)
  {
    CompareStringsEqual(a.publishDate, b.publishDate);
  }

  /** Swapping the pages reverses the order. */
  lemma CompareAntisymmetric(a: Page, b: Page)
    ensures Compare(b, a) == Compare(a, b).Reverse()
  {
    CompareStringsReverse(a.publishDate, b.publishDate);
  }

  /** The newest-first order is transitive. */
  lemma CompareTransitive(a: Page, b: Page, c: Page)
    requires Compare(a, b) != Greater && Compare(b, c) != Greater
    ensures Compare(a, c) != Greater
  {
    CompareStringsReverse(a.publishDate, b.publishDate);
    CompareStringsReverse(b.publishDate, c.publishDate);
    CompareStringsReverse(a.publishDate, c.publishDate);
    CompareStringsTransitive(c.publishDate, b.publishDate, a.publishDate);
  }

  // ---------------------------------------------------------------------------
  // Last modification date

  /**
   * What `get_last_modified_date` can read: the date git reports, or else the
   * publish date, is empty or both it and the publish date are `YYYY-MM-DD` dates.
   */
  predicate LastModifiedDefined(publishDate: string, gitDate: Option<string>) {
    var candidate := gitDate.GetOr(publishDate);
    candidate == [] || (ParseIsoDate(candidate).Some? && ParseIsoDate(publishDate).Some?)
  }

  /**
   * `get_last_modified_date` with the answer of git passed in: git's date unless
   * there is none, it is empty, or it is earlier than the publish date.
   */
  function LastModifiedDate(publishDate: string, gitDate: Option<string>): (r: string)
    requires LastModifiedDefined(publishDate, gitDate)
    ensures r == publishDate || (gitDate.Some? && r == gitDate.value)
    ensures gitDate.None? || gitDate.value == [] ==> r == publishDate
    ensures r == publishDate
      || !Before(ParseIsoDate(r).value, ParseIsoDate(publishDate).value)
  {
    var candidate := gitDate.GetOr(publishDate);
    if candidate == [] then publishDate
    else if Before(ParseIsoDate(candidate).value, ParseIsoDate(publishDate).value) then publishDate
    else candidate
  }

  /** A later git date is taken; an earlier one is not. */
  lemma LastModifiedOfGitDate(publishDate: string, git: string)
    requires git != [] && ParseIsoDate(git).Some? && ParseIsoDate(publishDate).Some?
    ensures LastModifiedDate(publishDate, Some(git))
      == if Before(ParseIsoDate(git).value, ParseIsoDate(publishDate).value) then publishDate else git
  {
  }

  /** The last modification date is never before the publish date. */
  lemma LastModifiedNotBeforePublish(publishDate: string, gitDate: Option<string>)
    requires LastModifiedDefined(publishDate, gitDate)
    requires ParseIsoDate(publishDate).Some?
    ensures var r := LastModifiedDate(publishDate, gitDate);
      ParseIsoDate(r).Some? && !Before(ParseIsoDate(r).value, ParseIsoDate(publishDate).value)
  {
    var r := LastModifiedDate(publishDate, gitDate);
    if r == publishDate {
      var d := ParseIsoDate(publishDate).value;
      assert !Before(d, d);
    }
  }

  // ---------------------------------------------------------------------------
  // Template placeholders

  /** The placeholder `$GENERETO['name']`. */
  function Placeholder(name: string): (r: string)
    ensures StartsWith(r, "$GENERETO['")
  {
    "$GENERETO['" + name + "']"
  }

  /**
   * `get_variables`: the name of each placeholder with the value it stands for,
   * title first.
   */
  function Variables(m: Page): (r: seq<(string, string)>)
    ensures |r| == 8 && r[0] == ("title", Trim(m.title))
  {
    seq(8, k requires 0 <= k < 8 => Variable(m, k))
  }

  /** The `k`-th placeholder name of `get_variables` with its value. */
  function Variable(m: Page, k: nat): (string, string)
    requires k < 8
  {
    match k
    case 0 => ("title", Trim(m.title))
    case 1 => ("publish_date", m.publishDate)
    case 2 => ("last_modified_date", m.lastModifiedDate)
    case 3 => ("read_time_minutes", m.readingTimeMins)
    case 4 => ("keywords", Trim(m.keywords))
    case 5 => ("description", Trim(m.description))
    case 6 => ("file_name", m.fileName)
    case _ => ("table_of_contents", m.tableOfContents)
  }


  /** Every occurrence of each placeholder replaced by its value, one placeholder after another. */
  function Substitute(template: string, vars: seq<(string, string)>): string
    decreases |vars|
  {
    if vars == [] then template
    else Substitute(ReplaceAll(template, Placeholder(vars[0].0), vars[0].1), vars[1..])
  }

  /** `PageMetadata::apply`: a template filled in with the page's values. */
  function Apply(m: Page, template: string): (r: string)
    ensures !IsInfix("$GENERETO['", template) ==> r == template
  {
    SubstitutePlain(template, Variables(m));
    Substitute(template, Variables(m))
  }

  /** Where a text does not occur, neither does any text starting with it. */
  lemma NotInfixOfExtension(p: string, q: string, s: string)
    requires StartsWith(q, p) && !IsInfix(p, s)
    ensures !IsInfix(q, s)
  {
    if IsInfix(q, s) {
      var i: nat :| OccursAt(s, q, i);
      assert s[i..i + |p|] == q[..|p|];
      assert OccursAt(s, p, i);
    }
  }

  /** Text without a placeholder mark is left as it is. */
  lemma {:induction false} SubstitutePlain(template: string, vars: seq<(string, string)>)
    ensures !IsInfix("$GENERETO['", template) ==> Substitute(template, vars) == template
    decreases |vars|
  {
    if vars != [] && !IsInfix("$GENERETO['", template) {
      var p := Placeholder(vars[0].0);
      NotInfixOfExtension("$GENERETO['", p, template);
      ReplaceAllAbsent(template, p, vars[0].1);
      SubstitutePlain(template, vars[1..]);
    }
  }

  /** The title placeholder alone becomes the trimmed title, unless that holds a placeholder mark itself. */
  lemma ApplyTitle(m: Page)
    requires !IsInfix("$GENERETO['", Trim(m.title))
    ensures Apply(m, Placeholder("title")) == Trim(m.title)
  {
    var vars := Variables(m);
    var p := Placeholder("title");
    ReplaceAllSelf(p, Trim(m.title));
    assert Substitute(p, vars) == Substitute(Trim(m.title), vars[1..]);
    SubstitutePlain(Trim(m.title), vars[1..]);
  }

  /** A name without '$' gives a placeholder whose only '$' comes first, with the name from index 11. */
  lemma PlaceholderShape(name: string)
    requires '$' !in name
    ensures var p := Placeholder(name);
      && |p| == |name| + 13 && p[0] == '$'
      && (forall j :: 0 < j < |p| ==> p[j] != '$')
      && (name != [] ==> p[11] == name[0])
  {
    var p := Placeholder(name);
    forall j | 0 < j < |p|
      ensures p[j] != '$'
    {
      if j < 11 {
        assert p[j] == "$GENERETO['"[j];
      } else if j < 11 + |name| {
        assert p[j] == name[j - 11];
      } else {
        assert p[j] == "']"[j - 11 - |name|];
      }
    }
  }

  /** Text without '$' in front comes through the replacement of a placeholder untouched. */
  lemma ReplaceAfterPlain(x: string, y: string, name: string, rep: string)
    requires '$' !in x
    ensures ReplaceAll(x + y, Placeholder(name), rep) == x + ReplaceAll(y, Placeholder(name), rep)
  {
    var p := Placeholder(name);
    assert p[0] == '$';
    forall i: nat | i < |x|
      ensures !OccursAt(x + y, p, i)
    {
      assert (x + y)[i] == x[i];
    }
    ReplaceAllSkip(x, y, p, rep);
  }

  /** Text without '$' holds no placeholder to replace. */
  lemma ReplaceInPlain(s: string, name: string, rep: string)
    requires '$' !in s
    ensures ReplaceAll(s, Placeholder(name), rep) == s
  {
    assert s + [] == s;
    ReplaceAfterPlain(s, [], name, rep);
  }

  /** A placeholder behind text without '$' becomes the value. */
  lemma ReplacePlaceholderHere(x: string, name: string, y: string, rep: string)
    requires '$' !in x
    ensures ReplaceAll(x + Placeholder(name) + y, Placeholder(name), rep)
      == x + rep + ReplaceAll(y, Placeholder(name), rep)
  {
    var p := Placeholder(name);
    ConcatAssoc3(x, p, y);
    ReplaceAfterPlain(x, p + y, name, rep);
    ReplaceAllAtStart(p, y, rep);
    ConcatAssoc3(x, rep, ReplaceAll(y, p, rep));
  }

  /** A placeholder whose name starts with another letter is left in place. */
  lemma ReplacePlaceholderOther(x: string, name: string, y: string, other: string, rep: string)
    requires '$' !in x && '$' !in name && name != [] && other != [] && name[0] != other[0]
    ensures ReplaceAll(x + Placeholder(name) + y, Placeholder(other), rep)
      == x + Placeholder(name) + ReplaceAll(y, Placeholder(other), rep)
  {
    var p := Placeholder(name);
    var q := Placeholder(other);
    var s := x + p + y;
    PlaceholderShape(name);
    assert q[0] == '$' && q[11] == other[0];
    forall i: nat | i < |x + p|
      ensures !OccursAt(s, q, i)
    {
      if i < |x| {
        assert s[i] == x[i];
      } else if i == |x| {
        if i + |q| <= |s| {
          assert s[i..i + |q|][11] == s[i + 11] == p[11];
        }
      } else {
        assert s[i] == p[i - |x|];
      }
    }
    ReplaceAllSkip(x + p, y, q, rep);
  }

  /** One substitution step, from the `i`-th variable on. */
  lemma SubstituteStep(s: string, vars: seq<(string, string)>, i: nat)
    requires i < |vars|
    ensures Substitute(s, vars[i..])
      == Substitute(ReplaceAll(s, Placeholder(vars[i].0), vars[i].1), vars[i + 1..])
  {
    assert vars[i..][0] == vars[i];
    assert vars[i..][1..] == vars[i + 1..];
  }

  /** A variable whose name starts with another letter than `name` leaves its placeholder alone. */
  lemma SubstituteOtherStep(x: string, name: string, y: string, vars: seq<(string, string)>, i: nat)
    requires i < |vars| && '$' !in x && '$' !in name && '$' !in y
    requires name != [] && vars[i].0 != [] && vars[i].0[0] != name[0]
    ensures Substitute(x + Placeholder(name) + y, vars[i..]) == Substitute(x + Placeholder(name) + y, vars[i + 1..])
  {
    SubstituteStep(x + Placeholder(name) + y, vars, i);
    ReplacePlaceholderOther(x, name, y, vars[i].0, vars[i].1);
    ReplaceInPlain(y, vars[i].0, vars[i].1);
  }

  /** Of two placeholders whose names start differently, replacing the first leaves the second. */
  lemma ReplaceFirstOfTwo(a0: string, n1: string, a1: string, n2: string, a2: string, t: string)
    requires '$' !in a0 && '$' !in a1 && '$' !in a2
    requires '$' !in n2 && n1 != [] && n2 != [] && n1[0] != n2[0]
    ensures ReplaceAll(a0 + Placeholder(n1) + a1 + Placeholder(n2) + a2, Placeholder(n1), t)
      == (a0 + t + a1) + Placeholder(n2) + a2
  {
    var p1, p2 := Placeholder(n1), Placeholder(n2);
    ConcatAssoc(a0 + p1, a1, p2, a2);
    ReplacePlaceholderHere(a0, n1, a1 + p2 + a2, t);
    ReplacePlaceholderOther(a1, n2, a2, n1, t);
    ReplaceInPlain(a2, n1, t);
    ConcatAssoc(a0 + t, a1, p2, a2);
  }

  /**
   * Variables one to four, named with another first letter, leave the placeholder
   * `name` alone; the fifth, named `name`, fills it in; the rest find no '$'.
   */
  lemma SubstituteFifth(x: string, name: string, a2: string, vars: seq<(string, string)>)
    requires |vars| == 8 && '$' !in x && '$' !in a2 && '$' !in vars[5].1
    requires '$' !in name && name != [] && vars[5].0 == name
    requires forall k :: 1 <= k < 5 ==> vars[k].0 != [] && vars[k].0[0] != name[0]
    ensures Substitute(x + Placeholder(name) + a2, vars[1..]) == x + vars[5].1 + a2
  {
    var s2 := x + vars[5].1 + a2;
    SubstituteOtherStep(x, name, a2, vars, 1);
    SubstituteOtherStep(x, name, a2, vars, 2);
    SubstituteOtherStep(x, name, a2, vars, 3);
    SubstituteOtherStep(x, name, a2, vars, 4);
    SubstituteStep(x + Placeholder(name) + a2, vars, 5);
    ReplacePlaceholderHere(x, name, a2, vars[5].1);
    ReplaceInPlain(a2, name, vars[5].1);
    SubstituteStep(s2, vars, 6);
    ReplaceInPlain(s2, vars[6].0, vars[6].1);
    SubstituteStep(s2, vars, 7);
    ReplaceInPlain(s2, vars[7].0, vars[7].1);
    assert vars[8..] == [];
  }

  /** The variables after the title and before the description are named with other first letters. */
  lemma VariableInitials(m: Page)
    ensures var vars := Variables(m);
      && (forall k :: 1 <= k < 5 ==> vars[k].0 != [] && vars[k].0[0] != 'd')
      && vars[5] == ("description", Trim(m.description))
  {
    VariableNames(m);
  }

  /** The names of the variables after the title and before the description, and the description's. */
  lemma VariableNames(m: Page)
    ensures forall k :: 1 <= k < 5 ==> Variable(m, k).0 != [] && Variable(m, k).0[0] != 'd'
    ensures Variable(m, 5) == ("description", Trim(m.description))
  {
  }

  /** Neither entry placeholder name holds a '$', and they start with different letters. */
  lemma EntryNames()
    ensures '$' !in "title" && '$' !in "description"
    ensures "title" != [] && "description" != [] && "title"[0] != "description"[0] && "description"[0] == 'd'
  {
  }

  /**
   * An entry showing the title and the description: both placeholders become the
   * page's trimmed values and the text around them is kept.
   */
  lemma ApplyTitleDescription(m: Page, a0: string, a1: string, a2: string)
    requires '$' !in a0 && '$' !in a1 && '$' !in a2
    requires '$' !in Trim(m.title) && '$' !in Trim(m.description)
    ensures Apply(m, a0 + Placeholder("title") + a1 + Placeholder("description") + a2)
      == a0 + Trim(m.title) + a1 + Trim(m.description) + a2
  {
    var vars := Variables(m);
    var s0 := a0 + Placeholder("title") + a1 + Placeholder("description") + a2;
    EntryNames();
    ReplaceFirstOfTwo(a0, "title", a1, "description", a2, Trim(m.title));
    assert vars[0..] == vars;
    SubstituteStep(s0, vars, 0);
    VariableInitials(m);
    SubstituteFifth(a0 + Trim(m.title) + a1, "description", a2, vars);
  }

  // ---------------------------------------------------------------------------
  // Deriving a page's metadata

  /**
   * `GeneretoMetadata::new` with the answer of git passed in: the page becomes a
   * draft when it holds a to-do note, and a draft's title is marked.
   */
  method New(raw: RawPage, content: string, fileName: string, gitDate: Option<string>) returns (m: Page)
    requires raw.showTableOfContents ==> HasTocEntries(content)
    requires LastModifiedDefined(raw.publishDate, gitDate)
    ensures m.isDraft == (raw.isDraft || IsInfix(TodoMarker, content))
    ensures m.title == if m.isDraft then DraftPrefix + raw.title else raw.title
    ensures m.tableOfContents == if raw.showTableOfContents then TableOfContents(content) else ""
    ensures m.readingTimeMins == Decimal(EstimateReadingTime(content))
    ensures m.description == Description(content, DescriptionLength)
    ensures m.lastModifiedDate == LastModifiedDate(raw.publishDate, gitDate)
    ensures m.publishDate == raw.publishDate && m.keywords == raw.keywords && m.fileName == fileName
  {
    var tableOfContents := "";
    if raw.showTableOfContents {
      tableOfContents := GenerateTableOfContents(content);
    }
    var hasTodos := ContainsTodos(content);
    var isDraft := raw.isDraft || hasTodos;
    var title := raw.title;
    if isDraft {
      title := DraftPrefix + title;
    }
    var description := GetDescription(content, DescriptionLength);
    m := Page(title, raw.publishDate, isDraft, raw.keywords, Decimal(EstimateReadingTime(content)),
      description, fileName, tableOfContents, LastModifiedDate(raw.publishDate, gitDate));
  }
}
