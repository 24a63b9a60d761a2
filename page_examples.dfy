/**
 * The examples the page module's own tests check: the two tables of contents,
 * the description of a short page, and the anchors the tables link to.
 */
module PageExamples {
  import opened Strings
  import opened Seqs
  import opened LineScan
  import opened Headings
  import opened Toc
  import opened PageMetadata

  // ---------------------------------------------------------------------------
  // Heading lines

  predicate AllHashes(hashes: string) {
    forall i :: 0 <= i < |hashes| ==> hashes[i] == '#'
  }

  /** A title with no space at either end, no leading '#', no '{' and no newline. */
  predicate PlainTitle(title: string) {
    && title != [] && !IsSpace(title[0]) && !IsSpace(title[|title| - 1])
    && title[0] != '#' && '{' !in title && '\n' !in title
  }

  /** The marks and the title of a heading line `#…# title`. */
  predicate HeadingParts(hashes: string, title: string) {
    hashes != [] && AllHashes(hashes) && PlainTitle(title)
  }

  lemma TrimStartMatchesAll(hashes: string)
    requires AllHashes(hashes)
    ensures TrimStartMatches(hashes, '#') == []
  {
  }

  /** A run of '#' is skipped up to the first other character. */
  lemma HashesSkipped(hashes: string, rest: string)
    requires AllHashes(hashes) && rest != [] && rest[0] != '#'
    ensures TrimStartMatches(hashes + rest, '#') == rest
  {
    TrimStartMatchesAll(hashes);
    TrimStartMatchesAppend(hashes, '#', rest);
  }

  /** One leading space is trimmed off a plain title. */
  lemma SpaceTitleTrimmed(title: string)
    requires PlainTitle(title)
    ensures Trim(" " + title) == title
  {
    var sp := " ";
    OneSpaceTrimmed(sp);
    TrimAppendNonSpace(sp, title);
    assert [] + title == title;
  }

  /** A single space trims to nothing. */
  lemma OneSpaceTrimmed(s: string)
    requires |s| == 1 && IsSpace(s[0])
    ensures TrimStart(s) == []
  {
    assert s[1..] == [];
  }

  /** The marks and the space before the title are skipped: the title is what remains. */
  lemma HeadingLineTitle(hashes: string, title: string)
    requires HeadingParts(hashes, title)
    ensures HeadingTitle(hashes + " " + title) == title
    ensures Depth(hashes + " " + title) == |hashes|
  {
    var rest := " " + title;
    assert hashes + " " + title == hashes + rest;
    HashesSkipped(hashes, rest);
    SpaceTitleTrimmed(title);
  }

  /** A title without '{' is shown as it is. */
  lemma PlainTitleText(title: string)
    requires PlainTitle(title)
    ensures Trim(RemoveAfterLastCharacter(title, '{')) == title
  {
    RemoveAfterLastCharacterSpec(title, '{');
    TrimUnpadded(title);
  }

  /** `#…# title` is a heading line, not a fence, and a single line. */
  lemma HeadingLineKind(hashes: string, title: string)
    requires HeadingParts(hashes, title)
    ensures var line := hashes + " " + title;
      IsHeading(line) && !IsFence(line) && '\n' !in line
  {
    var line := hashes + " " + title;
    assert line[0] == '#' && line[|line| - 1] == title[|title| - 1];
    TrimUnpadded(line);
    assert Trim(line) == line;
    assert '\n' !in " " + title;
  }

  /** `#…# title`: a heading outside any fence, as deep as its marks, showing the title. */
  lemma HeadingLine(hashes: string, title: string)
    requires HeadingParts(hashes, title)
    ensures var line := hashes + " " + title;
      && IsHeading(line) && !IsFence(line) && '\n' !in line
      && EntryOf(line) == TocEntry(|hashes|, AnchorId(title), title)
      && HeadingText(line) == title
  {
    HeadingLineTitle(hashes, title);
    PlainTitleText(title);
    HeadingLineKind(hashes, title);
  }

  // ---------------------------------------------------------------------------
  // Anchors

  /** What one character of a title contributes to its anchor. */
  function AnchorOfChar(c: char): string {
    if IsTitleChar(c) then [ToLowerChar(if c == ' ' then '-' else c)] else []
  }

  /** The anchor written character by character. */
  function AnchorChars(s: string): string {
    if s == [] then [] else AnchorOfChar(s[0]) + AnchorChars(s[1..])
  }

  lemma ReplaceCharCons(c: char, s: string, a: char, b: char)
    ensures ReplaceChar([c] + s, a, b) == [if c == a then b else c] + ReplaceChar(s, a, b)
  {
    var l := ReplaceChar([c] + s, a, b);
    var r := [if c == a then b else c] + ReplaceChar(s, a, b);
    forall i | 0 <= i < |l|
      ensures l[i] == r[i]
    {
      if i > 0 {
        assert ([c] + s)[i] == s[i - 1];
      }
    }
  }

  lemma ToLowerCons(c: char, s: string)
    ensures ToLower([c] + s) == [ToLowerChar(c)] + ToLower(s)
  {
    var l := ToLower([c] + s);
    var r := [ToLowerChar(c)] + ToLower(s);
    forall i | 0 <= i < |l|
      ensures l[i] == r[i]
    {
      if i > 0 {
        assert ([c] + s)[i] == s[i - 1];
      }
    }
  }

  /** The anchor of a title, character by character. */
  lemma {:induction false} AnchorIdIsChars(s: string)
    ensures AnchorId(s) == AnchorChars(s)
    decreases |s|
  {
    if s != [] {
      var c, rest := s[0], s[1..];
      assert s == [c] + rest;
      AnchorIdIsChars(rest);
      var kept := Filter(rest, IsTitleChar);
      if IsTitleChar(c) {
        assert RemoveSpecialCharacters(s) == [c] + kept;
        var d := if c == ' ' then '-' else c;
        ReplaceCharCons(c, kept, ' ', '-');
        ToLowerCons(d, ReplaceChar(kept, ' ', '-'));
      } else {
        assert RemoveSpecialCharacters(s) == kept;
      }
    }
  }

  lemma {:induction false} AnchorCharsAppend(a: string, b: string)
    ensures AnchorChars(a + b) == AnchorChars(a) + AnchorChars(b)
    decreases |a|
  {
    if a == [] {
      assert a + b == b;
    } else {
      assert (a + b)[0] == a[0] && (a + b)[1..] == a[1..] + b;
      AnchorCharsAppend(a[1..], b);
      assert AnchorOfChar(a[0]) + (AnchorChars(a[1..]) + AnchorChars(b))
        == AnchorOfChar(a[0]) + AnchorChars(a[1..]) + AnchorChars(b);
    }
  }

  /** Lower-case letters and digits are their own anchor. */
  lemma {:induction false} AnchorCharsLower(s: string)
    requires forall i :: 0 <= i < |s| ==> IsAsciiLower(s[i]) || IsDigit(s[i])
    ensures AnchorChars(s) == s
    decreases |s|
  {
    if s != [] {
      AnchorCharsLower(s[1..]);
      assert [s[0]] + s[1..] == s;
    }
  }

  /** Punctuation contributes nothing to an anchor. */
  lemma {:induction false} AnchorCharsDropped(s: string)
    requires forall i :: 0 <= i < |s| ==> !IsTitleChar(s[i])
    ensures AnchorChars(s) == []
    decreases |s|
  {
    if s != [] {
      AnchorCharsDropped(s[1..]);
    }
  }

  /** A single character's anchor. */
  lemma AnchorCharsOne(s: string)
    requires |s| == 1
    ensures AnchorChars(s) == AnchorOfChar(s[0])
  {
    assert s[1..] == [];
  }

  /** One capitalised word: `Xxx` becomes `xxx`. */
  lemma AnchorOfOneWord(t: string, a: string, b: string)
    requires |a| == 1 && IsAsciiUpper(a[0])
    requires forall i :: 0 <= i < |b| ==> IsAsciiLower(b[i])
    requires t == a + b
    ensures AnchorId(t) == [ToLowerChar(a[0])] + b
  {
    AnchorIdIsChars(t);
    AnchorCharsAppend(a, b);
    AnchorCharsOne(a);
    AnchorCharsLower(b);
  }

  lemma AnchorOfIntroduction(t: string, a: string, b: string)
    requires a == "I" && b == "ntroduction" && t == a + b
    ensures AnchorId(t) == "introduction"
  {
    AnchorOfOneWord(t, a, b);
  }

  lemma AnchorIntroduction(t: string)
    requires t == "Introduction"
    ensures AnchorId(t) == "introduction"
  {
    AnchorOfIntroduction(t, "I", "ntroduction");
  }

  lemma AnchorOfInstallation(t: string, a: string, b: string)
    requires a == "I" && b == "nstallation" && t == a + b
    ensures AnchorId(t) == "installation"
  {
    AnchorOfOneWord(t, a, b);
  }

  lemma AnchorInstallation(t: string)
    requires t == "Installation"
    ensures AnchorId(t) == "installation"
  {
    AnchorOfInstallation(t, "I", "nstallation");
  }

  /** Two capitalised words: `Xxx Yyy` becomes `xxx-yyy`. */
  lemma AnchorOfTwoWords(t: string, a: string, b: string, sp: string, c: string, d: string)
    requires |a| == 1 && IsAsciiUpper(a[0]) && |c| == 1 && IsAsciiUpper(c[0]) && sp == " "
    requires forall i :: 0 <= i < |b| ==> IsAsciiLower(b[i])
    requires forall i :: 0 <= i < |d| ==> IsAsciiLower(d[i])
    requires t == a + b + sp + c + d
    ensures AnchorId(t) == [ToLowerChar(a[0])] + b + "-" + [ToLowerChar(c[0])] + d
  {
    AnchorIdIsChars(t);
    AnchorCharsAppend(a + b + sp + c, d);
    AnchorCharsAppend(a + b + sp, c);
    AnchorCharsAppend(a + b, sp);
    AnchorCharsAppend(a, b);
    AnchorCharsOne(a);
    AnchorCharsOne(sp);
    AnchorCharsOne(c);
    AnchorCharsLower(b);
    AnchorCharsLower(d);
  }

  lemma AnchorOfGettingStarted(t: string, a: string, b: string, sp: string, c: string, d: string)
    requires a == "G" && b == "etting" && sp == " " && c == "S" && d == "tarted" && t == a + b + sp + c + d
    ensures AnchorId(t) == "getting-started"
  {
    AnchorOfTwoWords(t, a, b, sp, c, d);
  }

  lemma AnchorGettingStarted(t: string)
    requires t == "Getting Started"
    ensures AnchorId(t) == "getting-started"
  {
    AnchorOfGettingStarted(t, "G", "etting", " ", "S", "tarted");
  }

  lemma AnchorOfBasicUsage(t: string, a: string, b: string, sp: string, c: string, d: string)
    requires a == "B" && b == "asic" && sp == " " && c == "U" && d == "sage" && t == a + b + sp + c + d
    ensures AnchorId(t) == "basic-usage"
  {
    AnchorOfTwoWords(t, a, b, sp, c, d);
  }

  lemma AnchorBasicUsage(t: string)
    requires t == "Basic Usage"
    ensures AnchorId(t) == "basic-usage"
  {
    AnchorOfBasicUsage(t, "B", "asic", " ", "U", "sage");
  }

  /** Trailing punctuation does not change a title's anchor. */
  lemma AnchorDropsTail(u: string, e: string)
    requires forall i :: 0 <= i < |e| ==> !IsTitleChar(e[i])
    ensures AnchorId(u + e) == AnchorId(u)
  {
    AnchorIdIsChars(u + e);
    AnchorIdIsChars(u);
    AnchorCharsAppend(u, e);
    AnchorCharsDropped(e);
  }

  lemma AnchorOfAdvancedWords(t: string, a: string, b: string, sp: string, c: string, d: string)
    requires a == "A" && b == "dvanced" && sp == " " && c == "F" && d == "eatures" && t == a + b + sp + c + d
    ensures AnchorId(t) == "advanced-features"
  {
    AnchorOfTwoWords(t, a, b, sp, c, d);
  }

  lemma AnchorAdvancedWords(u: string)
    requires u == "Advanced Features"
    ensures AnchorId(u) == "advanced-features"
  {
    AnchorOfAdvancedWords(u, "A", "dvanced", " ", "F", "eatures");
  }

  lemma AnchorOfAdvancedFeatures(t: string, u: string, e: string)
    requires u == "Advanced Features" && e == "!!!!" && t == u + e
    ensures AnchorId(t) == "advanced-features"
  {
    AnchorAdvancedWords(u);
    AnchorDropsTail(u, e);
  }

  /** The exclamation marks are dropped from the anchor, not from the title shown. */
  lemma AnchorAdvancedFeatures(t: string)
    requires t == "Advanced Features!!!!"
    ensures AnchorId(t) == "advanced-features"
  {
    AnchorOfAdvancedFeatures(t, "Advanced Features", "!!!!");
  }

  /** A punctuation mark between two lower-case words is dropped: `xxx-yyy` becomes `xxxyyy`. */
  lemma AnchorOfHyphenated(t: string, a: string, h: string, b: string)
    requires forall i :: 0 <= i < |a| ==> IsAsciiLower(a[i])
    requires forall i :: 0 <= i < |b| ==> IsAsciiLower(b[i])
    requires |h| == 1 && !IsTitleChar(h[0]) && t == a + h + b
    ensures AnchorId(t) == a + b
  {
    AnchorIdIsChars(t);
    AnchorCharsAppend(a + h, b);
    AnchorCharsAppend(a, h);
    AnchorCharsLower(a);
    AnchorCharsDropped(h);
    AnchorCharsLower(b);
    assert a + [] == a;
  }

  lemma AnchorOfAnchor(t: string, a: string, h: string, b: string)
    requires a == "getting" && h == "-" && b == "started" && t == a + h + b
    ensures AnchorId(t) == "gettingstarted"
  {
    AnchorOfHyphenated(t, a, h, b);
  }

  /** The anchor of an anchor is not always itself: the dash of `getting-started` is dropped. */
  lemma AnchorOfGettingStartedAnchor(t: string)
    requires t == "getting-started"
    ensures AnchorId(t) == "gettingstarted"
    ensures AnchorId(t) != t
  {
    AnchorOfAnchor(t, "getting", "-", "started");
    assert "gettingstarted"[7] != t[7];
  }

  // ---------------------------------------------------------------------------
  // Tables of contents

  /** The entry a `#…# title` line is listed with. */
  function HeadingEntry(hashes: string, title: string): TocEntry {
    TocEntry(|hashes|, AnchorId(title), title)
  }

  /** A heading outside fenced code is listed with its marks' depth, its anchor and its title. */
  lemma HeadingListedAt(hashes: string, title: string, rest: seq<string>)
    requires HeadingParts(hashes, title)
    ensures TocEntries([hashes + " " + title] + rest, false) == [HeadingEntry(hashes, title)] + TocEntries(rest, false)
    ensures '\n' !in hashes + " " + title
  {
    HeadingLine(hashes, title);
    HeadingListed(hashes + " " + title, rest);
  }

  lemma LinesOfSix(a: string, b: string, c: string, d: string, e: string, f: string)
    requires '\n' !in a && '\n' !in b && '\n' !in c && '\n' !in d && '\n' !in e && '\n' !in f
    ensures Lines(JoinLines([a, b, c, d, e, f])) == [a, b, c, d, e, f]
  {
    var ls := [a, b, c, d, e, f];
    assert forall i :: 0 <= i < |ls| ==> '\n' !in ls[i];
    LinesOfJoinLines(ls);
  }

  lemma Cons6<T>(a: T, b: T, c: T, d: T, e: T, f: T)
    ensures [a, b, c, d, e, f] == [a] + ([b] + ([c] + ([d] + ([e] + ([f] + [])))))
  {
  }

  /** A blank line and then five heading lines are listed as five entries, in order. */
  lemma FiveHeadingsListed(
    h1: string, t1: string, h2: string, t2: string, h3: string, t3: string,
    h4: string, t4: string, h5: string, t5: string)
    requires HeadingParts(h1, t1) && HeadingParts(h2, t2) && HeadingParts(h3, t3)
    requires HeadingParts(h4, t4) && HeadingParts(h5, t5)
    ensures var lines := ["", h1 + " " + t1, h2 + " " + t2, h3 + " " + t3, h4 + " " + t4, h5 + " " + t5];
      TocEntries(lines, false)
      == [HeadingEntry(h1, t1)] + ([HeadingEntry(h2, t2)] + ([HeadingEntry(h3, t3)] + ([HeadingEntry(h4, t4)] + ([HeadingEntry(h5, t5)] + []))))
  {
    var r5 := [h5 + " " + t5] + [];
    var r4 := [h4 + " " + t4] + r5;
    var r3 := [h3 + " " + t3] + r4;
    var r2 := [h2 + " " + t2] + r3;
    var r1 := [h1 + " " + t1] + r2;
    HeadingListedAt(h5, t5, []);
    HeadingListedAt(h4, t4, r5);
    HeadingListedAt(h3, t3, r4);
    HeadingListedAt(h2, t2, r3);
    HeadingListedAt(h1, t1, r2);
    var lines := [""] + r1;
    assert !IsHeading("") && !IsFence("");
    TocEntriesCons(lines, false);
    assert lines[1..] == r1;
    Cons6("", h1 + " " + t1, h2 + " " + t2, h3 + " " + t3, h4 + " " + t4, h5 + " " + t5);
  }

  /** The list of five entries as its separators and links in a row. */
  lemma FiveEntriesBody(e1: TocEntry, e2: TocEntry, e3: TocEntry, e4: TocEntry, e5: TocEntry, d: nat)
    ensures TocBody([e1] + ([e2] + ([e3] + ([e4] + ([e5] + [])))), d)
      == Transition(d, e1.depth) + EntryHtml(e1) + (Transition(e1.depth, e2.depth) + EntryHtml(e2)
         + (Transition(e2.depth, e3.depth) + EntryHtml(e3) + (Transition(e3.depth, e4.depth)
         + EntryHtml(e4) + (Transition(e4.depth, e5.depth) + EntryHtml(e5) + Closers(e5.depth)))))
  {
    var r4 := [e5] + [];
    var r3 := [e4] + r4;
    var r2 := [e3] + r3;
    var r1 := [e2] + r2;
    TocBodyCons(e5, [], e4.depth);
    TocBodyCons(e4, r4, e3.depth);
    TocBodyCons(e3, r3, e2.depth);
    TocBodyCons(e2, r2, e1.depth);
    TocBodyCons(e1, r1, d);
  }

  /** Dropping a leading separator of six characters. */
  lemma DropSeparator(sep: string, link: string, rest: string)
    requires |sep| == 6
    ensures (sep + link + rest)[6..] == link + rest
  {
  }

  /** A document whose list starts with an item at depth 2 has that item first in its table. */
  lemma TableFromBody(md: string, link: string, rest: string)
    requires HasTocEntries(md)
    requires TocText(Lines(md), false, 2) == "</li>\n" + link + rest
    ensures TableOfContents(md) == TocHeader + (link + rest) + "</ul>"
  {
    DropSeparator("</li>\n", link, rest);
  }

  /** The entries and the list text of a blank line and five headings. */
  lemma FiveHeadingsBody(
    md: string, h1: string, t1: string, h2: string, t2: string, h3: string, t3: string,
    h4: string, t4: string, h5: string, t5: string)
    requires HeadingParts(h1, t1) && HeadingParts(h2, t2) && HeadingParts(h3, t3)
    requires HeadingParts(h4, t4) && HeadingParts(h5, t5)
    requires md == JoinLines(["", h1 + " " + t1, h2 + " " + t2, h3 + " " + t3, h4 + " " + t4, h5 + " " + t5])
    ensures var e1, e2, e3, e4, e5 := HeadingEntry(h1, t1), HeadingEntry(h2, t2), HeadingEntry(h3, t3), HeadingEntry(h4, t4), HeadingEntry(h5, t5);
      && TocEntries(Lines(md), false) == [e1] + ([e2] + ([e3] + ([e4] + ([e5] + []))))
      && TocText(Lines(md), false, 2)
         == Transition(2, e1.depth) + EntryHtml(e1) + (Transition(e1.depth, e2.depth) + EntryHtml(e2)
            + (Transition(e2.depth, e3.depth) + EntryHtml(e3) + (Transition(e3.depth, e4.depth)
            + EntryHtml(e4) + (Transition(e4.depth, e5.depth) + EntryHtml(e5) + Closers(e5.depth)))))
  {
    var l1, l2, l3, l4, l5 := h1 + " " + t1, h2 + " " + t2, h3 + " " + t3, h4 + " " + t4, h5 + " " + t5;
    HeadingListedAt(h1, t1, []);
    HeadingListedAt(h2, t2, []);
    HeadingListedAt(h3, t3, []);
    HeadingListedAt(h4, t4, []);
    HeadingListedAt(h5, t5, []);
    LinesOfSix("", l1, l2, l3, l4, l5);
    FiveHeadingsListed(h1, t1, h2, t2, h3, t3, h4, t4, h5, t5);
    TocTextIsBody(["", l1, l2, l3, l4, l5], false, 2);
    FiveEntriesBody(HeadingEntry(h1, t1), HeadingEntry(h2, t2), HeadingEntry(h3, t3), HeadingEntry(h4, t4), HeadingEntry(h5, t5), 2);
  }

  /**
   * The table of contents of a blank line and five headings, the first two and the
   * fourth at depth 2 and the third at depth 3: a link per heading, the third in a
   * nested list, and the separators and closers the last heading's depth calls for.
   */
  lemma FiveHeadingsToc(
    md: string, h1: string, t1: string, h2: string, t2: string, h3: string, t3: string,
    h4: string, t4: string, h5: string, t5: string)
    requires HeadingParts(h1, t1) && HeadingParts(h2, t2) && HeadingParts(h3, t3)
    requires HeadingParts(h4, t4) && HeadingParts(h5, t5)
    requires |h1| == 2 && |h2| == 2 && |h3| == 3 && |h4| == 2
    requires md == JoinLines(["", h1 + " " + t1, h2 + " " + t2, h3 + " " + t3, h4 + " " + t4, h5 + " " + t5])
    ensures HasTocEntries(md)
    ensures TableOfContents(md)
      == TocHeader
         + (EntryHtml(HeadingEntry(h1, t1))
         + ("</li>\n" + EntryHtml(HeadingEntry(h2, t2))
         + ("\n<ul>\n" + EntryHtml(HeadingEntry(h3, t3))
         + ("\n</ul>\n" + EntryHtml(HeadingEntry(h4, t4))
         + (Transition(2, |h5|) + EntryHtml(HeadingEntry(h5, t5)) + Closers(|h5|))))))
         + "</ul>"
  {
    FiveHeadingsBody(md, h1, t1, h2, t2, h3, t3, h4, t4, h5, t5);
    var e1, e2, e3, e4, e5 := HeadingEntry(h1, t1), HeadingEntry(h2, t2), HeadingEntry(h3, t3), HeadingEntry(h4, t4), HeadingEntry(h5, t5);
    var rest := "</li>\n" + EntryHtml(e2) + ("\n<ul>\n" + EntryHtml(e3) + ("\n</ul>\n"
         + EntryHtml(e4) + (Transition(2, e5.depth) + EntryHtml(e5) + Closers(e5.depth))));
    TableFromBody(md, EntryHtml(e1), rest);
  }

  lemma SmallDecimals()
    ensures Decimal(1) == "1" && Decimal(2) == "2" && Decimal(3) == "3"
  {
  }

  lemma PartsOfIntroduction(h: string, t: string)
    requires h == "##" && t == "Introduction"
    ensures HeadingParts(h, t) && |h| == 2
  {
  }

  lemma PartsOfGettingStarted(h: string, t: string)
    requires h == "##" && t == "Getting Started"
    ensures HeadingParts(h, t) && |h| == 2
  {
  }

  lemma PartsOfInstallation(h: string, t: string)
    requires h == "###" && t == "Installation"
    ensures HeadingParts(h, t) && |h| == 3
  {
  }

  lemma PartsOfBasicUsage(h: string, t: string)
    requires h == "##" && t == "Basic Usage"
    ensures HeadingParts(h, t) && |h| == 2
  {
  }

  lemma PartsOfAdvancedFeatures(h: string, t: string)
    requires (h == "#" || h == "###") && t == "Advanced Features!!!!"
    ensures HeadingParts(h, t) && (|h| == 1 || |h| == 3)
  {
  }

  /**
   * The first test's expected text, cut where the anchors and titles go: the outer
   * list, then each link with the markup separating it from the next.
   */
  const IntroductionLink := "<li><a href=\"#" + "introduction" + "\" class=\"table_of_contents-indent-" + "2" + "\">" + "Introduction" + "</a>"
  const GettingStartedLink := "<li><a href=\"#" + "getting-started" + "\" class=\"table_of_contents-indent-" + "2" + "\">" + "Getting Started" + "</a>"
  const InstallationLink := "<li><a href=\"#" + "installation" + "\" class=\"table_of_contents-indent-" + "3" + "\">" + "Installation" + "</a>"
  const BasicUsageLink := "<li><a href=\"#" + "basic-usage" + "\" class=\"table_of_contents-indent-" + "2" + "\">" + "Basic Usage" + "</a>"

  lemma IntroductionLinked(h: string, t: string)
    requires h == "##" && t == "Introduction"
    ensures EntryHtml(HeadingEntry(h, t)) == IntroductionLink
  {
    SmallDecimals();
    AnchorIntroduction(t);
  }

  lemma GettingStartedLinked(h: string, t: string)
    requires h == "##" && t == "Getting Started"
    ensures EntryHtml(HeadingEntry(h, t)) == GettingStartedLink
  {
    SmallDecimals();
    AnchorGettingStarted(t);
  }

  lemma InstallationLinked(h: string, t: string)
    requires h == "###" && t == "Installation"
    ensures EntryHtml(HeadingEntry(h, t)) == InstallationLink
  {
    SmallDecimals();
    AnchorInstallation(t);
  }

  lemma BasicUsageLinked(h: string, t: string)
    requires h == "##" && t == "Basic Usage"
    ensures EntryHtml(HeadingEntry(h, t)) == BasicUsageLink
  {
    SmallDecimals();
    AnchorBasicUsage(t);
  }

  lemma AdvancedFeaturesLinked(h: string, t: string)
    requires (h == "#" || h == "###") && t == "Advanced Features!!!!"
    ensures EntryHtml(HeadingEntry(h, t))
      == "<li><a href=\"#" + "advanced-features" + "\" class=\"table_of_contents-indent-" + Decimal(|h|) + "\">"
         + "Advanced Features!!!!" + "</a>"
  {
    AnchorAdvancedFeatures(t);
  }

  /** The heading lines of both tests: five headings after a blank line. */
  lemma TestTocShape(md: string, h1: string, t1: string, h2: string, t2: string, h3: string, t3: string,
    h4: string, t4: string, h5: string, t5: string)
    requires h1 == "##" && t1 == "Introduction" && h2 == "##" && t2 == "Getting Started"
    requires h3 == "###" && t3 == "Installation" && h4 == "##" && t4 == "Basic Usage"
    requires (h5 == "#" || h5 == "###") && t5 == "Advanced Features!!!!"
    requires md == JoinLines(["", h1 + " " + t1, h2 + " " + t2, h3 + " " + t3, h4 + " " + t4, h5 + " " + t5])
    ensures HasTocEntries(md)
    ensures TableOfContents(md)
      == TocHeader
         + (EntryHtml(HeadingEntry(h1, t1))
         + ("</li>\n" + EntryHtml(HeadingEntry(h2, t2))
         + ("\n<ul>\n" + EntryHtml(HeadingEntry(h3, t3))
         + ("\n</ul>\n" + EntryHtml(HeadingEntry(h4, t4))
         + (Transition(2, |h5|) + EntryHtml(HeadingEntry(h5, t5)) + Closers(|h5|))))))
         + "</ul>"
  {
    PartsOfIntroduction(h1, t1);
    PartsOfGettingStarted(h2, t2);
    PartsOfInstallation(h3, t3);
    PartsOfBasicUsage(h4, t4);
    PartsOfAdvancedFeatures(h5, t5);
    FiveHeadingsToc(md, h1, t1, h2, t2, h3, t3, h4, t4, h5, t5);
  }

  /** The heading lines of both tests, and their table with the anchors and depths filled in. */
  lemma TestTocAt(md: string, h1: string, t1: string, h2: string, t2: string, h3: string, t3: string,
    h4: string, t4: string, h5: string, t5: string)
    requires h1 == "##" && t1 == "Introduction" && h2 == "##" && t2 == "Getting Started"
    requires h3 == "###" && t3 == "Installation" && h4 == "##" && t4 == "Basic Usage"
    requires (h5 == "#" || h5 == "###") && t5 == "Advanced Features!!!!"
    requires md == JoinLines(["", h1 + " " + t1, h2 + " " + t2, h3 + " " + t3, h4 + " " + t4, h5 + " " + t5])
    ensures HasTocEntries(md)
    ensures TableOfContents(md)
      == TocHeader
         + (IntroductionLink
         + ("</li>\n" + GettingStartedLink
         + ("\n<ul>\n" + InstallationLink
         + ("\n</ul>\n" + BasicUsageLink
         + (Transition(2, |h5|)
            + ("<li><a href=\"#" + "advanced-features" + "\" class=\"table_of_contents-indent-" + Decimal(|h5|) + "\">"
               + "Advanced Features!!!!" + "</a>")
            + Closers(|h5|))))))
         + "</ul>"
  {
    TestTocShape(md, h1, t1, h2, t2, h3, t3, h4, t4, h5, t5);
    IntroductionLinked(h1, t1);
    GettingStartedLinked(h2, t2);
    InstallationLinked(h3, t3);
    BasicUsageLinked(h4, t4);
    AdvancedFeaturesLinked(h5, t5);
    LinksFilled(TableOfContents(md),
      EntryHtml(HeadingEntry(h1, t1)), EntryHtml(HeadingEntry(h2, t2)), EntryHtml(HeadingEntry(h3, t3)),
      EntryHtml(HeadingEntry(h4, t4)), EntryHtml(HeadingEntry(h5, t5)),
      IntroductionLink, GettingStartedLink, InstallationLink, BasicUsageLink,
      "<li><a href=\"#" + "advanced-features" + "\" class=\"table_of_contents-indent-" + Decimal(|h5|) + "\">"
        + "Advanced Features!!!!" + "</a>",
      Transition(2, |h5|), Closers(|h5|));
  }

  /** A table of five links, each replaced by text equal to it. */
  lemma LinksFilled(r: string, x1: string, x2: string, x3: string, x4: string, x5: string,
    y1: string, y2: string, y3: string, y4: string, y5: string, tr: string, cl: string)
    requires r == TocHeader + (x1 + ("</li>\n" + x2 + ("\n<ul>\n" + x3 + ("\n</ul>\n" + x4 + (tr + x5 + cl))))) + "</ul>"
    requires x1 == y1 && x2 == y2 && x3 == y3 && x4 == y4 && x5 == y5
    ensures r == TocHeader + (y1 + ("</li>\n" + y2 + ("\n<ul>\n" + y3 + ("\n</ul>\n" + y4 + (tr + y5 + cl))))) + "</ul>"
  {
  }

  lemma FirstHeadingLines()
    ensures "## Introduction" == "##" + " " + "Introduction"
    ensures "## Getting Started" == "##" + " " + "Getting Started"
  {
  }

  lemma MiddleHeadingLines()
    ensures "### Installation" == "###" + " " + "Installation"
    ensures "## Basic Usage" == "##" + " " + "Basic Usage"
  {
  }

  lemma LastHeadingLineAtDepth1()
    ensures "# Advanced Features!!!!" == "#" + " " + "Advanced Features!!!!"
  {
  }

  lemma LastHeadingLineAtDepth3()
    ensures "### Advanced Features!!!!" == "###" + " " + "Advanced Features!!!!"
  {
  }

  /**
   * The first test of the table of contents: after a blank line, four headings
   * at depths 2, 2, 3 and 2 and a last one at depth 1. The nested list of the
   * third heading is closed before the fourth, the fourth's level is closed before
   * the fifth, and at depth 1 nothing is left to close but the outer list.
   */
  lemma TableOfContentsFirstTest(md: string)
    requires md == JoinLines(["", "## Introduction", "## Getting Started", "### Installation", "## Basic Usage", "# Advanced Features!!!!"])
    ensures HasTocEntries(md)
    ensures TableOfContents(md)
      == "<ul class=\"table_of_contents\">\n"
         + (IntroductionLink
         + ("</li>\n" + GettingStartedLink
         + ("\n<ul>\n" + InstallationLink
         + ("\n</ul>\n" + BasicUsageLink
         + ("\n</ul>\n"
            + ("<li><a href=\"#" + "advanced-features" + "\" class=\"table_of_contents-indent-" + "1" + "\">"
               + "Advanced Features!!!!" + "</a>")
            + ""))))) + "</ul>"
  {
    FirstHeadingLines();
    MiddleHeadingLines();
    LastHeadingLineAtDepth1();
    SmallDecimals();
    TestTocAt(md, "##", "Introduction", "##", "Getting Started", "###", "Installation", "##", "Basic Usage", "#", "Advanced Features!!!!");
  }

  /**
   * The second test: the same headings but the last at depth 3, which opens a
   * nested list that is closed at the end, before the outer list.
   */
  lemma TableOfContentsSecondTest(md: string)
    requires md == JoinLines(["", "## Introduction", "## Getting Started", "### Installation", "## Basic Usage", "### Advanced Features!!!!"])
    ensures HasTocEntries(md)
    ensures TableOfContents(md)
      == "<ul class=\"table_of_contents\">\n"
         + (IntroductionLink
         + ("</li>\n" + GettingStartedLink
         + ("\n<ul>\n" + InstallationLink
         + ("\n</ul>\n" + BasicUsageLink
         + ("\n<ul>\n"
            + ("<li><a href=\"#" + "advanced-features" + "\" class=\"table_of_contents-indent-" + "3" + "\">"
               + "Advanced Features!!!!" + "</a>")
            + ("</ul>\n" + "")))))) + "</ul>"
  {
    FirstHeadingLines();
    MiddleHeadingLines();
    LastHeadingLineAtDepth3();
    SmallDecimals();
    assert Closers(3) == "</ul>\n" + "";
    TestTocAt(md, "##", "Introduction", "##", "Getting Started", "###", "Installation", "##", "Basic Usage", "###", "Advanced Features!!!!");
  }

  // ---------------------------------------------------------------------------
  // Descriptions

  /** A heading id `{…}`: one '{', at the start, and no space at the end. */
  predicate IdText(id: string) {
    id != [] && id[0] == '{' && '{' !in id[1..] && !IsSpace(id[|id| - 1]) && '\n' !in id
  }

  /** A line of prose: it does not start with '#' and has no space at either end. */
  predicate ProseLine(text: string) {
    text != [] && text[0] != '#' && !IsSpace(text[0]) && !IsSpace(text[|text| - 1]) && '\n' !in text
  }

  /** Everything from the last '{' on is cut: the title and the space before the id remain. */
  lemma IdCut(title: string, id: string)
    requires PlainTitle(title) && IdText(id)
    ensures RemoveAfterLastCharacter(title + " " + id, '{') == title + " "
  {
    assert title + " " + id == (title + " ") + ['{'] + id[1..];
    RemoveAfterLastCharacterCut(title + " ", '{', id[1..]);
  }

  /** A trailing space is trimmed off a plain title. */
  lemma TitleSpaceTrimmed(title: string)
    requires PlainTitle(title)
    ensures Trim(title + " ") == title
  {
    var s := title + " ";
    assert TrimStart(s) == s;
    assert s[..|s| - 1] == title;
    TrimEndNonSpace(title);
  }

  /** One leading space is trimmed off text with no space at either end. */
  lemma SpaceTrimmed(s: string)
    requires s != [] && !IsSpace(s[0]) && !IsSpace(s[|s| - 1])
    ensures Trim(" " + s) == s
  {
    assert TrimStart(" ") == [];
    TrimAppendNonSpace(" ", s);
  }

  lemma TitleWithIdEnds(title: string, id: string)
    requires PlainTitle(title) && IdText(id)
    ensures var u := title + " " + id;
      u != [] && !IsSpace(u[0]) && !IsSpace(u[|u| - 1]) && u[0] != '#'
  {
    var u := title + " " + id;
    assert u[0] == title[0] && u[|u| - 1] == id[|id| - 1];
  }

  /** The id is still attached to the title the marks and the first space leave. */
  lemma HeadingWithIdTitle(hashes: string, title: string, id: string)
    requires HeadingParts(hashes, title) && IdText(id)
    ensures HeadingTitle(hashes + " " + title + " " + id) == title + " " + id
  {
    var u := title + " " + id;
    var rest := " " + u;
    assert hashes + " " + title + " " + id == hashes + rest;
    TitleWithIdEnds(title, id);
    HashesSkipped(hashes, rest);
    SpaceTrimmed(u);
  }

  /** A heading line with an id is a heading and a single line. */
  lemma HeadingWithIdKind(hashes: string, title: string, id: string)
    requires HeadingParts(hashes, title) && IdText(id)
    ensures var line := hashes + " " + title + " " + id;
      IsHeading(line) && '\n' !in line
  {
    var line := hashes + " " + title + " " + id;
    assert line[0] == '#' && line[|line| - 1] == id[|id| - 1];
    TrimUnpadded(line);
  }

  /** `#…# title {…}`: a heading whose shown text is the title without its id. */
  lemma HeadingWithIdText(hashes: string, title: string, id: string)
    requires HeadingParts(hashes, title) && IdText(id)
    ensures var line := hashes + " " + title + " " + id;
      IsHeading(line) && '\n' !in line && DescriptionLine(line) == title
  {
    HeadingWithIdTitle(hashes, title, id);
    HeadingWithIdKind(hashes, title, id);
    IdCut(title, id);
    TitleSpaceTrimmed(title);
  }

  /** A prose line is described by itself. */
  lemma ProseText(text: string)
    requires ProseLine(text)
    ensures !IsHeading(text) && DescriptionLine(text) == text
  {
    TrimUnpadded(text);
  }

  /** Two pieces that fit within the limit are both collected, each with its newline. */
  lemma CollectedTwo(a: string, b: string, limit: nat)
    requires |a| + |b| + 2 <= limit
    ensures Collected([a, b], limit) == a + "\n" + (b + "\n")
  {
    assert [a, b][1..] == [b];
    assert [b][1..] == [];
    assert Collected([b], limit - (|a| + 1)) == b + "\n";
  }

  lemma LinesTwo(x: string, y: string)
    requires '\n' !in x && y != [] && '\n' !in y
    ensures Lines(x + "\n" + y) == [x, y]
  {
    LinesCons(x, y);
    LinesSingle(y);
    assert [x] + [y] == [x, y];
  }

  lemma DescriptionLinesTwo(x: string, y: string, a: string, b: string)
    requires DescriptionLine(x) == a && DescriptionLine(y) == b
    ensures DescriptionLines([x, y]) == [a, b]
  {
    var r := DescriptionLines([x, y]);
    assert r[0] == a;
    assert r[1] == b;
    PairOf(r, a, b);
  }

  lemma PairOf(r: seq<string>, a: string, b: string)
    requires |r| == 2 && r[0] == a && r[1] == b
    ensures r == [a, b]
  {
  }

  /** The lines a heading with an id and a line of prose are described by. */
  lemma HeadingAndProseLines(hashes: string, title: string, id: string, text: string)
    requires HeadingParts(hashes, title) && IdText(id) && ProseLine(text)
    ensures DescriptionLines(Lines(hashes + " " + title + " " + id + "\n" + text)) == [title, text]
  {
    var line := hashes + " " + title + " " + id;
    HeadingWithIdText(hashes, title, id);
    ProseText(text);
    LinesTwo(line, text);
    DescriptionLinesTwo(line, text, title, text);
  }

  /**
   * A heading with an id followed by one line of prose, short enough to fit: the
   * description is the heading's title and the prose, each on its own line.
   */
  lemma HeadingAndProseDescription(hashes: string, title: string, id: string, text: string, limit: nat)
    requires HeadingParts(hashes, title) && IdText(id) && ProseLine(text)
    requires |title| + |text| + 2 <= limit
    ensures Description(hashes + " " + title + " " + id + "\n" + text, limit) == title + "\n" + text + "\n"
  {
    HeadingAndProseLines(hashes, title, id, text);
    TwoLinesCollected(hashes + " " + title + " " + id + "\n" + text, title, text, limit);
  }

  /** An article whose description lines are two short pieces is described by both, untruncated. */
  lemma TwoLinesCollected(article: string, a: string, b: string, limit: nat)
    requires DescriptionLines(Lines(article)) == [a, b]
    requires |a| + |b| + 2 <= limit
    ensures Description(article, limit) == a + "\n" + b + "\n"
  {
    CollectedTwo(a, b, limit);
    DescriptionOfShort(article, limit, [a, b], a + "\n" + (b + "\n"));
    assert a + "\n" + (b + "\n") == a + "\n" + b + "\n";
  }
  /** A description whose collected text fits the limit is that text, untruncated. */
  lemma DescriptionOfShort(article: string, limit: nat, pieces: seq<string>, text: string)
    requires DescriptionLines(Lines(article)) == pieces
    requires Collected(pieces, limit) == text && |text| <= limit
    ensures Description(article, limit) == text
  {
    TruncatedSpec(text, limit);
  }


  lemma IdOfIntroduction(id: string)
    requires id == "{#introduction}"
    ensures IdText(id)
  {
    assert forall i :: 1 <= i < |id| ==> id[i] != '{';
  }

  lemma ProseOfTest(text: string)
    requires text == "This is a test description."
    ensures ProseLine(text) && |text| == 27
  {
  }

  lemma DescriptionTestAt(article: string, h: string, t: string, id: string, text: string)
    requires h == "##" && t == "Introduction" && id == "{#introduction}" && text == "This is a test description."
    requires article == h + " " + t + " " + id + "\n" + text
    ensures Description(article, 100) == t + "\n" + text + "\n"
  {
    PartsOfIntroduction(h, t);
    IdOfIntroduction(id);
    ProseOfTest(text);
    HeadingAndProseDescription(h, t, id, text, 100);
  }

  lemma IntroductionHeadingText()
    ensures "##" + " " == "## "
    ensures "## " + "Introduction" == "## Introduction"
  {
  }

  lemma IntroductionIdText()
    ensures "## Introduction" + " " == "## Introduction "
    ensures "## Introduction " + "{#introduction}" == "## Introduction {#introduction}"
  {
  }

  lemma DescriptionFirstLine()
    ensures "Introduction" + "\n" == "Introduction\n"
  {
  }

  lemma DescriptionSecondLine()
    ensures "Introduction\n" + "This is a test description." == "Introduction\nThis is a test description."
  {
  }

  lemma DescriptionLastNewline()
    ensures "Introduction\nThis is a test description." + "\n" == "Introduction\nThis is a test description.\n"
  {
  }

  /**
   * The description test: a heading with an id and a line of prose, well within
   * 100 characters, are described by the heading's title without its id and the
   * prose, each followed by a newline, the last one included.
   */
  lemma DescriptionTest(article: string)
    requires article == "## Introduction {#introduction}" + "\n" + "This is a test description."
    ensures Description(article, 100) == "Introduction\nThis is a test description.\n"
  {
    IntroductionHeadingText();
    IntroductionIdText();
    DescriptionFirstLine();
    DescriptionSecondLine();
    DescriptionLastNewline();
    DescriptionTestAt(article, "##", "Introduction", "{#introduction}", "This is a test description.");
  }
}
