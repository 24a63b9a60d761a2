/**
 * Headings of a markdown page: how deep they are, the title text they carry and the
 * anchor id derived from that title. Page ids written into a heading as `{#id}` are
 * cut off again before the title is shown.
 */
module Headings {
  import opened Wrappers
  import opened Strings
  import opened Seqs

  /** The characters `remove_special_characters` keeps: ASCII letters and digits, and whitespace. */
  predicate IsTitleChar(c: char) {
    IsAsciiAlphanumeric(c) || IsSpace(c)
  }

  /** The characters an anchor id is made of. */
  predicate IsAnchorChar(c: char) {
    IsAsciiLower(c) || IsDigit(c) || c == '-' || (IsSpace(c) && c != ' ')
  }

  /** `remove_special_characters`: every run of other characters is deleted. */
  function RemoveSpecialCharacters(s: string): (r: string)
    ensures |r| <= |s|
  {
    Filter(s, IsTitleChar)
  }

  /**
   * Removing special characters keeps exactly the letters, digits and whitespace,
   * in order, and leaves text made only of those as it is.
   */
  lemma RemoveSpecialCharactersSpec(s: string)
    ensures var r := RemoveSpecialCharacters(s);
      && (forall i :: 0 <= i < |r| ==> IsTitleChar(r[i]))
      && (forall i :: 0 <= i < |s| && IsTitleChar(s[i]) ==> s[i] in r)
      && (forall i :: 0 <= i < |r| ==> r[i] in s)
      && IsSubsequence(r, s)
      && ((forall i :: 0 <= i < |s| ==> IsTitleChar(s[i])) ==> r == s)
  {
    FilterSpec(s, IsTitleChar);
    FilterKeepsAll(s, IsTitleChar);
  }

  /** `get_anchor_id_from_title`: special characters dropped, spaces turned into '-', lower case. */
  function AnchorId(title: string): (r: string)
    ensures |r| <= |title|
  {
    ToLower(ReplaceChar(RemoveSpecialCharacters(title), ' ', '-'))
  }

  /**
   * An anchor id has no space and no upper-case letter: it is made of lower-case
   * letters, digits, hyphens and the whitespace other than ' ' that the title had.
   */
  lemma AnchorIdChars(title: string)
    ensures forall i :: 0 <= i < |AnchorId(title)| ==> IsAnchorChar(AnchorId(title)[i])
    ensures ' ' !in AnchorId(title)
    ensures '\n' !in title ==> '\n' !in AnchorId(title)
    ensures '{' !in AnchorId(title)
  {
    RemoveSpecialCharactersSpec(title);
    var r := AnchorId(title);
    assert forall i :: 0 <= i < |r| ==> IsAnchorChar(r[i]);
  }

  /** A title that is already lower-case words separated by single spaces maps to its hyphenated form. */
  lemma {:induction false} AnchorIdOfPlainTitle(title: string)
    requires forall i :: 0 <= i < |title| ==> IsAsciiLower(title[i]) || IsDigit(title[i]) || title[i] == ' '
    ensures AnchorId(title) == ReplaceChar(title, ' ', '-')
  {
    RemoveSpecialCharactersSpec(title);
  }

  /**
   * `remove_after_last_character`: the text before the last `c`, or all of it when
   * there is no `c`.
   */
  function RemoveAfterLastCharacter(input: string, c: char): (r: string)
    ensures |r| <= |input|
  {
    match LastIndexOfChar(input, c)
    case Some(i) => input[..i]
    case None => input
  }

  /** The prefix kept is everything before the last `c`; without a `c` everything is kept. */
  lemma RemoveAfterLastCharacterSpec(input: string, c: char)
    ensures var r := RemoveAfterLastCharacter(input, c);
      && (c in input ==> |r| < |input| && input[..|r|] == r && input[|r|] == c && c !in input[|r| + 1..])
      && (c !in input ==> r == input)
  {
  }

  /** Text followed by `c` and then a part without `c` is cut back to that text. */
  lemma RemoveAfterLastCharacterCut(a: string, c: char, b: string)
    requires c !in b
    ensures RemoveAfterLastCharacter(a + [c] + b, c) == a
  {
    var s := a + [c] + b;
    assert s[|a|] == c;
    var k := LastIndexOfChar(s, c).value;
    assert s[..|a|] == a;
  }

  /** `line.chars().take_while(|ch| *ch == '#').count()`: the heading level. */
  function Depth(line: string): (r: nat)
    ensures r <= |line|
  {
    |line| - |TrimStartMatches(line, '#')|
  }

  /** The depth is the length of the run of '#' that starts the line. */
  lemma DepthSpec(line: string)
    ensures forall i :: 0 <= i < Depth(line) ==> line[i] == '#'
    ensures Depth(line) < |line| ==> line[Depth(line)] != '#'
  {
    TrimStartMatchesDrops(line, '#');
  }

  /** `line.trim_start_matches('#').trim()`: the title with any id still attached. */
  function HeadingTitle(line: string): string {
    Trim(TrimStartMatches(line, '#'))
  }

  /** The title shown for a heading: the attached `{...}` id, if any, and surrounding space removed. */
  function HeadingText(line: string): string {
    Trim(RemoveAfterLastCharacter(HeadingTitle(line), '{'))
  }

  /** The suffix `{#id}` that gives a heading its id. */
  function IdSuffix(id: string): (r: string)
    ensures r != [] && r[0] == '{' && r[|r| - 1] == '}'
  {
    "{#" + id + "}"
  }

  /** Cutting at the last brace removes exactly the id suffix. */
  lemma CutIdSuffix(a: string, id: string)
    requires '{' !in id
    ensures RemoveAfterLastCharacter(a + IdSuffix(id), '{') == a
  {
    var rest := "#" + id + "}";
    assert '{' !in rest;
    assert a + IdSuffix(id) == a + ['{'] + rest;
    LastIndexOfCharAt(a, '{', rest);
    assert (a + ['{'] + rest)[..|a|] == a;
  }

  /**
   * The heading text survives giving the heading an id: it is read back from the
   * annotated line, which keeps the heading's depth.
   */
  lemma HeadingTextOfAnnotated(line: string, id: string)
    requires '{' !in id
    ensures HeadingText(line + IdSuffix(id)) == HeadingTitle(line)
    ensures Depth(line + IdSuffix(id)) == Depth(line)
  {
    var x := IdSuffix(id);
    var t := TrimStartMatches(line, '#');
    TrimStartMatchesAppend(line, '#', x);
    assert TrimStartMatches(line + x, '#') == t + x;
    TrimAppendNonSpace(t, x);
    var u := TrimStart(t) + x;
    assert HeadingTitle(line + x) == u;
    CutIdSuffix(TrimStart(t), id);
    TrimStartIdempotent(t);
  }

  /** The id is cut at the last brace of the title, which may itself contain braces. */
  lemma RemoveAfterLastCharacterExample()
    ensures Trim(RemoveAfterLastCharacter("QA {hello} {id}", '{')) == "QA {hello}"
  {
    CutAtLastBraceExample();
    TrimTrailingSpaceExample();
  }

  lemma CutAtLastBraceExample()
    ensures RemoveAfterLastCharacter("QA {hello} {id}", '{') == "QA {hello} "
  {
    assert "QA {hello} " + ['{'] + "id}" == "QA {hello} {id}";
    LastIndexOfCharAt("QA {hello} ", '{', "id}");
  }

  lemma TrimTrailingSpaceExample()
    ensures Trim("QA {hello} ") == "QA {hello}"
  {
    var title := "QA {hello} ";
    assert TrimStart(title) == title;
    assert title[..|title| - 1] == "QA {hello}";
    TrimEndNonSpace("QA {hello}");
  }

  /** Without a brace the title is kept whole. */
  lemma RemoveAfterLastCharacterWithoutBrace()
    ensures RemoveAfterLastCharacter("Some text without braces", '{') == "Some text without braces"
  {
    assert '{' !in "Some text without braces";
  }
}
