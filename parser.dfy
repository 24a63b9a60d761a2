/**
 * The two line passes over a page's markdown that run before it is rendered:
 * giving every heading outside fenced code an explicit `{#id}` anchor, and cutting
 * out the author's `$GENERETO{...}` comments.
 */
module Parser {
  import opened Wrappers
  import opened Strings
  import opened Seqs
  import opened LineScan
  import opened Headings
  import opened Toc

  // ---------------------------------------------------------------------------
  // add_ids_to_headings

  /** The id given to a heading: the anchor of its text after the leading '#'s. */
  function HeadingId(line: string): string {
    AnchorId(HeadingTitle(line))
  }

  /** A line as the pass writes it, given the fence flag after its own toggle. */
  function AnnotatedLine(line: string, inCode: bool): string {
    if IsHeading(line) && !inCode then line + IdSuffix(HeadingId(line)) else line
  }

  /** The lines as the pass writes them: each under the fence flag in force at it, starting from `inCode`. */
  function AnnotatedLines(lines: seq<string>, inCode: bool): (r: seq<string>)
    ensures |r| == |lines|
  {
    var states := FenceStates(lines, inCode);
    seq(|lines|, i requires 0 <= i < |lines| => AnnotatedLine(lines[i], states[i]))
  }

  /** The first line is written under its own toggle, the others as the rest of the lines. */
  lemma AnnotatedLinesUnfold(lines: seq<string>, inCode: bool)
    requires lines != []
    ensures var c := InCodeAfter(lines[0], inCode);
      AnnotatedLines(lines, inCode) == [AnnotatedLine(lines[0], c)] + AnnotatedLines(lines[1..], c)
  {
    var c := InCodeAfter(lines[0], inCode);
    var r, rest := AnnotatedLines(lines, inCode), AnnotatedLines(lines[1..], c);
    AnnotatedLinesHead(lines, inCode);
    forall i | 0 < i < |lines|
      ensures r[i] == rest[i - 1]
    {
      AnnotatedLinesShift(lines, inCode, i);
    }
    ConsOfParts(r, AnnotatedLine(lines[0], c), rest);
  }

  lemma AnnotatedLinesHead(lines: seq<string>, inCode: bool)
    requires lines != []
    ensures AnnotatedLines(lines, inCode)[0] == AnnotatedLine(lines[0], InCodeAfter(lines[0], inCode))
  {
    FenceStatesUnfold(lines, inCode);
  }

  /** Line i is written as line i - 1 of the rest, under the flag the first line leaves. */
  lemma AnnotatedLinesShift(lines: seq<string>, inCode: bool, i: nat)
    requires 0 < i < |lines|
    ensures AnnotatedLines(lines, inCode)[i] == AnnotatedLines(lines[1..], InCodeAfter(lines[0], inCode))[i - 1]
  {
    var c := InCodeAfter(lines[0], inCode);
    FenceStatesUnfold(lines, inCode);
    assert FenceStates(lines, inCode)[i] == FenceStates(lines[1..], c)[i - 1];
    assert lines[i] == lines[1..][i - 1];
  }

  /** `add_ids_to_headings`: every written line followed by '\n'. */
  function AddIds(content: string): (r: string)
    ensures Lines(r) == AnnotatedLines(Lines(content), false)
    ensures |Lines(r)| == |Lines(content)|
  {
    AnnotatedReadBack(Lines(content));
    JoinLines(AnnotatedLines(Lines(content), false))
  }

  lemma AnnotatedLinesCons(lines: seq<string>, inCode: bool)
    requires lines != []
    ensures var c := InCodeAfter(lines[0], inCode);
      JoinLines(AnnotatedLines(lines, inCode))
      == AnnotatedLine(lines[0], c) + "\n" + JoinLines(AnnotatedLines(lines[1..], c))
  {
    AnnotatedLinesUnfold(lines, inCode);
  }

  /** One line of `add_ids_to_headings`: toggle the fence flag, then append the id to a heading outside code. */
  method AnnotateLine(line: string, inCode: bool) returns (lineNew: string, inCode': bool)
    ensures inCode' == InCodeAfter(line, inCode)
    ensures lineNew == AnnotatedLine(line, inCode')
  {
    lineNew := line;
    inCode' := inCode;
    if IsFence(line) {
      inCode' := !inCode';
    }
    if IsHeading(line) && !inCode' {
      var title := HeadingTitle(line);
      var anchor := AnchorId(title);
      lineNew := line + "{#" + anchor + "}";
      ConcatAssoc(line, "{#", anchor, "}");
      assert "{#" + anchor + "}" == IdSuffix(HeadingId(line));
    }
  }

  /** The loop of `add_ids_to_headings`. */
  method AddIdsToHeadings(content: string) returns (contentNew: string)
    ensures contentNew == AddIds(content)
  {
    var lines := Lines(content);
    ghost var total := AddIds(content);
    contentNew := "";
    var inCode := false;
    for i := 0 to |lines|
      invariant contentNew + JoinLines(AnnotatedLines(lines[i..], inCode)) == total
    {
      AddIdsStep(lines, i, inCode, contentNew, total);
      var lineNew;
      lineNew, inCode := AnnotateLine(lines[i], inCode);
      contentNew := contentNew + lineNew + "\n";
    }
    assert lines[|lines|..] == [];
  }

  /** The loop's invariant carries over one written line. */
  lemma AddIdsStep(lines: seq<string>, i: nat, inCode: bool, written: string, total: string)
    requires i < |lines|
    requires written + JoinLines(AnnotatedLines(lines[i..], inCode)) == total
    ensures var c := InCodeAfter(lines[i], inCode);
      written + AnnotatedLine(lines[i], c) + "\n" + JoinLines(AnnotatedLines(lines[i + 1..], c)) == total
  {
    var c := InCodeAfter(lines[i], inCode);
    assert lines[i..][0] == lines[i] && lines[i..][1..] == lines[i + 1..];
    AnnotatedLinesCons(lines[i..], inCode);
    ConcatAssoc(written, AnnotatedLine(lines[i], c), "\n", JoinLines(AnnotatedLines(lines[i + 1..], c)));
  }

  /** The title of a line without a newline has none either. */
  lemma NoNewlineInTitle(line: string)
    requires '\n' !in line
    ensures '\n' !in HeadingTitle(line)
  {
    var t := TrimStartMatches(line, '#');
    NotInSlice(line, '\n', |line| - |t|, |line|);
    var u := TrimStart(t);
    NotInSlice(t, '\n', |t| - |u|, |t|);
    NotInSlice(u, '\n', 0, |TrimEnd(u)|);
  }

  /** An annotated heading is still a heading, and so not a fence. */
  lemma AnnotatedIsHeading(line: string)
    requires IsHeading(line)
    ensures IsHeading(line + IdSuffix(HeadingId(line)))
    ensures !IsFence(line + IdSuffix(HeadingId(line)))
  {
    HeadingWithSuffix(line, IdSuffix(HeadingId(line)));
    FenceIsNotHeading(line + IdSuffix(HeadingId(line)));
  }

  /**
   * The table of contents reads back from an annotated heading its original
   * title and, as its anchor, exactly the id the pass appended.
   */
  lemma AnnotatedEntry(line: string)
    ensures EntryOf(line + IdSuffix(HeadingId(line))) == TocEntry(Depth(line), HeadingId(line), HeadingTitle(line))
  {
    AnchorIdChars(HeadingTitle(line));
    HeadingTextOfAnnotated(line, HeadingId(line));
  }

  /** Annotating adds no newline. */
  lemma AnnotatedNoNewline(line: string)
    requires '\n' !in line
    ensures '\n' !in line + IdSuffix(HeadingId(line))
  {
    NoNewlineInTitle(line);
    AnchorIdChars(HeadingTitle(line));
    NoNewlineInSuffix(HeadingId(line));
  }

  /** Appending text that starts and ends with a non-space keeps a heading a heading. */
  lemma HeadingWithSuffix(line: string, x: string)
    requires IsHeading(line) && x != [] && !IsSpace(x[0]) && !IsSpace(x[|x| - 1])
    ensures IsHeading(line + x)
  {
    TrimAppendNonSpace(line, x);
    var t := TrimStart(line);
    assert Trim(line) == TrimEnd(t);
    assert TrimEnd(t)[0] == t[0];
    assert (t + x)[0] == t[0];
  }

  lemma NoNewlineInSuffix(id: string)
    requires '\n' !in id
    ensures '\n' !in IdSuffix(id)
  {
    assert IdSuffix(id) == "{#" + id + "}";
  }

  /** The annotated lines, each written with its '\n', read back as themselves, one per line. */
  lemma AnnotatedReadBack(lines: seq<string>)
    requires forall i :: 0 <= i < |lines| ==> '\n' !in lines[i]
    ensures Lines(JoinLines(AnnotatedLines(lines, false))) == AnnotatedLines(lines, false)
    ensures |AnnotatedLines(lines, false)| == |lines|
  {
    var r := AnnotatedLines(lines, false);
    forall i | 0 <= i < |r|
      ensures '\n' !in r[i]
    {
      AnnotatedNoNewline(lines[i]);
    }
    LinesOfJoinLines(r);
  }

  /** Annotating a line never changes the fence flag it leaves behind. */
  lemma AnnotatedKeepsFence(line: string, inCode: bool)
    ensures var c := InCodeAfter(line, inCode);
      InCodeAfter(AnnotatedLine(line, c), inCode) == c
  {
    var c := InCodeAfter(line, inCode);
    if IsHeading(line) && !c {
      var a := line + IdSuffix(HeadingId(line));
      FenceIsNotHeading(line);
      AnnotatedIsHeading(line);
      assert AnnotatedLine(line, c) == a;
      assert InCodeAfter(a, inCode) == inCode;
    } else {
      assert AnnotatedLine(line, c) == line;
    }
  }

  /** The output has the same fenced code blocks as the input. */
  lemma {:induction false} AnnotatedFenceStates(lines: seq<string>, inCode: bool)
    ensures FenceStates(AnnotatedLines(lines, inCode), inCode) == FenceStates(lines, inCode)
  {
    if lines != [] {
      var c := InCodeAfter(lines[0], inCode);
      var r := AnnotatedLines(lines, inCode);
      AnnotatedKeepsFence(lines[0], inCode);
      AnnotatedLinesUnfold(lines, inCode);
      assert r[0] == AnnotatedLine(lines[0], c) && r[1..] == AnnotatedLines(lines[1..], c);
      AnnotatedFenceStates(lines[1..], c);
    }
  }

  /** The table entries of the headings outside fenced code, anchored at the ids this pass gives them. */
  function IdEntries(lines: seq<string>, inCode: bool): seq<TocEntry> {
    if lines == [] then []
    else
      var c := InCodeAfter(lines[0], inCode);
      (if IsHeading(lines[0]) && !c then [TocEntry(Depth(lines[0]), HeadingId(lines[0]), HeadingTitle(lines[0]))] else [])
      + IdEntries(lines[1..], c)
  }

  /**
   * The table of contents of the annotated page lists the same headings, each with
   * its full title and linking to the id injected into it, whatever braces the
   * title itself holds.
   */
  lemma {:induction false} AnnotatedTocLinksToIds(lines: seq<string>, inCode: bool)
    ensures TocEntries(AnnotatedLines(lines, inCode), inCode) == IdEntries(lines, inCode)
  {
    if lines != [] {
      var line := lines[0];
      var c := InCodeAfter(line, inCode);
      var r := AnnotatedLines(lines, inCode);
      var a := AnnotatedLine(line, c);
      AnnotatedKeepsFence(line, inCode);
      AnnotatedLinesUnfold(lines, inCode);
      assert r[0] == a && r[1..] == AnnotatedLines(lines[1..], c);
      TocEntriesCons(r, inCode);
      AnnotatedTocLinksToIds(lines[1..], c);
      if IsHeading(line) && !c {
        AnnotatedIsHeading(line);
        AnnotatedEntry(line);
      }
    }
  }

  // ---------------------------------------------------------------------------
  // filter_out_comments

  const CommentMarker := "$GENERETO{"

  /** A line whose trimmed form starts with the marker: a comment taking the whole line. */
  predicate IsCommentLine(line: string) {
    StartsWith(Trim(line), CommentMarker)
  }

  /**
   * What the source demands of a line it reaches outside fenced code: an inline
   * comment has a '}' no earlier than just before its marker, as slicing from the
   * marker to the first '}' panics otherwise.
   */
  predicate CommentClosed(line: string) {
    match IndexOf(line, CommentMarker)
    case None => true
    case Some(start) =>
      IsCommentLine(line) || (IndexOfChar(line, '}').Some? && start <= IndexOfChar(line, '}').value + 1)
  }

  /** `s.replace(p, "")`: an empty pattern matches only between characters and removes nothing. */
  function RemoveAll(s: string, p: string): string {
    if p == [] then s else ReplaceAll(s, p, "")
  }

  /** The span from the first marker through the first '}' of the line, removed wherever it occurs. */
  function RemoveInlineComment(line: string): string
    requires IsInfix(CommentMarker, line) && CommentClosed(line) && !IsCommentLine(line)
  {
    var start := IndexOf(line, CommentMarker).value;
    var end := IndexOfChar(line, '}').value;
    RemoveAll(line, line[start..end + 1])
  }

  /**
   * What a line outside fenced code contributes: nothing for a whole-line comment,
   * the line without its comment (and without its newline) for an inline one, and
   * the line and its newline otherwise.
   */
  function FilteredLine(line: string): string
    requires CommentClosed(line)
  {
    if IsCommentLine(line) then ""
    else if Contains(line, CommentMarker) then RemoveInlineComment(line)
    else line + "\n"
  }

  /** Every line the pass looks at, that is every line outside fenced code, is `CommentClosed`. */
  predicate CommentsClosed(lines: seq<string>, inCode: bool) {
    lines == []
    || (var c := InCodeAfter(lines[0], inCode);
        (c || CommentClosed(lines[0])) && CommentsClosed(lines[1..], c))
  }

  /** The text the pass writes for `lines`: lines inside fenced code are skipped. */
  function FilteredText(lines: seq<string>, inCode: bool): string
    requires CommentsClosed(lines, inCode)
  {
    if lines == [] then ""
    else
      var c := InCodeAfter(lines[0], inCode);
      if c then FilteredText(lines[1..], c) else FilteredLine(lines[0]) + FilteredText(lines[1..], c)
  }

  /** `filter_out_comments`. */
  function FilterComments(content: string): (r: string)
    requires CommentsClosed(Lines(content), false)
    ensures PlainLines(Lines(content)) ==> r == JoinLines(Lines(content))
  {
    PlainTextKept(Lines(content));
    FilteredText(Lines(content), false)
  }

  /** Lines with neither a fence nor the comment marker. */
  ghost predicate PlainLines(lines: seq<string>) {
    forall i :: 0 <= i < |lines| ==> !IsFence(lines[i]) && !IsInfix(CommentMarker, lines[i])
  }

  /** Plain lines are written back one by one, each with its newline. */
  lemma {:induction false} PlainTextKept(lines: seq<string>)
    ensures PlainLines(lines) ==> CommentsClosed(lines, false) && FilteredText(lines, false) == JoinLines(lines)
  {
    if lines != [] && PlainLines(lines) {
      PlainTail(lines);
      PlainTextKept(lines[1..]);
      PlainTextStep(lines);
    }
  }

  /** The first of plain lines is plain, and so are the others. */
  lemma PlainTail(lines: seq<string>)
    requires lines != [] && PlainLines(lines)
    ensures !IsFence(lines[0]) && !IsInfix(CommentMarker, lines[0]) && PlainLines(lines[1..])
  {
    var rest := lines[1..];
    forall i | 0 <= i < |rest|
      ensures !IsFence(rest[i]) && !IsInfix(CommentMarker, rest[i])
    {
      assert rest[i] == lines[i + 1];
    }
  }

  /** A plain first line is written back with its newline ahead of the others. */
  lemma PlainTextStep(lines: seq<string>)
    requires lines != [] && !IsFence(lines[0]) && !IsInfix(CommentMarker, lines[0])
    requires CommentsClosed(lines[1..], false) && FilteredText(lines[1..], false) == JoinLines(lines[1..])
    ensures CommentsClosed(lines, false) && FilteredText(lines, false) == JoinLines(lines)
  {
    PlainLineFiltered(lines[0]);
  }

  /** A line without a comment or a fence, outside code, is kept with its newline and opens no code. */
  lemma PlainLineFiltered(line: string)
    requires !IsFence(line) && !IsInfix(CommentMarker, line)
    ensures !InCodeAfter(line, false) && CommentClosed(line) && FilteredLine(line) == line + "\n"
  {
    assert IndexOf(line, CommentMarker).None?;
    CommentLineHasMarker(line);
  }

  lemma FilteredTextCons(lines: seq<string>, inCode: bool)
    requires lines != [] && CommentsClosed(lines, inCode)
    ensures var c := InCodeAfter(lines[0], inCode);
      && (!c ==> CommentClosed(lines[0]))
      && CommentsClosed(lines[1..], c)
      && FilteredText(lines, inCode)
         == if c then FilteredText(lines[1..], c) else FilteredLine(lines[0]) + FilteredText(lines[1..], c)
  {
  }

  /** One iteration of the loop of `filter_out_comments`. */
  lemma FilterStep(lines: seq<string>, i: nat, inCode: bool, done: string, total: string)
    requires i < |lines| && CommentsClosed(lines[i..], inCode)
    requires done + FilteredText(lines[i..], inCode) == total
    ensures var c := InCodeAfter(lines[i], inCode);
      && CommentsClosed(lines[i + 1..], c)
      && (c ==> done + FilteredText(lines[i + 1..], c) == total)
      && (!c ==> CommentClosed(lines[i]) && done + FilteredLine(lines[i]) + FilteredText(lines[i + 1..], c) == total)
  {
    assert lines[i..][0] == lines[i] && lines[i..][1..] == lines[i + 1..];
    FilteredTextCons(lines[i..], inCode);
    var c := InCodeAfter(lines[i], inCode);
    if !c {
      ConcatAssoc3(done, FilteredLine(lines[i]), FilteredText(lines[i + 1..], c));
    }
  }

  /**
   * One iteration of `filter_out_comments`: toggle the fence flag, then, outside
   * code, drop a comment line, cut an inline comment, or keep the line and its newline.
   */
  method FilterLine(line: string, inCode: bool) returns (lineNew: string, inCode': bool)
    requires !InCodeAfter(line, inCode) ==> CommentClosed(line)
    ensures inCode' == InCodeAfter(line, inCode)
    ensures !inCode' ==> lineNew == FilteredLine(line)
  {
    inCode' := inCode;
    if IsFence(line) {
      inCode' := !inCode';
    }
    if inCode' {
      return line, inCode';
    }
    if IsCommentLine(line) {
      lineNew := "";
    } else if Contains(line, CommentMarker) {
      var start := IndexOf(line, CommentMarker).value;
      var end := IndexOfChar(line, '}').value;
      lineNew := RemoveAll(line, line[start..end + 1]);
    } else {
      lineNew := line + "\n";
    }
  }

  /** The loop of `filter_out_comments`. */
  method FilterOutComments(content: string) returns (contentNew: string)
    requires CommentsClosed(Lines(content), false)
    ensures contentNew == FilterComments(content)
  {
    var lines := Lines(content);
    ghost var total := FilteredText(lines, false);
    contentNew := "";
    var inCode := false;
    assert lines[0..] == lines;
    for i := 0 to |lines|
      invariant CommentsClosed(lines[i..], inCode)
      invariant contentNew + FilteredText(lines[i..], inCode) == total
    {
      FilterStep(lines, i, inCode, contentNew, total);
      var lineNew;
      lineNew, inCode := FilterLine(lines[i], inCode);
      if !inCode {
        contentNew := contentNew + lineNew;
      }
    }
    assert lines[|lines|..] == [];
    FilterCommentsIsText(content);
  }

  /** The text `filter_out_comments` returns is the filtered text of its lines. */
  lemma FilterCommentsIsText(content: string)
    requires CommentsClosed(Lines(content), false)
    ensures FilterComments(content) == FilteredText(Lines(content), false)
  {
  }

  /** A comment line is never a fence: its trimmed form starts with '$'. */
  lemma CommentLineIsNotFence(line: string)
    requires IsCommentLine(line)
    ensures !IsFence(line)
  {
    assert Trim(line)[0] == '$';
  }

  /** A whole-line comment vanishes, newline included. */
  lemma CommentLineVanishes(line: string, rest: seq<string>)
    requires IsCommentLine(line) && CommentsClosed(rest, false)
    ensures CommentsClosed([line] + rest, false)
    ensures FilteredText([line] + rest, false) == FilteredText(rest, false)
  {
    CommentLineIsNotFence(line);
    assert ([line] + rest)[1..] == rest;
    assert CommentClosed(line);
  }

  /** A line outside fenced code without the marker is written as it is, with its newline. */
  lemma PlainLineKept(line: string, rest: seq<string>)
    requires !IsFence(line) && !IsInfix(CommentMarker, line) && CommentsClosed(rest, false)
    ensures CommentsClosed([line] + rest, false)
    ensures FilteredText([line] + rest, false) == line + "\n" + FilteredText(rest, false)
  {
    assert ([line] + rest)[1..] == rest;
    assert IndexOf(line, CommentMarker).None?;
    CommentLineHasMarker(line);
  }

  /** A whole-line comment holds the marker. */
  lemma CommentLineHasMarker(line: string)
    ensures IsCommentLine(line) ==> IsInfix(CommentMarker, line)
  {
    if IsCommentLine(line) {
      TrimmedPrefixOccurs(line, CommentMarker);
    }
  }

  /** Skipped code lines: lines without a fence inside a block contribute nothing. */
  lemma {:induction false} CodeLinesSkipped(block: seq<string>, rest: seq<string>)
    requires NoFences(block)
    requires CommentsClosed(rest, true)
    ensures CommentsClosed(block + rest, true)
    ensures FilteredText(block + rest, true) == FilteredText(rest, true)
  {
    if block != [] {
      AppendTail(block, rest);
      CodeLinesSkipped(block[1..], rest);
    } else {
      assert block + rest == rest;
    }
  }

  /**
   * The pass drops a fenced block, opening fence and code lines alike, and goes on
   * with the closing fence as an ordinary line.
   */
  lemma FencedBlockDropped(open: string, block: seq<string>, close: string, rest: seq<string>)
    requires IsFence(open) && IsFence(close)
    requires NoFences(block)
    requires CommentClosed(close) && CommentsClosed(rest, false)
    ensures CommentsClosed([open] + block + [close] + rest, false)
    ensures FilteredText([open] + block + [close] + rest, false) == FilteredLine(close) + FilteredText(rest, false)
  {
    var all := [open] + block + [close] + rest;
    var tail := [close] + rest;
    ConsTail(close, rest);
    assert CommentsClosed(tail, true);
    FilteredTextCons(tail, true);
    CodeLinesSkipped(block, tail);
    ConsAssoc(open, block, close, rest);
    ConsTail(open, block + tail);
    FilteredTextCons(all, false);
  }

  /** An inline comment: the marker, then text without '}', then '}'. */
  predicate IsInlineComment(span: string) {
    StartsWith(span, CommentMarker) && span[|span| - 1] == '}' && '}' !in span[..|span| - 1]
  }

  /** In text, then a comment, then more, the marker and the first '}' are those of the comment. */
  lemma CommentSpanBounds(a: string, span: string, b: string)
    requires '$' !in a && '}' !in a && IsInlineComment(span)
    ensures IndexOf(a + span + b, CommentMarker) == Some(|a|)
    ensures IndexOfChar(a + span + b, '}') == Some(|a| + |span| - 1)
  {
    CommentMarkerFirst(a, span, b);
    CommentCloseFirst(a, span, b);
  }

  lemma CommentMarkerFirst(a: string, span: string, b: string)
    requires '$' !in a && StartsWith(span, CommentMarker)
    ensures IndexOf(a + span + b, CommentMarker) == Some(|a|)
  {
    var line := a + span + b;
    ConcatAssoc3(a, span, b);
    assert (span + b)[..|CommentMarker|] == CommentMarker;
    assert OccursAt(line, CommentMarker, |a|);
    NoMarkerBefore(a, span + b);
  }

  lemma CommentCloseFirst(a: string, span: string, b: string)
    requires '}' !in a && span != [] && span[|span| - 1] == '}' && '}' !in span[..|span| - 1]
    ensures IndexOfChar(a + span + b, '}') == Some(|a| + |span| - 1)
  {
    var before := span[..|span| - 1];
    SplitLast(a, span, b);
    assert '}' !in a + before;
    IndexOfCharAt(a + before, '}', b);
  }

  lemma SplitLast<T>(a: seq<T>, s: seq<T>, b: seq<T>)
    requires s != []
    ensures a + s + b == (a + s[..|s| - 1]) + [s[|s| - 1]] + b
  {
    assert s == s[..|s| - 1] + [s[|s| - 1]];
  }

  /** No marker starts inside text without '$'. */
  lemma NoMarkerBefore(a: string, rest: string)
    requires '$' !in a
    ensures forall i: nat :: i < |a| ==> !OccursAt(a + rest, CommentMarker, i)
  {
    forall i: nat | i < |a|
      ensures !OccursAt(a + rest, CommentMarker, i)
    {
      StartsWithFirst((a + rest)[i..], CommentMarker);
      assert (a + rest)[i..][0] == a[i];
    }
  }

  /** A line whose text before the marker is not blank is not a whole-line comment. */
  lemma TextBeforeComment(a: string, rest: string)
    requires TrimStart(a) != [] && '$' !in a
    requires rest != [] && rest[0] == '$'
    ensures !IsCommentLine(a + rest)
  {
    TrimStartAppend(a, rest);
    TrimFirst(a + rest);
    NotInSlice(a, '$', |a| - |TrimStart(a)|, |a|);
    FirstNotMarker(a + rest);
  }

  /** A line whose trimmed text starts with anything but '$' is not a whole-line comment. */
  lemma FirstNotMarker(line: string)
    requires Trim(line) != [] ==> Trim(line)[0] != '$'
    ensures !IsCommentLine(line)
  {
    StartsWithFirst(Trim(line), CommentMarker);
  }

  /** A line with text before its inline comment is filtered by removing the comment's span. */
  lemma InlineCommentLine(a: string, span: string, b: string)
    requires TrimStart(a) != [] && '$' !in a && '}' !in a && IsInlineComment(span)
    ensures CommentClosed(a + span + b) && !IsCommentLine(a + span + b)
    ensures FilteredLine(a + span + b) == RemoveAll(a + span + b, span)
  {
    var line := a + span + b;
    CommentSpanBounds(a, span, b);
    StartsWithFirst(span, CommentMarker);
    ConcatAssoc3(a, span, b);
    TextBeforeComment(a, span + b);
    assert line[|a|..|a| + |span|] == span;
  }

  /** Removing a span that cannot start inside `a` leaves `a` and removes the span after it. */
  lemma RemoveSpanAfter(a: string, span: string, b: string)
    requires '$' !in a && span != [] && span[0] == '$'
    ensures RemoveAll(a + span + b, span) == a + RemoveAll(b, span)
  {
    ConcatAssoc3(a, span, b);
    forall i: nat | i < |a|
      ensures !OccursAt(a + (span + b), span, i)
    {
      assert (a + (span + b))[i] == a[i];
    }
    ReplaceAllSkip(a, span + b, span, "");
    ReplaceAllAtStart(span, b, "");
  }

  /**
   * An inline comment after some text: the span from the marker through the first
   * '}' goes, here and wherever it recurs later in the line, and so does the newline.
   */
  lemma InlineCommentRemoved(a: string, span: string, b: string)
    requires TrimStart(a) != [] && '$' !in a && '}' !in a && IsInlineComment(span)
    ensures CommentClosed(a + span + b)
    ensures FilteredLine(a + span + b) == a + RemoveAll(b, span)
  {
    InlineCommentLine(a, span, b);
    StartsWithFirst(span, CommentMarker);
    RemoveSpanAfter(a, span, b);
  }

  /**
   * The shape of the source's own example: a whole-line comment, a plain line, and
   * a line ending in an inline comment give the plain line with its newline and
   * the text before the comment, without a newline.
   */
  lemma CommentFilterExample(lines: seq<string>, comment: string, plain: string, a: string, span: string)
    requires IsCommentLine(comment)
    requires !IsFence(plain) && !IsInfix(CommentMarker, plain)
    requires TrimStart(a) != [] && '$' !in a && '}' !in a && IsInlineComment(span)
    requires !IsFence(a + span)
    requires |lines| == 3 && lines[0] == comment && lines[1] == plain && lines[2] == a + span
    ensures CommentsClosed(lines, false)
    ensures FilteredText(lines, false) == plain + "\n" + a
  {
    var tail := [plain] + [a + span];
    PlainThenInline(plain, a, span);
    CommentLineVanishes(comment, tail);
    assert lines == [comment] + tail;
  }

  /** A plain line and then a line ending in an inline comment. */
  lemma PlainThenInline(plain: string, a: string, span: string)
    requires !IsFence(plain) && !IsInfix(CommentMarker, plain)
    requires TrimStart(a) != [] && '$' !in a && '}' !in a && IsInlineComment(span)
    requires !IsFence(a + span)
    ensures CommentsClosed([plain] + [a + span], false)
    ensures FilteredText([plain] + [a + span], false) == plain + "\n" + a
  {
    InlineCommentAlone(a, span);
    PlainLineKept(plain, [a + span]);
  }

  /** A last line that ends in an inline comment contributes the text before it, without newline. */
  lemma InlineCommentAlone(a: string, span: string)
    requires TrimStart(a) != [] && '$' !in a && '}' !in a && IsInlineComment(span)
    requires !IsFence(a + span)
    ensures CommentsClosed([a + span], false)
    ensures FilteredText([a + span], false) == a
  {
    var last := a + span;
    InlineCommentRemoved(a, span, "");
    assert a + span + "" == last;
    assert RemoveAll("", span) == "";
    assert [last][1..] == [];
    assert CommentsClosed([last], false);
    FilteredTextCons([last], false);
  }

  // ---------------------------------------------------------------------------
  // Fenced code copied through

  /**
   * The pass with fenced code copied through: lines inside fenced code keep their
   * text and their newline, and only the other lines lose their comments. The
   * comment above `filter_out_comments` promises to remove only comments.
   */
  function FilteredTextKeepingCode(lines: seq<string>, inCode: bool): string
    requires CommentsClosed(lines, inCode)
  {
    if lines == [] then ""
    else
      var c := InCodeAfter(lines[0], inCode);
      if c then lines[0] + "\n" + FilteredTextKeepingCode(lines[1..], c)
      else FilteredLine(lines[0]) + FilteredTextKeepingCode(lines[1..], c)
  }

  lemma KeepingCodeCons(lines: seq<string>, inCode: bool)
    requires lines != []
    requires var c := InCodeAfter(lines[0], inCode);
      CommentsClosed(lines[1..], c) && (!c ==> CommentClosed(lines[0]))
    ensures CommentsClosed(lines, inCode)
    ensures var c := InCodeAfter(lines[0], inCode);
      FilteredTextKeepingCode(lines, inCode)
      == if c then lines[0] + "\n" + FilteredTextKeepingCode(lines[1..], c)
         else FilteredLine(lines[0]) + FilteredTextKeepingCode(lines[1..], c)
  {
  }

  lemma {:induction false} CodeLinesKept(block: seq<string>, rest: seq<string>)
    requires NoFences(block)
    requires CommentsClosed(rest, true)
    ensures CommentsClosed(block + rest, true)
    ensures FilteredTextKeepingCode(block + rest, true) == JoinLines(block) + FilteredTextKeepingCode(rest, true)
  {
    if block != [] {
      var all := block + rest;
      AppendTail(block, rest);
      CodeLinesKept(block[1..], rest);
      KeepingCodeCons(all, true);
      var head := block[0] + "\n";
      var x := FilteredTextKeepingCode(rest, true);
      assert FilteredTextKeepingCode(all, true) == head + (JoinLines(block[1..]) + x);
      assert JoinLines(block) == head + JoinLines(block[1..]);
      ConcatAssoc3(head, JoinLines(block[1..]), x);
    } else {
      assert block + rest == rest;
    }
  }

  /** A fenced block, opening fence and code lines alike, is copied through as it is. */
  lemma FencedBlockKept(open: string, block: seq<string>, close: string, rest: seq<string>)
    requires IsFence(open) && IsFence(close)
    requires NoFences(block)
    requires CommentClosed(close) && CommentsClosed(rest, false)
    ensures CommentsClosed([open] + block + [close] + rest, false)
    ensures FilteredTextKeepingCode([open] + block + [close] + rest, false)
      == JoinLines([open] + block) + FilteredLine(close) + FilteredTextKeepingCode(rest, false)
  {
    var all := [open] + block + [close] + rest;
    var tail := [close] + rest;
    ConsTail(close, rest);
    KeepingCodeCons(tail, true);
    CodeLinesKept(block, tail);
    ConsAssoc(open, block, close, rest);
    ConsTail(open, block + tail);
    KeepingCodeCons(all, false);
    ConsTail(open, block);
    var h, j := open + "\n", JoinLines(block);
    var f, r := FilteredLine(close), FilteredTextKeepingCode(rest, false);
    assert JoinLines([open] + block) == h + j;
    assert FilteredTextKeepingCode(all, false) == h + (j + (f + r));
    ConcatAssoc3(j, f, r);
    ConcatAssoc(h, j, f, r);
  }
}
