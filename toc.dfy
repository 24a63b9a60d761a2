/**
 * The table of contents of a page: a nested HTML list with one link per heading
 * outside fenced code, nested by heading depth. The list starts at depth 2 (`##`),
 * as a page's single `#` heading is its title.
 */
module Toc {
  import opened Strings
  import opened Seqs
  import opened LineScan
  import opened Headings

  /** One heading as the table lists it. */
  datatype TocEntry = TocEntry(depth: nat, anchor: string, title: string)

  function EntryOf(line: string): TocEntry {
    var title := HeadingText(line);
    TocEntry(Depth(line), AnchorId(title), title)
  }

  /** The entries of the heading lines that are not inside fenced code, in order. */
  function TocEntries(lines: seq<string>, inCode: bool): (r: seq<TocEntry>)
    ensures |r| <= |lines|
    ensures Anchored(r)
  {
    if lines == [] then []
    else
      var c := InCodeAfter(lines[0], inCode);
      var head := if IsHeading(lines[0]) && !c then [EntryOf(lines[0])] else [];
      var rest := TocEntries(lines[1..], c);
      EntryAnchored(lines[0]);
      AnchoredAppend(head, rest);
      head + rest
  }

  /** Every entry links to the anchor derived from the title it shows. */
  predicate Anchored(entries: seq<TocEntry>) {
    forall i :: 0 <= i < |entries| ==> entries[i].anchor == AnchorId(entries[i].title)
  }

  lemma EntryAnchored(line: string)
    ensures Anchored([EntryOf(line)]) && Anchored([])
  {
    var e := EntryOf(line);
    assert e.anchor == AnchorId(e.title);
    OneAnchored(e);
  }

  lemma OneAnchored(e: TocEntry)
    requires e.anchor == AnchorId(e.title)
    ensures Anchored([e])
  {
    assert [e][0] == e;
  }

  lemma AnchoredAppend(a: seq<TocEntry>, b: seq<TocEntry>)
    requires Anchored(a) && Anchored(b)
    ensures Anchored(a + b)
  {
    forall i | 0 <= i < |a + b|
      ensures (a + b)[i].anchor == AnchorId((a + b)[i].title)
    {
      if i < |a| {
        assert (a + b)[i] == a[i];
      } else {
        assert (a + b)[i] == b[i - |a|];
      }
    }
  }

  /** Lines inside fenced code that do not close it contribute nothing. */
  lemma {:induction false} CodeLinesUnlisted(block: seq<string>, rest: seq<string>)
    requires NoFences(block)
    ensures TocEntries(block + rest, true) == TocEntries(rest, true)
  {
    if block != [] {
      assert (block + rest)[1..] == block[1..] + rest;
      CodeLinesUnlisted(block[1..], rest);
    } else {
      assert block + rest == rest;
    }
  }

  /** A fenced block, fences included, is left out of the table whatever headings it holds. */
  lemma FencedBlockUnlisted(open: string, block: seq<string>, close: string, rest: seq<string>)
    requires IsFence(open) && IsFence(close)
    requires NoFences(block)
    ensures TocEntries([open] + block + [close] + rest, false) == TocEntries(rest, false)
  {
    var all := [open] + block + [close] + rest;
    var tail := [close] + rest;
    FenceIsNotHeading(open);
    FenceIsNotHeading(close);
    ConsAssoc(open, block, close, rest);
    ConsTail(open, block + tail);
    TocEntriesCons(all, false);
    CodeLinesUnlisted(block, tail);
    ConsTail(close, rest);
    TocEntriesCons(tail, true);
  }

  /** A heading outside fenced code is listed, in place. */
  lemma HeadingListed(line: string, rest: seq<string>)
    requires IsHeading(line)
    ensures TocEntries([line] + rest, false) == [EntryOf(line)] + TocEntries(rest, false)
  {
    FenceIsNotHeading(line);
    assert ([line] + rest)[1..] == rest;
  }

  /** The link for one entry. */
  function EntryHtml(e: TocEntry): string {
    "<li><a href=\"#" + e.anchor + "\" class=\"table_of_contents-indent-" + Decimal(e.depth) + "\">"
    + e.title + "</a>"
  }

  /** What separates two consecutive entries: open a list, close one, or end the item. */
  function Transition(current: nat, next: nat): (r: string)
    ensures |r| >= 6
  {
    if current > next then "\n</ul>\n"
    else if current < next then "\n<ul>\n"
    else "</li>\n"
  }

  /** The list ends closed after the last entry, down to depth 2. */
  function Closers(depth: nat): (r: string)
    ensures |r| == if depth > 2 then 6 * (depth - 2) else 0
  {
    if depth > 2 then "</ul>\n" + Closers(depth - 1) else ""
  }

  /** The accumulated list text when reaching `entries` at depth `depth`. */
  function TocBody(entries: seq<TocEntry>, depth: nat): string {
    if entries == [] then Closers(depth)
    else Transition(depth, entries[0].depth) + EntryHtml(entries[0]) + TocBody(entries[1..], entries[0].depth)
  }

  /** The depth in force before entry `i`. */
  function DepthBefore(entries: seq<TocEntry>, depth: nat, i: nat): nat
    requires i <= |entries|
  {
    if i == 0 then depth else entries[i - 1].depth
  }

  /** The item of entry `i`: the separator from the previous depth, then the link. */
  function ItemAt(entries: seq<TocEntry>, depth: nat, i: nat): string
    requires i < |entries|
  {
    Transition(DepthBefore(entries, depth, i), entries[i].depth) + EntryHtml(entries[i])
  }

  /** The items of all entries, in order. */
  function Items(entries: seq<TocEntry>, depth: nat): (r: seq<string>)
    ensures |r| == |entries|
    ensures forall i :: 0 <= i < |r| ==> r[i] == ItemAt(entries, depth, i)
  {
    seq(|entries|, i requires 0 <= i < |entries| => ItemAt(entries, depth, i))
  }

  /**
   * The list is one link per entry, in order, each preceded by the separator its
   * depth change calls for, and then the closers from the last depth down to 2.
   */
  lemma {:induction false} TocBodyShape(entries: seq<TocEntry>, depth: nat)
    ensures TocBody(entries, depth) == Flatten(Items(entries, depth)) + Closers(DepthBefore(entries, depth, |entries|))
  {
    if entries != [] {
      TocBodyShape(entries[1..], entries[0].depth);
      TocBodyStep(entries, depth);
    }
  }

  /** The step of the induction: the first item, then the list of the remaining entries. */
  lemma TocBodyStep(entries: seq<TocEntry>, depth: nat)
    requires entries != []
    requires var d := entries[0].depth;
      TocBody(entries[1..], d) == Flatten(Items(entries[1..], d)) + Closers(DepthBefore(entries[1..], d, |entries| - 1))
    ensures TocBody(entries, depth) == Flatten(Items(entries, depth)) + Closers(DepthBefore(entries, depth, |entries|))
  {
    var d := entries[0].depth;
    var all, rest := Items(entries, depth), Items(entries[1..], d);
    var closers := Closers(DepthBefore(entries, depth, |entries|));
    ItemsShift(entries, depth);
    assert Flatten(all) == all[0] + Flatten(rest);
    assert DepthBefore(entries, depth, |entries|) == DepthBefore(entries[1..], d, |entries| - 1);
    assert TocBody(entries, depth) == all[0] + TocBody(entries[1..], d);
    ConcatAssoc3(all[0], Flatten(rest), closers);
  }

  /** The items after the first are those of the remaining entries, from the first entry's depth. */
  lemma ItemsShift(entries: seq<TocEntry>, depth: nat)
    requires entries != []
    ensures Items(entries, depth)[1..] == Items(entries[1..], entries[0].depth)
  {
    var d := entries[0].depth;
    var all, rest := Items(entries, depth), Items(entries[1..], d);
    forall i | 0 <= i < |rest|
      ensures all[1..][i] == rest[i]
    {
      assert DepthBefore(entries, depth, i + 1) == DepthBefore(entries[1..], d, i);
    }
  }

  lemma TocEntriesCons(lines: seq<string>, inCode: bool)
    requires lines != []
    ensures var c := InCodeAfter(lines[0], inCode);
      TocEntries(lines, inCode)
      == (if IsHeading(lines[0]) && !c then [EntryOf(lines[0])] else []) + TocEntries(lines[1..], c)
  {
  }

  /**
   * The list text the loop accumulates from `lines` on, given the fence flag and the
   * current depth, closers included.
   */
  function TocText(lines: seq<string>, inCode: bool, depth: nat): string {
    if lines == [] then Closers(depth)
    else
      var c := InCodeAfter(lines[0], inCode);
      if IsHeading(lines[0]) && !c then
        Transition(depth, Depth(lines[0])) + EntryHtml(EntryOf(lines[0])) + TocText(lines[1..], c, Depth(lines[0]))
      else TocText(lines[1..], c, depth)
  }

  /** The loop's text is the list built from the entries it finds. */
  lemma {:induction false} TocTextIsBody(lines: seq<string>, inCode: bool, depth: nat)
    ensures TocText(lines, inCode, depth) == TocBody(TocEntries(lines, inCode), depth)
  {
    if lines != [] {
      var line, rest := lines[0], lines[1..];
      var c := InCodeAfter(line, inCode);
      TocEntriesCons(lines, inCode);
      if IsHeading(line) && !c {
        assert TocEntries(lines, inCode) == [EntryOf(line)] + TocEntries(rest, c);
        assert TocText(lines, inCode, depth)
          == Transition(depth, Depth(line)) + EntryHtml(EntryOf(line)) + TocText(rest, c, Depth(line));
        TocTextIsBody(rest, c, Depth(line));
        TocBodyCons(EntryOf(line), TocEntries(rest, c), depth);
      } else {
        assert TocEntries(lines, inCode) == TocEntries(rest, c);
        assert TocText(lines, inCode, depth) == TocText(rest, c, depth);
        TocTextIsBody(rest, c, depth);
      }
    }
  }

  /** One line of the loop: a listed heading adds its separator and link, any other line nothing. */
  lemma TocTextCons(lines: seq<string>, inCode: bool, depth: nat)
    requires lines != []
    ensures var c := InCodeAfter(lines[0], inCode);
      TocText(lines, inCode, depth)
      == if IsHeading(lines[0]) && !c then
           Transition(depth, Depth(lines[0])) + EntryHtml(EntryOf(lines[0])) + TocText(lines[1..], c, Depth(lines[0]))
         else TocText(lines[1..], c, depth)
  {
  }

  lemma TocBodyCons(e: TocEntry, rest: seq<TocEntry>, depth: nat)
    ensures TocBody([e] + rest, depth) == Transition(depth, e.depth) + EntryHtml(e) + TocBody(rest, e.depth)
  {
    assert ([e] + rest)[1..] == rest;
  }

  lemma TocBodyLength(entries: seq<TocEntry>, depth: nat)
    requires entries != []
    ensures |TocBody(entries, depth)| >= 6
  {
  }

  const TocHeader := "<ul class=\"table_of_contents\">\n"

  /** The document has a heading outside fenced code; without one the generator panics. */
  predicate HasTocEntries(markdown: string) {
    TocEntries(Lines(markdown), false) != []
  }

  /**
   * `generate_table_of_contents`: the list text without its first separator, which
   * is six characters long, inside the outer list.
   */
  function TableOfContents(markdown: string): (r: string)
    requires HasTocEntries(markdown)
    ensures StartsWith(r, TocHeader)
    ensures |r| >= |TocHeader| + 5 && r[|r| - 5..] == "</ul>"
  {
    var body := TocText(Lines(markdown), false, 2);
    TocTextIsBody(Lines(markdown), false, 2);
    TocBodyLength(TocEntries(Lines(markdown), false), 2);
    var r := TocHeader + body[6..] + "</ul>";
    Wrapped(TocHeader, body[6..], "</ul>");
    r
  }

  /** The table starts with '<' and ends with '>': trimming it changes nothing. */
  lemma TableOfContentsTrimmed(markdown: string)
    requires HasTocEntries(markdown)
    ensures Trim(TableOfContents(markdown)) == TableOfContents(markdown)
  {
    var r := TableOfContents(markdown);
    assert r[0] == r[..|TocHeader|][0] == '<';
    assert r[|r| - 1] == r[|r| - 5..][4] == '>';
    TrimUnpadded(r);
  }

  /** Text wrapped between a head and a tail starts with the head and ends with the tail. */
  lemma Wrapped(head: string, mid: string, tail: string)
    ensures var r := head + mid + tail;
      StartsWith(r, head) && |r| >= |head| + |tail| && r[|r| - |tail|..] == tail
  {
    var r := head + mid + tail;
    assert r[..|head|] == head;
    assert r[|r| - |tail|..] == tail;
  }

  /** One line of the scan: toggle the fence flag, and for a listed heading add its separator and link. */
  method ScanLine(line: string, body: string, inCode: bool, current: nat)
    returns (body': string, inCode': bool, current': nat)
    ensures inCode' == InCodeAfter(line, inCode)
    ensures IsHeading(line) && !inCode' ==>
      body' == body + Transition(current, Depth(line)) + EntryHtml(EntryOf(line)) && current' == Depth(line)
    ensures !(IsHeading(line) && !inCode') ==> body' == body && current' == current
  {
    body', inCode', current' := body, inCode, current;
    if IsFence(line) {
      inCode' := !inCode';
    }
    if IsHeading(line) && !inCode' {
      var depth := Depth(line);
      if current > depth {
        body' := body' + "\n</ul>\n";
      } else if current < depth {
        body' := body' + "\n<ul>\n";
      } else {
        body' := body' + "</li>\n";
      }
      var title := HeadingText(line);
      var anchor := AnchorId(title);
      var link := "<li><a href=\"#" + anchor + "\" class=\"table_of_contents-indent-" + Decimal(depth) + "\">"
        + title + "</a>";
      body' := body' + link;
      current' := depth;
    }
  }

  /** The closing loop: close the open lists down to depth 2. */
  method CloseLists(body: string, current: nat) returns (r: string)
    ensures r == body + Closers(current)
  {
    r := body;
    var depth := current;
    while depth > 2
      invariant r + Closers(depth) == body + Closers(current)
    {
      r := r + "</ul>\n";
      depth := depth - 1;
    }
  }

  /** The loop of `generate_table_of_contents`, tracking the fence flag and the current depth. */
  method GenerateTableOfContents(markdown: string) returns (toc: string)
    requires HasTocEntries(markdown)
    ensures toc == TableOfContents(markdown)
  {
    var lines := Lines(markdown);
    ghost var total := TocText(lines, false, 2);
    var body := "";
    var inCode := false;
    var current: nat := 2;
    var i := 0;
    assert lines[i..] == lines;
    while i < |lines|
      invariant 0 <= i <= |lines|
      invariant body + TocText(lines[i..], inCode, current) == total
    {
      ghost var before, wasInCode, wasDepth := body, inCode, current;
      ghost var tail := lines[i + 1..];
      assert lines[i..][0] == lines[i] && lines[i..][1..] == tail;
      TocTextCons(lines[i..], inCode, current);
      body, inCode, current := ScanLine(lines[i], body, inCode, current);
      if IsHeading(lines[i]) && !inCode {
        ConcatAssoc(before, Transition(wasDepth, current), EntryHtml(EntryOf(lines[i])), TocText(tail, inCode, current));
      }
      i := i + 1;
      assert lines[i..] == tail;
    }
    assert lines[i..] == [];
    body := CloseLists(body, current);
    TocTextIsBody(lines, false, 2);
    TocBodyLength(TocEntries(lines, false), 2);
    toc := TocHeader + body[6..] + "</ul>";
  }
}
