/**
 * The line classification shared by comment filtering, heading-id injection and the
 * table of contents: each of them walks the lines of a document, toggling an
 * "inside a fenced code block" flag on every fence line before looking at the line.
 */
module LineScan {
  import opened Strings

  /** A fence line: its trimmed form starts with three backticks. */
  predicate IsFence(line: string) {
    StartsWith(Trim(line), "```")
  }

  /** A heading line: its trimmed form starts with '#'. */
  predicate IsHeading(line: string) {
    StartsWith(Trim(line), "#")
  }

  /** The in-code-block flag after `line` has been read: a fence flips it. */
  function InCodeAfter(line: string, inCode: bool): (r: bool)
    ensures IsFence(line) ==> r == !inCode
    ensures !IsFence(line) ==> r == inCode
  {
    if IsFence(line) then !inCode else inCode
  }

  /** The flag in force at each line (after that line's own toggle), starting from `inCode`. */
  function FenceStates(lines: seq<string>, inCode: bool): (r: seq<bool>)
    ensures |r| == |lines|
  {
    if lines == [] then []
    else
      var c := InCodeAfter(lines[0], inCode);
      [c] + FenceStates(lines[1..], c)
  }

  /** The flag at the first line is its own toggle; the rest start from there. */
  lemma FenceStatesUnfold(lines: seq<string>, inCode: bool)
    requires lines != []
    ensures var c := InCodeAfter(lines[0], inCode);
      FenceStates(lines, inCode) == [c] + FenceStates(lines[1..], c)
  {
  }

  /** None of the lines is a fence: the lines of a code block between its two fences. */
  predicate NoFences(block: seq<string>) {
    block == [] || (!IsFence(block[0]) && NoFences(block[1..]))
  }

  /** A fence is never a heading. */
  lemma FenceIsNotHeading(line: string)
    ensures !(IsFence(line) && IsHeading(line))
  {
    var t := Trim(line);
    if IsFence(line) {
      assert t[0] == '`';
    }
  }
}
