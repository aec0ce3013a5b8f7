/** The compiler's line buffer (`compiler/generator/asm.js`): lines are appended at the
    current indentation, two spaces per level, and the text is the lines joined by
    newlines. */
module Asm {

  datatype Buffer = Buffer(code: seq<string>, indentLevel: nat)

  /** `new ASM()`. */
  function New(): Buffer
  {
    Buffer([], 0)
  }

  /** `'  '.repeat(n)`. */
  function Spaces(n: nat): (r: string)
    ensures |r| == 2 * n
    ensures forall i :: 0 <= i < |r| ==> r[i] == ' '
  {
    if n == 0 then "" else "  " + Spaces(n - 1)
  }

  /** `add(line)`: one more line, indented to the current level. */
  function Add(b: Buffer, line: string): (r: Buffer)
    ensures |r.code| == |b.code| + 1 && r.code[..|b.code|] == b.code
    ensures r.indentLevel == b.indentLevel
    ensures var last := r.code[|b.code|];
      && |last| == 2 * b.indentLevel + |line|
      && (forall i :: 0 <= i < 2 * b.indentLevel ==> last[i] == ' ')
      && last[2 * b.indentLevel..] == line
  {
    b.(code := b.code + [Spaces(b.indentLevel) + line])
  }

  /** `blankLine()`: an empty line, whatever the indentation. */
  function BlankLine(b: Buffer): (r: Buffer)
    ensures |r.code| == |b.code| + 1 && r.code[..|b.code|] == b.code && r.code[|b.code|] == ""
    ensures r.indentLevel == b.indentLevel
  {
    b.(code := b.code + [""])
  }

  function Indent(b: Buffer): Buffer
  {
    b.(indentLevel := b.indentLevel + 1)
  }

  /** `unindent()`: one level less, never below zero. */
  function Unindent(b: Buffer): (r: Buffer)
    ensures r.code == b.code
    ensures r.indentLevel == if b.indentLevel == 0 then 0 else b.indentLevel - 1
  {
    if b.indentLevel > 0 then b.(indentLevel := b.indentLevel - 1) else b
  }

  /** `label(name)`: `name:` at the current level, and what follows one level deeper. */
  function Label(b: Buffer, name: string): (r: Buffer)
    ensures r.indentLevel == b.indentLevel + 1
    ensures |r.code| == |b.code| + 1 && r.code[..|b.code|] == b.code
  {
    Indent(Add(b, name + ":"))
  }

  /** `code.join('\n')`. */
  function Join(lines: seq<string>): string
  {
    if |lines| == 0 then ""
    else if |lines| == 1 then lines[0]
    else lines[0] + "\n" + Join(lines[1..])
  }

  function GetCode(b: Buffer): string
  {
    Join(b.code)
  }

  // ---------------------------------------------------------------- splitting the text again

  /** `text.split('\n')`: the pieces between newlines; the empty text is one empty piece. */
  function Split(text: string): (r: seq<string>)
    ensures |r| >= 1
  {
    if |text| == 0 then [""]
    else
      var rest := Split(text[1..]);
      if text[0] == '\n' then [""] + rest else [[text[0]] + rest[0]] + rest[1..]
  }

  predicate NoNewline(line: string)
  {
    forall i :: 0 <= i < |line| ==> line[i] != '\n'
  }

  lemma {:induction false} SplitLine(line: string, rest: string)
    requires NoNewline(line)
    ensures Split(line) == [line]
    ensures Split(line + "\n" + rest) == [line] + Split(rest)
    decreases |line|
  {
    if |line| > 0 {
      SplitLine(line[1..], rest);
      assert (line + "\n" + rest)[1..] == line[1..] + "\n" + rest;
      assert [line[0]] + line[1..] == line;
    } else {
      assert line + "\n" + rest == "\n" + rest;
      assert ("\n" + rest)[1..] == rest;
    }
  }

  /** Lines free of newlines come back unchanged from the joined text. */
  lemma {:induction false} SplitJoin(lines: seq<string>)
    requires |lines| >= 1
    requires forall k :: 0 <= k < |lines| ==> NoNewline(lines[k])
    ensures Split(Join(lines)) == lines
    decreases |lines|
  {
    SplitLine(lines[0], "");
    if |lines| > 1 {
      SplitJoin(lines[1..]);
      SplitLine(lines[0], Join(lines[1..]));
      assert [lines[0]] + lines[1..] == lines;
    }
  }

  /** Any text is the join of its pieces. */
  lemma {:induction false} JoinSplit(text: string)
    ensures Join(Split(text)) == text
    ensures forall k :: 0 <= k < |Split(text)| ==> NoNewline(Split(text)[k])
    decreases |text|
  {
    if |text| > 0 {
      JoinSplit(text[1..]);
      var rest := Split(text[1..]);
      if text[0] == '\n' {
        assert Split(text) == [""] + rest;
        assert ([""] + rest)[1..] == rest;
        assert text == "" + "\n" + text[1..];
      } else {
        var first := [text[0]] + rest[0];
        assert Split(text) == [first] + rest[1..];
        if |rest| == 1 {
          assert text == [text[0]] + text[1..];
        } else {
          assert ([first] + rest[1..])[1..] == rest[1..];
          assert Join(rest) == rest[0] + "\n" + Join(rest[1..]);
          assert text == [text[0]] + text[1..];
        }
        forall k | 0 <= k < |Split(text)|
          ensures NoNewline(Split(text)[k])
        {
          if k == 0 {
            assert NoNewline(rest[0]);
          } else {
            assert Split(text)[k] == rest[k];
          }
        }
      }
    }
  }

  // ---------------------------------------------------------------- the buffer's text

  lemma {:induction false} JoinSnoc(lines: seq<string>, line: string)
    requires |lines| >= 1
    ensures Join(lines + [line]) == Join(lines) + "\n" + line
    decreases |lines|
  {
    if |lines| > 1 {
      JoinSnoc(lines[1..], line);
      assert (lines + [line])[1..] == lines[1..] + [line];
    } else {
      assert (lines + [line])[1..] == [line];
    }
  }

  /** Adding a line adds a newline (unless it is the first line) and the indented line to
      the end of the text, and leaves the text before it as it was. */
  lemma GetCodeAfterAdd(b: Buffer, line: string)
    ensures |b.code| == 0 ==> GetCode(Add(b, line)) == Spaces(b.indentLevel) + line
    ensures |b.code| > 0 ==> GetCode(Add(b, line)) == GetCode(b) + "\n" + Spaces(b.indentLevel) + line
  {
    if |b.code| > 0 {
      JoinSnoc(b.code, Spaces(b.indentLevel) + line);
    }
  }

  /** A buffer whose lines hold no newline can be read back line by line from its text. */
  lemma LinesRecoverable(b: Buffer)
    requires |b.code| >= 1
    requires forall k :: 0 <= k < |b.code| ==> NoNewline(b.code[k])
    ensures Split(GetCode(b)) == b.code
  {
    SplitJoin(b.code);
  }

  // ---------------------------------------------------------------- sequences of calls

  /** One call on the buffer. */
  datatype Call = AddCall(line: string) | BlankCall | LabelCall(name: string) | IndentCall | UnindentCall

  function Apply(b: Buffer, c: Call): Buffer
  {
    match c
    case AddCall(line) => Add(b, line)
    case BlankCall => BlankLine(b)
    case LabelCall(name) => Label(b, name)
    case IndentCall => Indent(b)
    case UnindentCall => Unindent(b)
  }

  function ApplyAll(b: Buffer, calls: seq<Call>): Buffer
    decreases |calls|
  {
    if |calls| == 0 then b else ApplyAll(Apply(b, calls[0]), calls[1..])
  }

  /** How many lines a sequence of calls writes. */
  function LinesWritten(calls: seq<Call>): nat
  {
    if |calls| == 0 then 0
    else (if calls[0].IndentCall? || calls[0].UnindentCall? then 0 else 1) + LinesWritten(calls[1..])
  }

  /** Lines are only ever appended: whatever calls follow, the earlier lines stay, and one
      line is added per `add`, `blankLine` or `label`. */
  lemma {:induction false} AppendOnly(b: Buffer, calls: seq<Call>)
    ensures |ApplyAll(b, calls).code| == |b.code| + LinesWritten(calls)
    ensures ApplyAll(b, calls).code[..|b.code|] == b.code
    decreases |calls|
  {
    if |calls| > 0 {
      var next := Apply(b, calls[0]);
      AppendOnly(next, calls[1..]);
      assert next.code[..|b.code|] == b.code;
      var r := ApplyAll(next, calls[1..]).code;
      assert r[..|b.code|] == r[..|next.code|][..|b.code|];
    }
  }

  /** `unindent` undoes `indent`, and after a label it returns to the label's level. */
  lemma IndentUndone(b: Buffer, name: string)
    ensures Unindent(Indent(b)) == b
    ensures Unindent(Label(b, name)) == Add(b, name + ":")
  {
  }
}
