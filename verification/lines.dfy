/** Python's `str.split("\n")` and the line-by-line growth of a formatted
    display: each `formatted += f"\n…"` adds one line. */
module TextLines {

  /** `s.split("\n")`: the pieces between newlines; always at least one. */
  function Lines(s: string): (r: seq<string>)
    ensures |r| >= 1
  {
    if s == [] then [""]
    else
      var rest := Lines(s[1..]);
      if s[0] == '\n' then [""] + rest else [[s[0]] + rest[0]] + rest[1..]
  }

  predicate SingleLine(s: string) {
    '\n' !in s
  }

  /** A string without a newline is one line. */
  lemma {:induction false} LinesOfSingleLine(s: string)
    requires SingleLine(s)
    ensures Lines(s) == [s]
  {
    if s != [] {
      LinesOfSingleLine(s[1..]);
      assert [s[0]] + s[1..] == s;
    }
  }

  /** Splitting at a newline splits the line lists: `(x + "\n" + y).split("\n")
      == x.split("\n") + y.split("\n")`. */
  lemma {:induction false} LinesAtNewline(x: string, y: string)
    ensures Lines(x + "\n" + y) == Lines(x) + Lines(y)
  {
    if x == [] {
      assert x + "\n" + y == "\n" + y;
      assert ("\n" + y)[1..] == y;
    } else {
      assert (x + "\n" + y)[1..] == x[1..] + "\n" + y;
      LinesAtNewline(x[1..], y);
    }
  }

  /** A first line without a newline is split off as it is. */
  lemma LinesCons(x: string, y: string)
    requires SingleLine(x)
    ensures Lines(x + "\n" + y) == [x] + Lines(y)
  {
    LinesAtNewline(x, y);
    LinesOfSingleLine(x);
  }

  lemma ConcatAssoc<T>(a: seq<T>, b: seq<T>, c: seq<T>)
    ensures a + b + c == a + (b + c)
  {
  }

  /** `text + "\n" + line`: the text continued on a new line, the step each
      `formatted += f"\n..."` of the story formatters takes. */
  function AddLine(text: string, line: string): string {
    text + "\n" + line
  }

  /** Splitting a continued text splits its two parts independently. */
  lemma AddLineLines(text: string, line: string)
    ensures Lines(AddLine(text, line)) == Lines(text) + Lines(line)
  {
    LinesAtNewline(text, line);
  }

  /** A single line added to a text becomes its last line. */
  lemma LinesOfAddLine(text: string, line: string)
    requires SingleLine(line)
    ensures Lines(AddLine(text, line)) == Lines(text) + [line]
  {
    AddLineLines(text, line);
    LinesOfSingleLine(line);
  }
}
