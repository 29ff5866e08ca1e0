/** The string primitives the DESCRIPTION merge is built from: JavaScript's
    `split('\n')`, `join('\n')`, the regular-expression class `\s`,
    `toLowerCase` (ASCII letters only) and `endsWith`. */
module Text {

  /** A member of ECMAScript's `\s` class: the WhiteSpace and LineTerminator
      code points (tab, LF, VT, FF, CR, space, the Unicode space separators,
      LS, PS and the byte-order mark). */
  predicate IsSpace(c: char) {
    var n := c as int;
    || 0x09 <= n <= 0x0D
    || n == 0x20 || n == 0xA0 || n == 0x1680
    || 0x2000 <= n <= 0x200A
    || n == 0x2028 || n == 0x2029 || n == 0x202F || n == 0x205F
    || n == 0x3000 || n == 0xFEFF
  }

  /** `/^\s/.test(s)` */
  predicate StartsWithSpace(s: string) {
    |s| > 0 && IsSpace(s[0])
  }

  /** On ASCII, `\s` is exactly tab, line feed, vertical tab, form feed,
      carriage return and space. */
  lemma AsciiSpaces(c: char)
    requires c as int < 0x80
    ensures IsSpace(c) <==> c == '\t' || c == '\n' || c as int == 0x0B || c as int == 0x0C || c == '\r' || c == ' '
  {
  }

  /** A physical line: text that holds no line feed. */
  predicate IsLine(s: string) {
    '\n' !in s
  }

  function LowerChar(c: char): char {
    if 'A' <= c <= 'Z' then (c as int + 32) as char else c
  }

  /** `s.toLowerCase()`, restricted to the ASCII letters. */
  function Lower(s: string): string {
    seq(|s|, i requires 0 <= i < |s| => LowerChar(s[i]))
  }

  /** Equality after `toLowerCase()` on both sides. */
  predicate SameIgnoringCase(a: string, b: string) {
    Lower(a) == Lower(b)
  }

  /** All strings glued together with nothing in between. */
  function Concat(parts: seq<string>): string {
    if |parts| == 0 then "" else parts[0] + Concat(parts[1..])
  }

  lemma {:induction false} ConcatAppend(a: seq<string>, b: seq<string>)
    ensures Concat(a + b) == Concat(a) + Concat(b)
    decreases |a|
  {
    if |a| == 0 {
      assert a + b == b;
    } else {
      assert (a + b)[1..] == a[1..] + b;
      ConcatAppend(a[1..], b);
    }
  }

  /** Every line followed by a line feed: the text that repeated
      `content += line + '\n'` builds. */
  function Terminated(lines: seq<string>): string {
    if |lines| == 0 then "" else lines[0] + "\n" + Terminated(lines[1..])
  }

  lemma {:induction false} TerminatedAppend(a: seq<string>, b: seq<string>)
    ensures Terminated(a + b) == Terminated(a) + Terminated(b)
    decreases |a|
  {
    if |a| == 0 {
      assert a + b == b;
    } else {
      assert (a + b)[1..] == a[1..] + b;
      TerminatedAppend(a[1..], b);
    }
  }

  /** Text of terminated lines is empty or ends with a line feed. */
  lemma TerminatedEndsWithLineFeed(lines: seq<string>)
    ensures Terminated(lines) == "" || Terminated(lines)[|Terminated(lines)| - 1] == '\n'
  {
    if |lines| > 0 {
      assert lines == lines[..|lines| - 1] + [lines[|lines| - 1]];
      TerminatedAppend(lines[..|lines| - 1], [lines[|lines| - 1]]);
      assert Terminated([lines[|lines| - 1]]) == lines[|lines| - 1] + "\n" + Terminated([]);
    }
  }

  /** `lines.join('\n')` */
  function JoinLines(lines: seq<string>): string {
    if |lines| == 0 then ""
    else if |lines| == 1 then lines[0]
    else lines[0] + "\n" + JoinLines(lines[1..])
  }

  /** `s.split('\n')`: never empty, and no piece holds a line feed. */
  function Split(s: string): (lines: seq<string>)
    ensures |lines| >= 1
    ensures forall i :: 0 <= i < |lines| ==> IsLine(lines[i])
    decreases |s|
  {
    if |s| == 0 then [""]
    else
      var rest := Split(s[1..]);
      if s[0] == '\n' then [""] + rest
      else [[s[0]] + rest[0]] + rest[1..]
  }

  /** Splitting loses nothing: joining the pieces again gives back the text. */
  lemma {:induction false} JoinSplit(s: string)
    ensures JoinLines(Split(s)) == s
    decreases |s|
  {
    if |s| > 0 {
      var rest := Split(s[1..]);
      JoinSplit(s[1..]);
      if s[0] == '\n' {
        assert ([""] + rest)[1..] == rest;
      } else if |rest| > 1 {
        var first := [s[0]] + rest[0];
        assert ([first] + rest[1..])[1..] == rest[1..];
        assert JoinLines(rest) == rest[0] + "\n" + JoinLines(rest[1..]);
        assert s == [s[0]] + s[1..];
      } else {
        assert s == [s[0]] + s[1..];
      }
    }
  }

  /** A line-feed-free prefix ended by a line feed becomes one piece of the split. */
  lemma {:induction false} SplitLineFeed(line: string, rest: string)
    requires IsLine(line)
    ensures Split(line + "\n" + rest) == [line] + Split(rest)
    decreases |line|
  {
    var s := line + "\n" + rest;
    if |line| == 0 {
      assert s[1..] == rest;
    } else {
      assert s[1..] == line[1..] + "\n" + rest;
      SplitLineFeed(line[1..], rest);
      assert [s[0]] + line[1..] == line;
    }
  }

  lemma {:induction false} SplitLine(line: string)
    requires IsLine(line)
    ensures Split(line) == [line]
    decreases |line|
  {
    if |line| > 0 {
      SplitLine(line[1..]);
      assert [line[0]] + line[1..] == line;
    }
  }

  /** Joining line-feed-free lines and splitting again gives back the lines. */
  lemma {:induction false} SplitJoin(lines: seq<string>)
    requires |lines| >= 1
    requires forall i :: 0 <= i < |lines| ==> IsLine(lines[i])
    ensures Split(JoinLines(lines)) == lines
    decreases |lines|
  {
    if |lines| == 1 {
      SplitLine(lines[0]);
    } else {
      SplitLineFeed(lines[0], JoinLines(lines[1..]));
      SplitJoin(lines[1..]);
      assert [lines[0]] + lines[1..] == lines;
    }
  }

  /** A text whose every line is ended by a line feed splits into its lines
      followed by one empty piece. */
  lemma {:induction false} SplitTerminated(lines: seq<string>)
    requires forall i :: 0 <= i < |lines| ==> IsLine(lines[i])
    ensures Split(Terminated(lines)) == lines + [""]
    decreases |lines|
  {
    if |lines| > 0 {
      var rest := lines[1..];
      var t := Terminated(rest);
      assert Terminated(lines) == lines[0] + "\n" + t;
      assert forall i :: 0 <= i < |rest| ==> rest[i] == lines[i + 1];
      SplitTerminated(rest);
      SplitLineFeed(lines[0], t);
      assert [lines[0]] + (rest + [""]) == lines + [""];
    } else {
      assert lines + [""] == [""];
    }
  }

  /** `s.endsWith(suffix)` */
  predicate EndsWith(s: string, suffix: string) {
    |suffix| <= |s| && s[|s| - |suffix|..] == suffix
  }
}
