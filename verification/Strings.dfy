/** The string operations topics and subscriptions are stored with: joining and splitting on a
    separator, and the line splitting of a `bufio.Scanner`. */
module Strings {

  /** `strings.Join(parts, sep)` for a one-character separator. */
  function Join(parts: seq<string>, sep: char): string {
    if |parts| == 0 then ""
    else if |parts| == 1 then parts[0]
    else parts[0] + [sep] + Join(parts[1..], sep)
  }

  /** `strings.Split(s, sep)` for a one-character separator: never empty. */
  function Split(s: string, sep: char): (parts: seq<string>)
    ensures |parts| >= 1
    ensures forall part | part in parts :: sep !in part
  {
    if s == "" then [""]
    else
      var rest := Split(s[1..], sep);
      if s[0] == sep then [""] + rest else [[s[0]] + rest[0]] + rest[1..]
  }

  /** A separator-free piece in front of a separator is cut off whole. */
  lemma {:induction false} SplitAtSeparator(piece: string, rest: string, sep: char)
    requires sep !in piece
    ensures Split(piece + [sep] + rest, sep) == [piece] + Split(rest, sep)
  {
    var s := piece + [sep] + rest;
    if piece == "" {
      assert s[1..] == rest;
    } else {
      assert s[1..] == piece[1..] + [sep] + rest;
      SplitAtSeparator(piece[1..], rest, sep);
      assert [s[0]] + piece[1..] == piece;
      assert ([piece[1..]] + Split(rest, sep))[1..] == Split(rest, sep);
    }
  }

  lemma {:induction false} SplitWithoutSeparator(piece: string, sep: char)
    requires sep !in piece
    ensures Split(piece, sep) == [piece]
  {
    if piece != "" {
      SplitWithoutSeparator(piece[1..], sep);
      assert [piece[0]] + piece[1..] == piece;
    }
  }

  /** Splitting undoes joining as soon as no part contains the separator. */
  lemma {:induction false} SplitJoin(parts: seq<string>, sep: char)
    requires |parts| >= 1
    requires forall part | part in parts :: sep !in part
    ensures Split(Join(parts, sep), sep) == parts
  {
    if |parts| == 1 {
      SplitWithoutSeparator(parts[0], sep);
    } else {
      SplitJoin(parts[1..], sep);
      SplitAtSeparator(parts[0], Join(parts[1..], sep), sep);
    }
  }

  /** Joining undoes splitting for every string. */
  lemma {:induction false} JoinSplit(s: string, sep: char)
    ensures Join(Split(s, sep), sep) == s
  {
    if s != "" {
      JoinSplit(s[1..], sep);
      var rest := Split(s[1..], sep);
      if s[0] == sep {
        assert Split(s, sep)[1..] == rest;
      } else {
        assert Split(s, sep)[1..] == rest[1..];
      }
    }
  }

  function DropCarriageReturn(line: string): string {
    if line != "" && line[|line| - 1] == '\r' then line[..|line| - 1] else line
  }

  /** What `bufio.Scanner` hands out: the newline-terminated lines, and a last unterminated one. */
  function Lines(text: string): seq<string> {
    var parts := Split(text, '\n');
    var body := if parts[|parts| - 1] == "" then parts[..|parts| - 1] else parts;
    seq(|body|, i requires 0 <= i < |body| => DropCarriageReturn(body[i]))
  }

  /** Each line followed by a newline. */
  function Terminated(lines: seq<string>): string {
    if lines == [] then "" else lines[0] + "\n" + Terminated(lines[1..])
  }

  lemma {:induction false} SplitTerminated(lines: seq<string>)
    requires forall line | line in lines :: '\n' !in line
    ensures Split(Terminated(lines), '\n') == lines + [""]
  {
    if lines != [] {
      SplitTerminated(lines[1..]);
      SplitAtSeparator(lines[0], Terminated(lines[1..]), '\n');
      assert lines[0] + "\n" + Terminated(lines[1..]) == lines[0] + ['\n'] + Terminated(lines[1..]);
      assert [lines[0]] + (lines[1..] + [""]) == lines + [""];
    }
  }

  /** The scanner returns exactly the lines that were written. */
  lemma LinesTerminated(lines: seq<string>)
    requires forall line | line in lines :: '\n' !in line && '\r' !in line
    ensures Lines(Terminated(lines)) == lines
  {
    SplitTerminated(lines);
    assert (lines + [""])[..|lines|] == lines;
    forall i | 0 <= i < |lines|
      ensures DropCarriageReturn(lines[i]) == lines[i]
    {
      assert lines[i] in lines;
    }
  }

  /** Each line followed by a carriage return and a newline. */
  function TerminatedCR(lines: seq<string>): string {
    if lines == [] then "" else lines[0] + "\r\n" + TerminatedCR(lines[1..])
  }

  lemma {:induction false} SplitOpen(lines: seq<string>, last: string)
    requires '\n' !in last && forall line | line in lines :: '\n' !in line
    ensures Split(Terminated(lines) + last, '\n') == lines + [last]
  {
    if lines == [] {
      assert Terminated(lines) + last == last && lines + [last] == [last];
      SplitWithoutSeparator(last, '\n');
    } else {
      SplitOpen(lines[1..], last);
      SplitAtSeparator(lines[0], Terminated(lines[1..]) + last, '\n');
      assert Terminated(lines) + last == lines[0] + ['\n'] + (Terminated(lines[1..]) + last);
      assert [lines[0]] + (lines[1..] + [last]) == lines + [last];
    }
  }

  function Returned(lines: seq<string>): seq<string> {
    seq(|lines|, i requires 0 <= i < |lines| => lines[i] + "\r")
  }

  lemma {:induction false} CarriageReturnsInLines(lines: seq<string>)
    ensures TerminatedCR(lines) == Terminated(Returned(lines))
  {
    if lines != [] {
      CarriageReturnsInLines(lines[1..]);
      assert Returned(lines)[1..] == Returned(lines[1..]);
      assert lines[0] + "\r\n" == lines[0] + "\r" + "\n";
    }
  }

  lemma LinesOfParts(text: string, raw: seq<string>, lines: seq<string>, last: string)
    requires Split(text, '\n') == raw + [last] && |raw| == |lines| && '\r' !in last
    requires forall i | 0 <= i < |lines| :: DropCarriageReturn(raw[i]) == lines[i]
    ensures Lines(text) == lines + if last == "" then [] else [last]
  {
    hide Split;
    var parts, r := raw + [last], Lines(text);
    assert last != "" ==> last[|last| - 1] in last;
    assert parts[|lines|] == last && parts[..|raw|] == raw && DropCarriageReturn(last) == last;
    assert |r| == |lines| + if last == "" then 0 else 1;
    assert forall i | 0 <= i < |lines| :: r[i] == lines[i];
    assert last != "" ==> r[|lines|] == last;
  }

  /** A file with carriage returns reads the same, and a last line that is not terminated is read too. */
  lemma LinesOfAnyFile(lines: seq<string>, last: string)
    requires '\n' !in last && '\r' !in last && forall line | line in lines :: '\n' !in line && '\r' !in line
    ensures Lines(Terminated(lines) + last) == lines + if last == "" then [] else [last]
    ensures Lines(TerminatedCR(lines) + last) == lines + if last == "" then [] else [last]
  {
    hide Split, Lines, Terminated, TerminatedCR;
    CarriageReturnsInLines(lines);
    SplitOpen(lines, last);
    SplitOpen(Returned(lines), last);
    forall i | 0 <= i < |lines|
      ensures DropCarriageReturn(lines[i]) == lines[i]
    {
      assert lines[i] in lines;
    }
    LinesOfParts(Terminated(lines) + last, lines, lines, last);
    LinesOfParts(TerminatedCR(lines) + last, Returned(lines), lines, last);
  }
}
