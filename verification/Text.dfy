/** The string functions the documentation parser is built on. */
module Text {

  /** unicode.IsSpace */
  predicate IsSpace(c: char) {
    || '\t' <= c <= '\r' || c == ' '
    || c == '\U{85}' || c == '\U{A0}' || c == '\U{1680}' || '\U{2000}' <= c <= '\U{200A}'
    || c == '\U{2028}' || c == '\U{2029}' || c == '\U{202F}' || c == '\U{205F}' || c == '\U{3000}'
  }

  function DropLeft(s: string, cut: char -> bool): string {
    if s != "" && cut(s[0]) then DropLeft(s[1..], cut) else s
  }

  function DropRight(s: string, cut: char -> bool): string {
    if s != "" && cut(s[|s| - 1]) then DropRight(s[..|s| - 1], cut) else s
  }

  /** Cut characters off both ends. */
  function Trim(s: string, cut: char -> bool): string {
    DropRight(DropLeft(s, cut), cut)
  }

  function TrimSpace(s: string): string {
    Trim(s, IsSpace)
  }

  predicate Bare(s: string, cut: char -> bool) {
    s == "" || (!cut(s[0]) && !cut(s[|s| - 1]))
  }

  function TrimPrefix(s: string, c: char): string {
    if s != "" && s[0] == c then s[1..] else s
  }

  function TrimSuffix(s: string, c: char): string {
    if s != "" && s[|s| - 1] == c then s[..|s| - 1] else s
  }

  lemma TrimBare(s: string, cut: char -> bool)
    requires Bare(s, cut)
    ensures Trim(s, cut) == s
  {
  }

  lemma {:induction false} DropLeftShape(s: string, cut: char -> bool)
    ensures |DropLeft(s, cut)| <= |s| && DropLeft(s, cut) == s[|s| - |DropLeft(s, cut)|..]
    ensures DropLeft(s, cut) == "" || !cut(DropLeft(s, cut)[0])
    ensures forall i :: 0 <= i < |s| - |DropLeft(s, cut)| ==> cut(s[i])
  {
    if s != "" && cut(s[0]) {
      var rest := DropLeft(s[1..], cut);
      DropLeftShape(s[1..], cut);
      assert s[1..][|s| - 1 - |rest|..] == s[|s| - |rest|..];
      assert forall i :: 1 <= i < |s| - |rest| ==> s[i] == s[1..][i - 1];
    }
  }

  lemma {:induction false} DropRightShape(s: string, cut: char -> bool)
    ensures |DropRight(s, cut)| <= |s| && DropRight(s, cut) == s[..|DropRight(s, cut)|]
    ensures DropRight(s, cut) == "" || !cut(DropRight(s, cut)[|DropRight(s, cut)| - 1])
    ensures forall i :: |DropRight(s, cut)| <= i < |s| ==> cut(s[i])
  {
    if s != "" && cut(s[|s| - 1]) { DropRightShape(s[..|s| - 1], cut); }
  }

  /** A trimmed string has nothing left to cut, and trimming to nothing means there was nothing else. */
  lemma TrimShape(s: string, cut: char -> bool)
    ensures Bare(Trim(s, cut), cut)
    ensures Trim(s, cut) == "" <==> forall c :: c in s ==> cut(c)
  {
    DropLeftShape(s, cut);
    var t := DropLeft(s, cut);
    DropRightShape(t, cut);
    if t != "" {
      assert t[0] in s && !cut(t[0]);
    } else {
      assert forall i :: 0 <= i < |s| ==> cut(s[i]);
    }
  }

  /** One cut character on each side of a bare string is what trimming takes off. */
  lemma TrimPadded(left: char, s: string, right: char, cut: char -> bool)
    requires Bare(s, cut) && cut(left) && cut(right)
    ensures Trim([left] + s + [right], cut) == s
  {
    var padded := [left] + s + [right];
    assert padded[1..] == s + [right];
    if s == "" {
      assert padded[1..] == [right];
      assert DropLeft([right], cut) == DropLeft("", cut);
    } else {
      assert DropLeft(s + [right], cut) == s + [right];
      assert (s + [right])[..|s|] == s;
      assert DropRight(s + [right], cut) == DropRight(s, cut);
    }
  }

  // ----- lines -----

  /** strings.Split(s, sep) for a one-character separator. */
  function Split(s: string, sep: char): (parts: seq<string>)
    ensures parts != []
  {
    if s == "" then [""]
    else
      var rest := Split(s[1..], sep);
      if s[0] == sep then [""] + rest else [[s[0]] + rest[0]] + rest[1..]
  }

  function Joined(parts: seq<string>, sep: char): string
    requires parts != []
  {
    if |parts| == 1 then parts[0] else parts[0] + [sep] + Joined(parts[1..], sep)
  }

  /** The parts hold no separator, and joined by it they are the string. */
  lemma {:induction false} SplitMeans(s: string, sep: char)
    ensures forall part :: part in Split(s, sep) ==> sep !in part
    ensures Joined(Split(s, sep), sep) == s
  {
    if s != "" {
      var rest := Split(s[1..], sep);
      SplitMeans(s[1..], sep);
      if s[0] == sep {
        assert ([""] + rest)[1..] == rest;
        assert "" + [sep] + s[1..] == s;
      } else {
        FirstLonger(s[0], rest, sep);
        assert [s[0]] + s[1..] == s;
        forall part | part in [[s[0]] + rest[0]] + rest[1..] ensures sep !in part {
          assert part == [s[0]] + rest[0] || part in rest;
          assert rest[0] in rest;
        }
      }
    }
  }

  lemma FirstLonger(c: char, parts: seq<string>, sep: char)
    requires parts != []
    ensures Joined([[c] + parts[0]] + parts[1..], sep) == [c] + Joined(parts, sep)
  {
    var longer := [[c] + parts[0]] + parts[1..];
    assert longer[1..] == parts[1..];
    if |parts| > 1 { assert [c] + parts[0] + [sep] + Joined(parts[1..], sep) == [c] + Joined(parts, sep); }
  }

  function Lines(s: string): seq<string> {
    Split(s, '\n')
  }

  function JoinLines(lines: seq<string>): string
    requires lines != []
  {
    if |lines| == 1 then lines[0] else lines[0] + "\n" + JoinLines(lines[1..])
  }

  lemma {:induction false} LinesOfLine(line: string, rest: string)
    requires '\n' !in line
    ensures Lines(line) == [line]
    ensures Lines(line + "\n" + rest) == [line] + Lines(rest)
  {
    if line == "" {
      assert line + "\n" + rest == "\n" + rest;
      assert ("\n" + rest)[1..] == rest;
    } else {
      assert line[0] in line;
      LinesOfLine(line[1..], rest);
      assert [line[0]] + line[1..] == line;
      assert (line + "\n" + rest)[1..] == line[1..] + "\n" + rest;
    }
  }

  /** Splitting undoes joining, for lines without newlines. */
  lemma {:induction false} LinesOfJoined(lines: seq<string>)
    requires lines != [] && forall l :: l in lines ==> '\n' !in l
    ensures Lines(JoinLines(lines)) == lines
  {
    assert lines[0] in lines;
    if |lines| == 1 {
      LinesOfLine(lines[0], "");
    } else {
      LinesOfJoined(lines[1..]);
      LinesOfLine(lines[0], JoinLines(lines[1..]));
    }
  }
}
