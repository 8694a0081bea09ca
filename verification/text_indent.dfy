/** A model of Python's `textwrap.indent(text, prefix)` with its default
    predicate: the text is split into lines that keep their terminators, and
    `prefix` is put in front of every line that holds a non-whitespace
    character. Line breaks are restricted to `\n`. */
module TextIndent {
  import opened Wrappers

  /** Python's `str.isspace` on one character: the ASCII controls TAB..CR and
      FS..US, space, and the Unicode whitespace characters. */
  predicate IsSpace(c: char) {
    var n := c as int;
    || 9 <= n <= 13
    || 28 <= n <= 32
    || n == 0x85 || n == 0xA0 || n == 0x1680
    || 0x2000 <= n <= 0x200A
    || n == 0x2028 || n == 0x2029 || n == 0x202F || n == 0x205F || n == 0x3000
  }

  /** `line.strip()` is non-empty: the line holds a non-whitespace character. */
  predicate HasText(line: string) {
    exists i :: 0 <= i < |line| && !IsSpace(line[i])
  }

  /** The strings of `ls` one after the other (Python's `"".join(ls)`). */
  function Concat(ls: seq<string>): string {
    if ls == [] then [] else ls[0] + Concat(ls[1..])
  }

  /** A single line: not empty, and a `\n` can only be its last character. */
  predicate IsLine(l: string) {
    l != [] && forall i :: 0 <= i < |l| - 1 ==> l[i] != '\n'
  }

  predicate Terminated(l: string) {
    l != [] && l[|l| - 1] == '\n'
  }

  /** The shape of `s.splitlines(keepends=True)`: lines, each but the last
      ending with its `\n`. */
  predicate IsLineSplit(ls: seq<string>) {
    && (forall i :: 0 <= i < |ls| ==> IsLine(ls[i]))
    && (forall i :: 0 <= i < |ls| - 1 ==> Terminated(ls[i]))
  }

  /** Length of the first line of `s`, its `\n` included. */
  function FirstLineLength(s: string): (n: nat)
    ensures n == 0 <==> s == []
    ensures n <= |s|
    ensures forall i :: 0 <= i < n - 1 ==> s[i] != '\n'
    ensures 0 < n < |s| ==> s[n - 1] == '\n'
  {
    if s == [] then 0
    else if s[0] == '\n' then 1
    else 1 + FirstLineLength(s[1..])
  }

  /** `s.splitlines(keepends=True)` for text whose only line break is `\n`. */
  function SplitLines(s: string): (ls: seq<string>)
    ensures Concat(ls) == s
    ensures IsLineSplit(ls)
    decreases |s|
  {
    if s == [] then []
    else
      var n := FirstLineLength(s);
      assert s == s[..n] + s[n..];
      [s[..n]] + SplitLines(s[n..])
  }

  /** The prefixing rule of `textwrap.indent` for one line. */
  function IndentLine(line: string, prefix: string): string {
    if HasText(line) then prefix + line else line
  }

  function IndentLines(ls: seq<string>, prefix: string): (rs: seq<string>)
    ensures |rs| == |ls|
    ensures forall i :: 0 <= i < |ls| ==> rs[i] == IndentLine(ls[i], prefix)
  {
    if ls == [] then [] else [IndentLine(ls[0], prefix)] + IndentLines(ls[1..], prefix)
  }

  /** `textwrap.indent(text, prefix)`. */
  function Indent(text: string, prefix: string): string {
    Concat(IndentLines(SplitLines(text), prefix))
  }

  /** Reverses `IndentLine`: a prefixed line loses its prefix, an unprefixed
      line must be whitespace only; any other line cannot come from `Indent`. */
  function UnindentLine(line: string, prefix: string): (r: Option<string>)
    ensures r.Some? ==> IndentLine(r.value, prefix) == line
  {
    if prefix <= line && HasText(line[|prefix|..]) then Some(line[|prefix|..])
    else if !HasText(line) then Some(line)
    else None
  }

  function UnindentLines(ls: seq<string>, prefix: string): (r: Option<seq<string>>)
    ensures r.Some? ==> |r.value| == |ls|
    ensures r.Some? ==> forall i :: 0 <= i < |ls| ==> UnindentLine(ls[i], prefix) == Some(r.value[i])
    ensures r.None? ==> exists i :: 0 <= i < |ls| && UnindentLine(ls[i], prefix).None?
  {
    if ls == [] then Some([])
    else match (UnindentLine(ls[0], prefix), UnindentLines(ls[1..], prefix))
      case (Some(u), Some(us)) => Some([u] + us)
      case (None, _) => None
      case (_, None) => None
  }

  /** Removes the prefix `Indent` put on each line; `None` when the text is
      not the indentation of anything. */
  function Unindent(text: string, prefix: string): Option<string> {
    match UnindentLines(SplitLines(text), prefix)
    case None => None
    case Some(us) => Some(Concat(us))
  }

  lemma FirstLineLengthOfLine(l: string, t: string)
    requires IsLine(l)
    requires Terminated(l) || t == []
    ensures FirstLineLength(l + t) == |l|
  {
    var s := l + t;
    assert forall i :: 0 <= i < |l| ==> s[i] == l[i];
  }

  /** The tail of a line split is a line split, and only the last line
      may lack its `\n`. */
  lemma LineSplitTail(ls: seq<string>)
    requires ls != [] && IsLineSplit(ls)
    ensures IsLineSplit(ls[1..])
    ensures !Terminated(ls[0]) ==> |ls| == 1
  {
    var rest := ls[1..];
    forall i | 0 <= i < |rest| ensures IsLine(rest[i]) { assert rest[i] == ls[i + 1]; }
    forall i | 0 <= i < |rest| - 1 ensures Terminated(rest[i]) { assert rest[i] == ls[i + 1]; }
  }

  /** A whole first line is what `SplitLines` takes off first. */
  lemma SplitLinesCons(l: string, t: string)
    requires IsLine(l)
    requires Terminated(l) || t == []
    ensures SplitLines(l + t) == [l] + SplitLines(t)
  {
    var s := l + t;
    FirstLineLengthOfLine(l, t);
    assert s[..|l|] == l;
    assert s[|l|..] == t;
  }

  /** Splitting is unique: concatenated lines split back into themselves. */
  lemma {:induction false} SplitConcat(ls: seq<string>)
    requires IsLineSplit(ls)
    ensures SplitLines(Concat(ls)) == ls
  {
    if ls != [] {
      LineSplitTail(ls);
      SplitConcat(ls[1..]);
      SplitLinesCons(ls[0], Concat(ls[1..]));
      assert ls == [ls[0]] + ls[1..];
    }
  }

  lemma IndentLineIsLine(l: string, prefix: string)
    requires IsLine(l)
    requires '\n' !in prefix
    ensures IsLine(IndentLine(l, prefix))
    ensures Terminated(l) ==> Terminated(IndentLine(l, prefix))
  {
    if HasText(l) {
      var r := prefix + l;
      forall j | 0 <= j < |r| - 1 ensures r[j] != '\n' {
        if j < |prefix| {
          assert r[j] == prefix[j];
        } else {
          assert r[j] == l[j - |prefix|];
        }
      }
    }
  }

  lemma IndentLinesAreLines(ls: seq<string>, prefix: string)
    requires IsLineSplit(ls)
    requires '\n' !in prefix
    ensures IsLineSplit(IndentLines(ls, prefix))
  {
    var rs := IndentLines(ls, prefix);
    forall i | 0 <= i < |rs|
      ensures IsLine(rs[i])
      ensures i < |rs| - 1 ==> Terminated(rs[i])
    {
      IndentLineIsLine(ls[i], prefix);
    }
  }

  /** `Indent` works line by line: the i-th output line is the i-th input
      line, prefixed exactly when it holds a non-whitespace character, with
      its terminator kept. */
  lemma IndentByLine(text: string, prefix: string)
    requires '\n' !in prefix
    ensures var ls := SplitLines(text);
            var rs := SplitLines(Indent(text, prefix));
            && |rs| == |ls|
            && forall i :: 0 <= i < |ls| ==>
                 rs[i] == (if HasText(ls[i]) then prefix + ls[i] else ls[i])
  {
    var ls := SplitLines(text);
    IndentLinesAreLines(ls, prefix);
    SplitConcat(IndentLines(ls, prefix));
  }

  lemma PrefixGivesText(line: string, prefix: string)
    requires HasText(prefix)
    requires prefix <= line
    ensures HasText(line)
  {
  }

  lemma {:induction false} UnindentIndentLines(ls: seq<string>, prefix: string)
    requires HasText(prefix)
    ensures UnindentLines(IndentLines(ls, prefix), prefix) == Some(ls)
  {
    if ls != [] {
      var l := ls[0];
      if HasText(l) {
        assert (prefix + l)[|prefix|..] == l;
      } else if prefix <= l {
        PrefixGivesText(l, prefix);
      }
      assert UnindentLine(IndentLine(l, prefix), prefix) == Some(l);
      UnindentIndentLines(ls[1..], prefix);
      var rs := IndentLines(ls, prefix);
      assert rs == [IndentLine(l, prefix)] + IndentLines(ls[1..], prefix);
      assert rs[0] == IndentLine(l, prefix);
      assert rs[1..] == IndentLines(ls[1..], prefix);
      assert UnindentLine(rs[0], prefix) == Some(l);
      assert UnindentLines(rs[1..], prefix) == Some(ls[1..]);
      assert ls == [l] + ls[1..];
    }
  }

  /** Removing the prefix from every prefixed line gives the text back. */
  lemma UnindentIndent(text: string, prefix: string)
    requires '\n' !in prefix
    requires HasText(prefix)
    ensures Unindent(Indent(text, prefix), prefix) == Some(text)
  {
    var ls := SplitLines(text);
    IndentLinesAreLines(ls, prefix);
    SplitConcat(IndentLines(ls, prefix));
    UnindentIndentLines(ls, prefix);
  }

  lemma UnindentedAreLines(ls: seq<string>, us: seq<string>, prefix: string)
    requires IsLineSplit(ls)
    requires |us| == |ls|
    requires forall i :: 0 <= i < |ls| ==> UnindentLine(ls[i], prefix) == Some(us[i])
    ensures IsLineSplit(us)
  {
  }

  lemma {:induction false} IndentUnindentLines(ls: seq<string>, us: seq<string>, prefix: string)
    requires |us| == |ls|
    requires forall i :: 0 <= i < |ls| ==> UnindentLine(ls[i], prefix) == Some(us[i])
    ensures IndentLines(us, prefix) == ls
  {
  }

  /** Whatever `Unindent` accepts is the indentation of what it returns. */
  lemma IndentUnindent(indented: string, text: string, prefix: string)
    requires Unindent(indented, prefix) == Some(text)
    ensures Indent(text, prefix) == indented
  {
    var ls := SplitLines(indented);
    var us := UnindentLines(ls, prefix).value;
    assert text == Concat(us);
    UnindentedAreLines(ls, us, prefix);
    SplitConcat(us);
    IndentUnindentLines(ls, us, prefix);
  }

  /** `Unindent` is exactly the inverse of `Indent` for a one-line prefix
      that is not all whitespace. */
  lemma UnindentIffIndent(indented: string, text: string, prefix: string)
    requires '\n' !in prefix
    requires HasText(prefix)
    ensures Unindent(indented, prefix) == Some(text) <==> Indent(text, prefix) == indented
  {
    if Unindent(indented, prefix) == Some(text) {
      IndentUnindent(indented, text, prefix);
    }
    if Indent(text, prefix) == indented {
      UnindentIndent(text, prefix);
    }
  }

  lemma HasTextExtend(l: string, t: string)
    requires HasText(l)
    ensures HasText(l + t)
  {
    var w :| 0 <= w < |l| && !IsSpace(l[w]);
    assert (l + t)[w] == l[w];
  }

  lemma NewlineEndsLine(first: string)
    requires forall i :: 0 <= i < |first| ==> first[i] != '\n'
    ensures IsLine(first + "\n") && Terminated(first + "\n")
  {
    forall i | 0 <= i < |first + "\n"| - 1 ensures (first + "\n")[i] != '\n' {
      assert (first + "\n")[i] == first[i];
    }
  }

  lemma LinePair(a: string, b: string)
    requires IsLine(a) && Terminated(a) && IsLine(b)
    ensures IsLineSplit([a, b])
    ensures Concat([a, b]) == a + b
  {
    assert [a, b][1..] == [b];
    assert Concat([b]) == b;
  }

  lemma TwoLinesSplit(first: string, second: string)
    requires forall i :: 0 <= i < |first| ==> first[i] != '\n'
    requires second != [] && forall i :: 0 <= i < |second| ==> second[i] != '\n'
    ensures SplitLines(first + "\n" + second) == [first + "\n", second]
  {
    NewlineEndsLine(first);
    LinePair(first + "\n", second);
    SplitConcat([first + "\n", second]);
  }

  /** Two lines that both hold text are both prefixed. */
  lemma IndentTwoLines(first: string, second: string, prefix: string)
    requires HasText(first) && forall i :: 0 <= i < |first| ==> first[i] != '\n'
    requires HasText(second) && forall i :: 0 <= i < |second| ==> second[i] != '\n'
    ensures Indent(first + "\n" + second, prefix) == prefix + first + "\n" + (prefix + second)
  {
    TwoLinesSplit(first, second);
    HasTextExtend(first, "\n");
    var ls := [first + "\n", second];
    var rs := [prefix + first + "\n", prefix + second];
    assert IndentLine(ls[0], prefix) == rs[0];
    assert IndentLine(ls[1], prefix) == rs[1];
    assert IndentLines(ls, prefix) == rs;
    assert rs[1..] == [prefix + second];
    assert Concat([prefix + second]) == prefix + second;
  }
}
