/** The `Note` record the language model fills in, and `Note.to_str`, which
    renders it as a markdown fragment for the daily journal. `Decode` is its
    inverse, given the number of action items. */
module NoteFormat {
  import opened Wrappers
  import opened TextIndent

  datatype Note = Note(heading: string, noteContent: string, todos: seq<string>, comments: string)

  const HeadingMarker: string := "## "
  /** The prefix `to_str` gives every body line and every action item. */
  const Bullet: string := "  - "
  const TodoMarker: string := "TODO "

  function TodoLine(item: string): string {
    Bullet + TodoMarker + item
  }

  function TodoLines(todos: seq<string>): (r: seq<string>)
    ensures |r| == |todos|
    ensures forall i :: 0 <= i < |todos| ==> r[i] == TodoLine(todos[i])
  {
    seq(|todos|, i requires 0 <= i < |todos| => TodoLine(todos[i]))
  }

  /** Python's `"\n".join(xs)`. */
  function JoinLines(xs: seq<string>): string {
    if |xs| == 0 then ""
    else if |xs| == 1 then xs[0]
    else JoinLines(xs[..|xs| - 1]) + "\n" + xs[|xs| - 1]
  }

  /** `Note.to_str`: heading line, indented body, a newline, the action items
      joined by newlines, a final newline. `comments` is not used. */
  function ToStr(n: Note): (r: string)
    ensures HeadingMarker + n.heading + "\n" <= r
    ensures |r| >= 2 && r[|r| - 1] == '\n'
    ensures n.todos == [] ==> r == HeadingMarker + n.heading + "\n" + Indent(n.noteContent, Bullet) + "\n\n"
  {
    HeadingMarker + n.heading + "\n" + Indent(n.noteContent, Bullet) + "\n" + JoinLines(TodoLines(n.todos)) + "\n"
  }

  /** A note `Decode` can recover: heading and action items are single lines. */
  predicate WellFormed(n: Note) {
    && '\n' !in n.heading
    && forall i :: 0 <= i < |n.todos| ==> '\n' !in n.todos[i]
  }

  /** Position of the last `\n` in `s`, if any. */
  function LastNewline(s: string): (r: Option<nat>)
    ensures r.None? ==> forall i :: 0 <= i < |s| ==> s[i] != '\n'
    ensures r.Some? ==> r.value < |s| && s[r.value] == '\n'
    ensures r.Some? ==> forall i :: r.value < i < |s| ==> s[i] != '\n'
  {
    if s == [] then None
    else if s[|s| - 1] == '\n' then Some(|s| - 1)
    else LastNewline(s[..|s| - 1])
  }

  /** Splits `"  - TODO " + item` into its item. */
  function ParseTodoLine(line: string): (r: Option<string>)
    ensures r.Some? <==> Bullet + TodoMarker <= line
    ensures r.Some? ==> TodoLine(r.value) == line
  {
    if Bullet + TodoMarker <= line then Some(line[|Bullet + TodoMarker|..]) else None
  }

  /** Takes `k` action-item lines, each preceded by its `\n`, off the end of `s`. */
  function PeelTodos(s: string, k: nat): Option<(string, seq<string>)>
    decreases k
  {
    if k == 0 then Some((s, []))
    else match LastNewline(s)
      case None => None
      case Some(j) =>
        match (ParseTodoLine(s[j + 1..]), PeelTodos(s[..j], k - 1))
        case (Some(item), Some((body, items))) => Some((body, items + [item]))
        case (None, _) => None
        case (_, None) => None
  }

  /** Splits off the `"## " + heading + "\n"` line. */
  function ParseHeading(s: string): (r: Option<(string, string)>)
    ensures r.Some? ==> '\n' !in r.value.0 && s == HeadingMarker + r.value.0 + "\n" + r.value.1
  {
    if HeadingMarker <= s then
      var rest := s[|HeadingMarker|..];
      var n := FirstLineLength(rest);
      if n > 0 && rest[n - 1] == '\n' then
        assert s == HeadingMarker + rest[..n - 1] + "\n" + rest[n..];
        assert forall i :: 0 <= i < n - 1 ==> rest[..n - 1][i] == rest[i];
        Some((rest[..n - 1], rest[n..]))
      else
        None
    else
      None
  }

  /** Splits what follows the heading line into the rendered body and the
      `todoCount` action items. */
  function SplitBody(rest: string, todoCount: nat): Option<(string, seq<string>)> {
    if rest == [] || rest[|rest| - 1] != '\n' then None
    else
      var x := rest[..|rest| - 1];
      if todoCount > 0 then PeelTodos(x, todoCount)
      else if x != [] && x[|x| - 1] == '\n' then Some((x[..|x| - 1], []))
      else None
  }

  /** Reads a fragment produced by `ToStr` back into the note it renders
      (with empty comments), given how many action items it holds. */
  function Decode(s: string, todoCount: nat): Option<Note> {
    match ParseHeading(s)
    case None => None
    case Some((heading, rest)) =>
      match SplitBody(rest, todoCount)
      case None => None
      case Some((body, todos)) =>
        match Unindent(body, Bullet)
        case None => None
        case Some(content) => Some(Note(heading, content, todos, ""))
  }

  lemma BulletHasText()
    ensures HasText(Bullet) && '\n' !in Bullet
  {
    assert !IsSpace(Bullet[2]);
  }

  lemma TodoLineSingle(item: string)
    requires '\n' !in item
    ensures forall i :: 0 <= i < |TodoLine(item)| ==> TodoLine(item)[i] != '\n'
  {
  }

  /** Regrouping `a \n b \n c`. */
  lemma JoinAssoc(a: string, b: string, c: string)
    ensures a + "\n" + b + "\n" + c == a + "\n" + (b + "\n" + c)
  {
  }

  lemma JoinLinesSnoc(xs: seq<string>, x: string)
    requires xs != []
    ensures JoinLines(xs + [x]) == JoinLines(xs) + "\n" + x
  {
  }

  lemma NewlineThenLine(pre: string, post: string)
    requires forall i :: 0 <= i < |post| ==> post[i] != '\n'
    ensures (pre + "\n" + post)[|pre|] == '\n'
    ensures forall i :: |pre| < i < |pre| + 1 + |post| ==> (pre + "\n" + post)[i] != '\n'
  {
  }

  lemma LastNewlineAt(pre: string, post: string)
    requires forall i :: 0 <= i < |post| ==> post[i] != '\n'
    ensures LastNewline(pre + "\n" + post) == Some(|pre|)
  {
    var s := pre + "\n" + post;
    NewlineThenLine(pre, post);
    var r := LastNewline(s);
    assert r.Some?;
    var j := r.value;
    assert s[j] == '\n';
    assert !(|pre| < j);
    assert j >= |pre|;
  }

  lemma ParseHeadingLine(h: string, rest: string)
    requires '\n' !in h
    ensures ParseHeading(HeadingMarker + h + "\n" + rest) == Some((h, rest))
  {
    var s := HeadingMarker + h + "\n" + rest;
    assert s[|HeadingMarker|..] == (h + "\n") + rest;
    assert forall i :: 0 <= i < |h| ==> (h + "\n")[i] == h[i];
    FirstLineLengthOfLine(h + "\n", rest);
    assert ((h + "\n") + rest)[..|h|] == h;
    assert ((h + "\n") + rest)[|h| + 1..] == rest;
  }

  /** Peeling one action-item line off the end. */
  lemma PeelOne(pre: string, item: string, k: nat)
    requires k > 0
    requires '\n' !in item
    ensures PeelTodos(pre + "\n" + TodoLine(item), k) ==
            match PeelTodos(pre, k - 1)
            case None => None
            case Some((b, items)) => Some((b, items + [item]))
  {
    var s := pre + "\n" + TodoLine(item);
    TodoLineSingle(item);
    LastNewlineAt(pre, TodoLine(item));
    assert s[..|pre|] == pre;
    assert s[|pre| + 1..] == TodoLine(item);
    assert TodoLine(item)[|Bullet + TodoMarker|..] == item;
  }

  /** Peeling the action items off a rendered tail gives them back in order. */
  lemma {:induction false} PeelTodosComplete(body: string, items: seq<string>)
    requires items != []
    requires forall i :: 0 <= i < |items| ==> '\n' !in items[i]
    ensures PeelTodos(body + "\n" + JoinLines(TodoLines(items)), |items|) == Some((body, items))
    decreases |items|
  {
    var k := |items|;
    var last := items[k - 1];
    var init := items[..k - 1];
    assert init + [last] == items;
    if k == 1 {
      assert JoinLines(TodoLines(items)) == TodoLine(last);
      PeelOne(body, last, 1);
    } else {
      var pre := body + "\n" + JoinLines(TodoLines(init));
      assert TodoLines(items) == TodoLines(init) + [TodoLine(last)];
      JoinLinesSnoc(TodoLines(init), TodoLine(last));
      JoinAssoc(body, JoinLines(TodoLines(init)), TodoLine(last));
      PeelTodosComplete(body, init);
      PeelOne(pre, last, k);
    }
  }

  /** One step of `PeelTodos`: the last line is an action item, and the
      rest is peeled further. */
  lemma PeelTodosStep(s: string, k: nat, body: string, items: seq<string>)
    requires k > 0
    requires PeelTodos(s, k) == Some((body, items))
    ensures LastNewline(s).Some?
    ensures var j := LastNewline(s).value;
            && |items| > 0
            && s == s[..j] + "\n" + TodoLine(items[|items| - 1])
            && '\n' !in items[|items| - 1]
            && PeelTodos(s[..j], k - 1) == Some((body, items[..|items| - 1]))
  {
  }

  /** Appending one more rendered action item to a rendered list. */
  lemma RenderSnoc(body: string, init: seq<string>, item: string)
    ensures body + "\n" + JoinLines(TodoLines(init + [item]))
            == if init == [] then body + "\n" + TodoLine(item)
               else body + "\n" + JoinLines(TodoLines(init)) + "\n" + TodoLine(item)
  {
    assert TodoLines(init + [item]) == TodoLines(init) + [TodoLine(item)];
    if init == [] {
      assert TodoLines(init + [item]) == [TodoLine(item)];
    } else {
      JoinLinesSnoc(TodoLines(init), TodoLine(item));
      JoinAssoc(body, JoinLines(TodoLines(init)), TodoLine(item));
    }
  }

  /** Single-line items stay single-line when one more is appended. */
  lemma SingleLineSnoc(init: seq<string>, item: string)
    requires forall i :: 0 <= i < |init| ==> '\n' !in init[i]
    requires '\n' !in item
    ensures forall i :: 0 <= i < |init + [item]| ==> '\n' !in (init + [item])[i]
  {
  }

  /** Whatever `PeelTodos` takes off is a rendered list of single-line items. */
  lemma {:induction false} PeelTodosSound(s: string, k: nat, body: string, items: seq<string>)
    requires k > 0
    requires PeelTodos(s, k) == Some((body, items))
    ensures |items| == k
    ensures forall i :: 0 <= i < |items| ==> '\n' !in items[i]
    ensures s == body + "\n" + JoinLines(TodoLines(items))
    decreases k
  {
    PeelTodosStep(s, k, body, items);
    var j := LastNewline(s).value;
    var item := items[|items| - 1];
    var init := items[..|items| - 1];
    assert items == init + [item];
    RenderSnoc(body, init, item);
    if k == 1 {
      assert init == [] && s[..j] == body;
    } else {
      PeelTodosSound(s[..j], k - 1, body, init);
      SingleLineSnoc(init, item);
    }
  }

  lemma ToStrShape(n: Note)
    ensures ToStr(n) == HeadingMarker + n.heading + "\n" +
                        (Indent(n.noteContent, Bullet) + "\n" + JoinLines(TodoLines(n.todos)) + "\n")
  {
  }

  lemma SplitBodyComplete(body: string, todos: seq<string>)
    requires forall i :: 0 <= i < |todos| ==> '\n' !in todos[i]
    ensures SplitBody(body + "\n" + JoinLines(TodoLines(todos)) + "\n", |todos|) == Some((body, todos))
  {
    var rest := body + "\n" + JoinLines(TodoLines(todos)) + "\n";
    assert rest[..|rest| - 1] == body + "\n" + JoinLines(TodoLines(todos));
    if todos != [] {
      PeelTodosComplete(body, todos);
    } else {
      assert TodoLines(todos) == [];
      assert rest == body + "\n" + "\n";
      assert (body + "\n")[..|body|] == body;
    }
  }

  lemma SplitBodySound(rest: string, k: nat, body: string, todos: seq<string>)
    requires SplitBody(rest, k) == Some((body, todos))
    ensures |todos| == k
    ensures forall i :: 0 <= i < |todos| ==> '\n' !in todos[i]
    ensures rest == body + "\n" + JoinLines(TodoLines(todos)) + "\n"
  {
    var x := rest[..|rest| - 1];
    assert rest == x + "\n";
    if k > 0 {
      PeelTodosSound(x, k, body, todos);
    } else {
      assert x == body + "\n";
    }
  }

  /** Round trip: decoding a rendered note with its action-item count gives
      the note back, except `comments`, which rendering drops. */
  lemma DecodeToStr(n: Note)
    requires WellFormed(n)
    ensures Decode(ToStr(n), |n.todos|) == Some(n.(comments := ""))
  {
    var body := Indent(n.noteContent, Bullet);
    var rest := body + "\n" + JoinLines(TodoLines(n.todos)) + "\n";
    ToStrShape(n);
    ParseHeadingLine(n.heading, rest);
    SplitBodyComplete(body, n.todos);
    BulletHasText();
    UnindentIndent(n.noteContent, Bullet);
  }

  /** Conversely, whatever `Decode` accepts is exactly the rendering of the
      note it returns. */
  lemma ToStrDecode(s: string, k: nat, n: Note)
    requires Decode(s, k) == Some(n)
    ensures WellFormed(n) && n.comments == "" && |n.todos| == k
    ensures ToStr(n) == s
  {
    var (heading, rest) := ParseHeading(s).value;
    var (body, todos) := SplitBody(rest, k).value;
    SplitBodySound(rest, k, body, todos);
    IndentUnindent(body, n.noteContent, Bullet);
    ToStrShape(n);
  }

  /** `Decode` and `ToStr` are inverse: a string decodes to a note exactly
      when it is that note's rendering. */
  lemma DecodeIffToStr(s: string, n: Note)
    ensures Decode(s, |n.todos|) == Some(n) <==>
            (WellFormed(n) && n.comments == "" && ToStr(n) == s)
  {
    if Decode(s, |n.todos|) == Some(n) {
      ToStrDecode(s, |n.todos|, n);
    }
    if WellFormed(n) && n.comments == "" && ToStr(n) == s {
      DecodeToStr(n);
      assert n.(comments := "") == n;
    }
  }

  /** `comments` never reaches the output. */
  lemma CommentsIgnored(n: Note, comments: string)
    ensures ToStr(n.(comments := comments)) == ToStr(n)
  {
  }

  /** The action-item fragment, closed by the final newline, splits into
      one `"  - TODO " + item` line per item, in order. */
  lemma {:induction false} TodoSection(todos: seq<string>)
    requires todos != []
    requires forall i :: 0 <= i < |todos| ==> '\n' !in todos[i]
    ensures var ls := SplitLines(JoinLines(TodoLines(todos)) + "\n");
            && |ls| == |todos|
            && forall i :: 0 <= i < |todos| ==> ls[i] == Bullet + TodoMarker + todos[i] + "\n"
  {
    var ts := Terminate(TodoLines(todos));
    TerminatedJoin(TodoLines(todos));
    forall i | 0 <= i < |ts| ensures IsLine(ts[i]) && Terminated(ts[i]) {
      TodoLineSingle(todos[i]);
      assert forall j :: 0 <= j < |ts[i]| - 1 ==> ts[i][j] == TodoLine(todos[i])[j];
    }
    SplitConcat(ts);
  }

  function Terminate(xs: seq<string>): (r: seq<string>)
    ensures |r| == |xs| && forall i :: 0 <= i < |xs| ==> r[i] == xs[i] + "\n"
  {
    seq(|xs|, i requires 0 <= i < |xs| => xs[i] + "\n")
  }

  lemma ConcatSnoc(ls: seq<string>, l: string)
    ensures Concat(ls + [l]) == Concat(ls) + l
  {
    if ls != [] {
      assert (ls + [l])[1..] == ls[1..] + [l];
      ConcatSnoc(ls[1..], l);
    }
  }

  /** `"\n".join(xs) + "\n"` ends every string of `xs` with a newline. */
  lemma {:induction false} TerminatedJoin(xs: seq<string>)
    requires xs != []
    ensures JoinLines(xs) + "\n" == Concat(Terminate(xs))
    decreases |xs|
  {
    if |xs| == 1 {
      assert Terminate(xs) == [xs[0] + "\n"];
    } else {
      var init := xs[..|xs| - 1];
      TerminatedJoin(init);
      assert Terminate(xs) == Terminate(init) + [xs[|xs| - 1] + "\n"];
      ConcatSnoc(Terminate(init), xs[|xs| - 1] + "\n");
    }
  }

  lemma IndentOneLine(l: string, prefix: string)
    requires l != [] && '\n' !in l && HasText(l)
    ensures Indent(l, prefix) == prefix + l
  {
  }

  /** A one-line body and a single action item render as three lines:
      heading, bulleted body line, `TODO` item. */
  lemma ThreeLineNote(n: Note)
    requires n.noteContent != [] && '\n' !in n.noteContent && HasText(n.noteContent)
    requires |n.todos| == 1
    ensures ToStr(n) == HeadingMarker + n.heading + "\n"
                        + Bullet + n.noteContent + "\n"
                        + Bullet + TodoMarker + n.todos[0] + "\n"
  {
  }

  lemma {:induction false} JoinLinesCons(x: string, xs: seq<string>)
    requires xs != []
    ensures JoinLines([x] + xs) == x + "\n" + JoinLines(xs)
    decreases |xs|
  {
    var ys := [x] + xs;
    if |xs| == 1 {
      assert ys[..1] == [x];
    } else {
      var init := xs[..|xs| - 1];
      assert ys[..|ys| - 1] == [x] + init;
      JoinLinesCons(x, init);
      JoinAssoc(x, JoinLines(init), xs[|xs| - 1]);
    }
  }

  lemma TodoMarkerSingle(item: string)
    requires '\n' !in item
    ensures HasText(TodoMarker + item)
    ensures forall i :: 0 <= i < |TodoMarker + item| ==> (TodoMarker + item)[i] != '\n'
  {
    var second := TodoMarker + item;
    assert !IsSpace(second[0]);
    forall i | |TodoMarker| <= i < |second| ensures second[i] != '\n' {
      assert second[i] == item[i - |TodoMarker|];
    }
  }

  lemma IndentTodoLikeBody(line: string, item: string)
    requires '\n' !in line && HasText(line)
    requires '\n' !in item
    ensures Indent(line + "\n" + TodoMarker + item, Bullet) == Bullet + line + "\n" + TodoLine(item)
  {
    var second := TodoMarker + item;
    TodoMarkerSingle(item);
    IndentTwoLines(line, second, Bullet);
    assert line + "\n" + TodoMarker + item == line + "\n" + second;
    assert Bullet + second == TodoLine(item);
  }

  /** Regrouping the tail of a rendering. */
  lemma TailRegroup(a: string, t: string, j: string)
    ensures a + "\n" + t + "\n" + j + "\n" == a + "\n" + (t + "\n" + j) + "\n"
  {
  }

  /** The rendering does not delimit body from action items: a last body
      line `TODO item` renders exactly like a leading action item `item`,
      which is why `Decode` is told the number of items. */
  lemma BodyLineLooksLikeTodo(n: Note, line: string, item: string)
    requires line != [] && '\n' !in line && HasText(line)
    requires '\n' !in item
    requires n.todos != []
    ensures ToStr(n.(noteContent := line + "\n" + TodoMarker + item))
            == ToStr(n.(noteContent := line, todos := [item] + n.todos))
  {
    var n1 := n.(noteContent := line + "\n" + TodoMarker + item);
    var n2 := n.(noteContent := line, todos := [item] + n.todos);
    var t := TodoLine(item);
    var j := JoinLines(TodoLines(n.todos));
    IndentTodoLikeBody(line, item);
    IndentOneLine(line, Bullet);
    assert TodoLines(n2.todos) == [t] + TodoLines(n.todos);
    JoinLinesCons(t, TodoLines(n.todos));
    TailRegroup(Bullet + line, t, j);
    ToStrShape(n1);
    ToStrShape(n2);
  }

  /** An action item holding a newline is not one line: the item
      `a + "\n" + "  - TODO " + b` renders exactly like the two items `a`
      and `b`, which is why `Decode` needs single-line items. */
  lemma TodoNewlineCollides(n: Note, a: string, b: string)
    ensures ToStr(n.(todos := [a + "\n" + TodoLine(b)])) == ToStr(n.(todos := [a, b]))
  {
    var n1 := n.(todos := [a + "\n" + TodoLine(b)]);
    var n2 := n.(todos := [a, b]);
    assert TodoLines(n1.todos) == [TodoLine(a + "\n" + TodoLine(b))];
    assert TodoLines(n2.todos) == [TodoLine(a), TodoLine(b)];
    assert [TodoLine(a), TodoLine(b)][..1] == [TodoLine(a)];
    assert JoinLines(TodoLines(n2.todos)) == TodoLine(a) + "\n" + TodoLine(b);
    assert TodoLine(a + "\n" + TodoLine(b)) == TodoLine(a) + "\n" + TodoLine(b);
    ToStrShape(n1);
    ToStrShape(n2);
  }

  /** Regrouping a heading line with the first body line. */
  lemma HeadRegroup(h: string, first: string, y: string, j: string)
    ensures HeadingMarker + (h + "\n" + Bullet + first) + "\n" + (y + "\n" + j + "\n")
            == HeadingMarker + h + "\n" + ((Bullet + first + "\n" + y) + "\n" + j + "\n")
  {
  }

  /** A heading holding a newline is not one line: the heading
      `h + "\n" + "  - " + first` over the body `second` renders exactly like
      the heading `h` over the two-line body `first + "\n" + second`, which is
      why `Decode` needs a single-line heading. */
  lemma HeadingNewlineCollides(n: Note, h: string, first: string, second: string)
    requires forall i :: 0 <= i < |first| ==> first[i] != '\n'
    requires forall i :: 0 <= i < |second| ==> second[i] != '\n'
    requires HasText(first) && HasText(second)
    ensures ToStr(n.(heading := h + "\n" + Bullet + first, noteContent := second))
            == ToStr(n.(heading := h, noteContent := first + "\n" + second))
  {
    var n1 := n.(heading := h + "\n" + Bullet + first, noteContent := second);
    var n2 := n.(heading := h, noteContent := first + "\n" + second);
    var y, j := Bullet + second, JoinLines(TodoLines(n.todos));
    TwoLineBody(first, second);
    RenderWith(n1, y);
    RenderWith(n2, Bullet + first + "\n" + y);
    HeadRegroup(h, first, y, j);
  }

  /** How a body of one or two single-line texts indents. */
  lemma TwoLineBody(first: string, second: string)
    requires forall i :: 0 <= i < |first| ==> first[i] != '\n'
    requires forall i :: 0 <= i < |second| ==> second[i] != '\n'
    requires HasText(first) && HasText(second)
    ensures Indent(second, Bullet) == Bullet + second
    ensures Indent(first + "\n" + second, Bullet) == Bullet + first + "\n" + (Bullet + second)
  {
    assert '\n' !in second by {
      forall k | 0 <= k < |second| ensures second[k] != '\n' { }
    }
    IndentOneLine(second, Bullet);
    IndentTwoLines(first, second, Bullet);
  }

  /** `ToStrShape` once the body's indentation is known. */
  lemma RenderWith(n: Note, body: string)
    requires Indent(n.noteContent, Bullet) == body
    ensures ToStr(n) == HeadingMarker + n.heading + "\n" +
                        (body + "\n" + JoinLines(TodoLines(n.todos)) + "\n")
  {
    ToStrShape(n);
  }
}
