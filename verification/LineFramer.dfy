/**
  Cutting a container's output into lines (src/logs.rs, `buffer_lines` and
  `flush_trailing`).  Frames cut the output anywhere; the lines must not depend
  on where.  A frame is a string: the lossy decoding of a frame that ends inside
  a character is left out.
*/
module LineFramer {
  import opened Basics

  // ---- Lines, of the whole output ----

  function FindNewline(s: string, i: nat): (r: Option<nat>)
    requires i <= |s|
    ensures r.Some? ==> i <= r.value < |s| && s[r.value] == '\n' && forall j :: i <= j < r.value ==> s[j] != '\n'
    ensures r.None? ==> forall j :: i <= j < |s| ==> s[j] != '\n'
    decreases |s| - i
  {
    if i == |s| then None else if s[i] == '\n' then Some(i) else FindNewline(s, i + 1)
  }

  /** The complete lines of `s`, without their newlines. */
  function LinesOf(s: string): seq<string> {
    match FindNewline(s, 0)
    case None => []
    case Some(pos) => [s[..pos]] + LinesOf(s[pos + 1..])
  }

  /** What follows the last newline of `s`. */
  function RestOf(s: string): string {
    match FindNewline(s, 0)
    case None => s
    case Some(pos) => RestOf(s[pos + 1..])
  }

  function Rejoined(lines: seq<string>): string {
    if |lines| == 0 then "" else lines[0] + "\n" + Rejoined(lines[1..])
  }

  predicate OneLine(s: string) {
    '\n' !in s
  }

  lemma {:induction false} FirstNewlineIs(a: string, b: string)
    requires OneLine(a)
    ensures FindNewline(a + "\n" + b, 0) == Some(|a|)
  {
    var s := a + "\n" + b;
    assert s[|a|] == '\n' && forall j :: 0 <= j < |a| ==> s[j] == a[j];
  }

  lemma RejoinedCons(line: string, lines: seq<string>, rest: string)
    ensures Rejoined([line] + lines) + rest == line + "\n" + (Rejoined(lines) + rest)
  {
    assert ([line] + lines)[1..] == lines;
  }

  lemma CutAt(s: string, pos: nat)
    requires pos < |s| && s[pos] == '\n'
    ensures s == s[..pos] + "\n" + s[pos + 1..]
  {
  }

  /** Rejoined, the lines and the rest are the output again. */
  lemma {:induction false} LinesRejoin(s: string)
    ensures Rejoined(LinesOf(s)) + RestOf(s) == s
    ensures OneLine(RestOf(s)) && forall l :: l in LinesOf(s) ==> OneLine(l)
    decreases |s|
  {
    match FindNewline(s, 0) {
      case None =>
      case Some(pos) =>
        var tail := s[pos + 1..];
        LinesRejoin(tail);
        assert LinesOf(s) == [s[..pos]] + LinesOf(tail) && RestOf(s) == RestOf(tail);
        hide LinesOf, RestOf, Rejoined, FindNewline;
        RejoinedCons(s[..pos], LinesOf(tail), RestOf(tail));
        CutAt(s, pos);
    }
  }

  /** And they are the only lines and rest that do. */
  lemma {:induction false} LinesAreTheCut(lines: seq<string>, rest: string)
    requires OneLine(rest) && forall l :: l in lines ==> OneLine(l)
    ensures LinesOf(Rejoined(lines) + rest) == lines && RestOf(Rejoined(lines) + rest) == rest
  {
    if |lines| == 0 {
      assert Rejoined(lines) + rest == rest;
    } else {
      var after := Rejoined(lines[1..]) + rest;
      assert lines == [lines[0]] + lines[1..];
      RejoinedCons(lines[0], lines[1..], rest);
      FirstNewlineIs(lines[0], after);
      assert (lines[0] + "\n" + after)[|lines[0]| + 1..] == after;
      assert (lines[0] + "\n" + after)[..|lines[0]|] == lines[0];
      LinesAreTheCut(lines[1..], rest);
    }
  }

  lemma FirstLine(s: string, pos: nat)
    requires FindNewline(s, 0) == Some(pos)
    ensures LinesOf(s) == [s[..pos]] + LinesOf(s[pos + 1..]) && RestOf(s) == RestOf(s[pos + 1..])
  {
  }

  lemma FirstLineOfBoth(a: string, b: string, pos: nat)
    requires FindNewline(a, 0) == Some(pos)
    ensures FindNewline(a + b, 0) == Some(pos) && (a + b)[..pos] == a[..pos] && (a + b)[pos + 1..] == a[pos + 1..] + b
  {
    var tail := a[pos + 1..];
    assert a + b == a[..pos] + "\n" + (tail + b);
    FirstNewlineIs(a[..pos], tail + b);
  }

  lemma NoLine(s: string)
    requires FindNewline(s, 0) == None
    ensures LinesOf(s) == [] && RestOf(s) == s
  {
  }

  /** What is buffered stands for all that came before it. */
  lemma {:induction false} LinesResume(a: string, b: string)
    ensures LinesOf(a + b) == LinesOf(a) + LinesOf(RestOf(a) + b)
    ensures RestOf(a + b) == RestOf(RestOf(a) + b)
    decreases |a|
  {
    hide LinesOf, RestOf, FindNewline;
    match FindNewline(a, 0) {
      case None =>
        NoLine(a);
        assert [] + LinesOf(a + b) == LinesOf(a + b);
      case Some(pos) =>
        var tail, line := a[pos + 1..], a[..pos];
        FirstLineOfBoth(a, b, pos);
        FirstLine(a, pos);
        FirstLine(a + b, pos);
        LinesResume(tail, b);
        Associates([line], LinesOf(tail), LinesOf(RestOf(tail) + b));
    }
  }

  lemma Associates(a: seq<string>, b: seq<string>, c: seq<string>)
    ensures a + (b + c) == (a + b) + c
  {
  }

  // ---- The buffer ----

  function TrimEndNewlines(s: string): string {
    if |s| > 0 && s[|s| - 1] == '\n' then TrimEndNewlines(s[..|s| - 1]) else s
  }

  function WithPrefix(prefix: Option<string>, body: string): string {
    match prefix
    case None => body
    case Some(p) => p + body
  }

  function Prefixed(prefix: Option<string>, lines: seq<string>): seq<string> {
    seq(|lines|, i requires 0 <= i < |lines| => WithPrefix(prefix, lines[i]))
  }

  lemma PrefixedAppend(prefix: Option<string>, a: seq<string>, b: seq<string>)
    ensures Prefixed(prefix, a) + Prefixed(prefix, b) == Prefixed(prefix, a + b)
  {
  }

  lemma LastPrefixed(prefix: Option<string>, s: string)
    ensures Prefixed(prefix, []) == [] && Prefixed(prefix, [s]) == [WithPrefix(prefix, s)]
  {
  }

  lemma TrimsOneNewline(body: string)
    requires OneLine(body)
    ensures TrimEndNewlines(body + "\n") == body
  {
    assert (body + "\n")[..|body|] == body;
    assert |body| > 0 ==> body[|body| - 1] in body;
  }

  lemma NextLine(buffer: string, pos: nat)
    requires FindNewline(buffer, 0) == Some(pos)
    ensures LinesOf(buffer) == [TrimEndNewlines(buffer[..pos + 1])] + LinesOf(buffer[pos + 1..])
    ensures RestOf(buffer) == RestOf(buffer[pos + 1..])
  {
    assert buffer[..pos + 1] == buffer[..pos] + "\n";
    TrimsOneNewline(buffer[..pos]);
  }

  class LineBuffer {
    var buffer: string

    constructor ()
      ensures buffer == ""
    {
      buffer := "";
    }

    method BufferLines(chunk: string, prefix: Option<string>) returns (out: seq<string>)
      modifies this
      ensures out == Prefixed(prefix, LinesOf(old(buffer) + chunk))
      ensures buffer == RestOf(old(buffer) + chunk)
    {
      hide LinesOf, RestOf, TrimEndNewlines, WithPrefix, Prefixed, FindNewline;
      buffer := buffer + chunk;
      ghost var whole, taken := buffer, [];
      out := [];
      LastPrefixed(prefix, "");
      while true
        invariant LinesOf(whole) == taken + LinesOf(buffer) && RestOf(whole) == RestOf(buffer)
        invariant out == Prefixed(prefix, taken)
        decreases |buffer|
      {
        match FindNewline(buffer, 0) {
          case None =>
            NoLine(buffer);
            assert taken + [] == taken;
            return;
          case Some(pos) =>
            NextLine(buffer, pos);
            var line := buffer[..pos + 1];
            buffer := buffer[pos + 1..];
            var body := TrimEndNewlines(line);
            assert taken + ([body] + LinesOf(buffer)) == (taken + [body]) + LinesOf(buffer);
            LastPrefixed(prefix, body);
            PrefixedAppend(prefix, taken, [body]);
            taken := taken + [body];
            out := out + [WithPrefix(prefix, body)];
        }
      }
    }

    /** The trailing partial line, if there is one, when the stream ends. */
    method FlushTrailing(prefix: Option<string>) returns (out: seq<string>)
      modifies this
      ensures buffer == ""
      ensures out == if old(buffer) == "" then [] else [WithPrefix(prefix, old(buffer))]
    {
      if buffer == "" {
        return [];
      }
      out := [WithPrefix(prefix, buffer)];
      buffer := "";
    }
  }

  function Concat(chunks: seq<string>): string {
    if |chunks| == 0 then "" else Concat(chunks[..|chunks| - 1]) + chunks[|chunks| - 1]
  }

  /** What is emitted, and what is still buffered, after the frames `chunks`. */
  function Fed(chunks: seq<string>): (seq<string>, string) {
    if |chunks| == 0 then ([], "")
    else
      var (lines, buffer) := Fed(chunks[..|chunks| - 1]);
      var input := buffer + chunks[|chunks| - 1];
      (lines + LinesOf(input), RestOf(input))
  }

  /** The frames do not matter: what is emitted are the lines of the output so
      far, and what is buffered is its last, unfinished line. */
  lemma {:induction false} FramesDoNotMatter(chunks: seq<string>)
    ensures Fed(chunks) == (LinesOf(Concat(chunks)), RestOf(Concat(chunks)))
    ensures OneLine(Fed(chunks).1)
  {
    if |chunks| > 0 {
      var front := chunks[..|chunks| - 1];
      FramesDoNotMatter(front);
      LinesResume(Concat(front), chunks[|chunks| - 1]);
    }
    LinesRejoin(Concat(chunks));
  }

  /** The lines of a whole output, the last one with or without its newline. */
  function AllLines(s: string): seq<string> {
    LinesOf(s) + if RestOf(s) == "" then [] else [RestOf(s)]
  }

  /** How Docker's stream stops: the container's output is over, or an error. */
  datatype End = Over | Broken

  /** What is to be published of the output `s`: on an error the unfinished line
      is dropped. */
  function ToPublish(s: string, end: End): seq<string> {
    if end.Over? then AllLines(s) else LinesOf(s)
  }

  /** As many of the lines as find a subscriber; the first that does not is the
      last that is sent. */
  function Accepted(lines: seq<string>, subscribed: Option<nat>): seq<string> {
    if subscribed.Some? && subscribed.value < |lines| then lines[..subscribed.value] else lines
  }

  lemma {:induction false} FedIsPrefix(chunks: seq<string>, i: nat)
    requires i <= |chunks|
    ensures Fed(chunks[..i]).0 <= LinesOf(Concat(chunks))
    decreases |chunks| - i
  {
    hide LinesOf, RestOf;
    if i == |chunks| {
      assert chunks[..i] == chunks;
      FramesDoNotMatter(chunks);
    } else {
      assert chunks[..i + 1][..i] == chunks[..i];
      FedIsPrefix(chunks, i + 1);
    }
  }

  lemma PrefixOfPrefixed(prefix: Option<string>, a: seq<string>, b: seq<string>)
    requires a <= b
    ensures Prefixed(prefix, a) <= Prefixed(prefix, b)
  {
  }

  lemma AcceptedEarly(a: seq<string>, b: seq<string>, subscribed: Option<nat>)
    requires a <= b && subscribed.Some? && subscribed.value < |a|
    ensures Accepted(a, subscribed) == Accepted(b, subscribed)
  {
  }

  /** Sends lines until one finds no subscriber. */
  method Send(sent: seq<string>, more: seq<string>, subscribed: Option<nat>) returns (out: seq<string>, failed: bool)
    requires subscribed.Some? ==> |sent| <= subscribed.value
    ensures out == Accepted(sent + more, subscribed)
    ensures failed <==> subscribed.Some? && subscribed.value < |sent + more|
  {
    out := sent;
    for j := 0 to |more|
      invariant out == sent + more[..j]
      invariant subscribed.Some? ==> |out| <= subscribed.value
    {
      if subscribed == Some(|out|) {
        assert (sent + more)[..|out|] == out;
        return out, true;
      }
      out := out + [more[j]];
    }
    assert more[..|more|] == more;
    failed := false;
  }

  /** A stream to its end: whatever frames it came in, the lines published are
      those of the whole output, up to the first that no subscriber is left for. */
  method StreamLines(chunks: seq<string>, prefix: Option<string>, end: End, subscribed: Option<nat>)
    returns (out: seq<string>)
    ensures out == Accepted(Prefixed(prefix, ToPublish(Concat(chunks), end)), subscribed)
    ensures subscribed.None? && end.Over? ==> out == Prefixed(prefix, AllLines(Concat(chunks)))
    ensures subscribed.None? && end.Broken? ==> out == Prefixed(prefix, LinesOf(Concat(chunks)))
  {
    hide LinesOf, RestOf, Prefixed, Accepted;
    if subscribed.None? {
      AcceptedAll(Prefixed(prefix, ToPublish(Concat(chunks), end)), subscribed);
    }
    var lines := new LineBuffer();
    out := [];
    LastPrefixed(prefix, "");
    for i := 0 to |chunks|
      invariant out == Prefixed(prefix, Fed(chunks[..i]).0)
      invariant lines.buffer == Fed(chunks[..i]).1
      invariant subscribed.Some? ==> |out| <= subscribed.value
    {
      assert chunks[..i + 1][..i] == chunks[..i];
      var more := lines.BufferLines(chunks[i], prefix);
      var failed;
      PrefixedAppend(prefix, Fed(chunks[..i]).0, LinesOf(Fed(chunks[..i]).1 + chunks[i]));
      out, failed := Send(out, more, subscribed);
      FedIsPrefix(chunks, i + 1);
      PrefixOfPrefixed(prefix, Fed(chunks[..i + 1]).0, ToPublish(Concat(chunks), end));
      if failed {
        AcceptedEarly(Prefixed(prefix, Fed(chunks[..i + 1]).0), Prefixed(prefix, ToPublish(Concat(chunks), end)), subscribed);
        return;
      }
      AcceptedAll(Prefixed(prefix, Fed(chunks[..i + 1]).0), subscribed);
    }
    assert chunks[..|chunks|] == chunks;
    FramesDoNotMatter(chunks);
    hide Fed, Concat;
    AcceptedAll(out, subscribed);
    if end.Over? {
      var last := lines.FlushTrailing(prefix);
      var failed;
      LastPrefixed(prefix, RestOf(Concat(chunks)));
      PrefixedAppend(prefix, LinesOf(Concat(chunks)), if RestOf(Concat(chunks)) == "" then [] else [RestOf(Concat(chunks))]);
      out, failed := Send(out, last, subscribed);
    }
  }

  lemma AcceptedAll(lines: seq<string>, subscribed: Option<nat>)
    requires subscribed.Some? ==> |lines| <= subscribed.value
    ensures Accepted(lines, subscribed) == lines
  {
  }

  // ---- What a published line is ----

  /** With no prefix the lines are published as they are; with one, each carries
      it in front and is otherwise as it is. */
  lemma PrefixedExactly(prefix: Option<string>, lines: seq<string>)
    ensures prefix.None? ==> Prefixed(prefix, lines) == lines
    ensures prefix.Some? ==> |Prefixed(prefix, lines)| == |lines|
    ensures prefix.Some? ==> forall i :: 0 <= i < |lines| ==> Prefixed(prefix, lines)[i] == prefix.value + lines[i]
  {
    assert prefix.None? ==> forall i :: 0 <= i < |lines| ==> Prefixed(prefix, lines)[i] == lines[i];
  }

  lemma {:induction false} RejoinedAppend(lines: seq<string>, last: string)
    ensures Rejoined(lines + [last]) == Rejoined(lines) + last + "\n"
  {
    if lines == [] {
      assert [] + [last] == [last] && [last][1..] == [];
    } else {
      assert (lines + [last])[1..] == lines[1..] + [last];
      RejoinedAppend(lines[1..], last);
    }
  }

  /** A stream that ends in peace loses nothing: rejoined, its lines are the whole
      output, with a newline added where the last line had none. */
  lemma AllLinesRejoin(s: string)
    ensures Rejoined(AllLines(s)) == if s == "" || s[|s| - 1] == '\n' then s else s + "\n"
  {
    LinesRejoin(s);
    var rest := RestOf(s);
    if rest == "" {
      assert AllLines(s) == LinesOf(s) && Rejoined(LinesOf(s)) + "" == Rejoined(LinesOf(s));
      if s != "" {
        EndsInNewline(LinesOf(s));
      }
    } else {
      RejoinedAppend(LinesOf(s), rest);
      assert s[|s| - 1] == rest[|rest| - 1] && rest[|rest| - 1] in rest;
    }
  }

  lemma {:induction false} EndsInNewline(lines: seq<string>)
    requires Rejoined(lines) != ""
    ensures Rejoined(lines)[|Rejoined(lines)| - 1] == '\n'
  {
    if lines != [] && Rejoined(lines[1..]) != "" {
      EndsInNewline(lines[1..]);
    }
  }

  /** A send that fails stops the stream there, and not before. */
  lemma AcceptedExactly(lines: seq<string>, subscribed: Option<nat>)
    ensures Accepted(lines, subscribed) <= lines
    ensures subscribed.None? ==> Accepted(lines, subscribed) == lines
    ensures subscribed.Some? ==>
      |Accepted(lines, subscribed)| == if subscribed.value < |lines| then subscribed.value else |lines|
  {
  }
}
