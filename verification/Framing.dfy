/** Receiving in XcbStratumClient.cpp: reads are appended to a message buffer, and every complete line in it
    is trimmed and, unless empty, processed. */
module Framing {
  import Transmit

  predicate IsSpace(c: char) {
    c == ' ' || '\t' <= c <= '\r'
  }

  /** `s` without the spaces it begins with. */
  function TrimLeft(s: string): (r: string)
    ensures |r| <= |s| && r == s[|s| - |r|..]
    ensures forall i :: 0 <= i < |s| - |r| ==> IsSpace(s[i])
    ensures r != "" ==> !IsSpace(r[0])
  {
    if s != "" && IsSpace(s[0]) then TrimLeft(s[1..]) else s
  }

  /** `s` without the spaces it ends with. */
  function TrimRight(s: string): (r: string)
    ensures |r| <= |s| && r == s[..|r|]
    ensures forall i :: |r| <= i < |s| ==> IsSpace(s[i])
    ensures r != "" ==> !IsSpace(r[|r| - 1])
  {
    if s != "" && IsSpace(s[|s| - 1]) then TrimRight(s[..|s| - 1]) else s
  }

  function Trim(s: string): string {
    TrimRight(TrimLeft(s))
  }

  /** The position of the first newline, or the length. */
  function FirstNewline(s: string): (k: nat)
    ensures k <= |s| && '\n' !in s[..k] && (k < |s| ==> s[k] == '\n')
  {
    if s == "" || s[0] == '\n' then 0
    else
      var k := FirstNewline(s[1..]);
      assert s[..1 + k] == [s[0]] + s[1..][..k];
      1 + k
  }

  /** The line before the newline at `k`, if it is worth processing. */
  function LineAt(s: string, k: nat): seq<string>
    requires k <= |s|
  {
    if Trim(s[..k]) != "" then [Trim(s[..k])] else []
  }

  /** The lines to process in a buffer, and what stays in it. */
  function Split(s: string): (r: (seq<string>, string))
    ensures '\n' !in r.1
  {
    var k := FirstNewline(s);
    if k == |s| then
      assert s[..k] == s;
      ([], s)
    else
      var t := Split(s[k + 1..]);
      (LineAt(s, k) + t.0, t.1)
  }

  /** The receiving side of the client. */
  class Receiver {
    var message: string

    constructor ()
      ensures message == ""
    {
      message := "";
    }

    /** onRecvSocketDataCompleted() without an error; `lines` are the lines handed on, in order. */
    method OnRecv(chunk: string) returns (lines: seq<string>)
      modifies this
      ensures (lines, message) == Split(old(message) + chunk)
    {
      hide Split, FirstNewline, Trim;
      message := message + chunk;
      lines := [];
      var offset := FirstNewline(message);
      assert [] + Split(message).0 == Split(message).0;
      while offset < |message|
        invariant offset == FirstNewline(message)
        invariant (lines + Split(message).0, Split(message).1) == Split(old(message) + chunk)
        decreases |message|
      {
        SplitUnfold(message, offset);
        TrimNothing(message);
        ghost var before, found := lines, LineAt(message, offset);
        assert before + (found + Split(message[offset + 1..]).0) == before + found + Split(message[offset + 1..]).0;
        if offset > 0 {
          var line := Trim(message[..offset]);
          if line != "" {
            lines := lines + [line];
          }
        }
        assert lines == before + found;
        message := message[offset + 1..];
        offset := FirstNewline(message);
      }
      NoNewline(message);
      assert lines + [] == lines;
    }
  }

  // ----- framing does not depend on how the stream is cut

  lemma FirstNewlineIs(s: string, k: nat)
    requires k <= |s| && '\n' !in s[..k] && (k < |s| ==> s[k] == '\n')
    ensures FirstNewline(s) == k
  {
  }

  lemma TrimNothing(s: string)
    ensures Trim(s[..0]) == ""
  {
  }

  lemma SplitUnfold(s: string, k: nat)
    requires FirstNewline(s) == k < |s|
    ensures Split(s) == (LineAt(s, k) + Split(s[k + 1..]).0, Split(s[k + 1..]).1)
  {
    hide FirstNewline, LineAt;
  }

  lemma SameLine(a: string, b: string, k: nat)
    requires k <= |a|
    ensures LineAt(a + b, k) == LineAt(a, k)
  {
    assert (a + b)[..k] == a[..k];
  }

  /** Reading `a`, then `b` after what `a` left, is reading `a + b`. */
  lemma {:induction false} SplitAppend(a: string, b: string)
    ensures var r := Split(Split(a).1 + b);
            Split(a + b) == (Split(a).0 + r.0, r.1)
    decreases |a|
  {
    hide LineAt, Split;
    var k := FirstNewline(a);
    if k < |a| {
      var rest := a[k + 1..];
      assert (a + b)[k + 1..] == rest + b && (a + b)[..k] == a[..k];
      FirstNewlineIs(a + b, k);
      SplitAppend(rest, b);
      SplitUnfold(a, k);
      SplitUnfold(a + b, k);
      SameLine(a, b, k);
      hide *;
      var r := Split(Split(rest).1 + b);
      assert LineAt(a, k) + (Split(rest).0 + r.0) == LineAt(a, k) + Split(rest).0 + r.0;
    } else {
      NoNewline(a);
      assert [] + Split(a + b).0 == Split(a + b).0;
    }
  }

  ghost function Received(left: string, chunks: seq<string>): (seq<string>, string)
    decreases |chunks|
  {
    if chunks == [] then ([], left)
    else
      var r := Split(left + chunks[0]);
      var t := Received(r.1, chunks[1..]);
      (r.0 + t.0, t.1)
  }

  ghost function Joined(chunks: seq<string>): string {
    if chunks == [] then "" else chunks[0] + Joined(chunks[1..])
  }

  /** Any two ways to cut the same stream give the same lines and leave the same rest. */
  lemma ChunkingDoesNotMatter(c: seq<string>, d: seq<string>)
    requires Joined(c) == Joined(d)
    ensures Received("", c) == Received("", d)
  {
    ReceivedIs("", c);
    ReceivedIs("", d);
  }

  lemma {:induction false} ReceivedIs(left: string, chunks: seq<string>)
    requires '\n' !in left
    ensures Received(left, chunks) == Split(left + Joined(chunks))
    decreases |chunks|
  {
    if chunks == [] {
      assert left + "" == left;
      NoNewline(left);
    } else {
      var s := left + chunks[0];
      ReceivedIs(Split(s).1, chunks[1..]);
      SplitAppend(s, Joined(chunks[1..]));
      assert s + Joined(chunks[1..]) == left + Joined(chunks);
    }
  }

  lemma NoNewline(s: string)
    requires '\n' !in s || FirstNewline(s) == |s|
    ensures FirstNewline(s) == |s| && Split(s) == ([], s)
  {
  }

  /** A receiver fed with a list of reads hands on the lines of the whole stream and keeps its rest. */
  method ReceiveAll(r: Receiver, chunks: seq<string>) returns (lines: seq<string>)
    requires r.message == ""
    modifies r
    ensures (lines, r.message) == Split(Joined(chunks))
  {
    lines := [];
    for i := 0 to |chunks|
      invariant (lines, r.message) == Split(Joined(chunks[..i]))
    {
      SplitAppend(Joined(chunks[..i]), chunks[i]);
      assert chunks[..i + 1] == chunks[..i] + [chunks[i]];
      JoinedOneMore(chunks[..i], chunks[i]);
      var more := r.OnRecv(chunks[i]);
      lines := lines + more;
    }
    assert chunks[..|chunks|] == chunks;
  }

  lemma {:induction false} JoinedOneMore(chunks: seq<string>, chunk: string)
    ensures Joined(chunks + [chunk]) == Joined(chunks) + chunk
    decreases |chunks|
  {
    if chunks != [] {
      JoinedOneMore(chunks[1..], chunk);
      assert (chunks + [chunk])[1..] == chunks[1..] + [chunk];
    }
  }

  // ----- what a sender writes, a receiver reads

  ghost predicate Clean(line: string) {
    line != "" && '\n' !in line && !IsSpace(line[0]) && !IsSpace(line[|line| - 1])
  }

  lemma CleanLine(line: string)
    requires Clean(line)
    ensures Split(line + "\n") == ([line], "")
  {
    var s := line + "\n";
    assert s[..|line|] == line && s[|line| + 1..] == "";
    FirstNewlineIs(s, |line|);
    SplitUnfold(s, |line|);
    assert Trim(line) == line;
    hide TrimLeft, TrimRight;
    assert Split("") == ([], "");
    assert [line] + [] == [line];
  }

  lemma NothingToSplit()
    ensures Split("") == ([], "")
  {
  }

  /** Whatever the transport does to the boundaries, lines written by the sender arrive as sent. */
  lemma {:induction false} LinesArrive(lines: seq<string>)
    requires forall i :: 0 <= i < |lines| ==> Clean(lines[i])
    ensures Split(Transmit.Text(lines)) == (lines, "")
    decreases |lines|
  {
    hide Split;
    if lines == [] {
      assert Split("") == ([], "") by { NothingToSplit(); }
    } else {
      var init, last := lines[..|lines| - 1], lines[|lines| - 1];
      LinesArrive(init);
      CleanLine(last);
      SplitAppend(Transmit.Text(init), last + "\n");
      assert Transmit.Text(init) + (last + "\n") == Transmit.Text(lines);
      assert "" + (last + "\n") == last + "\n";
      assert init + [last] == lines;
    }
  }

  // ----- spaces and empty lines

  /** The characters that isspace() knows. */
  lemma SpacesAre(c: char)
    ensures IsSpace(c) <==> c as int in {9, 10, 11, 12, 13, 32}
  {
  }

  ghost predicate Blank(s: string) {
    '\n' !in s && forall i :: 0 <= i < |s| ==> IsSpace(s[i])
  }

  lemma {:induction false} TrimLeftBlank(a: string, line: string)
    requires forall i :: 0 <= i < |a| ==> IsSpace(a[i])
    requires line != "" ==> !IsSpace(line[0])
    ensures TrimLeft(a + line) == line
    decreases |a|
  {
    if a == "" {
      assert a + line == line;
    } else {
      assert (a + line)[1..] == a[1..] + line;
      TrimLeftBlank(a[1..], line);
    }
  }

  lemma {:induction false} TrimRightBlank(line: string, b: string)
    requires forall i :: 0 <= i < |b| ==> IsSpace(b[i])
    requires line != "" ==> !IsSpace(line[|line| - 1])
    ensures TrimRight(line + b) == line
    decreases |b|
  {
    if b == "" {
      assert line + b == line;
    } else {
      var n := |b| - 1;
      assert (line + b)[..|line| + n] == line + b[..n];
      TrimRightBlank(line, b[..n]);
    }
  }

  /** A line with spaces around it arrives without them; a line of nothing but spaces does not arrive at all. */
  lemma PaddedLineArrives(a: string, line: string, b: string)
    requires Blank(a) && Blank(b) && (line == "" || Clean(line))
    ensures Split(a + line + b + "\n") == (if line == "" then [] else [line], "")
  {
    var text := a + line + b;
    assert text == a + (line + b);
    assert '\n' !in text;
    assert (text + "\n")[..|text|] == text && (text + "\n")[|text| + 1..] == "";
    FirstNewlineIs(text + "\n", |text|);
    SplitUnfold(text + "\n", |text|);
    assert Trim(text) == line by { TrimmedIs(a, line, b); }
    var found := LineAt(text + "\n", |text|);
    assert found == if line == "" then [] else [line];
    hide *;
    NothingToSplit();
    assert found + [] == found;
  }

  lemma TrimmedIs(a: string, line: string, b: string)
    requires Blank(a) && Blank(b) && (line == "" || Clean(line))
    ensures Trim(a + line + b) == line
  {
    hide TrimLeft, TrimRight;
    if line == "" {
      TrimLeftBlank(a + b, "");
      assert a + line + b == a + b + "";
      TrimRightBlank("", "");
      assert "" + "" == "";
    } else {
      TrimLeftBlank(a, line + b);
      assert a + line + b == a + (line + b);
      TrimRightBlank(line, b);
    }
  }
}
