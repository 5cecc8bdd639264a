/** Hostile text in a Markdown code fence, and the reader of fenced blocks (section 4.5 of CommonMark). */
module Fence {
  import opened Findings

  // --------------------------------------------------------------------------
  // Writing
  // --------------------------------------------------------------------------

  /** Backticks at the start of `s`. */
  function Run(s: string): (n: nat)
    ensures n <= |s| && (forall i | 0 <= i < n :: s[i] == '`') && (n < |s| ==> s[n] != '`')
  {
    if s == "" || s[0] != '`' then 0 else 1 + Run(s[1..])
  }

  /** The longest backtick run, scanning maximal runs from the left. */
  function Longest(s: string): nat
    decreases |s|
  {
    if s == "" then 0
    else if Run(s) == 0 then Longest(s[1..])
    else var more := Longest(s[Run(s)..]); if Run(s) > more then Run(s) else more
  }

  function Ticks(n: nat): (s: string)
    ensures |s| == n && forall i | 0 <= i < n :: s[i] == '`'
  {
    seq(n, i => '`')
  }

  function FenceLength(text: string): nat {
    if Longest(text) < 3 then 3 else Longest(text) + 1
  }

  function FenceUntrusted(text: string, info: string): string {
    var fence := Ticks(FenceLength(text));
    fence + info + "\n" + text + "\n" + fence
  }

  // --------------------------------------------------------------------------
  // Reading
  // --------------------------------------------------------------------------

  /** The first line without its ending, and how many characters it takes with it. */
  function FirstLine(s: string): (r: (string, nat))
    ensures |r.0| <= r.1 <= |s| && r.0 == s[..|r.0|] && (s != "" ==> r.1 > 0)
    ensures '\n' !in r.0 && '\r' !in r.0
  {
    if s == "" then ("", 0)
    else if s[0] == '\n' then ("", 1)
    else if s[0] == '\r' then ("", if |s| > 1 && s[1] == '\n' then 2 else 1)
    else var more := FirstLine(s[1..]); ([s[0]] + more.0, 1 + more.1)
  }

  /** An opening fence: its length and its info string. */
  function Opens(line: string): Option<(nat, string)> {
    var n := Run(line);
    if n >= 3 && '`' !in line[n..] then Some((n, line[n..])) else None
  }

  function Indent(s: string, most: nat): (n: nat)
    ensures n <= |s|
  {
    if most > 0 && s != "" && s[0] == ' ' then 1 + Indent(s[1..], most - 1) else 0
  }

  /** A closing fence for an opening one of `n` backticks. */
  predicate Closes(line: string, n: nat) {
    var bare := line[Indent(line, 3)..];
    Run(bare) >= n && forall c | c in bare[Run(bare)..] :: c == ' ' || c == '\t'
  }

  /** The raw content up to the closing fence, and what follows the closing line. */
  function Content(s: string, n: nat): (string, string)
    decreases |s|
  {
    if s == "" then ("", "")
    else
      var line := FirstLine(s);
      if Closes(line.0, n) then ("", s[line.1..])
      else var more := Content(s[line.1..], n); (s[..line.1] + more.0, more.1)
  }

  predicate IsBlank(c: char) {
    c == ' ' || c == '\t'
  }

  /** Without the spaces and tabs at both ends. */
  function Trim(s: string): (t: string)
    ensures t != "" ==> !IsBlank(t[0]) && !IsBlank(t[|t| - 1])
  {
    if s == "" then s
    else if IsBlank(s[0]) then Trim(s[1..])
    else if IsBlank(s[|s| - 1]) then Trim(s[..|s| - 1])
    else s
  }

  /** A fenced block: info string, raw content, rest of the document. */
  datatype Block = Block(info: string, content: string, rest: string)

  /** The fenced block at the start of `s`; `interpret` is what the standard does to backslash escapes and entities in an info string. */
  function ReadBlock(s: string, interpret: string -> string): Option<Block> {
    var line := FirstLine(s);
    match Opens(line.0)
    case None => None
    case Some(open) => var body := Content(s[line.1..], open.0); Some(Block(interpret(Trim(open.1)), body.0, body.1))
  }

  // --------------------------------------------------------------------------
  // The text cannot leave its fence
  // --------------------------------------------------------------------------

  /** Every backtick run anywhere in `s` is at most the longest one. */
  lemma {:induction false} LongestBounds(s: string, i: nat)
    requires i <= |s|
    ensures Run(s[i..]) <= Longest(s)
    decreases |s|
  {
    if s != "" {
      var n := Run(s);
      if i < n {
        RunShrinks(s, i);
      } else if n == 0 {
        if i > 0 {
          LongestBounds(s[1..], i - 1);
          assert s[1..][i - 1..] == s[i..];
        }
      } else {
        LongestBounds(s[n..], i - n);
        assert s[n..][i - n..] == s[i..];
      }
    }
  }

  lemma {:induction false} RunShrinks(s: string, i: nat)
    requires i <= Run(s)
    ensures Run(s[i..]) <= Run(s)
  {
    if i > 0 {
      RunShrinks(s[1..], i - 1);
      assert s[1..][i - 1..] == s[i..];
    }
  }

  /** A run inside a prefix is no longer than the run at the same place in the whole. */
  lemma {:induction false} RunInPrefix(s: string, k: nat)
    requires k <= |s|
    ensures Run(s[..k]) <= Run(s)
  {
    if k > 0 && s[0] == '`' {
      RunInPrefix(s[1..], k - 1);
      assert s[..k][1..] == s[1..][..k - 1];
    }
  }

  /** The fence is the shortest of at least three backticks that is longer than every run in the text. */
  lemma FenceLengthLeast(text: string)
    ensures FenceLength(text) >= 3 && forall i | 0 <= i <= |text| :: Run(text[i..]) < FenceLength(text)
    ensures FenceLength(text) > 3 ==> exists i :: 0 <= i <= |text| && Run(text[i..]) == FenceLength(text) - 1
  {
    forall i | 0 <= i <= |text| ensures Run(text[i..]) <= Longest(text) {
      LongestBounds(text, i);
    }
    var i := LongestAt(text);
  }

  lemma {:induction false} LongestAt(s: string) returns (i: nat)
    ensures i <= |s| && Run(s[i..]) == Longest(s)
    decreases |s|
  {
    if s == "" {
      i := 0;
    } else if Run(s) == 0 {
      var more := LongestAt(s[1..]);
      i := more + 1;
      assert s[1..][more..] == s[i..];
    } else {
      var more := LongestAt(s[Run(s)..]);
      if Run(s) > Longest(s[Run(s)..]) {
        i := 0;
        assert s[0..] == s;
      } else {
        i := more + Run(s);
        assert s[Run(s)..][more..] == s[i..];
      }
    }
  }

  ghost predicate Shorter(s: string, n: nat) {
    forall i | 0 <= i <= |s| :: Run(s[i..]) < n
  }

  lemma ShorterTail(s: string, n: nat, k: nat)
    requires Shorter(s, n) && k <= |s|
    ensures Shorter(s[k..], n)
  {
    forall i | 0 <= i <= |s| - k ensures Run(s[k..][i..]) < n {
      assert s[k..][i..] == s[k + i..];
    }
  }

  /** No part of a line of the text is a closing fence. */
  lemma CannotClose(s: string, n: nat, k: nat)
    requires Shorter(s, n) && k <= |s|
    ensures !Closes(s[..k], n)
  {
    var i := Indent(s[..k], 3);
    RunInPrefix(s[i..], k - i);
    assert s[..k][i..] == s[i..][..k - i];
  }

  /** A line that starts in `s` ends in `s`, or takes exactly the line feed behind it. */
  lemma {:induction false} LineOfPart(s: string, tail: string)
    ensures var line := FirstLine(s + "\n" + tail); |line.0| <= |s| && line.0 == s[..|line.0|] && line.1 <= |s| + 1
  {
    var all := s + "\n" + tail;
    if s != "" && s[0] != '\n' && s[0] != '\r' {
      LineOfPart(s[1..], tail);
      assert all[1..] == s[1..] + "\n" + tail;
    }
  }

  lemma ContentStep(s: string, n: nat)
    requires s != "" && !Closes(FirstLine(s).0, n)
    ensures var k := FirstLine(s).1; Content(s, n) == (s[..k] + Content(s[k..], n).0, Content(s[k..], n).1)
  {
  }

  /** Whoever needs at least as many backticks as the fence has finds it behind the text, and nothing in the text; whoever needs more finds nothing. */
  lemma {:induction false} ContentIsText(s: string, n: nat, m: nat)
    requires m >= 3 && Shorter(s, m)
    ensures Content(s + "\n" + Ticks(n), m) == (if m <= n then s + "\n" else s + "\n" + Ticks(n), "")
    decreases |s|
  {
    hide Closes, FirstLine, Run, Content;
    var fence := Ticks(n);
    var all := s + "\n" + fence;
    var line := FirstLine(all);
    LineOfPart(s, fence);
    CannotClose(s, m, |line.0|);
    ContentStep(all, m);
    if line.1 <= |s| {
      ShorterTail(s, m, line.1);
      ContentIsText(s[line.1..], n, m);
      assert all[line.1..] == s[line.1..] + "\n" + fence;
      assert all[..line.1] + (s[line.1..] + "\n") == s + "\n";
      assert all[..line.1] + (s[line.1..] + "\n" + fence) == all;
    } else {
      FenceLine(n, m);
      assert all[line.1..] == fence && all[..line.1] + "" == s + "\n" && all[..line.1] + fence == all;
    }
  }

  /** A fence line closes a block of at most its own length. */
  lemma FenceLine(n: nat, m: nat)
    requires m >= 3
    ensures Content(Ticks(n), m) == (if m <= n then "" else Ticks(n), "")
  {
    var fence := Ticks(n);
    PlainLine(fence, "", "");
    TicksRun(n, "");
    assert fence + "" + "" == fence && fence + "" == fence && fence[0..] == fence && fence[..n] + "" == fence;
    if n > 0 {
      assert Indent(fence, 3) == 0;
      assert fence[n..] == "";
    }
  }

  /** A block that ends with the document reaches up to the last line. */
  lemma {:induction false} ContentReachesEnd(s: string, n: nat, m: nat)
    requires n >= 1 && Content(s + "\n" + Ticks(n), m).1 == ""
    ensures |Content(s + "\n" + Ticks(n), m).0| >= |s| + 1
    decreases |s|
  {
    var fence := Ticks(n);
    var all := s + "\n" + fence;
    var line := FirstLine(all);
    LineOfPart(s, fence);
    assert |all[line.1..]| > 0;
    if line.1 <= |s| && !Closes(line.0, m) {
      assert all[line.1..] == s[line.1..] + "\n" + fence;
      ContentReachesEnd(s[line.1..], n, m);
    }
  }

  lemma {:induction false} PlainLine(s: string, end: string, tail: string)
    requires '\n' !in s && '\r' !in s && (end == "\n" || end == "\r\n" || (end == "" && tail == ""))
    ensures FirstLine(s + end + tail) == (s, |s| + |end|)
  {
    if s != "" {
      PlainLine(s[1..], end, tail);
      assert (s + end + tail)[1..] == s[1..] + end + tail && (s + end + tail)[0] == s[0];
      assert s[0] in s && [s[0]] + s[1..] == s;
    } else {
      assert s + end + tail == end + tail;
    }
  }

  lemma {:induction false} TicksRun(n: nat, tail: string)
    requires tail == "" || tail[0] != '`'
    ensures Run(Ticks(n) + tail) == n
  {
    if n > 0 {
      TicksRun(n - 1, tail);
      assert (Ticks(n) + tail)[1..] == Ticks(n - 1) + tail;
    } else {
      assert Ticks(n) + tail == tail;
    }
  }

  predicate PlainInfo(info: string) {
    '`' !in info && '\n' !in info && '\r' !in info
  }

  /** A carriage return at the end of the info string becomes part of the line ending. */
  function Stem(info: string): string {
    if info != "" && info[|info| - 1] == '\r' then info[..|info| - 1] else info
  }

  function Ending(info: string): string {
    if info != "" && info[|info| - 1] == '\r' then "\r\n" else "\n"
  }

  /** The reader finds the text with one line feed as the content of the block, and nothing outside. */
  predicate Recovers(text: string, r: Option<Block>) {
    r.Some? && r.value.content == text + "\n" && r.value.rest == ""
  }

  /**
   * The reader recovers the text exactly for an info string without backtick and without line
   * ending before its end; it then reports that info string as the standard trims and interprets it.
   */
  lemma FenceRoundTrip(text: string, info: string, interpret: string -> string)
    ensures Recovers(text, ReadBlock(FenceUntrusted(text, info), interpret)) <==> PlainInfo(Stem(info))
    ensures PlainInfo(info) ==> ReadBlock(FenceUntrusted(text, info), interpret) == Some(Block(interpret(Trim(info)), text + "\n", ""))
  {
    hide Content, FirstLine, Trim, Run;
    var n, stem, end := FenceLength(text), Stem(info), Ending(info);
    forall i | 0 <= i <= |text| ensures Run(text[i..]) < n {
      LongestBounds(text, i);
    }
    assert FenceUntrusted(text, info) == Ticks(n) + stem + end + (text + "\n" + Ticks(n));
    if '\n' in stem || '\r' in stem {
      BrokenInfo(text, stem, end, n, interpret);
    } else {
      OneLineInfo(text, stem, end, n, interpret);
    }
  }

  /** On one line, the info string is read if it holds no backtick; else the block is no block, or it never closes. */
  lemma OneLineInfo(text: string, stem: string, end: string, n: nat, interpret: string -> string)
    requires '\n' !in stem && '\r' !in stem && (end == "\n" || end == "\r\n") && n >= 3 && Shorter(text, n)
    ensures var r := ReadBlock(Ticks(n) + stem + end + (text + "\n" + Ticks(n)), interpret);
      if '`' !in stem then r == Some(Block(interpret(Trim(stem)), text + "\n", "")) else !Recovers(text, r)
  {
    hide Content, FirstLine, Trim, Opens, Run, Shorter, ReadBlock, Ticks;
    var line, rest := Ticks(n) + stem, text + "\n" + Ticks(n);
    PlainTicks(n, stem);
    ReadOneLine(line, end, rest, interpret);
    OpensWith(stem, n);
    if '`' !in stem {
      ContentIsText(text, n, n);
    } else if Opens(Ticks(n) + stem).Some? {
      NeverCloses(text, n, n + Run(stem));
    }
  }

  lemma PlainTicks(n: nat, stem: string)
    requires '\n' !in stem && '\r' !in stem
    ensures '\n' !in Ticks(n) + stem && '\r' !in Ticks(n) + stem
  {
  }

  /** A block that needs more backticks than the fence has runs to the end of the document. */
  lemma NeverCloses(text: string, n: nat, m: nat)
    requires n >= 3 && Shorter(text, n) && m > n
    ensures Content(text + "\n" + Ticks(n), m).0 != text + "\n"
  {
    ShorterMore(text, n, m);
    ContentIsText(text, n, m);
    assert |text + "\n" + Ticks(n)| > |text + "\n"|;
  }

  lemma ReadOneLine(line: string, end: string, rest: string, interpret: string -> string)
    requires '\n' !in line && '\r' !in line && (end == "\n" || end == "\r\n")
    ensures ReadBlock(line + end + rest, interpret) ==
      match Opens(line)
      case None => None
      case Some(open) => var body := Content(rest, open.0); Some(Block(interpret(Trim(open.1)), body.0, body.1))
  {
    hide Content, FirstLine, Trim, Opens;
    PlainLine(line, end, rest);
    assert (line + end + rest)[|line| + |end|..] == rest;
  }

  lemma FirstIn(s: string)
    ensures s == "" || s[0] in s
  {
  }

  /** A line of fence and info string opens a block exactly when all backticks of the info string stand at its start; they lengthen the fence. */
  lemma OpensWith(stem: string, n: nat)
    requires n >= 3
    ensures var r := Opens(Ticks(n) + stem); r.Some? ==> r.value.0 == n + Run(stem)
    ensures '`' !in stem ==> Opens(Ticks(n) + stem) == Some((n, stem))
    ensures Opens(Ticks(n) + stem).Some? && '`' in stem ==> Run(stem) > 0
  {
    TicksMore(n, stem);
    var k := Run(stem);
    hide Run;
    assert (Ticks(n) + stem)[n + k..] == stem[k..];
    if '`' !in stem {
      FirstIn(stem);
      assert k == 0;
      assert stem[0..] == stem;
    } else if k == 0 {
      assert stem[0..] == stem;
    }
  }

  lemma ShorterMore(s: string, n: nat, m: nat)
    requires Shorter(s, n) && n <= m
    ensures Shorter(s, m)
  {
  }

  lemma {:induction false} TicksMore(n: nat, s: string)
    ensures Run(Ticks(n) + s) == n + Run(s)
  {
    if n > 0 {
      TicksMore(n - 1, s);
      assert (Ticks(n) + s)[1..] == Ticks(n - 1) + s;
    } else {
      assert Ticks(n) + s == s;
    }
  }

  /** With a line ending inside the info string, the content starts too early. */
  lemma BrokenInfo(text: string, stem: string, end: string, n: nat, interpret: string -> string)
    requires ('\n' in stem || '\r' in stem) && (end == "\r\n" || (end == "\n" && stem[|stem| - 1] != '\r')) && n >= 3
    ensures !Recovers(text, ReadBlock(Ticks(n) + stem + end + (text + "\n" + Ticks(n)), interpret))
  {
    hide Trim, Run;
    var fence := Ticks(n);
    var head := fence + stem + end[..|end| - 1];
    var doc := fence + stem + end + (text + "\n" + fence);
    EndsInFeed(fence + stem, end, text + "\n" + fence);
    assert "\n" + (text + "\n" + fence) == "\n" + text + "\n" + fence;
    BrokenLine(fence + stem, end[..|end| - 1], "\n" + text + "\n" + fence);
    var line := FirstLine(doc);
    var more := head[line.1..] + "\n" + text;
    assert doc == head + ("\n" + text + "\n" + fence);
    CutInside(head, "\n" + text + "\n" + fence, line.1);
    assert head[line.1..] + ("\n" + text + "\n" + fence) == more + "\n" + fence;
    var r := ReadBlock(doc, interpret);
    if r.Some? && r.value.rest == "" {
      ContentReachesEnd(more, n, Opens(line.0).value.0);
    }
  }

  lemma CutInside(head: string, tail: string, k: nat)
    requires k <= |head|
    ensures (head + tail)[k..] == head[k..] + tail
  {
  }

  lemma EndsInFeed(line: string, end: string, rest: string)
    requires end == "\r\n" || end == "\n"
    ensures line + end + rest == line + end[..|end| - 1] + ("\n" + rest)
  {
    var cut := end[..|end| - 1];
    assert end == cut + "\n";
    assert line + end == line + cut + "\n";
    assert line + cut + "\n" + rest == line + cut + ("\n" + rest);
  }

  /** A line ending inside `head` ends the first line before `tail`. */
  lemma {:induction false} BrokenLine(head: string, end: string, tail: string)
    requires ('\n' in head || '\r' in head) && (end == "\r" || (end == "" && head[|head| - 1] != '\r'))
    ensures FirstLine(head + end + tail).1 <= |head + end|
  {
    if head[0] != '\n' && head[0] != '\r' {
      assert head == [head[0]] + head[1..];
      BrokenLine(head[1..], end, tail);
      assert (head + end + tail)[1..] == head[1..] + end + tail;
    }
  }
}
