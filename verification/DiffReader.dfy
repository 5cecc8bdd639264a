/** The reader of staged additions, against a printer of the `git diff -U0` format. */
module DiffReader {
  import opened Characters
  import opened Findings

  type Path = string
  type Lines = seq<string>

  // --------------------------------------------------------------------------
  // Decimal numbers
  // --------------------------------------------------------------------------

  function DigitRun(s: string): (n: nat)
    ensures n <= |s| && (forall i | 0 <= i < n :: IsDigit(s[i]))
  {
    if s == "" || !IsDigit(s[0]) then 0 else 1 + DigitRun(s[1..])
  }

  function Value(s: string): nat
    requires forall i | 0 <= i < |s| :: IsDigit(s[i])
  {
    if s == "" then 0 else (var last := s[|s| - 1]; assert IsDigit(last); 10 * Value(s[..|s| - 1]) + (last - '0') as nat)
  }

  function Decimal(n: nat): (s: string)
    ensures s != "" && forall i | 0 <= i < |s| :: IsDigit(s[i])
  {
    var digit := ['0' + (n % 10) as char];
    if n < 10 then digit else Decimal(n / 10) + digit
  }

  lemma {:induction false} DecimalReadBack(n: nat)
    ensures Value(Decimal(n)) == n
  {
    if n >= 10 {
      DecimalReadBack(n / 10);
      assert Decimal(n)[..|Decimal(n)| - 1] == Decimal(n / 10);
    } else {
      assert Decimal(n)[..0] == "";
    }
  }

  lemma {:induction false} DigitRunIs(s: string, tail: string)
    requires (forall i | 0 <= i < |s| :: IsDigit(s[i])) && (tail == "" || !IsDigit(tail[0]))
    ensures DigitRun(s + tail) == |s|
  {
    if s == "" {
      assert s + tail == tail;
    } else {
      DigitRunIs(s[1..], tail);
      assert (s + tail)[1..] == s[1..] + tail;
    }
  }

  // --------------------------------------------------------------------------
  // Hunk headers
  // --------------------------------------------------------------------------

  /** `start` or `start,count` at the start of `s`, and what follows. */
  function ReadRange(s: string): Option<(nat, string)> {
    var n := DigitRun(s);
    if n == 0 then None
    else
      var rest := s[n..];
      if rest != "" && rest[0] == ',' && DigitRun(rest[1..]) > 0 then Some((Value(s[..n]), rest[1 + DigitRun(rest[1..])..]))
      else Some((Value(s[..n]), rest))
  }

  const HUNK := "@@ -"
  const PLUS := " +"
  const HUNK_END := " @@"

  /** The first new line number of a hunk header line. */
  function ParseHunk(line: string): Option<nat> {
    if !(HUNK <= line) then None
    else match ReadRange(line[|HUNK|..])
      case None => None
      case Some(before) =>
        if !(PLUS <= before.1) then None
        else match ReadRange(before.1[|PLUS|..])
          case None => None
          case Some(after) => if HUNK_END <= after.1 then Some(after.0) else None
  }

  /** One or more digits that spell `n`. */
  ghost predicate Spells(s: string, n: nat) {
    s != "" && (forall i | 0 <= i < |s| :: IsDigit(s[i])) && Value(s) == n
  }

  /** A line number, alone or with a count behind a comma. */
  ghost predicate IsRange(s: string, n: nat) {
    Spells(s, n) || exists a, b, m :: Spells(a, n) && Spells(b, m) && s == a + "," + b
  }

  lemma RangeRead(s: string)
    ensures ReadRange(s).Some? ==> exists r :: IsRange(r, ReadRange(s).value.0) && s == r + ReadRange(s).value.1
  {
    hide Value, IsDigit;
    var n := DigitRun(s);
    if n > 0 {
      var a, rest := s[..n], s[n..];
      assert Spells(a, Value(a)) && s == a + rest;
      if rest != "" && rest[0] == ',' && DigitRun(rest[1..]) > 0 {
        var b := rest[1..][..DigitRun(rest[1..])];
        assert Spells(b, Value(b)) && rest == "," + b + rest[1 + |b|..];
        assert s == (a + "," + b) + rest[1 + |b|..];
      }
    }
  }

  lemma RangeIsRead(s: string, n: nat, tail: string)
    requires IsRange(s, n) && tail != "" && tail[0] == ' '
    ensures ReadRange(s + tail) == Some((n, tail))
  {
    hide Value;
    if Spells(s, n) {
      DigitRunIs(s, tail);
      assert (s + tail)[..|s|] == s && (s + tail)[|s|..] == tail;
    } else {
      var a, b, m :| Spells(a, n) && Spells(b, m) && s == a + "," + b;
      var rest := "," + (b + tail);
      assert s + tail == a + rest;
      DigitRunIs(a, rest);
      DigitRunIs(b, tail);
      assert (a + rest)[..|a|] == a && (a + rest)[|a|..] == rest;
      assert rest[1..] == b + tail && rest[1 + |b|..] == tail;
    }
  }

  /** A line of two ranges between the marks, whatever follows: the second one starts at `n`. */
  ghost predicate IsHunkHeader(line: string, n: nat) {
    exists before, m, after, tail :: IsRange(before, m) && IsRange(after, n) && line == "@@ -" + before + " +" + after + " @@" + tail
  }

  /** Exactly the hunk headers are read, and the number is that of the new side. */
  lemma HunkExactly(line: string, n: nat)
    ensures ParseHunk(line) == Some(n) <==> IsHunkHeader(line, n)
  {
    hide ReadRange, IsRange;
    if ParseHunk(line) == Some(n) {
      HunkRead(line, n);
    }
    if before, m, after, tail :| IsRange(before, m) && IsRange(after, n) && line == "@@ -" + before + " +" + after + " @@" + tail {
      HunkIsRead(before, m, after, n, tail);
    }
  }

  lemma HunkRead(line: string, n: nat)
    requires ParseHunk(line) == Some(n)
    ensures IsHunkHeader(line, n)
  {
    hide ReadRange, IsRange;
    var s := line[4..];
    RangeRead(s);
    var before := ReadRange(s).value;
    RangeRead(before.1[2..]);
    var after := ReadRange(before.1[2..]).value;
    var old_ :| IsRange(old_, before.0) && s == old_ + before.1;
    var new_ :| IsRange(new_, after.0) && before.1[2..] == new_ + after.1;
    var tail := after.1[3..];
    assert line == "@@ -" + old_ + " +" + new_ + " @@" + tail by {
      assert line == "@@ -" + s && before.1 == " +" + before.1[2..] && after.1 == " @@" + tail;
    }
  }

  lemma HunkIsRead(before: string, m: nat, after: string, n: nat, tail: string)
    requires IsRange(before, m) && IsRange(after, n)
    ensures ParseHunk("@@ -" + before + " +" + after + " @@" + tail) == Some(n)
  {
    hide ReadRange, IsRange;
    var line, end := "@@ -" + before + " +" + after + " @@" + tail, " @@" + tail;
    var middle := " +" + (after + end);
    assert line == "@@ -" + (before + middle) && line[4..] == before + middle && middle[2..] == after + end;
    RangeIsRead(before, m, middle);
    RangeIsRead(after, n, end);
  }

  // --------------------------------------------------------------------------
  // The reader
  // --------------------------------------------------------------------------

  const DIFF := "diff --git "
  const TARGET := "+++ b/"

  type Added = map<Path, seq<(nat, string)>>

  datatype State = State(rel: Option<Path>, number: nat, header: bool, added: Added)

  const START := State(None, 0, false, map[])

  function AppendLines(m: Added, p: Path, more: seq<(nat, string)>): Added {
    if more == [] then m else m[p := (if p in m then m[p] else []) + more]
  }

  function Step(s: State, line: string): State {
    if DIFF <= line then s.(rel := None, header := true)
    else if s.header then
      if TARGET <= line then s.(rel := Some(line[|TARGET|..]))
      else (match ParseHunk(line) case Some(n) => s.(number := n, header := false) case None => s)
    else
      match ParseHunk(line)
      case Some(n) => s.(number := n)
      case None =>
        if s.rel.Some? && s.rel.value != "" && line != "" && line[0] == '+' then
          s.(number := s.number + 1, added := AppendLines(s.added, s.rel.value, [(s.number, line[1..])]))
        else s
  }

  function Run(s: State, lines: Lines): State
    decreases |lines|
  {
    if lines == [] then s else Run(Step(s, lines[0]), lines[1..])
  }

  /** The lines that the other side of a merge does not have. */
  function Ours(lines: seq<(nat, string)>, theirs: set<string>): seq<(nat, string)>
    decreases |lines|
  {
    if lines == [] then []
    else Ours(lines[..|lines| - 1], theirs) + if lines[|lines| - 1].1 in theirs then [] else [lines[|lines| - 1]]
  }

  method AddedLines(out: Lines, theirs: Path -> set<string>) returns (added: Added)
    ensures added == map p | p in Run(START, out).added :: Ours(Run(START, out).added[p], theirs(p))
  {
    added := map[];
    var rel: Option<Path>, number, header := None, 0, false;
    for i := 0 to |out|
      invariant Run(START, out) == Run(State(rel, number, header, added), out[i..])
    {
      var line := out[i];
      assert out[i..][1..] == out[i + 1..];
      if DIFF <= line {
        rel, header := None, true;
      } else if header {
        if TARGET <= line {
          rel := Some(line[|TARGET|..]);
        } else {
          var hunk := ParseHunk(line);
          if hunk.Some? {
            number, header := hunk.value, false;
          }
        }
      } else {
        var hunk := ParseHunk(line);
        if hunk.Some? {
          number := hunk.value;
        } else if rel.Some? && rel.value != "" && line != "" && line[0] == '+' {
          added := AppendLines(added, rel.value, [(number, line[1..])]);
          number := number + 1;
        }
      }
    }
    added := MergeSide(added, theirs);
  }

  method MergeSide(added: Added, theirs: Path -> set<string>) returns (kept: Added)
    ensures kept == map p | p in added :: Ours(added[p], theirs(p))
  {
    kept := added;
    var todo := added.Keys;
    while todo != {}
      invariant todo <= added.Keys && kept.Keys == added.Keys
      invariant forall p | p in added :: kept[p] == if p in todo then added[p] else Ours(added[p], theirs(p))
    {
      var p :| p in todo;
      if theirs(p) != {} {
        var ours := [];
        for i := 0 to |added[p]|
          invariant ours == Ours(added[p][..i], theirs(p))
        {
          assert added[p][..i + 1][..i] == added[p][..i];
          if added[p][i].1 !in theirs(p) {
            ours := ours + [added[p][i]];
          }
        }
        assert added[p][..|added[p]|] == added[p];
        kept := kept[p := ours];
      } else {
        NothingTheirs(added[p]);
      }
      todo := todo - {p};
    }
  }

  lemma {:induction false} NothingTheirs(lines: seq<(nat, string)>)
    ensures Ours(lines, {}) == lines
  {
    if lines != [] {
      NothingTheirs(lines[..|lines| - 1]);
    }
  }

  /** What the filter keeps: exactly the lines that the other side lacks. */
  lemma {:induction false} OursExactly(lines: seq<(nat, string)>, theirs: set<string>, x: (nat, string))
    ensures x in Ours(lines, theirs) <==> x in lines && x.1 !in theirs
  {
    if lines != [] {
      var k := |lines| - 1;
      OursExactly(lines[..k], theirs, x);
      assert x in lines <==> x in lines[..k] || x == lines[k];
    }
  }

  // --------------------------------------------------------------------------
  // The printer
  // --------------------------------------------------------------------------

  datatype Hunk = Hunk(oldStart: nat, removed: Lines, oldNoEol: bool, newStart: nat, gained: Lines, newNoEol: bool, heading: string)

  /** One file of a diff; `extended` are the lines between its first line and its old name. */
  datatype FilePatch = FilePatch(path: Path, extended: Lines, oldName: string, hunks: seq<Hunk>)

  const NO_EOL := "\\ No newline at end of file"

  function Range(start: nat, count: nat): string {
    Decimal(start) + if count == 1 then "" else "," + Decimal(count)
  }

  function HunkHeader(h: Hunk): string {
    HUNK + Range(h.oldStart, |h.removed|) + PLUS + Range(h.newStart, |h.gained|) + HUNK_END + h.heading
  }

  function Marked(c: char, lines: Lines, noEol: bool): Lines {
    if lines == [] then [] else if |lines| == 1 then [[c] + lines[0]] + (if noEol then [NO_EOL] else [])
    else [[c] + lines[0]] + Marked(c, lines[1..], noEol)
  }

  function PrintHunk(h: Hunk): Lines {
    [HunkHeader(h)] + (Marked('-', h.removed, h.oldNoEol) + Marked('+', h.gained, h.newNoEol))
  }

  function PrintHunks(hs: seq<Hunk>): Lines {
    if hs == [] then [] else PrintHunk(hs[0]) + PrintHunks(hs[1..])
  }

  /** A name with a space is printed with a tab behind it. */
  function Label(p: Path): Path {
    if ' ' in p then p + "\t" else p
  }

  /** A file without hunks (binary, mode only) has no name lines. */
  function PrintFile(f: FilePatch): Lines {
    [DIFF + "a/" + f.path + " b/" + f.path] + (f.extended + if f.hunks == [] then [] else
      ["--- " + f.oldName, TARGET + Label(f.path)] + PrintHunks(f.hunks))
  }

  function Print(files: seq<FilePatch>): Lines {
    if files == [] then [] else PrintFile(files[0]) + Print(files[1..])
  }

  /** An extended header line: no file start, no name line, no hunk header. */
  predicate IsExtended(line: string) {
    !(DIFF <= line) && !(TARGET <= line) && ParseHunk(line).None?
  }

  const DEL := '\U{7F}'

  /** A path that git prints without quotes: no control character, quote or backslash. */
  predicate Unquoted(p: Path) {
    p != "" && forall c | c in p :: c >= ' ' && c != DEL && c != '"' && c != '\\'
  }

  predicate WellFormed(f: FilePatch) {
    Unquoted(f.path) && forall l | l in f.extended :: IsExtended(l)
  }

  // --------------------------------------------------------------------------
  // Reading inverts printing
  // --------------------------------------------------------------------------

  /** The lines a hunk adds, with their numbers in the index. */
  function Numbered(start: nat, lines: Lines): (r: seq<(nat, string)>)
    ensures |r| == |lines| && forall i | 0 <= i < |r| :: r[i] == (start + i, lines[i])
  {
    seq(|lines|, i requires 0 <= i < |lines| => (start + i, lines[i]))
  }

  function AddedBy(hs: seq<Hunk>): seq<(nat, string)> {
    if hs == [] then [] else Numbered(hs[0].newStart, hs[0].gained) + AddedBy(hs[1..])
  }

  lemma {:induction false} RunConcat(s: State, a: Lines, b: Lines)
    ensures Run(s, a + b) == Run(Run(s, a), b)
    decreases |a|
  {
    hide Step;
    if a == [] {
      assert a + b == b;
    } else {
      RunConcat(Step(s, a[0]), a[1..], b);
      assert (a + b)[1..] == a[1..] + b;
    }
  }

  lemma NumberReadBack(n: nat, tail: string)
    requires tail == "" || !IsDigit(tail[0])
    ensures var s, k := Decimal(n) + tail, |Decimal(n)|;
      DigitRun(s) == k && s[k..] == tail && s[..k] == Decimal(n) && Value(s[..k]) == n
  {
    var s, k := Decimal(n) + tail, |Decimal(n)|;
    DecimalReadBack(n);
    DigitRunIs(Decimal(n), tail);
    assert s[k..] == tail && s[..k] == Decimal(n);
  }

  lemma RangeReadBack(start: nat, count: nat, tail: string)
    requires tail != "" && tail[0] == ' '
    ensures ReadRange(Range(start, count) + tail) == Some((start, tail))
  {
    hide DigitRun, Value, Decimal;
    if count == 1 {
      NumberReadBack(start, tail);
      assert Range(start, count) + tail == Decimal(start) + tail;
    } else {
      var more := Decimal(count) + tail;
      NumberReadBack(count, tail);
      var rest := "," + more;
      NumberReadBack(start, rest);
      assert Range(start, count) + tail == Decimal(start) + rest;
      assert rest[1..] == more && rest[1 + |Decimal(count)|..] == more[|Decimal(count)|..];
      assert rest[0] == ',' && DigitRun(rest[1..]) == |Decimal(count)|;
    }
  }

  lemma HeaderReadBack(h: Hunk)
    ensures ParseHunk(HunkHeader(h)) == Some(h.newStart)
  {
    hide ReadRange, Range;
    var tail := HUNK_END + h.heading;
    var middle := PLUS + (Range(h.newStart, |h.gained|) + tail);
    RangeReadBack(h.newStart, |h.gained|, tail);
    RangeReadBack(h.oldStart, |h.removed|, middle);
    var line := HunkHeader(h);
    assert line == HUNK + (Range(h.oldStart, |h.removed|) + middle);
    assert line[|HUNK|..] == Range(h.oldStart, |h.removed|) + middle;
    assert middle[|PLUS|..] == Range(h.newStart, |h.gained|) + tail;
  }

  lemma NoPrefix(prefix: string, line: string)
    requires prefix != "" && line != "" && line[0] != prefix[0]
    ensures !(prefix <= line)
  {
  }

  /** A line of a hunk body starts no file and no hunk. */
  lemma BodyLine(line: string)
    requires line != "" && (line[0] == '+' || line[0] == '-' || line[0] == '\\')
    ensures ParseHunk(line).None? && !(DIFF <= line)
  {
    NoPrefix(HUNK, line);
    NoPrefix(DIFF, line);
  }

  /** Inside a hunk, the marked lines add the new ones in order and the old ones not at all. */
  lemma {:induction false} MarkedAdds(s: State, c: char, lines: Lines, noEol: bool)
    requires (c == '+' || c == '-') && !s.header && s.rel.Some? && s.rel.value != ""
    ensures Run(s, Marked(c, lines, noEol)) == if c == '-' then s else
      s.(number := s.number + |lines|, added := AppendLines(s.added, s.rel.value, Numbered(s.number, lines)))
    decreases |lines|
  {
    hide Step;
    if |lines| == 1 {
      LastMarked(s, c, lines[0], noEol);
      assert lines == [lines[0]];
    } else if lines != [] {
      var out, next := Marked(c, lines, noEol), Step(s, [c] + lines[0]);
      MarkedLine(s, c, lines[0]);
      MarkedAdds(next, c, lines[1..], noEol);
      assert out[0] == [c] + lines[0] && out[1..] == Marked(c, lines[1..], noEol);
      if c == '+' {
        assert Numbered(s.number, lines) == [(s.number, lines[0])] + Numbered(s.number + 1, lines[1..]);
        AppendTwice(s.added, s.rel.value, [(s.number, lines[0])], Numbered(s.number + 1, lines[1..]));
      }
    }
  }

  /** One marked line inside a hunk. */
  lemma MarkedLine(s: State, c: char, text: string)
    requires (c == '+' || c == '-') && !s.header && s.rel.Some? && s.rel.value != ""
    ensures Step(s, [c] + text) == if c == '-' then s else
      s.(number := s.number + 1, added := AppendLines(s.added, s.rel.value, [(s.number, text)]))
  {
    hide ParseHunk, AppendLines;
    BodyLine([c] + text);
    assert ([c] + text)[1..] == text;
  }

  /** The last line may be followed by the note that it does not end. */
  lemma LastMarked(s: State, c: char, text: string, noEol: bool)
    requires (c == '+' || c == '-') && !s.header && s.rel.Some? && s.rel.value != ""
    ensures Run(s, Marked(c, [text], noEol)) == if c == '-' then s else
      s.(number := s.number + 1, added := AppendLines(s.added, s.rel.value, Numbered(s.number, [text])))
  {
    MarkedLine(s, c, text);
    var next := Step(s, [c] + text);
    BodyLine(NO_EOL);
    assert Step(next, NO_EOL) == next;
    hide Step, AppendLines;
    var out, eol: Lines := Marked(c, [text], noEol), [NO_EOL];
    assert out[0] == [c] + text && out[1..] == if noEol then eol else [];
    assert eol[1..] == [] && Run(next, eol) == Run(Step(next, NO_EOL), []) == next;
    assert Numbered(s.number, [text]) == [(s.number, text)];
  }

  lemma AppendTwice(m: Added, p: Path, a: seq<(nat, string)>, b: seq<(nat, string)>)
    ensures AppendLines(AppendLines(m, p, a), p, b) == AppendLines(m, p, a + b)
  {
    if a == [] {
      assert a + b == b;
    } else if b == [] {
      assert a + b == a;
    } else {
      var was := if p in m then m[p] else [];
      assert was + a + b == was + (a + b);
    }
  }

  lemma HunkAdds(s: State, h: Hunk)
    requires s.rel.Some? && s.rel.value != ""
    ensures var r := Run(s, PrintHunk(h));
      !r.header && r.rel == s.rel && r.added == AppendLines(s.added, s.rel.value, Numbered(h.newStart, h.gained))
  {
    HeaderReadBack(h);
    var line := HunkHeader(h);
    assert line[0] == '@';
    NoPrefix(DIFF, line);
    NoPrefix(TARGET, line);
    var next := Step(s, line);
    assert next == s.(number := h.newStart, header := false);
    var removed, gained := Marked('-', h.removed, h.oldNoEol), Marked('+', h.gained, h.newNoEol);
    assert PrintHunk(h)[1..] == removed + gained;
    RunConcat(next, removed, gained);
    MarkedAdds(next, '-', h.removed, h.oldNoEol);
    MarkedAdds(next, '+', h.gained, h.newNoEol);
  }

  lemma {:induction false} HunksAdd(s: State, hs: seq<Hunk>)
    requires s.rel.Some? && s.rel.value != ""
    ensures Run(s, PrintHunks(hs)).added == AppendLines(s.added, s.rel.value, AddedBy(hs))
    decreases |hs|
  {
    if hs != [] {
      HunkAdds(s, hs[0]);
      var next := Run(s, PrintHunk(hs[0]));
      RunConcat(s, PrintHunk(hs[0]), PrintHunks(hs[1..]));
      HunksAdd(next, hs[1..]);
      AppendTwice(s.added, s.rel.value, Numbered(hs[0].newStart, hs[0].gained), AddedBy(hs[1..]));
    }
  }

  lemma {:induction false} ExtendedKept(s: State, lines: Lines)
    requires s.header && forall l | l in lines :: IsExtended(l)
    ensures Run(s, lines) == s
    decreases |lines|
  {
    if lines != [] {
      assert IsExtended(lines[0]) && Step(s, lines[0]) == s;
      ExtendedKept(s, lines[1..]);
    }
  }

  /** A printed file adds its lines under its label, whatever came before. */
  lemma FileAdds(s: State, f: FilePatch)
    requires WellFormed(f)
    ensures Run(s, PrintFile(f)).added == AppendLines(s.added, Label(f.path), AddedBy(f.hunks))
  {
    var first := DIFF + "a/" + f.path + " b/" + f.path;
    var names := ["--- " + f.oldName, TARGET + Label(f.path)];
    var body := if f.hunks == [] then [] else names + PrintHunks(f.hunks);
    var begun := s.(rel := None, header := true);
    assert DIFF <= first;
    assert PrintFile(f)[1..] == f.extended + body && PrintFile(f)[0] == first;
    RunConcat(begun, f.extended, body);
    ExtendedKept(begun, f.extended);
    if f.hunks != [] {
      NamesRead(begun, f.path, f.oldName);
      RunConcat(begun, names, PrintHunks(f.hunks));
      HunksAdd(begun.(rel := Some(Label(f.path))), f.hunks);
    }
  }

  lemma NamesRead(s: State, path: Path, oldName: string)
    requires s.header && path != ""
    ensures Run(s, ["--- " + oldName, TARGET + Label(path)]) == s.(rel := Some(Label(path)))
  {
    var a, b := "--- " + oldName, TARGET + Label(path);
    BodyLine(a);
    NoPrefix(TARGET, a);
    NoPrefix(DIFF, b);
    assert TARGET <= b && b[|TARGET|..] == Label(path);
    var one: Lines := [b];
    assert Step(s, a) == s && Step(s, b) == s.(rel := Some(Label(path)));
    var out: Lines := [a, b];
    assert out[0] == a && out[1..] == one && one[0] == b && one[1..] == [];
    assert Run(s, out) == Run(s, one) == Run(Step(s, b), []);
  }

  /** What reading should give: every added line of every file, by path, in order. */
  function Expected(files: seq<FilePatch>, name: Path -> Path, m: Added): Added {
    if files == [] then m else Expected(files[1..], name, AppendLines(m, name(files[0].path), AddedBy(files[0].hunks)))
  }

  /** Reading a printed diff gives each added line with its line number, under the printed label of its file. */
  lemma {:induction false} ReadPrinted(s: State, files: seq<FilePatch>)
    requires forall f | f in files :: WellFormed(f)
    ensures Run(s, Print(files)).added == Expected(files, Label, s.added)
    decreases |files|
  {
    if files != [] {
      RunConcat(s, PrintFile(files[0]), Print(files[1..]));
      FileAdds(s, files[0]);
      ReadPrinted(Run(s, PrintFile(files[0])), files[1..]);
    }
  }

  lemma {:induction false} NamedInExpected(files: seq<FilePatch>, name: Path -> Path, m: Added, key: Path)
    ensures key in Expected(files, name, m) <==> key in m || exists f :: f in files && AddedBy(f.hunks) != [] && name(f.path) == key
    decreases |files|
  {
    if files != [] {
      NamedInExpected(files[1..], name, AppendLines(m, name(files[0].path), AddedBy(files[0].hunks)), key);
      assert forall f :: f in files <==> f == files[0] || f in files[1..];
    }
  }

  lemma {:induction false} SameNames(files: seq<FilePatch>, m: Added)
    requires forall f | f in files && AddedBy(f.hunks) != [] :: ' ' !in f.path
    ensures Expected(files, Label, m) == Expected(files, p => p, m)
    decreases |files|
  {
    if files != [] {
      assert AppendLines(m, Label(files[0].path), AddedBy(files[0].hunks)) == AppendLines(m, files[0].path, AddedBy(files[0].hunks));
      SameNames(files[1..], AppendLines(m, files[0].path, AddedBy(files[0].hunks)));
    }
  }

  /** Reading is exact: right paths, numbers and texts, exactly when no file that adds lines has a space in its path. */
  lemma ExactUnlessSpaced(files: seq<FilePatch>)
    requires forall f | f in files :: WellFormed(f)
    ensures Run(START, Print(files)).added == Expected(files, p => p, map[])
      <==> forall f | f in files && AddedBy(f.hunks) != [] :: ' ' !in f.path
  {
    ReadPrinted(START, files);
    if forall f | f in files && AddedBy(f.hunks) != [] :: ' ' !in f.path {
      SameNames(files, map[]);
    } else {
      var f :| f in files && AddedBy(f.hunks) != [] && ' ' in f.path;
      NamedInExpected(files, Label, map[], Label(f.path));
      NamedInExpected(files, p => p, map[], Label(f.path));
      assert forall g | g in files :: g.path != Label(f.path) by {
        assert '\t' in Label(f.path) && '\t' < ' ';
      }
    }
  }

  predicate DistinctPaths(files: seq<FilePatch>) {
    forall i, j | 0 <= i < j < |files| :: files[i].path != files[j].path
  }

  /** With distinct paths, each file's own added lines are what is filed under its path. */
  lemma {:induction false} EachFileItsLines(files: seq<FilePatch>, m: Added, i: nat)
    requires i < |files| && DistinctPaths(files) && AddedBy(files[i].hunks) != [] && files[i].path !in m
    ensures var r := Expected(files, p => p, m); files[i].path in r && r[files[i].path] == AddedBy(files[i].hunks)
    decreases |files|
  {
    var next := AppendLines(m, files[0].path, AddedBy(files[0].hunks));
    if i > 0 {
      EachFileItsLines(files[1..], next, i - 1);
    } else {
      OthersLeaveAlone(files[1..], next, files[0].path);
    }
  }

  lemma {:induction false} OthersLeaveAlone(files: seq<FilePatch>, m: Added, p: Path)
    requires p in m && forall f | f in files :: f.path != p
    ensures var r := Expected(files, q => q, m); p in r && r[p] == m[p]
    decreases |files|
  {
    if files != [] {
      OthersLeaveAlone(files[1..], AppendLines(m, files[0].path, AddedBy(files[0].hunks)), p);
    }
  }

  /** What the reader's caller gets for a file without a space in its path: its added lines that the other side of a merge lacks. */
  lemma FileItsOwnAdditions(files: seq<FilePatch>, theirs: Path -> set<string>, i: nat)
    requires (forall f | f in files :: WellFormed(f)) && DistinctPaths(files)
    requires forall f | f in files && AddedBy(f.hunks) != [] :: ' ' !in f.path
    requires i < |files| && AddedBy(files[i].hunks) != []
    ensures var read, p := Run(START, Print(files)).added, files[i].path;
      p in read && Ours(read[p], theirs(p)) == Ours(AddedBy(files[i].hunks), theirs(p))
  {
    ReadPrinted(START, files);
    SameNames(files, map[]);
    EachFileItsLines(files, map[], i);
  }

  /** The hunks of a diff against the index `file`: line `newStart` of the file is the first added line. */
  ghost predicate Faithful(hs: seq<Hunk>, file: Lines) {
    forall h | h in hs :: InIndex(h, file)
  }

  predicate InIndex(h: Hunk, file: Lines) {
    h.gained != [] ==> 1 <= h.newStart && h.newStart - 1 + |h.gained| <= |file| && file[h.newStart - 1..][..|h.gained|] == h.gained
  }

  /** Every number that is read is the number of that line in the index. */
  lemma {:induction false} NumbersAreIndexLines(hs: seq<Hunk>, file: Lines, x: (nat, string))
    requires Faithful(hs, file) && x in AddedBy(hs)
    ensures 1 <= x.0 <= |file| && file[x.0 - 1] == x.1
    decreases |hs|
  {
    if x in AddedBy(hs[1..]) {
      assert forall h | h in hs[1..] :: h in hs;
      NumbersAreIndexLines(hs[1..], file, x);
    } else {
      var k :| 0 <= k < |hs[0].gained| && x == (hs[0].newStart + k, hs[0].gained[k]);
      assert InIndex(hs[0], file);
      assert file[hs[0].newStart - 1..][..|hs[0].gained|][k] == file[hs[0].newStart - 1 + k];
    }
  }
}
