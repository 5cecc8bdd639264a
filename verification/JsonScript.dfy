/** JSON made safe for an inline script element, and the reader that must get the same value back. */
module JsonScript {
  import opened Characters
  import opened Findings

  /** A UTF-16 code unit: what one `\uXXXX` escape denotes (section 7 of RFC 8259). */
  type Unit = u: nat | u < 0x1_0000

  datatype Json =
    | Null
    | Bool(value: bool)
    | Number(lexeme: string)
    | Text(units: seq<Unit>)
    | Array(items: seq<Json>)
    | Object(members: seq<Member>)

  datatype Member = Member(key: seq<Unit>, value: Json)

  // --------------------------------------------------------------------------
  // Reading: tokens (sections 2, 3, 6 and 7 of RFC 8259)
  // --------------------------------------------------------------------------

  datatype Token = Mark(c: char) | Word(value: Json) | Digits(lexeme: string) | Quoted(units: seq<Unit>)

  predicate IsMark(c: char) {
    c == '[' || c == ']' || c == '{' || c == '}' || c == ':' || c == ','
  }

  predicate IsSpace(c: char) {
    c == ' ' || c == '\t' || c == '\n' || c == '\r'
  }

  predicate IsNumberChar(c: char) {
    IsDigit(c) || c == '+' || c == '-' || c == '.' || c == 'e' || c == 'E'
  }

  function Run(s: string, kind: char -> bool): (n: nat)
    ensures n <= |s| && (forall i | 0 <= i < n :: kind(s[i])) && (n < |s| ==> !kind(s[n]))
  {
    if s == "" || !kind(s[0]) then 0 else 1 + Run(s[1..], kind)
  }

  /** The part of a number after its integer digits: an optional fraction, then an optional exponent. */
  predicate IsNumberTail(s: string) {
    if s != "" && s[0] == '.' then
      var n := Run(s[1..], IsDigit);
      n > 0 && IsExponent(s[1 + n..])
    else IsExponent(s)
  }

  predicate IsExponent(s: string) {
    s == "" || ((s[0] == 'e' || s[0] == 'E') && (
      var t := if |s| > 1 && (s[1] == '+' || s[1] == '-') then s[2..] else s[1..];
      t != "" && Run(t, IsDigit) == |t|))
  }

  /** The number grammar of section 6. */
  predicate IsNumber(s: string) {
    var t := if s != "" && s[0] == '-' then s[1..] else s;
    var n := Run(t, IsDigit);
    n > 0 && (n > 1 ==> t[0] != '0') && IsNumberTail(t[n..])
  }

  function HexValue(c: char): Option<nat> {
    if '0' <= c <= '9' then Some((c - '0') as nat)
    else if 'a' <= c <= 'f' then Some((c - 'a') as nat + 10)
    else if 'A' <= c <= 'F' then Some((c - 'A') as nat + 10)
    else None
  }

  function Hex4(s: string): (r: Option<Unit>)
    ensures r.Some? ==> |s| >= 4 && forall i | 0 <= i < 4 :: HexValue(s[i]).Some?
  {
    if |s| >= 4 && HexValue(s[0]).Some? && HexValue(s[1]).Some? && HexValue(s[2]).Some? && HexValue(s[3]).Some? then
      var n := HexValue(s[0]).value * 4096 + HexValue(s[1]).value * 256 + HexValue(s[2]).value * 16 + HexValue(s[3]).value;
      if n < 0x1_0000 then Some(n) else None
    else None
  }

  /** The single-character escapes. */
  function Short(c: char): Option<Unit> {
    match c
    case '"' => Some(34)
    case '\\' => Some(92)
    case '/' => Some(47)
    case 'b' => Some(8)
    case 'f' => Some(12)
    case 'n' => Some(10)
    case 'r' => Some(13)
    case 't' => Some(9)
    case _ => None
  }

  /** The escape at the start of `s`, and how many characters it takes. */
  function Escape(s: string): (r: Option<(Unit, nat)>)
    ensures r.Some? ==> 2 <= r.value.1 <= |s| && forall i | 1 <= i < r.value.1 :: s[i] != '<'
  {
    if |s| < 2 || s[0] != '\\' then None
    else if s[1] == 'u' then (match Hex4(s[2..]) case Some(u) => Some((u, 6)) case None => None)
    else (match Short(s[1]) case Some(u) => Some((u, 2)) case None => None)
  }

  /** The code units of an unescaped character. */
  function Units(c: char): seq<Unit> {
    var n := c as int;
    if n < 0x1_0000 then [n] else [0xD800 + (n - 0x1_0000) / 0x400, 0xDC00 + n % 0x400]
  }

  function Prepend(units: seq<Unit>, r: Option<(seq<Unit>, string)>): Option<(seq<Unit>, string)> {
    match r
    case Some(p) => Some((units + p.0, p.1))
    case None => None
  }

  /** The rest of a string token after its opening quote: its units, and the text after its closing quote. */
  function LexString(s: string): (r: Option<(seq<Unit>, string)>)
    ensures r.Some? ==> |r.value.1| < |s|
  {
    if s == "" || s[0] < ' ' then None
    else if s[0] == '"' then Some(([], s[1..]))
    else if s[0] == '\\' then
      (match Escape(s)
       case Some(e) => Prepend([e.0], LexString(s[e.1..]))
       case None => None)
    else Prepend(Units(s[0]), LexString(s[1..]))
  }

  function Literal(s: string): (r: Option<(Json, nat)>)
    ensures r.Some? ==> 4 <= r.value.1 <= |s| && forall i | 0 <= i < r.value.1 :: s[i] != '<'
  {
    if "true" <= s then Some((Bool(true), 4))
    else if "false" <= s then Some((Bool(false), 5))
    else if "null" <= s then Some((Null, 4))
    else None
  }

  function Cons(token: Token, r: Option<seq<Token>>): Option<seq<Token>> {
    match r
    case Some(ts) => Some([token] + ts)
    case None => None
  }

  function Lex(s: string): Option<seq<Token>>
    decreases |s|
  {
    if s == "" then Some([])
    else if IsSpace(s[0]) then Lex(s[1..])
    else if IsMark(s[0]) then Cons(Mark(s[0]), Lex(s[1..]))
    else if s[0] == '"' then
      (match LexString(s[1..])
       case Some(p) => Cons(Quoted(p.0), Lex(p.1))
       case None => None)
    else if IsNumberChar(s[0]) then
      var n := Run(s, IsNumberChar);
      if IsNumber(s[..n]) then Cons(Digits(s[..n]), Lex(s[n..])) else None
    else
      (match Literal(s)
       case Some(p) => Cons(Word(p.0), Lex(s[p.1..]))
       case None => None)
  }

  // --------------------------------------------------------------------------
  // Reading: values (sections 3, 4 and 5)
  // --------------------------------------------------------------------------

  function ParseValue(ts: seq<Token>): (r: Option<(Json, seq<Token>)>)
    ensures r.Some? ==> |r.value.1| < |ts|
    decreases |ts|, 1
  {
    if ts == [] then None
    else match ts[0]
      case Word(v) => Some((v, ts[1..]))
      case Digits(lexeme) => Some((Number(lexeme), ts[1..]))
      case Quoted(units) => Some((Text(units), ts[1..]))
      case Mark(c) =>
        if c == '[' then
          if |ts| > 1 && ts[1] == Mark(']') then Some((Array([]), ts[2..]))
          else (match ParseItems(ts[1..]) case Some(p) => Some((Array(p.0), p.1)) case None => None)
        else if c == '{' then
          if |ts| > 1 && ts[1] == Mark('}') then Some((Object([]), ts[2..]))
          else (match ParseMembers(ts[1..]) case Some(p) => Some((Object(p.0), p.1)) case None => None)
        else None
  }

  function ParseItems(ts: seq<Token>): (r: Option<(seq<Json>, seq<Token>)>)
    ensures r.Some? ==> |r.value.1| < |ts|
    decreases |ts|, 2
  {
    match ParseValue(ts)
    case None => None
    case Some(p) =>
      if p.1 == [] then None
      else if p.1[0] == Mark(']') then Some(([p.0], p.1[1..]))
      else if p.1[0] != Mark(',') then None
      else (match ParseItems(p.1[1..]) case Some(q) => Some(([p.0] + q.0, q.1)) case None => None)
  }

  function ParseMembers(ts: seq<Token>): (r: Option<(seq<Member>, seq<Token>)>)
    ensures r.Some? ==> |r.value.1| < |ts|
    decreases |ts|, 2
  {
    if |ts| < 2 || !ts[0].Quoted? || ts[1] != Mark(':') then None
    else match ParseValue(ts[2..])
      case None => None
      case Some(p) =>
        var m := Member(ts[0].units, p.0);
        if p.1 == [] then None
        else if p.1[0] == Mark('}') then Some(([m], p.1[1..]))
        else if p.1[0] != Mark(',') then None
        else (match ParseMembers(p.1[1..]) case Some(q) => Some(([m] + q.0, q.1)) case None => None)
  }

  /** The value a JSON text denotes. */
  function Decode(s: string): Option<Json> {
    match Lex(s)
    case None => None
    case Some(ts) =>
      match ParseValue(ts)
      case Some(p) => if p.1 == [] then Some(p.0) else None
      case None => None
  }

  // --------------------------------------------------------------------------
  // Replacing
  // --------------------------------------------------------------------------

  /** Every non-overlapping occurrence of `was`, from the left, becomes `now`. */
  function Replace(s: string, was: string, now: string): string
    requires was != ""
  {
    if s == "" then ""
    else if was <= s then now + Replace(s[|was|..], was, now)
    else [s[0]] + Replace(s[1..], was, now)
  }

  const END_TAG := "</"
  const SAFE_END_TAG := "<\\/"
  const COMMENT := "<!--"
  const SAFE_COMMENT := "<\\u0021--"

  function ScriptSafe(s: string): string {
    Replace(Replace(s, END_TAG, SAFE_END_TAG), COMMENT, SAFE_COMMENT)
  }

  /** One of the two replacements. */
  predicate Rule(was: string, now: string) {
    (was == END_TAG && now == SAFE_END_TAG) || (was == COMMENT && now == SAFE_COMMENT)
  }

  lemma CopiesOne(s: string, was: string, now: string)
    requires Rule(was, now) && s != "" && s[0] != '<'
    ensures Replace(s, was, now) == [s[0]] + Replace(s[1..], was, now)
  {
    assert was[0] == '<';
  }

  lemma {:induction false} CopiesPrefix(s: string, was: string, now: string, n: nat)
    requires Rule(was, now) && n <= |s| && forall i | 0 <= i < n :: s[i] != '<'
    ensures Replace(s, was, now) == s[..n] + Replace(s[n..], was, now)
  {
    hide Replace, Rule;
    if n > 0 {
      CopiesOne(s, was, now);
      CopiesPrefix(s[1..], was, now, n - 1);
      assert s[1..][..n - 1] == s[1..n] && s[1..][n - 1..] == s[n..];
      assert s[..n] == [s[0]] + s[1..n];
    } else {
      assert s[n..] == s;
    }
  }

  lemma SameFirst(s: string, was: string, now: string)
    requires Rule(was, now)
    ensures s == "" <==> Replace(s, was, now) == ""
    ensures s != "" ==> Replace(s, was, now)[0] == s[0]
  {
    if was <= s {
      assert was[0] == s[0];
    }
  }

  lemma PlainUnit(c: char, s: string)
    requires c >= ' ' && c != '"' && c != '\\'
    ensures LexString([c] + s) == Prepend(Units(c), LexString(s))
  {
    assert ([c] + s)[1..] == s;
  }

  /** Inside a string `<\/` and `</` denote the same two units, whatever follows. */
  lemma EndTagUnits(s: string)
    ensures LexString(SAFE_END_TAG + s) == LexString(END_TAG + s) == Prepend([60], Prepend([47], LexString(s)))
  {
    hide LexString;
    EndTagText(s);
    SafeSlash(s);
    PlainUnit('<', "\\/" + s);
    PlainUnit('/', s);
    PlainUnit('<', ['/'] + s);
  }

  lemma EndTagText(s: string)
    ensures SAFE_END_TAG + s == ['<'] + ("\\/" + s) && END_TAG + s == ['<'] + (['/'] + s)
  {
  }

  lemma SafeSlash(s: string)
    ensures LexString("\\/" + s) == Prepend([47], LexString(s))
  {
    assert Escape("\\/" + s) == Some((47, 2)) && ("\\/" + s)[2..] == s;
  }

  lemma SafeBang(s: string)
    ensures LexString("\\u0021" + s) == Prepend([33], LexString(s))
  {
    assert ("\\u0021" + s)[2..] == "0021" + s;
    assert Hex4("0021" + s) == Some(33);
    assert Escape("\\u0021" + s) == Some((33, 6)) && ("\\u0021" + s)[6..] == s;
  }

  lemma CommentText(s: string, tail: string)
    requires tail == ['-'] + (['-'] + s)
    ensures SAFE_COMMENT + s == ['<'] + ("\\u0021" + tail) && COMMENT + s == ['<'] + (['!'] + tail)
  {
  }

  /** Inside a string `<\u0021--` and `<!--` denote the same four units, whatever follows. */
  lemma CommentUnits(s: string, tail: string)
    requires tail == ['-'] + (['-'] + s)
    ensures LexString(SAFE_COMMENT + s) == Prepend([60], Prepend([33], LexString(tail)))
    ensures LexString(COMMENT + s) == Prepend([60], Prepend([33], LexString(tail)))
  {
    hide LexString;
    CommentText(s, tail);
    SafeBang(tail);
    PlainUnit('<', "\\u0021" + tail);
    PlainUnit('!', tail);
    PlainUnit('<', ['!'] + tail);
  }

  function InString(was: string, r: Option<(seq<Unit>, string)>): Option<(seq<Unit>, string)> {
    if was == END_TAG then Prepend([60], Prepend([47], r))
    else Prepend([60], Prepend([33], Prepend([45], Prepend([45], r))))
  }

  /** Inside a string both spellings of a rule denote the same units, whatever follows. */
  lemma SameUnits(was: string, now: string, s: string)
    requires Rule(was, now)
    ensures LexString(now + s) == LexString(was + s) == InString(was, LexString(s))
  {
    if was == END_TAG {
      EndTagUnits(s);
    } else {
      CommentUnits(s, ['-'] + (['-'] + s));
      PlainUnit('-', ['-'] + s);
      PlainUnit('-', s);
    }
  }

  lemma {:induction false} ReplaceKeepsString(s: string, was: string, now: string)
    requires Rule(was, now) && LexString(s).Some?
    ensures LexString(Replace(s, was, now)) == Some((LexString(s).value.0, Replace(LexString(s).value.1, was, now)))
    decreases |s|
  {
    var out := Replace(s, was, now);
    if was <= s {
      var rest := s[|was|..];
      assert s == was + rest;
      SameUnits(was, now, rest);
      ReplaceKeepsString(rest, was, now);
      SameUnits(was, now, Replace(rest, was, now));
    } else if s[0] == '"' {
      assert out[1..] == Replace(s[1..], was, now);
    } else if s[0] == '\\' {
      var n := Escape(s).value.1;
      CopiesPrefix(s, was, now, n);
      assert out[..n] == s[..n];
      SameEscape(s, out, n);
      assert out[n..] == Replace(s[n..], was, now);
      ReplaceKeepsString(s[n..], was, now);
    } else {
      assert out[1..] == Replace(s[1..], was, now);
      ReplaceKeepsString(s[1..], was, now);
    }
  }

  lemma SameEscape(s: string, t: string, n: nat)
    requires Escape(s).Some? && Escape(s).value.1 == n && n <= |t| && t[..n] == s[..n]
    ensures Escape(t) == Escape(s)
  {
    assert forall i | 0 <= i < n :: t[i] == t[..n][i] && s[i] == s[..n][i];
    if s[1] == 'u' {
      assert forall i | 0 <= i < 4 :: t[2..][i] == s[2..][i];
    }
  }

  lemma SameLiteral(s: string, t: string)
    requires Literal(s).Some? && Literal(s).value.1 <= |t| && t[..Literal(s).value.1] == s[..Literal(s).value.1]
    ensures Literal(t) == Literal(s)
  {
    var n := Literal(s).value.1;
    assert forall i | 0 <= i < n :: t[i] == t[..n][i] && s[i] == s[..n][i];
    assert t[0] == s[0];
  }

  /** A replacement changes no token of a JSON text. */
  lemma {:induction false} ReplaceKeepsTokens(s: string, was: string, now: string)
    requires Rule(was, now) && Lex(s).Some?
    ensures Lex(Replace(s, was, now)) == Lex(s)
    decreases |s|
  {
    var out := Replace(s, was, now);
    if s == "" {
    } else {
      assert s[0] != '<';
      CopiesPrefix(s, was, now, 1);
      assert out[1..] == Replace(s[1..], was, now);
      if IsSpace(s[0]) || IsMark(s[0]) {
        ReplaceKeepsTokens(s[1..], was, now);
      } else if s[0] == '"' {
        ReplaceKeepsString(s[1..], was, now);
        ReplaceKeepsTokens(LexString(s[1..]).value.1, was, now);
      } else if IsNumberChar(s[0]) {
        var n := Run(s, IsNumberChar);
        ReplaceKeepsNumber(s, was, now, n);
        ReplaceKeepsTokens(s[n..], was, now);
      } else {
        var n := Literal(s).value.1;
        ReplaceKeepsLiteral(s, was, now, n);
        ReplaceKeepsTokens(s[n..], was, now);
      }
    }
  }

  lemma ReplaceKeepsNumber(s: string, was: string, now: string, n: nat)
    requires Rule(was, now) && n == Run(s, IsNumberChar)
    ensures var out := Replace(s, was, now);
      Run(out, IsNumberChar) == n && out[..n] == s[..n] && out[n..] == Replace(s[n..], was, now)
  {
    var out := Replace(s, was, now);
    CopiesPrefix(s, was, now, n);
    SameFirst(s[n..], was, now);
    assert out[..n] == s[..n] && out[n..] == Replace(s[n..], was, now);
    assert forall i | 0 <= i < n :: out[i] == out[..n][i] == s[i];
    assert n < |out| ==> out[n] == out[n..][0] == s[n];
    RunIs(out, IsNumberChar, n);
  }

  lemma ReplaceKeepsLiteral(s: string, was: string, now: string, n: nat)
    requires Rule(was, now) && Literal(s).Some? && n == Literal(s).value.1
    ensures Literal(Replace(s, was, now)) == Literal(s)
    ensures n <= |Replace(s, was, now)| && Replace(s, was, now)[n..] == Replace(s[n..], was, now)
  {
    CopiesPrefix(s, was, now, n);
    assert Replace(s, was, now)[..n] == s[..n];
    SameLiteral(s, Replace(s, was, now));
  }

  lemma {:induction false} RunIs(s: string, kind: char -> bool, n: nat)
    requires n <= |s| && (forall i | 0 <= i < n :: kind(s[i])) && (n < |s| ==> !kind(s[n]))
    ensures Run(s, kind) == n
  {
  }

  /** Any JSON text denotes the same value after both replacements. */
  lemma ScriptSafeKeepsMeaning(s: string)
    requires Decode(s).Some?
    ensures Decode(ScriptSafe(s)) == Decode(s)
  {
    ReplaceKeepsTokens(s, END_TAG, SAFE_END_TAG);
    ReplaceKeepsTokens(Replace(s, END_TAG, SAFE_END_TAG), COMMENT, SAFE_COMMENT);
  }

  // --------------------------------------------------------------------------
  // Nothing left that ends the element or opens a comment
  // --------------------------------------------------------------------------

  ghost predicate Contains(s: string, word: string) {
    exists i :: Occurs(s, word, i)
  }

  predicate Occurs(s: string, word: string, i: int) {
    0 <= i <= |s| && word <= s[i..]
  }

  lemma OccursShift(a: string, b: string, word: string, i: int)
    requires i >= |a|
    ensures Occurs(a + b, word, i) <==> Occurs(b, word, i - |a|)
  {
    if i <= |a + b| {
      assert (a + b)[i..] == b[i - |a|..];
    }
  }

  lemma OccursAt(s: string, word: string, i: int)
    requires Occurs(s, word, i)
    ensures i + |word| <= |s| && forall j | 0 <= j < |word| :: s[i + j] == word[j]
  {
    assert forall j | 0 <= j < |word| :: s[i + j] == s[i..][j];
  }

  lemma {:induction false} PlainPrefixFromInput(s: string, was: string, now: string, k: nat)
    requires Rule(was, now) && k <= |Replace(s, was, now)| && forall i | 0 <= i < k :: Replace(s, was, now)[i] != '<'
    ensures k <= |s| && Replace(s, was, now)[..k] == s[..k]
  {
    if k > 0 {
      SameFirst(s, was, now);
      var out := Replace(s, was, now);
      assert out[1..] == Replace(s[1..], was, now);
      PlainPrefixFromInput(s[1..], was, now, k - 1);
      assert out[..k] == [s[0]] + out[1..][..k - 1];
      assert s[..k] == [s[0]] + s[1..][..k - 1];
    }
  }

  /** An occurrence that starts one character before replaced text was already there before. */
  lemma OccursBefore(c: char, s: string, was: string, now: string)
    requires Rule(was, now) && was <= [c] + Replace(s, was, now)
    ensures was <= [c] + s
  {
    var out, k := Replace(s, was, now), |was| - 1;
    assert forall j | 0 <= j < k :: out[j] == ([c] + out)[1 + j] == was[1 + j];
    PlainPrefixFromInput(s, was, now, k);
    assert forall j | 0 <= j < k :: s[j] == s[..k][j] == out[j];
  }

  /** After a replacement no occurrence of what it replaces is left. */
  lemma {:induction false} NoneLeft(s: string, was: string, now: string, i: int)
    requires Rule(was, now)
    ensures !Occurs(Replace(s, was, now), was, i)
    decreases |s|
  {
    var out := Replace(s, was, now);
    if was <= s {
      var rest := s[|was|..];
      if i >= |now| {
        OccursShift(now, Replace(rest, was, now), was, i);
        NoneLeft(rest, was, now, i - |now|);
      } else if 0 <= i {
        assert out[i] == now[i] && out[1] == now[1];
        if Occurs(out, was, i) {
          OccursAt(out, was, i);
        }
      }
    } else if s != "" && i > 0 {
      OccursShift([s[0]], Replace(s[1..], was, now), was, i);
      NoneLeft(s[1..], was, now, i - 1);
    } else if s != "" && i == 0 && was <= out {
      OccursBefore(s[0], s[1..], was, now);
    }
  }

  /** Escaping comments opens no new end tag: one in the output was in the input. */
  lemma {:induction false} NoNewEndTag(s: string, i: int)
    requires Occurs(Replace(s, COMMENT, SAFE_COMMENT), END_TAG, i)
    ensures Contains(s, END_TAG)
    decreases |s|
  {
    var out := Replace(s, COMMENT, SAFE_COMMENT);
    OccursAt(out, END_TAG, i);
    assert END_TAG[0] == '<' && END_TAG[1] == '/';
    if COMMENT <= s {
      var rest := s[|COMMENT|..];
      if i < |SAFE_COMMENT| {
        assert false;
      }
      OccursShift(SAFE_COMMENT, Replace(rest, COMMENT, SAFE_COMMENT), END_TAG, i);
      NoNewEndTag(rest, i - |SAFE_COMMENT|);
      TailContains(s, END_TAG, |COMMENT|);
    } else if i > 0 {
      OccursShift([s[0]], Replace(s[1..], COMMENT, SAFE_COMMENT), END_TAG, i);
      NoNewEndTag(s[1..], i - 1);
      TailContains(s, END_TAG, 1);
    } else {
      SameFirst(s[1..], COMMENT, SAFE_COMMENT);
      assert s[0] == out[0] && s[1] == out[1];
      assert Occurs(s, END_TAG, 0);
    }
  }

  lemma TailContains(s: string, word: string, n: nat)
    requires n <= |s| && Contains(s[n..], word)
    ensures Contains(s, word)
  {
    var i :| Occurs(s[n..], word, i);
    assert s[n..][i..] == s[n + i..];
    assert Occurs(s, word, n + i);
  }

  /** No end tag and no comment opener in the output, whatever the input. */
  lemma ScriptSafeOutput(s: string)
    ensures !Contains(ScriptSafe(s), END_TAG) && !Contains(ScriptSafe(s), COMMENT)
  {
    var first := Replace(s, END_TAG, SAFE_END_TAG);
    forall i ensures !Occurs(first, END_TAG, i) { NoneLeft(s, END_TAG, SAFE_END_TAG, i); }
    if i :| Occurs(ScriptSafe(s), END_TAG, i) {
      NoNewEndTag(first, i);
    }
    forall i ensures !Occurs(ScriptSafe(s), COMMENT, i) { NoneLeft(first, COMMENT, SAFE_COMMENT, i); }
  }

  // --------------------------------------------------------------------------
  // Printing
  // --------------------------------------------------------------------------

  const HEX := "0123456789abcdef"

  function EscapeUnit(u: Unit): string {
    if u == 34 then "\\\"" else if u == 92 then "\\\\"
    else if u == 10 then "\\n" else if u == 13 then "\\r" else if u == 9 then "\\t"
    else if u == 12 then "\\f" else if u == 8 then "\\b"
    else if 32 <= u <= 126 then [u as char]
    else "\\u" + [HEX[u / 4096], HEX[u / 256 % 16], HEX[u / 16 % 16], HEX[u % 16]]
  }

  function EscapeUnits(units: seq<Unit>): string {
    if units == [] then "" else EscapeUnit(units[0]) + EscapeUnits(units[1..])
  }

  function Quote(units: seq<Unit>): string {
    "\"" + EscapeUnits(units) + "\""
  }

  /** Compact tokens with `, ` and `: ` between them. */
  function Dumps(v: Json): string {
    match v
    case Null => "null"
    case Bool(b) => if b then "true" else "false"
    case Number(lexeme) => lexeme
    case Text(units) => Quote(units)
    case Array(items) => "[" + DumpsItems(items) + "]"
    case Object(members) => "{" + DumpsMembers(members) + "}"
  }

  function DumpsItems(items: seq<Json>): string {
    if items == [] then ""
    else if |items| == 1 then Dumps(items[0])
    else Dumps(items[0]) + ", " + DumpsItems(items[1..])
  }

  function DumpsMember(m: Member): string {
    Quote(m.key) + ": " + Dumps(m.value)
  }

  function DumpsMembers(members: seq<Member>): string {
    if members == [] then ""
    else if |members| == 1 then DumpsMember(members[0])
    else DumpsMember(members[0]) + ", " + DumpsMembers(members[1..])
  }

  /** Every number of `v` is spelled by the grammar of section 6. */
  predicate Printable(v: Json) {
    match v
    case Number(lexeme) => IsNumber(lexeme)
    case Array(items) => forall x | x in items :: Printable(x)
    case Object(members) => forall m | m in members :: Printable(m.value)
    case _ => true
  }

  /** The tokens of `v`, followed by `rest`. */
  function Tokens(v: Json, rest: seq<Token>): seq<Token>
    decreases v
  {
    match v
    case Null => [Word(v)] + rest
    case Bool(_) => [Word(v)] + rest
    case Number(lexeme) => [Digits(lexeme)] + rest
    case Text(units) => [Quoted(units)] + rest
    case Array(items) => [Mark('[')] + ItemTokens(items, rest)
    case Object(members) => [Mark('{')] + MemberTokens(members, rest)
  }

  function ItemTokens(items: seq<Json>, rest: seq<Token>): seq<Token>
    decreases items
  {
    if items == [] then [Mark(']')] + rest
    else Tokens(items[0], if |items| == 1 then [Mark(']')] + rest else [Mark(',')] + ItemTokens(items[1..], rest))
  }

  function MemberTokens(members: seq<Member>, rest: seq<Token>): seq<Token>
    decreases members
  {
    if members == [] then [Mark('}')] + rest
    else MemberToken(members[0], if |members| == 1 then [Mark('}')] + rest else [Mark(',')] + MemberTokens(members[1..], rest))
  }

  function MemberToken(m: Member, rest: seq<Token>): seq<Token>
    decreases m, 1
  {
    [Quoted(m.key)] + ([Mark(':')] + Tokens(m.value, rest))
  }

  // --------------------------------------------------------------------------
  // What is printed is read back
  // --------------------------------------------------------------------------

  lemma HexDigit(n: nat)
    requires n < 16
    ensures HexValue(HEX[n]) == Some(n)
  {
    var digits := [0, 1, 2, 3, 4, 5, 6, 7, 8, 9, 10, 11, 12, 13, 14, 15];
    assert digits[n] == n;
  }

  lemma HexUnit(u: Unit, s: string)
    ensures Hex4([HEX[u / 4096], HEX[u / 256 % 16], HEX[u / 16 % 16], HEX[u % 16]] + s) == Some(u)
  {
    HexDigit(u / 4096);
    HexDigit(u / 256 % 16);
    HexDigit(u / 16 % 16);
    HexDigit(u % 16);
    assert u / 4096 == u / 256 / 16 && u / 256 == u / 16 / 16;
  }

  lemma ShortUnit(u: Unit, s: string)
    requires u == 34 || u == 92 || u == 10 || u == 13 || u == 9 || u == 12 || u == 8
    ensures LexString(EscapeUnit(u) + s) == Prepend([u], LexString(s))
  {
    var text := EscapeUnit(u) + s;
    assert text[0] == '\\' && text[2..] == s;
    assert Escape(text) == Some((u, 2));
  }

  lemma UnitReadBack(u: Unit, s: string)
    ensures LexString(EscapeUnit(u) + s) == Prepend([u], LexString(s))
  {
    var text := EscapeUnit(u) + s;
    if u == 34 || u == 92 || u == 10 || u == 13 || u == 9 || u == 12 || u == 8 {
      ShortUnit(u, s);
    } else if 32 <= u <= 126 {
      PlainUnit(u as char, s);
    } else {
      HexUnit(u, s);
      assert text[2..] == [HEX[u / 4096], HEX[u / 256 % 16], HEX[u / 16 % 16], HEX[u % 16]] + s;
      assert Escape(text) == Some((u, 6)) && text[6..] == s;
    }
  }

  lemma {:induction false} UnitsReadBack(units: seq<Unit>, s: string)
    ensures LexString(EscapeUnits(units) + ("\"" + s)) == Some((units, s))
  {
    var tail := "\"" + s;
    if units == [] {
      assert EscapeUnits(units) + tail == tail && tail[1..] == s;
    } else {
      var more := EscapeUnits(units[1..]) + tail;
      assert EscapeUnits(units) + tail == EscapeUnit(units[0]) + more;
      UnitReadBack(units[0], more);
      UnitsReadBack(units[1..], s);
      assert [units[0]] + units[1..] == units;
    }
  }

  lemma LexQuote(text: string, units: seq<Unit>, s: string)
    requires text != "" && text[0] == '"' && LexString(text[1..]) == Some((units, s))
    ensures Lex(text) == Cons(Quoted(units), Lex(s))
  {
    hide LexString;
  }

  lemma QuoteText(units: seq<Unit>, s: string)
    ensures var text := Quote(units) + s; text != "" && text[0] == '"' && text[1..] == EscapeUnits(units) + ("\"" + s)
  {
    hide EscapeUnits;
  }

  lemma QuoteReadBack(units: seq<Unit>, s: string)
    ensures Lex(Quote(units) + s) == Cons(Quoted(units), Lex(s))
  {
    hide EscapeUnits, Quote, Lex, LexString;
    UnitsReadBack(units, s);
    QuoteText(units, s);
    LexQuote(Quote(units) + s, units, s);
  }

  lemma {:induction false} DigitsAreNumberChars(s: string, n: nat)
    requires n == Run(s, IsDigit)
    ensures forall i | 0 <= i < n :: IsNumberChar(s[i])
  {
  }

  lemma NumberSpelling(s: string)
    requires IsNumber(s)
    ensures s != "" && forall i | 0 <= i < |s| :: IsNumberChar(s[i])
  {
    hide IsNumberTail, Run;
    var k := if s != "" && s[0] == '-' then 1 else 0;
    var t := s[k..];
    var n := Run(t, IsDigit);
    DigitsAreNumberChars(t, n);
    NumberTailSpelling(t[n..]);
    assert s[..k] == if k == 1 then "-" else "";
    Spelled(t[..n], t[n..]);
    assert t[..n] + t[n..] == t;
    Spelled(s[..k], t);
    assert s[..k] + t == s;
  }

  lemma Spelled(a: string, b: string)
    requires (forall i | 0 <= i < |a| :: IsNumberChar(a[i])) && forall i | 0 <= i < |b| :: IsNumberChar(b[i])
    ensures forall i | 0 <= i < |a + b| :: IsNumberChar((a + b)[i])
  {
    hide IsNumberChar;
  }

  lemma NumberTailSpelling(s: string)
    requires IsNumberTail(s)
    ensures forall i | 0 <= i < |s| :: IsNumberChar(s[i])
  {
    hide IsExponent, Run;
    if s != "" && s[0] == '.' {
      var m := Run(s[1..], IsDigit);
      DigitsAreNumberChars(s[1..], m);
      ExponentSpelling(s[1 + m..]);
      assert forall i | 0 < i < 1 + m :: s[i] == s[1..][i - 1];
      assert forall i | 1 + m <= i < |s| :: s[i] == s[1 + m..][i - 1 - m];
    } else {
      ExponentSpelling(s);
    }
  }

  lemma ExponentSpelling(s: string)
    requires IsExponent(s)
    ensures forall i | 0 <= i < |s| :: IsNumberChar(s[i])
  {
    if s != "" {
      var k := if |s| > 1 && (s[1] == '+' || s[1] == '-') then 2 else 1;
      DigitsAreNumberChars(s[k..], |s| - k);
      assert forall i | k <= i < |s| :: s[i] == s[k..][i - k];
    }
  }

  lemma NumberReadBack(lexeme: string, s: string)
    requires IsNumber(lexeme) && (s == "" || !IsNumberChar(s[0]))
    ensures Lex(lexeme + s) == Cons(Digits(lexeme), Lex(s))
  {
    hide LexString, IsNumber, Literal, Run;
    NumberSpelling(lexeme);
    RunIs(lexeme + s, IsNumberChar, |lexeme|);
    assert (lexeme + s)[..|lexeme|] == lexeme && (lexeme + s)[|lexeme|..] == s;
    assert IsNumberChar((lexeme + s)[0]);
  }

  lemma WordReadBack(v: Json, s: string)
    requires v.Null? || v.Bool?
    ensures Lex(Dumps(v) + s) == Cons(Word(v), Lex(s))
  {
    hide LexString, Run, IsNumber;
    assert (Dumps(v) + s)[|Dumps(v)|..] == s;
    assert (Dumps(v) + s)[0] == Dumps(v)[0];
  }

  lemma MarkReadBack(c: char, s: string)
    requires IsMark(c)
    ensures Lex([c] + s) == Cons(Mark(c), Lex(s))
  {
    assert ([c] + s)[1..] == s;
  }

  lemma SpacedReadBack(c: char, s: string)
    requires IsMark(c)
    ensures Lex([c, ' '] + s) == Cons(Mark(c), Lex(s))
  {
    assert [c, ' '] + s == [c] + ([' '] + s);
    MarkReadBack(c, [' '] + s);
    assert ([' '] + s)[1..] == s;
  }

  lemma {:induction false} ValueLexes(v: Json, s: string)
    requires Printable(v) && Lex(s).Some? && (s == "" || !IsNumberChar(s[0]))
    ensures Lex(Dumps(v) + s) == Some(Tokens(v, Lex(s).value))
    decreases v
  {
    hide Lex;
    match v
    case Null => WordReadBack(v, s);
    case Bool(_) => WordReadBack(v, s);
    case Number(lexeme) => NumberReadBack(lexeme, s);
    case Text(units) => QuoteReadBack(units, s);
    case Array(items) =>
      ItemsLex(items, s);
      Bracketed('[', DumpsItems(items), ']', s);
    case Object(members) =>
      MembersLex(members, s);
      Bracketed('{', DumpsMembers(members), '}', s);
  }

  lemma Bracketed(open: char, body: string, close: char, s: string)
    requires IsMark(open)
    ensures Lex([open] + body + [close] + s) == Cons(Mark(open), Lex(body + ([close] + s)))
  {
    hide Lex;
    MarkReadBack(open, body + ([close] + s));
    assert [open] + body + [close] + s == [open] + (body + ([close] + s));
  }

  lemma Spaced(first: string, more: string, tail: string)
    ensures first + ", " + more + tail == first + ([',', ' '] + (more + tail))
  {
  }

  lemma {:induction false} ItemsLex(items: seq<Json>, s: string)
    requires (forall x | x in items :: Printable(x)) && Lex(s).Some?
    ensures Lex(DumpsItems(items) + ([']'] + s)) == Some(ItemTokens(items, Lex(s).value))
    decreases items
  {
    hide Lex;
    var tail := [']'] + s;
    MarkReadBack(']', s);
    if items == [] {
      assert DumpsItems(items) + tail == tail;
    } else if |items| == 1 {
      ValueLexes(items[0], tail);
    } else {
      var more := DumpsItems(items[1..]) + tail;
      Spaced(Dumps(items[0]), DumpsItems(items[1..]), tail);
      ItemsLex(items[1..], s);
      SpacedReadBack(',', more);
      ValueLexes(items[0], [',', ' '] + more);
    }
  }

  lemma {:induction false} MemberLexes(m: Member, s: string)
    requires Printable(m.value) && Lex(s).Some? && (s == "" || !IsNumberChar(s[0]))
    ensures Lex(DumpsMember(m) + s) == Some(MemberToken(m, Lex(s).value))
    decreases m, 1
  {
    hide Lex;
    var value := Dumps(m.value) + s;
    assert DumpsMember(m) + s == Quote(m.key) + ([':', ' '] + value);
    ValueLexes(m.value, s);
    SpacedReadBack(':', value);
    QuoteReadBack(m.key, [':', ' '] + value);
  }

  lemma {:induction false} MembersLex(members: seq<Member>, s: string)
    requires (forall m | m in members :: Printable(m.value)) && Lex(s).Some?
    ensures Lex(DumpsMembers(members) + (['}'] + s)) == Some(MemberTokens(members, Lex(s).value))
    decreases members
  {
    hide Lex, DumpsMember, MemberToken;
    var tail := ['}'] + s;
    MarkReadBack('}', s);
    if members == [] {
      assert DumpsMembers(members) + tail == tail;
    } else if |members| == 1 {
      MemberLexes(members[0], tail);
    } else {
      var more := DumpsMembers(members[1..]) + tail;
      Spaced(DumpsMember(members[0]), DumpsMembers(members[1..]), tail);
      MembersLex(members[1..], s);
      SpacedReadBack(',', more);
      MemberLexes(members[0], [',', ' '] + more);
    }
  }

  predicate StartsValue(ts: seq<Token>) {
    ts != [] && (ts[0].Mark? ==> ts[0].c == '[' || ts[0].c == '{')
  }

  lemma {:induction false} ValueParses(v: Json, rest: seq<Token>)
    ensures StartsValue(Tokens(v, rest)) && ParseValue(Tokens(v, rest)) == Some((v, rest))
    decreases v
  {
    match v
    case Array(items) =>
      var more := ItemTokens(items, rest);
      assert Tokens(v, rest)[1..] == more;
      if items == [] {
        assert Tokens(v, rest)[2..] == rest;
      } else {
        ItemsParse(items, rest);
      }
    case Object(members) =>
      var more := MemberTokens(members, rest);
      assert Tokens(v, rest)[1..] == more;
      if members == [] {
        assert Tokens(v, rest)[2..] == rest;
      } else {
        MembersParse(members, rest);
      }
    case _ => assert Tokens(v, rest)[1..] == rest;
  }

  lemma {:induction false} ItemStep(ts: seq<Token>, x: Json, c: char, more: seq<Token>)
    requires ParseValue(ts) == Some((x, [Mark(c)] + more))
    ensures c == ']' ==> ParseItems(ts) == Some(([x], more))
    ensures c == ',' && ParseItems(more).Some? ==> ParseItems(ts) == Some(([x] + ParseItems(more).value.0, ParseItems(more).value.1))
  {
    assert ([Mark(c)] + more)[1..] == more;
  }

  lemma {:induction false} ItemsParse(items: seq<Json>, rest: seq<Token>)
    requires items != []
    ensures StartsValue(ItemTokens(items, rest)) && ParseItems(ItemTokens(items, rest)) == Some((items, rest))
    decreases items
  {
    var x := items[0];
    if |items| == 1 {
      assert items == [x];
      ValueParses(x, [Mark(']')] + rest);
      ItemStep(ItemTokens(items, rest), x, ']', rest);
    } else {
      assert items == [x] + items[1..];
      var more := ItemTokens(items[1..], rest);
      ItemsParse(items[1..], rest);
      ValueParses(x, [Mark(',')] + more);
      ItemStep(ItemTokens(items, rest), x, ',', more);
    }
  }

  lemma {:induction false} MemberStep(m: Member, c: char, more: seq<Token>)
    requires ParseValue(Tokens(m.value, [Mark(c)] + more)) == Some((m.value, [Mark(c)] + more))
    ensures var ts := MemberToken(m, [Mark(c)] + more);
      && (c == '}' ==> ParseMembers(ts) == Some(([m], more)))
      && (c == ',' && ParseMembers(more).Some? ==> ParseMembers(ts) == Some(([m] + ParseMembers(more).value.0, ParseMembers(more).value.1)))
  {
    var tail := [Mark(c)] + more;
    assert tail[1..] == more && MemberToken(m, tail)[2..] == Tokens(m.value, tail);
  }

  lemma {:induction false} MembersParse(members: seq<Member>, rest: seq<Token>)
    requires members != []
    ensures ParseMembers(MemberTokens(members, rest)) == Some((members, rest))
    decreases members
  {
    var m := members[0];
    if |members| == 1 {
      assert members == [m];
      ValueParses(m.value, [Mark('}')] + rest);
      MemberStep(m, '}', rest);
    } else {
      assert members == [m] + members[1..];
      var more := MemberTokens(members[1..], rest);
      MembersParse(members[1..], rest);
      ValueParses(m.value, [Mark(',')] + more);
      MemberStep(m, ',', more);
    }
  }

  lemma DumpsRoundTrip(v: Json)
    requires Printable(v)
    ensures Decode(Dumps(v)) == Some(v)
  {
    ValueLexes(v, "");
    assert Dumps(v) + "" == Dumps(v);
    ValueParses(v, []);
  }

  /** The script-safe form of a value. */
  function JsonScript(v: Json): string {
    ScriptSafe(Dumps(v))
  }

  /** It denotes the value, and neither closes the script element nor opens a comment. */
  lemma JsonScriptRoundTrip(v: Json)
    requires Printable(v)
    ensures Decode(JsonScript(v)) == Some(v)
    ensures !Contains(JsonScript(v), END_TAG) && !Contains(JsonScript(v), COMMENT)
  {
    DumpsRoundTrip(v);
    ScriptSafeKeepsMeaning(Dumps(v));
    ScriptSafeOutput(Dumps(v));
  }
}
