/** The printed form of Python values built from tuples, strings, numbers, booleans and None, and its unique reading. */
module PythonRepr {
  /** A finite decimal as written: 1.0 is (10, -1) and 1 is (1, 0). */
  datatype Decimal = Decimal(negative: bool, digits: nat, exponent: int)

  datatype Py = NoneValue | Bool(b: bool) | Number(d: Decimal) | Str(s: string) | Tuple(items: seq<Py>)

  /** What the standard library settles: which characters above ASCII are printable, and how a decimal is spelled. */
  datatype Style = Style(printable: char -> bool, spell: Decimal -> string) {

    /** Different decimals are spelled differently, and without a quote. */
    ghost predicate Proper() {
      && (forall d :: '\'' !in spell(d))
      && forall c, d :: spell(c) == spell(d) ==> c == d
    }
  }

  // --------------------------------------------------------------------------
  // Strings
  // --------------------------------------------------------------------------

  function HexChar(n: nat): char
    requires n < 16
  {
    if n < 10 then '0' + n as char else 'a' + (n - 10) as char
  }

  function Hex(n: nat, width: nat): (h: string)
    ensures |h| == width
  {
    if width == 0 then "" else Hex(n / 16, width - 1) + [HexChar(n % 16)]
  }

  function Power16(n: nat): nat { if n == 0 then 1 else 16 * Power16(n - 1) }

  /** Double quotes only for a string that holds single quotes and no double ones. */
  function Quote(s: string): char {
    if '\'' in s && '"' !in s then '"' else '\''
  }

  function Escaped(c: char, quote: char, style: Style): string {
    var n := c as int;
    if c == '\\' || c == quote then ['\\', c]
    else if c == '\n' then "\\n"
    else if c == '\r' then "\\r"
    else if c == '\t' then "\\t"
    else if ' ' <= c <= '~' || (n >= 0x80 && style.printable(c)) then [c]
    else if n < 0x100 then "\\x" + Hex(n, 2)
    else if n < 0x1_0000 then "\\u" + Hex(n, 4)
    else "\\U" + Hex(n, 8)
  }

  /** The escaped characters and the closing quote. */
  function Quoted(s: string, quote: char, style: Style): string {
    if s == "" then [quote] else Escaped(s[0], quote, style) + Quoted(s[1..], quote, style)
  }

  // --------------------------------------------------------------------------
  // Values
  // --------------------------------------------------------------------------

  function Repr(v: Py, style: Style): string
    decreases v, if v.Tuple? then |v.items| + 1 else 0
  {
    match v
    case NoneValue => "None"
    case Bool(b) => if b then "True" else "False"
    case Number(d) => "Decimal('" + style.spell(d) + "')"
    case Str(s) => [Quote(s)] + Quoted(s, Quote(s), style)
    case Tuple(items) =>
      if items == [] then "()"
      else if |items| == 1 then "(" + Repr(items[0], style) + ",)"
      else "(" + Repr(items[0], style) + Rest(v, 1, style)
  }

  /** The members of a tuple from the `i`-th on, and the closing parenthesis. */
  function Rest(v: Py, i: nat, style: Style): string
    requires v.Tuple? && i <= |v.items|
    decreases v, |v.items| - i
  {
    if i == |v.items| then ")" else ", " + Repr(v.items[i], style) + Rest(v, i + 1, style)
  }

  // --------------------------------------------------------------------------
  // Unique reading
  // --------------------------------------------------------------------------

  lemma HexCharInjective(m: nat, n: nat)
    requires m < 16 && n < 16 && HexChar(m) == HexChar(n)
    ensures m == n
  {
  }

  lemma {:induction false} HexInjective(m: nat, n: nat, width: nat)
    requires m < Power16(width) && n < Power16(width) && Hex(m, width) == Hex(n, width)
    ensures m == n
  {
    if width > 0 {
      var x, y := Hex(m, width), Hex(n, width);
      assert x[..width - 1] == Hex(m / 16, width - 1) && y[..width - 1] == Hex(n / 16, width - 1);
      assert x[width - 1] == HexChar(m % 16) && y[width - 1] == HexChar(n % 16);
      HexInjective(m / 16, n / 16, width - 1);
      HexCharInjective(m % 16, n % 16);
    }
  }

  lemma Powers()
    ensures Power16(2) == 0x100 && Power16(4) == 0x1_0000 && Power16(8) == 0x1_0000_0000
  {
    assert Power16(1) == 16 && Power16(3) == 0x1000 && Power16(5) == 0x10_0000 && Power16(6) == 0x100_0000 && Power16(7) == 0x1000_0000;
  }

  lemma Cancel(a: string, b: string, s: string, t: string)
    requires a + s == b + t && |a| == |b|
    ensures a == b && s == t
  {
    assert (a + s)[..|a|] == a && (b + t)[..|b|] == b;
    assert (a + s)[|a|..] == s && (b + t)[|b|..] == t;
  }

  lemma {:induction false} EscapedHex(c: char, d: char, width: nat, s: string, t: string)
    requires Hex(c as int, width) + s == Hex(d as int, width) + t && (c as int) < Power16(width) && (d as int) < Power16(width)
    ensures c == d && s == t
  {
    Cancel(Hex(c as int, width), Hex(d as int, width), s, t);
    HexInjective(c as int, d as int, width);
  }

  lemma {:induction false} EscapedOnce(c: char, d: char, quote: char, style: Style, s: string, t: string)
    requires (quote == '\'' || quote == '"') && Escaped(c, quote, style) + s == Escaped(d, quote, style) + t
    ensures c == d && s == t
  {
    hide Hex, Power16;
    Powers();
    var x, y := Escaped(c, quote, style), Escaped(d, quote, style);
    assert x[0] == (x + s)[0] == (y + t)[0] == y[0];
    if |x| == 1 || |y| == 1 {
      Cancel(x, y, s, t);
    } else {
      assert x[1] == (x + s)[1] == (y + t)[1] == y[1];
      if |x| == 2 {
        Cancel(x, y, s, t);
      } else {
        var width := |x| - 2;
        assert x[2..] + s == (x + s)[2..] == (y + t)[2..] == y[2..] + t;
        EscapedHex(c, d, width, s, t);
      }
    }
  }

  /** Only the closing quote stands as it is. */
  lemma QuotedStart(a: string, quote: char, style: Style, s: string)
    requires quote == '\'' || quote == '"'
    ensures |Quoted(a, quote, style)| > 0 && ((Quoted(a, quote, style) + s)[0] == quote <==> a == "")
  {
    if a != "" {
      var first := Escaped(a[0], quote, style);
      assert first[0] != quote && (Quoted(a, quote, style) + s)[0] == first[0];
    }
  }

  lemma {:induction false} QuotedOnce(a: string, b: string, quote: char, style: Style, s: string, t: string)
    requires (quote == '\'' || quote == '"') && Quoted(a, quote, style) + s == Quoted(b, quote, style) + t
    ensures a == b && s == t
  {
    hide Escaped;
    QuotedStart(a, quote, style, s);
    QuotedStart(b, quote, style, t);
    if a == "" {
      Cancel([quote], [quote], s, t);
    } else {
      var restA, restB := Quoted(a[1..], quote, style) + s, Quoted(b[1..], quote, style) + t;
      assert Quoted(a, quote, style) + s == Escaped(a[0], quote, style) + restA;
      assert Quoted(b, quote, style) + t == Escaped(b[0], quote, style) + restB;
      EscapedOnce(a[0], b[0], quote, style, restA, restB);
      QuotedOnce(a[1..], b[1..], quote, style, s, t);
      assert a == [a[0]] + a[1..] && b == [b[0]] + b[1..];
    }
  }

  lemma FirstQuote(a: string, b: string, s: string, t: string)
    requires '\'' !in b && a + ("'" + s) == b + ("'" + t)
    ensures |a| >= |b|
  {
    assert (a + ("'" + s))[|a|] == '\'';
    assert forall i | 0 <= i < |b| :: (b + ("'" + t))[i] == b[i];
  }

  /** Text up to the first quote. */
  lemma UpToQuote(a: string, b: string, s: string, t: string)
    requires '\'' !in a && '\'' !in b && a + ("'" + s) == b + ("'" + t)
    ensures a == b && s == t
  {
    FirstQuote(a, b, s, t);
    FirstQuote(b, a, t, s);
    Cancel(a, b, "'" + s, "'" + t);
    Cancel("'", "'", s, t);
  }

  /** No printed value is the start of another: whatever follows, the value and the rest can be told. */
  lemma {:induction false} ReprOnce(x: Py, y: Py, style: Style, s: string, t: string)
    requires style.Proper() && Repr(x, style) + s == Repr(y, style) + t
    ensures x == y && s == t
    decreases x, if x.Tuple? then |x.items| + 2 else 0
  {
    hide Repr, Style.Proper;
    SameKind(x, y, style, s, t);
    match (x, y)
    case (Str(a), Str(b)) => StrOnce(a, b, style, s, t);
    case (Number(c), Number(d)) => NumberOnce(c, d, style, s, t);
    case (Tuple(_), Tuple(_)) => TupleOnce(x, y, style, s, t);
    case _ => Cancel(Repr(x, style), Repr(y, style), s, t);
  }

  lemma SameKind(x: Py, y: Py, style: Style, s: string, t: string)
    requires Repr(x, style) + s == Repr(y, style) + t
    ensures Kind(x) == Kind(y) && (Kind(x) < 3 ==> x == y)
  {
    FirstChar(x, style);
    FirstChar(y, style);
    hide Repr;
    assert Repr(x, style)[0] == (Repr(x, style) + s)[0] == (Repr(y, style) + t)[0] == Repr(y, style)[0];
  }

  lemma StrOnce(a: string, b: string, style: Style, s: string, t: string)
    requires Repr(Str(a), style) + s == Repr(Str(b), style) + t
    ensures a == b && s == t
  {
    StrForm(a, style, s);
    StrForm(b, style, t);
    hide Repr, Quoted;
    Cancel([Quote(a)], [Quote(b)], Quoted(a, Quote(a), style) + s, Quoted(b, Quote(b), style) + t);
    QuotedOnce(a, b, Quote(a), style, s, t);
  }

  lemma StrForm(a: string, style: Style, s: string)
    ensures Repr(Str(a), style) + s == [Quote(a)] + (Quoted(a, Quote(a), style) + s)
  {
    hide Quoted;
  }

  /** The kind of a value, told by the first character of its printed form. */
  function Kind(v: Py): nat {
    match v
    case NoneValue => 0
    case Bool(b) => if b then 1 else 2
    case Number(_) => 3
    case Str(_) => 4
    case Tuple(_) => 5
  }

  function KindOf(c: char): nat {
    match c
    case 'N' => 0
    case 'T' => 1
    case 'F' => 2
    case 'D' => 3
    case '(' => 5
    case _ => 4
  }

  lemma {:induction false} FirstChar(v: Py, style: Style)
    ensures Repr(v, style) != "" && KindOf(Repr(v, style)[0]) == Kind(v) && Repr(v, style)[0] != ')'
  {
    hide Quoted, Rest;
  }

  lemma {:induction false} NumberOnce(c: Decimal, d: Decimal, style: Style, s: string, t: string)
    requires style.Proper() && Repr(Number(c), style) + s == Repr(Number(d), style) + t
    ensures c == d && s == t
  {
    var x, y := style.spell(c), style.spell(d);
    assert "Decimal('" + (x + ("'" + (")" + s))) == Repr(Number(c), style) + s;
    assert "Decimal('" + (y + ("'" + (")" + t))) == Repr(Number(d), style) + t;
    Cancel("Decimal('", "Decimal('", x + ("'" + (")" + s)), y + ("'" + (")" + t)));
    UpToQuote(x, y, ")" + s, ")" + t);
    Cancel(")", ")", s, t);
  }

  /** What follows the first member of a tuple. */
  function AfterFirst(v: Py, style: Style): string
    requires v.Tuple? && v.items != []
  {
    if |v.items| == 1 then ",)" else Rest(v, 1, style)
  }

  lemma {:induction false} TupleOnce(x: Py, y: Py, style: Style, s: string, t: string)
    requires style.Proper() && x.Tuple? && y.Tuple? && Repr(x, style) + s == Repr(y, style) + t
    ensures x == y && s == t
    decreases x, |x.items| + 1
  {
    if x.items == [] || y.items == [] {
      SecondChar(x, style, s);
      SecondChar(y, style, t);
      Cancel(Repr(x, style), Repr(y, style), s, t);
    } else {
      var restX, restY := AfterFirst(x, style) + s, AfterFirst(y, style) + t;
      assert Repr(x, style) + s == "(" + (Repr(x.items[0], style) + restX);
      assert Repr(y, style) + t == "(" + (Repr(y.items[0], style) + restY);
      Cancel("(", "(", Repr(x.items[0], style) + restX, Repr(y.items[0], style) + restY);
      ReprOnce(x.items[0], y.items[0], style, restX, restY);
      AfterFirstOnce(x, y, style, s, t);
    }
  }

  lemma {:induction false} SecondChar(v: Py, style: Style, s: string)
    requires v.Tuple?
    ensures |Repr(v, style)| >= 2 && ((Repr(v, style) + s)[1] == ')' <==> v.items == [])
  {
    hide Rest;
    if v.items != [] {
      FirstChar(v.items[0], style);
      assert (Repr(v, style) + s)[1] == Repr(v.items[0], style)[0];
    }
  }

  lemma {:induction false} AfterFirstOnce(x: Py, y: Py, style: Style, s: string, t: string)
    requires style.Proper() && x.Tuple? && y.Tuple? && x.items != [] && y.items != [] && x.items[0] == y.items[0]
    requires AfterFirst(x, style) + s == AfterFirst(y, style) + t
    ensures x == y && s == t
    decreases x, |x.items|
  {
    var restX, restY := AfterFirst(x, style) + s, AfterFirst(y, style) + t;
    assert |x.items| > 1 ==> restX[1] == ' ';
    assert |y.items| > 1 ==> restY[1] == ' ';
    if |x.items| == 1 || |y.items| == 1 {
      assert restX[1] == restY[1];
      Cancel(",)", ",)", s, t);
      assert x.items == [x.items[0]] && y.items == [y.items[0]];
    } else {
      RestOnce(x, y, 1, style, s, t);
      assert x.items == [x.items[0]] + x.items[1..] && y.items == [y.items[0]] + y.items[1..];
    }
  }

  lemma {:induction false} NextMember(v: Py, i: nat, style: Style, s: string)
    requires v.Tuple? && i < |v.items|
    ensures Rest(v, i, style) + s == ", " + (Repr(v.items[i], style) + (Rest(v, i + 1, style) + s))
    ensures v.items[i..] == [v.items[i]] + v.items[i + 1..]
  {
    hide Repr;
  }

  lemma {:induction false} RestOnce(x: Py, y: Py, i: nat, style: Style, s: string, t: string)
    requires style.Proper() && x.Tuple? && y.Tuple? && i <= |x.items| && i <= |y.items|
    requires Rest(x, i, style) + s == Rest(y, i, style) + t
    ensures x.items[i..] == y.items[i..] && s == t
    decreases x, |x.items| - i
  {
    hide Repr, Style.Proper;
    if i == |x.items| || i == |y.items| {
      assert (Rest(x, i, style) + s)[0] == (Rest(y, i, style) + t)[0];
      Cancel(")", ")", s, t);
    } else {
      var restX, restY := Rest(x, i + 1, style) + s, Rest(y, i + 1, style) + t;
      NextMember(x, i, style, s);
      NextMember(y, i, style, t);
      Cancel(", ", ", ", Repr(x.items[i], style) + restX, Repr(y.items[i], style) + restY);
      ReprOnce(x.items[i], y.items[i], style, restX, restY);
      RestOnce(x, y, i + 1, style, s, t);
    }
  }
}
