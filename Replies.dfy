/**
 * Replies and the two ways the client renders them (`printReply`,
 * `printStdReply`, `printRawReply` in redis-cli.go). The Go code prints
 * as it walks the reply; here each renderer returns the whole text it
 * prints.
 */
module Replies {
  import opened Options
  import opened Strings
  import opened Format

  /**
   * A reply as the client library hands it over: `int64`, `string`,
   * `[]byte`, nil, `redis.Error`, `[]interface{}`, or anything else,
   * carried by the text `%+v` gives for it.
   */
  datatype Reply =
    | Int(n: int64)
    | Str(s: string)
    | Bytes(b: string)
    | Nil
    | Err(msg: string)
    | Arr(elems: seq<Reply>)
    | Other(repr: string)

  /** The output modes (`stdMode`, `rawMode` = iota) */
  const StdMode: int := 0
  const RawMode: int := 1

  /** What goes before element `i` of an array at `level`: nothing for the first */
  function Indent(level: nat, i: nat): string
  {
    if i == 0 then "" else Spaces(4 * level)
  }

  /** `fmt.Printf("%-4s", fmt.Sprintf("%d) ", i))` */
  function NumberPrefix(i: nat): string
  {
    PadRight(Decimal(i) + ") ", 4)
  }

  /** `printStdReply(level, r)` */
  function StdRender(level: nat, r: Reply): (s: string)
    ensures r.Arr? ==> |s| >= 5 * |r.elems| - 1
    ensures r.Arr? ==> (s == "" <==> r.elems == [])
    decreases r, 1, 0
  {
    match r
    case Int(n) => "(integer) " + Decimal(n as int)
    case Str(s) => s
    case Bytes(b) => Quote(b)
    case Nil => "(nil)"
    case Err(m) => "(error) " + m
    case Arr(es) => StdItems(level, es, 0)
    case Other(v) => "Unknown reply type: " + v
  }

  /** Line `i` of a standard-mode array: indent, number, element one level deeper */
  function StdLine(level: nat, es: seq<Reply>, i: nat): string
    requires i < |es|
    decreases Arr(es), 0, |es| - i - 1
  {
    Indent(level, i) + NumberPrefix(i + 1) + StdRender(level + 1, es[i])
  }

  /**
   * The loop of `printStdReply` over `es`, from element `i` to the end: at
   * least five characters for each element but the last (number and
   * separator) and four for the last.
   */
  function StdItems(level: nat, es: seq<Reply>, i: nat): (s: string)
    requires i <= |es|
    ensures |s| >= 5 * (|es| - i) - 1
    ensures s == "" <==> i == |es|
    decreases Arr(es), 0, |es| - i
  {
    if i == |es| then ""
    else
      var sep := if i != |es| - 1 then "\n" else "";
      StdLine(level, es, i) + sep + StdItems(level, es, i + 1)
  }

  /** `printRawReply(level, r)` */
  function RawRender(level: nat, r: Reply): (s: string)
    ensures r.Arr? ==> |s| >= |r.elems| - 1
    decreases r, 1, 0
  {
    match r
    case Int(n) => Decimal(n as int)
    case Str(s) => s
    case Bytes(b) => b
    case Nil => ""
    case Err(m) => m + "\n"
    case Arr(es) => RawItems(level, es, 0)
    case Other(v) => "Unknown reply type: " + v
  }

  /** Line `i` of a raw-mode array: indent, element one level deeper */
  function RawLine(level: nat, es: seq<Reply>, i: nat): string
    requires i < |es|
    decreases Arr(es), 0, |es| - i - 1
  {
    Indent(level, i) + RawRender(level + 1, es[i])
  }

  /**
   * The loop of `printRawReply` over `es`, from element `i` to the end: at
   * least one separating newline between consecutive elements, starting
   * with the indent and the rendering of element `i`.
   */
  function RawItems(level: nat, es: seq<Reply>, i: nat): (s: string)
    requires i <= |es|
    ensures |s| >= |es| - i - 1
    decreases Arr(es), 0, |es| - i
  {
    if i == |es| then ""
    else
      var sep := if i != |es| - 1 then "\n" else "";
      RawLine(level, es, i) + sep + RawItems(level, es, i + 1)
  }

  /** `printReply(level, r, mode)`: raw mode is raw, every other mode standard */
  function Render(level: nat, r: Reply, mode: int): (s: string)
    ensures mode == RawMode ==> s == RawRender(level, r)
    ensures mode != RawMode ==> s == StdRender(level, r)
  {
    if mode == StdMode then StdRender(level, r)
    else if mode == RawMode then RawRender(level, r)
    else StdRender(level, r)
  }

  // ---------------------------------------------------------------
  // Array layout, stated as lines joined by newlines
  // ---------------------------------------------------------------

  function StdLines(level: nat, es: seq<Reply>, i: nat): (lines: seq<string>)
    requires i <= |es|
    ensures |lines| == |es| - i
    ensures forall k :: 0 <= k < |lines| ==> lines[k] == StdLine(level, es, i + k)
  {
    seq(|es| - i, k requires 0 <= k < |es| - i => StdLine(level, es, i + k))
  }

  function RawLines(level: nat, es: seq<Reply>, i: nat): (lines: seq<string>)
    requires i <= |es|
    ensures |lines| == |es| - i
    ensures forall k :: 0 <= k < |lines| ==> lines[k] == RawLine(level, es, i + k)
  {
    seq(|es| - i, k requires 0 <= k < |es| - i => RawLine(level, es, i + k))
  }

  lemma {:induction false} StdItemsAreJoinedLines(level: nat, es: seq<Reply>, i: nat)
    requires i <= |es|
    ensures StdItems(level, es, i) == Join(StdLines(level, es, i), "\n")
    decreases |es| - i
  {
    if i < |es| {
      StdItemsAreJoinedLines(level, es, i + 1);
      var lines := StdLines(level, es, i);
      assert lines[1..] == StdLines(level, es, i + 1);
    }
  }

  lemma {:induction false} RawItemsAreJoinedLines(level: nat, es: seq<Reply>, i: nat)
    requires i <= |es|
    ensures RawItems(level, es, i) == Join(RawLines(level, es, i), "\n")
    decreases |es| - i
  {
    if i < |es| {
      RawItemsAreJoinedLines(level, es, i + 1);
      var lines := RawLines(level, es, i);
      assert lines[1..] == RawLines(level, es, i + 1);
    }
  }

  /**
   * A standard-mode array is its element lines joined by single newlines:
   * line k is `4*level` spaces (none for the first), the number `k+1`
   * padded to at least four characters, and element k rendered one level
   * deeper. No newline follows the last line; an empty array is empty.
   */
  lemma StdArrayLayout(level: nat, es: seq<Reply>)
    ensures StdRender(level, Arr(es)) == Join(StdLines(level, es, 0), "\n")
    ensures es == [] ==> StdRender(level, Arr(es)) == ""
    ensures es != [] ==> HasSuffix(StdRender(level, Arr(es)), StdRender(level + 1, es[|es| - 1]))
  {
    StdItemsAreJoinedLines(level, es, 0);
    if es != [] {
      StdLastLine(level, es);
    }
  }

  lemma StdLastLine(level: nat, es: seq<Reply>)
    requires es != []
    ensures HasSuffix(Join(StdLines(level, es, 0), "\n"), StdRender(level + 1, es[|es| - 1]))
  {
    var lines := StdLines(level, es, 0);
    assert lines[|lines| - 1] == StdLine(level, es, |es| - 1);
    JoinEndsWith(lines, Indent(level, |es| - 1) + NumberPrefix(|es|), StdRender(level + 1, es[|es| - 1]));
  }

  lemma RawLastLine(level: nat, es: seq<Reply>)
    requires es != []
    ensures HasSuffix(Join(RawLines(level, es, 0), "\n"), RawRender(level + 1, es[|es| - 1]))
  {
    var lines := RawLines(level, es, 0);
    assert lines[|lines| - 1] == RawLine(level, es, |es| - 1);
    JoinEndsWith(lines, Indent(level, |es| - 1), RawRender(level + 1, es[|es| - 1]));
  }

  /** Lines joined by newlines end with whatever ends the last line. */
  lemma JoinEndsWith(lines: seq<string>, p: string, x: string)
    requires |lines| > 0 && lines[|lines| - 1] == p + x
    ensures HasSuffix(Join(lines, "\n"), x)
  {
    JoinEndsWithLast(lines, "\n");
    SuffixOfConcat(p, x);
    SuffixTransitive(Join(lines, "\n"), lines[|lines| - 1], x);
  }

  /** A non-empty standard array starts with the number of its first element. */
  lemma StdArrayStartsWithNumber(level: nat, es: seq<Reply>)
    requires es != []
    ensures HasPrefix(StdRender(level, Arr(es)), NumberPrefix(1))
  {
    StdItemsStep(level, es, 0);
    assert Indent(level, 0) + NumberPrefix(1) == NumberPrefix(1);
    PrefixOfItem(NumberPrefix(1), StdRender(level + 1, es[0]), (if 0 != |es| - 1 then "\n" else "") + StdItems(level, es, 1));
  }

  /** The raw-mode array: the same lines without numbers. */
  lemma RawArrayLayout(level: nat, es: seq<Reply>)
    ensures RawRender(level, Arr(es)) == Join(RawLines(level, es, 0), "\n")
    ensures es == [] ==> RawRender(level, Arr(es)) == ""
    ensures es != [] ==> HasSuffix(RawRender(level, Arr(es)), RawRender(level + 1, es[|es| - 1]))
  {
    RawItemsAreJoinedLines(level, es, 0);
    if es != [] {
      RawLastLine(level, es);
    }
  }

  /**
   * The number before element i: the decimal i, `) `, then spaces up to
   * four characters; exactly four for i below 100, never fewer.
   */
  lemma NumberPrefixShape(i: nat)
    ensures |NumberPrefix(i)| >= 4
    ensures i < 100 ==> |NumberPrefix(i)| == 4
    ensures HasPrefix(NumberPrefix(i), Decimal(i) + ") ")
    ensures forall k :: |Decimal(i)| + 2 <= k < |NumberPrefix(i)| ==> NumberPrefix(i)[k] == ' '
    ensures i <= MaxInt64 ==> Atoi(NumberPrefix(i)[..|Decimal(i)|]) as int == i
  {
    var d := Decimal(i);
    if i >= 10 && i < 100 {
      assert NatDigits(i) == NatDigits(i / 10) + [DigitChar(i % 10)];
    }
    var p := NumberPrefix(i);
    assert p[..|d| + 2] == d + ") ";
    assert p[..|d|] == d;
    if i <= MaxInt64 {
      AtoiOfDecimal(i as int64);
    }
  }

  // ---------------------------------------------------------------
  // Indentation of continuation lines
  // ---------------------------------------------------------------

  /** Every newline in `s` is followed by at least `w` spaces. */
  predicate IndentedBy(s: string, w: nat)
  {
    forall i :: 0 <= i < |s| && s[i] == '\n' ==>
      i + w < |s| && forall j :: i < j <= i + w ==> s[j] == ' '
  }

  /** No text inside the reply holds a newline of its own. */
  predicate SingleLine(r: Reply)
  {
    match r
    case Int(_) => true
    case Str(s) => '\n' !in s
    case Bytes(_) => true
    case Nil => true
    case Err(m) => '\n' !in m
    case Arr(es) => forall k :: 0 <= k < |es| ==> SingleLine(es[k])
    case Other(v) => '\n' !in v
  }

  /** As SingleLine, for raw mode: bytes are printed unquoted and errors end in a newline. */
  predicate RawSingleLine(r: Reply)
  {
    match r
    case Int(_) => true
    case Str(s) => '\n' !in s
    case Bytes(b) => '\n' !in b
    case Nil => true
    case Err(_) => false
    case Arr(es) => forall k :: 0 <= k < |es| ==> RawSingleLine(es[k])
    case Other(v) => '\n' !in v
  }

  lemma NoNewlineIndented(s: string, w: nat)
    requires '\n' !in s
    ensures IndentedBy(s, w)
  {
    forall i | 0 <= i < |s| ensures s[i] != '\n' {
      assert s[i] in s;
    }
  }

  lemma IndentedWeaken(s: string, w: nat, v: nat)
    requires v <= w && IndentedBy(s, w)
    ensures IndentedBy(s, v)
  {
  }

  lemma IndentedConcat(a: string, b: string, w: nat)
    requires IndentedBy(a, w) && IndentedBy(b, w)
    ensures IndentedBy(a + b, w)
  {
    var s := a + b;
    forall i | 0 <= i < |s| && s[i] == '\n'
      ensures i + w < |s| && forall j :: i < j <= i + w ==> s[j] == ' '
    {
      if i < |a| {
        assert a[i] == '\n';
        forall j | i < j <= i + w ensures s[j] == ' ' {
          assert s[j] == a[j];
        }
      } else {
        assert b[i - |a|] == '\n';
        forall j | i < j <= i + w ensures s[j] == ' ' {
          assert s[j] == b[j - |a|];
        }
      }
    }
  }

  /** A separator followed by a line that starts with `w` spaces. */
  lemma IndentedAfterSeparator(e: string, w: nat)
    requires IndentedBy(e, w) && |e| >= w
    requires forall j :: 0 <= j < w ==> e[j] == ' '
    ensures IndentedBy("\n" + e, w)
  {
    var s := "\n" + e;
    forall i | 0 <= i < |s| && s[i] == '\n'
      ensures i + w < |s| && forall j :: i < j <= i + w ==> s[j] == ' '
    {
      if i == 0 {
        forall j | 0 < j <= w ensures s[j] == ' ' {
          assert s[j] == e[j - 1];
        }
      } else {
        assert e[i - 1] == '\n';
        forall j | i < j <= i + w ensures s[j] == ' ' {
          assert s[j] == e[j - 1];
        }
      }
    }
  }

  lemma NumberPrefixHasNoNewline(i: nat)
    ensures '\n' !in NumberPrefix(i)
  {
    var d := Decimal(i);
    var p := NumberPrefix(i);
    DecimalHasNoNewline(i);
    forall k | 0 <= k < |p| ensures p[k] != '\n' {
      if k < |d| + 2 {
        assert p[..|d| + 2] == d + ") ";
        assert p[k] == (d + ") ")[k];
        if k < |d| {
          assert d[k] in d;
        }
      }
    }
  }

  /**
   * In standard mode, when no text in the reply holds a newline, every
   * line after the first is indented by at least `4*level` spaces.
   */
  lemma {:induction false} StdIndentation(level: nat, r: Reply)
    requires SingleLine(r)
    ensures IndentedBy(StdRender(level, r), 4 * level)
    decreases r, 1, 0
  {
    match r
    case Int(n) => DecimalHasNoNewline(n as int); NoNewlineIndented(StdRender(level, r), 4 * level);
    case Str(s) => NoNewlineIndented(s, 4 * level);
    case Bytes(b) => NoNewlineIndented(Quote(b), 4 * level);
    case Nil => NoNewlineIndented("(nil)", 4 * level);
    case Err(m) => NoNewlineIndented(StdRender(level, r), 4 * level);
    case Arr(es) => StdItemsIndentation(level, es, 0);
    case Other(v) => NoNewlineIndented(StdRender(level, r), 4 * level);
  }

  lemma {:induction false} StdItemsIndentation(level: nat, es: seq<Reply>, i: nat)
    requires i <= |es|
    requires forall k :: 0 <= k < |es| ==> SingleLine(es[k])
    ensures IndentedBy(StdItems(level, es, i), 4 * level)
    decreases Arr(es), 0, |es| - i
  {
    if i < |es| {
      StdIndentation(level + 1, es[i]);
      IndentedWeaken(StdRender(level + 1, es[i]), 4 * (level + 1), 4 * level);
      StdItemsIndentation(level, es, i + 1);
      StdItemIndented(level, es, i);
    }
  }

  /** The induction step: element `i` and what follows it are indented when the parts are. */
  lemma StdItemIndented(level: nat, es: seq<Reply>, i: nat)
    requires i < |es|
    requires IndentedBy(StdRender(level + 1, es[i]), 4 * level)
    requires IndentedBy(StdItems(level, es, i + 1), 4 * level)
    ensures IndentedBy(StdItems(level, es, i), 4 * level)
  {
    HeadIndented(level, i);
    if i != |es| - 1 {
      StdItemsStartIndented(level, es, i + 1);
    }
    StdItemsStep(level, es, i);
    ItemIndented(Indent(level, i) + NumberPrefix(i + 1), StdRender(level + 1, es[i]),
      i == |es| - 1, StdItems(level, es, i + 1), 4 * level);
  }

  /** The indent and number before an element hold no newline. */
  lemma HeadIndented(level: nat, i: nat)
    ensures IndentedBy(Indent(level, i) + NumberPrefix(i + 1), 4 * level)
  {
    NoNewlineIndented(Indent(level, i), 4 * level);
    NumberPrefixHasNoNewline(i + 1);
    NoNewlineIndented(NumberPrefix(i + 1), 4 * level);
    IndentedConcat(Indent(level, i), NumberPrefix(i + 1), 4 * level);
  }

  /** One step of the standard loop: element `i`'s line, its separator, the rest */
  lemma StdItemsStep(level: nat, es: seq<Reply>, i: nat)
    requires i < |es|
    ensures StdItems(level, es, i)
      == Indent(level, i) + NumberPrefix(i + 1) + StdRender(level + 1, es[i])
         + (if i != |es| - 1 then "\n" else "") + StdItems(level, es, i + 1)
  {
  }

  lemma RawItemsStep(level: nat, es: seq<Reply>, i: nat)
    requires i < |es|
    ensures RawItems(level, es, i)
      == Indent(level, i) + RawRender(level + 1, es[i])
         + (if i != |es| - 1 then "\n" else "") + RawItems(level, es, i + 1)
  {
  }

  /** Every element after the first starts with `4*level` spaces. */
  lemma StdItemsStartIndented(level: nat, es: seq<Reply>, i: nat)
    requires 0 < i < |es|
    ensures |StdItems(level, es, i)| >= 4 * level
    ensures forall j :: 0 <= j < 4 * level ==> StdItems(level, es, i)[j] == ' '
  {
    StdItemsStep(level, es, i);
    PrefixOfConcat(Indent(level, i), NumberPrefix(i + 1), StdRender(level + 1, es[i]),
      (if i != |es| - 1 then "\n" else ""), StdItems(level, es, i + 1));
  }

  lemma RawItemsStartIndented(level: nat, es: seq<Reply>, i: nat)
    requires 0 < i < |es|
    ensures |RawItems(level, es, i)| >= 4 * level
    ensures forall j :: 0 <= j < 4 * level ==> RawItems(level, es, i)[j] == ' '
  {
    var t := RawItems(level, es, i);
    var p := Indent(level, i) + RawRender(level + 1, es[i]);
    RawItemsStep(level, es, i);
    PrefixOfItem(p, if i != |es| - 1 then "\n" else "", RawItems(level, es, i + 1));
    assert t[..|p|] == p;
    assert forall j :: 0 <= j < 4 * level ==> t[j] == t[..|p|][j];
  }

  lemma PrefixOfConcat(a: string, b: string, c: string, d: string, e: string)
    ensures |a + b + c + d + e| >= |a|
    ensures forall j :: 0 <= j < |a| ==> (a + b + c + d + e)[j] == a[j]
  {
  }

  /** One element and what follows it: head, body, then a separator unless it is the last. */
  lemma ItemIndented(head: string, body: string, last: bool, e: string, w: nat)
    requires IndentedBy(head, w) && IndentedBy(body, w) && IndentedBy(e, w)
    requires last ==> e == ""
    requires !last ==> |e| >= w && forall j :: 0 <= j < w ==> e[j] == ' '
    ensures IndentedBy(head + body + (if last then "" else "\n") + e, w)
  {
    IndentedConcat(head, body, w);
    if last {
      assert head + body + "" + e == head + body;
    } else {
      IndentedAfterSeparator(e, w);
      IndentedConcat(head + body, "\n" + e, w);
      assert head + body + "\n" + e == head + body + ("\n" + e);
    }
  }

  /**
   * In raw mode, when no text holds a newline and no element is an error,
   * every line after the first is indented by at least `4*level` spaces.
   */
  lemma {:induction false} RawIndentation(level: nat, r: Reply)
    requires RawSingleLine(r)
    ensures IndentedBy(RawRender(level, r), 4 * level)
    decreases r, 1, 0
  {
    match r
    case Int(n) => DecimalHasNoNewline(n as int); NoNewlineIndented(RawRender(level, r), 4 * level);
    case Str(s) => NoNewlineIndented(s, 4 * level);
    case Bytes(b) => NoNewlineIndented(b, 4 * level);
    case Nil => NoNewlineIndented("", 4 * level);
    case Arr(es) => RawItemsIndentation(level, es, 0);
    case Other(v) => NoNewlineIndented(RawRender(level, r), 4 * level);
  }

  lemma {:induction false} RawItemsIndentation(level: nat, es: seq<Reply>, i: nat)
    requires i <= |es|
    requires forall k :: 0 <= k < |es| ==> RawSingleLine(es[k])
    ensures IndentedBy(RawItems(level, es, i), 4 * level)
    decreases Arr(es), 0, |es| - i
  {
    if i < |es| {
      var w := 4 * level;
      var c := RawRender(level + 1, es[i]);
      NoNewlineIndented(Indent(level, i), w);
      RawIndentation(level + 1, es[i]);
      IndentedWeaken(c, 4 * (level + 1), w);
      RawItemsIndentation(level, es, i + 1);
      if i != |es| - 1 {
        RawItemsStartIndented(level, es, i + 1);
      }
      RawItemsStep(level, es, i);
      ItemIndented(Indent(level, i), c, i == |es| - 1, RawItems(level, es, i + 1), w);
    }
  }

  // ---------------------------------------------------------------
  // What standard mode tells apart
  // ---------------------------------------------------------------

  /** The scalars standard mode annotates: integers, byte strings, nil, errors */
  predicate Annotated(r: Reply)
  {
    r.Int? || r.Bytes? || r.Nil? || r.Err?
  }

  /**
   * Standard mode's annotations identify the reply: two annotated scalars
   * that render alike are the same reply. (A plain `string` reply is
   * printed verbatim, so it can look like any of them.)
   */
  lemma StdAnnotatedInjective(level: nat, a: Reply, b: Reply)
    requires Annotated(a) && Annotated(b)
    requires StdRender(level, a) == StdRender(level, b)
    ensures a == b
  {
    var x := StdRender(level, a);
    assert x[0] == StdRender(level, b)[0];
    if a.Int? && b.Int? {
      assert Decimal(a.n as int) == x[10..] == Decimal(b.n as int);
      DecimalInjective(a.n, b.n);
    } else if a.Err? && b.Err? {
      assert a.msg == x[8..] == b.msg;
    } else if a.Bytes? && b.Bytes? {
      QuoteInjective(a.b, b.b);
    } else if !a.Bytes? && !b.Bytes? {
      assert x[1] == StdRender(level, b)[1];
    }
  }

  /**
   * Each standard-mode scalar can be read back from its text: the integer
   * after `(integer) `, the bytes by unquoting, the message after `(error) `.
   */
  lemma StdScalarsReadBack(level: nat, n: int64, b: string, m: string, s: string)
    ensures HasPrefix(StdRender(level, Int(n)), "(integer) ") && Atoi(StdRender(level, Int(n))[10..]) == n
    ensures Unquote(StdRender(level, Bytes(b))) == Some(b)
    ensures HasPrefix(StdRender(level, Err(m)), "(error) ") && StdRender(level, Err(m))[8..] == m
    ensures StdRender(level, Nil) == "(nil)" && StdRender(level, Str(s)) == s
  {
    AtoiOfDecimal(n);
    QuoteRoundTrip(b);
  }

  /**
   * Raw mode prints a scalar without annotation: bare digits, strings and
   * bytes as they are, nothing for nil, and an error's message followed by
   * a newline.
   */
  lemma RawScalarsReadBack(level: nat, n: int64, b: string, m: string, s: string)
    ensures Atoi(RawRender(level, Int(n))) == n && AllDigits(RawRender(level, Int(n))) == (n >= 0)
    ensures RawRender(level, Bytes(b)) == b && RawRender(level, Str(s)) == s
    ensures RawRender(level, Nil) == "" && RawRender(level, Err(m)) == m + "\n"
  {
    AtoiOfDecimal(n);
  }
}
