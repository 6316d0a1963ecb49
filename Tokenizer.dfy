/**
 * The command-line tokenizer of the REPL: Go's `regexp.FindAllString(line, -1)`
 * for the pattern `'.*?'|".*?"|\S+` (redis-cli.go), written as a scanner.
 * Matching is leftmost-first, as in Go: at the first position where some
 * alternative matches, the alternatives are tried in order. `\S` is any
 * character but tab, newline, form feed, carriage return and space, and
 * `.` is any character but newline. Quotes stay in the tokens.
 */
module Tokenizer {
  import opened Options
  import opened Strings

  /** `\s` of Go's regexp syntax */
  predicate IsSpace(c: char)
  {
    c == ' ' || c == '\t' || c == '\n' || c == '\r' || c as int == 12
  }

  predicate IsQuote(c: char)
  {
    c == '\'' || c == '"'
  }

  /** The index of the first `q` in `s`, provided no newline comes before it */
  function FindClose(s: string, q: char): (r: Option<nat>)
    requires q != '\n'
    ensures r.Some? ==> r.value < |s| && s[r.value] == q
    ensures r.Some? ==> forall k :: 0 <= k < r.value ==> s[k] != q && s[k] != '\n'
    ensures r.None? ==> forall k :: 0 <= k < |s| && s[k] == q ==> exists j :: 0 <= j < k && s[j] == '\n'
  {
    if s == [] || s[0] == '\n' then None
    else if s[0] == q then Some(0)
    else match FindClose(s[1..], q)
      case None => None
      case Some(k) => Some(k + 1)
  }

  /** The length of the run of non-space characters that starts `s` */
  function WordLength(s: string): (n: nat)
    ensures n <= |s|
    ensures forall k :: 0 <= k < n ==> !IsSpace(s[k])
    ensures n == |s| || IsSpace(s[n])
  {
    if s == [] || IsSpace(s[0]) then 0 else 1 + WordLength(s[1..])
  }

  /** A quoted span: the quote, anything but that quote and newline, the quote again */
  predicate QuotedSpan(t: string)
  {
    |t| >= 2 && IsQuote(t[0]) && t[|t| - 1] == t[0]
    && forall k :: 0 < k < |t| - 1 ==> t[k] != t[0] && t[k] != '\n'
  }

  /** A run of non-space characters */
  predicate Word(t: string)
  {
    |t| > 0 && forall k :: 0 <= k < |t| ==> !IsSpace(t[k])
  }

  /** Whether a quoted span starts `s`: a quote, closed before any newline */
  predicate StartsQuoted(s: string)
  {
    s != [] && IsQuote(s[0]) && FindClose(s[1..], s[0]).Some?
  }

  /**
   * The length of the match of `'.*?'|".*?"|\S+` that starts at `s[0]`:
   * up to the nearest closing quote when the span closes on this line,
   * otherwise the whole run of non-space characters.
   */
  function MatchLength(s: string): (n: nat)
    requires s != [] && !IsSpace(s[0])
    ensures 1 <= n <= |s|
    ensures StartsQuoted(s) ==> QuotedSpan(s[..n])
    ensures !StartsQuoted(s) ==> n == WordLength(s) && Word(s[..n])
  {
    if StartsQuoted(s) then
      var k := FindClose(s[1..], s[0]).value;
      assert forall j :: 0 < j < k + 1 ==> s[j] == s[1..][j - 1];
      k + 2
    else
      WordLength(s)
  }

  /** `reg.FindAllString(s, -1)` */
  function Tokens(s: string): (ts: seq<string>)
    ensures forall i :: 0 <= i < |ts| ==> QuotedSpan(ts[i]) || Word(ts[i])
    decreases |s|
  {
    if s == [] then []
    else if IsSpace(s[0]) then Tokens(s[1..])
    else
      var n := MatchLength(s);
      [s[..n]] + Tokens(s[n..])
  }

  /** `s` with its whitespace taken out */
  function NonSpace(s: string): string
  {
    if s == [] then [] else (if IsSpace(s[0]) then [] else [s[0]]) + NonSpace(s[1..])
  }

  lemma {:induction false} NonSpaceConcat(a: string, b: string)
    ensures NonSpace(a + b) == NonSpace(a) + NonSpace(b)
    decreases |a|
  {
    if a != [] {
      assert (a + b)[1..] == a[1..] + b;
      NonSpaceConcat(a[1..], b);
    } else {
      assert a + b == b;
    }
  }

  /** A line yields no tokens exactly when it is all whitespace. */
  lemma {:induction false} NoTokensIffBlank(s: string)
    ensures Tokens(s) == [] <==> forall i :: 0 <= i < |s| ==> IsSpace(s[i])
    decreases |s|
  {
    if s != [] && IsSpace(s[0]) {
      NoTokensIffBlank(s[1..]);
      assert forall i :: 1 <= i < |s| ==> s[i] == s[1..][i - 1];
    }
  }

  /** One step of the scan at a non-space character: the match, then the rest of the line */
  lemma TokensStep(s: string)
    requires s != [] && !IsSpace(s[0])
    ensures Tokens(s) == [s[..MatchLength(s)]] + Tokens(s[MatchLength(s)..])
  {
  }

  lemma ConcatCons(t: string, ts: seq<string>)
    ensures Concat([t] + ts) == t + Concat(ts)
  {
    assert ([t] + ts)[1..] == ts;
  }

  /** The tokens, run together, occur in the line in order. */
  lemma {:induction false} TokensAreSubsequence(s: string)
    ensures IsSubsequence(Concat(Tokens(s)), s)
    decreases |s|
  {
    if s != [] {
      if IsSpace(s[0]) {
        TokensAreSubsequence(s[1..]);
        SubsequenceOfTail(Concat(Tokens(s)), s);
      } else {
        var n := MatchLength(s);
        var rest := Concat(Tokens(s[n..]));
        TokensAreSubsequence(s[n..]);
        TokensStep(s);
        ConcatCons(s[..n], Tokens(s[n..]));
        SubsequenceOfConcat(s[..n], rest, s[n..]);
        assert s[..n] + s[n..] == s;
      }
    }
  }

  /** Only whitespace is skipped between tokens: no other character is lost. */
  lemma {:induction false} TokensKeepNonSpace(s: string)
    ensures NonSpace(Concat(Tokens(s))) == NonSpace(s)
    decreases |s|
  {
    if s != [] {
      if IsSpace(s[0]) {
        TokensKeepNonSpace(s[1..]);
      } else {
        var n := MatchLength(s);
        var t, rest := s[..n], s[n..];
        calc {
          NonSpace(Concat(Tokens(s)));
          { TokensStep(s); ConcatCons(t, Tokens(rest)); }
          NonSpace(t + Concat(Tokens(rest)));
          { NonSpaceConcat(t, Concat(Tokens(rest))); }
          NonSpace(t) + NonSpace(Concat(Tokens(rest)));
          { TokensKeepNonSpace(rest); }
          NonSpace(t) + NonSpace(rest);
          { NonSpaceConcat(t, rest); assert t + rest == s; }
          NonSpace(s);
        }
      }
    }
  }

  /** A word that the tokenizer takes as it is: no whitespace, no opening quote */
  predicate PlainWord(t: string)
  {
    Word(t) && !IsQuote(t[0])
  }

  lemma WordThenRest(w: string, rest: string)
    requires PlainWord(w)
    requires rest == [] || IsSpace(rest[0])
    ensures MatchLength(w + rest) == |w|
  {
    var s := w + rest;
    assert s[0] == w[0];
    assert forall k :: 0 <= k < |w| ==> s[k] == w[k];
    assert |w| < |s| ==> s[|w|] == rest[0];
  }

  /** `FindClose` returns the first occurrence of the quote when no newline precedes it. */
  lemma {:induction false} FindCloseAt(s: string, q: char, k: nat)
    requires q != '\n' && k < |s| && s[k] == q
    requires forall j :: 0 <= j < k ==> s[j] != q && s[j] != '\n'
    ensures FindClose(s, q) == Some(k)
    decreases k
  {
    if k > 0 {
      assert forall j :: 0 <= j < k - 1 ==> s[1..][j] == s[j + 1];
      FindCloseAt(s[1..], q, k - 1);
    }
  }

  lemma QuotedThenRest(t: string, rest: string)
    requires QuotedSpan(t)
    ensures MatchLength(t + rest) == |t|
  {
    var s := t + rest;
    assert s[0] == t[0];
    assert forall j :: 0 <= j < |t| - 2 ==> s[1..][j] == t[j + 1];
    FindCloseAt(s[1..], s[0], |t| - 2);
  }

  /** A plain word followed by a space is one token; scanning goes on after the space. */
  lemma TokensAfterWord(w: string, rest: string)
    requires PlainWord(w)
    ensures Tokens(w + " " + rest) == [w] + Tokens(rest)
  {
    var s := w + " " + rest;
    assert s == w + (" " + rest);
    WordThenRest(w, " " + rest);
    assert s[..|w|] == w;
    assert s[|w|..] == " " + rest;
    assert (" " + rest)[1..] == rest;
  }

  /** A quoted span that ends the line is a single token, quotes included. */
  lemma TokensOfQuoted(t: string)
    requires QuotedSpan(t)
    ensures Tokens(t) == [t]
  {
    QuotedThenRest(t, []);
    assert t + [] == t;
    assert t[..|t|] == t;
    assert t[|t|..] == [];
  }

  /** Plain words joined by single spaces tokenize back to the same words. */
  lemma {:induction false} TokensOfJoin(ts: seq<string>)
    requires forall i :: 0 <= i < |ts| ==> PlainWord(ts[i])
    ensures Tokens(Join(ts, " ")) == ts
    decreases |ts|
  {
    if |ts| == 1 {
      WordThenRest(ts[0], []);
      assert ts[0] + [] == ts[0];
      assert ts[0][..|ts[0]|] == ts[0];
      assert ts[0][|ts[0]|..] == [];
    } else if |ts| > 1 {
      TokensAfterWord(ts[0], Join(ts[1..], " "));
      TokensOfJoin(ts[1..]);
      assert [ts[0]] + ts[1..] == ts;
    }
  }

  lemma HelloWorldIsQuoted()
    ensures QuotedSpan("\"hello world\"")
  {
    var q := "\"hello world\"";
    assert |q| == 13 && q[0] == '"' && q[12] == '"';
    assert forall k :: 0 < k < 12 ==> q[k] in "hello world";
  }

  lemma ExampleLineSplits()
    ensures "SET key \"hello world\"" == "SET" + " " + ("key" + " " + "\"hello world\"")
  {
  }

  lemma TokensOfWordWordQuoted(a: string, b: string, q: string)
    requires PlainWord(a) && PlainWord(b) && QuotedSpan(q)
    ensures Tokens(a + " " + (b + " " + q)) == [a, b, q]
  {
    TokensOfQuoted(q);
    TokensAfterWord(b, q);
    TokensAfterWord(a, b + " " + q);
  }

  lemma ExampleWordsArePlain()
    ensures PlainWord("SET") && PlainWord("key")
  {
  }

  /** `SET key "hello world"` gives three tokens, the last with its quotes. */
  lemma QuotedArgumentExample()
    ensures Tokens("SET key \"hello world\"") == ["SET", "key", "\"hello world\""]
  {
    HelloWorldIsQuoted();
    ExampleWordsArePlain();
    TokensOfWordWordQuoted("SET", "key", "\"hello world\"");
    ExampleLineSplits();
  }
}
