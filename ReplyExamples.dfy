/** The renderings of the nested reply `[1, "two", [3, nil]]`, worked out in both modes. */
module ReplyExamples {
  import opened Strings
  import opened Format
  import opened Replies

  /**
   * Standard mode: three numbered lines joined by newlines; the third holds
   * the nested list, whose second line is indented by four spaces.
   */
  lemma StdNestedExample()
    ensures var es := [Int(1), Str("two"), Arr([Int(3), Nil])];
      StdRender(0, Arr(es)) == Join(StdLines(0, es, 0), "\n")
      && StdLines(0, es, 0) == ["1)  (integer) 1", "2)  two", "3)  1)  (integer) 3\n    2)  (nil)"]
  {
    var es := [Int(1), Str("two"), Arr([Int(3), Nil])];
    StdArrayLayout(0, es);
    StdLine0();
    StdLine1();
    StdLine2();
  }

  lemma StdLine0()
    ensures StdLine(0, [Int(1), Str("two"), Arr([Int(3), Nil])], 0) == "1)  (integer) 1"
  {
    Prefixes();
  }

  lemma StdLine1()
    ensures StdLine(0, [Int(1), Str("two"), Arr([Int(3), Nil])], 1) == "2)  two"
  {
    Prefixes();
  }

  lemma StdLine2()
    ensures StdLine(0, [Int(1), Str("two"), Arr([Int(3), Nil])], 2) == "3)  1)  (integer) 3\n    2)  (nil)"
  {
    Prefixes();
    StdInner();
  }

  lemma StdInner()
    ensures StdRender(1, Arr([Int(3), Nil])) == "1)  (integer) 3\n    2)  (nil)"
  {
    StdInnerFirst();
    StdInnerSecond();
    assert "1)  (integer) 3" + "\n" + "    2)  (nil)" == "1)  (integer) 3\n    2)  (nil)";
  }

  lemma StdInnerFirst()
    ensures StdLine(1, [Int(3), Nil], 0) == "1)  (integer) 3"
  {
    Prefixes();
  }

  lemma StdInnerSecond()
    ensures StdItems(1, [Int(3), Nil], 1) == "    2)  (nil)"
  {
    Prefixes();
  }

  lemma Prefixes()
    ensures NumberPrefix(1) == "1)  " && NumberPrefix(2) == "2)  " && NumberPrefix(3) == "3)  "
  {
  }

  /** Raw mode: no numbers, no `(integer)`, nothing at all for nil */
  lemma RawNestedExample()
    ensures var es := [Int(1), Str("two"), Arr([Int(3), Nil])];
      RawRender(0, Arr(es)) == Join(RawLines(0, es, 0), "\n")
      && RawLines(0, es, 0) == ["1", "two", "3\n    "]
  {
    var es := [Int(1), Str("two"), Arr([Int(3), Nil])];
    RawArrayLayout(0, es);
    RawInner();
    assert RawLine(0, es, 0) == "1";
    assert RawLine(0, es, 1) == "two";
    assert RawLine(0, es, 2) == "3\n    ";
  }

  lemma RawInner()
    ensures RawRender(1, Arr([Int(3), Nil])) == "3\n    "
  {
    assert RawItems(1, [Int(3), Nil], 1) == "    ";
  }
}
