/**
 * The inputs of part2/json-parser/parser.test.ts as the tokenizer of
 * part2/json-parser/parser.ts reads them. Each input is laid out from its
 * tokens and gaps, so that the outcome follows from LexLayout.
 */
module LabelTokenizerExamples {
  import opened Wrappers
  import opened LabelTokenizer

  /** `[]`: the two brackets. */
  lemma Brackets(s: string)
    requires s == "[]"
    ensures Lex(s) == Ok([BracketOpen, BracketClose])
  {
    var e: string := [];
    assert s == ['['] + ([']'] + e);
    assert Lex(e) == Ok([]);
    LexSingle(']', e);
    assert [BracketClose] + [] == [BracketClose];
    LexSingle('[', [']'] + e);
    assert [BracketOpen] + [BracketClose] == [BracketOpen, BracketClose];
  }

  /** `{}`: the two braces. */
  lemma Braces(s: string)
    requires s == "{}"
    ensures Lex(s) == Ok([CurlyOpen, CurlyClose])
  {
    var e: string := [];
    assert s == ['{'] + (['}'] + e);
    assert Lex(e) == Ok([]);
    LexSingle('}', e);
    assert [CurlyClose] + [] == [CurlyClose];
    LexSingle('{', ['}'] + e);
    assert [CurlyOpen] + [CurlyClose] == [CurlyOpen, CurlyClose];
  }

  predicate Letters(k: string)
  {
    |k| > 0 && forall i :: 0 <= i < |k| ==> IsLower(k[i])
  }

  /** One more token of a layout, read from the back. */
  lemma LayoutText(ts: seq<Token>, gaps: seq<string>, i: nat, tail: string, s: string)
    requires i < |ts| == |gaps| && Layout(ts[i + 1..], gaps[i + 1..]) == tail
    requires s == Source(ts[i]) + gaps[i] + tail
    ensures Layout(ts[i..], gaps[i..]) == s
  {
    assert ts[i..][1..] == ts[i + 1..] && gaps[i..][1..] == gaps[i + 1..];
  }

  function MemberTokens(k: string): seq<Token>
  {
    [CurlyOpen, Quotes, Label(k), Quotes, Colon, Quotes, Quotes, CurlyClose]
  }

  function NoGaps(): seq<string>
  {
    ["", "", "", "", "", "", "", ""]
  }

  lemma MemberSpaced(k: string)
    requires Letters(k)
    ensures Spaced(MemberTokens(k), NoGaps())
  {
    var ts, gaps := MemberTokens(k), NoGaps();
    forall i | 0 <= i < |ts| ensures SpacedAt(ts, gaps, i) {}
  }

  lemma MemberLayout(k: string)
    ensures Layout(MemberTokens(k), NoGaps()) == "{" + ("\"" + (k + ("\"" + (":" + ("\"" + ("\"" + "}"))))))
  {
    var ts, gaps := MemberTokens(k), NoGaps();
    assert Layout(ts[8..], gaps[8..]) == "";
    var t7 := "}";
    LayoutText(ts, gaps, 7, "", t7);
    var t6 := "\"" + t7;
    LayoutText(ts, gaps, 6, t7, t6);
    var t5 := "\"" + t6;
    LayoutText(ts, gaps, 5, t6, t5);
    var t4 := ":" + t5;
    LayoutText(ts, gaps, 4, t5, t4);
    var t3 := "\"" + t4;
    LayoutText(ts, gaps, 3, t4, t3);
    var t2 := k + t3;
    LayoutText(ts, gaps, 2, t3, t2);
    var t1 := "\"" + t2;
    LayoutText(ts, gaps, 1, t2, t1);
    LayoutText(ts, gaps, 0, t1, "{" + t1);
    assert ts[0..] == ts && gaps[0..] == gaps;
  }

  /**
   * `{"k":""}`, as in the third test with k = pairs: the key is one LABEL
   * between QUOTES, and the empty string two QUOTES.
   */
  lemma EmptyMember(k: string)
    requires Letters(k)
    ensures Lex("{" + ("\"" + (k + ("\"" + (":" + ("\"" + ("\"" + "}"))))))) ==
            Ok([CurlyOpen, Quotes, Label(k), Quotes, Colon, Quotes, Quotes, CurlyClose])
  {
    MemberSpaced(k);
    MemberLayout(k);
    LexLayout(MemberTokens(k), NoGaps());
  }

  function NumberTokens(k: string): seq<Token>
  {
    [CurlyOpen, Quotes, Label(k), Quotes, Colon, CurlyClose]
  }

  function NumberGaps(g: string, d: string, n: string): seq<string>
  {
    [g, "", d, "", n, ""]
  }

  lemma NumberSpaced(k: string, g: string, d: string, n: string)
    requires Letters(k) && Passed(g) && Passed(d) && Passed(n)
    ensures Spaced(NumberTokens(k), NumberGaps(g, d, n))
  {
    var ts, gaps := NumberTokens(k), NumberGaps(g, d, n);
    forall i | 0 <= i < |ts| ensures SpacedAt(ts, gaps, i) {}
  }

  lemma NumberLayout(k: string, g: string, d: string, n: string)
    ensures Layout(NumberTokens(k), NumberGaps(g, d, n)) == "{" + (g + ("\"" + (k + (d + ("\"" + (":" + (n + "}")))))))
  {
    var ts, gaps := NumberTokens(k), NumberGaps(g, d, n);
    assert Layout(ts[6..], gaps[6..]) == "";
    var t5 := "}";
    LayoutText(ts, gaps, 5, "", t5);
    var t4 := ":" + (n + t5);
    LayoutText(ts, gaps, 4, t5, t4);
    var t3 := "\"" + t4;
    LayoutText(ts, gaps, 3, t4, t3);
    var t2 := k + (d + t3);
    LayoutText(ts, gaps, 2, t3, t2);
    var t1 := "\"" + t2;
    LayoutText(ts, gaps, 1, t2, t1);
    LayoutText(ts, gaps, 0, t1, "{" + (g + t1));
    assert ts[0..] == ts && gaps[0..] == gaps;
  }

  /**
   * `{ "kd": n }`, as in the fourth test with k = x, d = 0 and n = 123: the
   * LABEL stops at the first character that is no lower-case letter, and
   * digits and spaces are passed over, so neither d nor n yields a token.
   */
  lemma NumberMember(k: string, g: string, d: string, n: string)
    requires Letters(k) && Passed(g) && Passed(d) && Passed(n)
    ensures Lex("{" + (g + ("\"" + (k + (d + ("\"" + (":" + (n + "}")))))))) ==
            Ok([CurlyOpen, Quotes, Label(k), Quotes, Colon, CurlyClose])
  {
    NumberSpaced(k, g, d, n);
    NumberLayout(k, g, d, n);
    LexLayout(NumberTokens(k), NumberGaps(g, d, n));
  }

  /** The fourth test's input is NumberMember's text for k = x, d = 0 and n = 123 between spaces. */
  lemma NumberMemberText()
    ensures Passed(" ") && Passed("0") && Passed(" 123 ")
    ensures "{" + (" " + ("\"" + ("x" + ("0" + ("\"" + (":" + (" 123 " + "}"))))))) == "{ \"x0\": 123 }"
  {
  }

  /** The fourth test's input: `x` is the LABEL, the `0` and the `123` are passed over. */
  lemma NumberMemberTest()
    ensures Lex("{ \"x0\": 123 }") == Ok([CurlyOpen, Quotes, Label("x"), Quotes, Colon, CurlyClose])
  {
    assert Letters("x");
    NumberMemberText();
    NumberMember("x", " ", "0", " 123 ");
  }

  /** The third test's input is EmptyMember's text for k = pairs. */
  lemma EmptyMemberText()
    ensures Letters("pairs")
    ensures "{" + ("\"" + ("pairs" + ("\"" + (":" + ("\"" + ("\"" + "}")))))) == "{\"pairs\":\"\"}"
  {
  }

  /** The third test's input, read as the test expects. */
  lemma EmptyMemberTest()
    ensures Lex("{\"pairs\":\"\"}") == Ok([CurlyOpen, Quotes, Label("pairs"), Quotes, Colon, Quotes, Quotes, CurlyClose])
  {
    EmptyMemberText();
    EmptyMember("pairs");
  }

  /** A key that ends the input is a LABEL that runs into the end: `{"k` throws. */
  lemma KeyAtEnd(k: string)
    requires Letters(k)
    ensures Lex("{" + ("\"" + k)) == Err(LabelAtEnd)
  {
    var ts, gaps := [CurlyOpen, Quotes], ["", ""];
    assert Spaced(ts, gaps) by {
      assert SpacedAt(ts, gaps, 0) && SpacedAt(ts, gaps, 1);
    }
    LabelAtEndThrows(ts, gaps, k);
    assert Layout(ts[2..], gaps[2..]) == "";
    LayoutText(ts, gaps, 1, "", "\"");
    LayoutText(ts, gaps, 0, "\"", "{" + "\"");
    assert ts[0..] == ts && gaps[0..] == gaps;
  }
}
