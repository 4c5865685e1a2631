/**
 * Worked inputs for the tokenizer and parser of part2/parser: the input of the
 * parser's own test, and token lists showing how parseObject treats repeated
 * keys, a key after a COMMA and a COLON after a value.
 */
module JsonParserExamples {
  import opened Wrappers
  import opened Text
  import L = JsonTokenizer
  import opened JsonParserSpec
  import opened JsonValue

  /** `{ pairs: [{ x0: v }] }` as the parser builds it. */
  function PairsNode(v: string): Node
  {
    Object([Member("pairs", Array([Object([Member("x0", Number(v))])]))])
  }

  function PairsTokens(v: string): seq<L.Token>
  {
    [L.Token(L.CurlyOpen, "{"), L.Token(L.String, "pairs"), L.Token(L.Colon, ":"),
     L.Token(L.BracketOpen, "["), L.Token(L.CurlyOpen, "{"), L.Token(L.String, "x0"),
     L.Token(L.Colon, ":"), L.Token(L.Number, v), L.Token(L.CurlyClose, "}"),
     L.Token(L.BracketClose, "]"), L.Token(L.CurlyClose, "}")]
  }

  /** The spacing of the test input. */
  function PairsGaps(): seq<string>
  {
    [" ", "", " ", " ", " ", "", " ", " ", "", "  ", ""]
  }

  /** The text of the test input, token by token with its spacing, x0 being v. */
  function PairsText(v: string): string
  {
    "{ " + ("\"pairs\"" + (": " + ("[ " + ("{ " + ("\"x0\"" + (": " + ((v + " ") + ("}" + ("]  " + "}")))))))))
  }

  lemma PairsEmit(v: string)
    ensures Emit(PairsNode(v)) == PairsTokens(v)
  {
    var x0 := [Member("x0", Number(v))];
    assert EmitMembers(x0[1..], true) == [];
    assert EmitMembers(x0, false) == [L.Token(L.String, "x0"), Punct(L.Colon, ':'), L.Token(L.Number, v)];
    var inner := Object(x0);
    assert Emit(inner) == [Punct(L.CurlyOpen, '{'), L.Token(L.String, "x0"), Punct(L.Colon, ':'), L.Token(L.Number, v), Punct(L.CurlyClose, '}')];
    var es := [inner];
    assert EmitElements(es[1..]) == [] && Sep(es) == [];
    assert EmitElements(es) == Emit(inner);
    var pairs := [Member("pairs", Array(es))];
    assert EmitMembers(pairs[1..], true) == [];
    assert EmitMembers(pairs, false) == [L.Token(L.String, "pairs"), Punct(L.Colon, ':')] + Emit(Array(es));
  }

  /** The test input from its k-th token on: the pieces of PairsText(v) from the k-th. */
  function PairsSuffix(v: string, k: nat): string
  {
    if k == 0 then PairsText(v)
    else if k == 1 then "\"pairs\"" + (": " + ("[ " + ("{ " + ("\"x0\"" + (": " + ((v + " ") + ("}" + ("]  " + "}"))))))))
    else if k == 2 then ": " + ("[ " + ("{ " + ("\"x0\"" + (": " + ((v + " ") + ("}" + ("]  " + "}")))))))
    else if k == 3 then "[ " + ("{ " + ("\"x0\"" + (": " + ((v + " ") + ("}" + ("]  " + "}"))))))
    else if k == 4 then "{ " + ("\"x0\"" + (": " + ((v + " ") + ("}" + ("]  " + "}")))))
    else if k == 5 then "\"x0\"" + (": " + ((v + " ") + ("}" + ("]  " + "}"))))
    else if k == 6 then ": " + ((v + " ") + ("}" + ("]  " + "}")))
    else if k == 7 then (v + " ") + ("}" + ("]  " + "}"))
    else if k == 8 then "}" + ("]  " + "}")
    else if k == 9 then "]  " + "}"
    else if k == 10 then "}"
    else ""
  }

  /** One more token of a layout, read from the back. */
  lemma LayoutFrom(ts: seq<L.Token>, gaps: seq<string>, k: nat, piece: string, tail: string)
    requires k < |ts| == |gaps|
    requires L.Layout(ts[k + 1..], gaps[k + 1..]) == tail
    requires piece == L.Source(ts[k]) + gaps[k]
    ensures L.Layout(ts[k..], gaps[k..]) == piece + tail
  {
    assert ts[k..][1..] == ts[k + 1..] && gaps[k..][1..] == gaps[k + 1..];
  }

  /** The k-th token of the test input with the space after it is the k-th piece of its text. */
  lemma PairsStep(v: string, k: nat, piece: string)
    requires k < 11 && piece == L.Source(PairsTokens(v)[k]) + PairsGaps()[k]
    requires PairsSuffix(v, k) == piece + PairsSuffix(v, k + 1)
    requires L.Layout(PairsTokens(v)[k + 1..], PairsGaps()[k + 1..]) == PairsSuffix(v, k + 1)
    ensures L.Layout(PairsTokens(v)[k..], PairsGaps()[k..]) == PairsSuffix(v, k)
  {
    LayoutFrom(PairsTokens(v), PairsGaps(), k, piece, PairsSuffix(v, k + 1));
  }

  lemma PairsLayout10(v: string)
    ensures L.Layout(PairsTokens(v)[10..], PairsGaps()[10..]) == PairsSuffix(v, 10)
  {
    assert L.Layout(PairsTokens(v)[11..], PairsGaps()[11..]) == "";
    PairsStep(v, 10, "}");
  }

  lemma PairsLayout9(v: string)
    ensures L.Layout(PairsTokens(v)[9..], PairsGaps()[9..]) == PairsSuffix(v, 9)
  {
    PairsLayout10(v);
    PairsStep(v, 9, "]  ");
  }

  lemma PairsLayout8(v: string)
    ensures L.Layout(PairsTokens(v)[8..], PairsGaps()[8..]) == PairsSuffix(v, 8)
  {
    PairsLayout9(v);
    PairsStep(v, 8, "}");
  }

  lemma PairsLayout7(v: string)
    ensures L.Layout(PairsTokens(v)[7..], PairsGaps()[7..]) == PairsSuffix(v, 7)
  {
    PairsLayout8(v);
    PairsStep(v, 7, v + " ");
  }

  lemma PairsLayout6(v: string)
    ensures L.Layout(PairsTokens(v)[6..], PairsGaps()[6..]) == PairsSuffix(v, 6)
  {
    PairsLayout7(v);
    PairsStep(v, 6, ": ");
  }

  lemma PairsLayout5(v: string)
    ensures L.Layout(PairsTokens(v)[5..], PairsGaps()[5..]) == PairsSuffix(v, 5)
  {
    PairsLayout6(v);
    PairsStep(v, 5, "\"x0\"");
  }

  lemma PairsLayout4(v: string)
    ensures L.Layout(PairsTokens(v)[4..], PairsGaps()[4..]) == PairsSuffix(v, 4)
  {
    PairsLayout5(v);
    PairsStep(v, 4, "{ ");
  }

  lemma PairsLayout3(v: string)
    ensures L.Layout(PairsTokens(v)[3..], PairsGaps()[3..]) == PairsSuffix(v, 3)
  {
    PairsLayout4(v);
    PairsStep(v, 3, "[ ");
  }

  lemma PairsLayout2(v: string)
    ensures L.Layout(PairsTokens(v)[2..], PairsGaps()[2..]) == PairsSuffix(v, 2)
  {
    PairsLayout3(v);
    PairsStep(v, 2, ": ");
  }

  lemma PairsLayout1(v: string)
    ensures L.Layout(PairsTokens(v)[1..], PairsGaps()[1..]) == PairsSuffix(v, 1)
  {
    PairsLayout2(v);
    PairsStep(v, 1, "\"pairs\"");
  }

  /** The tokens of the test input laid out with its spacing are its text. */
  lemma PairsLayout(v: string)
    ensures L.Layout(PairsTokens(v), PairsGaps()) == PairsText(v)
  {
    PairsLayout1(v);
    PairsStep(v, 0, "{ ");
    assert PairsTokens(v)[0..] == PairsTokens(v) && PairsGaps()[0..] == PairsGaps();
  }

  lemma PairsWritable(v: string)
    requires L.NumberLexeme(v)
    ensures Writable(PairsNode(v)) && WellKeyed(PairsNode(v))
  {
    var x0 := [Member("x0", Number(v))];
    assert Writable(Object(x0)) && WellKeyed(Object(x0)) by {
      assert QuoteFree(x0[0].key);
    }
    var inner := [Object(x0)];
    assert Writable(Array(inner)) && WellKeyed(Array(inner));
    var pairs := [Member("pairs", Array(inner))];
    assert QuoteFree(pairs[0].key);
  }

  lemma PairsSpaced(v: string)
    ensures L.Spaced(PairsTokens(v), PairsGaps())
  {
  }

  lemma PairsValue(v: string)
    ensures ToObject(PairsNode(v)) == JsObject([Entry("pairs", JsArray([JsObject([Entry("x0", JsNumber(v))])]))])
  {
    var x0 := [Member("x0", Number(v))];
    assert ToEntries(x0) == [Entry("x0", JsNumber(v))] by {
      assert x0[1..] == [];
    }
    var inner := [Object(x0)];
    assert ToItems(inner) == [JsObject([Entry("x0", JsNumber(v))])] by {
      assert inner[1..] == [];
    }
    assert ToObject(Array(inner)) == JsArray([JsObject([Entry("x0", JsNumber(v))])]);
    var pairs := [Member("pairs", Array(inner))];
    assert ToEntries(pairs) == [Entry("pairs", ToObject(Array(inner)))] by {
      assert pairs[1..] == [];
    }
  }

  /** The input of the parser's test, with any NUMBER lexeme for x0, reads back as `{ pairs: [{ x0: v }] }`. */
  lemma ParsePairs(v: string)
    requires L.NumberLexeme(v)
    ensures Parse(PairsText(v)) == Ok(JsObject([Entry("pairs", JsArray([JsObject([Entry("x0", JsNumber(v))])]))]))
  {
    PairsEmit(v);
    PairsLayout(v);
    PairsWritable(v);
    PairsSpaced(v);
    ParseLayout(PairsNode(v), PairsGaps());
    PairsValue(v);
  }

  /** The NUMBER of the parser's test is a lexeme the scan emits. */
  lemma TestNumber()
    ensures L.NumberLexeme("2.888")
  {
    L.DecimalLexeme("2", "888");
    assert "2" + "." + "888" == "2.888";
  }

  /** The input of the parser's test is PairsText("2.888"). */
  lemma TestInput()
    ensures PairsText("2.888") == "{ \"pairs\": [ { \"x0\": 2.888 }]  }"
  {
  }

  function Tok(kind: L.TokenType, value: string): L.Token { L.Token(kind, value) }

  /**
   * An object of two NUMBER members: `{`, a STRING key, `:`, a NUMBER, the
   * token at 4, the second key (at 5, after a COMMA or a skipped COLON), `:`,
   * a NUMBER and `}`.
   */
  lemma TwoMembers(ts: seq<L.Token>, second: nat, key1: string, n1: string, key2: string, n2: string)
    requires |ts| == 9 && ts[0].kind == L.CurlyOpen && ts[1] == Tok(L.String, key1) && ts[2].kind == L.Colon
    requires ts[3] == Tok(L.Number, n1) && second == (if ts[4].kind == L.Colon then 5 else 4)
    requires ts[second].kind == L.String || ts[second].kind == L.Comma
    requires (if ts[second].kind == L.String then second else second + 1) == 5
    requires ts[5].value == key2 && ts[6].kind == L.Colon && ts[7] == Tok(L.Number, n2) && ts[8].kind == L.CurlyClose
    ensures Ast(ts) == Ok(Object(Assign([Member(key1, Number(n1))], key2, Number(n2))))
  {
    MembersStep(ts, 1, [], 1, key1, Number(n1), 3, second);
    assert Assign([], key1, Number(n1)) == [Member(key1, Number(n1))];
    MembersStep(ts, second, [Member(key1, Number(n1))], 5, key2, Number(n2), 7, 8);
  }

  /** A repeated key keeps its first place and takes the later value. */
  lemma DuplicateKey(ts: seq<L.Token>)
    requires ts == [Tok(L.CurlyOpen, "{"), Tok(L.String, "a"), Tok(L.Colon, ":"), Tok(L.Number, "1"), Tok(L.Comma, ","),
                  Tok(L.String, "a"), Tok(L.Colon, ":"), Tok(L.Number, "2"), Tok(L.CurlyClose, "}")]
    ensures Ast(ts) == Ok(Object([Member("a", Number("2"))]))
  {
    TwoMembers(ts, 4, "a", "1", "a", "2");
    assert Assign([Member("a", Number("1"))], "a", Number("2")) == [Member("a", Number("2"))];
  }

  /** After a COMMA the key is taken from the next token whatever its type. */
  lemma KeyAfterComma(ts: seq<L.Token>)
    requires ts == [Tok(L.CurlyOpen, "{"), Tok(L.String, "a"), Tok(L.Colon, ":"), Tok(L.Number, "1"), Tok(L.Comma, ","),
                  Tok(L.Number, "5"), Tok(L.Colon, ":"), Tok(L.Number, "2"), Tok(L.CurlyClose, "}")]
    ensures Ast(ts) == Ok(Object([Member("a", Number("1")), Member("5", Number("2"))]))
  {
    TwoMembers(ts, 4, "a", "1", "5", "2");
    NewSecondKey("a", "1", "5", "2");
  }

  /** A COLON after a member's value is skipped, and a STRING key needs no COMMA before it. */
  lemma ColonAfterValue(ts: seq<L.Token>)
    requires ts == [Tok(L.CurlyOpen, "{"), Tok(L.String, "a"), Tok(L.Colon, ":"), Tok(L.Number, "1"), Tok(L.Colon, ":"),
                  Tok(L.String, "b"), Tok(L.Colon, ":"), Tok(L.Number, "2"), Tok(L.CurlyClose, "}")]
    ensures Ast(ts) == Ok(Object([Member("a", Number("1")), Member("b", Number("2"))]))
  {
    TwoMembers(ts, 5, "a", "1", "b", "2");
    NewSecondKey("a", "1", "b", "2");
  }

  /** A second key other than the first is appended after it. */
  lemma NewSecondKey(key1: string, n1: string, key2: string, n2: string)
    requires key1 != key2
    ensures Assign([Member(key1, Number(n1))], key2, Number(n2)) == [Member(key1, Number(n1)), Member(key2, Number(n2))]
  {
    var one := [Member(key1, Number(n1))];
    assert Lookup(one, key2) == None;
    AssignPlace(one, key2, Number(n2));
    assert one + [Member(key2, Number(n2))] == [Member(key1, Number(n1)), Member(key2, Number(n2))];
  }

  /** An array without its closing bracket runs past the last token. */
  lemma UnclosedArray()
    ensures Ast([Tok(L.BracketOpen, "["), Tok(L.Number, "1")]) == Err(OutOfTokens)
  {
  }

  /** The scan has no branch for letters, so `true` is refused before parsing starts. */
  lemma ParseTrue()
    ensures Parse("true") == Err(Lexical(L.UnexpectedCharacter('t')))
  {
    assert !IsSpace('t') && !L.StartsNumber('t');
    assert L.Step("true") == Err(L.UnexpectedCharacter('t'));
  }

  lemma ParseNothing()
    ensures Parse(" ") == Err(NothingToParse)
  {
  }
}
