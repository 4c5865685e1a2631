/**
 * The inputs of part2/json-parser/tokenizer.test.ts, read by the word
 * tokenizer whatever isNumber is.
 */
module WordTokenizerExamples {
  import opened Wrappers
  import L = JsonTokenizer
  import opened WordTokenizer

  /** `[]` is an opening and a closing bracket. */
  lemma Brackets(isNumber: string -> bool, s: string)
    requires s == "[]"
    ensures Lex(isNumber, s) == Ok([L.Token(L.BracketOpen, "["), L.Token(L.BracketClose, "]")])
  {
    var t0, t1 := L.Token(L.BracketOpen, "["), L.Token(L.BracketClose, "]");
    var e: string := [];
    assert Lex(isNumber, e) == Ok([]);
    assert s == L.Source(t0) + (L.Source(t1) + e);
    LexToken(isNumber, t1, e);
    assert [t1] + [] == [t1];
    LexToken(isNumber, t0, L.Source(t1) + e);
    assert [t0] + [t1] == [t0, t1];
  }

  /** `{}` is an opening and a closing brace. */
  lemma Braces(isNumber: string -> bool, s: string)
    requires s == "{}"
    ensures Lex(isNumber, s) == Ok([L.Token(L.CurlyOpen, "{"), L.Token(L.CurlyClose, "}")])
  {
    var t0, t1 := L.Token(L.CurlyOpen, "{"), L.Token(L.CurlyClose, "}");
    var e: string := [];
    assert Lex(isNumber, e) == Ok([]);
    assert s == L.Source(t0) + (L.Source(t1) + e);
    LexToken(isNumber, t1, e);
    assert [t1] + [] == [t1];
    LexToken(isNumber, t0, L.Source(t1) + e);
    assert [t0] + [t1] == [t0, t1];
  }

  /** Tokens written back as text with nothing between them. */
  function Joined(ts: seq<L.Token>): string
  {
    if ts == [] then "" else L.Source(ts[0]) + Joined(ts[1..])
  }

  /** Punctuation and strings need no white space between them. */
  lemma {:induction false} LexJoined(isNumber: string -> bool, ts: seq<L.Token>)
    requires forall i :: 0 <= i < |ts| ==> Emittable(isNumber, ts[i]) && !IsWordKind(ts[i].kind)
    ensures Lex(isNumber, Joined(ts)) == Ok(ts)
  {
    if ts != [] {
      assert Emittable(isNumber, ts[0]);
      LexToken(isNumber, ts[0], Joined(ts[1..]));
      LexJoined(isNumber, ts[1..]);
      assert [ts[0]] + ts[1..] == ts;
    }
  }

  predicate QuoteFree(v: string)
  {
    forall i :: 0 <= i < |v| ==> v[i] != '"'
  }

  function Quote(w: string): string
  {
    "\"" + w + "\""
  }

  /**
   * `{"k":"v"}`, as in the third test with k = key and v = value: the
   * STRING values are the texts between the quotes, without the closing quote.
   */
  lemma KeyValue(isNumber: string -> bool, k: string, v: string)
    requires QuoteFree(k) && QuoteFree(v)
    ensures Lex(isNumber, "{" + (Quote(k) + (":" + (Quote(v) + "}"))))
         == Ok([L.Token(L.CurlyOpen, "{"), L.Token(L.String, k), L.Token(L.Colon, ":"),
                L.Token(L.String, v), L.Token(L.CurlyClose, "}")])
  {
    var ts := [L.Token(L.CurlyOpen, "{"), L.Token(L.String, k), L.Token(L.Colon, ":"),
               L.Token(L.String, v), L.Token(L.CurlyClose, "}")];
    LexJoined(isNumber, ts);
    KeyValueText(ts, k, v);
  }

  lemma KeyValueText(ts: seq<L.Token>, k: string, v: string)
    requires ts == [L.Token(L.CurlyOpen, "{"), L.Token(L.String, k), L.Token(L.Colon, ":"),
                    L.Token(L.String, v), L.Token(L.CurlyClose, "}")]
    ensures Joined(ts) == "{" + (Quote(k) + (":" + (Quote(v) + "}")))
  {
    JoinedStep(ts, 4, "");
    JoinedStep(ts, 3, "}");
    JoinedStep(ts, 2, Quote(v) + "}");
    JoinedStep(ts, 1, ":" + (Quote(v) + "}"));
    JoinedStep(ts, 0, Quote(k) + (":" + (Quote(v) + "}")));
    assert ts[0..] == ts;
  }

  lemma JoinedStep(ts: seq<L.Token>, i: nat, tail: string)
    requires i < |ts| && Joined(ts[i + 1..]) == tail
    ensures Joined(ts[i..]) == L.Source(ts[i]) + tail
  {
    assert ts[i..][1..] == ts[i + 1..];
  }
}
