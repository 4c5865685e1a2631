/**
 * The ast function of part2/parser/json-parser.ts as it is written: a parser
 * object holding the token list and the shared `current` index, whose
 * parseValue, parseObject and parseArray move `current` through `advance`.
 * Each method is proved to return what the functions of JsonParserSpec
 * compute, and to leave `current` on the last token of the value it read.
 */
module JsonParser {
  import opened Wrappers
  import L = JsonTokenizer
  import opened JsonParserSpec
  import JsonValue

  /** An outcome of a parse method together with where it left `current`. */
  function Settled(r: Result<Node, Error>, at: nat): Result<Parsed, Error>
  {
    match r
    case Ok(n) => Ok(Parsed(n, at))
    case Err(e) => Err(e)
  }

  class Parser {
    const tokens: seq<L.Token>
    var current: nat

    /** `let current = 0` over the token list ast was given. */
    constructor (tokens: seq<L.Token>)
      ensures this.tokens == tokens && current == 0
    {
      this.tokens := tokens;
      current := 0;
    }

    /** `tokens[i]`: undefined past the last token. */
    function At(i: nat): (t: Option<L.Token>)
      ensures t.Some? <==> i < |tokens|
      ensures t.Some? ==> t.value == tokens[i]
    {
      if i < |tokens| then Some(tokens[i]) else None
    }

    /** advance: `tokens[++current]`. */
    method Advance() returns (token: Option<L.Token>)
      modifies this
      ensures current == old(current) + 1 && token == At(current)
    {
      current := current + 1;
      token := At(current);
    }

    /** parseValue: a scalar token is its own value, a bracket starts an object or an array. */
    method ParseValue() returns (r: Result<Node, Error>)
      requires current <= |tokens|
      modifies this
      ensures Settled(r, current) == ValueOf(tokens, old(current))
      decreases |tokens| - current, 2
    {
      if current == |tokens| {
        // `token.type` of the undefined past the last token
        return Err(OutOfTokens);
      }
      var token := tokens[current];
      match token.kind
      case String => r := Ok(String(token.value));
      case Number => r := Ok(Number(token.value));
      case True => r := Ok(Boolean(true));
      case False => r := Ok(Boolean(false));
      case Null => r := Ok(Null);
      case CurlyOpen => r := ParseObject();
      case BracketOpen => r := ParseArray();
      case _ => r := Err(UnexpectedTokenType(token.kind));
    }

    /**
     * parseObject: with `current` on the `{`, assign key after key until the
     * `}`; a key is a STRING, or the token after a COMMA whatever its type.
     */
    method ParseObject() returns (r: Result<Node, Error>)
      requires current < |tokens| && tokens[current].kind == L.CurlyOpen
      modifies this
      ensures Settled(r, current) == MembersOf(tokens, old(current) + 1, [])
      decreases |tokens| - current, 1
    {
      ghost var start := current + 1;
      var members: seq<Member> := [];
      var token := Advance(); // the `{`
      while token.None? || token.value.kind != L.CurlyClose
        invariant start <= current <= |tokens| && token == At(current)
        invariant MembersOf(tokens, start, []) == MembersOf(tokens, current, members)
        decreases |tokens| - current
      {
        if token.None? {
          return Err(OutOfTokens);
        }
        var member;
        member, token := ParseMember();
        if member.Err? {
          return Err(member.error);
        }
        members := Assign(members, member.value.0, member.value.1);
      }
      return Ok(Object(members));
    }

    /**
     * The body of the parseObject loop, with `current` on a token other than
     * `}`: the key, the COLON, the value, and the token after the value,
     * skipped if it is a COLON; `token` is where the loop tests again.
     */
    method ParseMember() returns (r: Result<(string, Node), Error>, token: Option<L.Token>)
      requires current < |tokens| && tokens[current].kind != L.CurlyClose
      modifies this
      ensures match MemberOf(tokens, old(current))
              case Err(e) => r == Err(e)
              case Ok(m) => r == Ok((m.key, m.node)) && current == m.next && token == At(current)
      decreases |tokens| - current, 0
    {
      ghost var at := current;
      token := At(current);
      var key: string;
      if token.value.kind == L.String {
        key := token.value.value;
        token := Advance(); // the key
      } else if token.value.kind == L.Comma {
        token := Advance(); // the COMMA
        if token.None? {
          return Err(OutOfTokens), token;
        }
        key := token.value.value;
        token := Advance(); // the key
      } else {
        return Err(ExpectedStringKey(token.value.kind)), token;
      }
      if token.None? {
        return Err(OutOfTokens), token;
      }
      if token.value.kind != L.Colon {
        return Err(ExpectedColon), token;
      }
      token := Advance(); // the COLON
      var value := ParseValue();
      if value.Err? {
        return Err(value.error), token;
      }
      token := Advance(); // the value
      if token.None? {
        return Err(OutOfTokens), token;
      }
      if token.value.kind == L.Colon {
        token := Advance();
      }
      r := Ok((key, value.value));
    }

    /** parseArray: with `current` on the `[`, push value after value until the `]`. */
    method ParseArray() returns (r: Result<Node, Error>)
      requires current < |tokens| && tokens[current].kind == L.BracketOpen
      modifies this
      ensures Settled(r, current) == ElementsOf(tokens, old(current) + 1, [])
      decreases |tokens| - current, 1
    {
      ghost var start := current + 1;
      var elements: seq<Node> := [];
      var token := Advance(); // the `[`
      while token.None? || token.value.kind != L.BracketClose
        invariant start <= current <= |tokens| && token == At(current)
        invariant ElementsOf(tokens, start, []) == ElementsOf(tokens, current, elements)
        decreases |tokens| - current
      {
        if token.None? {
          return Err(OutOfTokens);
        }
        ghost var at := current;
        var value := ParseValue();
        if value.Err? {
          return Err(value.error);
        }
        ghost var last := current;
        ghost var before := elements;
        elements := elements + [value.value];
        token := Advance(); // the value
        if token.None? {
          return Err(OutOfTokens);
        }
        if token.value.kind == L.Comma {
          token := Advance();
        }
        ElementsStep(tokens, at, before, value.value, last, current);
      }
      return Ok(Array(elements));
    }
  }

  /** ast: refuse an empty token list, otherwise parse the first value. */
  method BuildAst(tokens: seq<L.Token>) returns (r: Result<Node, Error>)
    ensures r == Ast(tokens)
  {
    if |tokens| == 0 {
      return Err(NothingToParse);
    }
    var parser := new Parser(tokens);
    r := parser.ParseValue();
  }

  /** parse: tokenize, build the tree and turn it into a plain value. */
  method Parse(input: string) returns (r: Result<JsonValue.JsValue, Error>)
    ensures r == JsonValue.Parse(input)
  {
    var tokens := L.Tokenize(input);
    if tokens.Err? {
      return Err(Lexical(tokens.error));
    }
    var tree := BuildAst(tokens.value);
    if tree.Err? {
      return Err(tree.error);
    }
    return Ok(JsonValue.ToObject(tree.value));
  }
}
