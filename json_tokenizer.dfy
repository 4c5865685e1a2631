/**
 * The tokenizer of part2/parser: one pass of a cursor over the text that
 * emits the six punctuation tokens, STRING tokens (no escapes) and NUMBER
 * tokens, skips white space and throws on anything else.
 *
 * `Lex` is the specification, written over the rest of the input; the method
 * `Tokenize` is the cursor loop of the source, proved to compute it.
 */
module JsonTokenizer {
  import opened Wrappers
  import opened Text

  datatype TokenType =
    | CurlyOpen | CurlyClose | BracketOpen | BracketClose | Colon | Comma
    | Number | Null | String | True | False

  datatype Token = Token(kind: TokenType, value: string)

  /**
   * The exceptions tokenize throws. `InvalidStringLength` is the RangeError the
   * engine throws when a scan that has run past the end of the input has
   * appended "undefined" to its value until the string is longer than the
   * engine allows.
   */
  datatype Error =
    | UnexpectedValue(value: string)         // 'Unexpected value: ' + value
    | UnexpectedCharacter(character: char)   // 'Unexpected character: ' + character
    | InvalidStringLength                    // an unterminated string: RangeError, Invalid string length

  /** The characters that are tokens on their own. */
  function Punctuation(c: char): Option<TokenType>
  {
    if c == '[' then Some(BracketOpen)
    else if c == ']' then Some(BracketClose)
    else if c == '{' then Some(CurlyOpen)
    else if c == '}' then Some(CurlyClose)
    else if c == ':' then Some(Colon)
    else if c == ',' then Some(Comma)
    else None
  }

  predicate IsSign(c: char) { c == '-' || c == '+' }

  /** The characters that send the scan into the number branch. */
  predicate StartsNumber(c: char) { IsSign(c) || c == '.' || IsDigit(c) }

  /** The characters the number loop consumes: one-character inputs the unanchored regex accepts, and '.'. */
  predicate InRun(c: char) { IsDigit(c) || c == '.' }

  /** The length of the longest prefix of s made of digits and dots. */
  function RunLength(s: string): (n: nat)
    ensures n <= |s|
    ensures forall i :: 0 <= i < n ==> InRun(s[i])
    ensures n < |s| ==> !InRun(s[n])
  {
    if s == [] || !InRun(s[0]) then 0 else 1 + RunLength(s[1..])
  }

  /** The number lexeme at the head of s: a sign, taken only when a digit follows, then the run. */
  function LexemeLength(s: string): (n: nat)
    requires |s| > 0
    ensures n <= |s|
  {
    if IsSign(s[0]) && 1 < |s| && IsDigit(s[1]) then 1 + RunLength(s[1..]) else RunLength(s)
  }

  function StripSign(s: string): (r: string)
    ensures |r| <= |s|
  {
    if |s| > 0 && IsSign(s[0]) then s[1..] else s
  }

  /** `(\d*\.)?\d+` matching the whole of m. */
  predicate Decimal(m: string)
  {
    match FindFirst(m, {'.'})
    case None => |m| > 0 && AllDigits(m)
    case Some(k) => AllDigits(m[..k]) && k + 1 < |m| && AllDigits(m[k + 1..])
  }

  /** isValidNumber: `^[-+]?(\d*\.)?\d+([eE][-+]?\d+)?$`. */
  predicate ValidNumber(v: string)
  {
    var u := StripSign(v);
    match FindFirst(u, {'e', 'E'})
    case None => Decimal(u)
    case Some(j) => Decimal(u[..j]) && |StripSign(u[j + 1..])| > 0 && AllDigits(StripSign(u[j + 1..]))
  }

  /** The token a number lexeme becomes, or the error thrown for it. */
  function Classify(value: string): (r: Result<Token, Error>)
    ensures r.Ok? ==> |value| > 0 && r.value.value == value
    ensures r.Err? ==> r.error == UnexpectedValue(value)
  {
    if ValidNumber(value) then
      Ok(Token(Number, value))
    else if value == "true" then Ok(Token(True, value))
    else if value == "false" then Ok(Token(False, value))
    else if value == "null" then Ok(Token(Null, value))
    else Err(UnexpectedValue(value))
  }

  /** Prepends the tokens already emitted to the outcome of the rest of the scan. */
  function Then(ts: seq<Token>, r: Result<seq<Token>, Error>): Result<seq<Token>, Error>
  {
    match r
    case Ok(rest) => Ok(ts + rest)
    case Err(e) => Err(e)
  }

  /** One turn of the scan loop: the tokens it emits (none or one) and the characters it consumes. */
  datatype Turn = Turn(tokens: seq<Token>, consumed: nat)

  /** The turn at the head of s, in the order the source's branches test. */
  function Step(s: string): (r: Result<Turn, Error>)
    requires |s| > 0
    ensures r.Ok? ==> 0 < r.value.consumed <= |s| && |r.value.tokens| <= 1
  {
    var c := s[0];
    if Punctuation(c).Some? then Ok(Turn([Token(Punctuation(c).value, [c])], 1))
    else if c == '"' then StringTurn(s)
    else if c == '\n' then Ok(Turn([], 1))
    else if StartsNumber(c) then NumberTurn(s)
    else if IsSpace(c) then Ok(Turn([], 1))
    else Err(UnexpectedCharacter(c))
  }

  /** The string branch: the characters after the opening quote up to the next quote. */
  function StringTurn(s: string): (r: Result<Turn, Error>)
    requires |s| > 0
    ensures r.Ok? ==> 2 <= r.value.consumed <= |s| && |r.value.tokens| == 1
  {
    match FindFirst(s[1..], {'"'})
    case None => Err(InvalidStringLength)
    case Some(k) => Ok(Turn([Token(String, s[1..k + 1])], k + 2))
  }

  /** The number branch: the lexeme at the head of s, classified. */
  function NumberTurn(s: string): (r: Result<Turn, Error>)
    requires |s| > 0
    ensures r.Ok? ==> 0 < r.value.consumed <= |s| && |r.value.tokens| == 1
  {
    var n := LexemeLength(s);
    match Classify(s[..n])
    case Err(e) => Err(e)
    case Ok(t) => Ok(Turn([t], n))
  }

  /** The tokens of s, or the error of the first turn that throws. */
  function Lex(s: string): Result<seq<Token>, Error>
    decreases |s|
  {
    if s == [] then Ok([])
    else
      match Step(s)
      case Err(e) => Err(e)
      case Ok(turn) => Then(turn.tokens, Lex(s[turn.consumed..]))
  }

  lemma ThenThen(a: seq<Token>, b: seq<Token>, r: Result<seq<Token>, Error>)
    ensures Then(a, Then(b, r)) == Then(a + b, r)
  {
    if r.Ok? {
      assert a + (b + r.value) == (a + b) + r.value;
    }
  }

  /** tokenize: the cursor loop. */
  method Tokenize(input: string) returns (r: Result<seq<Token>, Error>)
    ensures r == Lex(input)
  {
    var cursor := 0;
    var tokens: seq<Token> := [];
    ThenNothing(Lex(input));
    while cursor < |input|
      invariant 0 <= cursor <= |input|
      invariant Lex(input) == Then(tokens, Lex(input[cursor..]))
      decreases |input| - cursor
    {
      var turn := ScanAt(input, cursor);
      if turn.Err? {
        return Err(turn.error);
      }
      var next := cursor + turn.value.consumed;
      assert input[cursor..][turn.value.consumed..] == input[next..];
      ThenThen(tokens, turn.value.tokens, Lex(input[next..]));
      tokens := tokens + turn.value.tokens;
      cursor := next;
    }
    assert input[cursor..] == [];
    assert tokens + [] == tokens;
    r := Ok(tokens);
  }

  /** The body of the cursor loop: the branch the character at the cursor selects. */
  method ScanAt(input: string, cursor: nat) returns (r: Result<Turn, Error>)
    requires cursor < |input|
    ensures r == Step(input[cursor..])
  {
    var character := input[cursor];
    ghost var rest := input[cursor..];
    assert rest[0] == character;
    if Punctuation(character).Some? {
      return Ok(Turn([Token(Punctuation(character).value, [character])], 1));
    }
    if character == '"' {
      r := ScanString(input, cursor);
      return;
    }
    if character == '\n' {
      return Ok(Turn([], 1));
    }
    if StartsNumber(character) {
      r := ScanNumber(input, cursor);
      return;
    }
    if IsSpace(character) {
      return Ok(Turn([], 1));
    }
    return Err(UnexpectedCharacter(character));
  }

  /** The string branch of the loop body, with the cursor on the opening quote. */
  method ScanString(input: string, cursor: nat) returns (r: Result<Turn, Error>)
    requires cursor < |input|
    ensures r == StringTurn(input[cursor..])
  {
    ghost var rest := input[cursor..];
    var value, close := ReadString(input, cursor + 1);
    assert rest[1..] == input[cursor + 1..];
    if close == |input| {
      // past the end input[cursor] is undefined, never '"': the value grows until the engine throws
      return Err(InvalidStringLength);
    }
    assert rest[1..close - cursor] == value;
    return Ok(Turn([Token(String, value)], close + 1 - cursor));
  }

  /** The number branch of the loop body: read the lexeme, then classify it. */
  method ScanNumber(input: string, cursor: nat) returns (r: Result<Turn, Error>)
    requires cursor < |input| && StartsNumber(input[cursor])
    ensures r == NumberTurn(input[cursor..])
  {
    ghost var rest := input[cursor..];
    var value, end := ReadNumber(input, cursor);
    assert rest[..end - cursor] == value;
    var t := Classify(value);
    if t.Err? {
      return Err(t.error);
    }
    return Ok(Turn([t.value], end - cursor));
  }

  lemma ThenNothing(r: Result<seq<Token>, Error>)
    ensures Then([], r) == r
  {
    if r.Ok? {
      assert [] + r.value == r.value;
    }
  }

  /** The string loop: every character up to the next quote, or to the end of the input. */
  method ReadString(input: string, start: nat) returns (value: string, cursor: nat)
    requires start <= |input|
    ensures start <= cursor <= |input| && value == input[start..cursor]
    ensures cursor == |input| ==> FindFirst(input[start..], {'"'}) == None
    ensures cursor < |input| ==> FindFirst(input[start..], {'"'}) == Some(cursor - start)
  {
    cursor := start;
    value := "";
    while cursor < |input| && input[cursor] != '"'
      invariant start <= cursor <= |input|
      invariant value == input[start..cursor]
      invariant forall j :: start <= j < cursor ==> input[j] != '"'
      decreases |input| - cursor
    {
      value := value + [input[cursor]];
      cursor := cursor + 1;
    }
    StringScan(input[start..], cursor - start);
  }

  /** The number branch: an optional sign before a digit, then digits and dots. */
  method ReadNumber(input: string, start: nat) returns (value: string, cursor: nat)
    requires start < |input| && StartsNumber(input[start])
    ensures cursor == start + LexemeLength(input[start..]) <= |input|
    ensures value == input[start..cursor]
  {
    value := "";
    cursor := start;
    var character := input[cursor];
    if IsSign(character) && cursor + 1 < |input| && IsDigit(input[cursor + 1]) {
      value := value + [character];
      cursor := cursor + 1;
      character := input[cursor];
    }
    var runStart := cursor;
    while cursor < |input| && InRun(input[cursor])
      invariant runStart <= cursor <= |input|
      invariant value == input[start..cursor]
      invariant forall j :: runStart <= j < cursor ==> InRun(input[j])
      decreases |input| - cursor
    {
      value := value + [input[cursor]];
      cursor := cursor + 1;
    }
    NumberScan(input[start..], runStart - start, cursor - start);
  }

  /** The string scan stops at the first quote. */
  lemma StringScan(s: string, k: nat)
    requires k <= |s|
    requires forall j :: 0 <= j < k ==> s[j] != '"'
    requires k < |s| ==> s[k] == '"'
    ensures k == |s| ==> FindFirst(s, {'"'}) == None
    ensures k < |s| ==> FindFirst(s, {'"'}) == Some(k)
  {
  }

  /** The number scan stops at the end of the lexeme LexemeLength measures. */
  lemma NumberScan(rest: string, sign: nat, end: nat)
    requires |rest| > 0 && StartsNumber(rest[0])
    requires sign == (if IsSign(rest[0]) && 1 < |rest| && IsDigit(rest[1]) then 1 else 0)
    requires sign <= end <= |rest|
    requires forall j :: sign <= j < end ==> InRun(rest[j])
    requires end < |rest| ==> !InRun(rest[end])
    ensures LexemeLength(rest) == end
  {
    RunLengthOf(rest[sign..], end - sign);
  }

  /** A run of length n followed by a non-run character (or nothing) has RunLength n. */
  lemma {:induction false} RunLengthOf(s: string, n: nat)
    requires n <= |s|
    requires forall j :: 0 <= j < n ==> InRun(s[j])
    requires n < |s| ==> !InRun(s[n])
    ensures RunLength(s) == n
    decreases n
  {
    if n > 0 {
      RunLengthOf(s[1..], n - 1);
    }
  }

  // -----------------------------------------------------------------------
  // Properties of the scan.

  /** A NUMBER lexeme as the scan builds it: a sign only before a digit, then digits and dots. */
  predicate NumberLexeme(v: string)
  {
    |v| > 0 && ValidNumber(v)
    && (IsSign(v[0]) ==> |v| > 1 && IsDigit(v[1]))
    && forall i :: (if IsSign(v[0]) then 1 else 0) <= i < |v| ==> InRun(v[i])
  }

  /** Digits, a dot and digits: a NUMBER lexeme. */
  lemma DecimalLexeme(a: string, b: string)
    requires |a| > 0 && |b| > 0 && AllDigits(a) && AllDigits(b)
    ensures NumberLexeme(a + "." + b)
  {
    var v := a + "." + b;
    assert v[|a|] == '.';
    assert forall j :: 0 <= j < |v| ==> (j == |a| || IsDigit(v[j])) by {
      forall j | 0 <= j < |v|
        ensures j == |a| || IsDigit(v[j])
      {
        if j < |a| {
          assert v[j] == a[j];
        } else if j > |a| {
          assert v[j] == b[j - |a| - 1];
        }
      }
    }
    assert FindFirst(v, {'e', 'E'}) == None;
    assert FindFirst(v, {'.'}) == Some(|a|);
    assert v[..|a|] == a && v[|a| + 1..] == b;
  }

  /**
   * The tokens the scan can emit: punctuation carrying its own character,
   * STRING without a quote inside, NUMBER lexemes; never TRUE, FALSE or NULL.
   */
  predicate Emittable(t: Token)
  {
    match t.kind
    case String => forall i :: 0 <= i < |t.value| ==> t.value[i] != '"'
    case Number => NumberLexeme(t.value)
    case True => false
    case False => false
    case Null => false
    case _ => |t.value| == 1 && Punctuation(t.value[0]) == Some(t.kind)
  }

  /** The text a token is read from. */
  function Source(t: Token): string
  {
    if t.kind == String then "\"" + t.value + "\"" else t.value
  }

  /** Tokens written back as text, each followed by a space. */
  function Render(ts: seq<Token>): string
  {
    if ts == [] then "" else Source(ts[0]) + " " + Render(ts[1..])
  }

  /** Every token of a successful scan is emittable: in particular TRUE, FALSE and NULL never appear. */
  lemma {:induction false} LexEmittable(s: string)
    requires Lex(s).Ok?
    ensures forall t :: t in Lex(s).value ==> Emittable(t)
    decreases |s|
  {
    if s != [] {
      var turn := Step(s).value;
      StepEmittable(s);
      LexEmittable(s[turn.consumed..]);
    }
  }

  lemma StepEmittable(s: string)
    requires |s| > 0 && Step(s).Ok?
    ensures forall t :: t in Step(s).value.tokens ==> Emittable(t)
  {
    var c := s[0];
    if Punctuation(c).None? && c != '"' && c != '\n' && StartsNumber(c) {
      ScanEmittable(s);
    }
  }

  /** A lexeme the number branch accepts is a NUMBER token the scan can emit. */
  lemma ScanEmittable(s: string)
    requires |s| > 0 && StartsNumber(s[0]) && Classify(s[..LexemeLength(s)]).Ok?
    ensures var v := s[..LexemeLength(s)];
            Classify(v) == Ok(Token(Number, v)) && NumberLexeme(v)
  {
    var v := s[..LexemeLength(s)];
    ScanShape(s);
    NoKeyword(v);
  }

  /** The lexeme of the number branch: a sign only before a digit, then digits and dots. */
  lemma ScanShape(s: string)
    requires |s| > 0 && StartsNumber(s[0]) && LexemeLength(s) > 0
    ensures var v := s[..LexemeLength(s)];
            v[0] == s[0] && StartsNumber(v[0])
            && (IsSign(v[0]) ==> |v| > 1 && IsDigit(v[1]))
            && forall i :: (if IsSign(v[0]) then 1 else 0) <= i < |v| ==> InRun(v[i])
  {
    var c := s[0];
    var n := LexemeLength(s);
    var v := s[..n];
    if IsSign(c) && 1 < |s| && IsDigit(s[1]) {
      assert v[1] == s[1];
      forall i | 1 <= i < |v|
        ensures InRun(v[i])
      {
        assert v[i] == s[1..][i - 1];
      }
    } else {
      assert !IsSign(c);
    }
  }

  /** A lexeme that starts like a number is none of the words true, false and null. */
  lemma NoKeyword(v: string)
    requires |v| > 0 && StartsNumber(v[0])
    ensures v != "true" && v != "false" && v != "null"
  {
    assert "true"[0] == 't' && "false"[0] == 'f' && "null"[0] == 'n';
  }

  /** A run that ends where the text stops being digits and dots. */
  lemma RunLengthAppend(v: string, rest: string)
    requires forall i :: 0 <= i < |v| ==> InRun(v[i])
    requires rest == [] || !InRun(rest[0])
    ensures RunLength(v + rest) == |v|
  {
    var s := v + rest;
    if |v| < |s| {
      assert s[|v|] == rest[0];
    }
    RunLengthOf(s, |v|);
  }

  /** An emittable token followed by text that does not extend it is read back as that token. */
  lemma LexToken(t: Token, rest: string)
    requires Emittable(t)
    requires t.kind == Number ==> rest == [] || !InRun(rest[0])
    ensures Lex(Source(t) + rest) == Then([t], Lex(rest))
  {
    var s := Source(t) + rest;
    StepToken(t, rest);
    assert s[|Source(t)|..] == rest;
  }

  lemma StepToken(t: Token, rest: string)
    requires Emittable(t)
    requires t.kind == Number ==> rest == [] || !InRun(rest[0])
    ensures |Source(t) + rest| > 0
    ensures Step(Source(t) + rest) == Ok(Turn([t], |Source(t)|))
  {
    if t.kind == String {
      StepString(t.value, rest);
      assert Source(t) + rest == "\"" + t.value + "\"" + rest;
    } else if t.kind == Number {
      StepNumber(t.value, rest);
    } else {
      var s := Source(t) + rest;
      assert s[0] == t.value[0];
      assert t.value == [s[0]];
    }
  }

  lemma StepString(v: string, rest: string)
    requires forall i :: 0 <= i < |v| ==> v[i] != '"'
    ensures Step("\"" + v + "\"" + rest) == Ok(Turn([Token(String, v)], |v| + 2))
  {
    var s := "\"" + v + "\"" + rest;
    assert s[0] == '"';
    assert s[1..] == v + ("\"" + rest);
    StringScan(s[1..], |v|);
    assert s[1..|v| + 1] == v;
  }

  lemma StepNumber(v: string, rest: string)
    requires NumberLexeme(v)
    requires rest == [] || !InRun(rest[0])
    ensures Step(v + rest) == Ok(Turn([Token(Number, v)], |v|))
  {
    var s := v + rest;
    NumberLength(v, rest);
    var c := s[0];
    NumberStart(c);
    var n := LexemeLength(s);
    assert s[..n] == v;
    assert Classify(v) == Ok(Token(Number, v));
  }

  /** A character that starts a number is no punctuation, quote or line break. */
  lemma NumberStart(c: char)
    requires StartsNumber(c)
    ensures Punctuation(c).None? && c != '"' && c != '\n'
  {
  }

  /** The number lexeme at the head of v + rest is v. */
  lemma NumberLength(v: string, rest: string)
    requires NumberLexeme(v)
    requires rest == [] || !InRun(rest[0])
    ensures StartsNumber((v + rest)[0]) && LexemeLength(v + rest) == |v| && (v + rest)[..|v|] == v
  {
    var s := v + rest;
    assert s[0] == v[0];
    if IsSign(v[0]) {
      assert s[1] == v[1];
      assert s[1..] == v[1..] + rest;
      RunLengthAppend(v[1..], rest);
    } else {
      RunLengthAppend(v, rest);
    }
    assert s[..|v|] == v;
  }

  /** A white space character is no token and starts no lexeme. */
  lemma SpaceIsNothingElse(c: char)
    requires IsSpace(c)
    ensures Punctuation(c).None? && c != '"' && !StartsNumber(c)
  {
  }

  /** White space produces nothing. */
  lemma {:induction false} LexSkipsSpace(w: string, s: string)
    requires forall i :: 0 <= i < |w| ==> IsSpace(w[i])
    ensures Lex(w + s) == Lex(s)
    decreases |w|
  {
    if w != [] {
      var ws := w + s;
      assert ws[0] == w[0];
      SpaceIsNothingElse(w[0]);
      assert Step(ws) == Ok(Turn([], 1));
      assert ws[1..] == w[1..] + s;
      ThenNothing(Lex(ws[1..]));
      LexSkipsSpace(w[1..], s);
    } else {
      assert w + s == s;
    }
  }

  /** The scan reads rendered tokens back: Render is a right inverse of Lex on emittable tokens. */
  lemma {:induction false} LexRender(ts: seq<Token>)
    requires forall t :: t in ts ==> Emittable(t)
    ensures Lex(Render(ts)) == Ok(ts)
  {
    if ts != [] {
      var rest := Render(ts[1..]);
      assert Render(ts) == Source(ts[0]) + (" " + rest);
      LexToken(ts[0], " " + rest);
      LexSkipsSpace(" ", rest);
      LexRender(ts[1..]);
      assert [ts[0]] + ts[1..] == ts;
    }
  }

  /** Tokens written back as text with the white space gaps[k] after the k-th. */
  function Layout(ts: seq<Token>, gaps: seq<string>): string
    requires |gaps| == |ts|
  {
    if ts == [] then "" else Source(ts[0]) + gaps[0] + Layout(ts[1..], gaps[1..])
  }

  /** Gaps made of white space, with at least one character between two NUMBER tokens. */
  predicate Spaced(ts: seq<Token>, gaps: seq<string>)
  {
    |gaps| == |ts|
    && (forall k, i :: 0 <= k < |gaps| && 0 <= i < |gaps[k]| ==> IsSpace(gaps[k][i]))
    && (forall k :: 0 <= k < |ts| - 1 && ts[k].kind == Number && ts[k + 1].kind == Number ==> gaps[k] != [])
  }

  /** The text of an emittable token other than a NUMBER starts with a character no number run takes. */
  lemma SourceStart(t: Token)
    requires Emittable(t) && t.kind != Number
    ensures |Source(t)| > 0 && !InRun(Source(t)[0])
  {
  }

  /** The scan ignores layout: tokens laid out with any spacing are read back. */
  lemma {:induction false} LexLayout(ts: seq<Token>, gaps: seq<string>)
    requires forall t :: t in ts ==> Emittable(t)
    requires Spaced(ts, gaps)
    ensures Lex(Layout(ts, gaps)) == Ok(ts)
  {
    if ts != [] {
      var rest := Layout(ts[1..], gaps[1..]);
      LayoutCons(ts, gaps);
      LayoutHead(ts, gaps);
      LexSpaced(ts[0], gaps[0], rest);
      SpacedTail(ts, gaps);
      assert forall t :: t in ts[1..] ==> t in ts;
      LexLayout(ts[1..], gaps[1..]);
      assert [ts[0]] + ts[1..] == ts;
    }
  }

  /** A token and the white space after it: the token, then whatever the rest reads as. */
  lemma LexSpaced(t: Token, gap: string, rest: string)
    requires Emittable(t) && forall i :: 0 <= i < |gap| ==> IsSpace(gap[i])
    requires t.kind == Number ==> gap + rest == [] || !InRun((gap + rest)[0])
    ensures Lex(Source(t) + (gap + rest)) == Then([t], Lex(rest))
  {
    LexToken(t, gap + rest);
    LexSkipsSpace(gap, rest);
  }

  lemma LayoutCons(ts: seq<Token>, gaps: seq<string>)
    requires ts != [] && |gaps| == |ts|
    ensures Layout(ts, gaps) == Source(ts[0]) + (gaps[0] + Layout(ts[1..], gaps[1..]))
  {
    var head, gap, tail := Source(ts[0]), gaps[0], Layout(ts[1..], gaps[1..]);
    assert Layout(ts, gaps) == (head + gap) + tail;
    ConcatAssoc(head, gap, tail);
  }

  lemma ConcatAssoc(a: string, b: string, c: string)
    ensures (a + b) + c == a + (b + c)
  {
  }

  /** What follows the first token of a layout does not extend it. */
  lemma LayoutHead(ts: seq<Token>, gaps: seq<string>)
    requires ts != [] && (forall t :: t in ts ==> Emittable(t)) && Spaced(ts, gaps)
    ensures Emittable(ts[0])
    ensures forall i :: 0 <= i < |gaps[0]| ==> IsSpace(gaps[0][i])
    ensures ts[0].kind == Number ==>
              var after := gaps[0] + Layout(ts[1..], gaps[1..]); after == [] || !InRun(after[0])
  {
    assert ts[0] in ts;
    assert forall i :: 0 <= i < |gaps[0]| ==> IsSpace(gaps[0][i]);
    if ts[0].kind == Number {
      var rest := Layout(ts[1..], gaps[1..]);
      if gaps[0] != [] {
        assert (gaps[0] + rest)[0] == gaps[0][0];
      } else if ts[1..] != [] {
        assert ts[1] in ts;
        FirstOfNext(ts, gaps);
        assert gaps[0] + rest == rest;
      }
    }
  }

  /** With no gap after a NUMBER, the next token follows it directly and is no NUMBER. */
  lemma FirstOfNext(ts: seq<Token>, gaps: seq<string>)
    requires |ts| > 1 && Emittable(ts[1]) && Spaced(ts, gaps) && gaps[0] == [] && ts[0].kind == Number
    ensures |Layout(ts[1..], gaps[1..])| > 0 && !InRun(Layout(ts[1..], gaps[1..])[0])
  {
    var tail := Layout(ts[2..], gaps[2..]);
    assert ts[1..][1..] == ts[2..] && gaps[1..][1..] == gaps[2..];
    assert Layout(ts[1..], gaps[1..]) == Source(ts[1]) + (gaps[1] + tail);
    SourceStart(ts[1]);
  }

  /** Dropping the first token keeps the gaps spaced. */
  lemma SpacedTail(ts: seq<Token>, gaps: seq<string>)
    requires ts != [] && Spaced(ts, gaps)
    ensures Spaced(ts[1..], gaps[1..])
  {
    forall k, i | 0 <= k < |gaps[1..]| && 0 <= i < |gaps[1..][k]|
      ensures IsSpace(gaps[1..][k][i])
    {
      assert gaps[1..][k] == gaps[k + 1];
    }
  }

  /** Scanning is idempotent up to layout: rendering a scan's tokens and scanning again gives them back. */
  lemma LexNormalizes(s: string)
    requires Lex(s).Ok?
    ensures Lex(Render(Lex(s).value)) == Lex(s)
  {
    LexEmittable(s);
    LexRender(Lex(s).value);
  }
}
