/**
 * The tokenizer of part2/json-parser: the same cursor loop as the one of
 * part2/parser for punctuation, strings and white space, but values are
 * read as words (`/[\d\w]/` characters, each possibly followed by one '.')
 * and a word is a NUMBER when `Number(value)` is not NaN, else one of the
 * keywords true, false and null.
 *
 * `Number(value)` is float parsing, which is not modelled: the tokenizer
 * takes `isNumber` as a parameter and every property holds whatever it is.
 * The token and error types are those of JsonTokenizer, which this source
 * declares identically.
 */
module WordTokenizer {
  import opened Wrappers
  import opened Text
  import L = JsonTokenizer

  /** One character of `/[\d\w]/`: an ASCII letter, digit or underscore. */
  predicate IsWord(c: char)
  {
    ('a' <= c <= 'z') || ('A' <= c <= 'Z') || IsDigit(c) || c == '_'
  }

  /**
   * Where the word starting at i stops: a word character, then one '.' if
   * one follows it, again and again, up to a character that is not a word
   * character. None when the word reaches the end of s:
   * `/[\d\w]/.test(undefined)` holds, so the source appends "undefined" on
   * every turn until the engine refuses the string's length.
   */
  function WordEnd(s: string, i: nat): (r: Option<nat>)
    requires i <= |s|
    ensures r.Some? ==> i <= r.value < |s| && !IsWord(s[r.value])
    decreases |s| - i
  {
    if i == |s| then None
    else if !IsWord(s[i]) then Some(i)
    else WordEnd(s, if i + 1 < |s| && s[i + 1] == '.' then i + 2 else i + 1)
  }

  /** The token a word becomes, or the error thrown for it, in the order the source tests. */
  function Classify(isNumber: string -> bool, value: string): (r: Result<L.Token, L.Error>)
    ensures r.Ok? ==> r.value.value == value
    ensures r.Err? ==> r.error == L.UnexpectedValue(value)
  {
    if isNumber(value) then Ok(L.Token(L.Number, value))
    else if value == "true" then Ok(L.Token(L.True, value))
    else if value == "false" then Ok(L.Token(L.False, value))
    else if value == "null" then Ok(L.Token(L.Null, value))
    else Err(L.UnexpectedValue(value))
  }

  /** The turn of the scan loop at the head of s. */
  function Step(isNumber: string -> bool, s: string): (r: Result<L.Turn, L.Error>)
    requires |s| > 0
    ensures r.Ok? ==> 0 < r.value.consumed <= |s| && |r.value.tokens| <= 1
  {
    var c := s[0];
    if L.Punctuation(c).Some? then Ok(L.Turn([L.Token(L.Punctuation(c).value, [c])], 1))
    else if c == '"' then
      match FindFirst(s[1..], {'"'})
      case None => Err(L.InvalidStringLength)
      case Some(k) => Ok(L.Turn([L.Token(L.String, s[1..k + 1])], k + 2))
    else if IsWord(c) then
      match WordEnd(s, 0)
      case None => Err(L.InvalidStringLength)
      case Some(n) =>
        match Classify(isNumber, s[..n])
        case Err(e) => Err(e)
        case Ok(t) => Ok(L.Turn([t], n))
    else if IsSpace(c) then Ok(L.Turn([], 1))
    else Err(L.UnexpectedCharacter(c))
  }

  /** The tokens of s, or the error of the first turn that throws. */
  function Lex(isNumber: string -> bool, s: string): Result<seq<L.Token>, L.Error>
    decreases |s|
  {
    if s == [] then Ok([])
    else
      match Step(isNumber, s)
      case Err(e) => Err(e)
      case Ok(turn) => L.Then(turn.tokens, Lex(isNumber, s[turn.consumed..]))
  }

  /** tokenize: the cursor loop. */
  method Tokenize(isNumber: string -> bool, input: string) returns (r: Result<seq<L.Token>, L.Error>)
    ensures r == Lex(isNumber, input)
  {
    var cursor := 0;
    var tokens: seq<L.Token> := [];
    L.ThenNothing(Lex(isNumber, input));
    while cursor < |input|
      invariant 0 <= cursor <= |input|
      invariant Lex(isNumber, input) == L.Then(tokens, Lex(isNumber, input[cursor..]))
      decreases |input| - cursor
    {
      var turn := ScanAt(isNumber, input, cursor);
      if turn.Err? {
        return Err(turn.error);
      }
      var next := cursor + turn.value.consumed;
      assert input[cursor..][turn.value.consumed..] == input[next..];
      L.ThenThen(tokens, turn.value.tokens, Lex(isNumber, input[next..]));
      tokens := tokens + turn.value.tokens;
      cursor := next;
    }
    assert input[cursor..] == [];
    assert tokens + [] == tokens;
    r := Ok(tokens);
  }

  /** The body of the cursor loop: the branch the character at the cursor selects. */
  method ScanAt(isNumber: string -> bool, input: string, cursor: nat) returns (r: Result<L.Turn, L.Error>)
    requires cursor < |input|
    ensures r == Step(isNumber, input[cursor..])
  {
    var character := input[cursor];
    ghost var rest := input[cursor..];
    assert rest[0] == character;
    if L.Punctuation(character).Some? {
      return Ok(L.Turn([L.Token(L.Punctuation(character).value, [character])], 1));
    }
    if character == '"' {
      var value, close := L.ReadString(input, cursor + 1);
      assert rest[1..] == input[cursor + 1..];
      if close == |input| {
        // past the end input[cursor] is undefined, never '"': the value grows until the engine throws
        return Err(L.InvalidStringLength);
      }
      assert rest[1..close - cursor] == value;
      return Ok(L.Turn([L.Token(L.String, value)], close + 1 - cursor));
    }
    if IsWord(character) {
      var value, end, ends := ReadWord(input, cursor);
      WordEndFrom(input, cursor, cursor);
      if !ends {
        return Err(L.InvalidStringLength);
      }
      assert rest[..end - cursor] == value;
      var t := Classify(isNumber, value);
      if t.Err? {
        return Err(t.error);
      }
      return Ok(L.Turn([t.value], end - cursor));
    }
    if IsSpace(character) {
      return Ok(L.Turn([], 1));
    }
    return Err(L.UnexpectedCharacter(character));
  }

  /**
   * The word loop: a word character, then a '.' if one follows, while the
   * character at the cursor is a word character. It ends only if a
   * character that is not one is met before the end of the input.
   */
  method ReadWord(input: string, start: nat) returns (value: string, cursor: nat, ends: bool)
    requires start < |input| && IsWord(input[start])
    ensures ends <==> WordEnd(input, start).Some?
    ensures ends ==> WordEnd(input, start) == Some(cursor) && value == input[start..cursor]
  {
    value := "";
    cursor := start;
    while cursor < |input| && IsWord(input[cursor])
      invariant start <= cursor <= |input|
      invariant value == input[start..cursor]
      invariant WordEnd(input, start) == WordEnd(input, cursor)
      decreases |input| - cursor
    {
      value := value + [input[cursor]];
      cursor := cursor + 1;
      if cursor < |input| && input[cursor] == '.' {
        value := value + ['.'];
        cursor := cursor + 1;
      }
    }
    // at the end of the input the test of undefined holds and the value grows until the engine throws
    ends := cursor < |input|;
  }

  /** The word loop reads the same on the input from d on as on the whole input. */
  lemma {:induction false} WordEndFrom(s: string, d: nat, i: nat)
    requires d <= i <= |s|
    ensures WordEnd(s, i).None? <==> WordEnd(s[d..], i - d).None?
    ensures WordEnd(s, i).Some? ==> WordEnd(s[d..], i - d) == Some(WordEnd(s, i).value - d)
    decreases |s| - i
  {
    if i < |s| {
      assert s[d..][i - d] == s[i];
      if IsWord(s[i]) {
        if i + 1 < |s| {
          assert s[d..][i - d + 1] == s[i + 1];
        }
        WordEndFrom(s, d, if i + 1 < |s| && s[i + 1] == '.' then i + 2 else i + 1);
      }
    }
  }

  // -----------------------------------------------------------------------
  // Properties of the scan.

  /** A word as the loop builds it: word characters, with a '.' only right after one. */
  predicate WordLexeme(v: string)
  {
    |v| > 0 && IsWord(v[0])
    && forall i :: 0 <= i < |v| ==> IsWord(v[i]) || (v[i] == '.' && 0 < i && IsWord(v[i - 1]))
  }

  /** A character that ends a word where it stands: neither a word character nor a '.'. */
  predicate EndsWord(c: char)
  {
    !IsWord(c) && c != '.'
  }

  /**
   * The word loop run from a word character of v stops right after v when a
   * character that ends a word follows, and never stops when nothing does.
   */
  lemma {:induction false} WordEndOf(v: string, rest: string, i: nat)
    requires WordLexeme(v) && (rest == [] || EndsWord(rest[0]))
    requires i <= |v| && (i < |v| ==> IsWord(v[i]))
    ensures WordEnd(v + rest, i) == if rest == [] then None else Some(|v|)
    decreases |v| - i
  {
    var s := v + rest;
    if i == |v| {
      if rest != [] {
        assert s[i] == rest[0];
      }
    } else {
      assert s[i] == v[i];
      var next := if i + 1 < |s| && s[i + 1] == '.' then i + 2 else i + 1;
      if i + 1 < |v| {
        assert s[i + 1] == v[i + 1];
        if v[i + 1] == '.' && i + 2 < |v| {
          assert s[i + 2] == v[i + 2];
        }
      } else if rest != [] {
        assert s[i + 1] == rest[0];
      }
      WordEndOf(v, rest, next);
    }
  }

  /** What the word loop reads is a word lexeme. */
  lemma {:induction false} WordEndLexeme(s: string, i: nat)
    requires i < |s| && IsWord(s[i]) && WordEnd(s, i).Some?
    ensures WordLexeme(s[i..WordEnd(s, i).value])
    decreases |s| - i
  {
    var end := WordEnd(s, i).value;
    var next := if i + 1 < |s| && s[i + 1] == '.' then i + 2 else i + 1;
    var v := s[i..end];
    if next < end {
      WordEndLexeme(s, next);
      var w := s[next..end];
      assert v == s[i..next] + w;
      forall j | 0 <= j < |v|
        ensures IsWord(v[j]) || (v[j] == '.' && 0 < j && IsWord(v[j - 1]))
      {
        if j >= next - i {
          assert v[j] == w[j - (next - i)];
          if j > next - i {
            assert v[j - 1] == w[j - 1 - (next - i)];
          }
        }
      }
    } else {
      assert end == next;
    }
  }

  /** The token types of words. */
  predicate IsWordKind(kind: L.TokenType)
  {
    kind == L.Number || kind == L.True || kind == L.False || kind == L.Null
  }

  /**
   * The tokens the scan can emit with a given isNumber: punctuation carrying
   * its own character, STRING without a quote inside, and words: NUMBER when
   * isNumber holds, else the keyword the word spells.
   */
  predicate Emittable(isNumber: string -> bool, t: L.Token)
  {
    match t.kind
    case String => forall i :: 0 <= i < |t.value| ==> t.value[i] != '"'
    case Number => WordLexeme(t.value) && isNumber(t.value)
    case True => t.value == "true" && !isNumber(t.value)
    case False => t.value == "false" && !isNumber(t.value)
    case Null => t.value == "null" && !isNumber(t.value)
    case _ => |t.value| == 1 && L.Punctuation(t.value[0]) == Some(t.kind)
  }

  /** Every token of a successful scan is emittable. */
  lemma {:induction false} LexEmittable(isNumber: string -> bool, s: string)
    requires Lex(isNumber, s).Ok?
    ensures forall t :: t in Lex(isNumber, s).value ==> Emittable(isNumber, t)
    decreases |s|
  {
    if s != [] {
      var turn := Step(isNumber, s).value;
      StepEmittable(isNumber, s);
      LexEmittable(isNumber, s[turn.consumed..]);
    }
  }

  lemma StepEmittable(isNumber: string -> bool, s: string)
    requires |s| > 0 && Step(isNumber, s).Ok?
    ensures forall t :: t in Step(isNumber, s).value.tokens ==> Emittable(isNumber, t)
  {
    var c := s[0];
    if L.Punctuation(c).None? && c != '"' && IsWord(c) {
      WordEndLexeme(s, 0);
      assert "true"[0] == 't' && "false"[0] == 'f' && "null"[0] == 'n';
    }
  }

  /** true, false and null are words the loop reads whole. */
  lemma KeywordsAreWords()
    ensures WordLexeme("true") && WordLexeme("false") && WordLexeme("null")
  {
    Letters("true");
    Letters("false");
    Letters("null");
  }

  lemma Letters(v: string)
    requires |v| > 0 && forall i :: 0 <= i < |v| ==> 'a' <= v[i] <= 'z'
    ensures WordLexeme(v)
  {
  }

  /**
   * An emittable token is read back as that token, when a word is followed
   * by a character that ends it.
   */
  lemma StepToken(isNumber: string -> bool, t: L.Token, rest: string)
    requires Emittable(isNumber, t)
    requires IsWordKind(t.kind) ==> rest != [] && EndsWord(rest[0])
    ensures |L.Source(t) + rest| > 0
    ensures Step(isNumber, L.Source(t) + rest) == Ok(L.Turn([t], |L.Source(t)|))
  {
    if t.kind == L.String {
      StepString(isNumber, t.value, rest);
    } else if IsWordKind(t.kind) {
      StepWord(isNumber, t, rest);
    } else {
      var s := L.Source(t) + rest;
      assert s[0] == t.value[0];
      assert t.value == [s[0]];
    }
  }

  lemma StepString(isNumber: string -> bool, v: string, rest: string)
    requires forall i :: 0 <= i < |v| ==> v[i] != '"'
    ensures Step(isNumber, "\"" + v + "\"" + rest) == Ok(L.Turn([L.Token(L.String, v)], |v| + 2))
  {
    var s := "\"" + v + "\"" + rest;
    assert s[0] == '"';
    assert s[1..] == v + ("\"" + rest);
    L.StringScan(s[1..], |v|);
    assert s[1..|v| + 1] == v;
  }

  lemma StepWord(isNumber: string -> bool, t: L.Token, rest: string)
    requires Emittable(isNumber, t) && IsWordKind(t.kind)
    requires rest != [] && EndsWord(rest[0])
    ensures Step(isNumber, t.value + rest) == Ok(L.Turn([t], |t.value|))
  {
    var v := t.value;
    if t.kind != L.Number {
      KeywordsAreWords();
    }
    var s := v + rest;
    assert s[0] == v[0];
    WordEndOf(v, rest, 0);
    assert s[..|v|] == v;
  }

  /** A white space character is no token and starts no lexeme. */
  lemma SpaceIsNothingElse(c: char)
    requires IsSpace(c)
    ensures L.Punctuation(c).None? && c != '"' && !IsWord(c) && EndsWord(c)
  {
  }

  /** White space produces nothing. */
  lemma {:induction false} LexSkipsSpace(isNumber: string -> bool, w: string, s: string)
    requires forall i :: 0 <= i < |w| ==> IsSpace(w[i])
    ensures Lex(isNumber, w + s) == Lex(isNumber, s)
    decreases |w|
  {
    if w != [] {
      var ws := w + s;
      assert ws[0] == w[0];
      SpaceIsNothingElse(w[0]);
      assert Step(isNumber, ws) == Ok(L.Turn([], 1));
      assert ws[1..] == w[1..] + s;
      L.ThenNothing(Lex(isNumber, ws[1..]));
      LexSkipsSpace(isNumber, w[1..], s);
    } else {
      assert w + s == s;
    }
  }

  /** The scan reads rendered tokens back: Render is a right inverse of Lex on emittable tokens. */
  lemma {:induction false} LexRender(isNumber: string -> bool, ts: seq<L.Token>)
    requires forall t :: t in ts ==> Emittable(isNumber, t)
    ensures Lex(isNumber, L.Render(ts)) == Ok(ts)
  {
    if ts != [] {
      var rest := L.Render(ts[1..]);
      assert L.Render(ts) == L.Source(ts[0]) + (" " + rest);
      LexToken(isNumber, ts[0], " " + rest);
      LexSkipsSpace(isNumber, " ", rest);
      LexRender(isNumber, ts[1..]);
      assert [ts[0]] + ts[1..] == ts;
    }
  }

  lemma LexToken(isNumber: string -> bool, t: L.Token, rest: string)
    requires Emittable(isNumber, t)
    requires IsWordKind(t.kind) ==> rest != [] && EndsWord(rest[0])
    ensures Lex(isNumber, L.Source(t) + rest) == L.Then([t], Lex(isNumber, rest))
  {
    var s := L.Source(t) + rest;
    StepToken(isNumber, t, rest);
    assert s[|L.Source(t)|..] == rest;
  }

  /**
   * A word that runs to the end of the input keeps the scan going past the end
   * (the pattern accepts the text "undefined"), until the value outgrows the
   * engine's string length limit.
   */
  lemma WordAtEnd(isNumber: string -> bool, v: string)
    requires WordLexeme(v)
    ensures Lex(isNumber, v) == Err(L.InvalidStringLength)
  {
    WordEndOf(v, [], 0);
    assert v + [] == v;
  }

  /** A sign, or any character that is no token, no quote, no word and no space, is refused. */
  lemma Refused(isNumber: string -> bool, c: char, s: string)
    requires L.Punctuation(c).None? && c != '"' && !IsWord(c) && !IsSpace(c)
    ensures Lex(isNumber, [c] + s) == Err(L.UnexpectedCharacter(c))
  {
    assert ([c] + s)[0] == c;
  }

  /** In particular '-' and '+' are refused: a negative number is no word. */
  lemma SignsRefused(isNumber: string -> bool, s: string)
    ensures Lex(isNumber, "-" + s) == Err(L.UnexpectedCharacter('-'))
    ensures Lex(isNumber, "+" + s) == Err(L.UnexpectedCharacter('+'))
  {
    Refused(isNumber, '-', s);
    Refused(isNumber, '+', s);
  }
}
