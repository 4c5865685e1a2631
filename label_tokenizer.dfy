/**
 * The tokenizer of part2/json-parser/parser.ts: brackets, braces, quotes and
 * colons become tokens without a payload, a run of lower-case letters
 * becomes one LABEL, and every other character is passed over.
 *
 * `Lex` is the specification, written over the rest of the input; the method
 * `Tokenize` is the cursor loop of the source, proved to compute it.
 */
module LabelTokenizer {
  import opened Wrappers

  /** The token types the source declares; COMMA, NUMBER and SPACE are never emitted. */
  datatype Token =
    | CurlyOpen | CurlyClose | BracketOpen | BracketClose | Quotes
    | Label(value: string)
    | Colon | Comma
    | Number(number: int)
    | Space

  /**
   * The one exception: a run of letters that reaches the end of the input
   * calls `.match` on the undefined past it, a TypeError.
   */
  datatype Error = LabelAtEnd

  predicate IsLower(c: char) { 'a' <= c <= 'z' }

  /** The token a character that is a token on its own becomes. */
  function Single(c: char): Option<Token>
  {
    if c == '[' then Some(BracketOpen)
    else if c == ']' then Some(BracketClose)
    else if c == '{' then Some(CurlyOpen)
    else if c == '}' then Some(CurlyClose)
    else if c == '"' then Some(Quotes)
    else if c == ':' then Some(Colon)
    else None
  }

  /** The length of the longest prefix of s made of lower-case letters. */
  function LowerRun(s: string): (n: nat)
    ensures n <= |s|
    ensures forall i :: 0 <= i < n ==> IsLower(s[i])
    ensures n < |s| ==> !IsLower(s[n])
  {
    if s == [] || !IsLower(s[0]) then 0 else 1 + LowerRun(s[1..])
  }

  /** Prepends the tokens already emitted to the outcome of the rest of the scan. */
  function Then(ts: seq<Token>, r: Result<seq<Token>, Error>): Result<seq<Token>, Error>
  {
    match r
    case Ok(rest) => Ok(ts + rest)
    case Err(e) => Err(e)
  }

  /** One turn of the scan loop: the tokens it emits (none or one) and the net advance of the cursor. */
  datatype Turn = Turn(tokens: seq<Token>, consumed: nat)

  /** The turn at the head of s. */
  function Step(s: string): (r: Result<Turn, Error>)
    requires |s| > 0
    ensures r.Ok? ==> 0 < r.value.consumed <= |s| && |r.value.tokens| <= 1
  {
    var c := s[0];
    if Single(c).Some? then Ok(Turn([Single(c).value], 1))
    else if IsLower(c) then
      var n := LowerRun(s);
      if n == |s| then Err(LabelAtEnd) else Ok(Turn([Label(s[..n])], n))
    else Ok(Turn([], 1))
  }

  /** The tokens of s, or the exception of the turn that throws. */
  function Lex(s: string): Result<seq<Token>, Error>
    decreases |s|
  {
    if s == [] then Ok([])
    else
      match Step(s)
      case Err(e) => Err(e)
      case Ok(turn) => Then(turn.tokens, Lex(s[turn.consumed..]))
  }

  /** tokenize: the cursor loop, with the label loop inside it. */
  method Tokenize(input: string) returns (r: Result<seq<Token>, Error>)
    ensures r == Lex(input)
  {
    var cursor := 0;
    var tokens: seq<Token> := [];
    ThenNothing(Lex(input));
    while cursor < |input|
      invariant 0 <= cursor <= |input|
      invariant Lex(input) == Then(tokens, Lex(input[cursor..]))
      decreases |input| - cursor
    {
      var character := input[cursor];
      ghost var at := cursor;
      var emitted: seq<Token>;
      var next: nat;
      if Single(character).Some? {
        emitted, next := [Single(character).value], cursor + 1;
      } else if IsLower(character) {
        var letters, end := ReadLabel(input, cursor);
        LabelStep(input, at, end);
        if end == |input| {
          // `input[cursor].match` on the undefined past the end throws
          return Err(LabelAtEnd);
        }
        cursor := end - 1;
        emitted, next := [Label(letters)], cursor + 1;
      } else {
        emitted, next := [], cursor + 1;
      }
      LexAdvance(input, at, emitted, next);
      ThenThen(tokens, emitted, Lex(input[next..]));
      tokens := tokens + emitted;
      cursor := next;
    }
    assert input[cursor..] == [];
    assert tokens + [] == tokens;
    r := Ok(tokens);
  }

  /** The turn at a letter: one LABEL up to the first non-letter, or the exception at the end. */
  lemma LabelStep(input: string, at: nat, end: nat)
    requires at < |input| && IsLower(input[at]) && end == at + LowerRun(input[at..])
    ensures Step(input[at..]) == if end == |input| then Err(LabelAtEnd) else Ok(Turn([Label(input[at..end])], end - at))
  {
    var rest := input[at..];
    assert rest[0] == input[at];
    assert rest[..end - at] == input[at..end];
  }

  /** A turn that emits some tokens and moves the cursor to next. */
  lemma LexAdvance(input: string, at: nat, emitted: seq<Token>, next: nat)
    requires at < next <= |input| && Step(input[at..]) == Ok(Turn(emitted, next - at))
    ensures Lex(input[at..]) == Then(emitted, Lex(input[next..]))
  {
    assert input[at..][next - at..] == input[next..];
  }

  /**
   * The label loop: the lower-case letters from start on; it stops at the
   * first other character, or at the end of the input.
   */
  method ReadLabel(input: string, start: nat) returns (letters: string, cursor: nat)
    requires start < |input| && IsLower(input[start])
    ensures cursor == start + LowerRun(input[start..]) && letters == input[start..cursor]
  {
    letters := "";
    cursor := start;
    while cursor < |input| && IsLower(input[cursor])
      invariant start <= cursor <= |input|
      invariant letters == input[start..cursor]
      invariant forall j :: start <= j < cursor ==> IsLower(input[j])
      decreases |input| - cursor
    {
      letters := letters + [input[cursor]];
      cursor := cursor + 1;
    }
    LowerRunOf(input[start..], cursor - start);
  }

  lemma ThenNothing(r: Result<seq<Token>, Error>)
    ensures Then([], r) == r
  {
    if r.Ok? {
      assert [] + r.value == r.value;
    }
  }

  lemma ThenThen(a: seq<Token>, b: seq<Token>, r: Result<seq<Token>, Error>)
    ensures Then(a, Then(b, r)) == Then(a + b, r)
  {
    if r.Ok? {
      assert a + (b + r.value) == (a + b) + r.value;
    }
  }

  /** A run of n letters followed by a non-letter (or nothing) has LowerRun n. */
  lemma {:induction false} LowerRunOf(s: string, n: nat)
    requires n <= |s|
    requires forall j :: 0 <= j < n ==> IsLower(s[j])
    requires n < |s| ==> !IsLower(s[n])
    ensures LowerRun(s) == n
    decreases n
  {
    if n > 0 {
      LowerRunOf(s[1..], n - 1);
    }
  }

  // -----------------------------------------------------------------------
  // Properties of the scan.

  /** A character the loop passes over: no token on its own and no letter. */
  predicate Ignored(c: char)
  {
    Single(c).None? && !IsLower(c)
  }

  /**
   * The tokens the scan can emit: the six without a payload, and LABEL with
   * a run of lower-case letters; never COMMA, NUMBER or SPACE.
   */
  predicate Emittable(t: Token)
  {
    match t
    case Label(v) => |v| > 0 && forall i :: 0 <= i < |v| ==> IsLower(v[i])
    case Comma => false
    case Number(_) => false
    case Space => false
    case _ => true
  }

  /** The text a token is read from. */
  function Source(t: Token): string
  {
    match t
    case CurlyOpen => "{"
    case CurlyClose => "}"
    case BracketOpen => "["
    case BracketClose => "]"
    case Quotes => "\""
    case Colon => ":"
    case Label(v) => v
    case _ => ""
  }

  /** Only characters the loop passes over. */
  predicate Passed(w: string)
  {
    forall i :: 0 <= i < |w| ==> Ignored(w[i])
  }

  /** Tokens written back as text, each followed by its gap. */
  function Layout(ts: seq<Token>, gaps: seq<string>): string
    requires |ts| == |gaps|
  {
    if ts == [] then "" else Source(ts[0]) + (gaps[0] + Layout(ts[1..], gaps[1..]))
  }

  /**
   * Emittable tokens with gaps the loop passes over, where no LABEL runs
   * into the end of the text or into the next LABEL.
   */
  predicate Spaced(ts: seq<Token>, gaps: seq<string>)
  {
    |ts| == |gaps| && forall i :: 0 <= i < |ts| ==> SpacedAt(ts, gaps, i)
  }

  predicate SpacedAt(ts: seq<Token>, gaps: seq<string>, i: nat)
    requires i < |ts| == |gaps|
  {
    Emittable(ts[i]) && Passed(gaps[i]) &&
    (ts[i].Label? ==> gaps[i] != [] || (i + 1 < |ts| && !ts[i + 1].Label?))
  }

  /** Every token of a successful scan is emittable. */
  lemma {:induction false} LexEmittable(s: string)
    requires Lex(s).Ok?
    ensures forall t :: t in Lex(s).value ==> Emittable(t)
    decreases |s|
  {
    if s != [] {
      var turn := Step(s).value;
      LexEmittable(s[turn.consumed..]);
    }
  }

  /** A run of letters followed by a non-letter is read as one LABEL. */
  lemma LexLabel(v: string, rest: string)
    requires |v| > 0 && forall i :: 0 <= i < |v| ==> IsLower(v[i])
    requires rest != [] && !IsLower(rest[0])
    ensures Lex(v + rest) == Then([Label(v)], Lex(rest))
  {
    var s := v + rest;
    assert forall i :: 0 <= i < |v| ==> s[i] == v[i];
    assert s[|v|] == rest[0];
    LowerRunOf(s, |v|);
    assert s[..|v|] == v;
    assert s[|v|..] == rest;
    assert Step(s) == Ok(Turn([Label(v)], |v|));
  }

  /** A character that is a token on its own is read as that token. */
  lemma LexSingle(c: char, rest: string)
    requires Single(c).Some?
    ensures Lex([c] + rest) == Then([Single(c).value], Lex(rest))
  {
    var s := [c] + rest;
    assert s[0] == c && s[1..] == rest;
  }

  /** An emittable token is read back as itself, a LABEL when no letter follows it. */
  lemma LexToken(t: Token, rest: string)
    requires Emittable(t)
    requires t.Label? ==> rest != [] && !IsLower(rest[0])
    ensures Lex(Source(t) + rest) == Then([t], Lex(rest))
  {
    if t.Label? {
      LexLabel(t.value, rest);
    } else {
      SingleSource(t);
      LexSingle(Source(t)[0], rest);
    }
  }

  /** A token without a payload is the one character it is read from. */
  lemma SingleSource(t: Token)
    requires Emittable(t) && !t.Label?
    ensures Source(t) == [Source(t)[0]] && Single(Source(t)[0]) == Some(t)
  {
  }

  /** Characters the loop passes over produce nothing. */
  lemma {:induction false} LexIgnores(w: string, s: string)
    requires forall i :: 0 <= i < |w| ==> Ignored(w[i])
    ensures Lex(w + s) == Lex(s)
    decreases |w|
  {
    if w != [] {
      var ws := w + s;
      assert ws[0] == w[0];
      assert ws[1..] == w[1..] + s;
      ThenNothing(Lex(ws[1..]));
      LexIgnores(w[1..], s);
    } else {
      assert w + s == s;
    }
  }

  /** A layout that starts with a token other than LABEL starts with no letter. */
  lemma LayoutHead(ts: seq<Token>, gaps: seq<string>, rest: string)
    requires |ts| == |gaps| && |ts| > 0 && Emittable(ts[0]) && !ts[0].Label?
    ensures var s := Layout(ts, gaps) + rest; s != [] && !IsLower(s[0])
  {
    var s := Layout(ts, gaps) + rest;
    assert s == Source(ts[0]) + (gaps[0] + Layout(ts[1..], gaps[1..]) + rest);
    assert s[0] == Source(ts[0])[0];
  }

  /** One token of a layout, then the rest of it. */
  lemma LayoutStep(ts: seq<Token>, gaps: seq<string>, rest: string)
    requires Spaced(ts, gaps) && |ts| > 0
    ensures Spaced(ts[1..], gaps[1..])
    ensures Lex(Layout(ts, gaps) + rest) == Then([ts[0]], Lex(Layout(ts[1..], gaps[1..]) + rest))
  {
    assert SpacedAt(ts, gaps, 0);
    assert Spaced(ts[1..], gaps[1..]) by {
      forall i | 0 <= i < |ts| - 1
        ensures SpacedAt(ts[1..], gaps[1..], i)
      {
        assert SpacedAt(ts, gaps, i + 1);
        assert i + 2 < |ts| ==> ts[1..][i + 1] == ts[i + 2];
      }
    }
    var tail := Layout(ts[1..], gaps[1..]) + rest;
    assert Layout(ts, gaps) + rest == Source(ts[0]) + (gaps[0] + tail);
    if ts[0].Label? && gaps[0] == [] {
      assert SpacedAt(ts, gaps, 1);
      LayoutHead(ts[1..], gaps[1..], rest);
    }
    if ts[0].Label? && gaps[0] != [] {
      assert (gaps[0] + tail)[0] == gaps[0][0];
    }
    LexToken(ts[0], gaps[0] + tail);
    LexIgnores(gaps[0], tail);
  }

  /** Laid-out tokens are read back, whatever text follows them. */
  lemma {:induction false} LexLayoutThen(ts: seq<Token>, gaps: seq<string>, rest: string)
    requires Spaced(ts, gaps)
    ensures Lex(Layout(ts, gaps) + rest) == Then(ts, Lex(rest))
  {
    if ts == [] {
      ThenNothing(Lex(rest));
      assert Layout(ts, gaps) + rest == rest;
    } else {
      LayoutStep(ts, gaps, rest);
      LexLayoutThen(ts[1..], gaps[1..], rest);
      ThenThen([ts[0]], ts[1..], Lex(rest));
      assert [ts[0]] + ts[1..] == ts;
    }
  }

  /**
   * The scan reads laid-out tokens back: Layout is a right inverse of Lex,
   * whatever the gaps hold, as long as they are passed over.
   */
  lemma LexLayout(ts: seq<Token>, gaps: seq<string>)
    requires Spaced(ts, gaps)
    ensures Lex(Layout(ts, gaps)) == Ok(ts)
  {
    LexLayoutThen(ts, gaps, "");
    assert Layout(ts, gaps) + "" == Layout(ts, gaps);
    assert ts + [] == ts;
  }

  /** A run of letters that reaches the end of the input throws. */
  lemma LexLetters(w: string)
    requires |w| > 0 && forall i :: 0 <= i < |w| ==> IsLower(w[i])
    ensures Lex(w) == Err(LabelAtEnd)
  {
    LowerRunOf(w, |w|);
    assert Step(w) == Err(LabelAtEnd);
  }

  /** A run of letters at the very end of the input throws, whatever came before it. */
  lemma LabelAtEndThrows(ts: seq<Token>, gaps: seq<string>, w: string)
    requires Spaced(ts, gaps)
    requires |w| > 0 && forall i :: 0 <= i < |w| ==> IsLower(w[i])
    ensures Lex(Layout(ts, gaps) + w) == Err(LabelAtEnd)
  {
    LexLayoutThen(ts, gaps, w);
    LexLetters(w);
  }
}
