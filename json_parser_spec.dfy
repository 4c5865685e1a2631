/**
 * The recursive-descent parser of part2/parser/json-parser.ts as functions
 * over the tokens that remain: `ValueOf` is parseValue, `MembersOf` the loop
 * of parseObject and `ElementsOf` the loop of parseArray. Each returns the
 * node and the index of the value's last token, which is where the shared
 * `current` index is left.
 */
module JsonParserSpec {
  import opened Wrappers
  import L = JsonTokenizer

  datatype Node =
    | Object(members: seq<Member>)
    | Array(elements: seq<Node>)
    | String(text: string)
    | Number(lexeme: string)   // the NUMBER token's text; Number(...) float conversion is not modelled
    | Boolean(b: bool)
    | Null

  /** One key of an object node, in insertion order. */
  datatype Member = Member(key: string, value: Node)

  /** The exceptions ast throws. */
  datatype Error =
    | NothingToParse                          // 'Nothing to parse. Exiting!'
    | UnexpectedTokenType(kind: L.TokenType)  // `Unexpected token type: ${token.type}`
    | ExpectedColon                           // 'Expected : in key-value pair'
    | ExpectedStringKey(kind: L.TokenType)    // `Expected String key in object. Token type: ${token.type}`
    | OutOfTokens                             // a TypeError reading a field of the undefined past the last token
    | Lexical(error: L.Error)                 // thrown by tokenize

  /** A parsed value and the index of its last token, where `current` is left. */
  datatype Parsed = Parsed(node: Node, last: nat)

  /** The value stored under key, if any. */
  function Lookup(members: seq<Member>, key: string): Option<Node>
  {
    if members == [] then None
    else if members[0].key == key then Some(members[0].value)
    else Lookup(members[1..], key)
  }

  predicate DistinctKeys(members: seq<Member>)
  {
    forall i, j :: 0 <= i < j < |members| ==> members[i].key != members[j].key
  }

  /**
   * `node.value[key] = value`: a key already present keeps its place and
   * takes the new value, a new key is appended.
   */
  function Assign(members: seq<Member>, key: string, value: Node): (r: seq<Member>)
    ensures |r| == |members| || r == members + [Member(key, value)]
  {
    if members == [] then [Member(key, value)]
    else if members[0].key == key then [Member(key, value)] + members[1..]
    else [members[0]] + Assign(members[1..], key, value)
  }

  /** Later assignments win: the key reads the new value and every other key reads what it did. */
  lemma {:induction false} AssignLookup(members: seq<Member>, key: string, value: Node, other: string)
    ensures Lookup(Assign(members, key, value), key) == Some(value)
    ensures other != key ==> Lookup(Assign(members, key, value), other) == Lookup(members, other)
  {
    if members != [] && members[0].key != key {
      AssignLookup(members[1..], key, value, other);
    }
  }

  /** A key not yet present is appended; one already present keeps its place. */
  lemma {:induction false} AssignPlace(members: seq<Member>, key: string, value: Node)
    ensures Lookup(members, key).None? ==> Assign(members, key, value) == members + [Member(key, value)]
    ensures Lookup(members, key).Some? ==> |Assign(members, key, value)| == |members|
  {
    if members != [] && members[0].key != key {
      AssignPlace(members[1..], key, value);
      assert [members[0]] + (members[1..] + [Member(key, value)]) == members + [Member(key, value)];
    }
  }

  lemma {:induction false} AssignDistinct(members: seq<Member>, key: string, value: Node)
    requires DistinctKeys(members)
    ensures DistinctKeys(Assign(members, key, value))
  {
    if members == [] {
    } else if members[0].key == key {
      var r := Assign(members, key, value);
      assert forall j :: 0 <= j < |r| ==> r[j].key == members[j].key;
    } else {
      var tail := Assign(members[1..], key, value);
      AssignDistinct(members[1..], key, value);
      var r := Assign(members, key, value);
      assert r == [members[0]] + tail;
      forall i, j | 0 <= i < j < |r|
        ensures r[i].key != r[j].key
      {
        assert r[j] == tail[j - 1];
        if i == 0 {
          HeadNotInAssign(members, key, value, j - 1);
        } else {
          assert r[i] == tail[i - 1];
        }
      }
    }
  }

  /** The first key of an object without repeated keys is nowhere in what assigning another key to the rest gives. */
  lemma HeadNotInAssign(members: seq<Member>, key: string, value: Node, j: nat)
    requires DistinctKeys(members) && members != [] && members[0].key != key
    requires j < |Assign(members[1..], key, value)|
    ensures Assign(members[1..], key, value)[j].key != members[0].key
  {
    var tail := Assign(members[1..], key, value);
    var k := tail[j].key;
    LookupHas(tail, j);
    if k != key {
      AssignLookup(members[1..], key, value, k);
      LookupMissing(members, 0);
    }
  }

  lemma {:induction false} LookupHas(members: seq<Member>, i: nat)
    requires i < |members|
    ensures Lookup(members, members[i].key).Some?
  {
    if i > 0 && members[0].key != members[i].key {
      LookupHas(members[1..], i - 1);
    }
  }

  /** In an object without repeated keys, a key at position i is nowhere else. */
  lemma {:induction false} LookupMissing(members: seq<Member>, i: nat)
    requires DistinctKeys(members) && i < |members|
    ensures Lookup(members[i + 1..], members[i].key).None?
  {
    var k := members[i].key;
    var tail := members[i + 1..];
    NotInLookup(tail, k);
  }

  lemma {:induction false} NotInLookup(members: seq<Member>, k: string)
    requires forall j :: 0 <= j < |members| ==> members[j].key != k
    ensures Lookup(members, k).None?
  {
    if members != [] {
      NotInLookup(members[1..], k);
    }
  }

  /** parseValue with `current` at i. */
  function ValueOf(ts: seq<L.Token>, i: nat): (r: Result<Parsed, Error>)
    ensures r.Ok? ==> i <= r.value.last < |ts|
    ensures r.Err? ==> r.error != NothingToParse && !r.error.Lexical?
    decreases |ts| - i, 2
  {
    if i >= |ts| then Err(OutOfTokens)
    else
      match ts[i].kind
      case String => Ok(Parsed(String(ts[i].value), i))
      case Number => Ok(Parsed(Number(ts[i].value), i))
      case True => Ok(Parsed(Boolean(true), i))
      case False => Ok(Parsed(Boolean(false), i))
      case Null => Ok(Parsed(Null, i))
      case CurlyOpen => MembersOf(ts, i + 1, [])
      case BracketOpen => ElementsOf(ts, i + 1, [])
      case _ => Err(UnexpectedTokenType(ts[i].kind))
  }

  /**
   * The loop of parseObject, with `current` at i, the token the loop tests,
   * and `members` the keys assigned so far.
   */
  function MembersOf(ts: seq<L.Token>, i: nat, members: seq<Member>): (r: Result<Parsed, Error>)
    ensures r.Ok? ==> i <= r.value.last < |ts|
    ensures r.Err? ==> r.error != NothingToParse && !r.error.Lexical?
    decreases |ts| - i, 1
  {
    if i >= |ts| then Err(OutOfTokens)
    else if ts[i].kind == L.CurlyClose then Ok(Parsed(Object(members), i))
    else
      match MemberOf(ts, i)
      case Err(e) => Err(e)
      case Ok(m) => MembersOf(ts, m.next, Assign(members, m.key, m.node))
  }

  /** What one turn of the parseObject loop reads: a key, its value, and where the loop tests again. */
  datatype MemberRead = MemberRead(key: string, node: Node, next: nat)

  /** One turn of the parseObject loop, with `current` at i on a token other than `}`. */
  function MemberOf(ts: seq<L.Token>, i: nat): (r: Result<MemberRead, Error>)
    requires i < |ts|
    ensures r.Ok? ==> i < r.value.next <= |ts|
    ensures r.Err? ==> r.error != NothingToParse && !r.error.Lexical?
    decreases |ts| - i, 0
  {
    if ts[i].kind != L.String && ts[i].kind != L.Comma then Err(ExpectedStringKey(ts[i].kind))
    else
      // a STRING is the key itself; after a COMMA the next token's text is the key, whatever its type
      var keyAt := if ts[i].kind == L.String then i else i + 1;
      if keyAt + 1 >= |ts| then Err(OutOfTokens)
      else if ts[keyAt + 1].kind != L.Colon then Err(ExpectedColon)
      else
        match ValueOf(ts, keyAt + 2)
        case Err(e) => Err(e)
        case Ok(p) =>
          if p.last + 1 >= |ts| then Err(OutOfTokens)
          else
            // a COLON after the value is skipped
            Ok(MemberRead(ts[keyAt].value, p.node, if ts[p.last + 1].kind == L.Colon then p.last + 2 else p.last + 1))
  }

  /** The loop of parseArray, with `current` at i, the token the loop tests. */
  function ElementsOf(ts: seq<L.Token>, i: nat, elements: seq<Node>): (r: Result<Parsed, Error>)
    ensures r.Ok? ==> i <= r.value.last < |ts|
    ensures r.Err? ==> r.error != NothingToParse && !r.error.Lexical?
    decreases |ts| - i, 4
  {
    if i >= |ts| then Err(OutOfTokens)
    else if ts[i].kind == L.BracketClose then Ok(Parsed(Array(elements), i))
    else
      match ElementOf(ts, i)
      case Err(e) => Err(e)
      case Ok(e) => ElementsOf(ts, e.next, elements + [e.node])
  }

  /** What one turn of the parseArray loop reads: a value, and where the loop tests again. */
  datatype ElementRead = ElementRead(node: Node, next: nat)

  /** One turn of the parseArray loop, with `current` at i on a token other than `]`. */
  function ElementOf(ts: seq<L.Token>, i: nat): (r: Result<ElementRead, Error>)
    requires i < |ts|
    ensures r.Ok? ==> i < r.value.next <= |ts|
    ensures r.Err? ==> r.error != NothingToParse && !r.error.Lexical?
    decreases |ts| - i, 3
  {
    match ValueOf(ts, i)
    case Err(e) => Err(e)
    case Ok(p) =>
      if p.last + 1 >= |ts| then Err(OutOfTokens)
      else
        // one COMMA after a value is skipped
        Ok(ElementRead(p.node, if ts[p.last + 1].kind == L.Comma then p.last + 2 else p.last + 1))
  }

  /** ast: the first value of the token list; whatever follows it is ignored. */
  function Ast(ts: seq<L.Token>): (r: Result<Node, Error>)
    ensures r == Err(NothingToParse) <==> |ts| == 0
  {
    if |ts| == 0 then Err(NothingToParse)
    else
      match ValueOf(ts, 0)
      case Ok(p) => Ok(p.node)
      case Err(e) => Err(e)
  }

  // -----------------------------------------------------------------------
  // Properties of the parser.

  /**
   * One turn of the parseObject loop: the key (the STRING itself, or the
   * token after a COMMA), a COLON, a value, and the token after the value,
   * skipped if it is a COLON; the loop tests again at `next`.
   */
  lemma MembersStep(ts: seq<L.Token>, i: nat, members: seq<Member>, keyAt: nat, key: string, v: Node, last: nat, next: nat)
    requires i < |ts| && keyAt == (if ts[i].kind == L.String then i else i + 1)
    requires ts[i].kind == L.String || ts[i].kind == L.Comma
    requires keyAt + 1 < |ts| && ts[keyAt].value == key && ts[keyAt + 1].kind == L.Colon
    requires ValueOf(ts, keyAt + 2) == Ok(Parsed(v, last))
    requires last + 1 < |ts| && next == (if ts[last + 1].kind == L.Colon then last + 2 else last + 1)
    ensures MembersOf(ts, i, members) == MembersOf(ts, next, Assign(members, key, v))
  {
    assert MemberOf(ts, i) == Ok(MemberRead(key, v, next));
  }

  /** One turn of the parseArray loop: a value, and the token after it, skipped if it is a COMMA. */
  lemma ElementsStep(ts: seq<L.Token>, i: nat, elements: seq<Node>, v: Node, last: nat, next: nat)
    requires i < |ts| && ts[i].kind != L.BracketClose
    requires ValueOf(ts, i) == Ok(Parsed(v, last)) && last + 1 < |ts|
    requires next == if ts[last + 1].kind == L.Comma then last + 2 else last + 1
    ensures ElementsOf(ts, i, elements) == ElementsOf(ts, next, elements + [v])
  {
    assert ElementOf(ts, i) == Ok(ElementRead(v, next));
  }

  function Punct(kind: L.TokenType, c: char): L.Token { L.Token(kind, [c]) }

  /** The tokens of a node written out as JSON: the parser's intended input. */
  function Emit(n: Node): seq<L.Token>
    decreases n, 1
  {
    match n
    case Object(ms) => [Punct(L.CurlyOpen, '{')] + (EmitMembers(ms, false) + [Punct(L.CurlyClose, '}')])
    case Array(es) => [Punct(L.BracketOpen, '[')] + (EmitElements(es) + [Punct(L.BracketClose, ']')])
    case String(t) => [L.Token(L.String, t)]
    case Number(t) => [L.Token(L.Number, t)]
    case Boolean(b) => if b then [L.Token(L.True, "true")] else [L.Token(L.False, "false")]
    case Null => [L.Token(L.Null, "null")]
  }

  /** The tokens before a member's value: its key and the colon, after a COMMA unless it comes first. */
  function Head(lead: bool, key: string): seq<L.Token>
  {
    (if lead then [Punct(L.Comma, ',')] else []) + [L.Token(L.String, key), Punct(L.Colon, ':')]
  }

  /** `"key": value` for each member, with a COMMA before every member but the first. */
  function EmitMembers(ms: seq<Member>, lead: bool): seq<L.Token>
    decreases ms, 0
  {
    if ms == [] then []
    else Head(lead, ms[0].key) + (Emit(ms[0].value) + EmitMembers(ms[1..], true))
  }

  /** The COMMA written after the first element, if another follows. */
  function Sep(es: seq<Node>): seq<L.Token>
  {
    if |es| <= 1 then [] else [Punct(L.Comma, ',')]
  }

  /** The elements, separated by COMMA. */
  function EmitElements(es: seq<Node>): seq<L.Token>
    decreases es, 0
  {
    if es == [] then []
    else Emit(es[0]) + (Sep(es) + EmitElements(es[1..]))
  }

  /** Objects without repeated keys, at every depth. */
  predicate WellKeyed(n: Node)
    decreases n
  {
    match n
    case Object(ms) => DistinctKeys(ms) && forall i :: 0 <= i < |ms| ==> WellKeyed(ms[i].value)
    case Array(es) => forall i :: 0 <= i < |es| ==> WellKeyed(es[i])
    case _ => true
  }

  /** A written-out node starts with a value token, never a closing bracket or a COMMA. */
  lemma EmitStart(n: Node)
    ensures |Emit(n)| > 0
    ensures Emit(n)[0].kind != L.BracketClose && Emit(n)[0].kind != L.Comma
  {
  }

  /** The tokens p sit in ts from position i on. */
  predicate Occurs(p: seq<L.Token>, ts: seq<L.Token>, i: nat)
  {
    i + |p| <= |ts| && forall j :: 0 <= j < |p| ==> ts[i + j] == p[j]
  }

  lemma OccursAt(p: seq<L.Token>, ts: seq<L.Token>, i: nat, j: nat)
    requires Occurs(p, ts, i) && j < |p|
    ensures ts[i + j] == p[j]
  {
  }

  /** Where the two parts of tokens sitting in ts sit. */
  lemma OccursSplit(a: seq<L.Token>, b: seq<L.Token>, ts: seq<L.Token>, i: nat)
    requires Occurs(a + b, ts, i)
    ensures Occurs(a, ts, i) && Occurs(b, ts, i + |a|)
  {
    forall j | 0 <= j < |a|
      ensures ts[i + j] == a[j]
    {
      assert (a + b)[j] == a[j];
    }
    forall j | 0 <= j < |b|
      ensures ts[i + |a| + j] == b[j]
    {
      assert (a + b)[|a| + j] == b[j];
    }
  }

  /** Where three consecutive parts of tokens sitting in ts sit. */
  lemma OccursThree(a: seq<L.Token>, m: seq<L.Token>, b: seq<L.Token>, ts: seq<L.Token>, i: nat)
    requires Occurs(a + (m + b), ts, i) && |m| + |b| > 0
    ensures Occurs(a, ts, i) && Occurs(m, ts, i + |a|)
    ensures ts[i + |a|] == if |m| > 0 then m[0] else b[0]
    ensures Occurs(b, ts, i + |a| + |m|)
  {
    OccursSplit(a, m + b, ts, i);
    OccursSplit(m, b, ts, i + |a|);
    OccursAt(m + b, ts, i + |a|, 0);
  }

  /** A written-out array body: its first element, the COMMA after it if another follows, then the rest. */
  lemma ElementsSplit(es: seq<Node>)
    requires es != []
    ensures EmitElements(es) + [Punct(L.BracketClose, ']')]
            == Emit(es[0]) + (Sep(es) + (EmitElements(es[1..]) + [Punct(L.BracketClose, ']')]))
    ensures |es| == 1 ==> EmitElements(es[1..]) + [Punct(L.BracketClose, ']')] == [Punct(L.BracketClose, ']')]
  {
    Regroup(Emit(es[0]), Sep(es), EmitElements(es[1..]), [Punct(L.BracketClose, ']')]);
    if |es| == 1 {
      assert EmitElements(es[1..]) == [];
    }
  }

  lemma Regroup<T>(a: seq<T>, b: seq<T>, c: seq<T>, d: seq<T>)
    ensures (a + (b + c)) + d == a + (b + (c + d))
  {
  }

  /** A written-out object body: the first key and colon, its value, then the other members. */
  lemma MembersSplit(ms: seq<Member>, lead: bool)
    requires ms != []
    ensures EmitMembers(ms, lead) + [Punct(L.CurlyClose, '}')]
            == Head(lead, ms[0].key) + (Emit(ms[0].value) + (EmitMembers(ms[1..], true) + [Punct(L.CurlyClose, '}')]))
    ensures (EmitMembers(ms[1..], true) + [Punct(L.CurlyClose, '}')])[0].kind != L.Colon
  {
    Regroup(Head(lead, ms[0].key), Emit(ms[0].value), EmitMembers(ms[1..], true), [Punct(L.CurlyClose, '}')]);
    if ms[1..] != [] {
      assert (EmitMembers(ms[1..], true) + [Punct(L.CurlyClose, '}')])[0] == Head(true, ms[1].key)[0];
    }
  }

  /** The key and colon of a member sitting in ts. */
  lemma HeadOccurs(lead: bool, key: string, ts: seq<L.Token>, i: nat)
    requires Occurs(Head(lead, key), ts, i)
    ensures |Head(lead, key)| == if lead then 3 else 2
    ensures ts[i] == if lead then Punct(L.Comma, ',') else L.Token(L.String, key)
    ensures ts[i + |Head(lead, key)| - 2] == L.Token(L.String, key)
    ensures ts[i + |Head(lead, key)| - 1] == Punct(L.Colon, ':')
  {
    var h := Head(lead, key);
    OccursAt(h, ts, i, 0);
    OccursAt(h, ts, i, |h| - 2);
    OccursAt(h, ts, i, |h| - 1);
  }

  /**
   * Parsing reads back every node written out, wherever it sits and whatever
   * follows it: keys keep their order and values, array elements their
   * order, and one COMMA between entries is skipped.
   */
  lemma {:induction false} ValueOfEmit(n: Node, ts: seq<L.Token>, i: nat)
    requires WellKeyed(n) && Occurs(Emit(n), ts, i)
    ensures |Emit(n)| > 0
    ensures ValueOf(ts, i) == Ok(Parsed(n, i + |Emit(n)| - 1))
    decreases n, 1
  {
    match n
    case Object(ms) =>
      ObjectOfEmit(ms, ts, i);
    case Array(es) =>
      ArrayOfEmit(es, ts, i);
    case _ =>
      OccursAt(Emit(n), ts, i, 0);
  }

  /** parseObject reads back a written-out object. */
  lemma {:induction false} ObjectOfEmit(ms: seq<Member>, ts: seq<L.Token>, i: nat)
    requires WellKeyed(Object(ms)) && Occurs(Emit(Object(ms)), ts, i)
    ensures ValueOf(ts, i) == Ok(Parsed(Object(ms), i + |Emit(Object(ms))| - 1))
    decreases ms, 3
  {
    OccursSplit([Punct(L.CurlyOpen, '{')], EmitMembers(ms, false) + [Punct(L.CurlyClose, '}')], ts, i);
    OccursAt([Punct(L.CurlyOpen, '{')], ts, i, 0);
    assert [] + ms == ms;
    MembersOfEmit(ms, false, [], ts, i + 1);
  }

  /** parseArray reads back a written-out array. */
  lemma {:induction false} ArrayOfEmit(es: seq<Node>, ts: seq<L.Token>, i: nat)
    requires WellKeyed(Array(es)) && Occurs(Emit(Array(es)), ts, i)
    ensures ValueOf(ts, i) == Ok(Parsed(Array(es), i + |Emit(Array(es))| - 1))
    decreases es, 2
  {
    OccursSplit([Punct(L.BracketOpen, '[')], EmitElements(es) + [Punct(L.BracketClose, ']')], ts, i);
    OccursAt([Punct(L.BracketOpen, '[')], ts, i, 0);
    assert [] + es == es;
    ElementsOfEmit(es, [], ts, i + 1);
  }

  /** The parseObject loop over written-out members appends each key in turn. */
  lemma {:induction false} MembersOfEmit(ms: seq<Member>, lead: bool, acc: seq<Member>, ts: seq<L.Token>, i: nat)
    requires DistinctKeys(acc + ms)
    requires forall k :: 0 <= k < |ms| ==> WellKeyed(ms[k].value)
    requires Occurs(EmitMembers(ms, lead) + [Punct(L.CurlyClose, '}')], ts, i)
    ensures MembersOf(ts, i, acc) == Ok(Parsed(Object(acc + ms), i + |EmitMembers(ms, lead)|))
    decreases ms, 2
  {
    if ms == [] {
      MembersClose(lead, acc, ts, i);
      assert acc + ms == acc;
    } else {
      var next, grown := MembersEmitTurn(ms, lead, acc, ts, i);
      MembersOfEmit(ms[1..], true, grown, ts, next);
    }
  }

  /** One turn over a written-out member, with its key new to those assigned so far. */
  lemma {:induction false} MembersEmitTurn(ms: seq<Member>, lead: bool, acc: seq<Member>, ts: seq<L.Token>, i: nat)
    returns (next: nat, grown: seq<Member>)
    requires ms != [] && DistinctKeys(acc + ms)
    requires forall k :: 0 <= k < |ms| ==> WellKeyed(ms[k].value)
    requires Occurs(EmitMembers(ms, lead) + [Punct(L.CurlyClose, '}')], ts, i)
    ensures grown == acc + [ms[0]] && grown + ms[1..] == acc + ms && DistinctKeys(grown + ms[1..])
    ensures MembersOf(ts, i, acc) == MembersOf(ts, next, grown)
    ensures i + |EmitMembers(ms, lead)| == next + |EmitMembers(ms[1..], true)|
    ensures Occurs(EmitMembers(ms[1..], true) + [Punct(L.CurlyClose, '}')], ts, next)
    ensures forall k :: 0 <= k < |ms[1..]| ==> WellKeyed(ms[1..][k].value)
    decreases ms, 1
  {
    next := MembersCons(ms, lead, acc, ts, i);
    AppendFresh(acc, ms);
    grown := acc + [ms[0]];
  }

  /** One turn of the parseObject loop over a written-out member. */
  lemma {:induction false} MembersCons(ms: seq<Member>, lead: bool, acc: seq<Member>, ts: seq<L.Token>, i: nat)
    returns (next: nat)
    requires ms != []
    requires forall k :: 0 <= k < |ms| ==> WellKeyed(ms[k].value)
    requires Occurs(EmitMembers(ms, lead) + [Punct(L.CurlyClose, '}')], ts, i)
    ensures MembersOf(ts, i, acc) == MembersOf(ts, next, Assign(acc, ms[0].key, ms[0].value))
    ensures i + |EmitMembers(ms, lead)| == next + |EmitMembers(ms[1..], true)|
    ensures Occurs(EmitMembers(ms[1..], true) + [Punct(L.CurlyClose, '}')], ts, next)
    ensures forall k :: 0 <= k < |ms[1..]| ==> WellKeyed(ms[1..][k].value)
    decreases ms, 0
  {
    var h;
    h, next := MembersLayout(ms, lead, ts, i);
    assert WellKeyed(ms[0].value);
    MemberTurn(ms[0].key, ms[0].value, acc, ts, i, i + h - 2, next);
    WellKeyedValuesRest(ms);
  }

  /** The parseObject loop reads a written-out member and tests again right after its value. */
  lemma MemberTurn(key: string, v: Node, acc: seq<Member>, ts: seq<L.Token>, i: nat, keyAt: nat, next: nat)
    requires i < |ts| && (ts[i].kind == L.String || ts[i].kind == L.Comma)
    requires keyAt == (if ts[i].kind == L.String then i else i + 1)
    requires keyAt + 1 < |ts| && ts[keyAt].value == key && ts[keyAt + 1].kind == L.Colon
    requires WellKeyed(v) && Occurs(Emit(v), ts, keyAt + 2)
    requires next == keyAt + 2 + |Emit(v)| && next < |ts| && ts[next].kind != L.Colon
    ensures MembersOf(ts, i, acc) == MembersOf(ts, next, Assign(acc, key, v))
    decreases v, 2
  {
    ValueOfEmit(v, ts, keyAt + 2);
    MembersStep(ts, i, acc, keyAt, key, v, next - 1, next);
  }

  /** Every value after the first member of an object whose values are well keyed is well keyed. */
  lemma WellKeyedValuesRest(ms: seq<Member>)
    requires ms != [] && forall k :: 0 <= k < |ms| ==> WellKeyed(ms[k].value)
    ensures forall k :: 0 <= k < |ms[1..]| ==> WellKeyed(ms[1..][k].value)
  {
    forall k | 0 <= k < |ms[1..]|
      ensures WellKeyed(ms[1..][k].value)
    {
      assert ms[1..][k] == ms[k + 1];
    }
  }

  /** Where the key, the colon, the value and the rest of a written-out object body sit. */
  lemma MembersLayout(ms: seq<Member>, lead: bool, ts: seq<L.Token>, i: nat) returns (h: nat, next: nat)
    requires ms != []
    requires Occurs(EmitMembers(ms, lead) + [Punct(L.CurlyClose, '}')], ts, i)
    ensures h == (if lead then 3 else 2)
    ensures ts[i].kind == (if lead then L.Comma else L.String)
    ensures ts[i + h - 2] == L.Token(L.String, ms[0].key) && ts[i + h - 1].kind == L.Colon
    ensures Occurs(Emit(ms[0].value), ts, i + h)
    ensures next == i + h + |Emit(ms[0].value)| && next < |ts| && ts[next].kind != L.Colon
    ensures i + |EmitMembers(ms, lead)| == next + |EmitMembers(ms[1..], true)|
    ensures Occurs(EmitMembers(ms[1..], true) + [Punct(L.CurlyClose, '}')], ts, next)
  {
    var m := ms[0];
    h := |Head(lead, m.key)|;
    var later := EmitMembers(ms[1..], true) + [Punct(L.CurlyClose, '}')];
    MembersSplit(ms, lead);
    OccursThree(Head(lead, m.key), Emit(m.value), later, ts, i);
    HeadOccurs(lead, m.key, ts, i);
    next := i + h + |Emit(m.value)|;
  }

  /** A new key is appended, and the keys stay distinct. */
  lemma AppendFresh(acc: seq<Member>, ms: seq<Member>)
    requires ms != [] && DistinctKeys(acc + ms)
    ensures Assign(acc, ms[0].key, ms[0].value) == acc + [ms[0]]
    ensures DistinctKeys((acc + [ms[0]]) + ms[1..])
    ensures acc + ms == (acc + [ms[0]]) + ms[1..]
  {
    FreshKey(acc, ms);
    AssignPlace(acc, ms[0].key, ms[0].value);
    MoveFirst(acc, ms);
  }

  /** Moving the first entry of a list onto the accumulated ones. */
  lemma MoveFirst<T>(acc: seq<T>, s: seq<T>)
    requires s != []
    ensures (acc + [s[0]]) + s[1..] == acc + s
  {
    assert s == [s[0]] + s[1..];
  }

  /** The first key of ms is new to acc. */
  lemma FreshKey(acc: seq<Member>, ms: seq<Member>)
    requires ms != [] && DistinctKeys(acc + ms)
    ensures Lookup(acc, ms[0].key).None?
  {
    var all := acc + ms;
    forall j | 0 <= j < |acc|
      ensures acc[j].key != ms[0].key
    {
      assert all[j] == acc[j] && all[|acc|] == ms[0];
    }
    NotInLookup(acc, ms[0].key);
  }

  /** The parseArray loop over written-out elements pushes each in turn. */
  lemma {:induction false} ElementsOfEmit(es: seq<Node>, acc: seq<Node>, ts: seq<L.Token>, i: nat)
    requires forall k :: 0 <= k < |es| ==> WellKeyed(es[k])
    requires Occurs(EmitElements(es) + [Punct(L.BracketClose, ']')], ts, i)
    ensures ElementsOf(ts, i, acc) == Ok(Parsed(Array(acc + es), i + |EmitElements(es)|))
    decreases es, 1
  {
    if es == [] {
      ElementsClose(acc, ts, i);
      assert acc + es == acc;
    } else {
      var next := ElementsCons(es, acc, ts, i);
      var pushed := acc + [es[0]];
      ElementsOfEmit(es[1..], pushed, ts, next);
      MoveFirst(acc, es);
    }
  }

  /** The `}` that closes a written-out object body. */
  lemma MembersClose(lead: bool, acc: seq<Member>, ts: seq<L.Token>, i: nat)
    requires Occurs(EmitMembers([], lead) + [Punct(L.CurlyClose, '}')], ts, i)
    ensures |EmitMembers([], lead)| == 0 && MembersOf(ts, i, acc) == Ok(Parsed(Object(acc), i))
  {
    assert EmitMembers([], lead) == [];
    OccursAt(EmitMembers([], lead) + [Punct(L.CurlyClose, '}')], ts, i, 0);
  }

  /** The `]` that closes a written-out array body. */
  lemma ElementsClose(acc: seq<Node>, ts: seq<L.Token>, i: nat)
    requires Occurs(EmitElements([]) + [Punct(L.BracketClose, ']')], ts, i)
    ensures ElementsOf(ts, i, acc) == Ok(Parsed(Array(acc), i))
  {
    OccursAt(EmitElements([]) + [Punct(L.BracketClose, ']')], ts, i, 0);
  }

  /** One turn of the parseArray loop over a written-out element. */
  lemma {:induction false} ElementsCons(es: seq<Node>, acc: seq<Node>, ts: seq<L.Token>, i: nat) returns (next: nat)
    requires es != [] && forall k :: 0 <= k < |es| ==> WellKeyed(es[k])
    requires Occurs(EmitElements(es) + [Punct(L.BracketClose, ']')], ts, i)
    ensures ElementsOf(ts, i, acc) == ElementsOf(ts, next, acc + [es[0]])
    ensures i + |EmitElements(es)| == next + |EmitElements(es[1..])|
    ensures Occurs(EmitElements(es[1..]) + [Punct(L.BracketClose, ']')], ts, next)
    ensures forall k :: 0 <= k < |es[1..]| ==> WellKeyed(es[1..][k])
    decreases es, 0
  {
    var v := es[0];
    assert WellKeyed(v);
    var after;
    after, next := ElementsLayout(es, ts, i);
    ElementTurn(v, acc, ts, i, after, next);
    WellKeyedRest(es);
  }

  /** The parseArray loop reads a written-out element and steps past the COMMA after it. */
  lemma ElementTurn(v: Node, acc: seq<Node>, ts: seq<L.Token>, i: nat, after: nat, next: nat)
    requires WellKeyed(v) && Occurs(Emit(v), ts, i)
    requires i < |ts| && ts[i].kind != L.BracketClose
    requires after == i + |Emit(v)| && after < |ts|
    requires next == (if ts[after].kind == L.Comma then after + 1 else after)
    ensures ElementsOf(ts, i, acc) == ElementsOf(ts, next, acc + [v])
    decreases v, 2
  {
    ValueOfEmit(v, ts, i);
    ElementsStep(ts, i, acc, v, after - 1, next);
  }

  /** Every element after the first of an array whose elements are well keyed is well keyed. */
  lemma WellKeyedRest(es: seq<Node>)
    requires es != [] && forall k :: 0 <= k < |es| ==> WellKeyed(es[k])
    ensures forall k :: 0 <= k < |es[1..]| ==> WellKeyed(es[1..][k])
  {
    forall k | 0 <= k < |es[1..]|
      ensures WellKeyed(es[1..][k])
    {
      assert es[1..][k] == es[k + 1];
    }
  }

  /** Where the first element, its COMMA and the rest of a written-out array body sit. */
  lemma ElementsLayout(es: seq<Node>, ts: seq<L.Token>, i: nat) returns (after: nat, next: nat)
    requires es != []
    requires Occurs(EmitElements(es) + [Punct(L.BracketClose, ']')], ts, i)
    ensures i < |ts| && ts[i].kind != L.BracketClose
    ensures Occurs(Emit(es[0]), ts, i)
    ensures after == i + |Emit(es[0])| && after < |ts|
    ensures next == (if ts[after].kind == L.Comma then after + 1 else after)
    ensures i + |EmitElements(es)| == next + |EmitElements(es[1..])|
    ensures Occurs(EmitElements(es[1..]) + [Punct(L.BracketClose, ']')], ts, next)
  {
    var later := EmitElements(es[1..]) + [Punct(L.BracketClose, ']')];
    ElementsSplit(es);
    OccursThree(Emit(es[0]), Sep(es), later, ts, i);
    EmitStart(es[0]);
    OccursAt(Emit(es[0]), ts, i, 0);
    after := i + |Emit(es[0])|;
    SepAt(es, ts[after]);
    next := after + |Sep(es)|;
  }

  /** The token after the first element of an array body is its COMMA, or the `]` when there is no other. */
  lemma SepAt(es: seq<Node>, t: L.Token)
    requires es != []
    requires t == if |Sep(es)| > 0 then Sep(es)[0]
                  else (EmitElements(es[1..]) + [Punct(L.BracketClose, ']')])[0]
    ensures |Sep(es)| == if t.kind == L.Comma then 1 else 0
    ensures |EmitElements(es)| == |Emit(es[0])| + |Sep(es)| + |EmitElements(es[1..])|
  {
    if |es| == 1 {
      assert es[1..] == [] && EmitElements(es[1..]) == [];
    }
  }

  /** ts and us hold the same first n tokens. */
  predicate Agree(ts: seq<L.Token>, us: seq<L.Token>, n: nat)
  {
    n <= |ts| && n <= |us| && forall j :: 0 <= j < n ==> ts[j] == us[j]
  }

  /** parseValue reads no token past the last one of the value it returns. */
  lemma {:induction false} ValueOfPrefix(ts: seq<L.Token>, us: seq<L.Token>, i: nat)
    requires ValueOf(ts, i).Ok? && Agree(ts, us, ValueOf(ts, i).value.last + 1)
    ensures ValueOf(us, i) == ValueOf(ts, i)
    decreases |ts| - i, 2
  {
    assert ts[i] == us[i];
    if ts[i].kind == L.CurlyOpen {
      MembersOfPrefix(ts, us, i + 1, []);
    } else if ts[i].kind == L.BracketOpen {
      ElementsOfPrefix(ts, us, i + 1, []);
    }
  }

  /** The parseObject loop reads no token past its closing brace. */
  lemma {:induction false} MembersOfPrefix(ts: seq<L.Token>, us: seq<L.Token>, i: nat, members: seq<Member>)
    requires MembersOf(ts, i, members).Ok? && Agree(ts, us, MembersOf(ts, i, members).value.last + 1)
    ensures MembersOf(us, i, members) == MembersOf(ts, i, members)
    decreases |ts| - i, 1
  {
    assert ts[i] == us[i];
    if ts[i].kind != L.CurlyClose {
      var next, members' := MembersPrefixTurn(ts, us, i, members);
      MembersOfPrefix(ts, us, next, members');
    }
  }

  /** One turn of the parseObject loop, the same on both token lists. */
  lemma {:induction false} MembersPrefixTurn(ts: seq<L.Token>, us: seq<L.Token>, i: nat, members: seq<Member>)
    returns (next: nat, members': seq<Member>)
    requires MembersOf(ts, i, members).Ok? && Agree(ts, us, MembersOf(ts, i, members).value.last + 1)
    requires ts[i].kind != L.CurlyClose
    ensures i < next
    ensures MembersOf(ts, i, members) == MembersOf(ts, next, members')
    ensures MembersOf(us, i, members) == MembersOf(us, next, members')
    decreases |ts| - i, 0
  {
    var keyAt, p;
    keyAt, p, next := MembersTurn(ts, i, members);
    members' := Assign(members, ts[keyAt].value, p.node);
    var last := MembersOf(ts, i, members).value.last;
    AgreeShorter(ts, us, last + 1, p.last + 2);
    AgreeShorter(ts, us, last + 1, p.last + 1);
    ValueOfPrefix(ts, us, keyAt + 2);
    TurnAgain(ts, us, i, members, keyAt, p, next);
  }

  /** The same turn read from us, whose tokens up to the turn's last one are those of ts. */
  lemma TurnAgain(ts: seq<L.Token>, us: seq<L.Token>, i: nat, members: seq<Member>, keyAt: nat, p: Parsed, next: nat)
    requires i < |ts| && (ts[i].kind == L.String || ts[i].kind == L.Comma)
    requires keyAt == (if ts[i].kind == L.String then i else i + 1)
    requires keyAt + 1 < |ts| && ts[keyAt + 1].kind == L.Colon && p.last + 1 < |ts|
    requires next == (if ts[p.last + 1].kind == L.Colon then p.last + 2 else p.last + 1)
    requires Agree(ts, us, p.last + 2)
    requires ValueOf(us, keyAt + 2) == Ok(p)
    ensures MembersOf(us, i, members) == MembersOf(us, next, Assign(members, ts[keyAt].value, p.node))
  {
    assert us[i] == ts[i] && us[keyAt] == ts[keyAt] && us[keyAt + 1] == ts[keyAt + 1] && us[p.last + 1] == ts[p.last + 1];
    MembersStep(us, i, members, keyAt, ts[keyAt].value, p.node, p.last, next);
  }

  lemma AgreeShorter(ts: seq<L.Token>, us: seq<L.Token>, n: nat, m: nat)
    requires Agree(ts, us, n) && m <= n
    ensures Agree(ts, us, m)
  {
  }

  /** The parts of one successful turn of the parseObject loop. */
  lemma MembersTurn(ts: seq<L.Token>, i: nat, members: seq<Member>) returns (keyAt: nat, p: Parsed, next: nat)
    requires MembersOf(ts, i, members).Ok? && i < |ts| && ts[i].kind != L.CurlyClose
    ensures ts[i].kind == L.String || ts[i].kind == L.Comma
    ensures keyAt == (if ts[i].kind == L.String then i else i + 1)
    ensures keyAt + 1 < |ts| && ts[keyAt + 1].kind == L.Colon
    ensures ValueOf(ts, keyAt + 2) == Ok(p) && p.last + 1 < |ts|
    ensures next == (if ts[p.last + 1].kind == L.Colon then p.last + 2 else p.last + 1)
    ensures i < next && p.last + 1 <= MembersOf(ts, i, members).value.last
    ensures MembersOf(ts, i, members) == MembersOf(ts, next, Assign(members, ts[keyAt].value, p.node))
  {
    keyAt := if ts[i].kind == L.String then i else i + 1;
    p := ValueOf(ts, keyAt + 2).value;
    next := if ts[p.last + 1].kind == L.Colon then p.last + 2 else p.last + 1;
  }

  /** The parseArray loop reads no token past its closing bracket. */
  lemma {:induction false} ElementsOfPrefix(ts: seq<L.Token>, us: seq<L.Token>, i: nat, elements: seq<Node>)
    requires ElementsOf(ts, i, elements).Ok? && Agree(ts, us, ElementsOf(ts, i, elements).value.last + 1)
    ensures ElementsOf(us, i, elements) == ElementsOf(ts, i, elements)
    decreases |ts| - i, 4
  {
    assert ts[i] == us[i];
    if ts[i].kind != L.BracketClose {
      var next, elements' := ElementsPrefixTurn(ts, us, i, elements);
      ElementsOfPrefix(ts, us, next, elements');
    }
  }

  /** One turn of the parseArray loop, the same on both token lists. */
  lemma {:induction false} ElementsPrefixTurn(ts: seq<L.Token>, us: seq<L.Token>, i: nat, elements: seq<Node>)
    returns (next: nat, elements': seq<Node>)
    requires ElementsOf(ts, i, elements).Ok? && Agree(ts, us, ElementsOf(ts, i, elements).value.last + 1)
    requires ts[i].kind != L.BracketClose
    ensures i < next
    ensures ElementsOf(ts, i, elements) == ElementsOf(ts, next, elements')
    ensures ElementsOf(us, i, elements) == ElementsOf(us, next, elements')
    decreases |ts| - i, 3
  {
    var p := ValueOf(ts, i).value;
    next := if ts[p.last + 1].kind == L.Comma then p.last + 2 else p.last + 1;
    elements' := elements + [p.node];
    ElementsStep(ts, i, elements, p.node, p.last, next);
    var last := ElementsOf(ts, i, elements).value.last;
    AgreeShorter(ts, us, last + 1, p.last + 2);
    ValueOfPrefix(ts, us, i);
    ElementTurnAgain(ts, us, i, elements, p, next);
  }

  /** The same turn read from us, whose tokens up to the turn's last one are those of ts. */
  lemma ElementTurnAgain(ts: seq<L.Token>, us: seq<L.Token>, i: nat, elements: seq<Node>, p: Parsed, next: nat)
    requires i < |ts| && ts[i].kind != L.BracketClose && p.last + 1 < |ts|
    requires next == (if ts[p.last + 1].kind == L.Comma then p.last + 2 else p.last + 1)
    requires Agree(ts, us, p.last + 2)
    requires ValueOf(us, i) == Ok(p)
    ensures ElementsOf(us, i, elements) == ElementsOf(us, next, elements + [p.node])
  {
    assert us[i] == ts[i] && us[p.last + 1] == ts[p.last + 1];
    ElementsStep(us, i, elements, p.node, p.last, next);
  }

  /** ast returns the first value and ignores whatever tokens follow it. */
  lemma AstIgnoresRest(ts: seq<L.Token>, rest: seq<L.Token>)
    requires Ast(ts).Ok?
    ensures Ast(ts + rest) == Ast(ts)
  {
    ValueOfPrefix(ts, ts + rest, 0);
  }

  /** ast reads back a node written out as tokens, whatever tokens follow it. */
  lemma AstEmit(n: Node, rest: seq<L.Token>)
    requires WellKeyed(n)
    ensures Ast(Emit(n) + rest) == Ok(n)
  {
    var ts := Emit(n) + rest;
    assert Occurs(Emit(n), ts, 0) by {
      forall j | 0 <= j < |Emit(n)|
        ensures ts[0 + j] == Emit(n)[j]
      {
      }
    }
    ValueOfEmit(n, ts, 0);
  }
}
