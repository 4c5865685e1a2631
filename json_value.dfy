/**
 * toObject and parse of part2/parser/json-parser.ts: the tree the parser
 * builds turned into plain values (objects keep their keys in the order the
 * parser assigned them), and parse as tokenize, then ast, then toObject.
 */
module JsonValue {
  import opened Wrappers
  import L = JsonTokenizer
  import opened JsonParserSpec

  /** The plain values toObject returns; a number keeps the text it was read from. */
  datatype JsValue =
    | JsObject(entries: seq<Entry>)
    | JsArray(items: seq<JsValue>)
    | JsString(text: string)
    | JsNumber(numeral: string)
    | JsBoolean(truth: bool)
    | JsNull

  datatype Entry = Entry(key: string, value: JsValue)

  /** toObject: objects key by key, arrays element by element, scalars as their value. */
  function ToObject(n: Node): (r: JsValue)
    ensures r.JsObject? <==> n.Object?
    ensures r.JsArray? <==> n.Array?
    ensures n.Object? ==> |r.entries| == |n.members| && forall k :: 0 <= k < |r.entries| ==> r.entries[k].key == n.members[k].key
    ensures n.Array? ==> |r.items| == |n.elements|
    decreases n, 1
  {
    match n
    case Object(ms) => JsObject(ToEntries(ms))
    case Array(es) => JsArray(ToItems(es))
    case String(t) => JsString(t)
    case Number(t) => JsNumber(t)
    case Boolean(b) => JsBoolean(b)
    case Null => JsNull
  }

  /** The `for (const key in ast.value)` loop of toObject. */
  function ToEntries(ms: seq<Member>): (r: seq<Entry>)
    ensures |r| == |ms| && forall k :: 0 <= k < |r| ==> r[k].key == ms[k].key
    decreases ms, 0
  {
    if ms == [] then [] else [Entry(ms[0].key, ToObject(ms[0].value))] + ToEntries(ms[1..])
  }

  /** `ast.value.map(toObject)`. */
  function ToItems(es: seq<Node>): (r: seq<JsValue>)
    ensures |r| == |es|
    decreases es, 0
  {
    if es == [] then [] else [ToObject(es[0])] + ToItems(es[1..])
  }

  /** The tree a plain value comes from: the inverse of toObject. */
  function FromObject(v: JsValue): Node
    decreases v, 1
  {
    match v
    case JsObject(entries) => Object(FromEntries(entries))
    case JsArray(items) => Array(FromItems(items))
    case JsString(t) => String(t)
    case JsNumber(t) => Number(t)
    case JsBoolean(b) => Boolean(b)
    case JsNull => Null
  }

  function FromEntries(entries: seq<Entry>): seq<Member>
    decreases entries, 0
  {
    if entries == [] then [] else [Member(entries[0].key, FromObject(entries[0].value))] + FromEntries(entries[1..])
  }

  function FromItems(items: seq<JsValue>): seq<Node>
    decreases items, 0
  {
    if items == [] then [] else [FromObject(items[0])] + FromItems(items[1..])
  }

  /** toObject loses nothing: the tree can be rebuilt from its value. */
  lemma {:induction false} FromToObject(n: Node)
    ensures FromObject(ToObject(n)) == n
    decreases n, 1
  {
    match n
    case Object(ms) => FromToEntries(ms);
    case Array(es) => FromToItems(es);
    case _ =>
  }

  lemma {:induction false} FromToEntries(ms: seq<Member>)
    ensures FromEntries(ToEntries(ms)) == ms
    decreases ms, 0
  {
    if ms != [] {
      FromToObject(ms[0].value);
      FromToEntries(ms[1..]);
    }
  }

  lemma {:induction false} FromToItems(es: seq<Node>)
    ensures FromItems(ToItems(es)) == es
    decreases es, 0
  {
    if es != [] {
      FromToObject(es[0]);
      FromToItems(es[1..]);
    }
  }

  /** Every plain value is the value of some tree. */
  lemma {:induction false} ToFromObject(v: JsValue)
    ensures ToObject(FromObject(v)) == v
    decreases v, 1
  {
    match v
    case JsObject(entries) => ToFromEntries(entries);
    case JsArray(items) => ToFromItems(items);
    case _ =>
  }

  lemma {:induction false} ToFromEntries(entries: seq<Entry>)
    ensures ToEntries(FromEntries(entries)) == entries
    decreases entries, 0
  {
    if entries != [] {
      ToFromObject(entries[0].value);
      ToFromEntries(entries[1..]);
    }
  }

  lemma {:induction false} ToFromItems(items: seq<JsValue>)
    ensures ToItems(FromItems(items)) == items
    decreases items, 0
  {
    if items != [] {
      ToFromObject(items[0]);
      ToFromItems(items[1..]);
    }
  }

  /** parse: tokenize, then ast, then toObject; the first exception thrown is the outcome. */
  function Parse(input: string): (r: Result<JsValue, Error>)
    ensures r.Err? && r.error.Lexical? <==> L.Lex(input).Err?
    ensures r == Err(NothingToParse) <==> L.Lex(input) == Ok([])
  {
    match L.Lex(input)
    case Err(e) => Err(Lexical(e))
    case Ok(ts) =>
      match Ast(ts)
      case Err(e) => Err(e)
      case Ok(n) => Ok(ToObject(n))
  }

  predicate QuoteFree(t: string)
  {
    forall i :: 0 <= i < |t| ==> t[i] != '"'
  }

  /**
   * The trees the scan can deliver: texts and keys without a quote, NUMBER
   * lexemes, and no booleans or null (the scan has no branch for them).
   */
  predicate Writable(n: Node)
    decreases n
  {
    match n
    case Object(ms) => forall k :: 0 <= k < |ms| ==> QuoteFree(ms[k].key) && Writable(ms[k].value)
    case Array(es) => forall k :: 0 <= k < |es| ==> Writable(es[k])
    case String(t) => QuoteFree(t)
    case Number(t) => L.NumberLexeme(t)
    case Boolean(_) => false
    case Null => false
  }

  /** A writable tree is written out as tokens the scan emits. */
  lemma {:induction false} EmitEmittable(n: Node)
    requires Writable(n)
    ensures forall t :: t in Emit(n) ==> L.Emittable(t)
    decreases n, 1
  {
    match n
    case Object(ms) =>
      MembersEmittable(ms, false);
    case Array(es) =>
      ElementsEmittable(es);
    case _ =>
  }

  lemma {:induction false} MembersEmittable(ms: seq<Member>, lead: bool)
    requires forall k :: 0 <= k < |ms| ==> QuoteFree(ms[k].key) && Writable(ms[k].value)
    ensures forall t :: t in EmitMembers(ms, lead) ==> L.Emittable(t)
    decreases ms, 0
  {
    if ms != [] {
      EmitEmittable(ms[0].value);
      MembersEmittable(ms[1..], true);
    }
  }

  lemma {:induction false} ElementsEmittable(es: seq<Node>)
    requires forall k :: 0 <= k < |es| ==> Writable(es[k])
    ensures forall t :: t in EmitElements(es) ==> L.Emittable(t)
    decreases es, 0
  {
    if es != [] {
      EmitEmittable(es[0]);
      ElementsEmittable(es[1..]);
    }
  }

  /**
   * parse reads back a writable tree written out as text with any white
   * space between its tokens, as long as its keys are distinct.
   */
  lemma ParseLayout(n: Node, gaps: seq<string>)
    requires WellKeyed(n) && Writable(n)
    requires L.Spaced(Emit(n), gaps)
    ensures Parse(L.Layout(Emit(n), gaps)) == Ok(ToObject(n))
  {
    EmitEmittable(n);
    L.LexLayout(Emit(n), gaps);
    AstEmit(n, []);
    assert Emit(n) + [] == Emit(n);
  }
}
