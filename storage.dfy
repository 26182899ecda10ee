/**
 * The browser's `localStorage` and the JSON values the application keeps in
 * it. A slot holds either text written with `setItem(key, text)` or a
 * document written with `setItem(key, JSON.stringify(value))`; reading a
 * document back with `JSON.parse` yields the value that was written, and
 * parsing plain text is treated as a parse failure.
 */
module Storage {
  import opened Text

  /** A JSON value. Numbers are integers; object members keep their order. */
  datatype JsonValue =
    | JNull
    | JBool(b: bool)
    | JNum(n: int)
    | JStr(s: string)
    | JArr(items: seq<JsonValue>)
    | JObj(members: seq<(string, JsonValue)>)

  /** JavaScript truthiness of a parsed value. */
  predicate Truthy(v: JsonValue) {
    match v
    case JNull => false
    case JBool(b) => b
    case JNum(n) => n != 0
    case JStr(s) => s != ""
    case JArr(_) => true
    case JObj(_) => true
  }

  /** The outcome of the property read `value.key`. */
  datatype Access = Undefined | Found(value: JsonValue) | TypeError

  /** The last member named `key` (the one `JSON.parse` keeps), if any. */
  function Member(members: seq<(string, JsonValue)>, key: string): Option<JsonValue>
    decreases |members|
  {
    if |members| == 0 then None
    else if members[|members| - 1].0 == key then Some(members[|members| - 1].1)
    else Member(members[..|members| - 1], key)
  }

  /** `value.key`: a member of an object, `undefined` on other non-null
      values, and a `TypeError` on `null`. */
  function Get(v: JsonValue, key: string): (r: Access)
    ensures r.TypeError? <==> v.JNull?
  {
    match v
    case JNull => TypeError
    case JObj(ms) => if Member(ms, key).Some? then Found(Member(ms, key).value) else Undefined
    case _ => Undefined
  }

  /** A one-member object `{ key: value }` as `JSON.stringify` writes it. */
  function Single(key: string, value: JsonValue): JsonValue {
    JObj([(key, value)])
  }

  lemma GetSingle(key: string, value: JsonValue)
    ensures Get(Single(key, value), key) == Found(value)
  {
  }

  /** The content of a storage slot. */
  datatype Stored = Str(text: string) | Doc(json: JsonValue)

  /** `JSON.stringify` for the values above; only `"` and `\` are escaped. */
  function Stringify(v: JsonValue): (r: string)
    decreases v, 1
  {
    match v
    case JNull => "null"
    case JBool(b) => if b then "true" else "false"
    case JNum(n) => IntToString(n)
    case JStr(s) => Quote(s)
    case JArr(items) => "[" + StringifyItems(items, v) + "]"
    case JObj(ms) => "{" + StringifyMembers(ms, v) + "}"
  }

  function StringifyItems(items: seq<JsonValue>, ghost parent: JsonValue): string
    requires forall i :: 0 <= i < |items| ==> items[i] < parent
    decreases parent, 0, |items|
  {
    if |items| == 0 then ""
    else if |items| == 1 then Stringify(items[0])
    else Stringify(items[0]) + "," + StringifyItems(items[1..], parent)
  }

  function StringifyMembers(ms: seq<(string, JsonValue)>, ghost parent: JsonValue): string
    requires forall i :: 0 <= i < |ms| ==> ms[i].1 < parent
    decreases parent, 0, |ms|
  {
    if |ms| == 0 then ""
    else
      var first := Quote(ms[0].0) + ":" + Stringify(ms[0].1);
      if |ms| == 1 then first else first + "," + StringifyMembers(ms[1..], parent)
  }

  function Escape(s: string): string
    decreases |s|
  {
    if |s| == 0 then ""
    else (if s[0] == '"' || s[0] == '\\' then ['\\', s[0]] else [s[0]]) + Escape(s[1..])
  }

  function Quote(s: string): string {
    "\"" + Escape(s) + "\""
  }

  /** The text `getItem` returns for a slot. */
  function RawText(st: Stored): string {
    match st
    case Str(t) => t
    case Doc(v) => Stringify(v)
  }

  /** A stored document always reads back as non-empty text, so `if (saved)` passes. */
  lemma DocTextNonEmpty(v: JsonValue)
    ensures RawText(Doc(v)) != ""
  {
    match v
    case JNum(n) =>
      if n < 0 {
      } else {
        Text.NatToStringDigits(n);
      }
    case _ =>
  }

  /** `JSON.parse(getItem(key))`: `None` is the thrown `SyntaxError`. */
  function Parse(st: Stored): (r: Option<JsonValue>)
    ensures r.Some? <==> st.Doc?
  {
    match st
    case Doc(v) => Some(v)
    case Str(_) => None
  }

  /** `if (saved)` on the result of `getItem`: present and non-empty. */
  predicate Present(slot: Option<Stored>) {
    slot.Some? && RawText(slot.value) != ""
  }

  /** The key-value store of the browser. */
  class LocalStorage {
    var items: map<string, Stored>

    constructor (initial: map<string, Stored>)
      ensures items == initial
    {
      items := initial;
    }

    /** `localStorage.getItem(key)`; `None` is `null`. */
    function GetItem(key: string): (r: Option<Stored>)
      reads this
      ensures r.Some? <==> key in items
      ensures r.Some? ==> r.value == items[key]
    {
      if key in items then Some(items[key]) else None
    }

    /** `localStorage.setItem(key, value)` */
    method SetItem(key: string, value: Stored)
      modifies this
      ensures items == old(items)[key := value]
    {
      items := items[key := value];
    }
  }
}
