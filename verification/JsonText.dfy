/** `json.dumps(value, ensure_ascii=False, separators=(",", ":"))`, and its messages as an event stream. */
module JsonText {
  import opened EventStream

  /** The characters of a number, a float or a literal name. */
  predicate WordChar(c: char) {
    '0' <= c <= '9' || 'a' <= c <= 'z' || 'A' <= c <= 'Z' || c == '+' || c == '-' || c == '.'
  }

  predicate DigitsOnly(s: string) {
    s != "" && forall i :: 0 <= i < |s| ==> '0' <= s[i] <= '9'
  }

  predicate IsIntText(s: string) {
    DigitsOnly(s) || (s != "" && s[0] == '-' && DigitsOnly(s[1..]))
  }

  /** A word that is neither an integer nor a literal name. */
  predicate IsFloatText(s: string) {
    s != "" && (forall i :: 0 <= i < |s| ==> WordChar(s[i])) && !IsIntText(s) && s != "null" && s != "true" && s != "false"
  }

  function SomeFloat(): (s: string)
    ensures IsFloatText(s)
  {
    var s := ['n'];
    assert s[0] == 'n' && |s| == 1;
    assert !DigitsOnly(s) && |"null"| == 4 && |"true"| == 4 && |"false"| == 5;
    s
  }

  /** The text Python prints for a float; which one is not modelled. */
  type FloatText = s: string | IsFloatText(s) witness SomeFloat()

  datatype Json =
    | JNull
    | JBool(b: bool)
    | JInt(i: int)
    | JFloat(text: FloatText)
    | JStr(s: string)
    | JList(items: seq<Json>)
    | JObject(fields: seq<Field>)

  datatype Field = Field(key: string, value: Json)

  function HexDigit(n: nat): char
    requires n < 16
  {
    "0123456789abcdef"[n]
  }

  /** A character inside a JSON string: quotes, backslashes and control characters are escaped. */
  function EscapeChar(c: char): (s: string)
    ensures NoBreak(s)
  {
    if c == '"' then ['\\', '"']
    else if c == '\\' then ['\\', '\\']
    else if c == '\n' then ['\\', 'n']
    else if c == '\r' then ['\\', 'r']
    else if c == '\t' then ['\\', 't']
    else if c == '\U{0c}' then ['\\', 'f']
    else if c == '\U{08}' then ['\\', 'b']
    else if c as int < 0x20 then ['\\', 'u', '0', '0', HexDigit(c as int / 16), HexDigit(c as int % 16)]
    else [c]
  }

  function Escape(s: string): (t: string)
    ensures NoBreak(t)
  {
    if s == "" then "" else EscapeChar(s[0]) + Escape(s[1..])
  }

  function Quote(s: string): (t: string)
    ensures NoBreak(t)
  {
    ['"'] + Escape(s) + ['"']
  }

  function Decimal(n: nat): (t: string)
    ensures NoBreak(t)
  {
    if n < 10 then [HexDigit(n)] else Decimal(n / 10) + [HexDigit(n % 10)]
  }

  /** The printed text never contains a line break: that is what makes it a single `data:` line. */
  function Dumps(j: Json): (t: string)
    ensures NoBreak(t)
    decreases j, 1
  {
    match j
    case JNull => "null"
    case JBool(b) => if b then "true" else "false"
    case JInt(i) => if i < 0 then "-" + Decimal(-i) else Decimal(i)
    case JFloat(text) => text
    case JStr(s) => Quote(s)
    case JList(items) => "[" + DumpsItems(items) + "]"
    case JObject(fields) => "{" + DumpsFields(fields) + "}"
  }

  function DumpsItems(items: seq<Json>): (t: string)
    ensures NoBreak(t)
    decreases items, 0
  {
    if items == [] then ""
    else if |items| == 1 then Dumps(items[0])
    else Dumps(items[0]) + "," + DumpsItems(items[1..])
  }

  function DumpsFields(fields: seq<Field>): (t: string)
    ensures NoBreak(t)
    decreases fields, 0
  {
    if fields == [] then ""
    else
      var field := Quote(fields[0].key) + ":" + Dumps(fields[0].value);
      if |fields| == 1 then field else field + "," + DumpsFields(fields[1..])
  }

  function Texts(messages: seq<Json>): (texts: seq<string>)
    ensures |texts| == |messages| && forall i :: 0 <= i < |texts| ==> NoBreak(texts[i])
  {
    seq(|messages|, i requires 0 <= i < |messages| => Dumps(messages[i]))
  }

  /** Every list of JSON messages, in every profile, reaches a standard client unchanged. */
  lemma EveryMessageIsDelivered(messages: seq<Json>, profile: Profile)
    ensures Interpret(Encode(Texts(messages), profile)) == EventStream.Messages(Texts(messages))
  {
    EncodedIsDelivered(Texts(messages), profile);
  }
}
