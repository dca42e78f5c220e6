/** Reading JSON text, and that what the fixture prints is read back as it was. */
module JsonRead {
  import opened Common
  import opened EventStream
  import opened JsonText

  // ----- strings -----

  function HexValue(c: char): Option<nat> {
    if '0' <= c <= '9' then Some(c as int - '0' as int)
    else if 'a' <= c <= 'f' then Some(c as int - 'a' as int + 10)
    else if 'A' <= c <= 'F' then Some(c as int - 'A' as int + 10)
    else None
  }

  /** Four hexadecimal digits; surrogates, which come in pairs, are not read. */
  function ReadUnit(t: string): Option<char> {
    if |t| < 4 then None
    else
      var (a, b, c, d) := (HexValue(t[0]), HexValue(t[1]), HexValue(t[2]), HexValue(t[3]));
      if a.None? || b.None? || c.None? || d.None? then None
      else
        var n := a.value * 4096 + b.value * 256 + c.value * 16 + d.value;
        if n < 0xD800 then Some(n as char) else None
  }

  function Unescape(c: char): Option<char> {
    if c == '"' || c == '\\' || c == '/' then Some(c)
    else if c == 'n' then Some('\n')
    else if c == 'r' then Some('\r')
    else if c == 't' then Some('\t')
    else if c == 'f' then Some('\U{0c}')
    else if c == 'b' then Some('\U{08}')
    else None
  }

  /** One character of a string, and what follows it. */
  function ReadChar(t: string): (r: Option<(char, string)>)
    ensures r.Some? ==> |r.value.1| < |t|
  {
    if t == "" || t[0] == '"' || t[0] as int < 0x20 then None
    else if t[0] != '\\' then Some((t[0], t[1..]))
    else if |t| < 2 then None
    else if t[1] == 'u' then
      match ReadUnit(t[2..])
      case None => None
      case Some(c) => Some((c, t[6..]))
    else
      match Unescape(t[1])
      case None => None
      case Some(c) => Some((c, t[2..]))
  }

  /** A string after its opening quote, and what follows its closing quote. */
  function ReadString(t: string): (r: Option<(string, string)>)
    ensures r.Some? ==> |r.value.1| < |t|
    decreases |t|
  {
    if t != "" && t[0] == '"' then Some(("", t[1..]))
    else
      match ReadChar(t)
      case None => None
      case Some((c, rest)) =>
        match ReadString(rest)
        case None => None
        case Some((s, after)) => Some(([c] + s, after))
  }

  // ----- words -----

  /** The length of the leading word. */
  function WordLength(t: string): (n: nat)
    ensures n <= |t|
  {
    if t == "" || !WordChar(t[0]) then 0 else 1 + WordLength(t[1..])
  }

  function Number(s: string): int
    requires s == "" || DigitsOnly(s)
  {
    if s == "" then 0 else Number(s[..|s| - 1]) * 10 + (s[|s| - 1] as int - '0' as int)
  }

  function ReadWord(word: string): Option<Json> {
    if word == "null" then Some(JNull)
    else if word == "true" then Some(JBool(true))
    else if word == "false" then Some(JBool(false))
    else if DigitsOnly(word) then Some(JInt(Number(word)))
    else if IsIntText(word) then Some(JInt(-Number(word[1..])))
    else if IsFloatText(word) then Some(JFloat(word))
    else None
  }

  // ----- values -----

  /** A value at the front of the text, and what follows it. */
  function Read(t: string): (r: Option<(Json, string)>)
    ensures r.Some? ==> |r.value.1| < |t|
    decreases |t|, 1
  {
    if t == "" then None
    else if t[0] == '"' then
      match ReadString(t[1..])
      case None => None
      case Some((s, rest)) => Some((JStr(s), rest))
    else if t[0] == '[' then
      if |t| > 1 && t[1] == ']' then Some((JList([]), t[2..]))
      else
        match ReadItems(t[1..])
        case None => None
        case Some((items, rest)) => Some((JList(items), rest))
    else if t[0] == '{' then
      if |t| > 1 && t[1] == '}' then Some((JObject([]), t[2..]))
      else
        match ReadFields(t[1..])
        case None => None
        case Some((fields, rest)) => Some((JObject(fields), rest))
    else
      var n := WordLength(t);
      match ReadWord(t[..n])
      case None => None
      case Some(j) => if n == 0 then None else Some((j, t[n..]))
  }

  /** The items of a list up to its closing bracket. */
  function ReadItems(t: string): (r: Option<(seq<Json>, string)>)
    ensures r.Some? ==> |r.value.1| < |t|
    decreases |t|, 2
  {
    match Read(t)
    case None => None
    case Some((j, rest)) =>
      if rest == "" then None
      else if rest[0] == ']' then Some(([j], rest[1..]))
      else if rest[0] != ',' then None
      else
        match ReadItems(rest[1..])
        case None => None
        case Some((items, after)) => Some(([j] + items, after))
  }

  function ReadField(t: string): (r: Option<(Field, string)>)
    ensures r.Some? ==> |r.value.1| < |t|
    decreases |t|, 2
  {
    if t == "" || t[0] != '"' then None
    else
      match ReadString(t[1..])
      case None => None
      case Some((key, rest)) =>
        if rest == "" || rest[0] != ':' then None
        else
          match Read(rest[1..])
          case None => None
          case Some((j, after)) => Some((Field(key, j), after))
  }

  /** The fields of an object up to its closing brace. */
  function ReadFields(t: string): (r: Option<(seq<Field>, string)>)
    ensures r.Some? ==> |r.value.1| < |t|
    decreases |t|, 3
  {
    match ReadField(t)
    case None => None
    case Some((field, rest)) =>
      if rest == "" then None
      else if rest[0] == '}' then Some(([field], rest[1..]))
      else if rest[0] != ',' then None
      else
        match ReadFields(rest[1..])
        case None => None
        case Some((fields, after)) => Some(([field] + fields, after))
  }

  // ----- strings are read back -----

  lemma HexDigitValue(n: nat)
    requires n < 16
    ensures HexValue(HexDigit(n)) == Some(n)
  {
    assert "0123456789abcdef"[n] == if n < 10 then ('0' as int + n) as char else ('a' as int + n - 10) as char;
  }

  lemma CharReadsBack(c: char, rest: string)
    ensures ReadChar(EscapeChar(c) + rest) == Some((c, rest)) && EscapeChar(c)[0] != '"'
  {
    var t := EscapeChar(c) + rest;
    if |EscapeChar(c)| == 6 {
      var n := c as int;
      HexDigitValue(n / 16);
      HexDigitValue(n % 16);
      assert t[2] == '0' && t[3] == '0' && t[4] == HexDigit(n / 16) && t[5] == HexDigit(n % 16);
      assert t[2..][0] == t[2] && t[2..][1] == t[3] && t[2..][2] == t[4] && t[2..][3] == t[5];
      assert t[6..] == rest;
    } else if |EscapeChar(c)| == 2 {
      assert t[2..] == rest;
    } else {
      assert t[1..] == rest;
    }
  }

  lemma {:induction false} StringReadsBack(s: string, rest: string)
    ensures ReadString(Escape(s) + "\"" + rest) == Some((s, rest))
  {
    var t := Escape(s) + "\"" + rest;
    if s == "" {
      assert t == "\"" + rest && t[1..] == rest;
    } else {
      var after := Escape(s[1..]) + "\"" + rest;
      StringReadsBack(s[1..], rest);
      CharReadsBack(s[0], after);
      Joined(EscapeChar(s[0]), Escape(s[1..]), "\"", rest);
      assert s == [s[0]] + s[1..];
      ReadsChar(t, s[0], after, s[1..], rest);
    }
  }

  lemma Joined(a: string, b: string, c: string, d: string)
    ensures a + b + c + d == a + (b + c + d)
  {
  }

  lemma ReadsChar(t: string, c: char, after: string, s: string, rest: string)
    requires t != "" && t[0] != '"' && ReadChar(t) == Some((c, after)) && ReadString(after) == Some((s, rest))
    ensures ReadString(t) == Some(([c] + s, rest))
  {
  }

  // ----- words are read back -----

  /** The text does not continue a word. */
  predicate Ends(rest: string) {
    rest == "" || !WordChar(rest[0])
  }

  lemma {:induction false} WordEnds(word: string, rest: string)
    requires (forall i :: 0 <= i < |word| ==> WordChar(word[i])) && Ends(rest)
    ensures WordLength(word + rest) == |word|
  {
    if word == "" {
      assert word + rest == rest;
    } else {
      assert (word + rest)[0] == word[0] && (word + rest)[1..] == word[1..] + rest;
      WordEnds(word[1..], rest);
    }
  }

  lemma {:induction false} DecimalIsDigits(n: nat)
    ensures DigitsOnly(Decimal(n)) && Number(Decimal(n)) == n
  {
    assert forall d: nat :: d < 10 ==> HexDigit(d) == ('0' as int + d) as char;
    if n < 10 {
      assert Decimal(n)[..0] == "";
    } else {
      DecimalIsDigits(n / 10);
      var front := Decimal(n / 10);
      assert Decimal(n)[..|front|] == front;
    }
  }

  lemma WordReadsBack(word: string, j: Json, rest: string)
    requires word != "" && (forall i :: 0 <= i < |word| ==> WordChar(word[i])) && Ends(rest) && ReadWord(word) == Some(j)
    ensures Read(word + rest) == Some((j, rest))
  {
    WordEnds(word, rest);
    var t := word + rest;
    assert t[0] == word[0] && t[..|word|] == word && t[|word|..] == rest;
  }

  lemma IntReadsBack(i: int)
    ensures var word := Dumps(JInt(i)); word != "" && (forall k :: 0 <= k < |word| ==> WordChar(word[k])) && ReadWord(word) == Some(JInt(i))
  {
    DecimalIsDigits(if i < 0 then -i else i);
    var word := Dumps(JInt(i));
    if i < 0 {
      assert word[0] == '-' && word[1..] == Decimal(-i);
    }
    DigitsAreNoName(word);
  }

  lemma DigitsAreNoName(word: string)
    requires IsIntText(word)
    ensures word != "null" && word != "true" && word != "false"
  {
    assert "null"[0] == 'n' && "true"[0] == 't' && "false"[0] == 'f';
  }

  // ----- one step of reading -----

  lemma ReadsString(t: string, s: string, rest: string)
    requires t != "" && t[0] == '"' && ReadString(t[1..]) == Some((s, rest))
    ensures Read(t) == Some((JStr(s), rest))
  {
  }

  lemma ReadsList(t: string, items: seq<Json>, rest: string)
    requires |t| > 1 && t[0] == '[' && t[1] != ']' && ReadItems(t[1..]) == Some((items, rest))
    ensures Read(t) == Some((JList(items), rest))
  {
  }

  lemma ReadsObject(t: string, fields: seq<Field>, rest: string)
    requires |t| > 1 && t[0] == '{' && t[1] != '}' && ReadFields(t[1..]) == Some((fields, rest))
    ensures Read(t) == Some((JObject(fields), rest))
  {
  }

  lemma ReadsLastItem(t: string, j: Json, after: string)
    requires Read(t) == Some((j, after)) && after != "" && after[0] == ']'
    ensures ReadItems(t) == Some(([j], after[1..]))
  {
  }

  lemma ReadsItem(t: string, j: Json, after: string, items: seq<Json>, rest: string)
    requires Read(t) == Some((j, after)) && after != "" && after[0] == ',' && ReadItems(after[1..]) == Some((items, rest))
    ensures ReadItems(t) == Some(([j] + items, rest))
  {
  }

  lemma ReadsField(t: string, key: string, after: string, j: Json, rest: string)
    requires t != "" && t[0] == '"' && ReadString(t[1..]) == Some((key, after))
    requires after != "" && after[0] == ':' && Read(after[1..]) == Some((j, rest))
    ensures ReadField(t) == Some((Field(key, j), rest))
  {
  }

  lemma ReadsLastField(t: string, field: Field, after: string)
    requires ReadField(t) == Some((field, after)) && after != "" && after[0] == '}'
    ensures ReadFields(t) == Some(([field], after[1..]))
  {
  }

  lemma ReadsMoreFields(t: string, field: Field, after: string, fields: seq<Field>, rest: string)
    requires ReadField(t) == Some((field, after)) && after != "" && after[0] == ',' && ReadFields(after[1..]) == Some((fields, rest))
    ensures ReadFields(t) == Some(([field] + fields, rest))
  {
  }

  lemma ReadsEmpty(rest: string)
    ensures Read("[]" + rest) == Some((JList([]), rest)) && Read("{}" + rest) == Some((JObject([]), rest))
  {
    assert ("[]" + rest)[2..] == rest && ("{}" + rest)[2..] == rest;
  }

  // ----- the texts that are printed -----

  lemma StringText(s: string, rest: string)
    ensures var t := Dumps(JStr(s)) + rest; t[0] == '"' && t[1..] == Escape(s) + "\"" + rest
  {
  }

  lemma ListText(items: seq<Json>, rest: string)
    requires items != []
    ensures var t := Dumps(JList(items)) + rest; |t| > 1 && t[0] == '[' && t[1] != ']' && t[1..] == DumpsItems(items) + "]" + rest
  {
    ItemsStart(items);
    Wrapped("[", DumpsItems(items), "]", rest);
  }

  lemma Wrapped(open: string, body: string, close: string, rest: string)
    requires |open| == 1 && body != ""
    ensures var t := open + body + close + rest; |t| > 1 && t[0] == open[0] && t[1] == body[0] && t[1..] == body + close + rest
  {
  }

  lemma Regrouped(first: string, sep: string, more: string, close: string, rest: string)
    ensures first + sep + more + close + rest == first + (sep + (more + close + rest))
    ensures |sep| == 1 ==> (sep + (more + close + rest))[1..] == more + close + rest
  {
  }

  lemma ObjectText(fields: seq<Field>, rest: string)
    requires fields != []
    ensures var t := Dumps(JObject(fields)) + rest; |t| > 1 && t[0] == '{' && t[1] != '}' && t[1..] == DumpsFields(fields) + "}" + rest
  {
    FieldsStart(fields);
    Wrapped("{", DumpsFields(fields), "}", rest);
  }

  lemma LastText(first: string, close: string, rest: string)
    ensures first + close + rest == first + (close + rest) && (|close| == 1 ==> (close + rest)[1..] == rest)
  {
  }

  lemma FieldText(field: Field, rest: string)
    ensures var t := DumpsField(field) + rest;
            t != "" && t[0] == '"' && t[1..] == Escape(field.key) + "\"" + (":" + (Dumps(field.value) + rest))
  {
  }

  // ----- values are read back -----

  /** Whatever value is printed, and whatever follows that does not continue a word, reading gives the value back. */
  lemma {:induction false} ReadsBack(j: Json, rest: string)
    requires Ends(rest)
    ensures Read(Dumps(j) + rest) == Some((j, rest))
    decreases j, 1
  {
    match j
    case JList(items) => if items == [] { EmptyReadsBack(rest); } else { ListReadsBack(items, rest); }
    case JObject(fields) => if fields == [] { EmptyReadsBack(rest); } else { ObjectReadsBack(fields, rest); }
    case _ => AtomReadsBack(j, rest);
  }

  lemma EmptyReadsBack(rest: string)
    ensures Read(Dumps(JList([])) + rest) == Some((JList([]), rest)) && Read(Dumps(JObject([])) + rest) == Some((JObject([]), rest))
  {
    assert Dumps(JList([])) == "[]" && Dumps(JObject([])) == "{}";
    ReadsEmpty(rest);
  }

  lemma AtomReadsBack(j: Json, rest: string)
    requires Ends(rest) && !j.JList? && !j.JObject?
    ensures Read(Dumps(j) + rest) == Some((j, rest))
  {
    match j
    case JNull => WordReadsBack("null", j, rest);
    case JBool(b) => WordReadsBack(if b then "true" else "false", j, rest);
    case JInt(i) => IntReadsBack(i); WordReadsBack(Dumps(j), j, rest);
    case JFloat(text) => WordReadsBack(text, j, rest);
    case JStr(s) =>
      StringReadsBack(s, rest);
      StringText(s, rest);
      ReadsString(Dumps(j) + rest, s, rest);
  }

  lemma {:induction false} ListReadsBack(items: seq<Json>, rest: string)
    requires items != []
    ensures Read(Dumps(JList(items)) + rest) == Some((JList(items), rest))
    decreases items, 1
  {
    ItemsReadBack(items, rest);
    ListText(items, rest);
    ReadsList(Dumps(JList(items)) + rest, items, rest);
  }

  lemma {:induction false} ObjectReadsBack(fields: seq<Field>, rest: string)
    requires fields != []
    ensures Read(Dumps(JObject(fields)) + rest) == Some((JObject(fields), rest))
    decreases fields, 1
  {
    FieldsReadBack(fields, rest);
    ObjectText(fields, rest);
    ReadsObject(Dumps(JObject(fields)) + rest, fields, rest);
  }

  /** A printed value starts with a quote, a bracket, a brace or a word. */
  lemma ValueStarts(j: Json)
    ensures Dumps(j) != "" && (Dumps(j)[0] in ['"', '[', '{'] || WordChar(Dumps(j)[0]))
  {
    if j.JInt? { IntReadsBack(j.i); }
  }

  lemma ItemsStart(items: seq<Json>)
    requires items != []
    ensures DumpsItems(items) != "" && DumpsItems(items)[0] != ']'
  {
    ValueStarts(items[0]);
  }

  lemma FieldsStart(fields: seq<Field>)
    requires fields != []
    ensures DumpsFields(fields) != "" && DumpsFields(fields)[0] == '"'
  {
  }

  lemma {:induction false} ItemsReadBack(items: seq<Json>, rest: string)
    requires items != []
    ensures ReadItems(DumpsItems(items) + "]" + rest) == Some((items, rest))
    decreases items, 0
  {
    if |items| == 1 {
      ReadsBack(items[0], "]" + rest);
      LastText(Dumps(items[0]), "]", rest);
      assert items == [items[0]];
      ReadsLastItem(Dumps(items[0]) + ("]" + rest), items[0], "]" + rest);
    } else {
      var more := DumpsItems(items[1..]);
      ReadsBack(items[0], "," + (more + "]" + rest));
      ItemsReadBack(items[1..], rest);
      Regrouped(Dumps(items[0]), ",", more, "]", rest);
      assert items == [items[0]] + items[1..];
      ReadsItem(Dumps(items[0]) + ("," + (more + "]" + rest)), items[0], "," + (more + "]" + rest), items[1..], rest);
    }
  }

  function DumpsField(field: Field): string {
    Quote(field.key) + ":" + Dumps(field.value)
  }

  lemma {:induction false} FieldReadsBack(field: Field, rest: string)
    requires Ends(rest)
    ensures ReadField(DumpsField(field) + rest) == Some((field, rest))
    decreases field, 2
  {
    var after := ":" + (Dumps(field.value) + rest);
    StringReadsBack(field.key, after);
    ReadsBack(field.value, rest);
    FieldText(field, rest);
    assert after[1..] == Dumps(field.value) + rest;
    ReadsField(DumpsField(field) + rest, field.key, after, field.value, rest);
  }

  lemma {:induction false} FieldsReadBack(fields: seq<Field>, rest: string)
    requires fields != []
    ensures ReadFields(DumpsFields(fields) + "}" + rest) == Some((fields, rest))
    decreases fields, 0
  {
    if |fields| == 1 {
      FieldReadsBack(fields[0], "}" + rest);
      LastText(DumpsField(fields[0]), "}", rest);
      assert fields == [fields[0]];
      ReadsLastField(DumpsField(fields[0]) + ("}" + rest), fields[0], "}" + rest);
    } else {
      var more := DumpsFields(fields[1..]);
      FieldReadsBack(fields[0], "," + (more + "}" + rest));
      FieldsReadBack(fields[1..], rest);
      Regrouped(DumpsField(fields[0]), ",", more, "}", rest);
      assert fields == [fields[0]] + fields[1..];
      ReadsMoreFields(DumpsField(fields[0]) + ("," + (more + "}" + rest)), fields[0], "," + (more + "}" + rest), fields[1..], rest);
    }
  }

  /** Every list of JSON messages, in every profile, reaches a standard client as events from which each message is read back. */
  lemma MessagesAreRecovered(messages: seq<Json>, profile: Profile)
    ensures var events := Interpret(Encode(Texts(messages), profile));
            |events| == |messages| && forall i :: 0 <= i < |messages| ==> Read(events[i].data) == Some((messages[i], ""))
  {
    EveryMessageIsDelivered(messages, profile);
    forall i | 0 <= i < |messages| ensures Read(Dumps(messages[i])) == Some((messages[i], "")) {
      ReadsBack(messages[i], "");
      assert Dumps(messages[i]) + "" == Dumps(messages[i]);
    }
  }
}
