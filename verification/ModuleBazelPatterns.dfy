/** The patterns of the checksum scripts, on one line of MODULE.bazel. A field is on one line. */
module ModuleBazelPatterns {
  import opened Common
  import opened ModuleBazelBlocks

  const NAME := "name"
  const PATH := "downloaded_file_path"
  const SHA := "sha256"
  const OPENER := "http_file("

  predicate IsHex(c: char) {
    '0' <= c <= '9' || 'a' <= c <= 'f'
  }

  /** `[0-9a-f]+` */
  predicate Hex(s: string) {
    s != "" && forall i :: 0 <= i < |s| ==> IsHex(s[i])
  }

  type Class = char -> bool

  function TrimLeft(space: Class, s: string): string {
    if s != "" && space(s[0]) then TrimLeft(space, s[1..]) else s
  }

  predicate Blank(line: string) {
    TrimLeft(IsSpace, line) == ""
  }

  /** The space that a line starts with. */
  function Lead(space: Class, line: string): string {
    if line != "" && space(line[0]) then [line[0]] + Lead(space, line[1..]) else ""
  }

  function Indent(line: string): string {
    Lead(IsSpace, line)
  }

  /** The place of the first quote, or the length. */
  function QuoteAt(s: string): (q: nat)
    ensures q <= |s|
  {
    if s == "" || s[0] == '"' then 0 else 1 + QuoteAt(s[1..])
  }

  datatype Field = Field(value: string, tail: string)

  /** A quoted value, the comma after it, and what is left of the line. */
  function ReadValue(s: string): Option<Field> {
    if s == "" || s[0] != '"' then None
    else
      var q := QuoteAt(s[1..]);
      if q == 0 || q + 2 >= |s| || s[q + 2] != ',' then None else Some(Field(s[1..q + 1], s[q + 3..]))
  }

  /** `^\s*field\s*=\s*"value",` at the start of a line. */
  function ReadField(space: Class, line: string, field: string): Option<Field> {
    var start := TrimLeft(space, line);
    if !(field <= start) then None
    else
      var equals := TrimLeft(space, start[|field|..]);
      if equals == "" || equals[0] != '=' then None else ReadValue(TrimLeft(space, equals[1..]))
  }

  /** The value of a field, if nothing but space follows it on the line. */
  function FieldValue(line: string, field: string): Option<string> {
    match ReadField(IsSpace, line, field)
    case Some(f) => if Blank(f.tail) then Some(f.value) else None
    case None => None
  }

  /** A line after which a checksum can be inserted: nothing at all follows the comma. */
  predicate PathLine(line: string) {
    ReadField(IsSpace, line, PATH).Some? && ReadField(IsSpace, line, PATH).value.tail == ""
  }

  function ShaLine(indent: string, checksum: string): string {
    indent + SHA + " = \"" + checksum + "\","
  }

  lemma {:induction false} TrimIndent(space: Class, indent: string, rest: string)
    requires forall i :: 0 <= i < |indent| ==> space(indent[i])
    requires rest != "" && !space(rest[0])
    ensures TrimLeft(space, indent + rest) == rest
    ensures Lead(space, indent + rest) == indent
  {
    if indent == "" {
      assert indent + rest == rest;
    } else {
      TrimIndent(space, indent[1..], rest);
      assert (indent + rest)[1..] == indent[1..] + rest;
      assert indent == [indent[0]] + indent[1..];
    }
  }

  lemma {:induction false} LeadIsSpace(space: Class, line: string)
    ensures forall i :: 0 <= i < |Lead(space, line)| ==> space(Lead(space, line)[i])
  {
    if line != "" && space(line[0]) {
      LeadIsSpace(space, line[1..]);
    }
  }

  lemma {:induction false} QuoteAfter(value: string, rest: string)
    requires forall i :: 0 <= i < |value| ==> value[i] != '"'
    ensures QuoteAt(value + "\"" + rest) == |value|
  {
    var s := value + "\"" + rest;
    if value != "" {
      QuoteAfter(value[1..], rest);
      assert s[1..] == value[1..] + "\"" + rest;
    }
  }

  lemma ValueReads(value: string)
    requires value != "" && forall i :: 0 <= i < |value| ==> value[i] != '"'
    ensures ReadValue("\"" + value + "\",") == Some(Field(value, ""))
  {
    var s := "\"" + value + "\",";
    assert s[1..] == value + "\"" + ",";
    QuoteAfter(value, ",");
    assert s[1..|value| + 1] == value && s[|value| + 3..] == "";
  }

  lemma FieldReads(space: Class, indent: string, field: string, value: string)
    requires forall i :: 0 <= i < |indent| ==> space(indent[i])
    requires field != "" && !space(field[0]) && value != "" && value[0] == '"'
    requires space(' ') && !space('=') && !space('"')
    ensures ReadField(space, indent + (field + (" " + ("=" + (" " + value)))), field) == ReadValue(value)
    ensures Lead(space, indent + (field + (" " + ("=" + (" " + value))))) == indent
  {
    var rest := " " + value;
    var equals := "=" + rest;
    var start := field + (" " + equals);
    TrimIndent(space, indent, start);
    assert start[|field|..] == " " + equals;
    TrimIndent(space, " ", equals);
    assert equals[1..] == rest;
    TrimIndent(space, " ", value);
  }

  /** A written line reads as the checksum, with its indentation. */
  lemma ShaLineReads(indent: string, checksum: string)
    requires Hex(checksum) && forall i :: 0 <= i < |indent| ==> IsSpace(indent[i])
    ensures FieldValue(ShaLine(indent, checksum), SHA) == Some(checksum)
    ensures Indent(ShaLine(indent, checksum)) == indent
  {
    var value := "\"" + checksum + "\",";
    assert ShaLine(indent, checksum) == indent + (SHA + (" " + ("=" + (" " + value))));
    FieldReads(IsSpace, indent, SHA, value);
    ValueReads(checksum);
  }

  /** A line holds one field at most, and a blank line none. */
  lemma OneFieldALine(line: string, field: string)
    requires field == NAME || field == PATH
    ensures FieldValue(line, SHA).Some? ==> FieldValue(line, field).None?
    ensures Blank(line) ==> FieldValue(line, field).None? && FieldValue(line, SHA).None?
  {
    assert SHA[0] == 's' && NAME[0] == 'n' && PATH[0] == 'd';
  }

  lemma ShaIsNotPath(line: string)
    ensures FieldValue(line, SHA).Some? ==> !PathLine(line)
  {
    assert SHA[0] == 's' && PATH[0] == 'd';
  }

  function Text(name: FieldName): string {
    match name
    case Name => NAME
    case Path => PATH
    case Sha => SHA
  }

  /** What the script looks for on a line. */
  const SCRIPT: Patterns := Patterns(
    (line, name) => FieldValue(line, Text(name)), Hex, PathLine, Blank, Indent, ShaLine,
    line => line == OPENER, line => line != "" && line[0] == ')')

  lemma {:induction false} BlankDoesNotClose(line: string)
    requires line != "" && line[0] == ')'
    ensures !Blank(line)
  {
  }

  lemma ShaLineDoesNotClose(line: string, checksum: string)
    ensures ShaLine(Indent(line), checksum) != "" && ShaLine(Indent(line), checksum)[0] != ')'
  {
    var sha := ShaLine(Indent(line), checksum);
    assert SHA[0] == 's';
    LeadIsSpace(IsSpace, line);
    if Indent(line) == "" {
      assert sha[0] == SHA[0];
    } else {
      assert sha[0] == Indent(line)[0];
    }
  }

  lemma ScriptField(line: string)
    ensures SCRIPT.field(line, Name) == FieldValue(line, NAME)
    ensures SCRIPT.field(line, Path) == FieldValue(line, PATH)
    ensures SCRIPT.field(line, Sha) == FieldValue(line, SHA)
  {
    assert Text(Name) == NAME && Text(Path) == PATH && Text(Sha) == SHA;
  }

  lemma ScriptFieldsDiffer(line: string)
    ensures SCRIPT.field(line, Sha).Some? ==> SCRIPT.field(line, Name).None? && SCRIPT.field(line, Path).None? && !SCRIPT.insertable(line)
    ensures SCRIPT.blank(line) ==> SCRIPT.field(line, Name).None? && SCRIPT.field(line, Path).None? && SCRIPT.field(line, Sha).None?
  {
    ScriptField(line);
    OneFieldALine(line, NAME);
    OneFieldALine(line, PATH);
    ShaIsNotPath(line);
  }

  lemma ScriptWrites(line: string, checksum: string)
    requires Hex(checksum)
    ensures ReadsAsWritten(SCRIPT, SCRIPT.indent(line), checksum)
  {
    var indent := Indent(line);
    LeadIsSpace(IsSpace, line);
    ShaLineReads(indent, checksum);
    ShaLineDoesNotClose(line, checksum);
    ScriptField(ShaLine(indent, checksum));
  }

  lemma ScriptIsLawful()
    ensures Lawful(SCRIPT)
  {
    forall line ensures SCRIPT.field(line, Sha).Some? ==> SCRIPT.field(line, Name).None? && SCRIPT.field(line, Path).None? && !SCRIPT.insertable(line) {
      ScriptFieldsDiffer(line);
    }
    forall line, name | SCRIPT.blank(line) ensures SCRIPT.field(line, name).None? {
      ScriptFieldsDiffer(line);
      assert name.Name? || name.Path? || name.Sha?;
    }
    forall line, checksum | SCRIPT.hex(checksum) ensures ReadsAsWritten(SCRIPT, SCRIPT.indent(line), checksum) {
      ScriptWrites(line, checksum);
    }
    forall line | SCRIPT.blank(line) ensures !SCRIPT.closes(line) {
      if line != "" && line[0] == ')' {
        BlankDoesNotClose(line);
      }
    }
  }
}
