/**
 Checking and updating the rusty_v8 checksums of MODULE.bazel: lines, `http_file(` blocks, and the fields in them.
 How a single line is read is a parameter here; ModuleBazelPatterns has the patterns of the script.
 */
module ModuleBazelBlocks {
  import opened Common

  datatype FieldName = Name | Path | Sha

  /** What the patterns of the script say about one line. */
  datatype Patterns = Patterns(
    field: (string, FieldName) -> Option<string>,   // the value of a string field
    hex: string -> bool,                            // a value that is lowercase hexadecimal
    insertable: string -> bool,                     // a path field with nothing at all after its comma
    blank: string -> bool,
    indent: string -> string,
    shaLine: (string, string) -> string,            // the checksum line for an indentation and a checksum
    opens: string -> bool,                          // the line `http_file(`
    closes: string -> bool)                         // a line that starts with `)`

  predicate HexLine(rx: Patterns, line: string) {
    rx.field(line, Sha).Some? && rx.hex(rx.field(line, Sha).value)
  }

  predicate ReadsAsWritten(rx: Patterns, indent: string, checksum: string) {
    var line := rx.shaLine(indent, checksum);
    rx.field(line, Sha) == Some(checksum) && rx.indent(line) == indent && !rx.closes(line)
  }

  /** What the proofs need of the patterns: a line has one field at most, a blank line has none and closes nothing,
      and a written checksum is read back with its indentation. */
  ghost predicate Lawful(rx: Patterns) {
    && (forall line :: rx.field(line, Sha).Some? ==> rx.field(line, Name).None? && rx.field(line, Path).None? && !rx.insertable(line))
    && (forall line, name :: rx.blank(line) ==> rx.field(line, name).None?)
    && (forall line, checksum :: rx.hex(checksum) ==> ReadsAsWritten(rx, rx.indent(line), checksum))
    && (forall line :: rx.blank(line) ==> !rx.closes(line))
  }

  // ----- the fields of a block -----

  /** `string_field`: the first line that holds the field decides. */
  function StringField(rx: Patterns, lines: seq<string>, name: FieldName): Option<string> {
    if lines == [] then None
    else if rx.field(lines[0], name).Some? then rx.field(lines[0], name)
    else StringField(rx, lines[1..], name)
  }

  function FirstHex(rx: Patterns, lines: seq<string>): (k: nat)
    ensures k <= |lines|
  {
    if lines == [] || HexLine(rx, lines[0]) then 0 else 1 + FirstHex(rx, lines[1..])
  }

  function FirstPath(rx: Patterns, lines: seq<string>): (k: nat)
    ensures k <= |lines|
  {
    if lines == [] || rx.insertable(lines[0]) then 0 else 1 + FirstPath(rx, lines[1..])
  }

  function DropBlank(rx: Patterns, lines: seq<string>): seq<string> {
    if lines != [] && rx.blank(lines[0]) then DropBlank(rx, lines[1..]) else lines
  }

  /** The blank lines at the end. */
  function TrailingBlank(rx: Patterns, lines: seq<string>): seq<string> {
    if lines != [] && rx.blank(lines[|lines| - 1]) then TrailingBlank(rx, lines[..|lines| - 1]) + [lines[|lines| - 1]] else []
  }

  /** `block_with_sha256`. The replaced line loses what space and blank lines follow it. An inserted line
      takes over the blank lines before the line it follows, as part of the indentation. */
  function BlockWithSha(rx: Patterns, lines: seq<string>, checksum: string): Option<seq<string>> {
    var k := FirstHex(rx, lines);
    if k < |lines| then Some(lines[..k] + [rx.shaLine(rx.indent(lines[k]), checksum)] + DropBlank(rx, lines[k + 1..]))
    else
      var p := FirstPath(rx, lines);
      if p == |lines| then None
      else Some(lines[..p + 1] + TrailingBlank(rx, lines[..p]) + [rx.shaLine(rx.indent(lines[p]), checksum)] + lines[p + 1..])
  }

  // ----- the blocks of a file -----

  datatype Segment = Line(line: string) | Block(opener: string, inside: seq<string>, closer: string)

  /** The first line that closes a block, or the length. */
  function CloserAt(rx: Patterns, lines: seq<string>): (e: nat)
    ensures e <= |lines|
  {
    if lines == [] || rx.closes(lines[0]) then 0 else 1 + CloserAt(rx, lines[1..])
  }

  predicate Opens(rx: Patterns, lines: seq<string>) {
    lines != [] && rx.opens(lines[0]) && CloserAt(rx, lines[1..]) < |lines| - 1
  }

  /** The segment that starts with the first line. */
  function FirstSegment(rx: Patterns, lines: seq<string>): Segment
    requires lines != []
  {
    if Opens(rx, lines) then
      var e := CloserAt(rx, lines[1..]);
      Block(lines[0], lines[1..e + 1], lines[e + 1])
    else Line(lines[0])
  }

  /** The number of lines it takes up. */
  function SizeOfFirst(rx: Patterns, lines: seq<string>): (n: nat)
    requires lines != []
    ensures 0 < n <= |lines|
  {
    if Opens(rx, lines) then CloserAt(rx, lines[1..]) + 2 else 1
  }

  /** The `http_file(` blocks in order, and the lines between them. */
  function Parse(rx: Patterns, lines: seq<string>): seq<Segment> {
    if lines == [] then [] else [FirstSegment(rx, lines)] + Parse(rx, lines[SizeOfFirst(rx, lines)..])
  }

  function Lines(segment: Segment): seq<string> {
    match segment
    case Line(line) => [line]
    case Block(opener, inside, closer) => [opener] + inside + [closer]
  }

  function Render(segments: seq<Segment>): seq<string> {
    if segments == [] then [] else Lines(segments[0]) + Render(segments[1..])
  }

  datatype Entry = Entry(name: string, path: string, sha: Option<string>)

  datatype Problem =
    | MissingPath(name: string)
    | NoEntries
    | RepeatedFiles(files: set<string>) | Unlisted(files: set<string>) | Unmatched(files: set<string>)
    | MissingSha(name: string) | WrongSha(name: string, sha: string)
    | NoInsertionPoint

  predicate IsEntry(rx: Patterns, prefix: string, segment: Segment) {
    segment.Block? && StringField(rx, segment.inside, Name).Some? && prefix <= StringField(rx, segment.inside, Name).value
  }

  function ToEntry(rx: Patterns, segment: Segment): Entry
    requires segment.Block? && StringField(rx, segment.inside, Name).Some? && StringField(rx, segment.inside, Path).Some?
  {
    Entry(StringField(rx, segment.inside, Name).value, StringField(rx, segment.inside, Path).value, StringField(rx, segment.inside, Sha))
  }

  /** `rusty_v8_http_files`: the entries in order, or the first one without a path. */
  function Entries(rx: Patterns, prefix: string, segments: seq<Segment>): Result<seq<Entry>, seq<Problem>> {
    if segments == [] then Ok([])
    else if !IsEntry(rx, prefix, segments[0]) then Entries(rx, prefix, segments[1..])
    else if StringField(rx, segments[0].inside, Path).None? then Err([MissingPath(StringField(rx, segments[0].inside, Name).value)])
    else
      match Entries(rx, prefix, segments[1..])
      case Ok(entries) => Ok([ToEntry(rx, segments[0])] + entries)
      case Err(e) => Err(e)
  }

  function Files(entries: seq<Entry>): set<string> {
    set i | 0 <= i < |entries| :: entries[i].path
  }

  predicate RepeatedIn(entries: seq<Entry>, file: string) {
    exists i, j :: 0 <= i < j < |entries| && entries[i].path == file && entries[j].path == file
  }

  function Repeated(entries: seq<Entry>): set<string> {
    set file | file in Files(entries) && RepeatedIn(entries, file)
  }

  function When(bad: bool, problem: Problem): seq<Problem> {
    if bad then [problem] else []
  }

  /** `module_entry_set_errors`; the source has one message for each file. */
  function EntrySetErrors(entries: seq<Entry>, checksums: map<string, string>): seq<Problem> {
    if entries == [] then [NoEntries]
    else
      When(Repeated(entries) != {}, RepeatedFiles(Repeated(entries)))
      + When(Files(entries) - checksums.Keys != {}, Unlisted(Files(entries) - checksums.Keys))
      + When(checksums.Keys - Files(entries) != {}, Unmatched(checksums.Keys - Files(entries)))
  }

  /** `module_checksum_errors` */
  function ChecksumErrors(entries: seq<Entry>, checksums: map<string, string>): seq<Problem> {
    if entries == [] then []
    else
      var n := |entries| - 1;
      var e := entries[n];
      ChecksumErrors(entries[..n], checksums)
      + if e.path !in checksums then []
        else if e.sha.None? then [MissingSha(e.name)]
        else When(e.sha.value != checksums[e.path], WrongSha(e.name, e.sha.value))
  }

  /** `check_module_bazel_text` */
  function Check(rx: Patterns, lines: seq<string>, checksums: map<string, string>, prefix: string): seq<Problem> {
    match Entries(rx, prefix, Parse(rx, lines))
    case Err(e) => e
    case Ok(entries) => EntrySetErrors(entries, checksums) + ChecksumErrors(entries, checksums)
  }

  /** Every entry block gets its checksum; everything else stays. */
  function UpdateSegments(rx: Patterns, segments: seq<Segment>, checksums: map<string, string>, prefix: string): Option<seq<Segment>> {
    if segments == [] then Some([])
    else
      var first := if IsEntry(rx, prefix, segments[0]) then UpdateBlock(rx, segments[0], checksums) else Some(segments[0]);
      var rest := UpdateSegments(rx, segments[1..], checksums, prefix);
      if first.None? || rest.None? then None else Some([first.value] + rest.value)
  }

  function UpdateBlock(rx: Patterns, segment: Segment, checksums: map<string, string>): Option<Segment>
    requires segment.Block?
  {
    match StringField(rx, segment.inside, Path)
    case None => None
    case Some(path) =>
      if path !in checksums then None
      else
        match BlockWithSha(rx, segment.inside, checksums[path])
        case None => None
        case Some(inside) => Some(segment.(inside := inside))
  }

  /** `update_module_bazel_text` */
  function Update(rx: Patterns, lines: seq<string>, checksums: map<string, string>, prefix: string): Result<seq<string>, seq<Problem>> {
    match Entries(rx, prefix, Parse(rx, lines))
    case Err(e) => Err(e)
    case Ok(entries) =>
      if EntrySetErrors(entries, checksums) != [] then Err(EntrySetErrors(entries, checksums))
      else
        match UpdateSegments(rx, Parse(rx, lines), checksums, prefix)
        case None => Err([NoInsertionPoint])
        case Some(segments) => Ok(Render(segments))
  }
}
