/** The checksum manifest, and what the script achieves on MODULE.bazel. */
module ModuleBazelResults {
  import opened Common
  import opened ModuleBazelBlocks
  import opened ModuleBazelUpdate
  import opened ModuleBazelFile
  import opened ModuleBazelPatterns

  // ----- the manifest -----

  datatype ManifestError = NotTwoWords(line: nat) | BadDigest(line: nat) | NotBare(line: nat) | Duplicate(line: nat) | EmptyManifest

  type Manifest = Result<map<string, string>, ManifestError>

  predicate IsDigest(s: string) {
    |s| == 64 && Hex(s)
  }

  predicate IsBare(file: string) {
    file != "" && file != "." && file != ".." && '/' !in file
  }

  /** One line of the manifest, given as its words. */
  function ManifestStep(m: Manifest, words: seq<string>, line: nat): Manifest {
    if m.Err? || words == [] then m
    else if |words| != 2 then Err(NotTwoWords(line))
    else if !IsDigest(words[0]) then Err(BadDigest(line))
    else if !IsBare(words[1]) then Err(NotBare(line))
    else if words[1] in m.value then Err(Duplicate(line))
    else Ok(m.value[words[1] := words[0]])
  }

  function ReadManifest(lines: seq<seq<string>>): Manifest {
    if lines == [] then Ok(map[]) else ManifestStep(ReadManifest(lines[..|lines| - 1]), lines[|lines| - 1], |lines|)
  }

  /** `parse_checksum_manifest` */
  function ParseManifest(lines: seq<seq<string>>): Manifest {
    var m := ReadManifest(lines);
    if m == Ok(map[]) then Err(EmptyManifest) else m
  }

  lemma {:induction false} ErrorStays(lines: seq<seq<string>>, i: nat)
    requires i <= |lines| && ReadManifest(lines[..i]).Err?
    ensures ReadManifest(lines) == ReadManifest(lines[..i])
    decreases |lines| - i
  {
    if i == |lines| {
      assert lines[..i] == lines;
    } else {
      assert lines[..i + 1][..i] == lines[..i];
      ErrorStays(lines, i + 1);
    }
  }

  method ParseChecksumManifest(lines: seq<seq<string>>) returns (result: Manifest)
    ensures result == ParseManifest(lines)
  {
    var checksums := map[];
    for i := 0 to |lines|
      invariant ReadManifest(lines[..i]) == Ok(checksums)
    {
      assert lines[..i + 1][..i] == lines[..i];
      var step := ManifestStep(Ok(checksums), lines[i], i + 1);
      if step.Err? {
        ErrorStays(lines, i + 1);
        return step;
      }
      checksums := step.value;
    }
    assert lines[..|lines|] == lines;
    result := if checksums == map[] then Err(EmptyManifest) else Ok(checksums);
  }

  /** A manifest that is read lists exactly its lines, each a SHA-256 digest and a bare file name. */
  lemma {:induction false} ManifestMeans(lines: seq<seq<string>>, file: string)
    requires ReadManifest(lines).Ok?
    ensures var m := ReadManifest(lines).value;
            && (file in m <==> exists i :: 0 <= i < |lines| && |lines[i]| == 2 && lines[i][1] == file)
            && (file in m ==> IsDigest(m[file]) && IsBare(file) && [m[file], file] in lines)
  {
    if lines != [] {
      var n := |lines| - 1;
      ManifestMeans(lines[..n], file);
      assert lines == lines[..n] + [lines[n]];
      var before := ReadManifest(lines[..n]).value;
      if file in before {
        var i :| 0 <= i < n && |lines[..n][i]| == 2 && lines[..n][i][1] == file;
        assert lines[i] == lines[..n][i];
      }
      if i :| 0 <= i < n && |lines[i]| == 2 && lines[i][1] == file {
        assert lines[..n][i] == lines[i];
      }
      if |lines[n]| == 2 {
        assert lines[n] == [lines[n][0], lines[n][1]];
      }
    }
  }

  lemma ManifestIsHex(lines: seq<seq<string>>)
    requires ParseManifest(lines).Ok?
    ensures AllHex(SCRIPT, ParseManifest(lines).value)
  {
    forall file | file in ParseManifest(lines).value ensures Hex(ParseManifest(lines).value[file]) {
      ManifestMeans(lines, file);
    }
  }

  // ----- the script on any file -----

  /** Whatever the manifest and the file: when an update returns, the check accepts its output exactly when no entry
      has a sha256 field before the place of its checksum; a second update returns too, and changes nothing
      exactly when no checksum was inserted before a blank line; and the rest of the file is kept. */
  lemma ScriptUpdates(manifest: seq<seq<string>>, lines: seq<string>, prefix: string)
    requires ParseManifest(manifest).Ok? && Update(SCRIPT, lines, ParseManifest(manifest).value, prefix).Ok?
    ensures var checksums := ParseManifest(manifest).value;
            var once := Update(SCRIPT, lines, checksums, prefix);
            var twice := Update(SCRIPT, once.value, checksums, prefix);
            && (Check(SCRIPT, once.value, checksums, prefix) == [] <==> AllClear(SCRIPT, prefix, Parse(SCRIPT, lines)))
            && twice.Ok? && (twice == once <==> NoGaps(SCRIPT, prefix, Parse(SCRIPT, lines)))
            && AllKept(SCRIPT, prefix, checksums, Parse(SCRIPT, lines), Parse(SCRIPT, once.value))
  {
    var checksums := ParseManifest(manifest).value;
    ScriptIsLawful();
    ManifestIsHex(manifest);
    UpdateSatisfiesCheck(SCRIPT, lines, checksums, prefix);
    UpdateTwice(SCRIPT, lines, checksums, prefix);
    UpdateKeepsTheRest(SCRIPT, lines, checksums, prefix);
  }

  // ----- tidy files -----

  /** A block without blank lines whose sha256 fields are all lowercase hexadecimal. */
  predicate Tidy(rx: Patterns, inside: seq<string>) {
    forall i :: 0 <= i < |inside| ==> !rx.blank(inside[i]) && (rx.field(inside[i], Sha).Some? ==> HexLine(rx, inside[i]))
  }

  predicate AllTidy(rx: Patterns, prefix: string, segments: seq<Segment>) {
    forall i :: 0 <= i < |segments| && IsEntry(rx, prefix, segments[i]) ==> Tidy(rx, segments[i].inside)
  }

  lemma TidyIsClear(rx: Patterns, inside: seq<string>)
    requires Tidy(rx, inside)
    ensures Clear(rx, inside) && !OpensGap(rx, inside)
  {
    FirstHexMeans(rx, inside);
    forall j | 0 <= j < |inside| && j < Spot(rx, inside) ensures rx.field(inside[j], Sha).None? {
      assert !HexLine(rx, inside[j]);
    }
  }

  lemma {:induction false} TidyFileIsClear(rx: Patterns, prefix: string, segments: seq<Segment>)
    requires AllTidy(rx, prefix, segments)
    ensures AllClear(rx, prefix, segments) && NoGaps(rx, prefix, segments)
  {
    if segments != [] {
      if IsEntry(rx, prefix, segments[0]) {
        TidyIsClear(rx, segments[0].inside);
      }
      assert forall i :: 0 <= i < |segments[1..]| ==> segments[1..][i] == segments[i + 1];
      TidyFileIsClear(rx, prefix, segments[1..]);
    }
  }

  /** On files whose entry blocks are tidy, the check accepts every update and a second update changes nothing. */
  lemma TidyFilesConverge(manifest: seq<seq<string>>, lines: seq<string>, prefix: string)
    requires ParseManifest(manifest).Ok? && Update(SCRIPT, lines, ParseManifest(manifest).value, prefix).Ok?
    requires AllTidy(SCRIPT, prefix, Parse(SCRIPT, lines))
    ensures var checksums := ParseManifest(manifest).value;
            var once := Update(SCRIPT, lines, checksums, prefix);
            Check(SCRIPT, once.value, checksums, prefix) == [] && Update(SCRIPT, once.value, checksums, prefix) == once
  {
    TidyFileIsClear(SCRIPT, prefix, Parse(SCRIPT, lines));
    ScriptUpdates(manifest, lines, prefix);
  }

  // ----- files on which the script does not converge -----

  predicate Plain(value: string) {
    value != "" && forall i :: 0 <= i < |value| ==> value[i] != '"'
  }

  function FieldLine(name: FieldName, value: string): string {
    Text(name) + (" " + ("=" + (" " + ("\"" + value + "\","))))
  }

  lemma FieldLineReads(name: FieldName, value: string)
    requires Plain(value)
    ensures ReadField(IsSpace, FieldLine(name, value), Text(name)) == Some(Field(value, ""))
    ensures FieldLine(name, value) != "" && FieldLine(name, value)[0] == Text(name)[0]
    ensures TrimLeft(IsSpace, FieldLine(name, value)) == FieldLine(name, value)
  {
    var quoted := "\"" + value + "\",";
    assert "" + FieldLine(name, value) == FieldLine(name, value);
    FirstLetters();
    FieldReads(IsSpace, "", Text(name), quoted);
    ValueReads(value);
    TrimIndent(IsSpace, "", FieldLine(name, value));
  }

  lemma FirstLetters()
    ensures Text(Name) != "" && Text(Name)[0] == 'n'
    ensures Text(Path) != "" && Text(Path)[0] == 'd'
    ensures Text(Sha) != "" && Text(Sha)[0] == 's'
  {
  }

  lemma OtherFieldsAreNone(name: FieldName, value: string, other: FieldName)
    requires Plain(value) && other != name
    ensures ReadField(IsSpace, FieldLine(name, value), Text(other)).None?
  {
    FieldLineReads(name, value);
    FirstLetters();
    assert !(Text(other) <= FieldLine(name, value)) by {
      assert Text(other)[0] != FieldLine(name, value)[0];
    }
  }

  /** A field line holds its field and no other, closes nothing, and a path line can be inserted after. */
  lemma ScriptFieldLine(name: FieldName, value: string)
    requires Plain(value)
    ensures var line := FieldLine(name, value);
            && SCRIPT.field(line, name) == Some(value)
            && (forall other :: other != name ==> SCRIPT.field(line, other).None?)
            && (SCRIPT.insertable(line) <==> name.Path?) && !SCRIPT.closes(line)
  {
    var line := FieldLine(name, value);
    FieldLineReads(name, value);
    FirstLetters();
    forall other | other != name ensures SCRIPT.field(line, other).None? {
      OtherFieldsAreNone(name, value, other);
    }
    if !name.Path? {
      OtherFieldsAreNone(name, value, Path);
    }
  }

  lemma OneFileMatches(e: Entry, checksum: string)
    ensures EntrySetErrors([e], map[e.path := checksum]) == []
  {
    assert [e][0].path == e.path;
    assert Files([e]) == {e.path};
    assert forall file :: !RepeatedIn([e], file);
    assert Repeated([e]) == {};
    assert map[e.path := checksum].Keys == {e.path};
  }

  lemma OneEntry(rx: Patterns, block: Segment, prefix: string)
    requires IsEntry(rx, prefix, block) && StringField(rx, block.inside, Path).Some?
    ensures Entries(rx, prefix, [block]) == Ok([ToEntry(rx, block)])
  {
    assert [block][1..] == [];
    assert Entries(rx, prefix, [block][1..]) == Ok([]);
    assert [ToEntry(rx, block)] + [] == [ToEntry(rx, block)];
  }

  lemma ParseOne(rx: Patterns, block: Segment)
    requires Fits(rx, block, [])
    ensures Parse(rx, Lines(block)) == [block]
  {
    assert Lines(block) + [] == Lines(block) && [block] + [] == [block];
    ParseFirst(rx, block, []);
  }

  /** A file with a single entry block: the update returns as soon as the block has a line to insert after. */
  lemma OneBlock(rx: Patterns, lines: seq<string>, block: Segment, prefix: string, checksum: string)
    requires Parse(rx, lines) == [block] && IsEntry(rx, prefix, block) && StringField(rx, block.inside, Path).Some?
    requires FirstPath(rx, block.inside) < |block.inside|
    ensures Update(rx, lines, map[StringField(rx, block.inside, Path).value := checksum], prefix).Ok?
    ensures AllClear(rx, prefix, [block]) <==> Clear(rx, block.inside)
    ensures NoGaps(rx, prefix, [block]) <==> !OpensGap(rx, block.inside)
  {
    var checksums := map[StringField(rx, block.inside, Path).value := checksum];
    OneEntry(rx, block, prefix);
    OneFileMatches(ToEntry(rx, block), checksum);
    assert [block][1..] == [];
    assert UpdateSegments(rx, [block][1..], checksums, prefix) == Some([]);
    assert BlockWithSha(rx, block.inside, checksum).Some?;
  }

  function ScriptBlock(inside: seq<string>): Segment {
    Block(OPENER, inside, ")")
  }

  lemma {:induction false} NotHex(rx: Patterns, lines: seq<string>)
    requires forall j :: 0 <= j < |lines| ==> !HexLine(rx, lines[j])
    ensures FirstHex(rx, lines) == |lines|
  {
    FirstHexMeans(rx, lines);
  }

  lemma FieldAtSecond(rx: Patterns, lines: seq<string>, name: FieldName)
    requires |lines| > 1 && rx.field(lines[0], name).None? && rx.field(lines[1], name).Some?
    ensures StringField(rx, lines, name) == rx.field(lines[1], name)
  {
    assert lines[1..][0] == lines[1];
  }

  lemma FieldAtThird(rx: Patterns, lines: seq<string>, name: FieldName)
    requires |lines| > 2 && rx.field(lines[0], name).None? && rx.field(lines[1], name).None? && rx.field(lines[2], name).Some?
    ensures StringField(rx, lines, name) == rx.field(lines[2], name)
  {
    FieldAtSecond(rx, lines[1..], name);
  }

  /** Name, a sha256 field that is not hexadecimal, path. */
  predicate StaleLines(rx: Patterns, x: seq<string>, prefix: string, file: string) {
    && |x| == 3 && rx.field(x[0], Name) == Some(prefix)
    && rx.field(x[0], Path).None? && rx.field(x[1], Path).None? && rx.field(x[2], Path) == Some(file)
    && rx.field(x[0], Sha).None? && rx.field(x[1], Sha).Some? && !rx.hex(rx.field(x[1], Sha).value) && rx.field(x[2], Sha).None?
    && !rx.insertable(x[0]) && !rx.insertable(x[1]) && rx.insertable(x[2])
  }

  /** Name, path, a blank line. */
  predicate GapLines(rx: Patterns, x: seq<string>, prefix: string, file: string) {
    && |x| == 3 && rx.field(x[0], Name) == Some(prefix)
    && rx.field(x[0], Path).None? && rx.field(x[1], Path) == Some(file)
    && rx.field(x[0], Sha).None? && rx.field(x[1], Sha).None? && rx.field(x[2], Sha).None?
    && !rx.insertable(x[0]) && rx.insertable(x[1]) && rx.blank(x[2])
  }

  lemma StaleIsNotClear(rx: Patterns, inside: seq<string>, prefix: string, file: string)
    requires StaleLines(rx, inside, prefix, file)
    ensures StringField(rx, inside, Name) == Some(prefix) && StringField(rx, inside, Path) == Some(file)
    ensures FirstPath(rx, inside) == 2 && !Clear(rx, inside)
  {
    FieldAtThird(rx, inside, Path);
    assert forall j :: 0 <= j < 3 ==> !HexLine(rx, inside[j]);
    NotHex(rx, inside);
    FirstPathMeans(rx, inside);
    assert FirstPath(rx, inside) == 2;
    assert Spot(rx, inside) == 2 && rx.field(inside[1], Sha).Some?;
  }

  lemma GapIsOpened(rx: Patterns, inside: seq<string>, prefix: string, file: string)
    requires GapLines(rx, inside, prefix, file)
    ensures StringField(rx, inside, Name) == Some(prefix) && StringField(rx, inside, Path) == Some(file)
    ensures FirstPath(rx, inside) == 1 && OpensGap(rx, inside)
  {
    FieldAtSecond(rx, inside, Path);
    assert forall j :: 0 <= j < 3 ==> !HexLine(rx, inside[j]);
    NotHex(rx, inside);
    FirstPathMeans(rx, inside);
    assert FirstPath(rx, inside) == 1;
  }

  /** A file with a single entry block that is not clear: the check rejects what the update returns. */
  lemma UnclearBlock(rx: Patterns, lines: seq<string>, block: Segment, prefix: string, file: string, checksum: string)
    requires Lawful(rx) && rx.hex(checksum) && Parse(rx, lines) == [block] && IsEntry(rx, prefix, block)
    requires StringField(rx, block.inside, Path) == Some(file) && FirstPath(rx, block.inside) < |block.inside| && !Clear(rx, block.inside)
    ensures Update(rx, lines, map[file := checksum], prefix).Ok?
    ensures Check(rx, Update(rx, lines, map[file := checksum], prefix).value, map[file := checksum], prefix) != []
  {
    OneBlock(rx, lines, block, prefix, checksum);
    UpdateSatisfiesCheck(rx, lines, map[file := checksum], prefix);
  }

  /** A file with a single entry block that opens a gap: a second update changes it. */
  lemma GapBlock(rx: Patterns, lines: seq<string>, block: Segment, prefix: string, file: string, checksum: string)
    requires Lawful(rx) && rx.hex(checksum) && Parse(rx, lines) == [block] && IsEntry(rx, prefix, block)
    requires StringField(rx, block.inside, Path) == Some(file) && FirstPath(rx, block.inside) < |block.inside| && OpensGap(rx, block.inside)
    ensures Update(rx, lines, map[file := checksum], prefix).Ok?
    ensures Update(rx, Update(rx, lines, map[file := checksum], prefix).value, map[file := checksum], prefix) != Update(rx, lines, map[file := checksum], prefix)
  {
    OneBlock(rx, lines, block, prefix, checksum);
    UpdateTwice(rx, lines, map[file := checksum], prefix);
  }

  /** An entry with a checksum that is not lowercase hexadecimal, before its path: the update returns, and the check
      rejects what it returned. */
  lemma CheckRejectsUpdate(prefix: string, file: string, stale: string, checksum: string)
    requires Plain(prefix) && Plain(file) && Plain(stale) && !Hex(stale) && Hex(checksum)
    ensures var lines := Lines(ScriptBlock([FieldLine(Name, prefix), FieldLine(Sha, stale), FieldLine(Path, file)]));
            var update := Update(SCRIPT, lines, map[file := checksum], prefix);
            update.Ok? && Check(SCRIPT, update.value, map[file := checksum], prefix) != []
  {
    ScriptFieldLine(Name, prefix);
    ScriptFieldLine(Sha, stale);
    ScriptFieldLine(Path, file);
    ScriptIsLawful();
    var inside := [FieldLine(Name, prefix), FieldLine(Sha, stale), FieldLine(Path, file)];
    StaleIsNotClear(SCRIPT, inside, prefix, file);
    ParseOne(SCRIPT, ScriptBlock(inside));
    UnclearBlock(SCRIPT, Lines(ScriptBlock(inside)), ScriptBlock(inside), prefix, file, checksum);
  }

  /** An entry without a checksum and with a blank line after its path: a second update changes the file again. */
  lemma SecondUpdateChanges(prefix: string, file: string, checksum: string)
    requires Plain(prefix) && Plain(file) && Hex(checksum)
    ensures var lines := Lines(ScriptBlock([FieldLine(Name, prefix), FieldLine(Path, file), ""]));
            var update := Update(SCRIPT, lines, map[file := checksum], prefix);
            update.Ok? && Update(SCRIPT, update.value, map[file := checksum], prefix) != update
  {
    ScriptFieldLine(Name, prefix);
    ScriptFieldLine(Path, file);
    ScriptIsLawful();
    var inside := [FieldLine(Name, prefix), FieldLine(Path, file), ""];
    GapIsOpened(SCRIPT, inside, prefix, file);
    ParseOne(SCRIPT, ScriptBlock(inside));
    GapBlock(SCRIPT, Lines(ScriptBlock(inside)), ScriptBlock(inside), prefix, file, checksum);
  }
}
