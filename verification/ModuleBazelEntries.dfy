/** Which blocks of MODULE.bazel the checksum script is about, and what its check asks of them, said on their lines. */
module ModuleBazelEntries {
  import opened Common
  import opened ModuleBazelBlocks
  import opened ModuleBazelFile
  import opened ModuleBazelPatterns

  // ----- one line -----

  predicate Spaces(s: string) {
    forall i :: 0 <= i < |s| ==> IsSpace(s[i])
  }

  /** The pattern `^\s*field\s*=\s*"([^"]+)",\s*$` matches the line with this value. */
  ghost predicate Matches(line: string, field: string, value: string) {
    exists a, b, c, d :: MatchesWith(line, field, value, a, b, c, d)
  }

  ghost predicate MatchesWith(line: string, field: string, value: string, a: string, b: string, c: string, d: string) {
    && Spaces(a) && Spaces(b) && Spaces(c) && Spaces(d) && value != "" && (forall i :: 0 <= i < |value| ==> value[i] != '"')
    && line == a + (field + (b + ("=" + (c + ("\"" + value + "\"" + ("," + d))))))
  }

  lemma {:induction false} Trimmed(s: string) returns (a: string)
    ensures Spaces(a) && s == a + TrimLeft(IsSpace, s)
  {
    a := "";
    if s != "" && IsSpace(s[0]) {
      var rest := Trimmed(s[1..]);
      a := [s[0]] + rest;
      assert s == [s[0]] + s[1..];
    }
  }

  lemma {:induction false} TrimSpaces(a: string, rest: string)
    requires Spaces(a) && (rest == "" || !IsSpace(rest[0]))
    ensures TrimLeft(IsSpace, a + rest) == rest
  {
    if a == "" {
      assert a + rest == rest;
    } else {
      assert (a + rest)[0] == a[0] && (a + rest)[1..] == a[1..] + rest;
      TrimSpaces(a[1..], rest);
    }
  }

  lemma {:induction false} QuoteIs(s: string)
    ensures var q := QuoteAt(s); (q < |s| ==> s[q] == '"') && forall i :: 0 <= i < q ==> s[i] != '"'
  {
    if s != "" && s[0] != '"' {
      QuoteIs(s[1..]);
      assert forall i :: 0 < i < |s| ==> s[i] == s[1..][i - 1];
    }
  }

  lemma QuotedParts(s: string, value: string, tail: string)
    requires s == "\"" + value + "\"" + ("," + tail)
    ensures |s| == |value| + 3 + |tail| && s[0] == '"' && s[1..|value| + 1] == value && s[|value| + 2] == ',' && s[|value| + 3..] == tail
  {
    var front := "\"" + value + "\"";
    assert |front| == |value| + 2 && s[|front|..] == "," + tail;
    assert s[|front| + 1..] == ("," + tail)[1..] == tail;
  }

  /** Reading a value: a quoted text that is not empty, and a comma. */
  lemma ValueMeans(s: string, value: string, tail: string)
    ensures ReadValue(s) == Some(Field(value, tail)) <==>
              value != "" && (forall i :: 0 <= i < |value| ==> value[i] != '"') && s == "\"" + value + "\"" + ("," + tail)
  {
    if ReadValue(s) == Some(Field(value, tail)) {
      var q := QuoteAt(s[1..]);
      QuoteIs(s[1..]);
      assert forall i :: 0 <= i < q ==> value[i] == s[1..][i];
      assert s[q + 1] == s[1..][q] == '"';
      assert s == [s[0]] + s[1..q + 1] + [s[q + 1]] + [s[q + 2]] + s[q + 3..];
    }
    if value != "" && (forall i :: 0 <= i < |value| ==> value[i] != '"') && s == "\"" + value + "\"" + ("," + tail) {
      assert s[1..] == value + "\"" + ("," + tail);
      QuoteAfter(value, "," + tail);
      QuotedParts(s, value, tail);
    }
  }

  lemma MatchReads(line: string, field: string, value: string, a: string, b: string, c: string, d: string)
    requires field != "" && !IsSpace(field[0]) && MatchesWith(line, field, value, a, b, c, d)
    ensures FieldValue(line, field) == Some(value)
  {
    var quoted := "\"" + value + "\"" + ("," + d);
    var afterEquals := c + quoted;
    var equals := "=" + afterEquals;
    var start := field + (b + equals);
    assert line == a + start && start[0] == field[0];
    TrimSpaces(a, start);
    assert start[..|field|] == field && start[|field|..] == b + equals;
    TrimSpaces(b, equals);
    assert equals[1..] == afterEquals && quoted[0] == '"';
    TrimSpaces(c, quoted);
    ValueMeans(quoted, value, d);
    assert d + "" == d;
    TrimSpaces(d, "");
  }

  lemma ReadMatches(line: string, field: string, value: string)
    requires FieldValue(line, field) == Some(value)
    ensures Matches(line, field, value)
  {
    var a := Trimmed(line);
    var start := TrimLeft(IsSpace, line);
    var b, equals := FieldSplit(start, field);
    var c := Trimmed(equals[1..]);
    var quoted := TrimLeft(IsSpace, equals[1..]);
    var tail := ReadValue(quoted).value.tail;
    ValueMeans(quoted, value, tail);
    var d := Trimmed(tail);
    assert equals == "=" + equals[1..] && tail == d + "" && d + "" == d;
    assert MatchesWith(line, field, value, a, b, c, d);
  }

  lemma FieldSplit(start: string, field: string) returns (b: string, equals: string)
    requires field <= start
    ensures Spaces(b) && equals == TrimLeft(IsSpace, start[|field|..]) && start == field + (b + equals)
  {
    b := Trimmed(start[|field|..]);
    equals := TrimLeft(IsSpace, start[|field|..]);
    assert start == field + start[|field|..];
  }

  /** How the script reads a field of a line is what its pattern says. */
  lemma FieldMeans(line: string, field: string, value: string)
    requires field != "" && !IsSpace(field[0])
    ensures FieldValue(line, field) == Some(value) <==> Matches(line, field, value)
  {
    if FieldValue(line, field) == Some(value) { ReadMatches(line, field, value); }
    if a, b, c, d :| MatchesWith(line, field, value, a, b, c, d) { MatchReads(line, field, value, a, b, c, d); }
  }

  /** The three fields that the script reads. */
  lemma ScriptFieldMeans(line: string, value: string)
    ensures SCRIPT.field(line, Name) == Some(value) <==> Matches(line, "name", value)
    ensures SCRIPT.field(line, Path) == Some(value) <==> Matches(line, "downloaded_file_path", value)
    ensures SCRIPT.field(line, Sha) == Some(value) <==> Matches(line, "sha256", value)
  {
    ScriptField(line);
    FieldMeans(line, "name", value);
    FieldMeans(line, "downloaded_file_path", value);
    FieldMeans(line, "sha256", value);
  }

  // ----- one block -----

  /** The first line of the block with the field has this value. */
  ghost predicate FirstValue(rx: Patterns, inside: seq<string>, name: FieldName, v: string) {
    exists k :: 0 <= k < |inside| && rx.field(inside[k], name) == Some(v) && forall j :: 0 <= j < k ==> rx.field(inside[j], name).None?
  }

  lemma {:induction false} StringFieldMeans(rx: Patterns, inside: seq<string>, name: FieldName, v: string)
    ensures StringField(rx, inside, name) == Some(v) <==> FirstValue(rx, inside, name, v)
  {
    if inside != [] {
      var rest := inside[1..];
      StringFieldMeans(rx, rest, name, v);
      if rx.field(inside[0], name).None? {
        if k :| 0 <= k < |rest| && rx.field(rest[k], name) == Some(v) && forall j :: 0 <= j < k ==> rx.field(rest[j], name).None? {
          assert inside[k + 1] == rest[k] && forall j :: 0 < j < k + 1 ==> inside[j] == rest[j - 1];
        }
        if k :| 0 <= k < |inside| && rx.field(inside[k], name) == Some(v) && forall j :: 0 <= j < k ==> rx.field(inside[j], name).None? {
          assert rest[k - 1] == inside[k] && forall j :: 0 <= j < k - 1 ==> rest[j] == inside[j + 1];
        }
      }
    }
  }

  /** An `http_file` block whose name starts with the prefix of the version. */
  ghost predicate IsHttpFile(rx: Patterns, prefix: string, segment: Segment) {
    segment.Block? && exists name :: FirstValue(rx, segment.inside, Name, name) && prefix <= name
  }

  ghost predicate HasPath(rx: Patterns, segment: Segment, path: string) {
    segment.Block? && FirstValue(rx, segment.inside, Path, path)
  }

  ghost predicate HasSha(rx: Patterns, segment: Segment, sha: string) {
    segment.Block? && FirstValue(rx, segment.inside, Sha, sha)
  }

  lemma IsEntryMeans(rx: Patterns, prefix: string, segment: Segment)
    ensures IsEntry(rx, prefix, segment) <==> IsHttpFile(rx, prefix, segment)
  {
    if segment.Block? {
      var value := StringField(rx, segment.inside, Name);
      if value.Some? { StringFieldMeans(rx, segment.inside, Name, value.value); }
      if name :| FirstValue(rx, segment.inside, Name, name) && prefix <= name { StringFieldMeans(rx, segment.inside, Name, name); }
    }
  }

  lemma PathMeans(rx: Patterns, segment: Segment, path: string)
    requires segment.Block?
    ensures StringField(rx, segment.inside, Path) == Some(path) <==> HasPath(rx, segment, path)
    ensures StringField(rx, segment.inside, Sha) == Some(path) <==> HasSha(rx, segment, path)
  {
    StringFieldMeans(rx, segment.inside, Path, path);
    StringFieldMeans(rx, segment.inside, Sha, path);
  }

  // ----- the file -----

  /** Every block that the script is about has a path. */
  ghost predicate AllHavePaths(rx: Patterns, prefix: string, segments: seq<Segment>) {
    forall i :: 0 <= i < |segments| && IsHttpFile(rx, prefix, segments[i]) ==> exists path :: HasPath(rx, segments[i], path)
  }

  ghost predicate EntryOf(rx: Patterns, prefix: string, segment: Segment, path: string) {
    IsHttpFile(rx, prefix, segment) && HasPath(rx, segment, path)
  }

  lemma SegmentMeans(rx: Patterns, prefix: string, segment: Segment)
    ensures IsEntry(rx, prefix, segment) <==> IsHttpFile(rx, prefix, segment)
    ensures IsEntry(rx, prefix, segment) ==> (StringField(rx, segment.inside, Path).Some? <==> exists path :: HasPath(rx, segment, path))
    ensures forall path :: EntryOf(rx, prefix, segment, path) <==> IsEntry(rx, prefix, segment) && StringField(rx, segment.inside, Path) == Some(path)
    ensures IsEntry(rx, prefix, segment) ==> forall sha :: StringField(rx, segment.inside, Sha) == Some(sha) <==> HasSha(rx, segment, sha)
  {
    IsEntryMeans(rx, prefix, segment);
    if segment.Block? {
      forall v
        ensures StringField(rx, segment.inside, Path) == Some(v) <==> HasPath(rx, segment, v)
        ensures StringField(rx, segment.inside, Sha) == Some(v) <==> HasSha(rx, segment, v)
      {
        PathMeans(rx, segment, v);
      }
      if StringField(rx, segment.inside, Path).Some? { assert HasPath(rx, segment, StringField(rx, segment.inside, Path).value); }
    }
  }

  /** No two blocks that the script is about have the same path. */
  ghost predicate Distinct(rx: Patterns, prefix: string, segments: seq<Segment>) {
    forall i, j, path :: 0 <= i < j < |segments| && EntryOf(rx, prefix, segments[i], path) ==> !EntryOf(rx, prefix, segments[j], path)
  }

  /** Each of them has the checksum of its file. */
  ghost predicate AllPinned(rx: Patterns, prefix: string, segments: seq<Segment>, checksums: map<string, string>) {
    forall i, path :: 0 <= i < |segments| && EntryOf(rx, prefix, segments[i], path) && path in checksums ==> HasSha(rx, segments[i], checksums[path])
  }

  /** One of them is for the file. */
  ghost predicate Somewhere(rx: Patterns, prefix: string, segments: seq<Segment>, path: string) {
    exists i :: 0 <= i < |segments| && EntryOf(rx, prefix, segments[i], path)
  }

  lemma SomewhereCons(rx: Patterns, prefix: string, segments: seq<Segment>, path: string)
    requires segments != []
    ensures Somewhere(rx, prefix, segments, path) <==> EntryOf(rx, prefix, segments[0], path) || Somewhere(rx, prefix, segments[1..], path)
  {
    var rest := segments[1..];
    if i :| 0 <= i < |rest| && EntryOf(rx, prefix, rest[i], path) { assert segments[i + 1] == rest[i]; }
    if i :| 0 < i < |segments| && EntryOf(rx, prefix, segments[i], path) { assert rest[i - 1] == segments[i]; }
  }

  lemma {:induction false} EntriesAre(rx: Patterns, prefix: string, segments: seq<Segment>)
    ensures Entries(rx, prefix, segments).Ok? <==> AllHavePaths(rx, prefix, segments)
    ensures Entries(rx, prefix, segments).Ok? ==> forall path :: path in Files(Entries(rx, prefix, segments).value) <==> Somewhere(rx, prefix, segments, path)
  {
    if segments != [] {
      EntriesAre(rx, prefix, segments[1..]);
      SegmentMeans(rx, prefix, segments[0]);
      assert forall i :: 0 < i < |segments| ==> segments[i] == segments[1..][i - 1];
      assert forall i :: 0 <= i < |segments[1..]| ==> segments[1..][i] == segments[i + 1];
      forall path ensures Somewhere(rx, prefix, segments, path) <==> EntryOf(rx, prefix, segments[0], path) || Somewhere(rx, prefix, segments[1..], path) {
        SomewhereCons(rx, prefix, segments, path);
      }
      if Entries(rx, prefix, segments).Ok? && IsEntry(rx, prefix, segments[0]) {
        FilesCons(ToEntry(rx, segments[0]), Entries(rx, prefix, segments[1..]).value);
      }
    }
  }

  lemma FilesCons(e: Entry, rest: seq<Entry>)
    ensures forall path :: path in Files([e] + rest) <==> path == e.path || path in Files(rest)
  {
    var all := [e] + rest;
    forall path ensures path in Files(all) <==> path == e.path || path in Files(rest) {
      if path in Files(all) {
        var i :| 0 <= i < |all| && all[i].path == path;
        if i > 0 { assert rest[i - 1].path == path; }
      }
      if path == e.path { assert all[0].path == path; }
      if path in Files(rest) {
        var i :| 0 <= i < |rest| && rest[i].path == path;
        assert all[i + 1].path == path;
      }
    }
  }

  lemma DistinctCons(rx: Patterns, prefix: string, segments: seq<Segment>)
    requires segments != []
    ensures Distinct(rx, prefix, segments) <==>
              && Distinct(rx, prefix, segments[1..])
              && forall path :: EntryOf(rx, prefix, segments[0], path) ==> !Somewhere(rx, prefix, segments[1..], path)
  {
    var rest := segments[1..];
    assert forall i :: 0 <= i < |rest| ==> rest[i] == segments[i + 1];
    assert forall i :: 0 < i < |segments| ==> segments[i] == rest[i - 1];
    if Distinct(rx, prefix, segments) {
      forall path | EntryOf(rx, prefix, segments[0], path) ensures !Somewhere(rx, prefix, rest, path) {
        forall i | 0 <= i < |rest| ensures !EntryOf(rx, prefix, rest[i], path) { assert !EntryOf(rx, prefix, segments[i + 1], path); }
      }
    }
  }

  lemma DistinctFilesCons(e: Entry, rest: seq<Entry>)
    ensures DistinctFiles([e] + rest) <==> e.path !in Files(rest) && DistinctFiles(rest)
  {
    var all := [e] + rest;
    assert all[0] == e && forall i :: 0 <= i < |rest| ==> all[i + 1] == rest[i];
    if DistinctFiles(all) {
      forall i | 0 <= i < |rest| ensures rest[i].path != e.path { assert all[0].path != all[i + 1].path; }
      forall i, j | 0 <= i < j < |rest| ensures rest[i].path != rest[j].path { assert all[i + 1].path != all[j + 1].path; }
    }
    if e.path !in Files(rest) && DistinctFiles(rest) {
      forall i, j | 0 <= i < j < |all| ensures all[i].path != all[j].path {
        assert rest[j - 1].path in Files(rest);
        if i > 0 { assert rest[i - 1].path != rest[j - 1].path; }
      }
    }
  }

  lemma {:induction false} DistinctMeans(rx: Patterns, prefix: string, segments: seq<Segment>)
    requires Entries(rx, prefix, segments).Ok?
    ensures DistinctFiles(Entries(rx, prefix, segments).value) <==> Distinct(rx, prefix, segments)
  {
    if segments != [] {
      var rest := segments[1..];
      DistinctMeans(rx, prefix, rest);
      EntriesAre(rx, prefix, rest);
      SegmentMeans(rx, prefix, segments[0]);
      DistinctCons(rx, prefix, segments);
      if IsEntry(rx, prefix, segments[0]) {
        DistinctFilesCons(ToEntry(rx, segments[0]), Entries(rx, prefix, rest).value);
        assert EntryOf(rx, prefix, segments[0], ToEntry(rx, segments[0]).path);
      }
    }
  }

  lemma PinnedCons(rx: Patterns, prefix: string, segments: seq<Segment>, checksums: map<string, string>)
    requires segments != []
    ensures AllPinned(rx, prefix, segments, checksums) <==>
              && AllPinned(rx, prefix, segments[1..], checksums)
              && forall path :: EntryOf(rx, prefix, segments[0], path) && path in checksums ==> HasSha(rx, segments[0], checksums[path])
  {
    var rest := segments[1..];
    assert forall i :: 0 <= i < |rest| ==> rest[i] == segments[i + 1];
    assert forall i :: 0 < i < |segments| ==> segments[i] == rest[i - 1];
  }

  lemma {:induction false} PinnedMeans(rx: Patterns, prefix: string, segments: seq<Segment>, checksums: map<string, string>)
    requires Entries(rx, prefix, segments).Ok?
    ensures AllRight(Entries(rx, prefix, segments).value, checksums) <==> AllPinned(rx, prefix, segments, checksums)
  {
    if segments != [] {
      PinnedMeans(rx, prefix, segments[1..], checksums);
      SegmentMeans(rx, prefix, segments[0]);
      PinnedCons(rx, prefix, segments, checksums);
      if IsEntry(rx, prefix, segments[0]) {
        RightSplits(ToEntry(rx, segments[0]), Entries(rx, prefix, segments[1..]).value, checksums);
        assert EntryOf(rx, prefix, segments[0], ToEntry(rx, segments[0]).path);
      }
    }
  }

  /** The check accepts a file exactly when every `http_file` block of the version has a path, no two have the same, the paths are
      the files of the manifest and there is one, and the first sha256 field of each is the checksum of its file. */
  lemma CheckOnBlocks(rx: Patterns, lines: seq<string>, checksums: map<string, string>, prefix: string)
    ensures Check(rx, lines, checksums, prefix) == [] <==>
              var segments := Parse(rx, lines);
              && AllHavePaths(rx, prefix, segments) && Distinct(rx, prefix, segments)
              && (exists path :: Somewhere(rx, prefix, segments, path))
              && (forall path :: Somewhere(rx, prefix, segments, path) <==> path in checksums)
              && AllPinned(rx, prefix, segments, checksums)
  {
    var segments := Parse(rx, lines);
    CheckMeans(rx, lines, checksums, prefix);
    EntriesAre(rx, prefix, segments);
    var entries := Entries(rx, prefix, segments);
    if entries.Ok? {
      DistinctMeans(rx, prefix, segments);
      PinnedMeans(rx, prefix, segments, checksums);
      FilesAreKeys(rx, prefix, segments, entries.value, checksums);
    }
  }

  lemma FilesAreKeys(rx: Patterns, prefix: string, segments: seq<Segment>, entries: seq<Entry>, checksums: map<string, string>)
    requires forall path :: path in Files(entries) <==> Somewhere(rx, prefix, segments, path)
    ensures Files(entries) == checksums.Keys <==> forall path :: Somewhere(rx, prefix, segments, path) <==> path in checksums
    ensures entries != [] <==> exists path :: Somewhere(rx, prefix, segments, path)
  {
    if entries != [] { assert entries[0].path in Files(entries); }
    if Files(entries) == checksums.Keys {
      forall path ensures Somewhere(rx, prefix, segments, path) <==> path in checksums { assert path in Files(entries) <==> path in checksums.Keys; }
    }
    if forall path :: Somewhere(rx, prefix, segments, path) <==> path in checksums {
      forall path ensures path in Files(entries) <==> path in checksums.Keys { assert Somewhere(rx, prefix, segments, path) <==> path in checksums; }
    }
  }
}
