/** The whole file: an update is parsed again block by block, so the check of its output is decided entry by entry. */
module ModuleBazelFile {
  import opened Common
  import opened ModuleBazelBlocks
  import opened ModuleBazelUpdate

  // ----- parsing what was rendered -----

  lemma {:induction false} CloserMeans(rx: Patterns, lines: seq<string>)
    ensures var e := CloserAt(rx, lines);
            (e < |lines| ==> rx.closes(lines[e])) && NoCloser(rx, lines[..e])
  {
    if lines != [] && !rx.closes(lines[0]) {
      CloserMeans(rx, lines[1..]);
      var e := CloserAt(rx, lines);
      forall i | 0 <= i < e ensures !rx.closes(lines[..e][i]) {
        if i > 0 {
          assert lines[..e][i] == lines[1..][..e - 1][i - 1];
        }
      }
    }
  }

  /** The first segment is the lines it takes up. */
  lemma FirstLines(rx: Patterns, lines: seq<string>)
    requires lines != []
    ensures lines[..SizeOfFirst(rx, lines)] == Lines(FirstSegment(rx, lines))
  {
    if Opens(rx, lines) {
      var e := CloserAt(rx, lines[1..]);
      assert lines[..e + 2] == [lines[0]] + lines[1..e + 1] + [lines[e + 1]];
    }
  }

  lemma RenderNext(segment: Segment, rest: seq<Segment>)
    ensures Render([segment] + rest) == Lines(segment) + Render(rest)
  {
    assert ([segment] + rest)[1..] == rest;
  }

  /** Names a text for which the next segment is wanted. */
  predicate Starts(lines: seq<string>) {
    true
  }

  /** Rendering undoes any function that takes off one segment after another. */
  lemma {:induction false} RendersParsing(parse: seq<string> -> seq<Segment>, render: seq<Segment> -> seq<string>,
                                          first: seq<string> -> Segment, size: seq<string> -> nat, lines: seq<string>)
    requires parse([]) == [] && render([]) == [] && forall s, rest :: render([s] + rest) == Lines(s) + render(rest)
    requires forall rest {:trigger Starts(rest)} :: Starts(rest) && rest != [] ==>
               && 0 < size(rest) <= |rest| && rest[..size(rest)] == Lines(first(rest))
               && parse(rest) == [first(rest)] + parse(rest[size(rest)..])
    ensures render(parse(lines)) == lines
  {
    if lines != [] {
      assert Starts(lines);
      var n := size(lines);
      RendersParsing(parse, render, first, size, lines[n..]);
      assert lines == lines[..n] + lines[n..];
    }
  }

  lemma RenderParse(rx: Patterns, lines: seq<string>)
    ensures Render(Parse(rx, lines)) == lines
  {
    var first := (rest: seq<string>) => if rest == [] then Line("") else FirstSegment(rx, rest);
    var size := (rest: seq<string>) => if rest == [] then 0 else SizeOfFirst(rx, rest);
    forall rest | Starts(rest) && rest != []
      ensures 0 < size(rest) <= |rest| && rest[..size(rest)] == Lines(first(rest))
      ensures Parse(rx, rest) == [first(rest)] + Parse(rx, rest[size(rest)..])
    {
      FirstLines(rx, rest);
    }
    forall s, rest ensures Render([s] + rest) == Lines(s) + Render(rest) {
      RenderNext(s, rest);
    }
    RendersParsing(rest => Parse(rx, rest), segments => Render(segments), first, size, lines);
  }

  predicate NoCloser(rx: Patterns, lines: seq<string>) {
    forall i :: 0 <= i < |lines| ==> !rx.closes(lines[i])
  }

  /** The segment starts just where and just as the parser would have it, with this text after it. */
  predicate Fits(rx: Patterns, segment: Segment, after: seq<string>) {
    match segment
    case Line(line) => !rx.opens(line) || NoCloser(rx, after)
    case Block(opener, inside, closer) => rx.opens(opener) && NoCloser(rx, inside) && rx.closes(closer)
  }

  predicate Settled(rx: Patterns, segments: seq<Segment>) {
    segments == [] || (Fits(rx, segments[0], Render(segments[1..])) && Settled(rx, segments[1..]))
  }

  lemma {:induction false} CloserIs(rx: Patterns, inside: seq<string>, closer: string, after: seq<string>)
    requires NoCloser(rx, inside) && rx.closes(closer)
    ensures CloserAt(rx, inside + [closer] + after) == |inside|
  {
    var lines := inside + [closer] + after;
    if inside != [] {
      assert lines[1..] == inside[1..] + [closer] + after;
      CloserIs(rx, inside[1..], closer, after);
    }
  }

  lemma NoCloserMeans(rx: Patterns, lines: seq<string>)
    ensures CloserAt(rx, lines) == |lines| <==> NoCloser(rx, lines)
  {
    CloserMeans(rx, lines);
    if CloserAt(rx, lines) == |lines| {
      assert lines[..|lines|] == lines;
    }
  }

  lemma FirstFits(rx: Patterns, segment: Segment, after: seq<string>)
    requires Fits(rx, segment, after)
    ensures FirstSegment(rx, Lines(segment) + after) == segment && SizeOfFirst(rx, Lines(segment) + after) == |Lines(segment)|
  {
    var lines := Lines(segment) + after;
    match segment
    case Line(line) =>
      assert lines[1..] == after;
      NoCloserMeans(rx, after);
    case Block(opener, inside, closer) =>
      assert lines[1..] == inside + [closer] + after;
      CloserIs(rx, inside, closer, after);
      assert lines[1..|inside| + 1] == inside && lines[|inside| + 1] == closer;
  }

  lemma ParseFirst(rx: Patterns, segment: Segment, after: seq<string>)
    requires Fits(rx, segment, after)
    ensures Parse(rx, Lines(segment) + after) == [segment] + Parse(rx, after)
  {
    var lines := Lines(segment) + after;
    FirstFits(rx, segment, after);
    assert lines[|Lines(segment)|..] == after;
  }

  /** Any function that parses one fitting segment after another undoes the rendering. */
  lemma {:induction false} ParsesRendering(rx: Patterns, parse: seq<string> -> seq<Segment>, segments: seq<Segment>)
    requires parse([]) == [] && Settled(rx, segments)
    requires forall segment, after {:trigger Fits(rx, segment, after)} :: Fits(rx, segment, after) ==> parse(Lines(segment) + after) == [segment] + parse(after)
    ensures parse(Render(segments)) == segments
  {
    if segments != [] {
      ParsesRendering(rx, parse, segments[1..]);
      assert Fits(rx, segments[0], Render(segments[1..]));
      assert segments == [segments[0]] + segments[1..];
    }
  }

  lemma ParseRender(rx: Patterns, segments: seq<Segment>)
    requires Settled(rx, segments)
    ensures Parse(rx, Render(segments)) == segments
  {
    forall segment, after | Fits(rx, segment, after) ensures Parse(rx, Lines(segment) + after) == [segment] + Parse(rx, after) {
      ParseFirst(rx, segment, after);
    }
    ParsesRendering(rx, lines => Parse(rx, lines), segments);
  }

  lemma FirstSegmentFits(rx: Patterns, lines: seq<string>)
    requires lines != []
    ensures Fits(rx, FirstSegment(rx, lines), lines[SizeOfFirst(rx, lines)..])
  {
    CloserMeans(rx, lines[1..]);
    NoCloserMeans(rx, lines[1..]);
    if Opens(rx, lines) {
      var e := CloserAt(rx, lines[1..]);
      assert lines[1..][..e] == lines[1..e + 1];
    }
  }

  lemma {:induction false} ParseIsSettled(rx: Patterns, lines: seq<string>)
    ensures Settled(rx, Parse(rx, lines))
  {
    if lines != [] {
      var n := SizeOfFirst(rx, lines);
      ParseIsSettled(rx, lines[n..]);
      FirstSegmentFits(rx, lines);
      RenderParse(rx, lines[n..]);
      assert Parse(rx, lines)[1..] == Parse(rx, lines[n..]);
    }
  }

  // ----- an updated block still fits -----

  lemma {:induction false} TrailingComesFrom(rx: Patterns, lines: seq<string>)
    requires NoCloser(rx, lines)
    ensures NoCloser(rx, TrailingBlank(rx, lines))
  {
    if lines != [] && rx.blank(lines[|lines| - 1]) {
      TrailingComesFrom(rx, lines[..|lines| - 1]);
    }
  }

  lemma {:induction false} DropComesFrom(rx: Patterns, lines: seq<string>)
    requires NoCloser(rx, lines)
    ensures NoCloser(rx, DropBlank(rx, lines))
  {
    if lines != [] && rx.blank(lines[0]) {
      DropComesFrom(rx, lines[1..]);
    }
  }

  lemma UpdateStaysInside(rx: Patterns, inside: seq<string>, checksum: string)
    requires Lawful(rx) && rx.hex(checksum) && NoCloser(rx, inside) && BlockWithSha(rx, inside, checksum).Some?
    ensures NoCloser(rx, BlockWithSha(rx, inside, checksum).value)
  {
    UpdatedParts(rx, inside, checksum);
    var at := Spot(rx, inside);
    assert ReadsAsWritten(rx, rx.indent(inside[at]), checksum);
    TrailingComesFrom(rx, inside[..at]);
    DropComesFrom(rx, inside[at + 1..]);
    NoCloserAround(rx, Before(rx, inside), NewLine(rx, inside, checksum), After(rx, inside));
  }

  lemma NoCloserAround(rx: Patterns, before: seq<string>, line: string, after: seq<string>)
    requires NoCloser(rx, before) && !rx.closes(line) && NoCloser(rx, after)
    ensures NoCloser(rx, before + [line] + after)
  {
  }

  ghost predicate AllHex(rx: Patterns, checksums: map<string, string>) {
    forall file :: file in checksums ==> rx.hex(checksums[file])
  }

  /** What becomes of one segment. */
  function Updated(rx: Patterns, segment: Segment, checksums: map<string, string>, prefix: string): Option<Segment> {
    if IsEntry(rx, prefix, segment) then UpdateBlock(rx, segment, checksums) else Some(segment)
  }

  lemma UpdatedFits(rx: Patterns, segment: Segment, checksums: map<string, string>, prefix: string, after: seq<string>, after': seq<string>)
    requires Lawful(rx) && AllHex(rx, checksums) && Updated(rx, segment, checksums, prefix).Some?
    requires Fits(rx, segment, after) && (NoCloser(rx, after) ==> NoCloser(rx, after'))
    ensures Fits(rx, Updated(rx, segment, checksums, prefix).value, after')
  {
    if IsEntry(rx, prefix, segment) {
      UpdateStaysInside(rx, segment.inside, checksums[StringField(rx, segment.inside, Path).value]);
    }
  }

  lemma NoCloserInParts(rx: Patterns, segment: Segment, after: seq<string>)
    requires NoCloser(rx, Lines(segment) + after)
    ensures NoCloser(rx, after)
    ensures segment.Block? ==> !rx.closes(segment.closer)
  {
    var lines := Lines(segment) + after;
    assert forall i :: 0 <= i < |after| ==> after[i] == lines[|Lines(segment)| + i];
    var last := |Lines(segment)| - 1;
    assert lines[last] == Lines(segment)[last];
  }

  /** Where nothing closes a block there is no block, and an update leaves all as it is. */
  lemma {:induction false} NoBlocksNoChange(rx: Patterns, segments: seq<Segment>, checksums: map<string, string>, prefix: string)
    requires Settled(rx, segments) && NoCloser(rx, Render(segments))
    ensures UpdateSegments(rx, segments, checksums, prefix) == Some(segments)
  {
    if segments != [] {
      NoCloserInParts(rx, segments[0], Render(segments[1..]));
      NoBlocksNoChange(rx, segments[1..], checksums, prefix);
      assert segments == [segments[0]] + segments[1..];
    }
  }

  lemma {:induction false} UpdateIsSettled(rx: Patterns, segments: seq<Segment>, checksums: map<string, string>, prefix: string)
    requires Lawful(rx) && AllHex(rx, checksums) && Settled(rx, segments)
    requires UpdateSegments(rx, segments, checksums, prefix).Some?
    ensures Settled(rx, UpdateSegments(rx, segments, checksums, prefix).value)
  {
    if segments != [] {
      var rest := UpdateSegments(rx, segments[1..], checksums, prefix);
      UpdateIsSettled(rx, segments[1..], checksums, prefix);
      if NoCloser(rx, Render(segments[1..])) {
        NoBlocksNoChange(rx, segments[1..], checksums, prefix);
      }
      UpdatedFits(rx, segments[0], checksums, prefix, Render(segments[1..]), Render(rest.value));
    }
  }

  // ----- entries before and after -----

  lemma UpdatedEntry(rx: Patterns, segment: Segment, checksums: map<string, string>, prefix: string)
    requires Lawful(rx) && AllHex(rx, checksums) && IsEntry(rx, prefix, segment) && UpdateBlock(rx, segment, checksums).Some?
    ensures var updated := UpdateBlock(rx, segment, checksums).value;
            && IsEntry(rx, prefix, updated) && StringField(rx, segment.inside, Path).Some?
            && StringField(rx, updated.inside, Name) == StringField(rx, segment.inside, Name)
            && StringField(rx, updated.inside, Path) == StringField(rx, segment.inside, Path)
            && (StringField(rx, updated.inside, Sha) == Some(checksums[StringField(rx, segment.inside, Path).value]) <==> Clear(rx, segment.inside))
  {
    var checksum := checksums[StringField(rx, segment.inside, Path).value];
    UpdateKeepsField(rx, segment.inside, checksum, Name);
    UpdateKeepsField(rx, segment.inside, checksum, Path);
    UpdateSetsSha(rx, segment.inside, checksum);
  }

  /** In every entry block, no sha256 field comes before the place where the checksum goes. */
  predicate AllClear(rx: Patterns, prefix: string, segments: seq<Segment>) {
    segments == [] || ((IsEntry(rx, prefix, segments[0]) ==> Clear(rx, segments[0].inside)) && AllClear(rx, prefix, segments[1..]))
  }

  predicate SameFiles(a: seq<Entry>, b: seq<Entry>) {
    |a| == |b| && forall i :: 0 <= i < |a| ==> a[i].name == b[i].name && a[i].path == b[i].path
  }

  predicate AllRight(entries: seq<Entry>, checksums: map<string, string>) {
    forall i :: 0 <= i < |entries| && entries[i].path in checksums ==> entries[i].sha == Some(checksums[entries[i].path])
  }

  lemma RightSplits(e: Entry, rest: seq<Entry>, checksums: map<string, string>)
    ensures AllRight([e] + rest, checksums) <==> (e.path in checksums ==> e.sha == Some(checksums[e.path])) && AllRight(rest, checksums)
  {
    var all := [e] + rest;
    assert all[0] == e && forall i :: 0 <= i < |rest| ==> all[i + 1] == rest[i];
    if AllRight(all, checksums) {
      forall i | 0 <= i < |rest| && rest[i].path in checksums ensures rest[i].sha == Some(checksums[rest[i].path]) {
        assert all[i + 1] == rest[i];
      }
    }
  }

  /** The updated file has the same entries, and they are all right if and only if all was clear. */
  lemma {:induction false} EntriesAfter(rx: Patterns, segments: seq<Segment>, checksums: map<string, string>, prefix: string)
    requires Lawful(rx) && AllHex(rx, checksums)
    requires Entries(rx, prefix, segments).Ok? && UpdateSegments(rx, segments, checksums, prefix).Some?
    ensures var after := Entries(rx, prefix, UpdateSegments(rx, segments, checksums, prefix).value);
            && after.Ok? && SameFiles(Entries(rx, prefix, segments).value, after.value)
            && (AllRight(after.value, checksums) <==> AllClear(rx, prefix, segments))
  {
    if segments != [] {
      EntriesAfter(rx, segments[1..], checksums, prefix);
      var updated := UpdateSegments(rx, segments, checksums, prefix).value;
      var rest := UpdateSegments(rx, segments[1..], checksums, prefix).value;
      assert updated[1..] == rest;
      if IsEntry(rx, prefix, segments[0]) {
        UpdatedEntry(rx, segments[0], checksums, prefix);
        RightSplits(ToEntry(rx, updated[0]), Entries(rx, prefix, rest).value, checksums);
      }
    }
  }

  lemma SameSetErrors(a: seq<Entry>, b: seq<Entry>, checksums: map<string, string>)
    requires SameFiles(a, b)
    ensures EntrySetErrors(a, checksums) == EntrySetErrors(b, checksums)
  {
    assert Files(a) == Files(b);
    forall file ensures RepeatedIn(a, file) <==> RepeatedIn(b, file) {
      if i, j :| 0 <= i < j < |a| && a[i].path == file && a[j].path == file {
        assert b[i].path == file && b[j].path == file;
      }
      if i, j :| 0 <= i < j < |b| && b[i].path == file && b[j].path == file {
        assert a[i].path == file && a[j].path == file;
      }
    }
    assert Repeated(a) == Repeated(b);
  }

  lemma {:induction false} ChecksumErrorsMean(entries: seq<Entry>, checksums: map<string, string>)
    ensures ChecksumErrors(entries, checksums) == [] <==> AllRight(entries, checksums)
  {
    if entries != [] {
      var n := |entries| - 1;
      ChecksumErrorsMean(entries[..n], checksums);
      assert forall i :: 0 <= i < n ==> entries[..n][i] == entries[i];
    }
  }

  predicate DistinctFiles(entries: seq<Entry>) {
    forall i, j :: 0 <= i < j < |entries| ==> entries[i].path != entries[j].path
  }

  lemma EntrySetMeans(entries: seq<Entry>, checksums: map<string, string>)
    ensures EntrySetErrors(entries, checksums) == [] <==> entries != [] && DistinctFiles(entries) && Files(entries) == checksums.Keys
  {
    var files := Files(entries);
    assert files - checksums.Keys == {} && checksums.Keys - files == {} <==> files == checksums.Keys;
    if !DistinctFiles(entries) {
      var i, j :| 0 <= i < j < |entries| && entries[i].path == entries[j].path;
      assert RepeatedIn(entries, entries[i].path) && entries[i].path in files;
      assert entries[i].path in Repeated(entries);
    } else {
      assert forall file :: !RepeatedIn(entries, file);
      assert Repeated(entries) == {};
    }
  }

  // ----- the whole file -----

  /** The check accepts a file exactly when every entry has a path, no two have the same, their paths are the files
      of the manifest, and each has the checksum of its file. */
  lemma CheckMeans(rx: Patterns, lines: seq<string>, checksums: map<string, string>, prefix: string)
    ensures Check(rx, lines, checksums, prefix) == [] <==>
              var entries := Entries(rx, prefix, Parse(rx, lines));
              && entries.Ok? && entries.value != [] && DistinctFiles(entries.value) && Files(entries.value) == checksums.Keys
              && AllRight(entries.value, checksums)
  {
    var entries := Entries(rx, prefix, Parse(rx, lines));
    if entries.Ok? {
      EntrySetMeans(entries.value, checksums);
      ChecksumErrorsMean(entries.value, checksums);
    } else {
      ErrorIsSaid(rx, prefix, Parse(rx, lines));
    }
  }

  lemma {:induction false} ErrorIsSaid(rx: Patterns, prefix: string, segments: seq<Segment>)
    ensures Entries(rx, prefix, segments).Err? ==> Entries(rx, prefix, segments).error != []
  {
    if segments != [] {
      ErrorIsSaid(rx, prefix, segments[1..]);
    }
  }

  /** Whenever an update returns, the check accepts its output if and only if no entry has a sha256 field
      before the place where its checksum goes. */
  lemma UpdateSatisfiesCheck(rx: Patterns, lines: seq<string>, checksums: map<string, string>, prefix: string)
    requires Lawful(rx) && AllHex(rx, checksums) && Update(rx, lines, checksums, prefix).Ok?
    ensures Check(rx, Update(rx, lines, checksums, prefix).value, checksums, prefix) == [] <==> AllClear(rx, prefix, Parse(rx, lines))
  {
    var segments := Parse(rx, lines);
    var updated := UpdateSegments(rx, segments, checksums, prefix).value;
    ParseIsSettled(rx, lines);
    UpdateIsSettled(rx, segments, checksums, prefix);
    ParseRender(rx, updated);
    EntriesAfter(rx, segments, checksums, prefix);
    SameSetErrors(Entries(rx, prefix, segments).value, Entries(rx, prefix, updated).value, checksums);
    ChecksumErrorsMean(Entries(rx, prefix, updated).value, checksums);
  }

  // ----- what stays -----

  function ShaLineLike(rx: Patterns, line: string, checksum: string): string {
    rx.shaLine(rx.indent(line), checksum)
  }

  /** The first line with a hexadecimal checksum is replaced, along with the blank lines that follow it; every other line stays. */
  predicate Replaced(rx: Patterns, was: seq<string>, updated: seq<string>, checksum: string, at: nat, gap: nat) {
    && at + 1 + gap <= |was| && HexLine(rx, was[at]) && (forall j :: 0 <= j < at ==> !HexLine(rx, was[j]))
    && AllBlank(rx, was[at + 1..at + 1 + gap]) && (at + 1 + gap < |was| ==> !rx.blank(was[at + 1 + gap]))
    && updated == was[..at] + [ShaLineLike(rx, was[at], checksum)] + was[at + 1 + gap..]
  }

  /** There is no such line, and one is inserted after the first path, with the blank lines that come before the path;
      every line stays. */
  predicate Inserted(rx: Patterns, was: seq<string>, updated: seq<string>, checksum: string, at: nat, gap: nat) {
    && (forall j :: 0 <= j < |was| ==> !HexLine(rx, was[j]))
    && gap <= at < |was| && rx.insertable(was[at]) && (forall j :: 0 <= j < at ==> !rx.insertable(was[j]))
    && AllBlank(rx, was[at - gap..at]) && (gap < at ==> !rx.blank(was[at - gap - 1]))
    && updated == was[..at + 1] + was[at - gap..at] + [ShaLineLike(rx, was[at], checksum)] + was[at + 1..]
  }

  ghost predicate Written(rx: Patterns, was: seq<string>, updated: seq<string>, checksum: string) {
    || (exists at, gap :: Replaced(rx, was, updated, checksum, at, gap))
    || (exists at, gap :: Inserted(rx, was, updated, checksum, at, gap))
  }

  lemma {:induction false} DropBlankIs(rx: Patterns, lines: seq<string>) returns (gap: nat)
    ensures gap <= |lines| && DropBlank(rx, lines) == lines[gap..] && AllBlank(rx, lines[..gap])
    ensures gap < |lines| ==> !rx.blank(lines[gap])
  {
    if lines != [] && rx.blank(lines[0]) {
      var rest := DropBlankIs(rx, lines[1..]);
      gap := rest + 1;
      assert lines[gap..] == lines[1..][rest..] && lines[..gap] == [lines[0]] + lines[1..][..rest];
    } else {
      gap := 0;
      assert lines[0..] == lines;
    }
  }

  lemma {:induction false} TrailingBlankIs(rx: Patterns, lines: seq<string>) returns (gap: nat)
    ensures gap <= |lines| && TrailingBlank(rx, lines) == lines[|lines| - gap..]
    ensures gap < |lines| ==> !rx.blank(lines[|lines| - gap - 1])
  {
    gap := 0;
    if lines != [] && rx.blank(lines[|lines| - 1]) {
      var n := |lines| - 1;
      var rest := TrailingBlankIs(rx, lines[..n]);
      gap := rest + 1;
      assert lines[|lines| - gap..] == lines[..n][n - rest..] + [lines[n]];
    }
  }

  lemma ReplaceIsWritten(rx: Patterns, lines: seq<string>, checksum: string)
    requires Replaces(rx, lines) && BlockWithSha(rx, lines, checksum).Some?
    ensures Written(rx, lines, BlockWithSha(rx, lines, checksum).value, checksum)
  {
    FirstHexMeans(rx, lines);
    var at := FirstHex(rx, lines);
    var gap := DropBlankIs(rx, lines[at + 1..]);
    assert lines[at + 1..][gap..] == lines[at + 1 + gap..] && lines[at + 1..][..gap] == lines[at + 1..at + 1 + gap];
    assert Replaced(rx, lines, BlockWithSha(rx, lines, checksum).value, checksum, at, gap);
  }

  lemma InsertIsWritten(rx: Patterns, lines: seq<string>, checksum: string)
    requires !Replaces(rx, lines) && BlockWithSha(rx, lines, checksum).Some?
    ensures Written(rx, lines, BlockWithSha(rx, lines, checksum).value, checksum)
  {
    FirstHexMeans(rx, lines);
    FirstPathMeans(rx, lines);
    var at := FirstPath(rx, lines);
    var gap := BlankBefore(rx, lines, at);
    assert Inserted(rx, lines, BlockWithSha(rx, lines, checksum).value, checksum, at, gap);
  }

  lemma BlankBefore(rx: Patterns, lines: seq<string>, at: nat) returns (gap: nat)
    requires at <= |lines|
    ensures gap <= at && TrailingBlank(rx, lines[..at]) == lines[at - gap..at] && AllBlank(rx, lines[at - gap..at])
    ensures gap < at ==> !rx.blank(lines[at - gap - 1])
  {
    gap := TrailingBlankIs(rx, lines[..at]);
    TrailingIsBlank(rx, lines[..at]);
    assert lines[..at][at - gap..] == lines[at - gap..at];
  }

  /** A segment after an update: unchanged unless it is an entry, and then the same but for the one checksum line. */
  ghost predicate Kept(rx: Patterns, prefix: string, checksums: map<string, string>, was: Segment, updated: Segment) {
    if !IsEntry(rx, prefix, was) then updated == was
    else
      var path := StringField(rx, was.inside, Path);
      && updated.Block? && updated.opener == was.opener && updated.closer == was.closer
      && path.Some? && path.value in checksums && Written(rx, was.inside, updated.inside, checksums[path.value])
  }

  ghost predicate AllKept(rx: Patterns, prefix: string, checksums: map<string, string>, was: seq<Segment>, updated: seq<Segment>) {
    |was| == |updated| && forall i :: 0 <= i < |was| ==> Kept(rx, prefix, checksums, was[i], updated[i])
  }

  lemma {:induction false} SegmentsAreKept(rx: Patterns, segments: seq<Segment>, checksums: map<string, string>, prefix: string)
    requires UpdateSegments(rx, segments, checksums, prefix).Some?
    ensures AllKept(rx, prefix, checksums, segments, UpdateSegments(rx, segments, checksums, prefix).value)
  {
    if segments != [] {
      SegmentsAreKept(rx, segments[1..], checksums, prefix);
      if IsEntry(rx, prefix, segments[0]) {
        var inside := segments[0].inside;
        var checksum := checksums[StringField(rx, inside, Path).value];
        if Replaces(rx, inside) { ReplaceIsWritten(rx, inside, checksum); } else { InsertIsWritten(rx, inside, checksum); }
      }
    }
  }

  /** Whenever an update returns, its output is the same file segment by segment: lines outside the entry blocks are
      unchanged, and in each entry block one line is written and every other line, but for blank ones beside it, stays. */
  lemma UpdateKeepsTheRest(rx: Patterns, lines: seq<string>, checksums: map<string, string>, prefix: string)
    requires Lawful(rx) && AllHex(rx, checksums) && Update(rx, lines, checksums, prefix).Ok?
    ensures AllKept(rx, prefix, checksums, Parse(rx, lines), Parse(rx, Update(rx, lines, checksums, prefix).value))
  {
    var segments := Parse(rx, lines);
    ParseIsSettled(rx, lines);
    UpdateIsSettled(rx, segments, checksums, prefix);
    ParseRender(rx, UpdateSegments(rx, segments, checksums, prefix).value);
    SegmentsAreKept(rx, segments, checksums, prefix);
  }

  // ----- a second update -----

  /** No entry block has its checksum inserted just before a blank line. */
  predicate NoGaps(rx: Patterns, prefix: string, segments: seq<Segment>) {
    segments == [] || ((IsEntry(rx, prefix, segments[0]) ==> !OpensGap(rx, segments[0].inside)) && NoGaps(rx, prefix, segments[1..]))
  }

  lemma UpdatedAgain(rx: Patterns, segment: Segment, checksums: map<string, string>, prefix: string)
    requires Lawful(rx) && AllHex(rx, checksums) && Updated(rx, segment, checksums, prefix).Some?
    ensures var once := Updated(rx, segment, checksums, prefix);
            var twice := Updated(rx, once.value, checksums, prefix);
            twice.Some? && (twice == once <==> (IsEntry(rx, prefix, segment) ==> !OpensGap(rx, segment.inside)))
  {
    if IsEntry(rx, prefix, segment) {
      UpdatedEntry(rx, segment, checksums, prefix);
      SecondUpdateIsIdle(rx, segment.inside, checksums[StringField(rx, segment.inside, Path).value]);
    }
  }

  lemma {:induction false} SegmentsTwice(rx: Patterns, segments: seq<Segment>, checksums: map<string, string>, prefix: string)
    requires Lawful(rx) && AllHex(rx, checksums) && UpdateSegments(rx, segments, checksums, prefix).Some?
    ensures var once := UpdateSegments(rx, segments, checksums, prefix);
            var twice := UpdateSegments(rx, once.value, checksums, prefix);
            twice.Some? && (twice == once <==> NoGaps(rx, prefix, segments))
  {
    if segments != [] {
      SegmentsTwice(rx, segments[1..], checksums, prefix);
      UpdatedAgain(rx, segments[0], checksums, prefix);
      var once := UpdateSegments(rx, segments, checksums, prefix).value;
      var twice := UpdateSegments(rx, once, checksums, prefix).value;
      assert once[1..] == UpdateSegments(rx, segments[1..], checksums, prefix).value;
      assert once == [once[0]] + once[1..];
      assert twice[1..] == UpdateSegments(rx, once[1..], checksums, prefix).value;
    }
  }

  /** Whenever an update returns, so does a second one, and it changes nothing if and only if the first inserted
      no checksum just before a blank line. */
  lemma UpdateTwice(rx: Patterns, lines: seq<string>, checksums: map<string, string>, prefix: string)
    requires Lawful(rx) && AllHex(rx, checksums) && Update(rx, lines, checksums, prefix).Ok?
    ensures var once := Update(rx, lines, checksums, prefix);
            var twice := Update(rx, once.value, checksums, prefix);
            twice.Ok? && (twice == once <==> NoGaps(rx, prefix, Parse(rx, lines)))
  {
    var segments := Parse(rx, lines);
    var once := UpdateSegments(rx, segments, checksums, prefix).value;
    ParseIsSettled(rx, lines);
    UpdateIsSettled(rx, segments, checksums, prefix);
    ParseRender(rx, once);
    EntriesAfter(rx, segments, checksums, prefix);
    SameSetErrors(Entries(rx, prefix, segments).value, Entries(rx, prefix, once).value, checksums);
    SegmentsTwice(rx, segments, checksums, prefix);
    UpdateIsSettled(rx, once, checksums, prefix);
    ParseRender(rx, UpdateSegments(rx, once, checksums, prefix).value);
  }
}
