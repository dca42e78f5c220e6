/**
 The checksum script: its loops over the lines, entries and updates, each proved against the
 functions on segments.
 */
module ModuleBazelScript {
  import opened Common
  import opened ModuleBazelBlocks
  import opened ModuleBazelFile

  // ----- finding the entries -----

  /** An entry with the lines it takes up, from `start` up to `end`. */
  datatype Found = Found(start: nat, end: nat, block: Segment, entry: Entry)

  type Search = Result<seq<Found>, seq<Problem>>

  function Locate(rx: Patterns, prefix: string, segments: seq<Segment>, at: nat): Search {
    if segments == [] then Ok([])
    else
      var next := at + |Lines(segments[0])|;
      if !IsEntry(rx, prefix, segments[0]) then Locate(rx, prefix, segments[1..], next)
      else if StringField(rx, segments[0].inside, Path).None? then Err([MissingPath(StringField(rx, segments[0].inside, Name).value)])
      else Onto([Found(at, next, segments[0], ToEntry(rx, segments[0]))], Locate(rx, prefix, segments[1..], next))
  }

  function Onto(found: seq<Found>, rest: Search): Search {
    match rest
    case Ok(more) => Ok(found + more)
    case Err(e) => Err(e)
  }

  function EntriesOf(found: seq<Found>): (entries: seq<Entry>)
    ensures |entries| == |found|
  {
    seq(|found|, i requires 0 <= i < |found| => found[i].entry)
  }

  lemma EntriesOfCons(f: Found, more: seq<Found>)
    ensures EntriesOf([f] + more) == [f.entry] + EntriesOf(more)
  {
  }

  lemma {:induction false} LocateFindsEntries(rx: Patterns, prefix: string, segments: seq<Segment>, at: nat)
    ensures match Locate(rx, prefix, segments, at)
            case Ok(found) => Entries(rx, prefix, segments) == Ok(EntriesOf(found))
            case Err(e) => Entries(rx, prefix, segments) == Err(e)
  {
    if segments != [] {
      var next := at + |Lines(segments[0])|;
      LocateFindsEntries(rx, prefix, segments[1..], next);
      if IsEntry(rx, prefix, segments[0]) && StringField(rx, segments[0].inside, Path).Some? {
        var more := Locate(rx, prefix, segments[1..], next);
        EntriesOfCons(Found(at, next, segments[0], ToEntry(rx, segments[0])), if more.Ok? then more.value else []);
      }
    }
  }

  lemma OntoOne(found: seq<Found>, f: Found, rest: Search)
    ensures Onto(found, Onto([f], rest)) == Onto(found + [f], rest)
  {
    if rest.Ok? {
      assert found + ([f] + rest.value) == found + [f] + rest.value;
    }
  }

  lemma OntoNone(rest: Search)
    ensures Onto([], rest) == rest
  {
    if rest.Ok? {
      assert [] + rest.value == rest.value;
    }
  }

  /** The search from a segment on, given the search after it. */
  function Next(rx: Patterns, prefix: string, first: Segment, at: nat, rest: Search): Search {
    if !IsEntry(rx, prefix, first) then rest
    else if StringField(rx, first.inside, Path).None? then Err([MissingPath(StringField(rx, first.inside, Name).value)])
    else Onto([Found(at, at + |Lines(first)|, first, ToEntry(rx, first))], rest)
  }

  lemma LocateCons(rx: Patterns, prefix: string, first: Segment, segments: seq<Segment>, at: nat)
    ensures Locate(rx, prefix, [first] + segments, at) == Next(rx, prefix, first, at, Locate(rx, prefix, segments, at + |Lines(first)|))
  {
    assert ([first] + segments)[1..] == segments;
  }

  /** Names a place in the file for which the step of the search below is wanted. */
  predicate Here(lines: seq<string>, at: nat) {
    true
  }

  /** `remaining` is the search of the rest of the file: it takes one segment after the other. */
  ghost predicate Searches(rx: Patterns, prefix: string, remaining: (seq<string>, nat) -> Search) {
    && (forall at: nat :: remaining([], at) == Ok([]))
    && (forall lines, at: nat {:trigger Here(lines, at)} :: Here(lines, at) && lines != [] ==>
          var n := SizeOfFirst(rx, lines);
          remaining(lines, at) == Next(rx, prefix, FirstSegment(rx, lines), at, remaining(lines[n..], at + n)))
  }

  lemma LocateNext(rx: Patterns, prefix: string, lines: seq<string>, at: nat)
    requires lines != []
    ensures var n := SizeOfFirst(rx, lines);
            Locate(rx, prefix, Parse(rx, lines), at) == Next(rx, prefix, FirstSegment(rx, lines), at, Locate(rx, prefix, Parse(rx, lines[n..]), at + n))
  {
    FirstLines(rx, lines);
    LocateCons(rx, prefix, FirstSegment(rx, lines), Parse(rx, lines[SizeOfFirst(rx, lines)..]), at);
  }

  lemma LocateSearches(rx: Patterns, prefix: string) returns (remaining: (seq<string>, nat) -> Search)
    ensures Searches(rx, prefix, remaining)
    ensures forall lines :: remaining(lines, 0) == Locate(rx, prefix, Parse(rx, lines), 0)
  {
    remaining := (lines: seq<string>, at: nat) => Locate(rx, prefix, Parse(rx, lines), at);
    forall lines, at: nat | Here(lines, at) && lines != []
      ensures var n := SizeOfFirst(rx, lines);
              remaining(lines, at) == Next(rx, prefix, FirstSegment(rx, lines), at, remaining(lines[n..], at + n))
    {
      LocateNext(rx, prefix, lines, at);
    }
  }

  method SearchFile(rx: Patterns, prefix: string, lines: seq<string>, ghost remaining: (seq<string>, nat) -> Search) returns (result: Search)
    requires Searches(rx, prefix, remaining)
    ensures result == remaining(lines, 0)
  {
    var found: seq<Found>, rest, at: nat := [], lines, 0;
    OntoNone(remaining(lines, 0));
    while rest != []
      invariant remaining(lines, 0) == Onto(found, remaining(rest, at))
      decreases |rest|
    {
      assert Here(rest, at);
      var first, n := FirstSegment(rx, rest), SizeOfFirst(rx, rest);
      FirstLines(rx, rest);
      if IsEntry(rx, prefix, first) {
        if StringField(rx, first.inside, Path).None? {
          return Err([MissingPath(StringField(rx, first.inside, Name).value)]);
        }
        var f := Found(at, at + n, first, ToEntry(rx, first));
        OntoOne(found, f, remaining(rest[n..], at + n));
        found := found + [f];
      }
      rest, at := rest[n..], at + n;
    }
    assert found + [] == found;
    result := Ok(found);
  }

  /** `rusty_v8_http_files` */
  method HttpFiles(rx: Patterns, prefix: string, lines: seq<string>) returns (result: Search)
    ensures result == Locate(rx, prefix, Parse(rx, lines), 0)
  {
    ghost var remaining := LocateSearches(rx, prefix);
    result := SearchFile(rx, prefix, lines, remaining);
  }

  // ----- the error collectors -----

  lemma RepeatedInSnoc(a: seq<Entry>, e: Entry, file: string)
    ensures RepeatedIn(a + [e], file) <==> RepeatedIn(a, file) || (file == e.path && file in Files(a))
  {
    var b := a + [e];
    if RepeatedIn(a, file) {
      var i, j :| 0 <= i < j < |a| && a[i].path == file && a[j].path == file;
      assert b[i].path == file && b[j].path == file;
    }
    if file == e.path && file in Files(a) {
      var i :| 0 <= i < |a| && a[i].path == file;
      assert b[i].path == file && b[|a|].path == file;
    }
    if i, j :| 0 <= i < j < |b| && b[i].path == file && b[j].path == file {
      assert a[i].path == file;
      assert j < |a| ==> a[j].path == file;
    }
  }

  lemma FilesSnoc(a: seq<Entry>, e: Entry)
    ensures Files(a + [e]) == Files(a) + {e.path}
  {
    var b := a + [e];
    assert forall i :: 0 <= i < |a| ==> b[i] == a[i];
    assert b[|a|] == e;
  }

  lemma RepeatedSnoc(a: seq<Entry>, e: Entry)
    ensures Repeated(a + [e]) == Repeated(a) + if e.path in Files(a) then {e.path} else {}
  {
    FilesSnoc(a, e);
    forall file ensures RepeatedIn(a + [e], file) <==> RepeatedIn(a, file) || (file == e.path && file in Files(a)) {
      RepeatedInSnoc(a, e, file);
    }
    assert forall file :: RepeatedIn(a, file) ==> file in Files(a);
  }

  /** `module_entry_set_errors` */
  method EntrySetProblems(entries: seq<Entry>, checksums: map<string, string>) returns (errors: seq<Problem>)
    ensures errors == EntrySetErrors(entries, checksums)
  {
    if entries == [] {
      return [NoEntries];
    }
    var files, repeated := {}, {};
    for i := 0 to |entries|
      invariant files == Files(entries[..i]) && repeated == Repeated(entries[..i])
    {
      assert entries[..i + 1] == entries[..i] + [entries[i]];
      FilesSnoc(entries[..i], entries[i]);
      RepeatedSnoc(entries[..i], entries[i]);
      if entries[i].path in files {
        repeated := repeated + {entries[i].path};
      }
      files := files + {entries[i].path};
    }
    assert entries[..|entries|] == entries;
    errors := When(repeated != {}, RepeatedFiles(repeated));
    errors := errors + When(files - checksums.Keys != {}, Unlisted(files - checksums.Keys));
    errors := errors + When(checksums.Keys - files != {}, Unmatched(checksums.Keys - files));
  }

  /** `module_checksum_errors` */
  method ChecksumProblems(entries: seq<Entry>, checksums: map<string, string>) returns (errors: seq<Problem>)
    ensures errors == ChecksumErrors(entries, checksums)
  {
    errors := [];
    for i := 0 to |entries|
      invariant errors == ChecksumErrors(entries[..i], checksums)
    {
      assert entries[..i + 1][..i] == entries[..i];
      var e := entries[i];
      if e.path in checksums {
        if e.sha.None? {
          errors := errors + [MissingSha(e.name)];
        } else if e.sha.value != checksums[e.path] {
          errors := errors + [WrongSha(e.name, e.sha.value)];
        }
      }
    }
    assert entries[..|entries|] == entries;
  }

  method CheckText(rx: Patterns, lines: seq<string>, checksums: map<string, string>, prefix: string) returns (errors: seq<Problem>)
    ensures errors == Check(rx, lines, checksums, prefix)
  {
    var files := HttpFiles(rx, prefix, lines);
    LocateFindsEntries(rx, prefix, Parse(rx, lines), 0);
    if files.Err? {
      return files.error;
    }
    var inSet := EntrySetProblems(EntriesOf(files.value), checksums);
    var sums := ChecksumProblems(EntriesOf(files.value), checksums);
    errors := inSet + sums;
  }

  // ----- the update -----

  /** A slice as Python takes it, where the bounds are in order. */
  function Slice(lines: seq<string>, from: nat, to: nat): seq<string> {
    if from <= to <= |lines| then lines[from..to] else []
  }

  function UpdateFound(rx: Patterns, f: Found, checksums: map<string, string>): Option<Segment> {
    if f.block.Block? then UpdateBlock(rx, f.block, checksums) else None
  }

  /** The lines from `at` on, with the blocks found there replaced. */
  function Splice(rx: Patterns, lines: seq<string>, at: nat, found: seq<Found>, checksums: map<string, string>): Option<seq<string>>
    decreases |found|
  {
    if found == [] then Some(Slice(lines, at, |lines|))
    else
      var block := UpdateFound(rx, found[0], checksums);
      var rest := Splice(rx, lines, found[0].end, found[1..], checksums);
      if block.None? || rest.None? then None else Some(Slice(lines, at, found[0].start) + Lines(block.value) + rest.value)
  }

  lemma JoinFour(a: seq<string>, b: seq<string>, c: seq<string>, d: seq<string>)
    ensures (a + b) + c + d == a + (b + c + d)
  {
  }

  lemma SliceJoins(lines: seq<string>, a: nat, b: nat, c: nat)
    requires a <= b <= c <= |lines|
    ensures Slice(lines, a, c) == Slice(lines, a, b) + Slice(lines, b, c)
  {
  }

  /** Moving the start back over lines that are not part of a block puts them in front. */
  lemma SpliceEarlier(rx: Patterns, lines: seq<string>, at: nat, before: nat, found: seq<Found>, checksums: map<string, string>)
    requires before <= at <= |lines| && (found != [] ==> at <= found[0].start <= |lines|)
    ensures Splice(rx, lines, before, found, checksums) == PutAfter(Slice(lines, before, at), Splice(rx, lines, at, found, checksums))
  {
    if found == [] {
      SliceJoins(lines, before, at, |lines|);
    } else {
      var block, rest := UpdateFound(rx, found[0], checksums), Splice(rx, lines, found[0].end, found[1..], checksums);
      SliceJoins(lines, before, at, found[0].start);
      if block.Some? && rest.Some? {
        JoinFour(Slice(lines, before, at), Slice(lines, at, found[0].start), Lines(block.value), rest.value);
      }
    }
  }

  lemma SpliceOwn(rx: Patterns, lines: seq<string>, f: Found, rest: seq<Found>, checksums: map<string, string>)
    requires f.start <= |lines|
    ensures var block, more := UpdateFound(rx, f, checksums), Splice(rx, lines, f.end, rest, checksums);
            Splice(rx, lines, f.start, [f] + rest, checksums) == if block.None? then None else PutAfter(Lines(block.value), more)
  {
    assert ([f] + rest)[1..] == rest;
    assert Slice(lines, f.start, f.start) == [];
    var block, more := UpdateFound(rx, f, checksums), Splice(rx, lines, f.end, rest, checksums);
    if block.Some? && more.Some? {
      assert [] + Lines(block.value) + more.value == Lines(block.value) + more.value;
    }
  }

  function PutAfter(done: seq<string>, rest: Option<seq<string>>): Option<seq<string>> {
    if rest.None? then None else Some(done + rest.value)
  }

  lemma PutNothing(rest: Option<seq<string>>)
    ensures PutAfter([], rest) == rest
  {
    if rest.Some? {
      assert [] + rest.value == rest.value;
    }
  }

  lemma PutThree(done: seq<string>, gap: seq<string>, block: seq<string>, rest: Option<seq<string>>)
    ensures PutAfter(done, if rest.None? then None else Some(gap + block + rest.value)) == PutAfter(done + gap + block, rest)
  {
    if rest.Some? {
      JoinFour(done, gap, block, rest.value);
    }
  }

  lemma UpdateCons(rx: Patterns, prefix: string, first: Segment, segments: seq<Segment>, checksums: map<string, string>)
    ensures var one, rest := Updated(rx, first, checksums, prefix), UpdateSegments(rx, segments, checksums, prefix);
            UpdateSegments(rx, [first] + segments, checksums, prefix) == if one.None? || rest.None? then None else Some([one.value] + rest.value)
  {
    assert ([first] + segments)[1..] == segments;
  }

  function RenderOption(segments: Option<seq<Segment>>): Option<seq<string>> {
    if segments.None? then None else Some(Render(segments.value))
  }

  lemma RenderUpdateCons(rx: Patterns, prefix: string, first: Segment, segments: seq<Segment>, checksums: map<string, string>)
    ensures var one, rest := Updated(rx, first, checksums, prefix), RenderOption(UpdateSegments(rx, segments, checksums, prefix));
            RenderOption(UpdateSegments(rx, [first] + segments, checksums, prefix)) == if one.None? then None else PutAfter(Lines(one.value), rest)
  {
    UpdateCons(rx, prefix, first, segments, checksums);
    var one, rest := Updated(rx, first, checksums, prefix), UpdateSegments(rx, segments, checksums, prefix);
    if one.Some? && rest.Some? {
      RenderNext(one.value, rest.value);
    }
  }

  lemma {:induction false} LocateStartsLater(rx: Patterns, prefix: string, segments: seq<Segment>, at: nat)
    ensures var found := Locate(rx, prefix, segments, at);
            found.Ok? && found.value != [] ==> at <= found.value[0].start <= at + |Render(segments)|
  {
    if segments != [] {
      var first, rest := segments[0], segments[1..];
      assert segments == [first] + rest;
      LocateCons(rx, prefix, first, rest, at);
      RenderNext(first, rest);
      LocateStartsLater(rx, prefix, rest, at + |Lines(first)|);
    }
  }

  /** One more segment in front, found and spliced. */
  lemma SpliceNext(rx: Patterns, prefix: string, first: Segment, segments: seq<Segment>, lines: seq<string>, at: nat, checksums: map<string, string>)
    requires at + |Lines(first)| + |Render(segments)| <= |lines| && Slice(lines, at, at + |Lines(first)|) == Lines(first)
    requires Locate(rx, prefix, [first] + segments, at).Ok?
    ensures Locate(rx, prefix, segments, at + |Lines(first)|).Ok?
    ensures var one := Updated(rx, first, checksums, prefix);
            var rest := Splice(rx, lines, at + |Lines(first)|, Locate(rx, prefix, segments, at + |Lines(first)|).value, checksums);
            Splice(rx, lines, at, Locate(rx, prefix, [first] + segments, at).value, checksums) == if one.None? then None else PutAfter(Lines(one.value), rest)
  {
    var next := at + |Lines(first)|;
    LocateCons(rx, prefix, first, segments, at);
    LocateStartsLater(rx, prefix, segments, next);
    var rest := Locate(rx, prefix, segments, next).value;
    if IsEntry(rx, prefix, first) {
      SpliceOwn(rx, lines, Found(at, next, first, ToEntry(rx, first)), rest, checksums);
    } else {
      SpliceEarlier(rx, lines, next, at, rest, checksums);
    }
  }

  /** Splicing the found blocks is updating segment by segment. */
  lemma {:induction false} SpliceIsUpdate(rx: Patterns, prefix: string, segments: seq<Segment>, lines: seq<string>, at: nat, checksums: map<string, string>)
    requires at <= |lines| && lines[at..] == Render(segments) && Locate(rx, prefix, segments, at).Ok?
    ensures Splice(rx, lines, at, Locate(rx, prefix, segments, at).value, checksums) == RenderOption(UpdateSegments(rx, segments, checksums, prefix))
    decreases |segments|, 0
  {
    if segments == [] {
      assert |lines[at..]| == 0;
      assert Slice(lines, at, |lines|) == [];
    } else {
      assert segments == [segments[0]] + segments[1..];
      SpliceFirst(rx, prefix, segments[0], segments[1..], lines, at, checksums);
    }
  }

  lemma {:induction false} SpliceFirst(rx: Patterns, prefix: string, first: Segment, rest: seq<Segment>, lines: seq<string>, at: nat, checksums: map<string, string>)
    requires at <= |lines| && lines[at..] == Render([first] + rest) && Locate(rx, prefix, [first] + rest, at).Ok?
    ensures Splice(rx, lines, at, Locate(rx, prefix, [first] + rest, at).value, checksums)
            == RenderOption(UpdateSegments(rx, [first] + rest, checksums, prefix))
    decreases |rest|, 1
  {
    RenderNext(first, rest);
    TakeOff(lines, at, Lines(first), Render(rest));
    LocateRest(rx, prefix, first, rest, at);
    SpliceIsUpdate(rx, prefix, rest, lines, at + |Lines(first)|, checksums);
    SpliceOneMore(rx, prefix, first, rest, lines, at, checksums);
  }

  lemma LocateRest(rx: Patterns, prefix: string, first: Segment, rest: seq<Segment>, at: nat)
    requires Locate(rx, prefix, [first] + rest, at).Ok?
    ensures Locate(rx, prefix, rest, at + |Lines(first)|).Ok?
  {
    LocateCons(rx, prefix, first, rest, at);
  }

  lemma SpliceOneMore(rx: Patterns, prefix: string, first: Segment, rest: seq<Segment>, lines: seq<string>, at: nat, checksums: map<string, string>)
    requires at + |Lines(first)| + |Render(rest)| <= |lines| && Slice(lines, at, at + |Lines(first)|) == Lines(first)
    requires Locate(rx, prefix, [first] + rest, at).Ok? && Locate(rx, prefix, rest, at + |Lines(first)|).Ok?
    requires Splice(rx, lines, at + |Lines(first)|, Locate(rx, prefix, rest, at + |Lines(first)|).value, checksums)
             == RenderOption(UpdateSegments(rx, rest, checksums, prefix))
    ensures Splice(rx, lines, at, Locate(rx, prefix, [first] + rest, at).value, checksums)
            == RenderOption(UpdateSegments(rx, [first] + rest, checksums, prefix))
  {
    SpliceNext(rx, prefix, first, rest, lines, at, checksums);
    RenderUpdateCons(rx, prefix, first, rest, checksums);
  }

  lemma TakeOff(lines: seq<string>, at: nat, first: seq<string>, rest: seq<string>)
    requires at <= |lines| && lines[at..] == first + rest
    ensures at + |first| + |rest| == |lines| && Slice(lines, at, at + |first|) == first && lines[at + |first|..] == rest
  {
    assert lines[at..][..|first|] == lines[at..at + |first|];
    assert lines[at..][|first|..] == lines[at + |first|..];
  }

  method SpliceBlocks(rx: Patterns, lines: seq<string>, found: seq<Found>, checksums: map<string, string>) returns (updated: Option<seq<string>>)
    ensures updated == Splice(rx, lines, 0, found, checksums)
  {
    var done, previousEnd: nat := [], 0;
    var rest := found;
    PutNothing(Splice(rx, lines, 0, found, checksums));
    while rest != []
      invariant Splice(rx, lines, 0, found, checksums) == PutAfter(done, Splice(rx, lines, previousEnd, rest, checksums))
      decreases |rest|
    {
      var block := UpdateFound(rx, rest[0], checksums);
      if block.None? {
        return None;
      }
      var gap := Slice(lines, previousEnd, rest[0].start);
      PutThree(done, gap, Lines(block.value), Splice(rx, lines, rest[0].end, rest[1..], checksums));
      done := done + gap + Lines(block.value);
      previousEnd := rest[0].end;
      rest := rest[1..];
    }
    updated := Some(done + Slice(lines, previousEnd, |lines|));
  }

  /** `update_module_bazel_text` */
  method UpdateText(rx: Patterns, lines: seq<string>, checksums: map<string, string>, prefix: string) returns (result: Result<seq<string>, seq<Problem>>)
    ensures result == Update(rx, lines, checksums, prefix)
  {
    var files := HttpFiles(rx, prefix, lines);
    LocateFindsEntries(rx, prefix, Parse(rx, lines), 0);
    if files.Err? {
      return Err(files.error);
    }
    var errors := EntrySetProblems(EntriesOf(files.value), checksums);
    if errors != [] {
      return Err(errors);
    }
    RenderParse(rx, lines);
    assert lines[0..] == lines;
    SpliceIsUpdate(rx, prefix, Parse(rx, lines), lines, 0, checksums);
    var updated := SpliceBlocks(rx, lines, files.value, checksums);
    result := if updated.None? then Err([NoInsertionPoint]) else Ok(updated.value);
  }
}
