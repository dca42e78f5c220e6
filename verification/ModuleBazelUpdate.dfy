/** When an update of MODULE.bazel satisfies the check, what it leaves alone, and when a second update changes nothing. */
module ModuleBazelUpdate {
  import opened Common
  import opened ModuleBazelBlocks

  // ----- one block: what an update does to its fields -----

  lemma {:induction false} FieldOfJoined(rx: Patterns, a: seq<string>, b: seq<string>, name: FieldName)
    ensures StringField(rx, a + b, name) == StringField(rx, a, name).Or(StringField(rx, b, name))
  {
    if a == [] {
      assert a + b == b;
    } else {
      FieldOfJoined(rx, a[1..], b, name);
      assert (a + b)[1..] == a[1..] + b;
    }
  }

  lemma FieldOfParts(rx: Patterns, a: seq<string>, x: string, b: seq<string>, name: FieldName)
    ensures StringField(rx, a + [x] + b, name) == StringField(rx, a, name).Or(rx.field(x, name)).Or(StringField(rx, b, name))
  {
    FieldOfJoined(rx, a + [x], b, name);
    FieldOfJoined(rx, a, [x], name);
  }

  predicate NoField(rx: Patterns, lines: seq<string>, name: FieldName) {
    forall i :: 0 <= i < |lines| ==> rx.field(lines[i], name).None?
  }

  lemma {:induction false} NoFieldMeans(rx: Patterns, lines: seq<string>, name: FieldName)
    ensures StringField(rx, lines, name).None? <==> NoField(rx, lines, name)
  {
    if lines != [] {
      NoFieldMeans(rx, lines[1..], name);
      assert lines == [lines[0]] + lines[1..];
    }
  }

  lemma {:induction false} DropBlankKeepsFields(rx: Patterns, lines: seq<string>, name: FieldName)
    requires Lawful(rx)
    ensures StringField(rx, DropBlank(rx, lines), name) == StringField(rx, lines, name)
  {
    if lines != [] && rx.blank(lines[0]) {
      DropBlankKeepsFields(rx, lines[1..], name);
    }
  }

  predicate AllBlank(rx: Patterns, lines: seq<string>) {
    forall i :: 0 <= i < |lines| ==> rx.blank(lines[i])
  }

  lemma {:induction false} TrailingIsBlank(rx: Patterns, lines: seq<string>)
    ensures AllBlank(rx, TrailingBlank(rx, lines))
  {
    if lines != [] && rx.blank(lines[|lines| - 1]) {
      TrailingIsBlank(rx, lines[..|lines| - 1]);
    }
  }

  lemma BlankHasNoField(rx: Patterns, lines: seq<string>, name: FieldName)
    requires Lawful(rx) && AllBlank(rx, lines)
    ensures StringField(rx, lines, name).None?
  {
    NoFieldMeans(rx, lines, name);
  }

  lemma {:induction false} FirstHexMeans(rx: Patterns, lines: seq<string>)
    ensures var k := FirstHex(rx, lines);
            (k < |lines| ==> HexLine(rx, lines[k])) && forall j :: 0 <= j < k ==> !HexLine(rx, lines[j])
  {
    if lines != [] && !HexLine(rx, lines[0]) {
      FirstHexMeans(rx, lines[1..]);
    }
  }

  lemma {:induction false} FirstPathMeans(rx: Patterns, lines: seq<string>)
    ensures var k := FirstPath(rx, lines);
            (k < |lines| ==> rx.insertable(lines[k])) && forall j :: 0 <= j < k ==> !rx.insertable(lines[j])
  {
    if lines != [] && !rx.insertable(lines[0]) {
      FirstPathMeans(rx, lines[1..]);
    }
  }

  /** The checksum replaces a line. */
  predicate Replaces(rx: Patterns, lines: seq<string>) {
    FirstHex(rx, lines) < |lines|
  }

  /** Where the checksum goes: the line that is replaced, or the one it is inserted after. */
  function Spot(rx: Patterns, lines: seq<string>): nat {
    if Replaces(rx, lines) then FirstHex(rx, lines) else FirstPath(rx, lines)
  }

  /** An updated block in three parts: what comes before the new line, the line, and what comes after. */
  function Before(rx: Patterns, lines: seq<string>): seq<string>
    requires Spot(rx, lines) < |lines|
  {
    var at := Spot(rx, lines);
    if Replaces(rx, lines) then lines[..at] else lines[..at + 1] + TrailingBlank(rx, lines[..at])
  }

  function NewLine(rx: Patterns, lines: seq<string>, checksum: string): string
    requires Spot(rx, lines) < |lines|
  {
    rx.shaLine(rx.indent(lines[Spot(rx, lines)]), checksum)
  }

  function After(rx: Patterns, lines: seq<string>): seq<string>
    requires Spot(rx, lines) < |lines|
  {
    var rest := lines[Spot(rx, lines) + 1..];
    if Replaces(rx, lines) then DropBlank(rx, rest) else rest
  }

  lemma UpdatedParts(rx: Patterns, lines: seq<string>, checksum: string)
    requires BlockWithSha(rx, lines, checksum).Some?
    ensures Spot(rx, lines) < |lines|
    ensures BlockWithSha(rx, lines, checksum).value == Before(rx, lines) + [NewLine(rx, lines, checksum)] + After(rx, lines)
  {
  }

  lemma AfterKeepsFields(rx: Patterns, lines: seq<string>, name: FieldName)
    requires Lawful(rx) && Spot(rx, lines) < |lines|
    ensures StringField(rx, After(rx, lines), name) == StringField(rx, lines[Spot(rx, lines) + 1..], name)
  {
    DropBlankKeepsFields(rx, lines[Spot(rx, lines) + 1..], name);
  }

  /** Up to the spot, the block has the same fields: the spot itself only if it is not replaced. */
  lemma BeforeKeepsFields(rx: Patterns, lines: seq<string>, name: FieldName)
    requires Lawful(rx) && Spot(rx, lines) < |lines|
    ensures var at := Spot(rx, lines);
            StringField(rx, Before(rx, lines), name) == StringField(rx, if Replaces(rx, lines) then lines[..at] else lines[..at + 1], name)
  {
    var at := Spot(rx, lines);
    if !Replaces(rx, lines) {
      FieldOfJoined(rx, lines[..at + 1], TrailingBlank(rx, lines[..at]), name);
      TrailingIsBlank(rx, lines[..at]);
      BlankHasNoField(rx, TrailingBlank(rx, lines[..at]), name);
    }
  }

  lemma FieldAround(rx: Patterns, lines: seq<string>, at: nat, name: FieldName)
    requires at < |lines|
    ensures StringField(rx, lines, name) == StringField(rx, lines[..at + 1], name).Or(StringField(rx, lines[at + 1..], name))
    ensures rx.field(lines[at], name).None? ==> StringField(rx, lines[..at + 1], name) == StringField(rx, lines[..at], name)
  {
    assert lines == lines[..at + 1] + lines[at + 1..];
    FieldOfJoined(rx, lines[..at + 1], lines[at + 1..], name);
    assert lines[..at + 1] == lines[..at] + [lines[at]];
    FieldOfJoined(rx, lines[..at], [lines[at]], name);
  }

  /** An update keeps the other fields of the block. */
  lemma UpdateKeepsField(rx: Patterns, lines: seq<string>, checksum: string, name: FieldName)
    requires Lawful(rx) && rx.hex(checksum) && BlockWithSha(rx, lines, checksum).Some? && !name.Sha?
    ensures StringField(rx, BlockWithSha(rx, lines, checksum).value, name) == StringField(rx, lines, name)
  {
    UpdatedParts(rx, lines, checksum);
    FirstHexMeans(rx, lines);
    var at := Spot(rx, lines);
    assert ReadsAsWritten(rx, rx.indent(lines[at]), checksum);
    FieldOfParts(rx, Before(rx, lines), NewLine(rx, lines, checksum), After(rx, lines), name);
    BeforeKeepsFields(rx, lines, name);
    AfterKeepsFields(rx, lines, name);
    FieldAround(rx, lines, at, name);
  }

  /** No sha256 field comes before the place where the checksum goes. */
  predicate Clear(rx: Patterns, lines: seq<string>) {
    forall j :: 0 <= j < |lines| && j < Spot(rx, lines) ==> rx.field(lines[j], Sha).None?
  }

  lemma BeforeIsClear(rx: Patterns, lines: seq<string>)
    requires Lawful(rx) && Spot(rx, lines) < |lines|
    ensures StringField(rx, Before(rx, lines), Sha).None? <==> Clear(rx, lines)
  {
    var at := Spot(rx, lines);
    var upTo := if Replaces(rx, lines) then lines[..at] else lines[..at + 1];
    FirstPathMeans(rx, lines);
    BeforeKeepsFields(rx, lines, Sha);
    NoFieldMeans(rx, upTo, Sha);
    assert NoField(rx, upTo, Sha) <==> Clear(rx, lines) by {
      if NoField(rx, upTo, Sha) {
        assert forall j :: 0 <= j < at ==> upTo[j] == lines[j];
      }
    }
  }

  /** What is read before the spot is never hexadecimal. */
  lemma {:induction false} NoHexBefore(rx: Patterns, lines: seq<string>)
    requires forall j :: 0 <= j < |lines| ==> !HexLine(rx, lines[j])
    ensures StringField(rx, lines, Sha).Some? ==> !rx.hex(StringField(rx, lines, Sha).value)
  {
    if lines != [] {
      assert !HexLine(rx, lines[0]);
      NoHexBefore(rx, lines[1..]);
    }
  }

  /** After an update the block reads as the checksum if and only if no other sha256 field came before. */
  lemma UpdateSetsSha(rx: Patterns, lines: seq<string>, checksum: string)
    requires Lawful(rx) && rx.hex(checksum) && BlockWithSha(rx, lines, checksum).Some?
    ensures StringField(rx, BlockWithSha(rx, lines, checksum).value, Sha) == Some(checksum) <==> Clear(rx, lines)
  {
    UpdatedParts(rx, lines, checksum);
    var at := Spot(rx, lines);
    assert ReadsAsWritten(rx, rx.indent(lines[at]), checksum);
    FieldOfParts(rx, Before(rx, lines), NewLine(rx, lines, checksum), After(rx, lines), Sha);
    BeforeIsClear(rx, lines);
    BeforeKeepsFields(rx, lines, Sha);
    FirstHexMeans(rx, lines);
    FirstPathMeans(rx, lines);
    NoHexBefore(rx, if Replaces(rx, lines) then lines[..at] else lines[..at + 1]);
  }

  // ----- one block: a second update -----

  lemma {:induction false} FirstHexIs(rx: Patterns, lines: seq<string>, k: nat)
    requires k < |lines| && HexLine(rx, lines[k]) && forall j :: 0 <= j < k ==> !HexLine(rx, lines[j])
    ensures FirstHex(rx, lines) == k
  {
    if k > 0 {
      FirstHexIs(rx, lines[1..], k - 1);
    }
  }

  lemma BeforeHasNoHex(rx: Patterns, lines: seq<string>)
    requires Lawful(rx) && Spot(rx, lines) < |lines|
    ensures forall j :: 0 <= j < |Before(rx, lines)| ==> !HexLine(rx, Before(rx, lines)[j])
  {
    FirstHexMeans(rx, lines);
    FirstPathMeans(rx, lines);
    var at := Spot(rx, lines);
    if !Replaces(rx, lines) {
      var blanks := TrailingBlank(rx, lines[..at]);
      TrailingIsBlank(rx, lines[..at]);
      forall j | 0 <= j < |Before(rx, lines)| ensures !HexLine(rx, Before(rx, lines)[j]) {
        if j > at {
          assert Before(rx, lines)[j] == blanks[j - at - 1];
        }
      }
    }
  }

  /** A second update of the block with the same checksum drops the blank lines after the checksum line, and that is all. */
  lemma SecondUpdate(rx: Patterns, lines: seq<string>, checksum: string)
    requires Lawful(rx) && rx.hex(checksum) && BlockWithSha(rx, lines, checksum).Some?
    ensures BlockWithSha(rx, BlockWithSha(rx, lines, checksum).value, checksum)
         == Some(Before(rx, lines) + [NewLine(rx, lines, checksum)] + DropBlank(rx, After(rx, lines)))
  {
    UpdatedParts(rx, lines, checksum);
    var before, line, after := Before(rx, lines), NewLine(rx, lines, checksum), After(rx, lines);
    var updated := before + [line] + after;
    assert ReadsAsWritten(rx, rx.indent(lines[Spot(rx, lines)]), checksum);
    BeforeHasNoHex(rx, lines);
    var k := |before|;
    assert updated[k] == line && updated[..k] == before && updated[k + 1..] == after;
    FirstHexIs(rx, updated, k);
  }

  lemma {:induction false} DropBlankTwice(rx: Patterns, lines: seq<string>)
    ensures DropBlank(rx, DropBlank(rx, lines)) == DropBlank(rx, lines)
  {
    if lines != [] && rx.blank(lines[0]) {
      DropBlankTwice(rx, lines[1..]);
    }
  }

  lemma {:induction false} DropBlankIsShorter(rx: Patterns, lines: seq<string>)
    ensures |DropBlank(rx, lines)| <= |lines|
    ensures DropBlank(rx, lines) == lines <==> lines == [] || !rx.blank(lines[0])
  {
    if lines != [] && rx.blank(lines[0]) {
      DropBlankIsShorter(rx, lines[1..]);
    }
  }

  /** The checksum is inserted just before a blank line. */
  predicate OpensGap(rx: Patterns, lines: seq<string>) {
    var p := FirstPath(rx, lines);
    !Replaces(rx, lines) && p + 1 < |lines| && rx.blank(lines[p + 1])
  }

  /** A second update of the block changes nothing if and only if the first did not insert before a blank line. */
  lemma SecondUpdateIsIdle(rx: Patterns, lines: seq<string>, checksum: string)
    requires Lawful(rx) && rx.hex(checksum) && BlockWithSha(rx, lines, checksum).Some?
    ensures var once := BlockWithSha(rx, lines, checksum).value;
            BlockWithSha(rx, once, checksum).Some? && (BlockWithSha(rx, once, checksum) == Some(once) <==> !OpensGap(rx, lines))
  {
    SecondUpdate(rx, lines, checksum);
    UpdatedParts(rx, lines, checksum);
    var head, after := Before(rx, lines) + [NewLine(rx, lines, checksum)], After(rx, lines);
    DropBlankIsShorter(rx, after);
    if Replaces(rx, lines) {
      DropBlankTwice(rx, lines[Spot(rx, lines) + 1..]);
    }
    assert (head + DropBlank(rx, after))[|head|..] == DropBlank(rx, after) && (head + after)[|head|..] == after;
  }
}
