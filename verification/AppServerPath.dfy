/** Paths on the app-server host, under the platform rules that the text of a path selects. */
module AppServerPath {
  import opened Common

  predicate Alphabetic(c: char) {
    'a' <= c <= 'z' || 'A' <= c <= 'Z'
  }

  predicate IsWindowsAbsolute(p: string) {
    || (|p| >= 3 && Alphabetic(p[0]) && p[1] == ':' && (p[2] == '\\' || p[2] == '/'))
    || (|p| >= 2 && p[0] == '\\' && p[1] == '\\')
    || (|p| >= 2 && p[0] == '/' && p[1] == '/')
  }

  /** from_absolute_str accepts the path. */
  predicate IsAbsolute(p: string) {
    (|p| >= 1 && p[0] == '/') || IsWindowsAbsolute(p)
  }

  predicate IsSeparator(windows: bool, c: char) {
    c == '/' || (windows && c == '\\')
  }

  /** The length of the text before the first separator. */
  function Leading(windows: bool, s: string): (i: nat)
    ensures i <= |s| && (i < |s| ==> IsSeparator(windows, s[i]))
    ensures forall k :: 0 <= k < i ==> !IsSeparator(windows, s[k])
  {
    if s == "" || IsSeparator(windows, s[0]) then 0 else 1 + Leading(windows, s[1..])
  }

  /** `s.split(separators)` */
  function Split(windows: bool, s: string): seq<string>
    decreases |s|
  {
    var i := Leading(windows, s);
    if i == |s| then [s] else [s[..i]] + Split(windows, s[i + 1..])
  }

  /** `.filter(|part| !part.is_empty())` */
  function NonEmpty(parts: seq<string>): seq<string> {
    if parts == [] then [] else (if parts[0] == "" then [] else [parts[0]]) + NonEmpty(parts[1..])
  }

  function Pieces(windows: bool, s: string): seq<string> {
    NonEmpty(Split(windows, s))
  }

  function Components(p: string): seq<string> {
    Pieces(IsWindowsAbsolute(p), p)
  }

  /** `trim_end_matches(separators)` */
  function TrimEnd(windows: bool, s: string): string {
    if s != "" && IsSeparator(windows, s[|s| - 1]) then TrimEnd(windows, s[..|s| - 1]) else s
  }

  function Join(p: string, segment: string): string {
    var windows := IsWindowsAbsolute(p);
    TrimEnd(windows, p) + [if windows then '\\' else '/'] + segment
  }

  function JoinAll(p: string, segments: seq<string>): string {
    if segments == [] then p else Join(JoinAll(p, segments[..|segments| - 1]), segments[|segments| - 1])
  }

  /** The non-empty pieces of each segment, in order. */
  function AllPieces(windows: bool, segments: seq<string>): seq<string> {
    if segments == [] then []
    else AllPieces(windows, segments[..|segments| - 1]) + Pieces(windows, segments[|segments| - 1])
  }

  // ----- pieces of concatenated texts -----

  lemma LeadingAt(windows: bool, a: string, c: char, b: string)
    requires IsSeparator(windows, c)
    ensures Leading(windows, a + [c] + b) == Leading(windows, a)
  {
    var s := a + [c] + b;
    var i, j := Leading(windows, a), Leading(windows, s);
    assert s[|a|] == c;
    assert forall k :: 0 <= k < |a| ==> s[k] == a[k];
  }

  /** The function unfolds like Split. */
  ghost predicate Unfolds(windows: bool, f: string -> seq<string>) {
    forall s {:trigger At(s)} :: At(s) ==> var i := Leading(windows, s); f(s) == if i == |s| then [s] else [s[..i]] + f(s[i + 1..])
  }

  ghost predicate At(s: string) {
    true
  }

  lemma {:induction false} UnfoldsConcat(windows: bool, f: string -> seq<string>, a: string, c: char, b: string)
    requires Unfolds(windows, f) && IsSeparator(windows, c)
    ensures f(a + [c] + b) == f(a) + f(b)
    decreases |a|
  {
    var i := Leading(windows, a);
    LeadingAt(windows, a, c, b);
    CutAt(a, c, b, i);
    assert At(a) && At(a + [c] + b);
    if i < |a| {
      UnfoldsConcat(windows, f, a[i + 1..], c, b);
      Reassociate(a[..i], f(a[i + 1..]), f(b));
    }
  }

  lemma CutAt(a: string, c: char, b: string, i: nat)
    requires i <= |a|
    ensures (a + [c] + b)[..i] == if i < |a| then a[..i] else a
    ensures (a + [c] + b)[i + 1..] == if i < |a| then a[i + 1..] + [c] + b else b
  {
  }

  lemma SplitConcat(windows: bool, a: string, c: char, b: string)
    requires IsSeparator(windows, c)
    ensures Split(windows, a + [c] + b) == Split(windows, a) + Split(windows, b)
  {
    UnfoldsConcat(windows, s => Split(windows, s), a, c, b);
  }

  lemma {:induction false} NonEmptyConcat(a: seq<string>, b: seq<string>)
    ensures NonEmpty(a + b) == NonEmpty(a) + NonEmpty(b)
  {
    if a == [] {
      assert a + b == b;
    } else {
      assert (a + b)[0] == a[0] && (a + b)[1..] == a[1..] + b;
      NonEmptyConcat(a[1..], b);
      Reassociate(a[0], NonEmpty(a[1..]), NonEmpty(b));
    }
  }

  lemma NoPieces(windows: bool)
    ensures Pieces(windows, "") == []
  {
    assert Split(windows, "") == [""];
    assert [""][1..] == [];
  }

  lemma PiecesConcat(windows: bool, a: string, c: char, b: string)
    requires IsSeparator(windows, c)
    ensures Pieces(windows, a + [c] + b) == Pieces(windows, a) + Pieces(windows, b)
  {
    SplitConcat(windows, a, c, b);
    NonEmptyConcat(Split(windows, a), Split(windows, b));
  }

  lemma {:induction false} PiecesTrimmed(windows: bool, s: string)
    ensures Pieces(windows, TrimEnd(windows, s)) == Pieces(windows, s)
  {
    if s != "" && IsSeparator(windows, s[|s| - 1]) {
      var t := s[..|s| - 1];
      PiecesTrimmed(windows, t);
      assert s == t + [s[|s| - 1]] + "";
      PiecesConcat(windows, t, s[|s| - 1], "");
      NoPieces(windows);
    }
  }

  lemma {:induction false} TrimmedIsPrefix(windows: bool, s: string)
    ensures TrimEnd(windows, s) <= s
    ensures forall k :: |TrimEnd(windows, s)| <= k < |s| ==> IsSeparator(windows, s[k])
    ensures TrimEnd(windows, s) == "" || !IsSeparator(windows, TrimEnd(windows, s)[|TrimEnd(windows, s)| - 1])
  {
    if s != "" && IsSeparator(windows, s[|s| - 1]) { TrimmedIsPrefix(windows, s[..|s| - 1]); }
  }

  lemma TrimmedEmptyIff(windows: bool, s: string)
    ensures Pieces(windows, s) == [] <==> TrimEnd(windows, s) == ""
  {
    var t := TrimEnd(windows, s);
    PiecesTrimmed(windows, s);
    TrimmedIsPrefix(windows, s);
    if t == "" {
      NoPieces(windows);
    } else {
      EndsInPiece(windows, t);
    }
  }

  lemma {:induction false} EndsInPiece(windows: bool, t: string)
    requires t != "" && !IsSeparator(windows, t[|t| - 1])
    ensures Pieces(windows, t) != []
    decreases |t|
  {
    var i := Leading(windows, t);
    if i < |t| {
      EndsInPiece(windows, t[i + 1..]);
      assert Split(windows, t)[1..] == Split(windows, t[i + 1..]);
    }
  }

  // ----- joining -----

  /** Joining keeps the path absolute and of the same platform kind. */
  predicate KeepsKind(p: string, segment: string) {
    IsAbsolute(Join(p, segment)) && IsWindowsAbsolute(Join(p, segment)) == IsWindowsAbsolute(p)
  }

  lemma JoinKeepsKind(p: string, segment: string)
    requires IsAbsolute(p) && Components(p) != []
    ensures KeepsKind(p, segment)
  {
    var windows := IsWindowsAbsolute(p);
    var t := TrimEnd(windows, p);
    TrimmedIsPrefix(windows, p);
    TrimmedEmptyIff(windows, p);
    var j := Join(p, segment);
    assert t <= j && j[|t|] == if windows then '\\' else '/';
    if windows && Alphabetic(p[0]) {
      assert |t| >= 2;
    }
  }

  lemma JoinComponents(p: string, segment: string)
    requires IsAbsolute(p) && Components(p) != []
    ensures Components(Join(p, segment)) == Components(p) + Pieces(IsWindowsAbsolute(p), segment)
  {
    var windows := IsWindowsAbsolute(p);
    JoinKeepsKind(p, segment);
    PiecesConcat(windows, TrimEnd(windows, p), if windows then '\\' else '/', segment);
    PiecesTrimmed(windows, p);
  }

  /** Joining any segments to an absolute path with a component keeps it absolute and of its
      kind; its components are the old ones followed by the pieces of the segments, in order. */
  lemma {:induction false} JoinAllComponents(p: string, segments: seq<string>)
    requires IsAbsolute(p) && Components(p) != []
    ensures var q := JoinAll(p, segments);
            && IsAbsolute(q) && IsWindowsAbsolute(q) == IsWindowsAbsolute(p)
            && Components(q) == Components(p) + AllPieces(IsWindowsAbsolute(p), segments)
  {
    if segments == [] {
      assert Components(p) + [] == Components(p);
    } else {
      var n := |segments| - 1;
      JoinAllComponents(p, segments[..n]);
      var q := JoinAll(p, segments[..n]);
      JoinKeepsKind(q, segments[n]);
      JoinComponents(q, segments[n]);
      var windows := IsWindowsAbsolute(p);
      assert Components(p) + AllPieces(windows, segments[..n]) + Pieces(windows, segments[n]) ==
             Components(p) + (AllPieces(windows, segments[..n]) + Pieces(windows, segments[n]));
    }
  }

  predicate StartsWith(s: string, c: char) {
    s != "" && s[0] == c
  }

  /** Exactly when a join keeps the kind. A path of separators only is trimmed to nothing, so the
      result is one separator and the segment: a Windows path then needs a second backslash,
      and a POSIX path must not get a second slash. */
  lemma KindKeptIff(p: string, segment: string)
    requires IsAbsolute(p)
    ensures KeepsKind(p, segment) <==>
            Components(p) != [] || (if IsWindowsAbsolute(p) then StartsWith(segment, '\\') else !StartsWith(segment, '/'))
  {
    var windows := IsWindowsAbsolute(p);
    if Components(p) != [] {
      JoinKeepsKind(p, segment);
    } else {
      TrimmedEmptyIff(windows, p);
      assert Join(p, segment) == [if windows then '\\' else '/'] + segment;
    }
  }

  /** So an absolute path keeps its kind under every segment just when it has a component. */
  lemma KindKeptIffComponent(p: string)
    requires IsAbsolute(p)
    ensures Components(p) != [] <==> forall segment :: KeepsKind(p, segment)
  {
    forall segment ensures KeepsKind(p, segment) <==>
            Components(p) != [] || (if IsWindowsAbsolute(p) then StartsWith(segment, '\\') else !StartsWith(segment, '/'))
    {
      KindKeptIff(p, segment);
    }
    if Components(p) == [] {
      assert !KeepsKind(p, if IsWindowsAbsolute(p) then "x" else "/x");
    }
  }

  /** The paths that fail, and how: `/` becomes a Windows path, `//` and `\\` stop being
      absolute at all. A bare drive has a component and is safe. */
  lemma KindIsLost()
    ensures Join("/", "/x") == "//x" && !IsWindowsAbsolute("/") && IsWindowsAbsolute("//x")
    ensures forall p :: p in ["//", "\\\\"] ==> IsWindowsAbsolute(p) && Join(p, "x") == "\\x" && !IsAbsolute("\\x")
    ensures forall segment :: KeepsKind("C:\\", segment)
  {
    Separators(false, "/");
    Separators(true, "//");
    Separators(true, "\\\\");
    BareDrive("C:\\");
  }

  lemma BareDrive(p: string)
    requires |p| == 3 && Alphabetic(p[0]) && p[1] == ':' && p[2] == '\\'
    ensures forall segment :: KeepsKind(p, segment)
  {
    assert TrimEnd(true, p) == p[..2] && p[..2] != "";
    TrimmedEmptyIff(true, p);
    KindKeptIffComponent(p);
  }

  lemma {:induction false} Separators(windows: bool, s: string)
    requires forall i :: 0 <= i < |s| ==> IsSeparator(windows, s[i])
    ensures TrimEnd(windows, s) == ""
  {
    if s != "" { Separators(windows, s[..|s| - 1]); }
  }
}
