/**
 Release versions: the PEP 440 form used by the Python packages, the dashed form used by
 release tags, the conversions between them, and the tag grammar of the publisher.

 A regular expression is modelled by what it means to match it: `fullmatch` succeeds exactly
 when the text can be split into pieces of the required shapes. A substitution anchored
 at the end of the text rewrites the suffix found that way. The lemmas below show that each
 of these splits is unique, so the captured groups are well defined.
 */
module ReleaseVersion {

  import opened Common

  predicate Digit(c: char) {
    '0' <= c <= '9'
  }

  predicate Digits(s: string) {
    |s| > 0 && forall i :: 0 <= i < |s| ==> Digit(s[i])
  }

  /** `[0-9]+(?:\.[0-9]+)*` */
  predicate Dotted(s: string) {
    && |s| > 0 && Digit(s[0]) && Digit(s[|s| - 1])
    && (forall i :: 0 <= i < |s| ==> Digit(s[i]) || s[i] == '.')
    && (forall i :: 0 <= i < |s| - 1 ==> s[i] == '.' ==> s[i + 1] != '.')
  }

  function Strip(s: string): string {
    if s != [] && IsSpace(s[0]) then Strip(s[1..])
    else if s != [] && IsSpace(s[|s| - 1]) then Strip(s[..|s| - 1])
    else s
  }

  function RemovePrefix(s: string): string {
    if "rust-v" <= s then s[6..]
    else if "v" <= s then s[1..]
    else s
  }

  // ----- the four suffix substitutions of normalize_codex_version -----

  ghost predicate HotfixSuffix(s: string, p: string, dot: string, n: string, m: string) {
    (dot == "" || dot == ".") && Digits(n) && Digits(m) && s == p + "-alpha" + dot + n + "." + m
  }

  ghost predicate NumberSuffix(s: string, word: string, p: string, dot: string, n: string) {
    (dot == "" || dot == ".") && Digits(n) && s == p + "-" + word + dot + n
  }

  /** `re.sub(r"-alpha\.?([0-9]+)\.([0-9]+)$", r"a\1.post\2", s)` */
  ghost function SubHotfix(s: string): string {
    if exists p, dot, n, m :: HotfixSuffix(s, p, dot, n, m) then
      var p, dot, n, m :| HotfixSuffix(s, p, dot, n, m);
      p + "a" + n + ".post" + m
    else s
  }

  /** `re.sub(r"-word\.?([0-9]+)$", r"short\1", s)` */
  ghost function SubNumber(s: string, word: string, short: string): string {
    if exists p, dot, n :: NumberSuffix(s, word, p, dot, n) then
      var p, dot, n :| NumberSuffix(s, word, p, dot, n);
      p + short + n
    else s
  }

  ghost function Substitute(s: string): string {
    SubNumber(SubNumber(SubNumber(SubHotfix(s), "alpha", "a"), "beta", "b"), "rc", "rc")
  }

  // ----- the normalised form -----

  /** The captured parts of a normalised version; an absent part is empty. */
  datatype Parts = Parts(base: string, kind: string, number: string, post: string) {
    predicate Wf() {
      && Dotted(base)
      && (kind == "" || kind == "a" || kind == "b" || kind == "rc")
      && (if kind == "" then number == "" else Digits(number))
      && (post == "" || Digits(post))
    }

    function PostText(): string {
      if post == "" then "" else ".post" + post
    }

    function Text(): string {
      base + Tail()
    }

    function Tail(): string {
      kind + (number + PostText())
    }

    /** The length of the leading run of digits and dots. */
    function Lead(): nat {
      if kind != "" then |base| else if post != "" then |base| + 1 else |base|
    }
  }

  ghost predicate Normalized(s: string) {
    exists v: Parts :: v.Wf() && v.Text() == s
  }

  /** normalize_codex_version; `None` is the RuntimeError. */
  ghost function Normalize(version: string): Option<string> {
    var s := RemovePrefix(Strip(version));
    var n := Substitute(s);
    if Normalized(n) then Some(n) else None
  }

  function LongName(kind: string): string {
    if kind == "a" then "alpha" else if kind == "b" then "beta" else kind
  }

  /** `-alpha.<n>`, `-beta.<n>` or `-rc.<n>` */
  function NumberTail(kind: string, n: string): string {
    "-" + LongName(kind) + "." + n
  }

  /** `-alpha.<n>.<m>` */
  function HotfixTail(n: string, m: string): string {
    NumberTail("a", n) + "." + m
  }

  /** codex_release_version on an already normalised text. */
  ghost function Dashed(n: string): string
    requires Normalized(n)
  {
    var v: Parts :| v.Wf() && v.Text() == n;
    if v.kind == "a" && v.post != "" then v.base + HotfixTail(v.number, v.post)
    else if v.kind != "" && v.post == "" then v.base + NumberTail(v.kind, v.number)
    else n
  }

  ghost function ReleaseVersionOf(version: string): Option<string> {
    match Normalize(version)
    case None => None
    case Some(n) => Some(Dashed(n))
  }

  ghost function ReleaseTag(version: string): Option<string> {
    match ReleaseVersionOf(version)
    case None => None
    case Some(r) => Some("rust-v" + r)
  }

  ghost predicate ThreePart(s: string, x: string, y: string, z: string) {
    Digits(x) && Digits(y) && Digits(z) && s == x + "." + y + "." + z
  }

  /** `[0-9]+\.[0-9]+\.[0-9]+(?:a[0-9]+(?:\.post[0-9]+)?)?` */
  ghost predicate PythonRuntime(s: string) {
    exists x, y, z, v: Parts ::
      ThreePart(v.base, x, y, z) && v.Wf() && v.Text() == s && (v.kind == "" || v.kind == "a") && (v.kind == "" ==> v.post == "")
  }

  /** resolve_python_runtime_release; `None` is the RuntimeError. */
  ghost function ResolvePythonRuntime(s: string): Option<(string, string)> {
    if !PythonRuntime(s) then None
    else match ReleaseTag(s)
      case None => None
      case Some(tag) => Some((s, tag))
  }

  // ----- the publisher's tag grammar -----

  ghost predicate TagSuffix(t: string, numbers: seq<string>) {
    && (forall i :: 0 <= i < |numbers| ==> Digits(numbers[i]))
    && match |numbers| {
        case 0 => t == "" || t == "-alpha" || t == "-beta"
        case 1 => t == NumberTail("a", numbers[0]) || t == NumberTail("b", numbers[0])
        case 2 => t == HotfixTail(numbers[0], numbers[1])
        case _ => false
      }
  }

  ghost predicate PublishableParts(s: string, x: string, y: string, z: string, t: string, numbers: seq<string>) {
    Digits(x) && Digits(y) && Digits(z) && TagSuffix(t, numbers) && s == x + "." + y + "." + z + t
  }

  /** VERSION_RE of the release publisher. */
  ghost predicate Publishable(s: string) {
    exists x, y, z, t, numbers :: PublishableParts(s, x, y, z, t, numbers)
  }

  // ----- splitting texts -----

  lemma SplitLast(c: char, p: string, q: string, p': string, q': string)
    requires c !in q && c !in q'
    requires p + [c] + q == p' + [c] + q'
    ensures p == p' && q == q'
  {
    var s := p + [c] + q;
    assert s[|p|] == c && s[|p'|] == c;
    assert |p| == |p'|;
    assert p == s[..|p|] && p' == s[..|p'|];
    assert q == s[|p| + 1..] && q' == s[|p'| + 1..];
  }

  lemma SplitFirst(c: char, p: string, q: string, p': string, q': string)
    requires c !in p && c !in p'
    requires p + [c] + q == p' + [c] + q'
    ensures p == p' && q == q'
  {
    var s := p + [c] + q;
    assert s[|p|] == c && s[|p'|] == c;
    assert |p| == |p'|;
    assert p == s[..|p|] && p' == s[..|p'|];
    assert q == s[|p| + 1..] && q' == s[|p'| + 1..];
  }

  lemma HotfixUnique(s: string, p: string, dot: string, n: string, m: string, p': string, dot': string, n': string, m': string)
    requires HotfixSuffix(s, p, dot, n, m) && HotfixSuffix(s, p', dot', n', m')
    ensures p == p' && n == n' && m == m'
  {
    assert s == p + "-alpha" + dot + n + ['.'] + m == p' + "-alpha" + dot' + n' + ['.'] + m';
    SplitLast('.', p + "-alpha" + dot + n, m, p' + "-alpha" + dot' + n', m');
    assert NumberSuffix(p + "-alpha" + dot + n, "alpha", p, dot, n) by {
      assert p + "-" + "alpha" + dot + n == p + "-alpha" + dot + n;
    }
    assert NumberSuffix(p + "-alpha" + dot + n, "alpha", p', dot', n') by {
      assert p' + "-" + "alpha" + dot' + n' == p' + "-alpha" + dot' + n';
    }
    NumberUnique(p + "-alpha" + dot + n, "alpha", p, dot, n, p', dot', n');
  }

  lemma NumberUnique(s: string, word: string, p: string, dot: string, n: string, p': string, dot': string, n': string)
    requires '-' !in word
    requires NumberSuffix(s, word, p, dot, n) && NumberSuffix(s, word, p', dot', n')
    ensures p == p' && n == n'
  {
    var q, q' := word + dot + n, word + dot' + n';
    assert p + ['-'] + q == s == p' + ['-'] + q';
    SplitLast('-', p, q, p', q');
    assert q[|word|..] == dot + n && q'[|word|..] == dot' + n';
    assert (dot + n)[0] == (dot' + n')[0];
    assert (dot + n)[|dot|..] == n && (dot' + n')[|dot'|..] == n';
  }

  lemma SubHotfixIs(s: string, p: string, dot: string, n: string, m: string)
    requires HotfixSuffix(s, p, dot, n, m)
    ensures SubHotfix(s) == p + "a" + n + ".post" + m
  {
    var p', dot', n', m' :| HotfixSuffix(s, p', dot', n', m') && SubHotfix(s) == p' + "a" + n' + ".post" + m';
    HotfixUnique(s, p, dot, n, m, p', dot', n', m');
  }

  lemma SubNumberIs(s: string, word: string, short: string, p: string, dot: string, n: string)
    requires '-' !in word && NumberSuffix(s, word, p, dot, n)
    ensures SubNumber(s, word, short) == p + short + n
  {
    var p', dot', n' :| NumberSuffix(s, word, p', dot', n') && SubNumber(s, word, short) == p' + short + n';
    NumberUnique(s, word, p, dot, n, p', dot', n');
  }

  lemma HotfixHasDash(s: string, p: string, dot: string, n: string, m: string)
    ensures HotfixSuffix(s, p, dot, n, m) ==> '-' in s
  {
    assert (p + "-alpha" + dot + n + "." + m)[|p|] == '-';
  }

  lemma NumberHasDash(s: string, word: string, p: string, dot: string, n: string)
    ensures NumberSuffix(s, word, p, dot, n) ==> '-' in s
  {
    assert (p + "-" + word + dot + n)[|p|] == '-';
  }

  lemma NoDashNoSubstitution(s: string)
    requires '-' !in s
    ensures SubHotfix(s) == s
    ensures forall word, short {:trigger SubNumber(s, word, short)} :: SubNumber(s, word, short) == s
  {
    forall p, dot, n, m ensures HotfixSuffix(s, p, dot, n, m) ==> '-' in s {
      HotfixHasDash(s, p, dot, n, m);
    }
    forall word, p, dot, n ensures NumberSuffix(s, word, p, dot, n) ==> '-' in s {
      NumberHasDash(s, word, p, dot, n);
    }
  }

  // ----- unique readability of the normalised form -----

  lemma LeadOf(v: Parts)
    requires v.Wf()
    ensures LeadEnds(v.Text(), v.Lead())
    ensures v.kind == "" && v.post == "" <==> v.Lead() == |v.Text()|
    ensures v.kind == "" && v.post != "" <==> v.Lead() < |v.Text()| && v.Text()[v.Lead()] == 'p'
  {
    var s := v.Text();
    assert forall i :: 0 <= i < |v.base| ==> s[i] == v.base[i];
    if v.kind != "" {
      assert s[|v.base|] == v.kind[0];
    } else if v.post != "" {
      assert s == v.base + ".post" + v.post;
      assert s[|v.base|] == '.' && s[|v.base| + 1] == 'p';
    }
  }

  lemma DigitRun(n: string, t: string, n': string, t': string)
    requires Digits(n') && n + t == n' + t'
    ensures |n| < |n'| ==> t != "" && Digit(t[0])
  {
    if |n| < |n'| {
      assert (n + t)[|n|] == t[0] == n'[|n|];
    }
  }

  /** A run of digits followed by something else ends in only one place. */
  lemma SplitDigits(n: string, t: string, n': string, t': string)
    requires Digits(n) && Digits(n')
    requires t == "" || !Digit(t[0])
    requires t' == "" || !Digit(t'[0])
    requires n + t == n' + t'
    ensures n == n' && t == t'
  {
    var s := n + t;
    DigitRun(n, t, n', t');
    DigitRun(n', t', n, t);
    assert n == s[..|n|] && n' == s[..|n'|];
    assert t == s[|n|..] && t' == s[|n'|..];
  }

  lemma PostTextIs(v: Parts, w: Parts)
    requires v.Wf() && w.Wf() && v.PostText() == w.PostText()
    ensures v.post == w.post
  {
    if v.post != "" { assert v.post == v.PostText()[5..]; }
    if w.post != "" { assert w.post == w.PostText()[5..]; }
  }

  lemma SameLead(v: Parts, w: Parts)
    requires v.Wf() && w.Wf() && v.Text() == w.Text()
    ensures v.Lead() == w.Lead() && (v.kind == "" <==> w.kind == "") && |v.base| == |w.base|
    ensures v.base == w.base
  {
    LeadOf(v);
    LeadOf(w);
    var s := v.Text();
    LeadUnique(s, v.Lead(), w.Lead());
    SameBase(v, w);
  }

  predicate LeadEnds(s: string, i: nat) {
    && i <= |s|
    && (forall k :: 0 <= k < i ==> Digit(s[k]) || s[k] == '.')
    && (i < |s| ==> !Digit(s[i]) && s[i] != '.')
  }

  lemma LeadUnique(s: string, i: nat, j: nat)
    requires LeadEnds(s, i) && LeadEnds(s, j)
    ensures i == j
  {
  }

  lemma SameBase(v: Parts, w: Parts)
    requires |v.base| == |w.base| && v.Text() == w.Text()
    ensures v.base == w.base
  {
    assert v.base == v.Text()[..|v.base|] && w.base == w.Text()[..|w.base|];
  }

  /** A normalised text can be read in only one way. */
  lemma UniqueReading(v: Parts, w: Parts)
    requires v.Wf() && w.Wf() && v.Text() == w.Text()
    ensures v == w
  {
    SameLead(v, w);
    assert v.Tail() == v.Text()[|v.base|..] == w.Tail();
    SameTail(v, w);
  }

  lemma SameTail(v: Parts, w: Parts)
    requires v.Wf() && w.Wf() && v.Tail() == w.Tail() && (v.kind == "" <==> w.kind == "")
    ensures v.kind == w.kind && v.number == w.number && v.post == w.post
  {
    if v.kind != "" {
      assert v.Tail()[0] == v.kind[0] && w.Tail()[0] == w.kind[0];
      assert v.kind == w.kind;
      assert v.number + v.PostText() == v.Tail()[|v.kind|..] == w.number + w.PostText();
      SplitDigits(v.number, v.PostText(), w.number, w.PostText());
    } else {
      assert v.Tail() == v.PostText() && w.Tail() == w.PostText();
    }
    PostTextIs(v, w);
  }

  lemma TextShape(v: Parts)
    requires v.Wf()
    ensures v.Text() != "" && Digit(v.Text()[0]) && Digit(v.Text()[|v.Text()| - 1])
    ensures '-' !in v.Text()
  {
    assert v.Text()[0] == v.base[0];
    if v.post != "" {
      assert v.Text()[|v.Text()| - 1] == v.post[|v.post| - 1];
    } else if v.kind != "" {
      assert v.Text()[|v.Text()| - 1] == v.number[|v.number| - 1];
    }
  }

  lemma DashedIs(v: Parts)
    requires v.Wf()
    ensures Normalized(v.Text())
    ensures v.kind == "a" && v.post != "" ==> Dashed(v.Text()) == v.base + HotfixTail(v.number, v.post)
    ensures v.kind != "" && v.post == "" ==> Dashed(v.Text()) == v.base + NumberTail(v.kind, v.number)
    ensures v.kind == "" || (v.kind != "a" && v.post != "") ==> Dashed(v.Text()) == v.Text()
  {
    assert Normalized(v.Text());
    forall w: Parts | w.Wf() && w.Text() == v.Text() ensures w == v { UniqueReading(w, v); }
  }

  lemma StripAndPrefixNoop(s: string)
    requires s != "" && Digit(s[0]) && Digit(s[|s| - 1])
    ensures Strip(s) == s && RemovePrefix(s) == s
  {
  }

  /** Normalising a normalised version changes nothing. */
  lemma NormalizeIdempotent(version: string, n: string)
    requires Normalize(version) == Some(n)
    ensures Normalize(n) == Some(n)
  {
    var v: Parts :| v.Wf() && v.Text() == n;
    TextShape(v);
    NormalizeClean(n);
  }

  lemma NormalizeClean(n: string)
    requires n != "" && Digit(n[0]) && Digit(n[|n| - 1]) && '-' !in n && Normalized(n)
    ensures Normalize(n) == Some(n)
  {
    StripAndPrefixNoop(n);
    NoDashNoSubstitution(n);
  }

  lemma HotfixText(v: Parts)
    requires v.Wf() && v.kind == "a" && v.post != ""
    ensures HotfixSuffix(v.base + HotfixTail(v.number, v.post), v.base, ".", v.number, v.post)
    ensures v.Text() == v.base + "a" + v.number + ".post" + v.post
  {
    assert "-" + "alpha" == "-alpha";
    assert v.base + HotfixTail(v.number, v.post) == v.base + "-alpha" + "." + v.number + "." + v.post;
  }

  lemma NormalizeHotfix(v: Parts)
    requires v.Wf() && v.kind == "a" && v.post != ""
    ensures Normalize(v.base + HotfixTail(v.number, v.post)) == Some(v.Text())
  {
    var s := v.base + HotfixTail(v.number, v.post);
    assert s[0] == v.base[0] && s[|s| - 1] == v.post[|v.post| - 1];
    StripAndPrefixNoop(s);
    HotfixText(v);
    SubHotfixIs(s, v.base, ".", v.number, v.post);
    TextShape(v);
    NoDashNoSubstitution(v.Text());
  }

  lemma OneNumberIsNoHotfix(s: string, p: string, word: string, dot: string, n: string)
    requires '-' !in word && '.' !in word && |word| <= 5 && Digits(n) && (dot == "" || dot == ".") && s == p + "-" + word + dot + n
    ensures SubHotfix(s) == s
  {
    forall p', dot', n', m' ensures !HotfixSuffix(s, p', dot', n', m') {
      OneNumber(s, p, word, dot, n, p', dot', n', m');
    }
  }

  lemma OneNumber(s: string, p: string, word: string, dot: string, n: string, p': string, dot': string, n': string, m': string)
    requires '-' !in word && '.' !in word && Digits(n) && (dot == "" || dot == ".") && s == p + "-" + word + dot + n
    ensures HotfixSuffix(s, p', dot', n', m') ==> |word| > 5
  {
    if HotfixSuffix(s, p', dot', n', m') {
      var q, q' := word + dot + n, "alpha" + dot' + n' + ['.'] + m';
      assert p + ['-'] + q == s == p' + ['-'] + q';
      SplitLast('-', p, q, p', q');
      assert q'[|"alpha" + dot' + n'|] == '.';
      assert dot == "" ==> '.' !in q;
      assert q == word + ['.'] + n;
      SplitLast('.', word, n, "alpha" + dot' + n', m');
      assert |word| == 5 + |dot'| + |n'|;
    }
  }

  lemma WrongWord(s: string, p: string, word: string, dot: string, n: string, other: string, short: string)
    requires '-' !in word && '-' !in other && Digits(n) && (dot == "" || dot == ".") && s == p + "-" + word + dot + n
    requires word != "" && other != "" && word[0] != other[0]
    ensures SubNumber(s, other, short) == s
  {
    forall p', dot', n' ensures !NumberSuffix(s, other, p', dot', n') {
      OneWord(s, p, word, dot, n, other, p', dot', n');
    }
  }

  lemma OneWord(s: string, p: string, word: string, dot: string, n: string, other: string, p': string, dot': string, n': string)
    requires '-' !in word && '-' !in other && Digits(n) && (dot == "" || dot == ".") && s == p + "-" + word + dot + n
    requires word != "" && other != ""
    ensures NumberSuffix(s, other, p', dot', n') ==> word[0] == other[0]
  {
    if NumberSuffix(s, other, p', dot', n') {
      var q, q' := word + dot + n, other + dot' + n';
      assert p + ['-'] + q == s == p' + ['-'] + q';
      SplitLast('-', p, q, p', q');
      assert q[0] == word[0] && q'[0] == other[0];
    }
  }

  lemma SubstitutePrerelease(s: string, p: string, kind: string, dot: string, n: string)
    requires kind == "a" || kind == "b" || kind == "rc"
    requires Digits(n) && (dot == "" || dot == ".") && '-' !in p && s == p + "-" + LongName(kind) + dot + n
    ensures Substitute(s) == p + kind + n
  {
    var word := LongName(kind);
    OneNumberIsNoHotfix(s, p, word, dot, n);
    if kind != "a" { WrongWord(s, p, word, dot, n, "alpha", "a"); }
    if kind == "rc" { WrongWord(s, p, word, dot, n, "beta", "b"); }
    SubNumberIs(s, word, kind, p, dot, n);
    NoDashNoSubstitution(p + kind + n);
  }

  lemma NormalizePrerelease(v: Parts)
    requires v.Wf() && v.kind != "" && v.post == ""
    ensures Normalize(v.base + NumberTail(v.kind, v.number)) == Some(v.Text())
  {
    assert v.Text() == v.base + v.kind + v.number;
    NormalizePrereleaseText(v.base, v.kind, v.number);
  }

  lemma NormalizePrereleaseText(base: string, kind: string, n: string)
    requires kind == "a" || kind == "b" || kind == "rc"
    requires Dotted(base) && Digits(n) && Normalized(base + kind + n)
    ensures Normalize(base + NumberTail(kind, n)) == Some(base + kind + n)
  {
    var s := base + NumberTail(kind, n);
    PrereleaseText(base, kind, n);
    SubstitutePrerelease(s, base, kind, ".", n);
    NormalizeBy(s, base + kind + n);
  }

  lemma NormalizeBy(s: string, n: string)
    requires s != "" && Digit(s[0]) && Digit(s[|s| - 1]) && Substitute(s) == n && Normalized(n)
    ensures Normalize(s) == Some(n)
  {
    StripAndPrefixNoop(s);
  }

  lemma PrereleaseText(base: string, kind: string, n: string)
    requires Dotted(base) && Digits(n)
    ensures var s := base + NumberTail(kind, n);
            && s == base + "-" + LongName(kind) + "." + n
            && s != "" && Digit(s[0]) && Digit(s[|s| - 1])
  {
    var s := base + NumberTail(kind, n);
    assert s == base + "-" + LongName(kind) + "." + n;
    assert s[0] == base[0] && s[|s| - 1] == n[|n| - 1];
  }

  /** The dashed form of a version normalises back to the version it came from. */
  lemma DashedRoundTrip(version: string, n: string)
    requires Normalize(version) == Some(n)
    ensures Normalize(Dashed(n)) == Some(n)
  {
    var v: Parts :| v.Wf() && v.Text() == n;
    DashedIs(v);
    if v.kind == "a" && v.post != "" {
      NormalizeHotfix(v);
    } else if v.kind != "" && v.post == "" {
      NormalizePrerelease(v);
    } else {
      NormalizeIdempotent(version, n);
    }
  }

  /** Two versions share a release tag exactly when they normalise alike. */
  lemma TagsIdentifyVersions(v: string, w: string)
    requires Normalize(v).Some? && Normalize(w).Some?
    ensures ReleaseTag(v) == ReleaseTag(w) <==> Normalize(v) == Normalize(w)
  {
    var n, m := Normalize(v).value, Normalize(w).value;
    DashedRoundTrip(v, n);
    DashedRoundTrip(w, m);
    TagText(Dashed(n));
    TagText(Dashed(m));
  }

  // ----- the two grammars against each other -----

  function JoinDots(parts: seq<string>): string {
    if parts == [] then "" else if |parts| == 1 then parts[0] else parts[0] + "." + JoinDots(parts[1..])
  }

  ghost predicate AllDigits(parts: seq<string>) {
    parts != [] && forall i :: 0 <= i < |parts| ==> Digits(parts[i])
  }

  lemma DottedCons(d: string, rest: string)
    requires Digits(d)
    ensures Dotted(d)
    ensures Dotted(rest) ==> Dotted(d + "." + rest)
  {
    var s := d + "." + rest;
    assert forall i :: 0 <= i < |d| ==> s[i] == d[i];
    assert s[|d|] == '.';
    assert forall i :: |d| < i < |s| ==> s[i] == rest[i - |d| - 1];
    if Dotted(rest) {
      forall i | 0 <= i < |s| - 1 && s[i] == '.' ensures s[i + 1] != '.' {
        if i > |d| { assert s[i + 1] == rest[i - |d|]; }
      }
    }
  }

  lemma {:induction false} FirstDot(s: string, from: nat) returns (i: nat)
    requires from <= |s|
    ensures from <= i <= |s| && (i == |s| || s[i] == '.')
    ensures forall k :: from <= k < i ==> s[k] != '.'
    decreases |s| - from
  {
    if from == |s| || s[from] == '.' { i := from; } else { i := FirstDot(s, from + 1); }
  }

  lemma {:induction false} SplitDotted(s: string) returns (parts: seq<string>)
    requires Dotted(s)
    ensures AllDigits(parts) && JoinDots(parts) == s
    decreases |s|
  {
    var i := FirstDot(s, 0);
    if i == |s| {
      parts := [s];
    } else {
      DottedRest(s, i);
      var tail := SplitDotted(s[i + 1..]);
      parts := [s[..i]] + tail;
      assert s == s[..i] + "." + s[i + 1..];
      assert parts[1..] == tail;
    }
  }

  lemma DottedRest(s: string, i: nat)
    requires Dotted(s) && i < |s| && s[i] == '.'
    ensures 0 < i < |s| - 1 && Dotted(s[i + 1..])
  {
    var rest := s[i + 1..];
    assert s[i + 1] != '.';
    assert forall k :: 0 <= k < |rest| ==> rest[k] == s[k + i + 1];
    forall k | 0 <= k < |rest| - 1 && rest[k] == '.' ensures rest[k + 1] != '.' {
      assert rest[k + 1] == s[k + i + 1 + 1];
    }
  }

  lemma {:induction false} JoinIsDotted(parts: seq<string>)
    requires AllDigits(parts)
    ensures Dotted(JoinDots(parts))
  {
    if |parts| == 1 {
      DottedCons(parts[0], "");
    } else {
      JoinIsDotted(parts[1..]);
      DottedCons(parts[0], JoinDots(parts[1..]));
    }
  }

  /** The character-wise reading of a dotted number is the regular expression's. */
  lemma DottedIsRegex(s: string)
    ensures Dotted(s) <==> exists parts :: AllDigits(parts) && JoinDots(parts) == s
  {
    if Dotted(s) { var parts := SplitDotted(s); }
    forall parts | AllDigits(parts) && JoinDots(parts) == s ensures Dotted(s) { JoinIsDotted(parts); }
  }

  lemma ThreePartIsDotted(s: string, x: string, y: string, z: string)
    requires ThreePart(s, x, y, z)
    ensures Dotted(s)
  {
    DottedCons(z, "");
    DottedCons(y, z);
    DottedCons(x, y + "." + z);
    assert s == x + "." + (y + "." + z);
  }

  lemma RuntimeNormalizes(s: string)
    requires PythonRuntime(s)
    ensures Normalized(s) && Normalize(s) == Some(s) && Publishable(Dashed(s))
  {
    var x, y, z, v: Parts :|
      ThreePart(v.base, x, y, z) && v.Wf() && v.Text() == s && (v.kind == "" || v.kind == "a") && (v.kind == "" ==> v.post == "");
    TextShape(v);
    RuntimeIsPublishable(v, x, y, z);
    NormalizeClean(s);
  }

  /** Every tag computed for a Python runtime version is one the publisher accepts. */
  lemma ResolvedTagIsPublishable(s: string)
    requires PythonRuntime(s)
    ensures exists r :: ResolvePythonRuntime(s) == Some((s, "rust-v" + r)) && Publishable(r)
  {
    RuntimeNormalizes(s);
    var r := Dashed(s);
    assert ResolvePythonRuntime(s) == Some((s, "rust-v" + r));
  }

  lemma TagText(d: string)
    ensures "rust-v" <= "rust-v" + d && ("rust-v" + d)[6..] == d
  {
  }

  lemma RuntimeIsPublishable(v: Parts, x: string, y: string, z: string)
    requires v.Wf() && (v.kind == "" || v.kind == "a") && (v.kind == "" ==> v.post == "")
    requires ThreePart(v.base, x, y, z)
    ensures Normalized(v.Text()) && Publishable(Dashed(v.Text()))
  {
    var t, numbers := DashedSuffix(v);
    assert PublishableParts(Dashed(v.Text()), x, y, z, t, numbers);
  }

  lemma DashedSuffix(v: Parts) returns (t: string, numbers: seq<string>)
    requires v.Wf() && (v.kind == "" || v.kind == "a") && (v.kind == "" ==> v.post == "")
    ensures Normalized(v.Text()) && TagSuffix(t, numbers) && Dashed(v.Text()) == v.base + t
  {
    DashedIs(v);
    if v.kind == "" {
      t, numbers := "", [];
      assert v.Text() == v.base;
    } else if v.post == "" {
      t, numbers := NumberTail("a", v.number), [v.number];
    } else {
      t, numbers := HotfixTail(v.number, v.post), [v.number, v.post];
    }
  }

  /** The parts that a numbered publisher version normalises to. */
  ghost function PartsOfTag(base: string, t: string, numbers: seq<string>): Parts {
    match |numbers| {
      case 1 => Parts(base, if t == NumberTail("a", numbers[0]) then "a" else "b", numbers[0], "")
      case 2 => Parts(base, "a", numbers[0], numbers[1])
      case _ => Parts(base, "", "", "")
    }
  }

  lemma TagOfParts(base: string, t: string, numbers: seq<string>)
    requires Dotted(base) && TagSuffix(t, numbers) && (t == "" || numbers != [])
    ensures var v := PartsOfTag(base, t, numbers); v.Wf() && Dashed(v.Text()) == base + t
  {
    DashedIs(PartsOfTag(base, t, numbers));
  }

  /** A publisher version has a normal form exactly when its pre-release carries a number;
      then the release tag of that normal form is the tag it started from. */
  lemma PublishableRoundTrip(s: string, x: string, y: string, z: string, t: string, numbers: seq<string>)
    requires PublishableParts(s, x, y, z, t, numbers)
    ensures Normalize(s).Some? <==> t == "" || numbers != []
    ensures Normalize(s).Some? ==> ReleaseTag(s) == Some("rust-v" + s)
  {
    var base := x + "." + y + "." + z;
    assert ThreePart(base, x, y, z);
    ThreePartIsDotted(base, x, y, z);
    if t == "" || numbers != [] {
      TagOfParts(base, t, numbers);
      var v := PartsOfTag(base, t, numbers);
      assert s == base + t;
      DashedIs(v);
      TextShape(v);
      NormalizeClean(v.Text());
      DashedRoundTrip(v.Text(), v.Text());
    } else {
      assert s == base + t && s[0] == base[0] && s[|s| - 1] == 'a';
      NoNumberNoNormalForm(s);
      assert s[|base|] == '-';
      NormalizedHasNoDash(s);
    }
  }

  lemma NormalizedHasNoDash(s: string)
    ensures Normalized(s) ==> '-' !in s
  {
    if Normalized(s) {
      var v: Parts :| v.Wf() && v.Text() == s;
      TextShape(v);
    }
  }

  lemma NoNumberNoNormalForm(s: string)
    requires s != "" && Digit(s[0]) && s[|s| - 1] == 'a'
    ensures Normalize(s) == if Normalized(s) then Some(s) else None
  {
    assert Strip(s) == s && RemovePrefix(s) == s;
    forall p, dot, n, m ensures !HotfixSuffix(s, p, dot, n, m) { HotfixEndsInDigit(s, p, dot, n, m); }
    forall word, p, dot, n ensures !NumberSuffix(s, word, p, dot, n) { NumberEndsInDigit(s, word, p, dot, n); }
  }

  lemma HotfixEndsInDigit(s: string, p: string, dot: string, n: string, m: string)
    requires s != ""
    ensures HotfixSuffix(s, p, dot, n, m) ==> Digit(s[|s| - 1])
  {
    if HotfixSuffix(s, p, dot, n, m) { assert s[|s| - 1] == m[|m| - 1]; }
  }

  lemma NumberEndsInDigit(s: string, word: string, p: string, dot: string, n: string)
    requires s != ""
    ensures NumberSuffix(s, word, p, dot, n) ==> Digit(s[|s| - 1])
  {
    if NumberSuffix(s, word, p, dot, n) { assert s[|s| - 1] == n[|n| - 1]; }
  }

  /** A publisher version contains no path separator. */
  lemma PublishableHasNoSlash(s: string)
    requires Publishable(s)
    ensures '/' !in s && s != ""
  {
    var x, y, z, t, numbers :| PublishableParts(s, x, y, z, t, numbers);
    assert '/' !in x && '/' !in y && '/' !in z;
    assert '/' !in t by {
      if |numbers| == 1 { assert '/' !in numbers[0]; }
      if |numbers| == 2 { assert '/' !in numbers[0] && '/' !in numbers[1]; }
    }
  }
}
