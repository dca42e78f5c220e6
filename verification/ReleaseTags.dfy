/** The texts in which a version may be written, and the normal form of each. */
module ReleaseTags {
  import opened Common
  import opened ReleaseVersion

  predicate Blank(s: string) {
    forall i :: 0 <= i < |s| ==> IsSpace(s[i])
  }

  lemma {:induction false} StripIs(a: string, v: string, b: string)
    requires Blank(a) && Blank(b) && v != "" && !IsSpace(v[0]) && !IsSpace(v[|v| - 1])
    ensures Strip(a + v + b) == v
    decreases |a| + |b|
  {
    var s := a + v + b;
    if a != "" {
      assert s[1..] == a[1..] + v + b;
      StripIs(a[1..], v, b);
    } else if b != "" {
      var n := |b| - 1;
      assert s[0] == v[0] && s[..|s| - 1] == a + v + b[..n];
      StripIs(a, v, b[..n]);
    } else {
      assert s == v;
    }
  }

  /** Spaces around a version, and a prefix `v` or `rust-v`, make no difference. */
  lemma PrefixIsIgnored(a: string, prefix: string, v: string, b: string)
    requires Blank(a) && Blank(b) && prefix in ["", "v", "rust-v"]
    requires v != "" && Digit(v[0]) && !IsSpace(v[|v| - 1])
    ensures Normalize(a + (prefix + v) + b) == Normalize(v)
  {
    var t := prefix + v;
    assert t[|t| - 1] == v[|v| - 1] && (prefix == "" ==> t == v);
    assert !IsSpace(t[0]);
    StripIs(a, t, b);
    StripIs("", v, "");
    assert "" + v + "" == v;
    PrefixRemoved(prefix, v);
    PrefixRemoved("", v);
    assert "" + v == v;
  }

  lemma PrefixRemoved(prefix: string, v: string)
    requires prefix in ["", "v", "rust-v"] && v != "" && Digit(v[0])
    ensures RemovePrefix(prefix + v) == v
  {
    var t := prefix + v;
    if prefix == "" {
      assert t == v && t[0] != 'r' && t[0] != 'v';
    } else if prefix == "v" {
      assert t[0] == 'v' && t[1..] == v && "rust-v"[0] == 'r';
    } else {
      assert t[..6] == "rust-v" && t[6..] == v;
    }
  }

  /** A text that begins with a dotted number and ends with a number begins and ends with a digit. */
  lemma Edges(base: string, middle: string, n: string)
    requires Dotted(base) && Digits(n)
    ensures var s := base + middle + n; s != "" && Digit(s[0]) && Digit(s[|s| - 1]) && !IsSpace(s[|s| - 1])
  {
    var s := base + middle + n;
    assert s[0] == base[0] && s[|s| - 1] == n[|n| - 1];
  }

  lemma PrereleaseNormalizes(base: string, word: string, short: string, dot: string, n: string)
    requires Dotted(base) && Digits(n) && (dot == "" || dot == ".") && (word, short) in [("alpha", "a"), ("beta", "b"), ("rc", "rc")]
    ensures Normalize(base + ("-" + word + dot) + n) == Some(base + short + n)
  {
    var s := base + ("-" + word + dot) + n;
    Edges(base, "-" + word + dot, n);
    assert s == base + "-" + word + dot + n;
    assert word == LongName(short);
    var v := Parts(base, short, n, "");
    assert v.Text() == base + short + n;
    SubstitutePrerelease(s, base, short, dot, n);
    NormalizeBy(s, base + short + n);
  }

  lemma HotfixNormalizes(base: string, dot: string, n: string, m: string)
    requires Dotted(base) && Digits(n) && Digits(m) && (dot == "" || dot == ".")
    ensures Normalize(base + ("-alpha" + dot + n + ".") + m) == Some(base + "a" + n + ".post" + m)
  {
    var s := base + ("-alpha" + dot + n + ".") + m;
    Edges(base, "-alpha" + dot + n + ".", m);
    assert s == base + "-alpha" + dot + n + "." + m;
    SubHotfixIs(s, base, dot, n, m);
    HotfixIsNormal(base, n, m);
    NormalizeBy(s, base + "a" + n + ".post" + m);
  }

  lemma HotfixIsNormal(base: string, n: string, m: string)
    requires Dotted(base) && Digits(n) && Digits(m)
    ensures var t := base + "a" + n + ".post" + m; Normalized(t) && SubNumber(SubNumber(SubNumber(t, "alpha", "a"), "beta", "b"), "rc", "rc") == t
  {
    var v := Parts(base, "a", n, m);
    HotfixPartsText(base, n, m);
    TextShape(v);
    NoDashNoSubstitution(v.Text());
  }

  lemma HotfixPartsText(base: string, n: string, m: string)
    requires Dotted(base) && Digits(n) && Digits(m)
    ensures var v := Parts(base, "a", n, m); v.Wf() && v.Text() == base + "a" + n + ".post" + m
  {
    assert base + ("a" + (n + (".post" + m))) == base + "a" + n + ".post" + m;
  }

  /** With or without spaces, a prefix and a dot, a numbered pre-release as the releases write it has the PEP 440 form of that
      pre-release. */
  lemma PrereleaseForms(a: string, prefix: string, base: string, word: string, short: string, dot: string, n: string, b: string)
    requires Blank(a) && Blank(b) && prefix in ["", "v", "rust-v"]
    requires Dotted(base) && Digits(n) && (dot == "" || dot == ".") && (word, short) in [("alpha", "a"), ("beta", "b"), ("rc", "rc")]
    ensures Normalize(a + (prefix + (base + ("-" + word + dot) + n)) + b) == Some(base + short + n)
  {
    Edges(base, "-" + word + dot, n);
    PrereleaseNormalizes(base, word, short, dot, n);
    PrefixIsIgnored(a, prefix, base + ("-" + word + dot) + n, b);
  }

  /** So has a hotfix of an alpha. */
  lemma HotfixForms(a: string, prefix: string, base: string, dot: string, n: string, m: string, b: string)
    requires Blank(a) && Blank(b) && prefix in ["", "v", "rust-v"]
    requires Dotted(base) && Digits(n) && Digits(m) && (dot == "" || dot == ".")
    ensures Normalize(a + (prefix + (base + ("-alpha" + dot + n + ".") + m)) + b) == Some(base + "a" + n + ".post" + m)
  {
    Edges(base, "-alpha" + dot + n + ".", m);
    HotfixNormalizes(base, dot, n, m);
    PrefixIsIgnored(a, prefix, base + ("-alpha" + dot + n + ".") + m, b);
  }

  /** The release tag of an accepted version normalises to the version it is the tag of. */
  lemma TagNormalizes(version: string)
    requires Normalize(version).Some?
    ensures ReleaseTag(version).Some? && Normalize(ReleaseTag(version).value) == Normalize(version)
  {
    var n := Normalize(version).value;
    DashedRoundTrip(version, n);
    DashedShape(n);
    TagOf(Dashed(n));
  }

  lemma TagOf(d: string)
    requires d != "" && Digit(d[0]) && Digit(d[|d| - 1])
    ensures Normalize("rust-v" + d) == Normalize(d)
  {
    PrefixIsIgnored("", "rust-v", d, "");
    assert "" + ("rust-v" + d) + "" == "rust-v" + d;
  }

  lemma DashedShape(n: string)
    requires Normalized(n)
    ensures Dashed(n) != "" && Digit(Dashed(n)[0]) && Digit(Dashed(n)[|Dashed(n)| - 1])
  {
    var v: Parts :| v.Wf() && v.Text() == n;
    DashedIs(v);
    TextShape(v);
    if v.kind == "a" && v.post != "" {
      assert Dashed(n)[0] == v.base[0] && Dashed(n)[|Dashed(n)| - 1] == v.post[|v.post| - 1];
    } else if v.kind != "" && v.post == "" {
      assert Dashed(n)[0] == v.base[0] && Dashed(n)[|Dashed(n)| - 1] == v.number[|v.number| - 1];
    }
  }
}
