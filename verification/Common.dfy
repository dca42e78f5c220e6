/** Types and facts shared by the modules. */
module Common {

  datatype Option<+T> = None | Some(value: T) {
    /** The first of two optional values that is present. */
    function Or(other: Option<T>): Option<T> {
      if Some? then this else other
    }
  }

  datatype Result<+T, +E> = Ok(value: T) | Err(error: E)

  /** The characters that Python's `str.strip` removes and that `\s` matches. */
  predicate IsSpace(c: char) {
    || '\t' <= c <= '\r' || '\U{1c}' <= c <= ' ' || c == '\U{85}' || c == '\U{a0}'
    || c == '\U{1680}' || '\U{2000}' <= c <= '\U{200a}' || c == '\U{2028}' || c == '\U{2029}'
    || c == '\U{202f}' || c == '\U{205f}' || c == '\U{3000}'
  }

  ghost predicate Transitive<T(!new)>(r: (T, T) -> bool) {
    forall a, b, c :: r(a, b) && r(b, c) ==> r(a, c)
  }

  ghost predicate Linked<T>(r: (T, T) -> bool, xs: seq<T>) {
    forall i :: 0 < i < |xs| ==> r(xs[i - 1], xs[i])
  }

  lemma {:induction false} ChainEnds<T(!new)>(r: (T, T) -> bool, xs: seq<T>)
    requires Transitive(r) && Linked(r, xs) && |xs| > 1
    ensures r(xs[0], xs[|xs| - 1])
  {
    var n := |xs| - 1;
    assert r(xs[n - 1], xs[n]);
    if n > 1 {
      forall i | 0 < i < n ensures r(xs[..n][i - 1], xs[..n][i]) {
        assert r(xs[i - 1], xs[i]);
      }
      ChainEnds(r, xs[..n]);
    }
  }

  lemma Reassociate<T>(x: T, a: seq<T>, b: seq<T>)
    ensures [x] + (a + b) == ([x] + a) + b
  {
  }
}
