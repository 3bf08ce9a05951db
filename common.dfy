/** Small wrapper types shared by the modules of this model. */
module Common {

  /** The outcome of an operation that either succeeds or raises Python's IndexError. */
  datatype Result<T> = Ok(value: T) | IndexError

  /** A value that may be absent (Python's None). */
  datatype Option<T> = None | Some(value: T)

  /** Some element of s satisfies P. */
  predicate Any<T>(s: seq<T>, P: T -> bool) {
    exists x :: 0 <= x < |s| && P(s[x])
  }

  /** Some element of s satisfies P exactly when its last element or an earlier one does. */
  lemma AnySnoc<T>(s: seq<T>, P: T -> bool)
    requires |s| > 0
    ensures Any(s, P) <==> Any(s[..|s| - 1], P) || P(s[|s| - 1])
  {
    var init := s[..|s| - 1];
    if Any(init, P) {
      var x :| 0 <= x < |init| && P(init[x]);
      assert s[x] == init[x];
    }
    if Any(s, P) {
      var x :| 0 <= x < |s| && P(s[x]);
      if x < |init| {
        assert init[x] == s[x];
      }
    }
  }

  /** The lists f(x) for the elements x of s, concatenated in order. */
  function ConcatMap<T, U>(s: seq<T>, f: T -> seq<U>): seq<U>
  {
    if |s| == 0 then [] else ConcatMap(s[..|s| - 1], f) + f(s[|s| - 1])
  }

  /** ConcatMap of a concatenation: that of the first part, then that of the second. */
  lemma {:induction false} ConcatMapAppend<T, U>(s1: seq<T>, s2: seq<T>, f: T -> seq<U>)
    ensures ConcatMap(s1 + s2, f) == ConcatMap(s1, f) + ConcatMap(s2, f)
    decreases |s2|
  {
    if |s2| == 0 {
      assert s1 + s2 == s1;
    } else {
      var s := s1 + s2;
      assert s[..|s| - 1] == s1 + s2[..|s2| - 1];
      ConcatMapAppend(s1, s2[..|s2| - 1], f);
    }
  }
}
