/** Small shared vocabulary: an optional value, distinctness and
    order-preserving subsequences of sequences. */
module Common {

  datatype Option<+T> = None | Some(value: T)

  /** No element occurs twice. */
  ghost predicate Distinct<T>(s: seq<T>) {
    forall i, j :: 0 <= i < j < |s| ==> s[i] != s[j]
  }

  /** `s` is obtained from `t` by deleting some of its elements and keeping
      the others in their order: the last element of `t` is either kept (and
      then ends `s`) or dropped. */
  ghost predicate SubsequenceOf<T>(s: seq<T>, t: seq<T>)
    decreases |t|
  {
    if t == [] then s == []
    else
      (s != [] && s[|s| - 1] == t[|t| - 1] && SubsequenceOf(s[..|s| - 1], t[..|t| - 1]))
      || SubsequenceOf(s, t[..|t| - 1])
  }

  /** Every element of a subsequence comes from the sequence and it is never longer. */
  lemma {:induction false} SubsequenceMembers<T>(s: seq<T>, t: seq<T>)
    requires SubsequenceOf(s, t)
    ensures |s| <= |t|
    ensures forall x :: x in s ==> x in t
    decreases |t|
  {
    if t != [] {
      if s != [] && s[|s| - 1] == t[|t| - 1] && SubsequenceOf(s[..|s| - 1], t[..|t| - 1]) {
        SubsequenceMembers(s[..|s| - 1], t[..|t| - 1]);
        assert s == s[..|s| - 1] + [s[|s| - 1]];
      } else {
        SubsequenceMembers(s, t[..|t| - 1]);
      }
    }
  }

  /** Deleting elements cannot create a repetition. */
  lemma {:induction false} SubsequenceDistinct<T>(s: seq<T>, t: seq<T>)
    requires SubsequenceOf(s, t) && Distinct(t)
    ensures Distinct(s)
    decreases |t|
  {
    if t != [] {
      var t' := t[..|t| - 1];
      assert Distinct(t');
      if s != [] && s[|s| - 1] == t[|t| - 1] && SubsequenceOf(s[..|s| - 1], t') {
        var s' := s[..|s| - 1];
        SubsequenceDistinct(s', t');
        SubsequenceMembers(s', t');
        forall i, j | 0 <= i < j < |s| ensures s[i] != s[j] {
          if j == |s| - 1 {
            assert s[i] in s';
            assert s[i] in t';
          } else {
            assert s[i] == s'[i] && s[j] == s'[j];
          }
        }
      } else {
        SubsequenceDistinct(s, t');
      }
    }
  }

  function Abs(x: real): (r: real)
    ensures 0.0 <= r && (r == x || r == -x)
  {
    if x < 0.0 then -x else x
  }
}
