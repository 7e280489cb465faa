/** Small sequence and option utilities shared by the model. */
module Common {

  /** A value that may be missing. */
  datatype Option<+T> = None | Some(value: T)

  /** `s.startsWith(prefix)`. */
  predicate StartsWith(s: string, prefix: string)
  {
    |prefix| <= |s| && s[..|prefix|] == prefix
  }

  /** `sub` is obtained from `s` by deleting elements, keeping the order of the rest. */
  ghost predicate Subsequence<T>(sub: seq<T>, s: seq<T>)
    decreases |s|
  {
    if sub == [] then true
    else if s == [] then false
    else (sub[|sub| - 1] == s[|s| - 1] && Subsequence(sub[..|sub| - 1], s[..|s| - 1]))
         || Subsequence(sub, s[..|s| - 1])
  }

  /** Every element of a subsequence is an element of the sequence. */
  lemma {:induction false} SubsequenceMembers<T>(sub: seq<T>, s: seq<T>)
    requires Subsequence(sub, s)
    ensures forall x :: x in sub ==> x in s
    decreases |s|
  {
    if sub != [] {
      if sub[|sub| - 1] == s[|s| - 1] && Subsequence(sub[..|sub| - 1], s[..|s| - 1]) {
        SubsequenceMembers(sub[..|sub| - 1], s[..|s| - 1]);
        assert sub == sub[..|sub| - 1] + [sub[|sub| - 1]];
        assert s == s[..|s| - 1] + [s[|s| - 1]];
      } else {
        SubsequenceMembers(sub, s[..|s| - 1]);
        assert s == s[..|s| - 1] + [s[|s| - 1]];
      }
    }
  }

  /** Concatenation is associative. */
  lemma ConcatAssociative<T>(a: seq<T>, b: seq<T>, c: seq<T>)
    ensures a + (b + c) == (a + b) + c
  {
  }
}
