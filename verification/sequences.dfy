/** Order-keeping selection of elements, used to state what the list filters keep. */
module Sequences {

  /** `sub` can be obtained from `s` by deleting elements, keeping the rest in order. */
  predicate IsSubsequence<T(==)>(sub: seq<T>, s: seq<T>)
    decreases |s|
  {
    if sub == [] then true
    else if s == [] then false
    else IsSubsequence(sub, s[1..]) || (sub[0] == s[0] && IsSubsequence(sub[1..], s[1..]))
  }
}
