/** Sequences cut to a length, and put behind each other. */
module Sequences {

  function First<T>(s: seq<T>, n: nat): (r: seq<T>)
    ensures |r| <= n
  {
    if |s| <= n then s else s[..n]
  }

  lemma FirstOfNone<T>(n: nat)
    ensures First<T>([], n) == [] && forall s: seq<T> :: First(s, 0) == []
  {
  }

  lemma FirstAppend<T>(a: seq<T>, b: seq<T>, n: nat)
    ensures First(a + b, n) == First(a, n) + First(b, n - |First(a, n)|)
  {
  }

  function Flat<T>(parts: seq<seq<T>>): seq<T> {
    if parts == [] then [] else parts[0] + Flat(parts[1..])
  }
}
