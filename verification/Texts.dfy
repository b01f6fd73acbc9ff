/** Long concatenations, regrouped. */
module Texts {
  lemma Assoc<T>(a: seq<T>, b: seq<T>, c: seq<T>)
    ensures a + b + c == a + (b + c)
  {
  }

  lemma AssocFour<T>(a: seq<T>, b: seq<T>, c: seq<T>, d: seq<T>)
    ensures a + b + c + d == a + (b + c + d) == a + (b + (c + d))
    ensures b == [] ==> a + c + d == a + (b + (c + d))
  {
  }

  lemma AssocFive<T>(a: seq<T>, b: seq<T>, c: seq<T>, d: seq<T>, e: seq<T>)
    ensures a + b + c + d + e == a + (b + c + d + e) == a + b + (c + (d + e))
  {
  }

  lemma AssocSeven<T>(a: seq<T>, b: seq<T>, c: seq<T>, d: seq<T>, e: seq<T>, f: seq<T>, g: seq<T>)
    ensures a + b + c + d + e + f + g == a + (b + c + d + e + f + g)
    ensures e == [] ==> a + b + c + d + f + g == a + (b + c + d + e + f + g)
  {
  }
}
