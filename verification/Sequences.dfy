/** Facts about concatenation that the solver is slow to find among others. */
module Sequences {

  lemma Regrouped<A>(a: seq<A>, b: seq<A>, c: seq<A>)
    ensures a + b + c == a + (b + c)
  {
  }

  lemma TailOfSum<A>(a: seq<A>, b: seq<A>)
    requires a != []
    ensures (a + b)[0] == a[0] && (a + b)[1..] == a[1..] + b
    ensures [a[0]] + (a[1..] + b) == a + b
  {
  }

  lemma TailOfCons<A>(x: A, rest: seq<A>)
    ensures ([x] + rest)[0] == x && ([x] + rest)[1..] == rest
  {
  }

  // The second element of a list taken out.
  lemma TailOfSwap<A>(x: A, y: A, rest: seq<A>)
    ensures ([x, y] + rest)[1..] == [y] + rest && ([x, y] + rest)[1..][1..] == rest
    ensures [x] + ([y] + rest) == [x, y] + rest
  {
  }

  lemma ConsBefore<A>(x: A, f: seq<A>)
    requires f != []
    ensures [x, f[0]] + f[1..] == [x] + f
  {
  }

  lemma NothingBetween<A>(g: seq<A>, f: seq<A>)
    requires g != []
    ensures [g[0]] + [] + g[1..] == g && [] + f == f
  {
  }
}
