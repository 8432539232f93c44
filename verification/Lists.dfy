/** Inductive lists: JSON texts are read front to back, so their proofs follow this structure. */
module Lists {

  datatype List<+T> = Nil | Cons(head: T, tail: List<T>)

  function Length<T>(xs: List<T>): nat {
    match xs
    case Nil => 0
    case Cons(_, rest) => 1 + Length(rest)
  }

  function Concat<T>(xs: List<T>, ys: List<T>): List<T> {
    match xs
    case Nil => ys
    case Cons(x, rest) => Cons(x, Concat(rest, ys))
  }

  function Singleton<T>(x: T): List<T> {
    Cons(x, Nil)
  }

  function Take<T>(xs: List<T>, n: nat): List<T> {
    if n == 0 || xs.Nil? then Nil else Cons(xs.head, Take(xs.tail, n - 1))
  }

  function Drop<T>(xs: List<T>, n: nat): List<T> {
    if n == 0 || xs.Nil? then xs else Drop(xs.tail, n - 1)
  }

  predicate Contains<T(==)>(xs: List<T>, x: T) {
    xs.Cons? && (xs.head == x || Contains(xs.tail, x))
  }

  predicate Distinct<T(==)>(xs: List<T>) {
    xs.Cons? ==> !Contains(xs.tail, xs.head) && Distinct(xs.tail)
  }

  lemma ConcatAssociative<T>(xs: List<T>, ys: List<T>, zs: List<T>)
    ensures Concat(Concat(xs, ys), zs) == Concat(xs, Concat(ys, zs))
  {
  }

  lemma ConcatNil<T>(xs: List<T>)
    ensures Concat(xs, Nil) == xs
  {
  }

  lemma LengthConcat<T>(xs: List<T>, ys: List<T>)
    ensures Length(Concat(xs, ys)) == Length(xs) + Length(ys)
  {
  }

  lemma TakeDrop<T>(xs: List<T>, n: nat)
    requires n <= Length(xs)
    ensures Concat(Take(xs, n), Drop(xs, n)) == xs
    ensures Length(Take(xs, n)) == n
  {
  }
}
