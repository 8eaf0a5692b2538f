/** Sequences of byte records laid end to end, and reading them back one after the other. */
module Records {
  import opened ByteStrings
  import opened Options

  function Flat<T>(f: T -> Bytes, xs: seq<T>): Bytes {
    if xs == [] then [] else Flat(f, xs[..|xs| - 1]) + f(xs[|xs| - 1])
  }

  function Mapped<A, B>(g: A -> B, xs: seq<A>): seq<B> {
    seq(|xs|, i requires 0 <= i < |xs| => g(xs[i]))
  }

  /** Read `count` records filling `s`; each read tells how many bytes it took. */
  function ReadMany<T>(read: Bytes -> Option<(T, nat)>, s: Bytes, count: nat): Option<seq<T>> {
    if count == 0 then if s == [] then Some([]) else None
    else
      match read(s)
      case None => None
      case Some((x, len)) =>
        if len > |s| then None
        else
          match ReadMany(read, s[len..], count - 1)
          case None => None
          case Some(xs) => Some([x] + xs)
  }

  lemma {:induction false} FlatFront<T>(f: T -> Bytes, xs: seq<T>)
    requires xs != []
    ensures Flat(f, xs) == f(xs[0]) + Flat(f, xs[1..])
  {
    if |xs| == 1 {
      assert xs[..0] == [] && xs[1..] == [];
    } else {
      FlatFront(f, xs[..|xs| - 1]);
      assert xs[..|xs| - 1][1..] == xs[1..][..|xs| - 2];
    }
  }

  lemma {:induction false} FlatConcat<T>(f: T -> Bytes, xs: seq<T>, ys: seq<T>)
    ensures Flat(f, xs + ys) == Flat(f, xs) + Flat(f, ys)
  {
    if ys == [] {
      assert xs + ys == xs;
    } else {
      FlatConcat(f, xs, ys[..|ys| - 1]);
      assert (xs + ys)[..|xs + ys| - 1] == xs + ys[..|ys| - 1];
    }
  }

  lemma FlatStep<T>(f: T -> Bytes, xs: seq<T>, i: nat)
    requires i < |xs|
    ensures Flat(f, xs[..i + 1]) == Flat(f, xs[..i]) + f(xs[i])
  {
    assert xs[..i + 1][..i] == xs[..i];
  }

  /** Record i starts where the records before it end. */
  lemma FlatAt<T>(f: T -> Bytes, xs: seq<T>, i: nat)
    requires i < |xs|
    ensures Flat(f, xs) == Flat(f, xs[..i]) + (f(xs[i]) + Flat(f, xs[i + 1..]))
    ensures |Flat(f, xs[..i + 1])| == |Flat(f, xs[..i])| + |f(xs[i])|
  {
    assert xs == xs[..i] + xs[i..];
    FlatConcat(f, xs[..i], xs[i..]);
    FlatFront(f, xs[i..]);
    assert xs[i..][1..] == xs[i + 1..];
    assert xs[..i + 1][..i] == xs[..i];
  }

  /** If reading undoes writing of each record, it undoes the writing of all. */
  lemma {:induction false} FlatReads<A, B>(f: A -> Bytes, read: Bytes -> Option<(B, nat)>, g: A -> B, xs: seq<A>)
    requires forall x, rest: Bytes :: x in xs ==> read(f(x) + rest) == Some((g(x), |f(x)|))
    ensures ReadMany(read, Flat(f, xs), |xs|) == Some(Mapped(g, xs))
  {
    if xs != [] {
      FlatFront(f, xs);
      FlatReads(f, read, g, xs[1..]);
      assert Flat(f, xs)[|f(xs[0])|..] == Flat(f, xs[1..]);
      assert Mapped(g, xs) == [g(xs[0])] + Mapped(g, xs[1..]);
    } else {
      assert Mapped(g, xs) == [];
    }
  }

  /** Apply a partial function to every element, or fail. */
  function Traverse<A, B>(f: A -> Option<B>, xs: seq<A>): Option<seq<B>> {
    if xs == [] then Some([])
    else
      match f(xs[0])
      case None => None
      case Some(y) =>
        match Traverse(f, xs[1..])
        case None => None
        case Some(ys) => Some([y] + ys)
  }

  lemma {:induction false} TraverseAll<A, B>(f: A -> Option<B>, xs: seq<A>, ys: seq<B>)
    requires |xs| == |ys| && forall i :: 0 <= i < |xs| ==> f(xs[i]) == Some(ys[i])
    ensures Traverse(f, xs) == Some(ys)
  {
    if xs != [] {
      TraverseAll(f, xs[1..], ys[1..]);
      assert ys == [ys[0]] + ys[1..];
    }
  }
}
