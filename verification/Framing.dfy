/** Reading a fixed number of items off a stream that was cut somewhere, for any items, encoding
    and reader. */
module Framing {
  import opened Bytes
  import opened Wire

  // n reads: the items and the unread rest, or None if one of them fails.
  ghost function ReadMany<T>(
    read: seq<byte> -> Option<(T, seq<byte>)>, n: nat, s: seq<byte>): (r: Option<(seq<T>, seq<byte>)>)
    ensures r.Some? ==> |r.value.0| == n
  {
    if n == 0 then Some(([], s))
    else
      match read(s)
      case None => None
      case Some((x, rest)) => Before(x, ReadMany(read, n - 1, rest))
  }

  function Before<T>(x: T, r: Option<(seq<T>, seq<byte>)>): Option<(seq<T>, seq<byte>)> {
    match r
    case None => None
    case Some((xs, rest)) => Some(([x] + xs, rest))
  }

  // Reading the encoding of x, followed by more and cut somewhere, gives x, or nothing if the
  // cut is inside.
  ghost predicate ReadsAt<T>(
    read: seq<byte> -> Option<(T, seq<byte>)>, enc: T -> seq<byte>, x: T, tail: seq<byte>, cut: nat) {
    cut <= |enc(x)| + |tail| ==>
      read((enc(x) + tail)[..cut]) == if cut < |enc(x)| then None else Some((x, tail[..cut - |enc(x)|]))
  }

  ghost predicate Reads<T>(read: seq<byte> -> Option<(T, seq<byte>)>, enc: T -> seq<byte>, x: T) {
    forall tail, cut :: ReadsAt(read, enc, x, tail, cut)
  }

  lemma {:induction false} ConcatSplit<T>(enc: T -> seq<byte>, xs: seq<T>, n: nat)
    requires n <= |xs|
    ensures Concat(enc, xs) == Concat(enc, xs[..n]) + Concat(enc, xs[n..])
    decreases n
  {
    if n > 0 {
      var first, rest := xs[0], xs[1..];
      ConcatSplit(enc, rest, n - 1);
      assert xs[..n][0] == first && xs[..n][1..] == rest[..n - 1] && rest[n - 1..] == xs[n..];
      assert (enc(first) + Concat(enc, rest[..n - 1])) + Concat(enc, rest[n - 1..])
          == enc(first) + (Concat(enc, rest[..n - 1]) + Concat(enc, rest[n - 1..]));
    } else {
      assert xs[..0] == [] && xs[0..] == xs;
    }
  }

  // What n reads should give: the first n items if they lie before the cut.
  ghost function Expected<T>(enc: T -> seq<byte>, n: nat, xs: seq<T>, cut: nat): Option<(seq<T>, seq<byte>)>
    requires cut <= |Concat(enc, xs)|
  {
    if n <= |xs| && cut >= |Concat(enc, xs[..n])| then
      ConcatSplit(enc, xs, n);
      Some((xs[..n], Concat(enc, xs[n..])[..cut - |Concat(enc, xs[..n])|]))
    else None
  }

  lemma ConcatPrefix<T>(enc: T -> seq<byte>, n: nat, xs: seq<T>)
    requires 0 < n <= |xs|
    ensures xs[..n] == [xs[0]] + xs[1..][..n - 1] && xs[n..] == xs[1..][n - 1..]
    ensures |Concat(enc, xs[..n])| == |enc(xs[0])| + |Concat(enc, xs[1..][..n - 1])|
  {
    assert xs[..n][1..] == xs[1..][..n - 1];
  }

  lemma ExpectedStep<T>(enc: T -> seq<byte>, n: nat, xs: seq<T>, cut: nat)
    requires n > 0 && xs != [] && cut <= |Concat(enc, xs)|
    ensures var k := |enc(xs[0])|;
            Expected(enc, n, xs, cut) == if cut < k then None else Before(xs[0], Expected(enc, n - 1, xs[1..], cut - k))
  {
    if n <= |xs| {
      ConcatPrefix(enc, n, xs);
    }
  }

  lemma ExpectedBase<T>(enc: T -> seq<byte>, n: nat, xs: seq<T>, cut: nat)
    requires cut <= |Concat(enc, xs)|
    ensures n == 0 ==> Expected(enc, n, xs, cut) == Some(([], Concat(enc, xs)[..cut]))
    ensures n > |xs| ==> Expected(enc, n, xs, cut) == None
  {
    assert xs[..0] == [] && xs[0..] == xs;
  }

  lemma ReadManyStep<T>(read: seq<byte> -> Option<(T, seq<byte>)>, enc: T -> seq<byte>, n: nat, xs: seq<T>, cut: nat)
    requires n > 0 && xs != [] && cut <= |Concat(enc, xs)| && Reads(read, enc, xs[0])
    ensures var k := |enc(xs[0])|;
            ReadMany(read, n, Concat(enc, xs)[..cut]) ==
            if cut < k then None else Before(xs[0], ReadMany(read, n - 1, Concat(enc, xs[1..])[..cut - k]))
  {
    assert ReadsAt(read, enc, xs[0], Concat(enc, xs[1..]), cut);
  }

  // n reads succeed exactly when there are n items and their encodings all lie before the cut.
  lemma {:induction false} ReadManyExactly<T>(
    read: seq<byte> -> Option<(T, seq<byte>)>, enc: T -> seq<byte>, n: nat, xs: seq<T>, cut: nat)
    requires cut <= |Concat(enc, xs)| && read([]) == None
    requires forall k | 0 <= k < |xs| && k < n :: Reads(read, enc, xs[k])
    ensures ReadMany(read, n, Concat(enc, xs)[..cut]) == Expected(enc, n, xs, cut)
  {
    ExpectedBase(enc, n, xs, cut);
    if n > 0 && xs == [] {
      assert Concat(enc, xs)[..cut] == [];
    } else if n > 0 {
      ReadManyStep(read, enc, n, xs, cut);
      ExpectedStep(enc, n, xs, cut);
      if cut >= |enc(xs[0])| {
        ReadManyExactly(read, enc, n - 1, xs[1..], cut - |enc(xs[0])|);
      }
    }
  }
}
