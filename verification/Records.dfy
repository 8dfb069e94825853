/** Reading and writing records field by field: the shape all codecs of the transaction store
    share. A parser takes its field off the front and hands back the rest; None stands for
    running past the end. */
module Records {
  import opened Wrappers
  import opened Bytes

  type Parsed<T> = Option<(T, seq<byte>)>

  function ParseBytes(n: nat, s: seq<byte>): Parsed<seq<byte>> {
    if |s| < n then None else Some((s[..n], s[n..]))
  }

  function ParseUint(k: nat, s: seq<byte>): Parsed<nat> {
    match ParseBytes(k, s)
    case None => None
    case Some((field, rest)) => Some((FromBigEndian(field), rest))
  }

  lemma ParseBytesFront(field: seq<byte>, rest: seq<byte>)
    ensures ParseBytes(|field|, field + rest) == Some((field, rest))
  {
  }

  lemma ParseUintFront(v: nat, k: nat, rest: seq<byte>)
    requires v < Range(k)
    ensures ParseUint(k, BigEndian(v, k) + rest) == Some((v, rest))
  {
    ParseBytesFront(BigEndian(v, k), rest);
    BigEndianRoundTrip(v, k);
  }

  // ----- lists -----

  function EncodeAll<T>(encode: T -> seq<byte>, xs: seq<T>): seq<byte> {
    if xs == [] then [] else EncodeAll(encode, xs[..|xs| - 1]) + encode(xs[|xs| - 1])
  }

  function ParseAll<T>(parse: seq<byte> -> Parsed<T>, n: nat, s: seq<byte>): Parsed<seq<T>> {
    if n == 0 then Some(([], s))
    else
      match ParseAll(parse, n - 1, s)
      case None => None
      case Some((xs, rest)) =>
        match parse(rest)
        case None => None
        case Some((x, rest')) => Some((xs + [x], rest'))
  }

  /** Parsing the encoding of x gives y, whatever follows it. */
  ghost predicate Gives<T, U>(encode: T -> seq<byte>, parse: seq<byte> -> Parsed<U>, x: T, y: U) {
    forall rest :: parse(encode(x) + rest) == Some((y, rest))
  }

  ghost predicate Inverse<T>(encode: T -> seq<byte>, parse: seq<byte> -> Parsed<T>, x: T) {
    Gives(encode, parse, x, x)
  }

  /** A list whose fields give ys, gives ys. */
  lemma {:induction false} ListGives<T, U>(encode: T -> seq<byte>, parse: seq<byte> -> Parsed<U>, xs: seq<T>, ys: seq<U>, rest: seq<byte>)
    requires |xs| == |ys| && forall i :: 0 <= i < |xs| ==> Gives(encode, parse, xs[i], ys[i])
    ensures ParseAll(parse, |xs|, EncodeAll(encode, xs) + rest) == Some((ys, rest))
    decreases |xs|
  {
    if xs == [] {
      assert EncodeAll(encode, xs) + rest == rest;
    } else {
      var n := |xs| - 1;
      ListGives(encode, parse, xs[..n], ys[..n], encode(xs[n]) + rest);
      assert EncodeAll(encode, xs) + rest == EncodeAll(encode, xs[..n]) + (encode(xs[n]) + rest);
      assert Gives(encode, parse, xs[n], ys[n]);
      assert ys == ys[..n] + [ys[n]];
    }
  }

  lemma ListInverse<T>(encode: T -> seq<byte>, parse: seq<byte> -> Parsed<T>, xs: seq<T>, rest: seq<byte>)
    requires forall x <- xs :: Inverse(encode, parse, x)
    ensures ParseAll(parse, |xs|, EncodeAll(encode, xs) + rest) == Some((xs, rest))
  {
    forall i | 0 <= i < |xs|
      ensures Gives(encode, parse, xs[i], xs[i])
    {
      assert Inverse(encode, parse, xs[i]);
    }
    ListGives(encode, parse, xs, xs, rest);
  }

  lemma {:induction false} ParseAllCount<T>(parse: seq<byte> -> Parsed<T>, n: nat, s: seq<byte>)
    ensures ParseAll(parse, n, s).Some? ==> |ParseAll(parse, n, s).value.0| == n
  {
    if n > 0 {
      ParseAllCount(parse, n - 1, s);
    }
  }

  /** Stopping early: a list whose front cannot be read cannot be read. */
  lemma {:induction false} ParseAllStuck<T>(parse: seq<byte> -> Parsed<T>, i: nat, n: nat, s: seq<byte>)
    requires i <= n && ParseAll(parse, i, s) == None
    ensures ParseAll(parse, n, s) == None
    decreases n
  {
    if i < n {
      ParseAllStuck(parse, i, n - 1, s);
    }
  }

  lemma {:induction false} UniformLength<T>(encode: T -> seq<byte>, xs: seq<T>, width: nat)
    requires forall x <- xs :: |encode(x)| == width
    ensures |EncodeAll(encode, xs)| == width * |xs|
    decreases |xs|
  {
    if xs != [] {
      UniformLength(encode, xs[..|xs| - 1], width);
      assert width * (|xs| - 1) + width == width * |xs|;
    }
  }

  lemma {:induction false} EncodeAllConcat<T>(encode: T -> seq<byte>, a: seq<T>, b: seq<T>)
    ensures EncodeAll(encode, a + b) == EncodeAll(encode, a) + EncodeAll(encode, b)
    decreases |b|
  {
    if b == [] {
      assert a + b == a;
    } else {
      var init, last := b[..|b| - 1], b[|b| - 1];
      assert (a + b)[..|a + b| - 1] == a + init;
      EncodeAllConcat(encode, a, init);
    }
  }

  lemma EncodeOne<T>(encode: T -> seq<byte>, x: T)
    ensures EncodeAll(encode, [x]) == encode(x)
  {
    assert [x][..0] == [];
  }

  predicate PieceAt(s: seq<byte>, at: int, piece: seq<byte>) {
    0 <= at && at + |piece| <= |s| && s[at..at + |piece|] == piece
  }

  /** Field i of a list of fields of one width starts at width * i. */
  lemma FieldAt<T>(encode: T -> seq<byte>, xs: seq<T>, width: nat, i: nat)
    requires i < |xs| && forall x <- xs :: |encode(x)| == width
    ensures PieceAt(EncodeAll(encode, xs), width * i, encode(xs[i]))
  {
    hide EncodeAll;
    FieldBetween(encode, xs, i);
    UniformLength(encode, xs[..i], width);
    MiddlePart(EncodeAll(encode, xs[..i]), encode(xs[i]), EncodeAll(encode, xs[i + 1..]));
  }

  lemma SplitAround<T>(xs: seq<T>, i: nat)
    requires i < |xs|
    ensures xs == xs[..i] + ([xs[i]] + xs[i + 1..])
  {
  }

  lemma FieldBetween<T>(encode: T -> seq<byte>, xs: seq<T>, i: nat)
    requires i < |xs|
    ensures EncodeAll(encode, xs)
         == EncodeAll(encode, xs[..i]) + (encode(xs[i]) + EncodeAll(encode, xs[i + 1..]))
  {
    var front, back := xs[..i], xs[i + 1..];
    EncodeOne(encode, xs[i]);
    hide EncodeAll;
    SplitAround(xs, i);
    EncodeAllConcat(encode, front, [xs[i]] + back);
    EncodeAllConcat(encode, [xs[i]], back);
  }

  lemma MiddlePart(a: seq<byte>, b: seq<byte>, c: seq<byte>)
    ensures PieceAt(a + (b + c), |a|, b)
  {
  }

  /** One more field: the step of a loop that writes a list. */
  lemma EncodeAllStep<T>(encode: T -> seq<byte>, xs: seq<T>, i: nat)
    requires i < |xs|
    ensures EncodeAll(encode, xs[..i + 1]) == EncodeAll(encode, xs[..i]) + encode(xs[i])
  {
    assert xs[..i + 1][..i] == xs[..i];
  }

  // ----- readers that keep an offset -----

  /** A value read up to `next` is the parse of the bytes; None is a read past the end. */
  ghost predicate ReadsAs<T>(res: Option<(T, nat)>, b: seq<byte>, parsed: Parsed<T>) {
    match res
    case None => parsed == None
    case Some((x, next)) => next <= |b| && parsed == Some((x, b[next..]))
  }

  lemma ParseBytesAt(b: seq<byte>, offset: nat, n: nat)
    requires offset <= |b|
    ensures ReadsAs(if offset + n <= |b| then Some((b[offset..offset + n], offset + n)) else None, b,
                    ParseBytes(n, b[offset..]))
  {
    if offset + n <= |b| {
      assert b[offset..][..n] == b[offset..offset + n];
      assert b[offset..][n..] == b[offset + n..];
    }
  }

  // ----- writers that keep an offset -----

  lemma {:induction false} EncodeAllFits<T>(encode: T -> seq<byte>, xs: seq<T>, i: nat)
    requires i <= |xs|
    ensures |EncodeAll(encode, xs[..i])| <= |EncodeAll(encode, xs)|
    decreases |xs|
  {
    if i < |xs| {
      var init := xs[..|xs| - 1];
      EncodeAllFits(encode, init, i);
      assert init[..i] == xs[..i];
    } else {
      assert xs[..i] == xs;
    }
  }

  /** Fields one after the other, into the part of the buffer not yet filled. */
  method FillAll<T>(buffer: array<byte>, offset: nat, encode: T -> seq<byte>, xs: seq<T>) returns (next: nat)
    requires offset + |EncodeAll(encode, xs)| <= buffer.Length
    modifies buffer
    ensures next == offset + |EncodeAll(encode, xs)|
    ensures buffer[..next] == old(buffer[..offset]) + EncodeAll(encode, xs)
  {
    next := offset;
    var i := 0;
    ghost var done: seq<byte> := [];
    assert xs[..0] == [];
    while i < |xs|
      invariant 0 <= i <= |xs|
      invariant done == EncodeAll(encode, xs[..i])
      invariant next == offset + |done| <= buffer.Length
      invariant buffer[..next] == old(buffer[..offset]) + done
    {
      var field := encode(xs[i]);
      EncodeAllStep(encode, xs, i);
      EncodeAllFits(encode, xs, i + 1);
      next := Fill(buffer, next, field);
      done := done + field;
      i := i + 1;
    }
    assert xs[..|xs|] == xs;
  }
}
