/** Where everything sits in the stored records, byte by byte, and that no part of a record
    passes for the whole (wtxmgr/tx.go, wtxmgr/db.go, wtxmgr/db_ctaut.go). */
module CodecLaws {
  import opened Wrappers
  import opened Bytes
  import opened Records
  import opened RingCodec
  import opened BlockCodec
  import opened Arithmetic

  // ----- rings -----

  /** Bit i of the flag word is output i's ownership, bit i + 8 that output i is spent. */
  lemma FlagWordBits(r: UTXORing, i: nat)
    requires |r.mine| == |r.spent| <= 8 && i < 8
    ensures Pow2(i) > 0 && Pow2(i + 8) > 0
    ensures FlagWord(r) / Pow2(i) % 2 == 1 <==> i < |r.mine| && r.mine[i]
    ensures FlagWord(r) / Pow2(i + 8) % 2 == 1 <==> i < |r.spent| && r.spent[i]
    ensures FlagWord(r) < 0x1_0000
  {
    WordFits(r);
    BitIsDigit(FlagWord(r), i);
    BitIsDigit(FlagWord(r), i + 8);
    BitOfBits(FlagBits(r), i);
    BitOfBits(FlagBits(r), i + 8);
  }

  lemma {:induction false} BitIsDigit(v: nat, i: nat)
    ensures Pow2(i) > 0 && (Bit(v, i) <==> v / Pow2(i) % 2 == 1)
    decreases i
  {
    if i > 0 {
      BitIsDigit(v / 2, i - 1);
      HalfThen(v, Pow2(i - 1));
    }
  }

  lemma HalfThen(v: nat, m: nat)
    requires m > 0
    ensures v / 2 / m == v / (2 * m)
  {
    DivideTwice(v, 2, m);
  }

  /** The parts of a ring's bytes, each where the one before ends. */
  ghost predicate RingParts(r: UTXORing, order: seq<Origin>, e: seq<byte>, origins: nat, flags: nat, got: nat) {
    && 38 + |EncodeAll(EncodeOut, r.outs)| == origins < flags == origins + 1 + |EncodeAll(EncodeOrigin, order)|
    && got == flags + 2 && |e| == got + 1 + |EncodeAll(EncodeSerial, r.got)|
    && e[..4] == BigEndian(r.version, 4) && e[4] == r.flag && e[5..37] == r.ringHash
    && e[37] == |r.outs| % 256 && e[38..origins] == EncodeAll(EncodeOut, r.outs)
    && e[origins] == |order| % 256 && e[origins + 1..flags] == EncodeAll(EncodeOrigin, order)
    && e[flags..flags + 2] == BigEndian(FlagWord(r), 2)
    && e[got] == |r.got| % 256 && e[got + 1..] == EncodeAll(EncodeSerial, r.got)
  }

  /** MAIN RESULT on the ring format. Version, flag, hash, and then, each list behind its count:
      outputs, original serial numbers, the flag word, serial numbers seen. */
  lemma RingHasParts(r: UTXORing, order: seq<Origin>)
    requires |r.ringHash| == HASH_SIZE
    ensures var origins := 38 + |EncodeAll(EncodeOut, r.outs)|;
            var flags := origins + 1 + |EncodeAll(EncodeOrigin, order)|;
            RingParts(r, order, Encode(r, order), origins, flags, flags + 2)
  {
    hide EncodeAll, BigEndian, FlagWord;
    RingIsConcatenation(r, order);
    hide Encode;
    Parts(BigEndian(r.version, 4), r.flag, r.ringHash, |r.outs| % 256, EncodeAll(EncodeOut, r.outs), |order| % 256,
          EncodeAll(EncodeOrigin, order), BigEndian(FlagWord(r), 2), |r.got| % 256, EncodeAll(EncodeSerial, r.got));
  }

  lemma RingIsConcatenation(r: UTXORing, order: seq<Origin>)
    ensures Encode(r, order)
         == BigEndian(r.version, 4) + ([r.flag] + (r.ringHash + ([|r.outs| % 256] + (EncodeAll(EncodeOut, r.outs)
            + ([|order| % 256] + (EncodeAll(EncodeOrigin, order)
            + (BigEndian(FlagWord(r), 2) + ([|r.got| % 256] + (EncodeAll(EncodeSerial, r.got) + [])))))))))
  {
    hide EncodeAll, BigEndian, FlagWord;
  }

  lemma Parts(v: seq<byte>, flag: byte, hash: seq<byte>, n: byte, a: seq<byte>, m: byte, b: seq<byte>, w: seq<byte>, g: byte, c: seq<byte>)
    requires |v| == 4 && |hash| == 32 && |w| == 2
    ensures var e := v + ([flag] + (hash + ([n] + (a + ([m] + (b + (w + ([g] + (c + [])))))))));
            var origins := 38 + |a|;
            var flags := origins + 1 + |b|;
            && |e| == flags + 3 + |c|
            && e[..4] == v && e[4] == flag && e[5..37] == hash && e[37] == n && e[38..origins] == a
            && e[origins] == m && e[origins + 1..flags] == b && e[flags..flags + 2] == w
            && e[flags + 2] == g && e[flags + 3..] == c
  {
    var tail := [m] + (b + (w + ([g] + (c + []))));
    HeadParts(v, flag, hash, n, a, tail);
    TailParts(m, b, w, g, c);
    var e := v + ([flag] + (hash + ([n] + (a + tail))));
    var origins := 38 + |a|;
    assert e[origins..] == tail;
    var flags := origins + 1 + |b|;
    assert e[origins + 1..flags] == tail[1..1 + |b|];
    assert e[flags..flags + 2] == tail[1 + |b|..3 + |b|];
    assert e[flags + 3..] == tail[4 + |b|..];
  }

  lemma HeadParts(v: seq<byte>, flag: byte, hash: seq<byte>, n: byte, a: seq<byte>, tail: seq<byte>)
    requires |v| == 4 && |hash| == 32
    ensures var e := v + ([flag] + (hash + ([n] + (a + tail))));
            && |e| == 38 + |a| + |tail|
            && e[..4] == v && e[4] == flag && e[5..37] == hash && e[37] == n && e[38..38 + |a|] == a && e[38 + |a|..] == tail
  {
  }

  lemma TailParts(m: byte, b: seq<byte>, w: seq<byte>, g: byte, c: seq<byte>)
    requires |w| == 2
    ensures var t := [m] + (b + (w + ([g] + (c + []))));
            && |t| == 4 + |b| + |c|
            && t[0] == m && t[1..1 + |b|] == b && t[1 + |b|..3 + |b|] == w && t[3 + |b|] == g && t[4 + |b|..] == c
  {
  }

  /** Output i takes 33 bytes: its hash and its index. */
  lemma OutputField(r: UTXORing, i: nat)
    requires WellFormed(r) && i < |r.outs|
    ensures PieceAt(EncodeAll(EncodeOut, r.outs), 33 * i, r.outs[i].txHash + [r.outs[i].index])
  {
    hide EncodeAll, PieceAt;
    FieldAt(EncodeOut, r.outs, 33, i);
  }

  /** An original serial number: its position in the ring, and the number. */
  lemma OriginField(order: seq<Origin>, width: nat, i: nat)
    requires (forall o <- order :: 1 + |o.serial| == width) && i < |order|
    ensures PieceAt(EncodeAll(EncodeOrigin, order), width * i, [order[i].index] + order[i].serial)
  {
    hide EncodeAll, PieceAt;
    FieldAt(EncodeOrigin, order, width, i);
  }

  /** The serial numbers seen, one behind the other. */
  lemma SerialField(got: seq<seq<byte>>, k: nat, i: nat)
    requires (forall sn <- got :: |sn| == k) && i < |got|
    ensures PieceAt(EncodeAll(EncodeSerial, got), k * i, got[i])
  {
    hide EncodeAll, PieceAt;
    FieldAt(EncodeSerial, got, k, i);
  }

  /** A serial number of another size: cut off behind, or followed by zeros. */
  lemma FitBytes(sn: seq<byte>, k: nat, i: nat)
    requires i < k
    ensures Fit(sn, k)[i] == if i < |sn| then sn[i] else 0
  {
  }

  // ----- block inputs -----

  /** An entry: its length, the ring's length, the ring, the number of serial numbers, and these,
      each behind its length. */
  lemma EntryLayout(e: Entry)
    ensures var s, ring := EntryBytes(e), Encode(e.ring, e.order);
            && |s| == 5 + |ring| + |EncodeAll(SerialBytes, e.serials)|
            && s[..2] == BigEndian(|s|, 2) && s[2..4] == BigEndian(|ring|, 2) && s[4..4 + |ring|] == ring
            && s[4 + |ring|] == |e.serials| % 256 && s[5 + |ring|..] == EncodeAll(SerialBytes, e.serials)
  {
    hide Encode, EncodeAll, BigEndian;
    EntryShape(e, []);
    assert EntryBytes(e) + [] == EntryBytes(e);
    EntryPieces(BigEndian(4 + |EntryBody(e)|, 2), BigEndian(|Encode(e.ring, e.order)|, 2), Encode(e.ring, e.order),
                |e.serials| % 256, EncodeAll(SerialBytes, e.serials));
  }

  lemma EntryPieces(a: seq<byte>, b: seq<byte>, ring: seq<byte>, n: byte, c: seq<byte>)
    requires |a| == |b| == 2
    ensures var s := a + (b + (ring + ([n] + (c + []))));
            && |s| == 5 + |ring| + |c| && s[..2] == a && s[2..4] == b && s[4..4 + |ring|] == ring
            && s[4 + |ring|] == n && s[5 + |ring|..] == c
  {
  }

  /** A serial number behind its length, and lists as their elements one after the other. */
  lemma SerialLayout(sn: seq<byte>, before: seq<seq<byte>>, after: seq<seq<byte>>)
    ensures SerialBytes(sn)[0] == |sn| % 256 && SerialBytes(sn)[1..] == sn
    ensures EncodeAll(SerialBytes, before + [sn] + after)
         == EncodeAll(SerialBytes, before) + SerialBytes(sn) + EncodeAll(SerialBytes, after)
  {
    EncodeAllConcat(SerialBytes, before + [sn], after);
    EncodeAllConcat(SerialBytes, before, [sn]);
    EncodeOne(SerialBytes, sn);
  }

  /** A record: its length in four bytes, the number of entries in two, and the entries one
      after the other. */
  lemma RecordLayout(before: seq<Entry>, e: Entry, after: seq<Entry>)
    ensures var entries := before + [e] + after;
            var s := RecordBytes(entries);
            && s[..4] == BigEndian(|s|, 4) && s[4..6] == BigEndian(|entries|, 2)
            && s[6..] == EncodeAll(EntryBytes, before) + EntryBytes(e) + EncodeAll(EntryBytes, after)
  {
    EntriesInOrder(before, e, after);
    hide EntryBytes, BigEndian, EncodeAll;
    var entries := before + [e] + after;
    HeaderThenBody(BigEndian(6 + |EncodeAll(EntryBytes, entries)|, 4), BigEndian(|entries|, 2), EncodeAll(EntryBytes, entries));
  }

  lemma EntriesInOrder(before: seq<Entry>, e: Entry, after: seq<Entry>)
    ensures EncodeAll(EntryBytes, before + [e] + after)
         == EncodeAll(EntryBytes, before) + EntryBytes(e) + EncodeAll(EntryBytes, after)
  {
    EncodeOne(EntryBytes, e);
    hide EntryBytes, EncodeAll;
    EncodeAllConcat(EntryBytes, before + [e], after);
    EncodeAllConcat(EntryBytes, before, [e]);
  }

  lemma HeaderThenBody(a: seq<byte>, b: seq<byte>, body: seq<byte>)
    requires |a| == 4 && |b| == 2
    ensures var s := a + (b + body); |s| == 6 + |body| && s[..4] == a && s[4..6] == b && s[6..] == body
  {
  }

  // ----- outpoints -----

  /** A block's outputs: their number, then 33 bytes each, hash and index. The disabled root
      coins have the record's length in front. */
  lemma OutpointLayout(outs: seq<RingOut>, i: nat)
    requires (forall o <- outs :: |o.txHash| == HASH_SIZE) && i < |outs|
    ensures var s := OutputsBytes(outs);
            && |s| == 4 + 33 * |outs| && s[..4] == BigEndian(|outs|, 4)
            && s[4 + 33 * i..4 + 33 * i + 32] == outs[i].txHash && s[4 + 33 * i + 32] == outs[i].index
    ensures var s := RootCoinsBytes(outs);
            && |s| == 8 + 33 * |outs| && s[..4] == BigEndian(|s|, 4) && s[4..8] == BigEndian(|outs|, 4)
            && s[8 + 33 * i..8 + 33 * i + 32] == outs[i].txHash && s[8 + 33 * i + 32] == outs[i].index
  {
    UniformLength(EncodeOut, outs, 33);
    FieldAt(EncodeOut, outs, 33, i);
    var f := EncodeAll(EncodeOut, outs);
    hide EncodeAll, BigEndian;
    OutpointIn(BigEndian(|outs|, 4), f, 33 * i, outs[i]);
    OutpointIn(BigEndian(8 + 33 * |outs|, 4) + BigEndian(|outs|, 4), f, 33 * i, outs[i]);
  }

  lemma OutpointIn(head: seq<byte>, f: seq<byte>, at: nat, o: RingOut)
    requires |o.txHash| == HASH_SIZE && at + 33 <= |f| && f[at..at + 33] == o.txHash + [o.index]
    ensures var s := head + f;
            s[|head| + at..|head| + at + 32] == o.txHash && s[|head| + at + 32] == o.index
  {
    assert f[at..at + 33][..32] == f[at..at + 32] && f[at..at + 33][32] == f[at + 32];
  }

  lemma OutpointSound(s: seq<byte>)
    ensures ParseOut(s).Some? ==> s == EncodeOut(ParseOut(s).value.0) + ParseOut(s).value.1 && |ParseOut(s).value.0.txHash| == HASH_SIZE
  {
  }

  /** What is parsed as outpoints is their encoding. */
  lemma {:induction false} OutpointsSound(n: nat, s: seq<byte>)
    ensures ParseAll(ParseOut, n, s).Some? ==>
              var (outs, rest) := ParseAll(ParseOut, n, s).value;
              |outs| == n && s == EncodeAll(EncodeOut, outs) + rest && forall o <- outs :: |o.txHash| == HASH_SIZE
  {
    assert EncodeAll(EncodeOut, []) + s == s;
    hide ParseOut, EncodeOut, EncodeAll;
    if n > 0 && ParseAll(ParseOut, n, s).Some? {
      OutpointsSound(n - 1, s);
      var (outs, rest) := ParseAll(ParseOut, n - 1, s).value;
      OutpointSound(rest);
      OneMoreEncoded(EncodeOut, outs, ParseOut(rest).value.0, ParseOut(rest).value.1);
    }
  }

  lemma OutpointsComplete(outs: seq<RingOut>, rest: seq<byte>)
    requires forall o <- outs :: |o.txHash| == HASH_SIZE
    ensures ParseAll(ParseOut, |outs|, EncodeAll(EncodeOut, outs) + rest) == Some((outs, rest))
  {
    forall o | o in outs
      ensures Inverse(EncodeOut, ParseOut, o)
    {
      OutInverse(o);
    }
    ListInverse(EncodeOut, ParseOut, outs, rest);
  }

  /** MAIN RESULT on reading a block's outputs: a value is read as these exactly if they make up
      all of it behind the count, and the count, in 32-bit arithmetic, asks for no more bytes
      than there are; anything else fails. */
  lemma OutputsReadExactly(v: seq<byte>, outs: seq<RingOut>)
    requires v != []
    ensures OutputsOf(v) == Some(outs)
            <==> |v| >= 4 && (4 + FromBigEndian(v[..4]) * 33) % 0x1_0000_0000 <= |v|
                 && (forall o <- outs :: |o.txHash| == HASH_SIZE) && v[4..] == EncodeAll(EncodeOut, outs)
  {
    hide ParseAll, EncodeAll, ParseOut, EncodeOut;
    if |v| >= 4 {
      var body, n := v[4..], (|v| - 4) / 33;
      OutpointsSound(n, body);
      if OutputsOf(v) == Some(outs) {
        OutpointsLength(outs);
        assert |ParseAll(ParseOut, n, body).value.1| == 0;
        assert body == EncodeAll(EncodeOut, outs) + [];
      }
      if (forall o <- outs :: |o.txHash| == HASH_SIZE) && body == EncodeAll(EncodeOut, outs) {
        OutpointsLength(outs);
        OutpointsComplete(outs, []);
        assert EncodeAll(EncodeOut, outs) + [] == body;
        assert |outs| == n;
      }
    }
  }

  lemma OutpointsLength(outs: seq<RingOut>)
    requires forall o <- outs :: |o.txHash| == HASH_SIZE
    ensures |EncodeAll(EncodeOut, outs)| == 33 * |outs|
  {
    UniformLength(EncodeOut, outs, 33);
  }

  /** MAIN RESULT on reading disabled root coins: exactly as many as the count says, from the
      front; the record's length is not looked at. */
  lemma RootCoinsReadExactly(v: seq<byte>, outs: seq<RingOut>)
    requires v != []
    ensures RootCoinsOf(v) == Some(outs)
            <==> |v| >= 8 && |outs| == FromBigEndian(v[4..8]) && (forall o <- outs :: |o.txHash| == HASH_SIZE)
                 && EncodeAll(EncodeOut, outs) <= v[8..]
  {
    hide ParseAll, EncodeAll, ParseOut, EncodeOut, FromBigEndian;
    if |v| >= 8 {
      var body, n := v[8..], FromBigEndian(v[4..8]);
      OutpointsSound(n, body);
      if |outs| == n && (forall o <- outs :: |o.txHash| == HASH_SIZE) && EncodeAll(EncodeOut, outs) <= body {
        OutpointsComplete(outs, body[|EncodeAll(EncodeOut, outs)|..]);
        assert body == EncodeAll(EncodeOut, outs) + body[|EncodeAll(EncodeOut, outs)|..];
      }
    }
  }

  // ----- what is read is what is there -----

  /** A parser that only answers what encodes to the bytes it took. */
  ghost predicate Sound<T(!new)>(encode: T -> seq<byte>, parse: seq<byte> -> Parsed<T>) {
    forall s {:trigger parse(s)} :: parse(s).Some? ==> s == encode(parse(s).value.0) + parse(s).value.1
  }

  lemma {:induction false} AllSound<T(!new)>(encode: T -> seq<byte>, parse: seq<byte> -> Parsed<T>, n: nat, s: seq<byte>)
    requires Sound(encode, parse)
    ensures ParseAll(parse, n, s).Some? ==>
              var (xs, rest) := ParseAll(parse, n, s).value; |xs| == n && s == EncodeAll(encode, xs) + rest
  {
    if n == 0 {
      NothingEncoded(encode, s);
    } else if ParseAll(parse, n, s).Some? {
      AllSound(encode, parse, n - 1, s);
      var (xs, rest) := ParseAll(parse, n - 1, s).value;
      OneMoreEncoded(encode, xs, parse(rest).value.0, parse(rest).value.1);
      hide EncodeAll;
    }
  }

  lemma NothingEncoded<T>(encode: T -> seq<byte>, s: seq<byte>)
    ensures s == EncodeAll(encode, []) + s
  {
  }

  lemma OneMoreEncoded<T>(encode: T -> seq<byte>, xs: seq<T>, x: T, rest: seq<byte>)
    ensures EncodeAll(encode, xs) + (encode(x) + rest) == EncodeAll(encode, xs + [x]) + rest
  {
    EncodeOne(encode, x);
    hide EncodeAll;
    EncodeAllConcat(encode, xs, [x]);
    Reassociate(EncodeAll(encode, xs), encode(x), rest);
  }

  lemma Reassociate(a: seq<byte>, b: seq<byte>, c: seq<byte>)
    ensures a + (b + c) == (a + b) + c
  {
  }

  lemma CountedSound<T(!new)>(encode: T -> seq<byte>, parse: seq<byte> -> Parsed<T>, s: seq<byte>)
    requires Sound(encode, parse)
    ensures ParseCounted(parse, s).Some? ==>
              var (xs, rest) := ParseCounted(parse, s).value; |s| > 0 && |xs| == s[0] && s[1..] == EncodeAll(encode, xs) + rest
  {
    if |s| > 0 {
      AllSound(encode, parse, s[0], s[1..]);
    }
  }

  lemma FieldsSound(k: nat)
    ensures Sound(EncodeOut, ParseOut) && Sound(EncodeOrigin, OriginParser(k)) && Sound(EncodeSerial, SerialParser(k))
    ensures Sound(SerialBytes, ParseSerial)
  {
    forall s: seq<byte>
      ensures ParseOut(s).Some? ==> s == EncodeOut(ParseOut(s).value.0) + ParseOut(s).value.1
    {
      OutpointSound(s);
    }
    forall s: seq<byte>
      ensures OriginParser(k)(s).Some? ==> s == EncodeOrigin(OriginParser(k)(s).value.0) + OriginParser(k)(s).value.1
    {
      OneThenSome(s, k);
    }
    forall s: seq<byte>
      ensures ParseSerial(s).Some? ==> s == SerialBytes(ParseSerial(s).value.0) + ParseSerial(s).value.1
    {
      if |s| > 0 {
        OneThenSome(s, s[0]);
      }
    }
  }

  lemma OneThenSome(s: seq<byte>, k: nat)
    ensures 1 + k <= |s| ==> s == ([s[0]] + s[1..][..k]) + s[1..][k..]
  {
  }

  /** MAIN RESULT on reading a ring. Whatever decodes: version, flag and hash are the first 37
      bytes; the outputs, original serial numbers and serial numbers seen are what the bytes
      behind their counts encode; and the flags are the bits of the two bytes between. */
  lemma RingReads(size: SerialSize, s: seq<byte>) returns (order: seq<Origin>, w: seq<byte>)
    requires Parse(size, s).Some?
    ensures var (r, rest) := Parse(size, s).value;
            && |s| > 37 && |w| == 2
            && r.version == FromBigEndian(s[..4]) && r.flag == s[4] && r.ringHash == s[5..37] && |r.outs| == s[37]
            && |order| < 256 && |r.got| < 256
            && s[38..] == EncodeAll(EncodeOut, r.outs) + ([|order|] + (EncodeAll(EncodeOrigin, order)
                          + (w + ([|r.got|] + (EncodeAll(EncodeSerial, r.got) + rest)))))
            && r.origin == Collect(order)
            && r.mine == ReadFlags(FromBigEndian(w), |r.outs|, 0) && r.spent == ReadFlags(FromBigEndian(w), |r.outs|, 8)
  {
    hide EncodeAll, ParseCounted, ReadFlags, Collect, FromBigEndian, ParseTail, EncodeOut;
    HeadReads(s);
    var (head, s1) := ParseHead(s).value;
    FieldsSound(0);
    CountedSound(EncodeOut, ParseOut, s1);
    var (outs, s2) := ParseCounted(ParseOut, s1).value;
    order, w := TailReads(size(head.0), s2);
    assert s1 == s[37..] && s1[1..] == s[38..] && s1[0] == s[37];
  }

  lemma HeadReads(s: seq<byte>)
    ensures ParseHead(s).Some? ==>
              |s| >= 37 && ParseHead(s) == Some(((FromBigEndian(s[..4]), s[4], s[5..37]), s[37..]))
  {
    hide FromBigEndian;
    if |s| >= 37 {
      assert s[4..][0] == s[4] && s[4..][1..] == s[5..] && s[5..][..32] == s[5..37] && s[5..][32..] == s[37..];
    }
  }

  lemma TailReads(k: nat, s: seq<byte>) returns (order: seq<Origin>, w: seq<byte>)
    requires ParseTail(k, s).Some?
    ensures var (tail, rest) := ParseTail(k, s).value;
            && order == tail.0 && |w| == 2 && tail.1 == FromBigEndian(w) && |order| < 256 && |tail.2| < 256
            && s == [|order|] + (EncodeAll(EncodeOrigin, order) + (w + ([|tail.2|] + (EncodeAll(EncodeSerial, tail.2) + rest))))
  {
    hide EncodeAll, ParseCounted, FromBigEndian;
    FieldsSound(k);
    CountedSound(EncodeOrigin, OriginParser(k), s);
    var s1 := ParseCounted(OriginParser(k), s).value.1;
    order, w := ParseCounted(OriginParser(k), s).value.0, s1[..2];
    var s2 := s1[2..];
    CountedSound(EncodeSerial, SerialParser(k), s2);
    var (got, rest) := ParseCounted(SerialParser(k), s2).value;
    assert s2 == [|got|] + (EncodeAll(EncodeSerial, got) + rest);
    assert s1 == w + s2;
    assert s == [|order|] + (EncodeAll(EncodeOrigin, order) + s1);
  }

  /** MAIN RESULT on reading an entry of a block's inputs. It is read exactly if the ring decodes
      from the bytes its length says, no fewer and no more, and the serial numbers make up what
      is taken behind their count; the entry's own length is not looked at. */
  lemma EntryReadsExactly(size: SerialSize, s: seq<byte>, t: Touched, rest: seq<byte>)
    ensures ParseEntry(size, s) == Some((t, rest))
            <==> |s| >= 4
                 && var u := FromBigEndian(s[2..4]);
                    |s| >= 4 + u && Decode(size, s[4..4 + u]) == Some(t.ring) && |t.serials| < 256
                    && (forall sn <- t.serials :: |sn| < 256)
                    && s[4 + u..] == [|t.serials|] + (EncodeAll(SerialBytes, t.serials) + rest)
  {
    hide Decode, FromBigEndian, EncodeAll, ParseCounted, SerialBytes, ParseSerial;
    if |s| >= 4 {
      assert s[2..][..2] == s[2..4] && s[2..][2..] == s[4..];
      var u := FromBigEndian(s[2..4]);
      if |s| >= 4 + u {
        assert s[4..][..u] == s[4..4 + u] && s[4..][u..] == s[4 + u..];
        var s3 := s[4 + u..];
        SerialListExactly(s3, t.serials, rest);
      }
    }
  }

  lemma SerialListExactly(s: seq<byte>, serials: seq<seq<byte>>, rest: seq<byte>)
    ensures ParseCounted(ParseSerial, s) == Some((serials, rest))
            <==> |serials| < 256 && (forall sn <- serials :: |sn| < 256)
                 && s == [|serials|] + (EncodeAll(SerialBytes, serials) + rest)
  {
    FieldsSound(0);
    CountedSound(SerialBytes, ParseSerial, s);
    if |s| > 0 {
      ShortSerials(s[0], s[1..]);
    }
    if |serials| < 256 && (forall sn <- serials :: |sn| < 256) {
      SerialsInverse(serials, rest);
    }
    hide EncodeAll, ParseAll, SerialBytes, ParseSerial;
    if ParseCounted(ParseSerial, s) == Some((serials, rest)) {
      assert s == [s[0]] + s[1..];
    }
  }

  lemma {:induction false} ShortSerials(n: nat, s: seq<byte>)
    ensures ParseAll(ParseSerial, n, s).Some? ==> forall sn <- ParseAll(ParseSerial, n, s).value.0 :: |sn| < 256
  {
    if n > 0 {
      ShortSerials(n - 1, s);
    }
  }

  // ----- no part passes for the whole -----

  /** A parser that takes the same off the front whatever follows. */
  ghost predicate Stable<T(!new)>(parse: seq<byte> -> Parsed<T>) {
    forall s, more {:trigger parse(s + more)} :: parse(s).Some? ==> parse(s + more) == Some((parse(s).value.0, parse(s).value.1 + more))
  }

  lemma BytesStable(n: nat, s: seq<byte>, more: seq<byte>)
    ensures ParseBytes(n, s).Some? ==> ParseBytes(n, s + more) == Some((s[..n], s[n..] + more))
  {
    if |s| >= n {
      assert (s + more)[..n] == s[..n] && (s + more)[n..] == s[n..] + more;
    }
  }

  lemma {:induction false} AllStable<T(!new)>(parse: seq<byte> -> Parsed<T>, n: nat, s: seq<byte>, more: seq<byte>)
    requires Stable(parse)
    ensures ParseAll(parse, n, s).Some?
            ==> ParseAll(parse, n, s + more) == Some((ParseAll(parse, n, s).value.0, ParseAll(parse, n, s).value.1 + more))
  {
    if n > 0 {
      AllStable(parse, n - 1, s, more);
    }
  }

  lemma CountedStable<T(!new)>(parse: seq<byte> -> Parsed<T>, s: seq<byte>, more: seq<byte>)
    requires Stable(parse)
    ensures ParseCounted(parse, s).Some?
            ==> ParseCounted(parse, s + more) == Some((ParseCounted(parse, s).value.0, ParseCounted(parse, s).value.1 + more))
  {
    BytesStable(1, s, more);
    if |s| >= 1 {
      AllStable(parse, s[0], s[1..], more);
    }
  }

  lemma FieldsStable(k: nat)
    ensures Stable(ParseOut) && Stable(OriginParser(k)) && Stable(SerialParser(k))
  {
    forall s: seq<byte>, more: seq<byte>
      ensures ParseOut(s).Some? ==> ParseOut(s + more) == Some((ParseOut(s).value.0, ParseOut(s).value.1 + more))
    {
      BytesStable(32, s, more);
      if |s| >= 32 {
        BytesStable(1, s[32..], more);
      }
    }
    forall s: seq<byte>, more: seq<byte>
      ensures OriginParser(k)(s).Some? ==> OriginParser(k)(s + more) == Some((OriginParser(k)(s).value.0, OriginParser(k)(s).value.1 + more))
    {
      BytesStable(1, s, more);
      if |s| >= 1 {
        BytesStable(k, s[1..], more);
      }
    }
    forall s: seq<byte>, more: seq<byte>
      ensures SerialParser(k)(s).Some? ==> SerialParser(k)(s + more) == Some((SerialParser(k)(s).value.0, SerialParser(k)(s).value.1 + more))
    {
      BytesStable(k, s, more);
    }
  }

  lemma HeadStable(s: seq<byte>, more: seq<byte>)
    ensures ParseHead(s).Some? ==> ParseHead(s + more) == Some((ParseHead(s).value.0, ParseHead(s).value.1 + more))
  {
    BytesStable(4, s, more);
    if |s| >= 4 {
      BytesStable(1, s[4..], more);
      if |s| >= 5 {
        BytesStable(32, s[4..][1..], more);
      }
    }
  }

  lemma TailStable(k: nat, s: seq<byte>, more: seq<byte>)
    ensures ParseTail(k, s).Some? ==> ParseTail(k, s + more) == Some((ParseTail(k, s).value.0, ParseTail(k, s).value.1 + more))
  {
    hide ParseCounted;
    FieldsStable(k);
    CountedStable(OriginParser(k), s, more);
    if ParseCounted(OriginParser(k), s).Some? {
      var s1 := ParseCounted(OriginParser(k), s).value.1;
      BytesStable(2, s1, more);
      if |s1| >= 2 {
        CountedStable(SerialParser(k), s1[2..], more);
      }
    }
  }

  lemma ParseStable(size: SerialSize, s: seq<byte>, more: seq<byte>)
    ensures Parse(size, s).Some? ==> Parse(size, s + more) == Some((Parse(size, s).value.0, Parse(size, s).value.1 + more))
  {
    hide ParseCounted, ParseHead, ParseTail, ReadFlags, Collect;
    HeadStable(s, more);
    if ParseHead(s).Some? {
      var (head, s1) := ParseHead(s).value;
      FieldsStable(0);
      CountedStable(ParseOut, s1, more);
      if ParseCounted(ParseOut, s1).Some? {
        TailStable(size(head.0), ParseCounted(ParseOut, s1).value.1, more);
      }
    }
  }

  /** MAIN RESULT on truncation. A ring's bytes cut short anywhere do not decode. */
  lemma TruncatedRingFails(r: UTXORing, order: seq<Origin>, size: SerialSize, n: nat)
    requires WellFormed(r) && Sized(r, size) && CountsFit(r) && IsOrderOf(order, r.origin)
    requires n < |Encode(r, order)|
    ensures Decode(size, Encode(r, order)[..n]) == None
  {
    WholeRingParses(r, order, size);
    NoPartParses(size, Encode(r, order), n);
  }

  lemma WholeRingParses(r: UTXORing, order: seq<Origin>, size: SerialSize)
    requires WellFormed(r) && Sized(r, size) && CountsFit(r) && IsOrderOf(order, r.origin)
    ensures Parse(size, Encode(r, order)).Some? && Parse(size, Encode(r, order)).value.1 == []
  {
    SizedInverse(r, order, size, []);
  }

  lemma NoPartParses(size: SerialSize, e: seq<byte>, n: nat)
    requires Parse(size, e).Some? && Parse(size, e).value.1 == [] && n < |e|
    ensures Decode(size, e[..n]) == None
  {
    hide Parse;
    ParseStable(size, e[..n], e[n..]);
    assert e == e[..n] + e[n..];
    assert |e[n..]| > 0 && |Parse(size, e).value.1| == 0;
  }
}
