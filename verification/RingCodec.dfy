/** The byte format of the wallet's rings (UTXORing in wtxmgr/tx.go), which block records
    contain. */
module RingCodec {
  import opened Wrappers
  import opened Bytes
  import opened Records

  const HASH_SIZE: nat := 32

  datatype RingOut = RingOut(txHash: seq<byte>, index: byte)

  /** `origin` maps positions in the ring to serial numbers; `mine` and `spent` have one entry
      an output. */
  datatype UTXORing = UTXORing(
    version: nat,
    flag: byte,
    ringHash: seq<byte>,
    outs: seq<RingOut>,
    origin: map<byte, seq<byte>>,
    mine: seq<bool>,
    spent: seq<bool>,
    got: seq<seq<byte>>)

  /** The size of serial numbers, by version. */
  type SerialSize = nat -> nat

  /** What the Go types and the callers give: 32-byte hashes, flags for every output. */
  ghost predicate WellFormed(r: UTXORing) {
    |r.ringHash| == HASH_SIZE
    && |r.outs| == |r.mine| == |r.spent|
    && (forall o <- r.outs :: |o.txHash| == HASH_SIZE)
  }

  /** Every serial number has the size of the ring's version. */
  ghost predicate Sized(r: UTXORing, size: SerialSize) {
    (forall i <- r.origin :: |r.origin[i]| == size(r.version))
    && (forall sn <- r.got :: |sn| == size(r.version))
  }

  /** Every count fits its byte. */
  ghost predicate CountsFit(r: UTXORing) {
    r.version < 0x1_0000_0000 && |r.outs| < 256 && |r.origin| < 256 && |r.got| < 256
  }

  /** The 16 bits hold the flags of 8 outputs. From output 8 on, a bit says both that output i
      is the wallet's and that output i - 8 is spent. */
  ghost predicate FlagsFit(r: UTXORing)
    requires |r.mine| == |r.spent|
  {
    forall i :: 8 <= i < |r.mine| ==> FitsAt(r.mine, r.spent, i)
  }

  predicate FitsAt(mine: seq<bool>, spent: seq<bool>, i: nat)
    requires 8 <= i < |mine| == |spent|
  {
    !spent[i] && mine[i] == (i < 16 && spent[i - 8])
  }

  // ----- the flag word -----

  /** The number whose bit i is bits[i]. */
  function FromBits(bits: seq<bool>): nat {
    if bits == [] then 0 else (if bits[0] then 1 else 0) + 2 * FromBits(bits[1..])
  }

  function Pow2(n: nat): nat { if n == 0 then 1 else 2 * Pow2(n - 1) }

  function Bit(v: nat, i: nat): bool {
    if i == 0 then v % 2 == 1 else Bit(v / 2, i - 1)
  }

  lemma HalfOfBits(bits: seq<bool>)
    requires bits != []
    ensures FromBits(bits) / 2 == FromBits(bits[1..]) && FromBits(bits) % 2 == if bits[0] then 1 else 0
  {
  }

  lemma {:induction false} BitOfBits(bits: seq<bool>, i: nat)
    ensures Bit(FromBits(bits), i) == (i < |bits| && bits[i])
    decreases i
  {
    if bits == [] {
      if i > 0 {
        BitOfBits([], i - 1);
      }
    } else {
      HalfOfBits(bits);
      if i > 0 {
        BitOfBits(bits[1..], i - 1);
      }
    }
  }

  lemma {:induction false} BitsBound(bits: seq<bool>)
    ensures FromBits(bits) < Pow2(|bits|)
    decreases |bits|
  {
    if bits != [] {
      BitsBound(bits[1..]);
    }
  }

  /** Bit i says that output i is the wallet's, bit i + 8 that output i is spent; what does not
      fit 16 bits is lost. */
  function FlagBits(r: UTXORing): (bits: seq<bool>) {
    seq(16, i requires 0 <= i < 16 => (i < |r.mine| && r.mine[i]) || (8 <= i < 8 + |r.spent| && r.spent[i - 8]))
  }

  function FlagWord(r: UTXORing): nat { FromBits(FlagBits(r)) }

  function ReadFlags(word: nat, n: nat, shift: nat): seq<bool> {
    seq(n, i requires 0 <= i < n => Bit(word, i + shift))
  }

  lemma WordFits(r: UTXORing)
    ensures FlagWord(r) < 0x1_0000
  {
    BitsBound(FlagBits(r));
    assert Pow2(12) == 0x1000 && Pow2(8) == 0x100 && Pow2(4) == 0x10;
  }

  /** What is read for output i. */
  ghost predicate ReadAt(mine: seq<bool>, spent: seq<bool>, mine': seq<bool>, spent': seq<bool>, i: nat)
    requires i < |mine| == |spent| == |mine'| == |spent'|
  {
    mine'[i] == (i < 16 && (mine[i] || (8 <= i && spent[i - 8])))
    && spent'[i] == (i < 8 && (spent[i] || (i + 8 < |mine| && mine[i + 8])))
  }

  lemma FlagRead(r: UTXORing, i: nat)
    requires i < |r.mine| == |r.spent|
    ensures ReadAt(r.mine, r.spent, ReadFlags(FlagWord(r), |r.mine|, 0), ReadFlags(FlagWord(r), |r.mine|, 8), i)
  {
    BitOfBits(FlagBits(r), i);
    BitOfBits(FlagBits(r), i + 8);
  }

  lemma SharedBits(mine: seq<bool>, spent: seq<bool>, mine': seq<bool>, spent': seq<bool>)
    requires |mine| == |spent| == |mine'| == |spent'|
    requires forall i :: 0 <= i < |mine| ==> ReadAt(mine, spent, mine', spent', i)
    ensures (mine' == mine && spent' == spent) <==> (forall i :: 8 <= i < |mine| ==> FitsAt(mine, spent, i))
  {
    if mine' == mine && spent' == spent {
      forall i | 8 <= i < |mine|
        ensures FitsAt(mine, spent, i)
      {
        assert ReadAt(mine, spent, mine', spent', i) && ReadAt(mine, spent, mine', spent', i - 8);
      }
    }
    if forall i :: 8 <= i < |mine| ==> FitsAt(mine, spent, i) {
      forall i | 0 <= i < |mine|
        ensures mine'[i] == mine[i] && spent'[i] == spent[i]
      {
        assert ReadAt(mine, spent, mine', spent', i);
        assert 8 <= i ==> FitsAt(mine, spent, i);
        assert i + 8 < |mine| ==> FitsAt(mine, spent, i + 8);
      }
      assert mine' == mine && spent' == spent;
    }
  }

  lemma FlagsComeBack(r: UTXORing)
    requires |r.mine| == |r.spent|
    ensures FlagsFit(r) <==> (ReadFlags(FlagWord(r), |r.mine|, 0) == r.mine && ReadFlags(FlagWord(r), |r.spent|, 8) == r.spent)
  {
    var mine, spent := ReadFlags(FlagWord(r), |r.mine|, 0), ReadFlags(FlagWord(r), |r.mine|, 8);
    forall i | 0 <= i < |r.mine|
      ensures ReadAt(r.mine, r.spent, mine, spent, i)
    {
      FlagRead(r, i);
    }
    SharedBits(r.mine, r.spent, mine, spent);
  }

  // ----- fields -----

  function EncodeOut(o: RingOut): seq<byte> { o.txHash + [o.index] }

  function ParseOut(s: seq<byte>): Parsed<RingOut> {
    match ParseBytes(HASH_SIZE, s)
    case None => None
    case Some((hash, rest)) =>
      match ParseBytes(1, rest)
      case None => None
      case Some((index, rest')) => Some((RingOut(hash, index[0]), rest'))
  }

  lemma OutInverse(o: RingOut)
    requires |o.txHash| == HASH_SIZE
    ensures Inverse(EncodeOut, ParseOut, o)
  {
    forall rest: seq<byte>
      ensures ParseOut(EncodeOut(o) + rest) == Some((o, rest))
    {
      assert EncodeOut(o) + rest == o.txHash + ([o.index] + rest);
      ParseBytesFront(o.txHash, [o.index] + rest);
      ParseBytesFront([o.index], rest);
    }
  }

  /** An original serial number with its position. */
  datatype Origin = Origin(index: byte, serial: seq<byte>)

  function EncodeOrigin(o: Origin): seq<byte> { [o.index] + o.serial }

  function ParseOrigin(size: nat, s: seq<byte>): Parsed<Origin> {
    match ParseBytes(1, s)
    case None => None
    case Some((index, rest)) =>
      match ParseBytes(size, rest)
      case None => None
      case Some((serial, rest')) => Some((Origin(index[0], serial), rest'))
  }

  function OriginParser(size: nat): seq<byte> -> Parsed<Origin> { s => ParseOrigin(size, s) }

  lemma OriginInverse(o: Origin, size: nat)
    requires |o.serial| == size
    ensures Inverse(EncodeOrigin, OriginParser(size), o)
  {
    forall rest: seq<byte>
      ensures OriginParser(size)(EncodeOrigin(o) + rest) == Some((o, rest))
    {
      assert EncodeOrigin(o) + rest == [o.index] + (o.serial + rest);
      ParseBytesFront([o.index], o.serial + rest);
      ParseBytesFront(o.serial, rest);
    }
  }

  function EncodeSerial(s: seq<byte>): seq<byte> { s }

  function SerialParser(size: nat): seq<byte> -> Parsed<seq<byte>> { s => ParseBytes(size, s) }

  lemma SerialInverse(sn: seq<byte>)
    ensures Inverse(EncodeSerial, SerialParser(|sn|), sn)
  {
    forall rest: seq<byte>
      ensures SerialParser(|sn|)(EncodeSerial(sn) + rest) == Some((sn, rest))
    {
      ParseBytesFront(sn, rest);
    }
  }

  // ----- rings -----

  /** An order in which the map of original serial numbers may be gone through. */
  ghost predicate IsOrderOf(order: seq<Origin>, origin: map<byte, seq<byte>>) {
    |order| == |origin|
    && (forall o <- order :: o.index in origin && origin[o.index] == o.serial)
    && (forall i <- origin :: Origin(i, origin[i]) in order)
  }

  function Collect(order: seq<Origin>): map<byte, seq<byte>> {
    if order == [] then map[] else Collect(order[..|order| - 1])[order[|order| - 1].index := order[|order| - 1].serial]
  }

  lemma {:induction false} CollectHas(order: seq<Origin>, origin: map<byte, seq<byte>>)
    requires forall o <- order :: o.index in origin && origin[o.index] == o.serial
    ensures Collect(order).Keys == set o | o in order :: o.index
    ensures forall i <- Collect(order) :: i in origin && Collect(order)[i] == origin[i]
    decreases |order|
  {
    if order != [] {
      var init, last := order[..|order| - 1], order[|order| - 1];
      CollectHas(init, origin);
      assert order == init + [last];
    }
  }

  lemma CollectOrder(order: seq<Origin>, origin: map<byte, seq<byte>>)
    requires IsOrderOf(order, origin)
    ensures Collect(order) == origin
  {
    CollectHas(order, origin);
    forall i | i in origin
      ensures i in Collect(order)
    {
      assert Origin(i, origin[i]) in order;
    }
  }

  // What follows each count, innermost field last.

  function GotBytes(got: seq<seq<byte>>, rest: seq<byte>): seq<byte> {
    [|got| % 256] + (EncodeAll(EncodeSerial, got) + rest)
  }

  function OriginBytes(order: seq<Origin>, rest: seq<byte>): seq<byte> {
    [|order| % 256] + (EncodeAll(EncodeOrigin, order) + rest)
  }

  function OutBytes(outs: seq<RingOut>, rest: seq<byte>): seq<byte> {
    [|outs| % 256] + (EncodeAll(EncodeOut, outs) + rest)
  }

  /** Serialize, followed by `rest`. The order is the one in which the map of original serial
      numbers happened to be gone through. */
  function EncodeThen(r: UTXORing, order: seq<Origin>, rest: seq<byte>): seq<byte> {
    BigEndian(r.version, 4) + ([r.flag] + (r.ringHash + OutBytes(r.outs,
      OriginBytes(order, BigEndian(FlagWord(r), 2) + GotBytes(r.got, rest)))))
  }

  function Encode(r: UTXORing, order: seq<Origin>): seq<byte> {
    EncodeThen(r, order, [])
  }

  /** A count byte, then that many fields. */
  function ParseCounted<T>(parse: seq<byte> -> Parsed<T>, s: seq<byte>): Parsed<seq<T>> {
    match ParseBytes(1, s)
    case None => None
    case Some((n, rest)) => ParseAll(parse, n[0], rest)
  }

  lemma CountedInverse<T>(encode: T -> seq<byte>, parse: seq<byte> -> Parsed<T>, xs: seq<T>, rest: seq<byte>)
    requires |xs| < 256
    requires forall x <- xs :: Inverse(encode, parse, x)
    ensures ParseCounted(parse, [|xs|] + (EncodeAll(encode, xs) + rest)) == Some((xs, rest))
  {
    ParseBytesFront([|xs|], EncodeAll(encode, xs) + rest);
    ListInverse(encode, parse, xs, rest);
  }

  /** The version, the flag byte and the ring hash. */
  function ParseHead(s: seq<byte>): Parsed<(nat, byte, seq<byte>)> {
    match ParseUint(4, s)
    case None => None
    case Some((version, s1)) =>
      match ParseBytes(1, s1)
      case None => None
      case Some((flag, s2)) =>
        match ParseBytes(HASH_SIZE, s2)
        case None => None
        case Some((hash, s3)) => Some(((version, flag[0], hash), s3))
  }

  /** Everything after the outputs: original serial numbers, flags, serial numbers seen. */
  function ParseTail(size: nat, s: seq<byte>): Parsed<(seq<Origin>, nat, seq<seq<byte>>)> {
    match ParseCounted(OriginParser(size), s)
    case None => None
    case Some((order, s1)) =>
      match ParseUint(2, s1)
      case None => None
      case Some((word, s2)) =>
        match ParseCounted(SerialParser(size), s2)
        case None => None
        case Some((got, s3)) => Some(((order, word, got), s3))
  }

  /** Deserialize, with what it leaves unread. None is its length error or a read past the
      end. */
  function Parse(size: SerialSize, s: seq<byte>): Parsed<UTXORing> {
    if |s| < 33 then None
    else
      match ParseHead(s)
      case None => None
      case Some((head, s1)) =>
        match ParseCounted(ParseOut, s1)
        case None => None
        case Some((outs, s2)) =>
          match ParseTail(size(head.0), s2)
          case None => None
          case Some((tail, s3)) =>
            Some((UTXORing(head.0, head.1, head.2, outs, Collect(tail.0),
                           ReadFlags(tail.1, |outs|, 0), ReadFlags(tail.1, |outs|, 8), tail.2), s3))
  }

  function Decode(size: SerialSize, s: seq<byte>): Option<UTXORing> {
    match Parse(size, s)
    case None => None
    case Some((r, _)) => Some(r)
  }

  lemma HeadInverse(version: nat, flag: byte, hash: seq<byte>, rest: seq<byte>)
    requires version < 0x1_0000_0000 && |hash| == HASH_SIZE
    ensures ParseHead(BigEndian(version, 4) + ([flag] + (hash + rest))) == Some(((version, flag, hash), rest))
  {
    RangeValues();
    ParseUintFront(version, 4, [flag] + (hash + rest));
    ParseBytesFront([flag], hash + rest);
    ParseBytesFront(hash, rest);
  }

  lemma OutsInverse(outs: seq<RingOut>, rest: seq<byte>)
    requires |outs| < 256 && forall o <- outs :: |o.txHash| == HASH_SIZE
    ensures ParseCounted(ParseOut, OutBytes(outs, rest)) == Some((outs, rest))
  {
    hide ParseCounted, ParseOut, EncodeAll, EncodeOut, Gives;
    forall o | o in outs
      ensures Inverse(EncodeOut, ParseOut, o)
    {
      OutInverse(o);
    }
    CountedInverse(EncodeOut, ParseOut, outs, rest);
  }

  lemma OriginsInverse(order: seq<Origin>, size: nat, rest: seq<byte>)
    requires |order| < 256 && forall o <- order :: |o.serial| == size
    ensures ParseCounted(OriginParser(size), OriginBytes(order, rest)) == Some((order, rest))
  {
    hide ParseCounted, ParseOrigin, EncodeAll, EncodeOrigin, Gives;
    forall o | o in order
      ensures Inverse(EncodeOrigin, OriginParser(size), o)
    {
      OriginInverse(o, size);
    }
    CountedInverse(EncodeOrigin, OriginParser(size), order, rest);
  }

  lemma GotInverse(got: seq<seq<byte>>, size: nat, rest: seq<byte>)
    requires |got| < 256 && forall sn <- got :: |sn| == size
    ensures ParseCounted(SerialParser(size), GotBytes(got, rest)) == Some((got, rest))
  {
    hide ParseCounted, EncodeAll, EncodeSerial, Gives;
    forall sn | sn in got
      ensures Inverse(EncodeSerial, SerialParser(size), sn)
    {
      SerialInverse(sn);
    }
    CountedInverse(EncodeSerial, SerialParser(size), got, rest);
  }

  lemma TailInverse(order: seq<Origin>, word: nat, got: seq<seq<byte>>, size: nat, rest: seq<byte>)
    requires |order| < 256 && forall o <- order :: |o.serial| == size
    requires |got| < 256 && forall sn <- got :: |sn| == size
    requires word < 0x1_0000
    ensures ParseTail(size, OriginBytes(order, BigEndian(word, 2) + GotBytes(got, rest))) == Some(((order, word, got), rest))
  {
    OriginsInverse(order, size, BigEndian(word, 2) + GotBytes(got, rest));
    RangeValues();
    ParseUintFront(word, 2, GotBytes(got, rest));
    GotInverse(got, size, rest);
  }

  /** The ring with the flags its flag word gives. */
  function Reread(r: UTXORing): UTXORing
    requires |r.mine| == |r.spent|
  {
    r.(mine := ReadFlags(FlagWord(r), |r.mine|, 0), spent := ReadFlags(FlagWord(r), |r.spent|, 8))
  }

  lemma SizedInverse(r: UTXORing, order: seq<Origin>, size: SerialSize, rest: seq<byte>)
    requires WellFormed(r) && Sized(r, size) && CountsFit(r) && IsOrderOf(order, r.origin)
    ensures Parse(size, EncodeThen(r, order, rest)) == Some((Reread(r), rest))
  {
    var word := FlagWord(r);
    WordFits(r);
    var tail := OriginBytes(order, BigEndian(word, 2) + GotBytes(r.got, rest));
    HeadInverse(r.version, r.flag, r.ringHash, OutBytes(r.outs, tail));
    OutsInverse(r.outs, tail);
    TailInverse(order, word, r.got, size(r.version), rest);
    CollectOrder(order, r.origin);
  }

  // ----- serial numbers of another size -----

  /** copy into the k zero bytes reserved for a serial number: padded, or cut. */
  function Fit(sn: seq<byte>, k: nat): (f: seq<byte>)
    ensures |f| == k
    ensures f == sn <==> |sn| == k
  {
    if |sn| >= k then sn[..k] else sn + Zeros(k - |sn|)
  }

  function FitAll(got: seq<seq<byte>>, k: nat): seq<seq<byte>> {
    seq(|got|, i requires 0 <= i < |got| => Fit(got[i], k))
  }

  function FitOrder(order: seq<Origin>, k: nat): seq<Origin> {
    seq(|order|, i requires 0 <= i < |order| => Origin(order[i].index, Fit(order[i].serial, k)))
  }

  function FitRing(r: UTXORing, size: SerialSize): UTXORing {
    r.(origin := FitMap(r.origin, size(r.version)), got := FitAll(r.got, size(r.version)))
  }

  /** The ring as written is sized, and it is the ring itself exactly if that was. */
  lemma FitRingIs(r: UTXORing, order: seq<Origin>, size: SerialSize)
    requires WellFormed(r) && IsOrderOf(order, r.origin)
    ensures var f := FitRing(r, size);
            && WellFormed(f) && Sized(f, size) && (CountsFit(r) <==> CountsFit(f))
            && IsOrderOf(FitOrder(order, size(r.version)), f.origin)
            && (f == r <==> Sized(r, size))
            && SerializedSize(f, size) == SerializedSize(r, size)
  {
    hide IsOrderOf;
    OrderFits(order, r.origin, size(r.version));
    FitMapIs(r.origin, size(r.version));
    FitAllIs(r.got, size(r.version));
  }

  lemma FitMapIs(origin: map<byte, seq<byte>>, k: nat)
    ensures forall i <- FitMap(origin, k) :: |FitMap(origin, k)[i]| == k
    ensures FitMap(origin, k) == origin <==> forall i <- origin :: |origin[i]| == k
  {
    var f := FitMap(origin, k);
    forall i | i in origin
      ensures f[i] == origin[i] <==> |origin[i]| == k
    {
      assert f[i] == Fit(origin[i], k);
    }
  }

  lemma FitAllIs(got: seq<seq<byte>>, k: nat)
    ensures forall sn <- FitAll(got, k) :: |sn| == k
    ensures FitAll(got, k) == got <==> forall sn <- got :: |sn| == k
  {
    var f := FitAll(got, k);
    forall i | 0 <= i < |got|
      ensures f[i] == got[i] <==> |got[i]| == k
    {
      assert f[i] == Fit(got[i], k);
    }
    if f == got {
      forall sn | sn in got
        ensures |sn| == k
      {
        var i :| 0 <= i < |got| && got[i] == sn;
        assert f[i] == got[i];
      }
    }
  }

  function FitMap(origin: map<byte, seq<byte>>, k: nat): (f: map<byte, seq<byte>>)
    ensures f.Keys == origin.Keys && |f| == |origin|
  {
    var f := map i | i in origin :: Fit(origin[i], k);
    assert |f| == |f.Keys| && f.Keys == origin.Keys && |origin| == |origin.Keys|;
    f
  }

  lemma OrderFits(order: seq<Origin>, origin: map<byte, seq<byte>>, k: nat)
    requires IsOrderOf(order, origin)
    ensures IsOrderOf(FitOrder(order, k), FitMap(origin, k))
  {
    hide Fit;
    var fitted, f := FitOrder(order, k), FitMap(origin, k);
    forall o | o in fitted
      ensures o.index in f && f[o.index] == o.serial
    {
      var j :| 0 <= j < |order| && fitted[j] == o;
      assert order[j] in order;
    }
    forall i | i in f
      ensures Origin(i, f[i]) in fitted
    {
      var j :| 0 <= j < |order| && order[j] == Origin(i, origin[i]);
      assert fitted[j] == Origin(i, f[i]);
    }
  }

  /** MAIN RESULT. What comes back from the bytes of a ring, in whatever order the map of
      original serial numbers was written, with what follows left unread: the ring itself,
      exactly when its flags fit the flag word and its serial numbers have their version's
      size. */
  lemma RingInverse(r: UTXORing, order: seq<Origin>, size: SerialSize, rest: seq<byte>)
    requires WellFormed(r) && CountsFit(r) && IsOrderOf(order, r.origin)
    ensures Parse(size, EncodeThen(FitRing(r, size), FitOrder(order, size(r.version)), rest)) == Some((r, rest))
            <==> FlagsFit(r) && Sized(r, size)
    ensures Sized(r, size) ==> FitRing(r, size) == r && FitOrder(order, size(r.version)) == order
  {
    hide Parse, EncodeThen, ReadFlags, FlagWord, IsOrderOf;
    FitRingIs(r, order, size);
    SizedInverse(FitRing(r, size), FitOrder(order, size(r.version)), size, rest);
    FlagsComeBack(FitRing(r, size));
    if Sized(r, size) {
      FitOrderIs(order, r.origin, size(r.version));
    }
  }

  lemma FitOrderIs(order: seq<Origin>, origin: map<byte, seq<byte>>, k: nat)
    requires IsOrderOf(order, origin) && forall i <- origin :: |origin[i]| == k
    ensures FitOrder(order, k) == order
  {
    forall i | 0 <= i < |order|
      ensures FitOrder(order, k)[i] == order[i]
    {
      assert order[i] in order;
    }
  }

  /** Eight outputs always fit; with nine, the last one's flag reads as the first one's. */
  lemma EightOutputsFit(r: UTXORing)
    requires |r.mine| == |r.spent|
    ensures |r.mine| <= 8 ==> FlagsFit(r)
    ensures |r.mine| == 9 && !r.spent[0] && r.mine[8] ==> !FlagsFit(r) && ReadFlags(FlagWord(r), 9, 8)[0]
  {
    if |r.mine| == 9 && !r.spent[0] && r.mine[8] {
      assert !FitsAt(r.mine, r.spent, 8);
      BitOfBits(FlagBits(r), 8);
      assert FlagBits(r)[8];
    }
  }

  // ----- Serialize and Deserialize, which keep an offset -----

  /** SerializeSize. */
  function SerializedSize(r: UTXORing, size: SerialSize): nat {
    4 + 1 + HASH_SIZE + 1 + (HASH_SIZE + 1) * |r.outs| + 1 + (1 + size(r.version)) * |r.origin|
    + 2 + 1 + size(r.version) * |r.got|
  }

  lemma FieldLengths(r: UTXORing, order: seq<Origin>, size: SerialSize)
    requires WellFormed(r) && Sized(r, size) && IsOrderOf(order, r.origin)
    ensures |EncodeAll(EncodeOut, r.outs)| == (HASH_SIZE + 1) * |r.outs|
    ensures |EncodeAll(EncodeOrigin, order)| == (1 + size(r.version)) * |r.origin|
    ensures |EncodeAll(EncodeSerial, r.got)| == size(r.version) * |r.got|
  {
    UniformLength(EncodeOut, r.outs, HASH_SIZE + 1);
    UniformLength(EncodeOrigin, order, 1 + size(r.version));
    UniformLength(EncodeSerial, r.got, size(r.version));
  }

  /** The buffer Serialize allocates is exactly filled. */
  lemma EncodedLength(r: UTXORing, order: seq<Origin>, size: SerialSize)
    requires WellFormed(r) && Sized(r, size) && IsOrderOf(order, r.origin)
    ensures |Encode(r, order)| == SerializedSize(r, size)
  {
    FieldLengths(r, order, size);
  }

  lemma {:induction false} SettingABit(bits: seq<bool>, i: nat)
    requires i < |bits| && !bits[i]
    ensures FromBits(bits[i := true]) == FromBits(bits) + Pow2(i)
    decreases i
  {
    if i > 0 {
      SettingABit(bits[1..], i - 1);
      assert bits[i := true][1..] == bits[1..][i - 1 := true];
    }
  }

  lemma {:induction false} NoBits(n: nat)
    ensures FromBits(seq(n, _ => false)) == 0
  {
    if n > 0 {
      NoBits(n - 1);
      assert seq(n, _ => false)[1..] == seq(n - 1, _ => false);
    }
  }

  /** Sets bit i of a 16-bit word. */
  function WithBit(word: nat, i: nat): nat {
    if i < 16 && !Bit(word, i) then word + Pow2(i) else word
  }

  lemma WithBitSets(bits: seq<bool>, i: nat)
    requires |bits| == 16
    ensures WithBit(FromBits(bits), i) == FromBits(if i < 16 then bits[i := true] else bits)
  {
    BitOfBits(bits, i);
    if i < 16 {
      if bits[i] {
        assert bits[i := true] == bits;
      } else {
        SettingABit(bits, i);
      }
    }
  }

  method PackFlags(r: UTXORing) returns (word: nat)
    requires |r.mine| == |r.spent|
    ensures word == FlagWord(r)
  {
    word := 0;
    ghost var bits: seq<bool> := seq(16, _ => false);
    NoBits(16);
    var i := 0;
    while i < |r.mine|
      invariant 0 <= i <= |r.mine|
      invariant |bits| == 16 && word == FromBits(bits)
      invariant forall j :: 0 <= j < 16 ==> bits[j] == ((j < i && r.mine[j]) || (8 <= j < 8 + i && r.spent[j - 8]))
    {
      if r.mine[i] {
        WithBitSets(bits, i);
        word := WithBit(word, i);
        bits := if i < 16 then bits[i := true] else bits;
      }
      if r.spent[i] {
        WithBitSets(bits, i + 8);
        word := WithBit(word, i + 8);
        bits := if i + 8 < 16 then bits[i + 8 := true] else bits;
      }
      i := i + 1;
    }
    assert bits == FlagBits(r);
  }

  /** From the counted serial numbers on. */
  method FillTail(buffer: array<byte>, start: nat, order: seq<Origin>, word: nat, got: seq<seq<byte>>)
      returns (offset: nat)
    requires start + |OriginBytes(order, BigEndian(word, 2) + GotBytes(got, []))| <= buffer.Length
    modifies buffer
    ensures offset == start + |OriginBytes(order, BigEndian(word, 2) + GotBytes(got, []))|
    ensures buffer[..offset] == old(buffer[..start]) + OriginBytes(order, BigEndian(word, 2) + GotBytes(got, []))
  {
    ghost var was := buffer[..start];
    ghost var os, gs := EncodeAll(EncodeOrigin, order), EncodeAll(EncodeSerial, got);
    offset := Fill(buffer, start, [|order| % 256]);
    offset := FillAll(buffer, offset, EncodeOrigin, order);
    offset := Fill(buffer, offset, BigEndian(word, 2));
    offset := Fill(buffer, offset, [|got| % 256]);
    offset := FillAll(buffer, offset, EncodeSerial, got);
    assert buffer[..offset] == was + [|order| % 256] + os + BigEndian(word, 2) + [|got| % 256] + gs;
    Grouped5(was, [|order| % 256], os, BigEndian(word, 2), [|got| % 256], gs);
  }

  lemma Grouped5(a: seq<byte>, b: seq<byte>, c: seq<byte>, d: seq<byte>, e: seq<byte>, f: seq<byte>)
    ensures a + b + c + d + e + f == a + (b + (c + (d + (e + (f + [])))))
  {
  }

  /** Up to the outputs. */
  method FillHead(buffer: array<byte>, r: UTXORing) returns (offset: nat)
    requires 6 + |r.ringHash| + |EncodeAll(EncodeOut, r.outs)| <= buffer.Length
    modifies buffer
    ensures offset == 6 + |r.ringHash| + |EncodeAll(EncodeOut, r.outs)|
    ensures buffer[..offset] == BigEndian(r.version, 4) + ([r.flag] + (r.ringHash + OutBytes(r.outs, [])))
  {
    ghost var outs := EncodeAll(EncodeOut, r.outs);
    offset := Fill(buffer, 0, BigEndian(r.version, 4));
    offset := Fill(buffer, offset, [r.flag]);
    offset := Fill(buffer, offset, r.ringHash);
    offset := Fill(buffer, offset, [|r.outs| % 256]);
    offset := FillAll(buffer, offset, EncodeOut, r.outs);
    assert buffer[..offset] == [] + BigEndian(r.version, 4) + [r.flag] + r.ringHash + [|r.outs| % 256] + outs;
    Grouped5([], BigEndian(r.version, 4), [r.flag], r.ringHash, [|r.outs| % 256], outs);
  }

  lemma HeadThenTail(v: seq<byte>, flag: byte, hash: seq<byte>, outs: seq<RingOut>, tail: seq<byte>)
    ensures v + ([flag] + (hash + OutBytes(outs, []))) + tail == v + ([flag] + (hash + OutBytes(outs, tail)))
  {
    assert OutBytes(outs, []) + tail == OutBytes(outs, tail);
  }

  method SerializeFitted(r: UTXORing, order: seq<Origin>, size: SerialSize) returns (res: array<byte>)
    requires WellFormed(r) && Sized(r, size) && IsOrderOf(order, r.origin)
    ensures fresh(res) && res[..] == Encode(r, order)
  {
    var word := PackFlags(r);
    ghost var tail := OriginBytes(order, BigEndian(word, 2) + GotBytes(r.got, []));
    HeadThenTail(BigEndian(r.version, 4), r.flag, r.ringHash, r.outs, tail);
    EncodedLength(r, order, size);
    res := new byte[SerializedSize(r, size)];
    ghost var length := res.Length;
    assert length == 6 + |r.ringHash| + |EncodeAll(EncodeOut, r.outs)| + |tail|;
    var offset := FillHead(res, r);
    offset := FillTail(res, offset, order, word, r.got);
    assert res[..offset] == res[..];
  }

  /** Serialize. The buffer is zeroed, so copying a serial number pads or cuts it. */
  method Serialize(r: UTXORing, order: seq<Origin>, size: SerialSize) returns (res: array<byte>)
    requires WellFormed(r) && IsOrderOf(order, r.origin)
    ensures fresh(res) && res[..] == Encode(FitRing(r, size), FitOrder(order, size(r.version)))
    ensures res.Length == SerializedSize(r, size)
  {
    hide Encode, WellFormed, Sized, IsOrderOf, SerializedSize;
    FitRingIs(r, order, size);
    EncodedLength(FitRing(r, size), FitOrder(order, size(r.version)), size);
    res := SerializeFitted(FitRing(r, size), FitOrder(order, size(r.version)), size);
  }

  lemma ParseOutAt(b: seq<byte>, offset: nat)
    requires offset <= |b|
    ensures ReadsAs(if offset + 33 <= |b| then Some((RingOut(b[offset..offset + 32], b[offset + 32]), offset + 33)) else None,
                    b, ParseOut(b[offset..]))
  {
    ParseBytesAt(b, offset, 32);
    if offset + 32 <= |b| {
      ParseBytesAt(b, offset + 32, 1);
    }
  }

  method ReadOuts(b: seq<byte>, start: nat) returns (res: Option<(seq<RingOut>, nat)>)
    requires start <= |b|
    ensures ReadsAs(res, b, ParseCounted(ParseOut, b[start..]))
  {
    hide ParseOut, ParseBytes;
    ParseBytesAt(b, start, 1);
    if |b| < start + 1 { return None; }
    var n, offset, outs := b[start], start + 1, [];
    var i := 0;
    while i < n
      invariant 0 <= i <= n && 0 <= offset <= |b|
      invariant ParseAll(ParseOut, i, b[start + 1..]) == Some((outs, b[offset..]))
    {
      ParseOutAt(b, offset);
      if |b| < offset + 33 {
        assert ParseAll(ParseOut, i + 1, b[start + 1..]) == None;
        ParseAllStuck(ParseOut, i + 1, n, b[start + 1..]);
        return None;
      }
      outs := outs + [RingOut(b[offset..offset + 32], b[offset + 32])];
      offset := offset + 33;
      i := i + 1;
    }
    return Some((outs, offset));
  }

  lemma ParseOriginAt(b: seq<byte>, offset: nat, size: nat)
    requires offset <= |b|
    ensures ReadsAs(if offset + 1 + size <= |b| then Some((Origin(b[offset], b[offset + 1..offset + 1 + size]), offset + 1 + size)) else None,
                    b, OriginParser(size)(b[offset..]))
  {
    ParseBytesAt(b, offset, 1);
    if offset + 1 <= |b| {
      ParseBytesAt(b, offset + 1, size);
    }
  }

  lemma CollectStep(order: seq<Origin>, o: Origin)
    ensures Collect(order + [o]) == Collect(order)[o.index := o.serial]
  {
    assert (order + [o])[..|order|] == order;
  }

  method ReadOrigins(b: seq<byte>, start: nat, size: nat)
      returns (res: Option<(map<byte, seq<byte>>, nat)>, ghost order: seq<Origin>)
    requires start <= |b|
    ensures ReadsAs(if res.Some? then Some((order, res.value.1)) else None, b, ParseCounted(OriginParser(size), b[start..]))
    ensures res.Some? ==> res.value.0 == Collect(order)
  {
    hide ParseOrigin, ParseBytes, OriginParser;
    order := [];
    ParseBytesAt(b, start, 1);
    if |b| < start + 1 { return None, order; }
    var n, offset := b[start], start + 1;
    var origin: map<byte, seq<byte>> := map[];
    var i := 0;
    while i < n
      invariant 0 <= i <= n && 0 <= offset <= |b|
      invariant ParseAll(OriginParser(size), i, b[start + 1..]) == Some((order, b[offset..]))
      invariant origin == Collect(order)
    {
      ParseOriginAt(b, offset, size);
      if |b| < offset + 1 + size {
        assert ParseAll(OriginParser(size), i + 1, b[start + 1..]) == None;
        ParseAllStuck(OriginParser(size), i + 1, n, b[start + 1..]);
        return None, order;
      }
      var o := Origin(b[offset], b[offset + 1..offset + 1 + size]);
      CollectStep(order, o);
      origin := origin[o.index := o.serial];
      order := order + [o];
      offset := offset + 1 + size;
      i := i + 1;
    }
    return Some((origin, offset)), order;
  }

  method ReadSerials(b: seq<byte>, start: nat, size: nat) returns (res: Option<(seq<seq<byte>>, nat)>)
    requires start <= |b|
    ensures ReadsAs(res, b, ParseCounted(SerialParser(size), b[start..]))
  {
    ParseBytesAt(b, start, 1);
    if |b| < start + 1 { return None; }
    var n, offset, got := b[start], start + 1, [];
    var i := 0;
    while i < n
      invariant 0 <= i <= n && 0 <= offset <= |b|
      invariant ParseAll(SerialParser(size), i, b[start + 1..]) == Some((got, b[offset..]))
    {
      ParseBytesAt(b, offset, size);
      if |b| < offset + size {
        assert ParseAll(SerialParser(size), i + 1, b[start + 1..]) == None;
        ParseAllStuck(SerialParser(size), i + 1, n, b[start + 1..]);
        return None;
      }
      got := got + [b[offset..offset + size]];
      offset := offset + size;
      i := i + 1;
    }
    return Some((got, offset));
  }

  method UnpackFlags(word: nat, n: nat) returns (mine: seq<bool>, spent: seq<bool>)
    ensures mine == ReadFlags(word, n, 0) && spent == ReadFlags(word, n, 8)
  {
    mine, spent := [], [];
    for i := 0 to n
      invariant mine == ReadFlags(word, i, 0) && spent == ReadFlags(word, i, 8)
    {
      mine, spent := mine + [Bit(word, i)], spent + [Bit(word, i + 8)];
    }
  }

  lemma ParseHeadAt(b: seq<byte>)
    requires |b| >= 33
    ensures ReadsAs(if 37 <= |b| then Some(((FromBigEndian(b[0..4]), b[4], b[5..37]), 37)) else None, b, ParseHead(b))
  {
    assert b[0..] == b;
    ParseBytesAt(b, 0, 4);
    ParseBytesAt(b, 4, 1);
    ParseBytesAt(b, 5, 32);
  }

  method Deserialize(b: seq<byte>, size: SerialSize) returns (r: Option<UTXORing>)
    ensures r == Decode(size, b)
  {
    if |b| < 33 { return None; }
    ParseHeadAt(b);
    if |b| < 37 { return None; }
    var version, flag, hash := FromBigEndian(b[0..4]), b[4], b[5..37];
    var outs := ReadOuts(b, 37);
    if outs == None { return None; }
    var k, offset := size(version), outs.value.1;
    var origin, order := ReadOrigins(b, offset, k);
    if origin == None { return None; }
    offset := origin.value.1;
    ParseBytesAt(b, offset, 2);
    if |b| < offset + 2 { return None; }
    var word := FromBigEndian(b[offset..offset + 2]);
    var mine, spent := UnpackFlags(word, |outs.value.0|);
    var got := ReadSerials(b, offset + 2, k);
    if got == None { return None; }
    return Some(UTXORing(version, flag, hash, outs.value.0, origin.value.0, mine, spent, got.value.0));
  }
}
