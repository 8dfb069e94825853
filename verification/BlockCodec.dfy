/** The records a block leaves in the transaction store: its inputs with the rings they touched,
    and lists of outputs (wtxmgr/db.go, wtxmgr/db_ctaut.go). */
module BlockCodec {
  import opened Wrappers
  import opened Bytes
  import opened Records
  import opened RingCodec

  /** A ring touched by a block, with the serial numbers the block added to it. `order` is the
      order in which the ring's map of original serial numbers is gone through. */
  datatype Entry = Entry(ring: UTXORing, order: seq<Origin>, serials: seq<seq<byte>>)

  ghost predicate EntryOk(e: Entry, size: SerialSize) {
    WellFormed(e.ring) && Sized(e.ring, size) && CountsFit(e.ring) && FlagsFit(e.ring) && IsOrderOf(e.order, e.ring.origin)
    && SerializedSize(e.ring, size) < 0x1_0000
    && |e.serials| < 256 && (forall sn <- e.serials :: |sn| < 256)
  }

  // ----- the format -----

  /** A serial number with its length. */
  function SerialBytes(sn: seq<byte>): seq<byte> { [|sn| % 256] + sn }

  function EntryBody(e: Entry): seq<byte> {
    Encode(e.ring, e.order) + ([|e.serials| % 256] + EncodeAll(SerialBytes, e.serials))
  }

  /** Entry length, ring length, ring, serial numbers. */
  function EntryBytes(e: Entry): seq<byte> {
    BigEndian(4 + |EntryBody(e)|, 2) + (BigEndian(|Encode(e.ring, e.order)|, 2) + EntryBody(e))
  }

  /** Record length, number of rings, entries. */
  function RecordBytes(entries: seq<Entry>): seq<byte> {
    var body := EncodeAll(EntryBytes, entries);
    BigEndian(6 + |body|, 4) + (BigEndian(|entries|, 2) + body)
  }

  // ----- reading -----

  function ParseSerial(s: seq<byte>): Parsed<seq<byte>> {
    match ParseBytes(1, s)
    case None => None
    case Some((n, rest)) => ParseBytes(n[0], rest)
  }

  /** What is read of an entry. */
  datatype Touched = Touched(ring: UTXORing, serials: seq<seq<byte>>)

  /** The entry's length is skipped; the ring is read from exactly its own bytes. */
  function ParseEntry(size: SerialSize, s: seq<byte>): Parsed<Touched> {
    match ParseBytes(2, s)
    case None => None
    case Some((_, s1)) =>
      match ParseUint(2, s1)
      case None => None
      case Some((uSize, s2)) =>
        match ParseBytes(uSize, s2)
        case None => None
        case Some((ringBytes, s3)) =>
          match Decode(size, ringBytes)
          case None => None
          case Some(ring) =>
            match ParseCounted(ParseSerial, s3)
            case None => None
            case Some((serials, s4)) => Some((Touched(ring, serials), s4))
  }

  function EntryParser(size: SerialSize): seq<byte> -> Parsed<Touched> { s => ParseEntry(size, s) }

  function ParseRecord(size: SerialSize, s: seq<byte>): Parsed<seq<Touched>> {
    match ParseBytes(4, s)
    case None => None
    case Some((_, s1)) =>
      match ParseUint(2, s1)
      case None => None
      case Some((n, s2)) => ParseAll(EntryParser(size), n, s2)
  }

  // ----- the round trip -----

  lemma SerialBytesInverse(sn: seq<byte>)
    requires |sn| < 256
    ensures Inverse(SerialBytes, ParseSerial, sn)
  {
    forall rest: seq<byte>
      ensures ParseSerial(SerialBytes(sn) + rest) == Some((sn, rest))
    {
      assert SerialBytes(sn) + rest == [|sn|] + (sn + rest);
      ParseBytesFront([|sn|], sn + rest);
      ParseBytesFront(sn, rest);
    }
  }

  lemma SerialsInverse(serials: seq<seq<byte>>, rest: seq<byte>)
    requires |serials| < 256 && forall sn <- serials :: |sn| < 256
    ensures ParseCounted(ParseSerial, [|serials|] + (EncodeAll(SerialBytes, serials) + rest)) == Some((serials, rest))
  {
    forall sn | sn in serials
      ensures Inverse(SerialBytes, ParseSerial, sn)
    {
      SerialBytesInverse(sn);
    }
    CountedInverse(SerialBytes, ParseSerial, serials, rest);
  }

  /** The entry's fields, read one after the other. */
  lemma EntryFields(length: seq<byte>, ring: seq<byte>, serials: seq<seq<byte>>, size: SerialSize, rest: seq<byte>)
    requires |length| == 2 && |ring| < 0x1_0000 && Decode(size, ring).Some?
    requires |serials| < 256 && forall sn <- serials :: |sn| < 256
    ensures ParseEntry(size, length + (BigEndian(|ring|, 2) + (ring + ([|serials|] + (EncodeAll(SerialBytes, serials) + rest)))))
         == Some((Touched(Decode(size, ring).value, serials), rest))
  {
    var s3 := [|serials|] + (EncodeAll(SerialBytes, serials) + rest);
    ParseBytesFront(length, BigEndian(|ring|, 2) + (ring + s3));
    RangeValues();
    ParseUintFront(|ring|, 2, ring + s3);
    ParseBytesFront(ring, s3);
    SerialsInverse(serials, rest);
  }

  lemma Regroup(a: seq<byte>, b: seq<byte>, c: seq<byte>, d: seq<byte>, e: seq<byte>, rest: seq<byte>)
    ensures a + (b + (c + (d + e))) + rest == a + (b + (c + (d + (e + rest))))
  {
  }

  lemma EntryShape(e: Entry, rest: seq<byte>)
    ensures EntryBytes(e) + rest
         == BigEndian(4 + |EntryBody(e)|, 2)
            + (BigEndian(|Encode(e.ring, e.order)|, 2)
               + (Encode(e.ring, e.order) + ([|e.serials| % 256] + (EncodeAll(SerialBytes, e.serials) + rest))))
  {
    var ring := Encode(e.ring, e.order);
    Regroup(BigEndian(4 + |EntryBody(e)|, 2), BigEndian(|ring|, 2), ring, [|e.serials| % 256], EncodeAll(SerialBytes, e.serials), rest);
  }

  /** The ring's bytes are within reach of a 16-bit length, and give the ring. */
  ghost predicate RingReads(e: Entry, size: SerialSize) {
    |Encode(e.ring, e.order)| < 0x1_0000 && Decode(size, Encode(e.ring, e.order)) == Some(e.ring)
  }

  lemma RingDecodes(e: Entry, size: SerialSize)
    requires EntryOk(e, size)
    ensures RingReads(e, size)
  {
    RingInverse(e.ring, e.order, size, []);
    FitRingIs(e.ring, e.order, size);
    EncodedLength(e.ring, e.order, size);
  }

  lemma EntryInverse(e: Entry, size: SerialSize, rest: seq<byte>)
    requires RingReads(e, size)
    requires |e.serials| < 256 && forall sn <- e.serials :: |sn| < 256
    ensures ParseEntry(size, EntryBytes(e) + rest) == Some((Touched(e.ring, e.serials), rest))
  {
    hide Encode, Decode, EntryBody, EntryBytes, ParseEntry;
    EntryShape(e, rest);
    EntryFields(BigEndian(4 + |EntryBody(e)|, 2), Encode(e.ring, e.order), e.serials, size, rest);
  }

  lemma EntryGives(e: Entry, size: SerialSize)
    requires EntryOk(e, size)
    ensures Gives(EntryBytes, EntryParser(size), e, Touched(e.ring, e.serials))
  {
    forall rest: seq<byte>
      ensures EntryParser(size)(EntryBytes(e) + rest) == Some((Touched(e.ring, e.serials), rest))
    {
      RingDecodes(e, size);
      EntryInverse(e, size, rest);
    }
  }

  function Views(entries: seq<Entry>): seq<Touched> {
    seq(|entries|, i requires 0 <= i < |entries| => Touched(entries[i].ring, entries[i].serials))
  }

  lemma EntriesGive(entries: seq<Entry>, size: SerialSize, rest: seq<byte>)
    requires forall e <- entries :: EntryOk(e, size)
    ensures ParseAll(EntryParser(size), |entries|, EncodeAll(EntryBytes, entries) + rest) == Some((Views(entries), rest))
  {
    forall i | 0 <= i < |entries|
      ensures Gives(EntryBytes, EntryParser(size), entries[i], Views(entries)[i])
    {
      EntryGives(entries[i], size);
    }
    ListGives(EntryBytes, EntryParser(size), entries, Views(entries), rest);
  }

  lemma FitAsTheyAre(entries: seq<Entry>, size: SerialSize)
    requires forall e <- entries :: EntryOk(e, size)
    ensures FitEntries(entries, size) == entries
  {
    hide FitRing, FitOrder, Parse, EncodeThen, FlagsFit;
    forall i | 0 <= i < |entries|
      ensures FitEntry(entries[i], size) == entries[i]
    {
      assert EntryOk(entries[i], size);
      RingInverse(entries[i].ring, entries[i].order, size, []);
    }
  }

  /** MAIN RESULT. A block's record gives back its rings and their serial numbers in the order
      written, nothing is left unread, and its header is its length (below 4 GiB). */
  lemma RecordRoundTrip(entries: seq<Entry>, size: SerialSize)
    requires |entries| < 0x1_0000 && forall e <- entries :: EntryOk(e, size)
    ensures FitEntries(entries, size) == entries
    ensures ParseRecord(size, RecordBytes(entries)) == Some((Views(entries), []))
    ensures |RecordBytes(entries)| < 0x1_0000_0000 ==> FromBigEndian(RecordBytes(entries)[..4]) == |RecordBytes(entries)|
  {
    hide EntryBytes, EncodeAll, ParseRecord, EntryOk, BigEndian, FromBigEndian, FitEntries, RecordBytes;
    FitAsTheyAre(entries, size);
    RecordParses(entries, size);
    RecordHeader(entries);
  }

  lemma RecordParses(entries: seq<Entry>, size: SerialSize)
    requires |entries| < 0x1_0000 && forall e <- entries :: EntryOk(e, size)
    ensures ParseRecord(size, RecordBytes(entries)) == Some((Views(entries), []))
  {
    hide EntryBytes, EncodeAll, ParseAll, EntryOk, BigEndian, FromBigEndian, EntryParser, ParseBytes, ParseUint;
    var body := EncodeAll(EntryBytes, entries);
    RangeValues();
    ParseBytesFront(BigEndian(6 + |body|, 4), BigEndian(|entries|, 2) + body);
    ParseUintFront(|entries|, 2, body);
    EntriesGive(entries, size, []);
    assert body + [] == body;
  }

  lemma RecordHeader(entries: seq<Entry>)
    ensures |RecordBytes(entries)| < 0x1_0000_0000 ==> FromBigEndian(RecordBytes(entries)[..4]) == |RecordBytes(entries)|
  {
    hide EntryBytes, EncodeAll, BigEndian, FromBigEndian;
    var body := EncodeAll(EntryBytes, entries);
    RangeValues();
    BigEndianRoundTrip(6 + |body|, 4);
    assert RecordBytes(entries)[..4] == BigEndian(6 + |body|, 4);
  }

  /** Each entry starts with its own length, as long as that fits 16 bits; reading does not
      rely on it. */
  lemma EntryLength(e: Entry)
    ensures |EntryBytes(e)| < 0x1_0000 ==> FromBigEndian(EntryBytes(e)[..2]) == |EntryBytes(e)|
  {
    RangeValues();
    BigEndianRoundTrip(4 + |EntryBody(e)|, 2);
    assert EntryBytes(e)[..2] == BigEndian(4 + |EntryBody(e)|, 2);
  }

  // ----- writing: valueBlockInput -----

  method EntrySize(e: Entry, uSize: nat) returns (size: nat)
    ensures size == 5 + uSize + |EncodeAll(SerialBytes, e.serials)|
  {
    size := 2 + 2 + uSize + 1;
    assert e.serials[..0] == [];
    for i := 0 to |e.serials|
      invariant size == 5 + uSize + |EncodeAll(SerialBytes, e.serials[..i])|
    {
      EncodeAllStep(SerialBytes, e.serials, i);
      size := size + 1 + |e.serials[i]|;
    }
    assert e.serials[..|e.serials|] == e.serials;
  }

  /** An entry of the given length, once the ring is serialized. */
  method FillEntry(total: nat, ring: seq<byte>, serials: seq<seq<byte>>) returns (tmp: array<byte>)
    requires total == 5 + |ring| + |EncodeAll(SerialBytes, serials)|
    ensures tmp[..] == BigEndian(total, 2) + (BigEndian(|ring|, 2) + (ring + ([|serials| % 256] + EncodeAll(SerialBytes, serials))))
  {
    hide BigEndian, EncodeAll;
    tmp := new byte[total];
    var offset := Fill(tmp, 0, BigEndian(total, 2));
    offset := Fill(tmp, offset, BigEndian(|ring|, 2));
    offset := Fill(tmp, offset, ring);
    offset := Fill(tmp, offset, [|serials| % 256]);
    offset := FillAll(tmp, offset, SerialBytes, serials);
    assert tmp[..] == tmp[..offset];
    Regroup(BigEndian(total, 2), BigEndian(|ring|, 2), ring, [|serials| % 256], EncodeAll(SerialBytes, serials), []);
  }

  /** The entry as it is written: serial numbers of the ring padded or cut to size. */
  function FitEntry(e: Entry, size: SerialSize): Entry {
    Entry(FitRing(e.ring, size), FitOrder(e.order, size(e.ring.version)), e.serials)
  }

  function FitEntries(entries: seq<Entry>, size: SerialSize): seq<Entry> {
    seq(|entries|, i requires 0 <= i < |entries| => FitEntry(entries[i], size))
  }

  method WriteEntry(e: Entry, size: SerialSize) returns (tmp: array<byte>)
    requires WellFormed(e.ring) && IsOrderOf(e.order, e.ring.origin)
    ensures tmp[..] == EntryBytes(FitEntry(e, size))
  {
    hide Encode, SerializedSize, WellFormed, IsOrderOf, FitRing, FitOrder;
    var uSize := SerializedSize(e.ring, size);
    var total := EntrySize(e, uSize);
    var ring := Serialize(e.ring, e.order, size);
    tmp := FillEntry(total, ring[..], e.serials);
  }

  /** valueBlockInput: the header's length is filled in last. */
  method ValueBlockInput(entries: seq<Entry>, size: SerialSize) returns (res: seq<byte>)
    requires forall e <- entries :: WellFormed(e.ring) && IsOrderOf(e.order, e.ring.origin)
    ensures res == RecordBytes(FitEntries(entries, size))
  {
    hide EntryBytes, WellFormed, IsOrderOf, BigEndian, FitEntry;
    ghost var fitted := FitEntries(entries, size);
    res := Zeros(4) + BigEndian(|entries|, 2);
    var totalSize := 6;
    assert fitted[..0] == [];
    for i := 0 to |entries|
      invariant res == Zeros(4) + BigEndian(|entries|, 2) + EncodeAll(EntryBytes, fitted[..i])
      invariant totalSize == |res|
    {
      var tmp := WriteEntry(entries[i], size);
      EncodeAllStep(EntryBytes, fitted, i);
      totalSize := totalSize + tmp.Length;
      res := res + tmp[..];
    }
    assert fitted[..|entries|] == fitted;
    res := BigEndian(totalSize, 4) + res[4..];
  }

  // ----- reading: fetchBlockInput -----

  lemma ParseSerialAt(b: seq<byte>, offset: nat)
    requires offset <= |b|
    ensures ReadsAs(if offset + 1 <= |b| && offset + 1 + b[offset] <= |b|
                    then Some((b[offset + 1..offset + 1 + b[offset]], offset + 1 + b[offset])) else None,
                    b, ParseSerial(b[offset..]))
  {
    ParseBytesAt(b, offset, 1);
    if offset + 1 <= |b| {
      ParseBytesAt(b, offset + 1, b[offset]);
    }
  }

  method ReadSerialList(b: seq<byte>, start: nat) returns (res: Option<(seq<seq<byte>>, nat)>)
    requires start <= |b|
    ensures ReadsAs(res, b, ParseCounted(ParseSerial, b[start..]))
  {
    hide ParseSerial, ParseBytes;
    ParseBytesAt(b, start, 1);
    if |b| < start + 1 { return None; }
    var n, offset, serials := b[start], start + 1, [];
    var i := 0;
    while i < n
      invariant 0 <= i <= n && 0 <= offset <= |b|
      invariant ParseAll(ParseSerial, i, b[start + 1..]) == Some((serials, b[offset..]))
    {
      ParseSerialAt(b, offset);
      if |b| < offset + 1 || |b| < offset + 1 + b[offset] {
        assert ParseAll(ParseSerial, i + 1, b[start + 1..]) == None;
        ParseAllStuck(ParseSerial, i + 1, n, b[start + 1..]);
        return None;
      }
      serials := serials + [b[offset + 1..offset + 1 + b[offset]]];
      offset := offset + 1 + b[offset];
      i := i + 1;
    }
    return Some((serials, offset));
  }

  method ReadEntry(b: seq<byte>, start: nat, size: SerialSize) returns (res: Option<(Touched, nat)>)
    requires start <= |b|
    ensures ReadsAs(res, b, EntryParser(size)(b[start..]))
  {
    hide Decode, ParseCounted, ParseSerial, FromBigEndian;
    ParseBytesAt(b, start, 2);
    if |b| < start + 2 { return None; }
    ParseBytesAt(b, start + 2, 2);
    if |b| < start + 4 { return None; }
    var uSize := FromBigEndian(b[start + 2..start + 4]);
    ParseBytesAt(b, start + 4, uSize);
    if |b| < start + 4 + uSize { return None; }
    var ring := Deserialize(b[start + 4..start + 4 + uSize], size);
    if ring == None { return None; }
    var serials := ReadSerialList(b, start + 4 + uSize);
    if serials == None { return None; }
    return Some((Touched(ring.value, serials.value.0), serials.value.1));
  }

  /** The stored value, read. None is a ring that does not parse or a read past the end. */
  method ReadRecord(v: seq<byte>, size: SerialSize) returns (res: Option<seq<Touched>>)
    ensures res == (match ParseRecord(size, v) case None => None case Some((rings, _)) => Some(rings))
  {
    hide ParseEntry, FromBigEndian;
    assert v[0..] == v;
    ParseBytesAt(v, 0, 4);
    if |v| < 4 { return None; }
    ParseBytesAt(v, 4, 2);
    if |v| < 6 { return None; }
    var n, offset, rings := FromBigEndian(v[4..6]), 6, [];
    var i := 0;
    while i < n
      invariant 0 <= i <= n && 0 <= offset <= |v|
      invariant ParseAll(EntryParser(size), i, v[6..]) == Some((rings, v[offset..]))
    {
      var entry := ReadEntry(v, offset, size);
      if entry == None {
        assert ParseAll(EntryParser(size), i + 1, v[6..]) == None;
        ParseAllStuck(EntryParser(size), i + 1, n, v[6..]);
        return None;
      }
      rings := rings + [entry.value.0];
      offset := entry.value.1;
      i := i + 1;
    }
    return Some(rings);
  }

  datatype FetchError = ShortKey | NoEntry | BadRecord

  /** fetchBlockInput: the lookup by a block's height and hash, and the record. */
  method FetchBlockInput(bucket: map<seq<byte>, seq<byte>>, k: seq<byte>, size: SerialSize)
      returns (res: Result<seq<Touched>, FetchError>)
    ensures res == (if |k| < 32 then Err(ShortKey)
                    else if k !in bucket then Err(NoEntry)
                    else match ParseRecord(size, bucket[k]) case None => Err(BadRecord) case Some((rings, _)) => Ok(rings))
  {
    if |k| < 32 {
      return Err(ShortKey);
    }
    if k !in bucket {
      return Err(NoEntry);
    }
    var rings := ReadRecord(bucket[k], size);
    res := if rings.None? then Err(BadRecord) else Ok(rings.value);
  }

  // ----- lists of outpoints -----

  /** putBlockOutputs: the number of outpoints, then 33 bytes each. */
  function OutputsBytes(outs: seq<RingOut>): seq<byte> {
    BigEndian(|outs|, 4) + EncodeAll(EncodeOut, outs)
  }

  /** valueBlockDisabledCTAUTRootCoins: the record's length comes first. */
  function RootCoinsBytes(outs: seq<RingOut>): seq<byte> {
    BigEndian(8 + |outs| * (HASH_SIZE + 1), 4) + BigEndian(|outs|, 4) + EncodeAll(EncodeOut, outs)
  }

  /** What fetchBlockOutput reads: it checks the count only against being too large, in 32-bit
      arithmetic, and reads outpoints up to the end. None is its error, or a read past the
      end. */
  function OutputsOf(v: seq<byte>): Option<seq<RingOut>> {
    if v == [] then Some([])
    else if |v| < 4 || |v| < (4 + FromBigEndian(v[..4]) * 33) % 0x1_0000_0000 || (|v| - 4) % 33 != 0 then None
    else
      match ParseAll(ParseOut, (|v| - 4) / 33, v[4..])
      case None => None
      case Some((outs, _)) => Some(outs)
  }

  /** What fetchBlockDisabledCTAUTRootCoins reads: as many as the count says. */
  function RootCoinsOf(v: seq<byte>): Option<seq<RingOut>> {
    if v == [] then Some([])
    else if |v| < 8 then None
    else
      match ParseAll(ParseOut, FromBigEndian(v[4..8]), v[8..])
      case None => None
      case Some((outs, _)) => Some(outs)
  }

  method PutOutputs(outs: seq<RingOut>) returns (v: array<byte>)
    requires forall o <- outs :: |o.txHash| == HASH_SIZE
    ensures v[..] == OutputsBytes(outs)
  {
    UniformLength(EncodeOut, outs, 33);
    v := new byte[4 + |outs| * 33];
    var offset := Fill(v, 0, BigEndian(|outs|, 4));
    offset := FillAll(v, offset, EncodeOut, outs);
    assert v[..] == v[..offset];
  }

  method FetchBlockOutput(v: seq<byte>) returns (res: Option<seq<RingOut>>)
    ensures res == OutputsOf(v)
  {
    if v == [] { return Some([]); }
    if |v| < 4 || |v| < (4 + FromBigEndian(v[..4]) * 33) % 0x1_0000_0000 { return None; }
    var offset, outs: seq<RingOut> := 4, [];
    ghost var i: nat := 0;
    while offset < |v|
      invariant offset == 4 + 33 * i <= |v|
      invariant ParseAll(ParseOut, i, v[4..]) == Some((outs, v[offset..]))
    {
      if |v| < offset + 33 { return None; }
      ParseOutAt(v, offset);
      outs := outs + [RingOut(v[offset..offset + 32], v[offset + 32])];
      offset := offset + 33;
      i := i + 1;
    }
    assert (|v| - 4) / 33 == i && (|v| - 4) % 33 == 0;
    return Some(outs);
  }

  lemma OutsGive(outs: seq<RingOut>)
    requires forall o <- outs :: |o.txHash| == HASH_SIZE
    ensures ParseAll(ParseOut, |outs|, EncodeAll(EncodeOut, outs)) == Some((outs, []))
    ensures |EncodeAll(EncodeOut, outs)| == 33 * |outs|
  {
    forall o | o in outs
      ensures Inverse(EncodeOut, ParseOut, o)
    {
      OutInverse(o);
    }
    ListInverse(EncodeOut, ParseOut, outs, []);
    assert EncodeAll(EncodeOut, outs) + [] == EncodeAll(EncodeOut, outs);
    UniformLength(EncodeOut, outs, 33);
  }

  lemma WrappedCount(n: nat)
    ensures (4 + (n % 0x1_0000_0000) * 33) % 0x1_0000_0000 <= 4 + 33 * n
  {
  }

  /** A block's outputs come back however many they are: the wrapped count only has to be no
      larger than what is there. */
  lemma OutputsRoundTrip(outs: seq<RingOut>)
    requires forall o <- outs :: |o.txHash| == HASH_SIZE
    ensures OutputsOf(OutputsBytes(outs)) == Some(outs)
  {
    hide EncodeAll, BigEndian, FromBigEndian, ParseAll, ParseOut, EncodeOut;
    OutsGive(outs);
    var v, n := OutputsBytes(outs), |outs|;
    BigEndianModulo(n, 4);
    RangeValues();
    WrappedCount(n);
    assert v[..4] == BigEndian(n, 4) && v[4..] == EncodeAll(EncodeOut, outs);
    assert (|v| - 4) / 33 == n;
  }

  /** The disabled root coins come back exactly when their count fits 32 bits. */
  lemma RootCoinsRoundTrip(outs: seq<RingOut>)
    requires forall o <- outs :: |o.txHash| == HASH_SIZE
    ensures RootCoinsOf(RootCoinsBytes(outs)) == Some(outs) <==> |outs| < 0x1_0000_0000
  {
    hide EncodeAll, BigEndian, FromBigEndian, ParseAll, ParseOut, EncodeOut;
    OutsGive(outs);
    var v, n := RootCoinsBytes(outs), |outs|;
    BigEndianModulo(n, 4);
    RangeValues();
    assert v[4..8] == BigEndian(n, 4) && v[8..] == EncodeAll(EncodeOut, outs);
    ParseAllCount(ParseOut, n % 0x1_0000_0000, v[8..]);
  }
}
