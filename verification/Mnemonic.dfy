/** The 24-word mnemonic of a 32-byte seed (internal/prompt/mnemonic.go): the seed and one
    checksum byte are cut into 11-bit word indexes, and back. */
module Mnemonic {
  import opened Wrappers

  const SEED_LENGTH: nat := 32

  // ----- packing: 11 bytes are 8 indexes -----

  function Word0(b0: bv8, b1: bv8): bv16 { (b0 as bv16 << 3) | (b1 as bv16 >> 5) }

  function Word1(b0: bv8, b1: bv8): bv16 { ((b0 & 0x1F) as bv16 << 6) | (b1 as bv16 >> 2) }

  function Word2(b0: bv8, b1: bv8, b2: bv8): bv16 { ((b0 & 0x3) as bv16 << 9) | (b1 as bv16 << 1) | (b2 as bv16 >> 7) }

  function Word3(b0: bv8, b1: bv8): bv16 { ((b0 & 0x7F) as bv16 << 4) | (b1 as bv16 >> 4) }

  function Word4(b0: bv8, b1: bv8): bv16 { ((b0 & 0xF) as bv16 << 7) | (b1 as bv16 >> 1) }

  function Word5(b0: bv8, b1: bv8, b2: bv8): bv16 { ((b0 & 0x1) as bv16 << 10) | (b1 as bv16 << 2) | (b2 as bv16 >> 6) }

  function Word6(b0: bv8, b1: bv8): bv16 { ((b0 & 0x3F) as bv16 << 5) | (b1 as bv16 >> 3) }

  function Word7(b0: bv8, b1: bv8): bv16 { ((b0 & 0x7) as bv16 << 8) | (b1 as bv16) }

  function Pack(b: seq<bv8>): (w: seq<bv16>)
    requires |b| == 11
    ensures |w| == 8
  {
    [ Word0(b[0], b[1]),
      Word1(b[1], b[2]),
      Word2(b[2], b[3], b[4]),
      Word3(b[4], b[5]),
      Word4(b[5], b[6]),
      Word5(b[6], b[7], b[8]),
      Word6(b[8], b[9]),
      Word7(b[9], b[10]) ]
  }

  /** byte(x): the low eight bits. */
  function Low8(x: bv16): bv8 { (x & 0xFF) as bv8 }

  function Unpack(w: seq<bv16>): (b: seq<bv8>)
    requires |w| == 8
    ensures |b| == 11
  {
    [ Low8((w[0] & 0x7F8) >> 3),
      Low8((w[0] & 0x7) << 5) | Low8((w[1] & 0x7C0) >> 6),
      Low8((w[1] & 0x3F) << 2) | Low8((w[2] & 0x600) >> 9),
      Low8((w[2] & 0x1FE) >> 1),
      Low8((w[2] & 0x1) << 7) | Low8((w[3] & 0x7F0) >> 4),
      Low8((w[3] & 0xF) << 4) | Low8((w[4] & 0x780) >> 7),
      Low8((w[4] & 0x7F) << 1) | Low8((w[5] & 0x400) >> 10),
      Low8((w[5] & 0x3FC) >> 2),
      Low8((w[5] & 0x3) << 6) | Low8((w[6] & 0x7E0) >> 5),
      Low8((w[6] & 0x1F) << 3) | Low8((w[7] & 0x700) >> 8),
      Low8(w[7] & 0xFF) ]
  }

  lemma UnpackPack(b: seq<bv8>)
    requires |b| == 11
    ensures Unpack(Pack(b)) == b
    ensures forall i :: 0 <= i < 8 ==> Pack(b)[i] < 2048
  {
  }

  lemma PackUnpack(w: seq<bv16>)
    requires |w| == 8 && forall i :: 0 <= i < 8 ==> w[i] < 2048
    ensures Pack(Unpack(w)) == w
  {
  }

  // ----- whole lists -----

  function PackAll(b: seq<bv8>): seq<bv16>
    requires |b| % 11 == 0
  {
    if b == [] then [] else Pack(b[..11]) + PackAll(b[11..])
  }

  function UnpackAll(w: seq<bv16>): seq<bv8>
    requires |w| % 8 == 0
  {
    if w == [] then [] else Unpack(w[..8]) + UnpackAll(w[8..])
  }

  /** MAIN RESULT on the bits: unpacking undoes packing for every whole number of groups. */
  lemma {:induction false} UnpackAllPackAll(b: seq<bv8>)
    requires |b| % 11 == 0
    ensures |PackAll(b)| == |b| / 11 * 8
    ensures forall i :: 0 <= i < |PackAll(b)| ==> PackAll(b)[i] < 2048
    ensures UnpackAll(PackAll(b)) == b
    decreases |b|
  {
    if b != [] {
      UnpackAllPackAll(b[11..]);
      UnpackPack(b[..11]);
      var w := PackAll(b);
      assert w[..8] == Pack(b[..11]) && w[8..] == PackAll(b[11..]);
      assert b == b[..11] + b[11..];
    }
  }

  lemma {:induction false} PackAllUnpackAll(w: seq<bv16>)
    requires |w| % 8 == 0 && forall i :: 0 <= i < |w| ==> w[i] < 2048
    ensures |UnpackAll(w)| == |w| / 8 * 11
    ensures PackAll(UnpackAll(w)) == w
    decreases |w|
  {
    if w != [] {
      PackAllUnpackAll(w[8..]);
      PackUnpack(w[..8]);
      var b := UnpackAll(w);
      assert b[..11] == Unpack(w[..8]) && b[11..] == UnpackAll(w[8..]);
      assert w == w[..8] + w[8..];
    }
  }

  // ----- what an index is -----

  /** Bit t of a byte, the most significant one first. */
  function ByteMask(t: nat): bv8 {
    if t == 0 then 0x80 else if t == 1 then 0x40 else if t == 2 then 0x20 else if t == 3 then 0x10
    else if t == 4 then 0x08 else if t == 5 then 0x04 else if t == 6 then 0x02 else 0x01
  }

  predicate ByteBit(x: bv8, t: nat) { x & ByteMask(t) != 0 }

  /** Bit j of an 11-bit index, the most significant one first. */
  function IndexMask(j: nat): bv16 {
    if j == 0 then 0x400 else if j == 1 then 0x200 else if j == 2 then 0x100 else if j == 3 then 0x080
    else if j == 4 then 0x040 else if j == 5 then 0x020 else if j == 6 then 0x010 else if j == 7 then 0x008
    else if j == 8 then 0x004 else if j == 9 then 0x002 else 0x001
  }

  predicate IndexBit(w: bv16, j: nat) { w & IndexMask(j) != 0 }

  // Word by word, with the bytes it is cut from.

  lemma Word0Bit(b0: bv8, b1: bv8, j: nat)
    requires j < 11
    ensures IndexBit(Word0(b0, b1), j) <==> (if j < 8 then ByteBit(b0, j) else ByteBit(b1, j - 8))
  {
  }

  lemma Word1Bit(b0: bv8, b1: bv8, j: nat)
    requires j < 11
    ensures IndexBit(Word1(b0, b1), j) <==> (if j < 5 then ByteBit(b0, j + 3) else ByteBit(b1, j - 5))
  {
  }

  lemma Word2Bit(b0: bv8, b1: bv8, b2: bv8, j: nat)
    requires j < 11
    ensures IndexBit(Word2(b0, b1, b2), j) <==> (if j < 2 then ByteBit(b0, j + 6) else if j < 10 then ByteBit(b1, j - 2) else ByteBit(b2, j - 10))
  {
    if j < 2 {
    } else if j < 10 {
    } else {
    }
  }

  lemma Word3Bit(b0: bv8, b1: bv8, j: nat)
    requires j < 11
    ensures IndexBit(Word3(b0, b1), j) <==> (if j < 7 then ByteBit(b0, j + 1) else ByteBit(b1, j - 7))
  {
  }

  lemma Word4Bit(b0: bv8, b1: bv8, j: nat)
    requires j < 11
    ensures IndexBit(Word4(b0, b1), j) <==> (if j < 4 then ByteBit(b0, j + 4) else ByteBit(b1, j - 4))
  {
  }

  lemma Word5Bit(b0: bv8, b1: bv8, b2: bv8, j: nat)
    requires j < 11
    ensures IndexBit(Word5(b0, b1, b2), j) <==> (if j < 1 then ByteBit(b0, j + 7) else if j < 9 then ByteBit(b1, j - 1) else ByteBit(b2, j - 9))
  {
    if j < 1 {
    } else if j < 9 {
    } else {
    }
  }

  lemma Word6Bit(b0: bv8, b1: bv8, j: nat)
    requires j < 11
    ensures IndexBit(Word6(b0, b1), j) <==> (if j < 6 then ByteBit(b0, j + 2) else ByteBit(b1, j - 6))
  {
  }

  lemma Word7Bit(b0: bv8, b1: bv8, j: nat)
    requires j < 11
    ensures IndexBit(Word7(b0, b1), j) <==> (if j < 3 then ByteBit(b0, j + 5) else ByteBit(b1, j - 3))
  {
  }

  /** MAIN RESULT on the format. The bits of 11 bytes, in order, are those of their 8 indexes. */
  lemma PackBit(b: seq<bv8>, n: nat)
    requires |b| == 11 && n < 88
    ensures IndexBit(Pack(b)[n / 11], n % 11) <==> ByteBit(b[n / 8], n % 8)
  {
    hide ByteBit, IndexBit, Word0, Word1, Word2, Word3, Word4, Word5, Word6, Word7;
    if n < 44 {
      FrontBit(b, n);
    } else {
      BackBit(b, n);
    }
  }

  lemma FrontBit(b: seq<bv8>, n: nat)
    requires |b| == 11 && n < 44
    ensures IndexBit(Pack(b)[n / 11], n % 11) <==> ByteBit(b[n / 8], n % 8)
  {
    hide ByteBit, IndexBit, Word0, Word1, Word2, Word3, Word4, Word5, Word6, Word7;
    if n < 11 {
      Word0Bit(b[0], b[1], n);
    } else if n < 22 {
      Word1Bit(b[1], b[2], n - 11);
    } else if n < 33 {
      Word2Bit(b[2], b[3], b[4], n - 22);
    } else {
      Word3Bit(b[4], b[5], n - 33);
    }
  }

  lemma BackBit(b: seq<bv8>, n: nat)
    requires |b| == 11 && 44 <= n < 88
    ensures IndexBit(Pack(b)[n / 11], n % 11) <==> ByteBit(b[n / 8], n % 8)
  {
    hide ByteBit, IndexBit, Word0, Word1, Word2, Word3, Word4, Word5, Word6, Word7;
    if n < 55 {
      Word4Bit(b[5], b[6], n - 44);
    } else if n < 66 {
      Word5Bit(b[6], b[7], b[8], n - 55);
    } else if n < 77 {
      Word6Bit(b[8], b[9], n - 66);
    } else {
      Word7Bit(b[9], b[10], n - 77);
    }
  }

  // ----- words -----

  /** The bits of whole groups of bytes are those of their indexes. */
  lemma {:induction false} PackAllBit(b: seq<bv8>, n: nat)
    requires |b| % 11 == 0 && n < 8 * |b|
    ensures |PackAll(b)| == |b| / 11 * 8
    ensures IndexBit(PackAll(b)[n / 11], n % 11) <==> ByteBit(b[n / 8], n % 8)
    decreases |b|
  {
    hide Pack, ByteBit, IndexBit;
    UnpackAllPackAll(b);
    var rest := PackAll(b[11..]);
    assert PackAll(b) == Pack(b[..11]) + rest;
    if n < 88 {
      PackBit(b[..11], n);
    } else {
      PackAllBit(b[11..], n - 88);
      assert (n - 88) / 11 == n / 11 - 8 && (n - 88) % 11 == n % 11;
      assert (n - 88) / 8 == n / 8 - 11 && (n - 88) % 8 == n % 8;
    }
  }

  /** The double hash, whose first byte is the checksum, and strings.TrimSpace. */
  datatype Library = Library(hash: seq<bv8> -> seq<bv8>, trim: string -> string)

  /** Words with their indexes, all below 2048. */
  type Index = map<string, bv16>

  ghost predicate Indexes2048(index: Index) {
    forall w <- index :: (index[w] as int) < 2048
  }

  /** A word list of 2048 different words that need no trimming, and its inverse map. */
  ghost predicate Dictionary(list: seq<string>, index: Index, lib: Library) {
    |list| == 2048 && Indexes2048(index)
    && (forall i: bv16 :: (i as int) < 2048 ==> IsWord(list, index, lib, i))
    && (forall w <- index :: list[index[w] as int] == w)
    && (forall b :: |lib.hash(b)| >= 1)
  }

  predicate IsWord(list: seq<string>, index: Index, lib: Library, i: bv16)
    requires (i as int) < |list|
  {
    var w := list[i as int]; w in index && index[w] == i && lib.trim(w) == w
  }

  function WordsAt(w: seq<bv16>, list: seq<string>): seq<string>
    requires forall i :: 0 <= i < |w| ==> (w[i] as int) < |list|
  {
    seq(|w|, i requires 0 <= i < |w| => list[w[i] as int])
  }

  /** A word that is not in the map is looked up as 0, like any missing key. */
  function LookUp(word: string, index: Index, lib: Library): bv16 {
    var w := lib.trim(word);
    if w in index then index[w] else 0
  }

  function Checksummed(seed: seq<bv8>, lib: Library): seq<bv8>
    requires |lib.hash(seed)| >= 1
  {
    seed + lib.hash(seed)[..1]
  }

  /** None when the bytes do not divide into groups of 11. */
  ghost function SeedToWords(seed: seq<bv8>, list: seq<string>, lib: Library): Option<seq<string>>
    requires |list| == 2048 && |lib.hash(seed)| >= 1
  {
    if (|seed| + 1) % 11 != 0 then None
    else
      UnpackAllPackAll(Checksummed(seed, lib));
      SmallWords(PackAll(Checksummed(seed, lib)));
      Some(WordsAt(PackAll(Checksummed(seed, lib)), list))
  }

  lemma SmallWords(w: seq<bv16>)
    requires forall i :: 0 <= i < |w| ==> w[i] < 2048
    ensures forall i :: 0 <= i < |w| ==> (w[i] as int) < 2048
  {
  }

  function Indexes(words: seq<string>, index: Index, lib: Library): seq<bv16> {
    seq(|words|, i requires 0 <= i < |words| => LookUp(words[i], index, lib))
  }

  /** None for a list that does not divide into groups of 8, has the wrong length, or fails
      the checksum. */
  function WordsToSeed(words: seq<string>, index: Index, lib: Library): Option<seq<bv8>>
    requires Indexes2048(index)
    requires forall b :: |lib.hash(b)| >= 1
  {
    if |words| % 8 != 0 then None
    else
      var bytes := UnpackAll(Indexes(words, index, lib));
      if |bytes| != SEED_LENGTH + 1 then None
      else if lib.hash(bytes[..SEED_LENGTH])[..1] != bytes[SEED_LENGTH..] then None
      else Some(bytes[..SEED_LENGTH])
  }

  // ----- the loops -----

  lemma {:induction false} PackAppend(b: seq<bv8>, group: seq<bv8>)
    requires |b| % 11 == 0 && |group| == 11
    ensures PackAll(b + group) == PackAll(b) + Pack(group)
    decreases |b|
  {
    hide Pack;
    if b == [] {
      assert b + group == group && group[..11] == group && group[11..] == [];
    } else {
      PackAppend(b[11..], group);
      assert (b + group)[..11] == b[..11] && (b + group)[11..] == b[11..] + group;
    }
  }

  lemma {:induction false} UnpackAppend(w: seq<bv16>, group: seq<bv16>)
    requires |w| % 8 == 0 && |group| == 8
    ensures UnpackAll(w + group) == UnpackAll(w) + Unpack(group)
    decreases |w|
  {
    hide Unpack;
    if w == [] {
      assert w + group == group && group[..8] == group && group[8..] == [];
    } else {
      UnpackAppend(w[8..], group);
      assert (w + group)[..8] == w[..8] && (w + group)[8..] == w[8..] + group;
    }
  }

  method AppendWords(res: seq<string>, group: seq<bv16>, list: seq<string>) returns (r: seq<string>)
    requires forall i :: 0 <= i < |group| ==> (group[i] as int) < |list|
    ensures r == res + WordsAt(group, list)
  {
    r := res;
    var k := 0;
    while k < |group|
      invariant 0 <= k <= |group|
      invariant r == res + WordsAt(group, list)[..k]
    {
      r := r + [list[group[k] as int]];
      k := k + 1;
    }
  }

  method ConvertSeed(seed: seq<bv8>, list: seq<string>, lib: Library) returns (r: Option<seq<string>>)
    requires |list| == 2048 && |lib.hash(seed)| >= 1
    ensures r == SeedToWords(seed, list, lib)
  {
    hide Pack, Unpack;
    var tmp := seed + lib.hash(seed)[..1];
    ghost var indexes: seq<bv16> := [];
    var res: seq<string> := [];
    var pos := 0;
    while pos < |tmp|
      invariant 0 <= pos <= |tmp| && pos % 11 == 0
      invariant indexes == PackAll(tmp[..pos])
      invariant forall i :: 0 <= i < |indexes| ==> (indexes[i] as int) < |list|
      invariant res == WordsAt(indexes, list)
    {
      if pos + 10 >= |tmp| {
        return None;
      }
      var bytes := tmp[pos..pos + 11];
      PackAppend(tmp[..pos], bytes);
      assert tmp[..pos + 11] == tmp[..pos] + bytes;
      UnpackPack(bytes);
      SmallWords(Pack(bytes));
      res := AppendWords(res, Pack(bytes), list);
      indexes := indexes + Pack(bytes);
      pos := pos + 11;
    }
    assert tmp[..pos] == tmp == Checksummed(seed, lib);
    r := Some(res);
  }

  method LookUpAll(words: seq<string>, index: Index, lib: Library) returns (indexes: seq<bv16>)
    requires Indexes2048(index)
    ensures indexes == Indexes(words, index, lib)
  {
    indexes := [];
    var i := 0;
    while i < |words|
      invariant 0 <= i <= |words|
      invariant indexes == Indexes(words, index, lib)[..i]
    {
      indexes := indexes + [LookUp(words[i], index, lib)];
      i := i + 1;
    }
  }

  method ConvertWords(words: seq<string>, index: Index, lib: Library) returns (r: Option<seq<bv8>>)
    requires Indexes2048(index)
    requires forall b :: |lib.hash(b)| >= 1
    ensures r == WordsToSeed(words, index, lib)
  {
    hide Pack, Unpack;
    var indexes := LookUpAll(words, index, lib);
    var res: seq<bv8> := [];
    var pos := 0;
    while pos < |indexes|
      invariant 0 <= pos <= |indexes| && pos % 8 == 0
      invariant res == UnpackAll(indexes[..pos])
    {
      if pos + 7 >= |indexes| {
        return None;
      }
      UnpackAppend(indexes[..pos], indexes[pos..pos + 8]);
      assert indexes[..pos + 8] == indexes[..pos] + indexes[pos..pos + 8];
      res := res + Unpack(indexes[pos..pos + 8]);
      pos := pos + 8;
    }
    assert indexes[..pos] == indexes;
    if |res| != SEED_LENGTH + 1 {
      return None;
    }
    if lib.hash(res[..SEED_LENGTH])[..1] != res[SEED_LENGTH..] {
      return None;
    }
    r := Some(res[..SEED_LENGTH]);
  }

  // ----- round trips -----

  lemma LookUpListed(w: seq<bv16>, list: seq<string>, index: Index, lib: Library)
    requires Dictionary(list, index, lib)
    requires forall i :: 0 <= i < |w| ==> (w[i] as int) < 2048
    ensures Indexes(WordsAt(w, list), index, lib) == w
  {
    forall i | 0 <= i < |w|
      ensures Indexes(WordsAt(w, list), index, lib)[i] == w[i]
    {
      assert IsWord(list, index, lib, w[i]);
    }
  }

  /** MAIN RESULT. Every 32-byte seed comes back from its words. */
  lemma SeedRoundTrip(seed: seq<bv8>, list: seq<string>, index: Index, lib: Library)
    requires Dictionary(list, index, lib) && |seed| == SEED_LENGTH
    ensures SeedToWords(seed, list, lib).Some?
    ensures var words := SeedToWords(seed, list, lib).value;
            |words| == 24 && WordsToSeed(words, index, lib) == Some(seed)
  {
    var bytes := Checksummed(seed, lib);
    UnpackAllPackAll(bytes);
    SmallWords(PackAll(bytes));
    LookUpListed(PackAll(bytes), list, index, lib);
    assert bytes[..SEED_LENGTH] == seed && bytes[SEED_LENGTH..] == lib.hash(seed)[..1];
  }

  lemma LookUpSmall(word: string, index: Index, lib: Library)
    requires Indexes2048(index)
    ensures (LookUp(word, index, lib) as int) < 2048
  {
  }

  /** MAIN RESULT on the words. Word k of a seed is the list's word whose index has, as its 11
      bits, bits 11 * k to 11 * k + 10 of the seed followed by the first byte of its hash. */
  lemma SeedWordBits(seed: seq<bv8>, list: seq<string>, index: Index, lib: Library, n: nat)
    requires Dictionary(list, index, lib) && |seed| == SEED_LENGTH && n < 264
    ensures SeedToWords(seed, list, lib).Some?
    ensures var words := SeedToWords(seed, list, lib).value;
            && |words| == 24 && words[n / 11] in index
            && list[index[words[n / 11]] as int] == words[n / 11]
            && (IndexBit(index[words[n / 11]], n % 11) <==> ByteBit((seed + [lib.hash(seed)[0]])[n / 8], n % 8))
  {
    hide IndexBit, ByteBit, PackAll;
    var bytes := seed + [lib.hash(seed)[0]];
    assert bytes == Checksummed(seed, lib);
    UnpackAllPackAll(bytes);
    var w := PackAll(bytes);
    SmallWords(w);
    PackAllBit(bytes, n);
    assert IsWord(list, index, lib, w[n / 11]);
  }

  /** The words a list stands for: each one trimmed, and word 0 in place of an unknown one. */
  ghost function Normalised(words: seq<string>, list: seq<string>, index: Index, lib: Library): seq<string>
    requires |list| == 2048 && Indexes2048(index)
  {
    AllSmall(words, index, lib);
    WordsAt(Indexes(words, index, lib), list)
  }

  lemma AllSmall(words: seq<string>, index: Index, lib: Library)
    requires Indexes2048(index)
    ensures forall i :: 0 <= i < |words| ==> (Indexes(words, index, lib)[i] as int) < 2048
  {
    forall i | 0 <= i < |words|
      ensures (Indexes(words, index, lib)[i] as int) < 2048
    {
      LookUpSmall(words[i], index, lib);
    }
  }

  /** One word of the list is its own normal form, and no other word is. */
  lemma NormalWord(word: string, list: seq<string>, index: Index, lib: Library)
    requires Dictionary(list, index, lib)
    ensures (LookUp(word, index, lib) as int) < 2048
    ensures list[LookUp(word, index, lib) as int] == word <==> word in list
  {
    LookUpSmall(word, index, lib);
    if word in list {
      var i :| 0 <= i < |list| && list[i] == word;
      ListedIsIndexed(list, index, lib, i);
    }
  }

  lemma ListedIsIndexed(list: seq<string>, index: Index, lib: Library, i: int)
    requires Dictionary(list, index, lib) && 0 <= i < 2048
    ensures list[i] in index && (index[list[i]] as int) == i && lib.trim(list[i]) == list[i]
  {
    var k := IndexAt(i);
    assert IsWord(list, index, lib, k);
  }

  /** Every number below 2048 is an index. */
  lemma {:induction false} IndexAt(i: int) returns (k: bv16)
    requires 0 <= i < 2048
    ensures (k as int) == i
    decreases i
  {
    if i == 0 {
      k := 0;
    } else {
      var j := IndexAt(i - 1);
      NextIndex(j);
      k := j + 1;
    }
  }

  lemma NextIndex(j: bv16)
    requires (j as int) < 2047
    ensures ((j + 1) as int) == (j as int) + 1
  {
  }

  lemma NormalFormIff(words: seq<string>, list: seq<string>, index: Index, lib: Library)
    requires Dictionary(list, index, lib)
    ensures Normalised(words, list, index, lib) == words <==> forall w <- words :: w in list
  {
    AllSmall(words, index, lib);
    var n := Normalised(words, list, index, lib);
    forall i | 0 <= i < |words|
      ensures n[i] == words[i] <==> words[i] in list
    {
      NormalWord(words[i], list, index, lib);
    }
    if n == words {
      forall x | x in words
        ensures x in list
      {
        var i :| 0 <= i < |words| && words[i] == x;
        assert n[i] == words[i];
      }
    }
  }

  /** As bit vectors the indexes are below 2048 too. */
  lemma SmallBits(x: bv16)
    ensures x < 2048 <==> (x as int) < 2048
  {
  }

  /** Conversely, the seed of an accepted list gives back the list's normal form. It is the
      list itself exactly when all its words are words of the dictionary: an accepted list
      may contain unknown words, which count as word 0. */
  lemma WordsRoundTrip(words: seq<string>, list: seq<string>, index: Index, lib: Library)
    requires Dictionary(list, index, lib) && WordsToSeed(words, index, lib).Some?
    ensures var seed := WordsToSeed(words, index, lib).value;
            && |words| == 24 && |seed| == SEED_LENGTH
            && SeedToWords(seed, list, lib) == Some(Normalised(words, list, index, lib))
            && (SeedToWords(seed, list, lib) == Some(words) <==> forall w <- words :: w in list)
  {
    var w := Indexes(words, index, lib);
    AllSmall(words, index, lib);
    forall i | 0 <= i < |w|
      ensures w[i] < 2048
    {
      SmallBits(w[i]);
    }
    PackAllUnpackAll(w);
    var bytes := UnpackAll(w);
    assert Checksummed(bytes[..SEED_LENGTH], lib) == bytes;
    NormalFormIff(words, list, index, lib);
  }

  /** Looking a word up: it is trimmed first, and one that is unknown then counts as word 0. */
  lemma LookUpMeans(word: string, list: seq<string>, index: Index, lib: Library)
    requires Dictionary(list, index, lib)
    ensures (LookUp(word, index, lib) as int) < 2048
    ensures list[LookUp(word, index, lib) as int] == if lib.trim(word) in list then lib.trim(word) else list[0]
  {
    LookUpSmall(word, index, lib);
    if lib.trim(word) in list {
      var i :| 0 <= i < |list| && list[i] == lib.trim(word);
      ListedIsIndexed(list, index, lib, i);
    }
    assert lib.trim(word) in index ==> list[index[lib.trim(word)] as int] == lib.trim(word);
  }

  /** MAIN RESULT on acceptance. A list is accepted, and as this seed, exactly when its normal
      form is that of the seed's own words. */
  lemma AcceptedExactly(words: seq<string>, seed: seq<bv8>, list: seq<string>, index: Index, lib: Library)
    requires Dictionary(list, index, lib)
    ensures WordsToSeed(words, index, lib) == Some(seed)
            <==> |seed| == SEED_LENGTH && SeedToWords(seed, list, lib) == Some(Normalised(words, list, index, lib))
  {
    if WordsToSeed(words, index, lib) == Some(seed) {
      WordsRoundTrip(words, list, index, lib);
    }
    if |seed| == SEED_LENGTH && SeedToWords(seed, list, lib) == Some(Normalised(words, list, index, lib)) {
      SeedRoundTrip(seed, list, index, lib);
      AllSmall(words, index, lib);
      LookUpListed(Indexes(words, index, lib), list, index, lib);
    }
  }

  /** Such lists exist: wherever a seed's words use word 0, any string unknown to the
      dictionary can stand in its place, and the list is still accepted as the same seed. */
  lemma UnknownWordAccepted(seed: seq<bv8>, list: seq<string>, index: Index, lib: Library, k: nat, stranger: string)
    requires Dictionary(list, index, lib) && |seed| == SEED_LENGTH
    requires SeedToWords(seed, list, lib).Some? && k < |SeedToWords(seed, list, lib).value|
    requires SeedToWords(seed, list, lib).value[k] == list[0]
    requires lib.trim(stranger) !in index
    ensures WordsToSeed(SeedToWords(seed, list, lib).value[k := stranger], index, lib) == Some(seed)
    ensures stranger !in list
  {
    hide UnpackAll, PackAll;
    SeedRoundTrip(seed, list, index, lib);
    var words := SeedToWords(seed, list, lib).value;
    ListedIsIndexed(list, index, lib, 0);
    ZeroIndex(index[list[0]]);
    assert Indexes(words[k := stranger], index, lib) == Indexes(words, index, lib) by {
      forall i | 0 <= i < |words|
        ensures LookUp(words[k := stranger][i], index, lib) == LookUp(words[i], index, lib)
      {
      }
    }
    if stranger in list {
      var i :| 0 <= i < |list| && list[i] == stranger;
      ListedIsIndexed(list, index, lib, i);
      assert false;
    }
  }

  /** For instance in the words of the seed that is all zeros. */
  lemma UnknownWordExample(list: seq<string>, index: Index, lib: Library, stranger: string)
    requires Dictionary(list, index, lib) && lib.trim(stranger) !in index
    ensures var seed: seq<bv8> := seq(SEED_LENGTH, _ => 0);
            && SeedToWords(seed, list, lib).Some?
            && |SeedToWords(seed, list, lib).value| == 24
            && WordsToSeed(SeedToWords(seed, list, lib).value[0 := stranger], index, lib) == Some(seed)
            && stranger !in list
  {
    var seed: seq<bv8> := seq(SEED_LENGTH, _ => 0);
    SeedRoundTrip(seed, list, index, lib);
    FirstWordOfZeros(Checksummed(seed, lib));
    UnknownWordAccepted(seed, list, index, lib, 0, stranger);
  }

  lemma FirstWordOfZeros(b: seq<bv8>)
    requires |b| >= 11 && |b| % 11 == 0 && b[0] == 0 && b[1] == 0
    ensures |PackAll(b)| > 0 && (PackAll(b)[0] as int) == 0
  {
    assert PackAll(b)[0] == Pack(b[..11])[0];
    ZeroBits(b[0], b[1]);
  }

  lemma ZeroBits(x: bv8, y: bv8)
    requires x == 0 && y == 0
    ensures (((x as bv16 << 3) | (y as bv16 >> 5)) as int) == 0
  {
  }

  lemma ZeroIndex(x: bv16)
    ensures (x as int) == 0 ==> x == 0
  {
  }
}
