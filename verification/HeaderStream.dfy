/** The byte stream that SerializeBlockHeader feeds to its hash, and how to read a header back from it. */
module HeaderStream {
  import opened GoInts
  import opened Digits
  import opened Bytes

  type uint32 = x: int | 0 <= x < 0x1_0000_0000
  type uint64 = x: int | 0 <= x < 0x1_0000_0000_0000_0000
  type int64 = x: int | -0x8000_0000_0000_0000 <= x < 0x8000_0000_0000_0000

  datatype Header = Header(
    version: uint32,
    parents: seq<seq<string>>,
    hashMerkleRoot: string,
    acceptedIDMerkleRoot: string,
    utxoCommitment: string,
    timestamp: int64,
    bits: uint32,
    nonce: uint64,
    daaScore: uint64,
    blueScore: uint64,
    blueWork: string,
    pruningPoint: string)

  // ---------- the stream ----------

  function HashesStream(hashes: seq<string>): seq<byte> {
    if hashes == [] then [] else HashesStream(hashes[..|hashes| - 1]) + HexDecode(hashes[|hashes| - 1])
  }

  function LevelStream(level: seq<string>): seq<byte> {
    LittleEndian(|level|, 8) + HashesStream(level)
  }

  function LevelsStream(levels: seq<seq<string>>): seq<byte> {
    if levels == [] then [] else LevelsStream(levels[..|levels| - 1]) + LevelStream(levels[|levels| - 1])
  }

  /** The fixed-size middle part: a zero timestamp and a zero nonce take the place of the real ones. */
  function PackedFields(h: Header): (b: seq<byte>)
    ensures |b| == 36
  {
    LittleEndian(0, 8) + LittleEndian(h.bits, 4) + LittleEndian(0, 8)
    + LittleEndian(h.daaScore, 8) + LittleEndian(h.blueScore, 8)
  }

  function PadToEven(s: string): (r: string)
    ensures |r| % 2 == 0
    ensures AllDigits(s, 16) ==> AllDigits(r, 16)
  {
    if |s| % 2 == 1 then "0" + s else s
  }

  function WorkBytes(h: Header): seq<byte> {
    HexDecode(PadToEven(h.blueWork))
  }

  function Stream(h: Header): seq<byte> {
    LittleEndian(h.version, 2) + LittleEndian(|h.parents|, 8) + LevelsStream(h.parents)
    + HexDecode(h.hashMerkleRoot) + HexDecode(h.acceptedIDMerkleRoot) + HexDecode(h.utxoCommitment)
    + PackedFields(h) + LittleEndian(|WorkBytes(h)|, 8) + WorkBytes(h) + HexDecode(h.pruningPoint)
  }

  /** The hash object: what it has absorbed so far. */
  class Hasher {
    var absorbed: seq<byte>

    constructor ()
      ensures absorbed == []
    {
      absorbed := [];
    }

    method Write(data: seq<byte>)
      modifies this
      ensures absorbed == old(absorbed) + data
    {
      absorbed := absorbed + data;
    }
  }

  method WriteHashes(hasher: Hasher, hashes: seq<string>)
    modifies hasher
    ensures hasher.absorbed == old(hasher.absorbed) + HashesStream(hashes)
  {
    for i := 0 to |hashes|
      invariant hasher.absorbed == old(hasher.absorbed) + HashesStream(hashes[..i])
    {
      hasher.Write(HexDecode(hashes[i]));
      assert hashes[..i + 1][..i] == hashes[..i];
    }
    assert hashes[..|hashes|] == hashes;
  }

  method WriteParents(hasher: Hasher, parents: seq<seq<string>>)
    modifies hasher
    ensures hasher.absorbed == old(hasher.absorbed) + LevelsStream(parents)
  {
    for i := 0 to |parents|
      invariant hasher.absorbed == old(hasher.absorbed) + LevelsStream(parents[..i])
    {
      hasher.Write(LittleEndian(|parents[i]|, 8));
      WriteHashes(hasher, parents[i]);
      assert parents[..i + 1][..i] == parents[..i];
    }
    assert parents[..|parents|] == parents;
  }

  method PadBlueWork(work: string) returns (bw: string)
    ensures bw == PadToEven(work)
    ensures bw == if |work| % 2 == 1 then "0" + work else work
  {
    bw := work;
    var padding := |bw| + |bw| % 2;
    while |bw| < padding
      invariant |bw| <= padding
      invariant bw == work || bw == PadToEven(work)
    {
      bw := "0" + bw;
    }
  }

  const HASH_SIZE: nat := 32

  type Digest = b: seq<byte> | |b| == HASH_SIZE witness LittleEndian(0, HASH_SIZE)

  /** Keyed BLAKE2b-256, of which only the length of the result matters here. */
  type Blake = seq<byte> -> Digest

  /** The header's digest. */
  method SerializeBlockHeader(h: Header, blake: Blake) returns (digest: Digest)
    ensures digest == blake(Stream(h))
  {
    var hasher := new Hasher();
    hasher.Write(LittleEndian(h.version, 2));
    assert hasher.absorbed == LittleEndian(h.version, 2);
    hasher.Write(LittleEndian(|h.parents|, 8));
    WriteParents(hasher, h.parents);
    hasher.Write(HexDecode(h.hashMerkleRoot));
    hasher.Write(HexDecode(h.acceptedIDMerkleRoot));
    hasher.Write(HexDecode(h.utxoCommitment));
    hasher.Write(PackedFields(h));
    var bw := PadBlueWork(h.blueWork);
    var hh := HexDecode(bw);
    hasher.Write(LittleEndian(|hh|, 8));
    hasher.Write(HexDecode(bw));
    hasher.Write(HexDecode(h.pruningPoint));
    digest := blake(hasher.absorbed);
  }

  // ---------- reading it back ----------

  /** What the stream determines about a header. */
  datatype Content = Content(
    version: nat,
    parents: seq<seq<seq<byte>>>,
    roots: seq<seq<byte>>,
    timestamp: nat,
    bits: nat,
    nonce: nat,
    daaScore: nat,
    blueScore: nat,
    blueWork: seq<byte>,
    pruningPoint: seq<byte>)

  datatype Read<T> = Got(value: T, rest: seq<byte>) | Truncated

  function ReadBytes(s: seq<byte>, n: nat): Read<seq<byte>> {
    if |s| < n then Truncated else Got(s[..n], s[n..])
  }

  function ReadInt(s: seq<byte>, width: nat): Read<nat> {
    if |s| < width then Truncated else Got(FromLittle(s[..width]), s[width..])
  }

  function ReadHashes(s: seq<byte>, n: nat): Read<seq<seq<byte>>> {
    if n == 0 then Got([], s)
    else
      match ReadHashes(s, n - 1)
      case Truncated => Truncated
      case Got(hashes, rest) =>
        match ReadBytes(rest, HASH_SIZE)
        case Truncated => Truncated
        case Got(hash, rest') => Got(hashes + [hash], rest')
  }

  function ReadLevel(s: seq<byte>): Read<seq<seq<byte>>> {
    match ReadInt(s, 8)
    case Truncated => Truncated
    case Got(n, rest) => ReadHashes(rest, n)
  }

  function ReadLevels(s: seq<byte>, n: nat): Read<seq<seq<seq<byte>>>> {
    if n == 0 then Got([], s)
    else
      match ReadLevels(s, n - 1)
      case Truncated => Truncated
      case Got(levels, rest) =>
        match ReadLevel(rest)
        case Truncated => Truncated
        case Got(level, rest') => Got(levels + [level], rest')
  }

  /** A reader for the part after the parents. */
  function ReadTail(version: nat, parents: seq<seq<seq<byte>>>, s: seq<byte>): Read<Content> {
    match ReadHashes(s, 3)
    case Truncated => Truncated
    case Got(roots, s1) =>
      match ReadBytes(s1, 36)
      case Truncated => Truncated
      case Got(packed, s2) =>
        match ReadInt(s2, 8)
        case Truncated => Truncated
        case Got(n, s3) =>
          match ReadBytes(s3, n)
          case Truncated => Truncated
          case Got(work, s4) =>
            match ReadBytes(s4, HASH_SIZE)
            case Truncated => Truncated
            case Got(pruning, s5) =>
              Got(Content(version, parents, roots, FromLittle(packed[0..8]), FromLittle(packed[8..12]),
                          FromLittle(packed[12..20]), FromLittle(packed[20..28]), FromLittle(packed[28..36]),
                          work, pruning), s5)
  }

  function ReadHeader(s: seq<byte>): Read<Content> {
    match ReadInt(s, 2)
    case Truncated => Truncated
    case Got(version, s1) =>
      match ReadInt(s1, 8)
      case Truncated => Truncated
      case Got(n, s2) =>
        match ReadLevels(s2, n)
        case Truncated => Truncated
        case Got(parents, s3) => ReadTail(version, parents, s3)
  }

  // ---------- well-formed headers ----------

  predicate IsHash(s: string) {
    |s| == 2 * HASH_SIZE && AllDigits(s, 16)
  }

  predicate IsLevel(level: seq<string>) {
    |level| < TWO_63 && forall i :: 0 <= i < |level| ==> IsHash(level[i])
  }

  /** Hashes of 64 hex digits and an all-hex blue work; every length is a Go int. */
  predicate WellFormed(h: Header) {
    && |h.parents| < TWO_63
    && (forall i :: 0 <= i < |h.parents| ==> IsLevel(h.parents[i]))
    && IsHash(h.hashMerkleRoot) && IsHash(h.acceptedIDMerkleRoot) && IsHash(h.utxoCommitment)
    && IsHash(h.pruningPoint)
    && |h.blueWork| < TWO_63 && AllDigits(h.blueWork, 16)
  }

  function DecodeHashes(hashes: seq<string>): (r: seq<seq<byte>>)
    ensures |r| == |hashes|
    ensures forall i :: 0 <= i < |hashes| ==> r[i] == HexDecode(hashes[i])
  {
    seq(|hashes|, i requires 0 <= i < |hashes| => HexDecode(hashes[i]))
  }

  function DecodeLevels(levels: seq<seq<string>>): (r: seq<seq<seq<byte>>>)
    ensures |r| == |levels|
    ensures forall i :: 0 <= i < |levels| ==> r[i] == DecodeHashes(levels[i])
  {
    seq(|levels|, i requires 0 <= i < |levels| => DecodeHashes(levels[i]))
  }

  function ContentOf(h: Header): Content {
    Content(
      h.version % 0x1_0000,
      DecodeLevels(h.parents),
      DecodeHashes([h.hashMerkleRoot, h.acceptedIDMerkleRoot, h.utxoCommitment]),
      0, h.bits, 0, h.daaScore, h.blueScore,
      HexDecode(PadToEven(h.blueWork)),
      HexDecode(h.pruningPoint))
  }

  lemma ReadIntBack(n: nat, width: nat, rest: seq<byte>)
    requires n < Pow(256, width)
    ensures ReadInt(LittleEndian(n, width) + rest, width) == Got(n, rest)
  {
    var b := LittleEndian(n, width);
    LittleRoundTrip(n, width);
    assert (b + rest)[..width] == b && (b + rest)[width..] == rest;
    QuotientRemainder(n, Pow(256, width), 0, n);
  }

  lemma EightBytes()
    ensures Pow(256, 8) == TWO_64 && Pow(256, 4) == 0x1_0000_0000 && Pow(256, 2) == 0x1_0000
  {
    PowAdd(256, 4, 4);
  }

  lemma {:induction false} ReadHashesBack(hashes: seq<string>, rest: seq<byte>)
    requires forall i :: 0 <= i < |hashes| ==> IsHash(hashes[i])
    ensures ReadHashes(HashesStream(hashes) + rest, |hashes|) == Got(DecodeHashes(hashes), rest)
  {
    if hashes == [] {
      assert HashesStream(hashes) + rest == rest;
    } else {
      var init, last := hashes[..|hashes| - 1], HexDecode(hashes[|hashes| - 1]);
      HexDecodeLength(hashes[|hashes| - 1]);
      ReadHashesBack(init, last + rest);
      Regroup(HashesStream(init), last, rest);
      assert (last + rest)[..HASH_SIZE] == last && (last + rest)[HASH_SIZE..] == rest;
      hide HexDecode;
      assert DecodeHashes(hashes) == DecodeHashes(init) + [last];
    }
  }

  lemma ReadLevelBack(level: seq<string>, rest: seq<byte>)
    requires IsLevel(level)
    ensures ReadLevel(LevelStream(level) + rest) == Got(DecodeHashes(level), rest)
  {
    EightBytes();
    assert LevelStream(level) + rest == LittleEndian(|level|, 8) + (HashesStream(level) + rest);
    ReadIntBack(|level|, 8, HashesStream(level) + rest);
    ReadHashesBack(level, rest);
  }

  lemma ReadLevelsStep(s: seq<byte>, n: nat, levels: seq<seq<seq<byte>>>, mid: seq<byte>,
                       level: seq<seq<byte>>, rest: seq<byte>)
    requires n > 0
    requires ReadLevels(s, n - 1) == Got(levels, mid) && ReadLevel(mid) == Got(level, rest)
    ensures ReadLevels(s, n) == Got(levels + [level], rest)
  {
  }

  lemma {:induction false} ReadLevelsBack(levels: seq<seq<string>>, rest: seq<byte>)
    requires forall i :: 0 <= i < |levels| ==> IsLevel(levels[i])
    ensures ReadLevels(LevelsStream(levels) + rest, |levels|) == Got(DecodeLevels(levels), rest)
  {
    if levels == [] {
      assert LevelsStream(levels) + rest == rest;
    } else {
      var init, last := levels[..|levels| - 1], levels[|levels| - 1];
      var mid := LevelStream(last) + rest;
      ReadLevelsBack(init, mid);
      ReadLevelBack(last, rest);
      Regroup(LevelsStream(init), LevelStream(last), rest);
      ReadLevelsStep(LevelsStream(levels) + rest, |levels|, DecodeLevels(init), mid, DecodeHashes(last), rest);
      DecodeLevelsStep(levels);
    }
  }

  lemma Regroup(a: seq<byte>, b: seq<byte>, c: seq<byte>)
    ensures a + b + c == a + (b + c)
  {
  }

  lemma DecodeLevelsStep(levels: seq<seq<string>>)
    requires levels != []
    ensures var n := |levels| - 1; DecodeLevels(levels) == DecodeLevels(levels[..n]) + [DecodeHashes(levels[n])]
  {
  }

  lemma PackedSlices(ts: seq<byte>, bits: seq<byte>, nonce: seq<byte>, daaScore: seq<byte>, blueScore: seq<byte>)
    requires |ts| == |nonce| == |daaScore| == |blueScore| == 8 && |bits| == 4
    ensures var p := ts + bits + nonce + daaScore + blueScore;
            p[0..8] == ts && p[8..12] == bits && p[12..20] == nonce && p[20..28] == daaScore && p[28..36] == blueScore
  {
  }

  lemma IntBack(n: nat, width: nat)
    requires n < Pow(256, width)
    ensures FromLittle(LittleEndian(n, width)) == n
  {
    LittleRoundTrip(n, width);
    QuotientRemainder(n, Pow(256, width), 0, n);
  }

  lemma PackedBack(h: Header)
    ensures var p := PackedFields(h);
            && FromLittle(p[0..8]) == 0
            && FromLittle(p[8..12]) == h.bits
            && FromLittle(p[12..20]) == 0
            && FromLittle(p[20..28]) == h.daaScore
            && FromLittle(p[28..36]) == h.blueScore
  {
    hide LittleEndian, FromLittle, Pow;
    EightBytes();
    PackedSlices(LittleEndian(0, 8), LittleEndian(h.bits, 4), LittleEndian(0, 8),
                 LittleEndian(h.daaScore, 8), LittleEndian(h.blueScore, 8));
    IntBack(0, 8);
    IntBack(h.bits, 4);
    IntBack(h.daaScore, 8);
    IntBack(h.blueScore, 8);
  }

  /** The part of the stream after the parents. */
  function Tail(h: Header): seq<byte> {
    HashesStream([h.hashMerkleRoot, h.acceptedIDMerkleRoot, h.utxoCommitment])
    + PackedFields(h) + LittleEndian(|WorkBytes(h)|, 8) + WorkBytes(h) + HexDecode(h.pruningPoint)
  }

  lemma ReadTailStep(version: nat, parents: seq<seq<seq<byte>>>, s: seq<byte>,
                     roots: seq<seq<byte>>, s1: seq<byte>, packed: seq<byte>, s2: seq<byte>,
                     n: nat, s3: seq<byte>, work: seq<byte>, s4: seq<byte>, pruning: seq<byte>, s5: seq<byte>)
    requires ReadHashes(s, 3) == Got(roots, s1) && ReadBytes(s1, 36) == Got(packed, s2)
    requires ReadInt(s2, 8) == Got(n, s3) && ReadBytes(s3, n) == Got(work, s4)
    requires ReadBytes(s4, HASH_SIZE) == Got(pruning, s5)
    ensures |packed| == 36
    ensures ReadTail(version, parents, s)
         == Got(Content(version, parents, roots, FromLittle(packed[0..8]), FromLittle(packed[8..12]),
                        FromLittle(packed[12..20]), FromLittle(packed[20..28]), FromLittle(packed[28..36]),
                        work, pruning), s5)
  {
    hide ReadHashes, FromLittle;
  }

  lemma ReadBytesBack(b: seq<byte>, rest: seq<byte>)
    ensures ReadBytes(b + rest, |b|) == Got(b, rest)
  {
    assert (b + rest)[..|b|] == b && (b + rest)[|b|..] == rest;
  }

  lemma TailParts(h: Header)
    ensures Tail(h) == HashesStream([h.hashMerkleRoot, h.acceptedIDMerkleRoot, h.utxoCommitment])
                    + (PackedFields(h) + (LittleEndian(|WorkBytes(h)|, 8) + (WorkBytes(h) + HexDecode(h.pruningPoint))))
  {
    hide HashesStream, PackedFields, LittleEndian, WorkBytes, HexDecode;
    var r := HashesStream([h.hashMerkleRoot, h.acceptedIDMerkleRoot, h.utxoCommitment]);
    var p, l, w, q := PackedFields(h), LittleEndian(|WorkBytes(h)|, 8), WorkBytes(h), HexDecode(h.pruningPoint);
    Regroup(r + p + l, w, q);
    Regroup(r + p, l, w + q);
    Regroup(r, p, l + (w + q));
  }

  lemma ReadTailBack(h: Header, version: nat, parents: seq<seq<seq<byte>>>)
    requires WellFormed(h)
    ensures ReadTail(version, parents, Tail(h))
         == Got(ContentOf(h).(version := version, parents := parents), [])
  {
    hide ReadTail, ReadHashes, ReadInt, ReadBytes, HashesStream, PackedFields, LittleEndian, FromLittle, Tail, HexDecode;
    var roots := [h.hashMerkleRoot, h.acceptedIDMerkleRoot, h.utxoCommitment];
    var packed, work, pruning := PackedFields(h), WorkBytes(h), HexDecode(h.pruningPoint);
    var s4 := pruning + [];
    var s3 := work + pruning;
    var s2 := LittleEndian(|work|, 8) + s3;
    var s1 := packed + s2;
    TailParts(h);
    ReadHashesBack(roots, s1);
    ReadBytesBack(packed, s2);
    EightBytes();
    ReadIntBack(|work|, 8, s3);
    ReadBytesBack(work, pruning);
    HexDecodeLength(h.pruningPoint);
    ReadBytesBack(pruning, []);
    assert s4 == pruning;
    PackedBack(h);
    ReadTailStep(version, parents, Tail(h), DecodeHashes(roots), s1, packed, s2, |work|, s3, work, pruning, pruning, []);
  }

  lemma ThreeRoots(a: string, b: string, c: string)
    ensures HashesStream([a, b, c]) == HexDecode(a) + HexDecode(b) + HexDecode(c)
  {
    assert [a, b, c][..2] == [a, b] && [a, b][..1] == [a] && [a][..0] == [];
    assert HashesStream([]) == [];
    assert HashesStream([a]) == HashesStream([]) + HexDecode(a) == HexDecode(a);
    assert HashesStream([a, b]) == HashesStream([a]) + HexDecode(b);
  }

  lemma StreamParts(h: Header)
    ensures Stream(h) == LittleEndian(h.version, 2) + (LittleEndian(|h.parents|, 8) + (LevelsStream(h.parents) + Tail(h)))
  {
    ThreeRoots(h.hashMerkleRoot, h.acceptedIDMerkleRoot, h.utxoCommitment);
    RegroupStream(
      LittleEndian(h.version, 2), LittleEndian(|h.parents|, 8), LevelsStream(h.parents),
      HexDecode(h.hashMerkleRoot), HexDecode(h.acceptedIDMerkleRoot), HexDecode(h.utxoCommitment),
      PackedFields(h), LittleEndian(|WorkBytes(h)|, 8), WorkBytes(h), HexDecode(h.pruningPoint));
  }

  lemma RegroupStream(a: seq<byte>, b: seq<byte>, c: seq<byte>, r1: seq<byte>, r2: seq<byte>, r3: seq<byte>,
                      p: seq<byte>, l: seq<byte>, w: seq<byte>, q: seq<byte>)
    ensures a + b + c + r1 + r2 + r3 + p + l + w + q == a + (b + (c + (r1 + r2 + r3 + p + l + w + q)))
  {
    var abc, r := a + b + c, r1 + r2 + r3;
    assert abc + r1 + r2 + r3 == abc + r;
    Regroup(abc, r, p);
    Regroup(abc, r + p, l);
    Regroup(abc, r + p + l, w);
    Regroup(abc, r + p + l + w, q);
    var tail := r + p + l + w + q;
    Regroup(a + b, c, tail);
    Regroup(a, b, c + tail);
  }

  lemma ReadHeaderStep(s: seq<byte>, version: nat, s1: seq<byte>, n: nat, s2: seq<byte>,
                       parents: seq<seq<seq<byte>>>, s3: seq<byte>)
    requires ReadInt(s, 2) == Got(version, s1) && ReadInt(s1, 8) == Got(n, s2)
    requires ReadLevels(s2, n) == Got(parents, s3)
    ensures ReadHeader(s) == ReadTail(version, parents, s3)
  {
  }

  /** The stream of a well-formed header reads back, to its last byte, as that header's content. */
  lemma StreamDecodes(h: Header)
    requires WellFormed(h)
    ensures ReadHeader(Stream(h)) == Got(ContentOf(h), [])
  {
    EightBytes();
    var afterCount := LevelsStream(h.parents) + Tail(h);
    var afterVersion := LittleEndian(|h.parents|, 8) + afterCount;
    var version := LittleEndian(h.version, 2);
    StreamParts(h);
    LittleRoundTrip(h.version, 2);
    assert Stream(h)[..2] == version && Stream(h)[2..] == afterVersion;
    ReadIntBack(|h.parents|, 8, afterCount);
    ReadLevelsBack(h.parents, Tail(h));
    ReadHeaderStep(Stream(h), h.version % 0x1_0000, afterVersion, |h.parents|, afterCount,
                   DecodeLevels(h.parents), Tail(h));
    ReadTailBack(h, h.version % 0x1_0000, DecodeLevels(h.parents));
  }

  // ---------- what the fields say ----------

  /** Padding keeps the number that is written, and an even text altogether. */
  lemma PadToEvenMeaning(s: string)
    requires AllDigits(s, 16)
    ensures AllDigits(PadToEven(s), 16) && Value(PadToEven(s), 16) == Value(s, 16)
    ensures |PadToEven(s)| == 2 * ((|s| + 1) / 2)
    ensures |s| % 2 == 0 ==> PadToEven(s) == s
  {
    if |s| % 2 == 1 {
      assert "0" == Zeros(1);
      ZerosValue(1, 16);
      ValueConcat("0", s, 16);
    }
  }

  /** The bytes are the number that the hex text writes, in as many bytes as its digits need. */
  predicate Writes(b: seq<byte>, s: string)
    requires AllDigits(s, 16)
  {
    |b| == (|s| + 1) / 2 && FromBig(b) == Value(s, 16)
  }

  lemma DecodedHash(s: string)
    requires IsHash(s)
    ensures Writes(HexDecode(s), s)
  {
    HexDecodeValue(s);
  }

  lemma DecodedWork(s: string)
    requires AllDigits(s, 16)
    ensures Writes(HexDecode(PadToEven(s)), s)
  {
    PadToEvenMeaning(s);
    HexDecodeValue(PadToEven(s));
  }

  /** What is read back from a well-formed header's stream: every field's own number, and zeros for timestamp and nonce. */
  lemma StreamFields(h: Header)
    requires WellFormed(h)
    ensures ReadHeader(Stream(h)).Got? && ReadHeader(Stream(h)).rest == []
    ensures var c := ReadHeader(Stream(h)).value;
            && c.version == h.version % 0x1_0000 && c.bits == h.bits
            && c.timestamp == 0 && c.nonce == 0
            && c.daaScore == h.daaScore && c.blueScore == h.blueScore
            && |c.roots| == 3
            && Writes(c.roots[0], h.hashMerkleRoot)
            && Writes(c.roots[1], h.acceptedIDMerkleRoot)
            && Writes(c.roots[2], h.utxoCommitment)
            && Writes(c.blueWork, h.blueWork) && Writes(c.pruningPoint, h.pruningPoint)
    ensures var c := ReadHeader(Stream(h)).value;
            && |c.parents| == |h.parents|
            && forall i :: 0 <= i < |h.parents| ==> LevelWritten(c.parents[i], h.parents[i])
  {
    hide ReadHeader, Stream, HexDecode, Writes;
    StreamDecodes(h);
    DecodedHash(h.hashMerkleRoot);
    DecodedHash(h.acceptedIDMerkleRoot);
    DecodedHash(h.utxoCommitment);
    DecodedHash(h.pruningPoint);
    DecodedWork(h.blueWork);
    forall i | 0 <= i < |h.parents|
      ensures LevelWritten(DecodeLevels(h.parents)[i], h.parents[i])
    {
      LevelIsWritten(h.parents[i]);
    }
  }

  predicate LevelWritten(hashes: seq<seq<byte>>, level: seq<string>) {
    |hashes| == |level| && forall j :: 0 <= j < |level| ==> AllDigits(level[j], 16) && Writes(hashes[j], level[j])
  }

  lemma LevelIsWritten(level: seq<string>)
    requires IsLevel(level)
    ensures LevelWritten(DecodeHashes(level), level)
  {
    forall j | 0 <= j < |level|
      ensures AllDigits(level[j], 16) && Writes(DecodeHashes(level)[j], level[j])
    {
      assert IsHash(level[j]);
      DecodedHash(level[j]);
    }
  }

  // ---------- what the stream identifies ----------

  predicate SameHashes(a: seq<string>, b: seq<string>) {
    |a| == |b| && forall i :: 0 <= i < |a| ==> Fold(a[i]) == Fold(b[i])
  }

  predicate SameLevels(a: seq<seq<string>>, b: seq<seq<string>>) {
    |a| == |b| && forall i :: 0 <= i < |a| ==> SameHashes(a[i], b[i])
  }

  /** Equal apart from timestamp, nonce, high version bits, hex letter case and one leading zero of an odd blue work. */
  predicate SameBlock(a: Header, b: Header) {
    && a.version % 0x1_0000 == b.version % 0x1_0000
    && SameLevels(a.parents, b.parents)
    && Fold(a.hashMerkleRoot) == Fold(b.hashMerkleRoot)
    && Fold(a.acceptedIDMerkleRoot) == Fold(b.acceptedIDMerkleRoot)
    && Fold(a.utxoCommitment) == Fold(b.utxoCommitment)
    && a.bits == b.bits && a.daaScore == b.daaScore && a.blueScore == b.blueScore
    && Fold(PadToEven(a.blueWork)) == Fold(PadToEven(b.blueWork))
    && Fold(a.pruningPoint) == Fold(b.pruningPoint)
  }

  lemma HashesAgree(a: seq<string>, b: seq<string>)
    requires IsLevel(a) && IsLevel(b)
    ensures DecodeHashes(a) == DecodeHashes(b) <==> SameHashes(a, b)
  {
    if |a| == |b| {
      forall i | 0 <= i < |a|
        ensures DecodeHashes(a)[i] == DecodeHashes(b)[i] <==> Fold(a[i]) == Fold(b[i])
      {
        HexDecodeInjective(a[i], b[i]);
      }
    } else {
      assert |DecodeHashes(a)| != |DecodeHashes(b)|;
    }
  }

  lemma LevelsAgree(a: seq<seq<string>>, b: seq<seq<string>>)
    requires forall i :: 0 <= i < |a| ==> IsLevel(a[i])
    requires forall i :: 0 <= i < |b| ==> IsLevel(b[i])
    ensures DecodeLevels(a) == DecodeLevels(b) <==> SameLevels(a, b)
  {
    if |a| == |b| {
      forall i | 0 <= i < |a|
        ensures DecodeLevels(a)[i] == DecodeLevels(b)[i] <==> SameHashes(a[i], b[i])
      {
        HashesAgree(a[i], b[i]);
      }
    } else {
      assert |DecodeLevels(a)| != |DecodeLevels(b)|;
    }
  }

  lemma RootsAgree(a: Header, b: Header)
    requires WellFormed(a) && WellFormed(b)
    ensures DecodeHashes([a.hashMerkleRoot, a.acceptedIDMerkleRoot, a.utxoCommitment])
         == DecodeHashes([b.hashMerkleRoot, b.acceptedIDMerkleRoot, b.utxoCommitment])
       <==> Fold(a.hashMerkleRoot) == Fold(b.hashMerkleRoot)
            && Fold(a.acceptedIDMerkleRoot) == Fold(b.acceptedIDMerkleRoot)
            && Fold(a.utxoCommitment) == Fold(b.utxoCommitment)
  {
    hide Fold, HexDecode, DecodeHashes;
    var ra := [a.hashMerkleRoot, a.acceptedIDMerkleRoot, a.utxoCommitment];
    var rb := [b.hashMerkleRoot, b.acceptedIDMerkleRoot, b.utxoCommitment];
    HashesAgree(ra, rb);
    assert SameHashes(ra, rb) <==>
        Fold(ra[0]) == Fold(rb[0]) && Fold(ra[1]) == Fold(rb[1]) && Fold(ra[2]) == Fold(rb[2]);
  }

  lemma ContentAgrees(a: Header, b: Header)
    requires WellFormed(a) && WellFormed(b)
    ensures ContentOf(a) == ContentOf(b) <==> SameBlock(a, b)
  {
    hide Fold, HexDecode, PadToEven, SameLevels, DecodeLevels, DecodeHashes;
    LevelsAgree(a.parents, b.parents);
    RootsAgree(a, b);
    HexDecodeInjective(PadToEven(a.blueWork), PadToEven(b.blueWork));
    HexDecodeInjective(a.pruningPoint, b.pruningPoint);
  }

  lemma LittleEndianMod(n: nat, m: nat, width: nat)
    requires n % Pow(256, width) == m % Pow(256, width)
    ensures LittleEndian(n, width) == LittleEndian(m, width)
  {
    LittleRoundTrip(n, width);
    LittleRoundTrip(m, width);
    LittleInverse(LittleEndian(n, width));
    LittleInverse(LittleEndian(m, width));
  }

  lemma {:induction false} SameHashesStream(a: seq<string>, b: seq<string>)
    requires DecodeHashes(a) == DecodeHashes(b)
    ensures HashesStream(a) == HashesStream(b)
  {
    assert |DecodeHashes(a)| == |a| == |b|;
    if a != [] {
      var n := |a| - 1;
      assert DecodeHashes(a)[n] == DecodeHashes(b)[n];
      assert DecodeHashes(a[..n]) == DecodeHashes(a)[..n] == DecodeHashes(b[..n]);
      SameHashesStream(a[..n], b[..n]);
    }
  }

  lemma {:induction false} SameLevelsStream(a: seq<seq<string>>, b: seq<seq<string>>)
    requires DecodeLevels(a) == DecodeLevels(b)
    ensures LevelsStream(a) == LevelsStream(b)
  {
    assert |DecodeLevels(a)| == |a| == |b|;
    if a != [] {
      hide LevelStream, HashesStream, LittleEndian, HexDecode, DecodeHashes, DecodeLevels;
      var n := |a| - 1;
      SameLevelsParts(a, b);
      SameLevelsStream(a[..n], b[..n]);
    }
  }

  lemma SameLevelsParts(a: seq<seq<string>>, b: seq<seq<string>>)
    requires DecodeLevels(a) == DecodeLevels(b) && a != []
    ensures |a| == |b|
    ensures var n := |a| - 1; LevelStream(a[n]) == LevelStream(b[n]) && DecodeLevels(a[..n]) == DecodeLevels(b[..n])
  {
    hide HashesStream, LittleEndian, HexDecode;
    assert |DecodeLevels(a)| == |a| == |b|;
    var n := |a| - 1;
    assert DecodeLevels(a)[n] == DecodeLevels(b)[n];
    assert |DecodeHashes(a[n])| == |DecodeHashes(b[n])|;
    SameHashesStream(a[n], b[n]);
    assert DecodeLevels(a[..n]) == DecodeLevels(a)[..n] == DecodeLevels(b[..n]);
  }

  /** The content determines the stream, for any header whatever. */
  lemma ContentDeterminesStream(a: Header, b: Header)
    requires ContentOf(a) == ContentOf(b)
    ensures Stream(a) == Stream(b)
  {
    EightBytes();
    LittleEndianMod(a.version, b.version, 2);
    assert |DecodeLevels(a.parents)| == |DecodeLevels(b.parents)|;
    SameLevelsStream(a.parents, b.parents);
    var ra := DecodeHashes([a.hashMerkleRoot, a.acceptedIDMerkleRoot, a.utxoCommitment]);
    var rb := DecodeHashes([b.hashMerkleRoot, b.acceptedIDMerkleRoot, b.utxoCommitment]);
    assert ra[0] == rb[0] && ra[1] == rb[1] && ra[2] == rb[2];
  }

  /** Two well-formed headers have the same stream if and only if they are the same block. */
  lemma StreamIdentifiesBlock(a: Header, b: Header)
    requires WellFormed(a) && WellFormed(b)
    ensures Stream(a) == Stream(b) <==> SameBlock(a, b)
  {
    ContentAgrees(a, b);
    if Stream(a) == Stream(b) {
      StreamDecodes(a);
      StreamDecodes(b);
    } else if SameBlock(a, b) {
      ContentDeterminesStream(a, b);
    }
  }

  lemma FoldedDigits(s: string, t: string)
    requires Fold(s) == Fold(t) && AllDigits(t, 16)
    ensures |s| == |t| && AllDigits(s, 16)
  {
    assert |Fold(s)| == |Fold(t)|;
    forall i | 0 <= i < |s|
      ensures DigitValue(s[i]) < 16
    {
      assert Fold(s)[i] == Fold(t)[i];
      assert DigitValue(t[i]) < 16;
    }
  }

  lemma FoldedWork(s: string, t: string)
    requires Fold(PadToEven(s)) == Fold(PadToEven(t)) && AllDigits(t, 16)
    ensures AllDigits(s, 16)
  {
    FoldedDigits(PadToEven(s), PadToEven(t));
    if |s| % 2 == 1 {
      assert forall i :: 0 <= i < |s| ==> s[i] == ("0" + s)[i + 1];
    }
  }

  lemma FoldedLevels(a: seq<seq<string>>, b: seq<seq<string>>)
    requires SameLevels(a, b) && forall i :: 0 <= i < |b| ==> IsLevel(b[i])
    ensures |a| == |b| && forall i :: 0 <= i < |a| ==> IsLevel(a[i])
  {
    forall i, j | 0 <= i < |a| && 0 <= j < |a[i]|
      ensures |a[i]| == |b[i]| && IsHash(a[i][j])
    {
      assert SameHashes(a[i], b[i]) && IsHash(b[i][j]);
      FoldedDigits(a[i][j], b[i][j]);
    }
    forall i | 0 <= i < |a|
      ensures IsLevel(a[i])
    {
      assert SameHashes(a[i], b[i]) && IsLevel(b[i]);
    }
  }

  /** A header that is the same block as a well-formed one is well-formed. */
  lemma SameBlockWellFormed(a: Header, b: Header)
    requires WellFormed(b) && SameBlock(a, b) && |a.blueWork| < TWO_63
    ensures WellFormed(a)
  {
    hide Fold, PadToEven, SameLevels, AllDigits, IsLevel;
    FoldedLevels(a.parents, b.parents);
    FoldedDigits(a.hashMerkleRoot, b.hashMerkleRoot);
    FoldedDigits(a.acceptedIDMerkleRoot, b.acceptedIDMerkleRoot);
    FoldedDigits(a.utxoCommitment, b.utxoCommitment);
    FoldedDigits(a.pruningPoint, b.pruningPoint);
    FoldedWork(a.blueWork, b.blueWork);
  }

  /** A header that shares the stream of a well-formed block is that block if and only if it is well-formed itself. */
  lemma SharedStreamIsSameBlock(a: Header, b: Header)
    requires WellFormed(b) && Stream(a) == Stream(b) && |a.blueWork| < TWO_63
    ensures SameBlock(a, b) <==> WellFormed(a)
  {
    hide Stream, SameBlock, WellFormed;
    if WellFormed(a) {
      StreamIdentifiesBlock(a, b);
    }
    if SameBlock(a, b) {
      SameBlockWellFormed(a, b);
    }
  }

  /** Without well-formed hashes this fails: a hash that is not hex is dropped like an empty one. */
  lemma MalformedHashesCollide(h: Header)
    ensures var a, b := h.(pruningPoint := ""), h.(pruningPoint := "zz");
            Stream(a) == Stream(b) && !SameBlock(a, b)
  {
    assert DigitValue("zz"[0]) >= 16;
    assert |Fold("")| != |Fold("zz")|;
  }
}
