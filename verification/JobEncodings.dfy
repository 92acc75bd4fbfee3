/** The two forms in which a job's 32 header bytes reach a miner. */
module JobEncodings {
  import opened GoInts
  import opened Digits
  import opened Bytes

  const WORDS: nat := 4
  const HEADER_SIZE: nat := 32

  function Word(header: seq<byte>, i: nat): seq<byte>
    requires 8 * i + 8 <= |header|
  {
    header[8 * i..8 * i + 8]
  }

  /** The little-endian words of the header. */
  function JobWords(header: seq<byte>): (words: seq<nat>)
    requires |header| >= HEADER_SIZE
    ensures |words| == WORDS
    ensures forall i :: 0 <= i < WORDS ==> words[i] == FromLittle(Word(header, i))
  {
    seq(WORDS, i requires 0 <= i < WORDS => FromLittle(Word(header, i)))
  }

  /** What a miner does with the words: lay them out as bytes again. */
  function WordsToBytes(words: seq<nat>): seq<byte> {
    if words == [] then [] else WordsToBytes(words[..|words| - 1]) + LittleEndian(words[|words| - 1], 8)
  }

  /** big.Int.SetString(s, 16) followed by Uint64 on a string of hex digits. */
  function Reparse(s: string): (v: nat)
    requires AllDigits(s, 16)
  {
    Value(s, 16) % TWO_64
  }

  lemma WordBound(b: seq<byte>)
    requires |b| == 8
    ensures FromLittle(b) < TWO_64 && FromBig(b) < TWO_64
  {
    PowAdd(256, 4, 4);
    FromLittleBound(b);
    FromBigBound(b);
  }

  /** Printing a word in hex and reading it back changes nothing. */
  lemma ReparsedWord(header: seq<byte>, i: nat)
    requires |header| >= HEADER_SIZE && i < WORDS
    ensures Reparse(Print(FromLittle(Word(header, i)), 16)) == FromLittle(Word(header, i))
  {
    WordBound(Word(header, i));
  }

  method GenerateJobHeader(header: seq<byte>) returns (final: seq<nat>)
    requires |header| >= HEADER_SIZE
    ensures final == JobWords(header)
  {
    hide FromLittle, Print, Value;
    var ids := [];
    ids := ids + [FromLittle(header[0..8])];
    ids := ids + [FromLittle(header[8..16])];
    ids := ids + [FromLittle(header[16..24])];
    ids := ids + [FromLittle(header[24..32])];
    assert ids == JobWords(header);
    final := [];
    for i := 0 to |ids|
      invariant final == ids[..i]
    {
      var asHex := Print(ids[i], 16);
      ReparsedWord(header, i);
      final := final + [Reparse(asHex)];
    }
  }

  function LargeForm(header: seq<byte>, timestamp: nat): string
    requires |header| >= HEADER_SIZE
  {
    PrintPadded(FromBig(header[0..8]), 16, 16)
    + PrintPadded(FromBig(header[8..16]), 16, 16)
    + PrintPadded(FromBig(header[16..24]), 16, 16)
    + PrintPadded(FromBig(header[24..32]), 16, 16)
    + PrintPadded(FromLittle(BigEndian(timestamp, 8)), 16, 16)
  }

  method GenerateLargeJobParams(header: seq<byte>, timestamp: nat) returns (str: string)
    requires |header| >= HEADER_SIZE
    ensures str == LargeForm(header, timestamp)
  {
    var timestampBytes := BigEndian(timestamp, 8);
    var ids := [];
    ids := ids + [FromBig(header[0..8])];
    ids := ids + [FromBig(header[8..16])];
    ids := ids + [FromBig(header[16..24])];
    ids := ids + [FromBig(header[24..32])];
    ids := ids + [FromLittle(timestampBytes)];
    str := PrintPadded(ids[0], 16, 16) + PrintPadded(ids[1], 16, 16) + PrintPadded(ids[2], 16, 16)
    + PrintPadded(ids[3], 16, 16) + PrintPadded(ids[4], 16, 16);
  }

  /** The four words lay out as exactly the header's 32 bytes. */
  lemma WordsInvert(header: seq<byte>)
    requires |header| >= HEADER_SIZE
    ensures WordsToBytes(JobWords(header)) == header[..HEADER_SIZE]
  {
    NoWords(header);
    hide JobWords, WordsToBytes;
    WordsStep(header, 0);
    WordsStep(header, 1);
    WordsStep(header, 2);
    WordsStep(header, 3);
    assert JobWords(header)[..4] == JobWords(header);
  }

  lemma NoWords(header: seq<byte>)
    requires |header| >= HEADER_SIZE
    ensures WordsToBytes(JobWords(header)[..0]) == header[..0]
  {
  }

  lemma LastWord(words: seq<nat>, word: nat)
    ensures WordsToBytes(words + [word]) == WordsToBytes(words) + LittleEndian(word, 8)
  {
    assert (words + [word])[..|words|] == words;
  }

  lemma NextBytes(header: seq<byte>, from: nat, to: nat)
    requires from <= to <= |header|
    ensures header[..from] + header[from..to] == header[..to]
  {
  }

  lemma WordsStep(header: seq<byte>, i: nat)
    requires |header| >= HEADER_SIZE && i < WORDS
    requires WordsToBytes(JobWords(header)[..i]) == header[..8 * i]
    ensures WordsToBytes(JobWords(header)[..i + 1]) == header[..8 * i + 8]
  {
    hide JobWords, WordsToBytes, FromLittle, LittleEndian, Word;
    var words, word := JobWords(header), Word(header, i);
    WordIs(header, i);
    LittleInverse(word);
    NextWord(words, i);
    LastWord(words[..i], words[i]);
    NextBytes(header, 8 * i, 8 * i + 8);
  }

  lemma WordIs(header: seq<byte>, i: nat)
    requires 8 * i + 8 <= |header|
    ensures Word(header, i) == header[8 * i..8 * i + 8] && |Word(header, i)| == 8
  {
  }

  lemma NextWord(words: seq<nat>, i: nat)
    requires i < |words|
    ensures words[..i + 1] == words[..i] + [words[i]]
  {
  }

  /** One printed word: 16 hex digits that decode to the 8 bytes it was read from. */
  lemma BigWordText(b: seq<byte>)
    requires |b| == 8
    ensures var s := PrintPadded(FromBig(b), 16, 16); |s| == 16 && AllDigits(s, 16) && HexDecode(s) == b
  {
    FromBigBound(b);
    PrintedWord(FromBig(b), 8);
    BigInverse(b);
  }

  /** Reading big-endian bytes little-endian first prints them in little-endian order. */
  lemma TimestampText(timestamp: nat)
    ensures var s := PrintPadded(FromLittle(BigEndian(timestamp, 8)), 16, 16);
            |s| == 16 && AllDigits(s, 16) && HexDecode(s) == LittleEndian(timestamp, 8)
  {
    var b := BigEndian(timestamp, 8);
    BigIsReversedLittle(timestamp, 8);
    FromLittleReversed(b);
    assert Reverse(b) == LittleEndian(timestamp, 8);
    BigWordText(Reverse(b));
  }

  lemma HexTextConcat(s: string, t: string)
    requires AllDigits(s, 16) && AllDigits(t, 16) && |s| % 2 == 0
    ensures AllDigits(s + t, 16) && HexDecode(s + t) == HexDecode(s) + HexDecode(t)
  {
    ValueConcat(s, t, 16);
    HexDecodeConcat(s, t);
  }

  predicate IsWordText(s: string) {
    |s| == 16 && AllDigits(s, 16)
  }

  lemma FiveWords(a: string, b: string, c: string, d: string, t: string)
    requires IsWordText(a) && IsWordText(b) && IsWordText(c) && IsWordText(d) && IsWordText(t)
    ensures var s := a + b + c + d + t;
            && |s| == 80 && AllDigits(s, 16) && s[64..] == t
            && HexDecode(s[..64]) == HexDecode(a) + HexDecode(b) + HexDecode(c) + HexDecode(d)
  {
    HexTextConcat(a, b);
    HexTextConcat(a + b, c);
    HexTextConcat(a + b + c, d);
    HexTextConcat(a + b + c + d, t);
    assert (a + b + c + d + t)[..64] == a + b + c + d;
  }

  /** The large form is 80 hex digits: 64 for the header bytes, then 16 for the little-endian timestamp. */
  lemma LargeFormDecodes(header: seq<byte>, timestamp: nat)
    requires |header| >= HEADER_SIZE
    ensures var s := LargeForm(header, timestamp);
            && |s| == 80 && AllDigits(s, 16)
            && HexDecode(s[..64]) == header[..HEADER_SIZE]
            && HexDecode(s[64..]) == LittleEndian(timestamp, 8)
  {
    hide PrintPadded, FromBig, FromLittle, BigEndian, LittleEndian, HexDecode, AllDigits;
    BigWordText(header[0..8]);
    BigWordText(header[8..16]);
    BigWordText(header[16..24]);
    BigWordText(header[24..32]);
    TimestampText(timestamp);
    FiveWords(
      PrintPadded(FromBig(header[0..8]), 16, 16), PrintPadded(FromBig(header[8..16]), 16, 16),
      PrintPadded(FromBig(header[16..24]), 16, 16), PrintPadded(FromBig(header[24..32]), 16, 16),
      PrintPadded(FromLittle(BigEndian(timestamp, 8)), 16, 16));
    assert header[..HEADER_SIZE] == header[0..8] + header[8..16] + header[16..24] + header[24..32];
  }

  /** Both forms of a job say the same 32 bytes. */
  lemma FormsAgree(header: seq<byte>, timestamp: nat)
    requires |header| >= HEADER_SIZE
    ensures HexDecode(LargeForm(header, timestamp)[..64]) == WordsToBytes(JobWords(header))
  {
    WordsInvert(header);
    LargeFormDecodes(header, timestamp);
  }
}
