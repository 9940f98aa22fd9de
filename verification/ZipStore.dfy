/**
  The store-only ZIP writer of the `.deck` packer (assets/deck-kit/deck-export.js).

  ZipFormat states the three records in the field order of sections 4.3.7,
  4.3.12 and 4.3.16 of PKWARE's APPNOTE.TXT, and gives an independent reader
  that starts at the end record.  ZipStore is the program's writer: header
  buffers filled at fixed offsets, and a running offset.
*/
module ZipFormat {
  import opened Wrappers
  import Crc32

  /** One file: its encoded name and its bytes. */
  datatype Entry = Entry(name: seq<bv8>, data: seq<bv8>)

  const LOCAL_SIGNATURE: nat := 0x04034b50
  const CENTRAL_SIGNATURE: nat := 0x02014b50
  const END_SIGNATURE: nat := 0x06054b50

  const WORD_LIMIT: nat := 0x1_0000
  const LONG_LIMIT: nat := 0x1_0000_0000

  // ----- bytes and numbers ----------------------------------------------------------

  function ByteOf(bits: seq<bool>): bv8
    requires |bits| == 8
  {
    (if bits[0] then 1 else 0) | (if bits[1] then 2 else 0) | (if bits[2] then 4 else 0) | (if bits[3] then 8 else 0)
    | (if bits[4] then 16 else 0) | (if bits[5] then 32 else 0) | (if bits[6] then 64 else 0)
    | (if bits[7] then 128 else 0)
  }

  lemma ByteOfBits(bits: seq<bool>)
    requires |bits| == 8
    ensures Crc32.ByteBits(ByteOf(bits)) == bits
  {
  }

  /** The low eight bits of a number. */
  function Byte(n: nat): bv8 {
    ByteOf(LowBits(n))
  }

  function LowBits(n: nat): (r: seq<bool>)
    ensures |r| == 8
  {
    var h1 := n / 2;
    var h2 := h1 / 2;
    var h3 := h2 / 2;
    var h4 := h3 / 2;
    var h5 := h4 / 2;
    var h6 := h5 / 2;
    var h7 := h6 / 2;
    [n % 2 == 1, h1 % 2 == 1, h2 % 2 == 1, h3 % 2 == 1, h4 % 2 == 1, h5 % 2 == 1, h6 % 2 == 1, h7 % 2 == 1]
  }

  function Value(bits: seq<bool>): (v: nat)
    requires |bits| == 8
    ensures v < 256
  {
    (if bits[0] then 1 else 0) + (if bits[1] then 2 else 0) + (if bits[2] then 4 else 0) + (if bits[3] then 8 else 0)
    + (if bits[4] then 16 else 0) + (if bits[5] then 32 else 0) + (if bits[6] then 64 else 0)
    + (if bits[7] then 128 else 0)
  }

  /** The number a byte stands for. */
  function Number(b: bv8): (v: nat)
    ensures v < 256
  {
    Value(Crc32.ByteBits(b))
  }

  lemma ModByte(n: nat, h: nat, r: nat)
    requires n == 256 * h + r && r < 256
    ensures n % 256 == r
  {
  }

  lemma Horner(n: nat, h1: nat, h2: nat, h3: nat, h4: nat, h5: nat, h6: nat, h7: nat, h8: nat, r: seq<nat>)
    requires |r| == 8 && forall d <- r :: d < 2
    requires n == 2 * h1 + r[0] && h1 == 2 * h2 + r[1] && h2 == 2 * h3 + r[2] && h3 == 2 * h4 + r[3]
    requires h4 == 2 * h5 + r[4] && h5 == 2 * h6 + r[5] && h6 == 2 * h7 + r[6] && h7 == 2 * h8 + r[7]
    ensures n == 256 * h8 + Value(seq(8, i requires 0 <= i < 8 => r[i] == 1))
  {
    assert r[0] in r && r[1] in r && r[2] in r && r[3] in r && r[4] in r && r[5] in r && r[6] in r && r[7] in r;
  }

  /** The bits of a number by repeated halving. */
  lemma LowBitsAre(n: nat, r: seq<nat>)
    requires var h1, h2 := n / 2, n / 2 / 2;
             var h3, h4 := h2 / 2, h2 / 2 / 2;
             var h5, h6 := h4 / 2, h4 / 2 / 2;
             r == [n % 2, h1 % 2, h2 % 2, h3 % 2, h4 % 2, h5 % 2, h6 % 2, h6 / 2 % 2]
    ensures LowBits(n) == seq(8, i requires 0 <= i < 8 => r[i] == 1)
  {
  }

  lemma LowBitsValue(n: nat)
    ensures Value(LowBits(n)) == n % 256
  {
    hide Value, LowBits;
    var h1, h2 := n / 2, n / 2 / 2;
    var h3, h4 := h2 / 2, h2 / 2 / 2;
    var h5, h6 := h4 / 2, h4 / 2 / 2;
    var h7 := h6 / 2;
    var r: seq<nat> := [n % 2, h1 % 2, h2 % 2, h3 % 2, h4 % 2, h5 % 2, h6 % 2, h7 % 2];
    LowBitsAre(n, r);
    Horner(n, h1, h2, h3, h4, h5, h6, h7, h7 / 2, r);
    ModByte(n, h7 / 2, Value(LowBits(n)));
  }

  lemma ByteRoundTrip(n: nat)
    ensures Number(Byte(n)) == n % 256
  {
    hide ByteOf, Crc32.ByteBits, Value, LowBits;
    ByteOfBits(LowBits(n));
    LowBitsValue(n);
  }

  // ----- little-endian fields -----------------------------------------------------

  /** A number written to a 16-bit field; what does not fit is lost. */
  function Le16(n: nat): (r: seq<bv8>)
    ensures |r| == 2
  {
    [Byte(n), Byte(n / 256)]
  }

  /** A number written to a 32-bit field; what does not fit is lost. */
  function Le32(n: nat): (r: seq<bv8>)
    ensures |r| == 4
  {
    [Byte(n), Byte(n / 256), Byte(n / 65536), Byte(n / 16777216)]
  }

  function U16(b: seq<bv8>, at: nat): (r: nat)
    requires at + 2 <= |b|
    ensures r < WORD_LIMIT
  {
    Number(b[at]) + 256 * Number(b[at + 1])
  }

  function U32(b: seq<bv8>, at: nat): (r: nat)
    requires at + 4 <= |b|
    ensures r < LONG_LIMIT
  {
    Number(b[at]) + 256 * Number(b[at + 1]) + 65536 * Number(b[at + 2]) + 16777216 * Number(b[at + 3])
  }

  lemma ModWord(n: nat, h: nat, r: nat)
    requires n == 65536 * h + r && r < 65536
    ensures n % 65536 == r
  {
  }

  lemma ModLong(n: nat, h: nat, r: nat)
    requires n == 4294967296 * h + r && r < 4294967296
    ensures n % 4294967296 == r
  {
  }

  lemma Digits16(n: nat)
    ensures n % 256 + 256 * (n / 256 % 256) == n % WORD_LIMIT
  {
    var q := n / 256;
    ModWord(n, q / 256, n % 256 + 256 * (q % 256));
  }

  lemma Digits32(n: nat)
    ensures n % 256 + 256 * (n / 256 % 256) + 65536 * (n / 65536 % 256) + 16777216 * (n / 16777216 % 256) ==
            n % LONG_LIMIT
  {
    var q := n / 65536;
    ByteOfQuotient(n);
    Digits16(n);
    Digits16(q);
    ModLong(n, q / 65536, n % 65536 + 65536 * (q % 65536));
  }

  lemma ByteOfQuotient(n: nat)
    ensures n / 65536 / 256 == n / 16777216
  {
  }

  lemma ReadLe16(n: nat)
    ensures U16(Le16(n), 0) == n % WORD_LIMIT
  {
    hide Byte, Number;
    ByteRoundTrip(n);
    ByteRoundTrip(n / 256);
    Digits16(n);
  }

  lemma ReadLe32(n: nat)
    ensures U32(Le32(n), 0) == n % LONG_LIMIT
  {
    hide Byte, Number;
    ByteRoundTrip(n);
    ByteRoundTrip(n / 256);
    ByteRoundTrip(n / 65536);
    ByteRoundTrip(n / 16777216);
    Digits32(n);
  }

  /** A 32-bit register stored low byte first. */
  function RegisterBytes(r: Crc32.Register): (s: seq<bv8>)
    ensures |s| == 4
  {
    [ByteOf(r[..8]), ByteOf(r[8..16]), ByteOf(r[16..24]), ByteOf(r[24..])]
  }

  function CrcField(data: seq<bv8>): (s: seq<bv8>)
    ensures |s| == 4
  {
    RegisterBytes(Crc32.Reference(data))
  }

  /** The number whose bits these are, the lowest first. */
  function BitsNumber(bits: seq<bool>): nat {
    if bits == [] then 0 else (if bits[0] then 1 else 0) + 2 * BitsNumber(bits[1..])
  }

  /** The CRC-32 of a file as a number. */
  function ChecksumOf(data: seq<bv8>): nat {
    BitsNumber(Crc32.Reference(data))
  }

  lemma BitsNumberStep(b: bool, rest: seq<bool>)
    ensures BitsNumber([b] + rest) == (if b then 1 else 0) + 2 * BitsNumber(rest)
  {
    assert ([b] + rest)[1..] == rest;
  }

  /** Eight bits below the rest. */
  lemma BitsNumberByte(low: seq<bool>, rest: seq<bool>)
    requires |low| == 8
    ensures BitsNumber(low + rest) == Value(low) + 256 * BitsNumber(rest)
  {
    hide BitsNumber;
    var s7 := [low[7]] + rest;
    var s6 := [low[6]] + s7;
    var s5 := [low[5]] + s6;
    var s4 := [low[4]] + s5;
    var s3 := [low[3]] + s4;
    var s2 := [low[2]] + s3;
    var s1 := [low[1]] + s2;
    assert low + rest == [low[0]] + s1;
    BitsNumberStep(low[7], rest);
    BitsNumberStep(low[6], s7);
    BitsNumberStep(low[5], s6);
    BitsNumberStep(low[4], s5);
    BitsNumberStep(low[3], s4);
    BitsNumberStep(low[2], s3);
    BitsNumberStep(low[1], s2);
    BitsNumberStep(low[0], s1);
  }

  lemma ByteValue(bits: seq<bool>)
    requires |bits| == 8
    ensures Number(ByteOf(bits)) == Value(bits)
  {
    hide ByteOf, Crc32.ByteBits, Value;
    ByteOfBits(bits);
  }

  /** The stored checksum reads back as that number. */
  lemma ReadRegister(r: Crc32.Register)
    ensures U32(RegisterBytes(r), 0) == BitsNumber(r)
  {
    hide ByteOf, Value, Number, BitsNumber;
    var b0, b1, b2, b3 := r[..8], r[8..16], r[16..24], r[24..];
    ByteValue(b0);
    ByteValue(b1);
    ByteValue(b2);
    ByteValue(b3);
    assert r == b0 + (b1 + (b2 + (b3 + [])));
    BitsNumberByte(b0, b1 + (b2 + (b3 + [])));
    BitsNumberByte(b1, b2 + (b3 + []));
    BitsNumberByte(b2, b3 + []);
    BitsNumberByte(b3, []);
    NoBits();
  }

  lemma NoBits()
    ensures BitsNumber([]) == 0
  {
  }

  lemma {:induction false} BitsNumberInjective(x: seq<bool>, y: seq<bool>)
    requires |x| == |y| && BitsNumber(x) == BitsNumber(y)
    ensures x == y
  {
    if x != [] {
      BitsNumberInjective(x[1..], y[1..]);
      assert x == [x[0]] + x[1..] && y == [y[0]] + y[1..];
    }
  }

  lemma ValueInjective(x: seq<bool>, y: seq<bool>)
    requires |x| == |y| == 8 && Value(x) == Value(y)
    ensures x == y
  {
  }

  lemma ByteIs(n: nat, b: bv8)
    requires Number(b) == n % 256
    ensures Byte(n) == b
  {
    hide Value, Crc32.ByteBits, Byte;
    ByteRoundTrip(n);
    ValueInjective(Crc32.ByteBits(Byte(n)), Crc32.ByteBits(b));
    Crc32.ByteBitsInjective(Byte(n), b);
  }

  lemma MarkNumbers()
    ensures Number(0x50) == 0x50 && Number(0x4b) == 0x4b
    ensures Number(1) == 1 && Number(2) == 2 && Number(3) == 3 && Number(4) == 4 && Number(5) == 5 && Number(6) == 6
  {
  }

  /** A record starts with the letters P and K and two more bytes, so that its mark holds the lowest byte first. */
  lemma Mark(n: nat, x: bv8, y: bv8)
    requires n == 0x4b50 + 65536 * Number(x) + 16777216 * Number(y)
    ensures Le32(n) == [0x50, 0x4b, x, y]
  {
    hide Byte, Number;
    MarkNumbers();
    MarkDigits(n, Number(x), Number(y));
    ByteIs(n, 0x50);
    ByteIs(n / 256, 0x4b);
    ByteIs(n / 65536, x);
    ByteIs(n / 16777216, y);
  }

  lemma MarkDigits(n: nat, x: nat, y: nat)
    requires x < 256 && y < 256 && n == 0x4b50 + 65536 * x + 16777216 * y
    ensures n % 256 == 0x50 && n / 256 % 256 == 0x4b && n / 65536 % 256 == x && n / 16777216 % 256 == y
  {
    assert n / 256 == 0x4b + 256 * x + 65536 * y;
    assert n / 65536 == x + 256 * y;
    assert n / 16777216 == y;
  }

  lemma Marks()
    ensures Le32(LOCAL_SIGNATURE) == [0x50, 0x4b, 3, 4]
    ensures Le32(CENTRAL_SIGNATURE) == [0x50, 0x4b, 1, 2]
    ensures Le32(END_SIGNATURE) == [0x50, 0x4b, 5, 6]
    ensures Le16(0x4b50) == [0x50, 0x4b]
  {
    hide Number, Byte, Le32;
    MarkNumbers();
    ByteIs(0x4b50, 0x50);
    ByteIs(0x4b50 / 256, 0x4b);
    Mark(LOCAL_SIGNATURE, 3, 4);
    Mark(CENTRAL_SIGNATURE, 1, 2);
    Mark(END_SIGNATURE, 5, 6);
  }

  // ----- records ------------------------------------------------------------------

  /** Section 4.3.7: local file header. */
  function LocalFixed(e: Entry): (r: seq<bv8>)
    ensures |r| == 30
  {
    Le32(LOCAL_SIGNATURE)          // 0  local file header signature
    + Le16(20)                     // 4  version needed to extract
    + Le16(0)                      // 6  general purpose bit flag
    + Le16(0)                      // 8  compression method: stored
    + Le16(0)                      // 10 last mod file time
    + Le16(0x21)                   // 12 last mod file date: 1980-01-01
    + CrcField(e.data)             // 14 crc-32
    + Le32(|e.data|)               // 18 compressed size
    + Le32(|e.data|)               // 22 uncompressed size
    + Le16(|e.name|)               // 26 file name length
    + Le16(0)                      // 28 extra field length
  }

  function LocalHeader(e: Entry): (r: seq<bv8>)
    ensures |r| == 30 + |e.name|
  {
    LocalFixed(e) + e.name
  }

  /** Section 4.3.12: central directory file header. */
  function CentralFixed(e: Entry, offset: nat): (r: seq<bv8>)
    ensures |r| == 46
  {
    Le32(CENTRAL_SIGNATURE)        // 0  central file header signature
    + Le16(20)                     // 4  version made by
    + Le16(20)                     // 6  version needed to extract
    + Le16(0)                      // 8  general purpose bit flag
    + Le16(0)                      // 10 compression method: stored
    + Le16(0)                      // 12 last mod file time
    + Le16(0x21)                   // 14 last mod file date
    + CrcField(e.data)             // 16 crc-32
    + Le32(|e.data|)               // 20 compressed size
    + Le32(|e.data|)               // 24 uncompressed size
    + Le16(|e.name|)               // 28 file name length
    + Le16(0)                      // 30 extra field length
    + Le16(0)                      // 32 file comment length
    + Le16(0)                      // 34 disk number start
    + Le16(0)                      // 36 internal file attributes
    + Le32(0)                      // 38 external file attributes
    + Le32(offset)                 // 42 relative offset of local header
  }

  function CentralHeader(e: Entry, offset: nat): (r: seq<bv8>)
    ensures |r| == 46 + |e.name|
  {
    CentralFixed(e, offset) + e.name
  }

  /** Section 4.3.16: end of central directory record. */
  function EndRecord(count: nat, size: nat, offset: nat): (r: seq<bv8>)
    ensures |r| == 22
  {
    Le32(END_SIGNATURE)            // 0  end of central dir signature
    + Le16(0)                      // 4  number of this disk
    + Le16(0)                      // 6  disk with the start of the central directory
    + Le16(count)                  // 8  entries on this disk
    + Le16(count)                  // 10 entries in the central directory
    + Le32(size)                   // 12 size of the central directory
    + Le32(offset)                 // 16 offset of the central directory
    + Le16(0)                      // 20 comment length
  }

  function Bodies(es: seq<Entry>): seq<bv8> {
    if es == [] then [] else LocalHeader(es[0]) + es[0].data + Bodies(es[1..])
  }

  function Centrals(es: seq<Entry>, offset: nat): seq<bv8> {
    if es == [] then []
    else CentralHeader(es[0], offset) + Centrals(es[1..], offset + 30 + |es[0].name| + |es[0].data|)
  }

  /** The whole file. */
  function Archive(es: seq<Entry>): seq<bv8> {
    var bodies, centrals := Bodies(es), Centrals(es, 0);
    bodies + centrals + EndRecord(|es|, |centrals|, |bodies|)
  }

  // ----- an independent reader ------------------------------------------------------

  /** The last end record at or before `k` whose comment runs exactly to the end of the file. */
  function FindEnd(b: seq<bv8>, k: int): (r: int)
    requires k + 22 <= |b|
    ensures r == -1 || 0 <= r <= |b| - 22
    decreases k + 1
  {
    if k < 0 then -1
    else if U32(b, k) == END_SIGNATURE && k + 22 + U16(b, k + 20) == |b| then k
    else FindEnd(b, k - 1)
  }

  /** A moment as the MS-DOS date and time fields encode it, section 4.4.6. */
  datatype Stamp = Stamp(year: nat, month: nat, day: nat, hour: nat, minute: nat, second: nat)

  function StampOf(time: nat, date: nat): Stamp {
    Stamp(1980 + date / 512, date / 32 % 16, date % 32, time / 2048, time / 32 % 64, 2 * (time % 32))
  }

  /** The fields that a local header and its directory entry share, from the version on, describe a stored file of a
      plain archive: version 2.0, no flags, stored, as large as it was before, and with the first date there is. */
  predicate StoredFile(b: seq<bv8>, at: nat)
    requires at + 26 <= |b|
  {
    && U16(b, at) == 20 && U16(b, at + 2) == 0 && U16(b, at + 4) == 0
    && StampOf(U16(b, at + 6), U16(b, at + 8)) == Stamp(1980, 1, 1, 0, 0, 0)
    && U32(b, at + 14) == U32(b, at + 18)
  }

  /** The file that the local header at `at` introduces, when the header agrees with the directory entry: the same
      version, flags, method, time, checksum, sizes and name. */
  function ReadLocal(b: seq<bv8>, at: nat, shared: seq<bv8>, name: seq<bv8>): Option<Entry> {
    if at + 30 > |b| || U32(b, at) != LOCAL_SIGNATURE || b[at + 4..at + 28] != shared then None
    else
      var start := at + 30 + U16(b, at + 26) + U16(b, at + 28);
      var end := start + U32(b, at + 22);
      if end > |b| || b[at + 30..at + 30 + U16(b, at + 26)] != name then None
      else if ChecksumOf(b[start..end]) != U32(b, at + 14) then None
      else Some(Entry(name, b[start..end]))
  }

  /** `n` directory headers from `at`, which must end exactly at `end`; each for an ordinary stored file on this disk
      without attributes. */
  function ReadCentral(b: seq<bv8>, at: nat, end: nat, n: nat): Option<seq<Entry>>
    requires end <= |b|
    decreases n
  {
    if n == 0 then if at == end then Some([]) else None
    else if at + 46 > end || U32(b, at) != CENTRAL_SIGNATURE || !StoredFile(b, at + 6) then None
    else if U16(b, at + 4) != 20 || U16(b, at + 34) != 0 || U16(b, at + 36) != 0 || U32(b, at + 38) != 0 then None
    else
      var nameEnd := at + 46 + U16(b, at + 28);
      var next := nameEnd + U16(b, at + 30) + U16(b, at + 32);
      if next > end then None
      else
        match ReadLocal(b, U32(b, at + 42), b[at + 6..at + 30], b[at + 46..nameEnd])
        case None => None
        case Some(e) =>
          match ReadCentral(b, next, end, n - 1)
          case None => None
          case Some(rest) => Some([e] + rest)
  }

  /** Reads an archive back: end record, central directory, local headers, checksums. */
  function Read(b: seq<bv8>): Option<seq<Entry>> {
    if |b| < 22 then None
    else
      var end := FindEnd(b, |b| - 22);
      if end < 0 then None
      else if U16(b, end + 4) != 0 || U16(b, end + 6) != 0 || U16(b, end + 8) != U16(b, end + 10) then None
      else if U32(b, end + 16) + U32(b, end + 12) != end then None
      else ReadCentral(b, U32(b, end + 16), end, U16(b, end + 10))
  }

  // ----- reading fields back ----------------------------------------------------------

  lemma Slice(b: seq<bv8>, at: nat, piece: seq<bv8>, k: nat, n: nat)
    requires at + |piece| <= |b| && b[at..at + |piece|] == piece && k + n <= |piece|
    ensures b[at + k..at + k + n] == piece[k..k + n]
  {
    var part, same := b[at + k..at + k + n], piece[k..k + n];
    forall i | 0 <= i < n
      ensures part[i] == same[i]
    {
      assert b[at..at + |piece|][k + i] == piece[k + i];
    }
  }

  lemma U16Of(b: seq<bv8>, at: nat)
    requires at + 2 <= |b|
    ensures U16(b, at) == U16(b[at..at + 2], 0)
  {
  }

  lemma U32Of(b: seq<bv8>, at: nat)
    requires at + 4 <= |b|
    ensures U32(b, at) == U32(b[at..at + 4], 0)
  {
  }

  lemma EndFields(count: nat, size: nat, offset: nat)
    ensures var r := EndRecord(count, size, offset);
            && r[0..4] == Le32(END_SIGNATURE) && r[4..6] == Le16(0) && r[6..8] == Le16(0) && r[8..10] == Le16(count)
            && r[10..12] == Le16(count) && r[12..16] == Le32(size) && r[16..20] == Le32(offset)
            && r[20..22] == Le16(0)
  {
    hide Le16, Le32;
  }

  /** The bytes that both headers of `e` hold from the version on. */
  function SharedFields(e: Entry): (r: seq<bv8>)
    ensures |r| == 24
  {
    LocalFixed(e)[4..28]
  }

  lemma LocalFields(e: Entry)
    ensures var r := LocalFixed(e);
            && r[0..4] == Le32(LOCAL_SIGNATURE) && r[14..18] == CrcField(e.data) && r[22..26] == Le32(|e.data|)
            && r[26..28] == Le16(|e.name|) && r[28..30] == Le16(0)
  {
    hide Le16, Le32, CrcField;
  }

  lemma SharedByBoth(e: Entry, offset: nat)
    ensures CentralFixed(e, offset)[6..30] == SharedFields(e)
  {
    hide Le16, Le32, CrcField;
  }

  lemma CentralFields(e: Entry, offset: nat)
    ensures var r := CentralFixed(e, offset);
            && r[0..4] == Le32(CENTRAL_SIGNATURE) && r[4..6] == Le16(20) && r[28..30] == Le16(|e.name|)
            && r[30..32] == Le16(0) && r[32..34] == Le16(0) && r[34..36] == Le16(0) && r[36..38] == Le16(0)
            && r[38..42] == Le32(0) && r[42..46] == Le32(offset)
  {
    hide Le16, Le32, CrcField;
  }

  lemma StoredFields(e: Entry, offset: nat)
    ensures var r := CentralFixed(e, offset);
            && r[6..8] == Le16(20) && r[8..10] == Le16(0) && r[10..12] == Le16(0) && r[12..14] == Le16(0)
            && r[14..16] == Le16(0x21) && r[20..24] == Le32(|e.data|) && r[24..28] == Le32(|e.data|)
  {
    hide Le16, Le32, CrcField;
  }

  // ----- the round trip -----------------------------------------------------------------

  /** Everything the 16- and 32-bit fields have to hold. */
  predicate Fits(es: seq<Entry>) {
    && |es| < WORD_LIMIT
    && |Bodies(es)| < LONG_LIMIT
    && |Centrals(es, 0)| < LONG_LIMIT
    && forall e <- es :: |e.name| < WORD_LIMIT && |e.data| < LONG_LIMIT
  }

  /** `piece` sits at `at` in `b`. */
  predicate Holds(b: seq<bv8>, at: nat, piece: seq<bv8>) {
    at + |piece| <= |b| && b[at..at + |piece|] == piece
  }

  lemma HoldsParts(b: seq<bv8>, at: nat, p: seq<bv8>, q: seq<bv8>)
    requires Holds(b, at, p + q)
    ensures Holds(b, at, p) && Holds(b, at + |p|, q)
  {
    var whole := p + q;
    Slice(b, at, whole, 0, |p|);
    Slice(b, at, whole, |p|, |q|);
    assert whole[0..|p|] == p && whole[|p|..|p| + |q|] == q;
  }

  lemma FieldU16(b: seq<bv8>, at: nat, piece: seq<bv8>, k: nat, n: nat)
    requires Holds(b, at, piece) && k + 2 <= |piece| && piece[k..k + 2] == Le16(n)
    ensures U16(b, at + k) == n % WORD_LIMIT
  {
    hide U16, Le16;
    Slice(b, at, piece, k, 2);
    U16Of(b, at + k);
    ReadLe16(n);
  }

  lemma FieldU32(b: seq<bv8>, at: nat, piece: seq<bv8>, k: nat, n: nat)
    requires Holds(b, at, piece) && k + 4 <= |piece| && piece[k..k + 4] == Le32(n)
    ensures U32(b, at + k) == n % LONG_LIMIT
  {
    hide U32, Le32;
    Slice(b, at, piece, k, 4);
    U32Of(b, at + k);
    ReadLe32(n);
  }

  lemma ReadLocalBack(b: seq<bv8>, at: nat, e: Entry)
    requires Holds(b, at, LocalHeader(e) + e.data)
    requires |e.name| < WORD_LIMIT && |e.data| < LONG_LIMIT
    ensures ReadLocal(b, at, SharedFields(e), e.name) == Some(e)
  {
    hide U16, U32, Le16, Le32, CrcField, LocalFixed, ChecksumOf;
    HoldsParts(b, at, LocalHeader(e), e.data);
    LocalBack(b, at, e);
  }

  /** What the reader finds in a local header. */
  lemma LocalBack(b: seq<bv8>, at: nat, e: Entry)
    requires Holds(b, at, LocalHeader(e)) && |e.name| < WORD_LIMIT && |e.data| < LONG_LIMIT
    ensures at + 30 + |e.name| <= |b| && U32(b, at) == LOCAL_SIGNATURE && b[at + 4..at + 28] == SharedFields(e)
    ensures U16(b, at + 26) == |e.name| && U16(b, at + 28) == 0 && U32(b, at + 22) == |e.data|
    ensures b[at + 30..at + 30 + |e.name|] == e.name && U32(b, at + 14) == ChecksumOf(e.data)
  {
    hide U16, U32, Le16, Le32, CrcField, LocalFixed, ChecksumOf;
    var f := LocalFixed(e);
    HoldsParts(b, at, f, e.name);
    LocalFields(e);
    FieldU32(b, at, f, 0, LOCAL_SIGNATURE);
    FieldU32(b, at, f, 22, |e.data|);
    FieldU16(b, at, f, 26, |e.name|);
    FieldU16(b, at, f, 28, 0);
    Slice(b, at, f, 4, 24);
    Slice(b, at, f, 14, 4);
    ReadChecksum(b, at + 14, e.data);
  }

  lemma ReadChecksum(b: seq<bv8>, at: nat, data: seq<bv8>)
    requires at + 4 <= |b| && b[at..at + 4] == CrcField(data)
    ensures U32(b, at) == ChecksumOf(data)
  {
    U32Of(b, at);
    ReadRegister(Crc32.Reference(data));
    hide U32, RegisterBytes, Crc32.Reference, BitsNumber;
  }

  lemma FirstDay()
    ensures StampOf(0, 0x21) == Stamp(1980, 1, 1, 0, 0, 0)
  {
  }

  /** The directory entry of `e` describes a stored file. */
  lemma StoredBack(b: seq<bv8>, at: nat, e: Entry, offset: nat)
    requires Holds(b, at, CentralHeader(e, offset))
    ensures at + 46 <= |b| && StoredFile(b, at + 6)
  {
    hide U16, U32, Le16, Le32, CrcField, CentralFixed, StampOf;
    var f := CentralFixed(e, offset);
    HoldsParts(b, at, f, e.name);
    StoredFields(e, offset);
    FieldU16(b, at, f, 6, 20);
    FieldU16(b, at, f, 8, 0);
    FieldU16(b, at, f, 10, 0);
    FieldU16(b, at, f, 12, 0);
    FieldU16(b, at, f, 14, 0x21);
    FirstDay();
    FieldU32(b, at, f, 20, |e.data|);
    FieldU32(b, at, f, 24, |e.data|);
  }

  /** The directory entry of `e` leads the reader to `e` and on to the next directory entry. */
  lemma ReadHeaderBack(b: seq<bv8>, at: nat, e: Entry, offset: nat)
    requires Holds(b, at, CentralHeader(e, offset))
    requires |e.name| < WORD_LIMIT && |e.data| < LONG_LIMIT && offset < LONG_LIMIT
    ensures U32(b, at) == CENTRAL_SIGNATURE && U16(b, at + 4) == 20
    ensures U16(b, at + 28) == |e.name| && U16(b, at + 30) == 0 && U16(b, at + 32) == 0
    ensures U16(b, at + 34) == 0 && U16(b, at + 36) == 0 && U32(b, at + 38) == 0
    ensures b[at + 6..at + 30] == SharedFields(e) && b[at + 46..at + 46 + |e.name|] == e.name
    ensures U32(b, at + 42) == offset
  {
    hide U16, U32, Le16, Le32, CrcField, CentralFixed, SharedFields;
    var f := CentralFixed(e, offset);
    HoldsParts(b, at, f, e.name);
    CentralFields(e, offset);
    SharedByBoth(e, offset);
    FieldU32(b, at, f, 0, CENTRAL_SIGNATURE);
    FieldU16(b, at, f, 4, 20);
    Slice(b, at, f, 6, 24);
    FieldU16(b, at, f, 28, |e.name|);
    FieldU16(b, at, f, 30, 0);
    FieldU16(b, at, f, 32, 0);
    FieldU16(b, at, f, 34, 0);
    FieldU16(b, at, f, 36, 0);
    FieldU32(b, at, f, 38, 0);
    FieldU32(b, at, f, 42, offset);
  }

  lemma BodiesStep(es: seq<Entry>, offset: nat)
    requires es != []
    ensures Bodies(es) == LocalHeader(es[0]) + es[0].data + Bodies(es[1..])
    ensures |LocalHeader(es[0]) + es[0].data| == 30 + |es[0].name| + |es[0].data|
    ensures OffsetOf(es, offset, 0) == offset
    ensures forall i :: 0 < i < |es| ==>
              OffsetOf(es, offset, i) == OffsetOf(es[1..], offset + 30 + |es[0].name| + |es[0].data|, i - 1)
  {
    hide LocalHeader;
  }

  lemma HoldsLength(b: seq<bv8>, at: nat, piece: seq<bv8>)
    requires Holds(b, at, piece)
    ensures at + |piece| <= |b|
  {
  }

  /** One step of the reader over a sound directory header. */
  lemma ReadStep(b: seq<bv8>, at: nat, end: nat, n: nat, e: Entry, offset: nat)
    requires n > 0 && end <= |b| && at + 46 + |e.name| <= end && Holds(b, at, CentralHeader(e, offset))
    requires |e.name| < WORD_LIMIT && |e.data| < LONG_LIMIT && offset < LONG_LIMIT
    ensures var l := ReadLocal(b, offset, SharedFields(e), e.name);
            var r := ReadCentral(b, at + 46 + |e.name|, end, n - 1);
            ReadCentral(b, at, end, n) == if l.Some? && r.Some? then Some([l.value] + r.value) else None
  {
    hide U16, U32, CrcField, CentralHeader, ReadLocal, SharedFields, StoredFile;
    StoredBack(b, at, e, offset);
    ReadHeaderBack(b, at, e, offset);
  }

  lemma CentralsStep(es: seq<Entry>, offset: nat)
    ensures es != [] ==>
              Centrals(es, offset) ==
              CentralHeader(es[0], offset) + Centrals(es[1..], offset + 30 + |es[0].name| + |es[0].data|)
    ensures es == [] ==> Centrals(es, offset) == []
  {
    hide CentralHeader;
  }

  /** A directory starts with the header of its first entry. */
  lemma DirectoryStep(b: seq<bv8>, at: nat, es: seq<Entry>, offset: nat)
    requires es != [] && Holds(b, at, Centrals(es, offset))
    ensures var e, next := es[0], offset + 30 + |es[0].name| + |es[0].data|;
            && Holds(b, at, CentralHeader(e, offset)) && Holds(b, at + 46 + |e.name|, Centrals(es[1..], next))
            && |Centrals(es, offset)| == 46 + |e.name| + |Centrals(es[1..], next)|
            && at + |Centrals(es, offset)| <= |b|
  {
    hide *;
    HoldsLength(b, at, Centrals(es, offset));
    CentralsStep(es, offset);
    HoldsParts(b, at, CentralHeader(es[0], offset), Centrals(es[1..], offset + 30 + |es[0].name| + |es[0].data|));
  }

  lemma ReadNone(b: seq<bv8>, at: nat, es: seq<Entry>, offset: nat)
    requires es == [] && at <= |b|
    ensures Centrals(es, offset) == [] && ReadCentral(b, at, at, 0) == Some([])
  {
  }

  lemma {:induction false} ReadCentralBack(b: seq<bv8>, at: nat, es: seq<Entry>, offset: nat)
    requires Holds(b, offset, Bodies(es)) && Holds(b, at, Centrals(es, offset))
    requires offset + |Bodies(es)| < LONG_LIMIT
    requires forall e <- es :: |e.name| < WORD_LIMIT && |e.data| < LONG_LIMIT
    ensures at + |Centrals(es, offset)| <= |b|
    ensures ReadCentral(b, at, at + |Centrals(es, offset)|, |es|) == Some(es)
    decreases |es|
  {
    hide *;
    HoldsLength(b, at, Centrals(es, offset));
    if es == [] {
      ReadNone(b, at, es, offset);
    } else {
      var e, rest := es[0], es[1..];
      var next := offset + 30 + |e.name| + |e.data|;
      BodiesStep(es, offset);
      HoldsParts(b, offset, LocalHeader(e) + e.data, Bodies(rest));
      DirectoryStep(b, at, es, offset);
      ReadLocalBack(b, offset, e);
      ReadCentralBack(b, at + 46 + |e.name|, rest, next);
      ReadStep(b, at, at + |Centrals(es, offset)|, |es|, e, offset);
      assert [e] + rest == es;
    }
  }

  lemma EndBack(b: seq<bv8>, at: nat, count: nat, size: nat, offset: nat)
    requires Holds(b, at, EndRecord(count, size, offset)) && at + 22 == |b|
    ensures FindEnd(b, at) == at && U16(b, at + 4) == 0 && U16(b, at + 6) == 0
    ensures U16(b, at + 8) == U16(b, at + 10) == count % WORD_LIMIT
    ensures U32(b, at + 12) == size % LONG_LIMIT && U32(b, at + 16) == offset % LONG_LIMIT
  {
    hide U16, U32, Le16, Le32, EndRecord;
    var f := EndRecord(count, size, offset);
    EndFields(count, size, offset);
    FieldU32(b, at, f, 0, END_SIGNATURE);
    FieldU16(b, at, f, 4, 0);
    FieldU16(b, at, f, 6, 0);
    FieldU16(b, at, f, 8, count);
    FieldU16(b, at, f, 10, count);
    FieldU32(b, at, f, 12, size);
    FieldU32(b, at, f, 16, offset);
    FieldU16(b, at, f, 20, 0);
  }

  lemma ReadUnfolded(es: seq<Entry>)
    ensures var b, o, s := Archive(es), |Bodies(es)|, |Centrals(es, 0)|;
            Read(b) == if o % LONG_LIMIT + s % LONG_LIMIT != o + s then None
                       else ReadCentral(b, o, o + s, |es| % WORD_LIMIT)
  {
    hide U16, U32, EndRecord, ReadCentral, FindEnd, Bodies, Centrals;
    var b, o, s := Archive(es), |Bodies(es)|, |Centrals(es, 0)|;
    HoldsParts(b, 0, Bodies(es) + Centrals(es, 0), EndRecord(|es|, s, o));
    EndBack(b, o + s, |es|, s, o);
  }

  lemma RoundTripWhenFits(es: seq<Entry>)
    requires Fits(es)
    ensures Read(Archive(es)) == Some(es)
  {
    hide EndRecord, ReadCentral, Read, Bodies, Centrals;
    var b, o, s := Archive(es), |Bodies(es)|, |Centrals(es, 0)|;
    ReadUnfolded(es);
    HoldsParts(b, 0, Bodies(es) + Centrals(es, 0), EndRecord(|es|, s, o));
    HoldsParts(b, 0, Bodies(es), Centrals(es, 0));
    ReadCentralBack(b, o, es, 0);
  }

  /** Whatever the reader returns, names and sizes came out of 16- and 32-bit fields. */
  lemma {:induction false} ReadCentralSmall(b: seq<bv8>, at: nat, end: nat, n: nat)
    requires end <= |b|
    ensures var r := ReadCentral(b, at, end, n);
            r.Some? ==> |r.value| == n && forall e <- r.value :: |e.name| < WORD_LIMIT && |e.data| < LONG_LIMIT
    decreases n
  {
    hide U16, U32, ChecksumOf, StoredFile;
    if n != 0 && ReadCentral(b, at, end, n).Some? {
      ReadCentralSmall(b, at + 46 + U16(b, at + 28) + U16(b, at + 30) + U16(b, at + 32), end, n - 1);
    }
  }

  lemma ArchiveLength(es: seq<Entry>)
    ensures |Archive(es)| == |Bodies(es)| + |Centrals(es, 0)| + 22
  {
  }

  lemma FitsWhenRead(es: seq<Entry>)
    requires Read(Archive(es)) == Some(es)
    ensures Fits(es)
  {
    hide ReadCentral, Read, Bodies, Centrals, Archive;
    ReadUnfolded(es);
    ArchiveLength(es);
    var b, o, s := Archive(es), |Bodies(es)|, |Centrals(es, 0)|;
    ReadCentralSmall(b, o, o + s, |es| % WORD_LIMIT);
  }

  /** The reader recovers exactly what was packed, in order, if and only if every field is wide enough. */
  lemma RoundTrip(es: seq<Entry>)
    ensures Read(Archive(es)) == Some(es) <==> Fits(es)
  {
    hide *;
    if Fits(es) {
      RoundTripWhenFits(es);
    }
    if Read(Archive(es)) == Some(es) {
      FitsWhenRead(es);
    }
  }

  /** 65,536 empty entries: the reader finds none of them. */
  lemma TooManyEntries()
    ensures var es := seq(65536, i => Entry([], [])); Read(Archive(es)) != Some(es)
  {
    var es := seq(65536, i => Entry([], []));
    assert |es| == WORD_LIMIT;
    RoundTrip(es);
    hide Read, Archive;
  }

  // ----- damage -------------------------------------------------------------------------

  /** Where entry `i`'s local header starts. */
  function OffsetOf(es: seq<Entry>, offset: nat, i: nat): nat
    requires i < |es|
  {
    if i == 0 then offset else OffsetOf(es[1..], offset + 30 + |es[0].name| + |es[0].data|, i - 1)
  }

  /** The file of `e`, whose local header is at `at`, is not the one packed. */
  ghost predicate Damaged(b: seq<bv8>, at: nat, e: Entry) {
    && Holds(b, at, LocalHeader(e)) && at + 30 + |e.name| + |e.data| <= |b|
    && Crc32.Reference(b[at + 30 + |e.name|..at + 30 + |e.name| + |e.data|]) != Crc32.Reference(e.data)
  }

  lemma DamagedIs(b: seq<bv8>, at: nat, e: Entry)
    requires Holds(b, at, LocalHeader(e)) && at + 30 + |e.name| + |e.data| <= |b|
    requires Crc32.Reference(b[at + 30 + |e.name|..at + 30 + |e.name| + |e.data|]) != Crc32.Reference(e.data)
    ensures Damaged(b, at, e)
  {
  }

  lemma ReadLocalRejects(b: seq<bv8>, at: nat, e: Entry)
    requires Damaged(b, at, e) && |e.name| < WORD_LIMIT && |e.data| < LONG_LIMIT
    ensures ReadLocal(b, at, SharedFields(e), e.name) == None
  {
    hide U16, U32, LocalHeader, Crc32.Reference, BitsNumber, SharedFields, Holds;
    LocalBack(b, at, e);
    var data := b[at + 30 + |e.name|..at + 30 + |e.name| + |e.data|];
    if ChecksumOf(data) == ChecksumOf(e.data) {
      BitsNumberInjective(Crc32.Reference(data), Crc32.Reference(e.data));
    }
  }

  /** One damaged file is enough for the reader to reject the directory. */
  lemma {:induction false} ReadCentralRejects(b: seq<bv8>, at: nat, es: seq<Entry>, offset: nat, i: nat)
    requires i < |es| && Holds(b, at, Centrals(es, offset))
    requires forall e <- es :: |e.name| < WORD_LIMIT && |e.data| < LONG_LIMIT
    requires offset + |Bodies(es)| < LONG_LIMIT
    requires Damaged(b, OffsetOf(es, offset, i), es[i])
    ensures at + |Centrals(es, offset)| <= |b|
    ensures ReadCentral(b, at, at + |Centrals(es, offset)|, |es|) == None
    decreases |es|
  {
    hide *;
    var e, rest := es[0], es[1..];
    var next := offset + 30 + |e.name| + |e.data|;
    BodiesStep(es, offset);
    DirectoryStep(b, at, es, offset);
    ReadStep(b, at, at + |Centrals(es, offset)|, |es|, e, offset);
    if i == 0 {
      ReadLocalRejects(b, offset, e);
    } else {
      ReadCentralRejects(b, at + 46 + |e.name|, rest, next, i - 1);
    }
  }

  lemma HoldsWithin(b: seq<bv8>, at: nat, whole: seq<bv8>, o: nat, piece: seq<bv8>)
    requires Holds(b, at, whole) && Holds(whole, o, piece)
    ensures Holds(b, at + o, piece)
  {
    Slice(b, at, whole, o, |piece|);
  }

  lemma HoldsItself(b: seq<bv8>)
    ensures Holds(b, 0, b)
  {
  }

  lemma HoldsTail(head: seq<bv8>, tail: seq<bv8>)
    ensures Holds(head + tail, |head|, tail) && Holds(head + tail, 0, head)
  {
  }

  lemma {:induction false} BodyAt(es: seq<Entry>, offset: nat, i: nat)
    requires i < |es|
    ensures var o, e := OffsetOf(es, offset, i) - offset, es[i];
            o >= 0 && Holds(Bodies(es), o, LocalHeader(e) + e.data)
    decreases |es|
  {
    hide *;
    var e, rest := es[0], es[1..];
    var head, next := LocalHeader(e) + e.data, offset + 30 + |e.name| + |e.data|;
    BodiesStep(es, offset);
    HoldsTail(head, Bodies(rest));
    if i != 0 {
      BodyAt(rest, next, i - 1);
      var inner := OffsetOf(rest, next, i - 1) - next;
      HoldsWithin(Bodies(es), |head|, Bodies(rest), inner, LocalHeader(es[i]) + es[i].data);
    }
  }

  lemma ArchiveParts(es: seq<Entry>)
    ensures Archive(es) == Bodies(es) + Centrals(es, 0) + EndRecord(|es|, |Centrals(es, 0)|, |Bodies(es)|)
  {
  }

  lemma ArchiveHolds(es: seq<Entry>, i: nat)
    requires i < |es|
    ensures var a, o, s, from, e := Archive(es), |Bodies(es)|, |Centrals(es, 0)|, OffsetOf(es, 0, i), es[i];
            && |a| == o + s + 22 && from + 30 + |e.name| + |e.data| <= o
            && Holds(a, o, Centrals(es, 0)) && Holds(a, o + s, EndRecord(|es|, s, o))
            && Holds(a, from, LocalHeader(e)) && Holds(a, from + 30 + |e.name|, e.data)
  {
    hide *;
    var a, o, s, e, from := Archive(es), |Bodies(es)|, |Centrals(es, 0)|, es[i], OffsetOf(es, 0, i);
    ArchiveParts(es);
    HoldsItself(a);
    HoldsParts(a, 0, Bodies(es) + Centrals(es, 0), EndRecord(|es|, s, o));
    HoldsParts(a, 0, Bodies(es), Centrals(es, 0));
    BodyAt(es, 0, i);
    HoldsWithin(a, 0, Bodies(es), from, LocalHeader(e) + e.data);
    HoldsLength(Bodies(es), from, LocalHeader(e) + e.data);
    HoldsParts(a, from, LocalHeader(e), e.data);
  }

  predicate DiffersOnlyWithin(a: seq<bv8>, b: seq<bv8>, lo: nat, hi: nat) {
    |a| == |b| && forall k :: 0 <= k < |b| && b[k] != a[k] ==> lo <= k < hi
  }

  /** A file changed inside four consecutive bytes of one entry's data is never accepted again. */
  lemma DamageRejected(es: seq<Entry>, i: nat, b: seq<bv8>, at: nat)
    requires Fits(es) && i < |es| && b != Archive(es)
    requires DiffersOnlyWithin(Archive(es), b, at, at + 4)
    requires var start := OffsetOf(es, 0, i) + 30 + |es[i].name|;
             DiffersOnlyWithin(Archive(es), b, start, start + |es[i].data|)
    ensures Read(b) == None
  {
    hide *;
    var a, o, s, e, from := Archive(es), |Bodies(es)|, |Centrals(es, 0)|, es[i], OffsetOf(es, 0, i);
    var start := from + 30 + |e.name|;
    var end := start + |e.data|;
    FitsUnfolded(es);
    ArchiveHolds(es, i);
    HoldsSlice(a, start, e.data);
    Unchanged(a, b, o, Centrals(es, 0), start, end);
    Unchanged(a, b, o + s, EndRecord(|es|, s, o), start, end);
    Unchanged(a, b, from, LocalHeader(e), start, end);
    DamagedData(a, b, start, end, at);
    DamagedIs(b, from, e);
    ReadCentralRejects(b, o, es, 0, i);
    ReadFromEnd(b, |es|, s, o);
  }

  lemma FitsUnfolded(es: seq<Entry>)
    requires Fits(es)
    ensures |es| < WORD_LIMIT && |Bodies(es)| < LONG_LIMIT && |Centrals(es, 0)| < LONG_LIMIT
    ensures forall e <- es :: |e.name| < WORD_LIMIT && |e.data| < LONG_LIMIT
  {
  }

  lemma HoldsSlice(b: seq<bv8>, at: nat, piece: seq<bv8>)
    requires Holds(b, at, piece)
    ensures at + |piece| <= |b| && b[at..at + |piece|] == piece
  {
  }

  lemma ReadFromEnd(b: seq<bv8>, count: nat, size: nat, offset: nat)
    requires count < WORD_LIMIT && size < LONG_LIMIT && offset < LONG_LIMIT && |b| == offset + size + 22
    requires Holds(b, offset + size, EndRecord(count, size, offset))
    ensures Read(b) == ReadCentral(b, offset, offset + size, count)
  {
    hide U16, U32, EndRecord, ReadCentral, FindEnd;
    EndBack(b, offset + size, count, size, offset);
  }

  lemma Unchanged(a: seq<bv8>, b: seq<bv8>, at: nat, piece: seq<bv8>, start: nat, end: nat)
    requires DiffersOnlyWithin(a, b, start, end)
    requires Holds(a, at, piece) && (at + |piece| <= start || end <= at)
    ensures |b| == |a| && Holds(b, at, piece)
  {
    assert b[at..at + |piece|] == a[at..at + |piece|];
  }

  lemma DamagedData(a: seq<bv8>, b: seq<bv8>, start: nat, end: nat, at: nat)
    requires start <= end <= |a| == |b| && a != b
    requires DiffersOnlyWithin(a, b, start, end) && DiffersOnlyWithin(a, b, at, at + 4)
    ensures Crc32.Reference(b[start..end]) != Crc32.Reference(a[start..end])
  {
    hide Crc32.Reference;
    var u, v := a[start..end], b[start..end];
    var k :| 0 <= k < |b| && b[k] != a[k];
    assert u[k - start] != v[k - start];
    var w := if at < start then 0 else at - start;
    Crc32.FourByteChangeDetected(u, v, w);
  }
}

/** The program's writer. */
module ZipStore {
  import opened Wrappers
  import opened ZipFormat
  import Crc32

  // ----- filling a header buffer at fixed offsets -----------------------------------

  function Zeros(n: nat): (r: seq<bv8>)
    ensures |r| == n
  {
    seq(n, i => 0)
  }

  /** What has been written so far, and zeros up to length `n`. */
  function Padded(written: seq<bv8>, n: nat): (r: seq<bv8>)
    requires |written| <= n
    ensures |r| == n
  {
    written + Zeros(n - |written|)
  }

  lemma WriteAt(before: seq<bv8>, after: seq<bv8>, written: seq<bv8>, at: nat, piece: seq<bv8>)
    requires |written| <= at && at + |piece| <= |before| == |after|
    requires before == Padded(written, |before|)
    requires after == before[..at] + piece + before[at + |piece|..]
    ensures after == Padded(Padded(written, at) + piece, |after|)
  {
  }

  method SetUint16(a: array<bv8>, at: nat, v: nat, ghost written: seq<bv8>)
    requires |written| <= at && at + 2 <= a.Length && a[..] == Padded(written, a.Length)
    modifies a
    ensures a[..] == Padded(Padded(written, at) + Le16(v), a.Length)
  {
    hide Padded, Byte;
    ghost var before := a[..];
    a[at] := Byte(v);
    a[at + 1] := Byte(v / 256);
    WriteAt(before, a[..], written, at, Le16(v));
  }

  method SetUint32(a: array<bv8>, at: nat, v: nat, ghost written: seq<bv8>)
    requires |written| <= at && at + 4 <= a.Length && a[..] == Padded(written, a.Length)
    modifies a
    ensures a[..] == Padded(Padded(written, at) + Le32(v), a.Length)
  {
    hide Padded, Byte;
    ghost var before := a[..];
    a[at] := Byte(v);
    a[at + 1] := Byte(v / 256);
    a[at + 2] := Byte(v / 65536);
    a[at + 3] := Byte(v / 16777216);
    WriteAt(before, a[..], written, at, Le32(v));
  }

  lemma LowByteOfWord(c: bv32)
    ensures ByteOf(Crc32.WordBits(c)[..8]) == (c & 0xFF) as bv8
  {
    var r := Crc32.WordBits(c);
    assert r[0] == Crc32.Bit(c, 1) && r[1] == Crc32.Bit(c, 2) && r[2] == Crc32.Bit(c, 4) && r[3] == Crc32.Bit(c, 8);
    assert r[4] == Crc32.Bit(c, 16) && r[5] == Crc32.Bit(c, 32) && r[6] == Crc32.Bit(c, 64)
           && r[7] == Crc32.Bit(c, 128);
  }

  lemma ByteAbove(c: bv32, d: bv32)
    requires d == c >> 8
    ensures Crc32.WordBits(d) == Crc32.Padded(Crc32.WordBits(c)[8..])
  {
    hide *;
    Crc32.WordByteDown(c);
  }

  lemma BytesAbove(r: Crc32.Register, r1: Crc32.Register, r2: Crc32.Register, r3: Crc32.Register)
    requires r1 == Crc32.Padded(r[8..]) && r2 == Crc32.Padded(r1[8..]) && r3 == Crc32.Padded(r2[8..])
    ensures RegisterBytes(r) == [ByteOf(r[..8]), ByteOf(r1[..8]), ByteOf(r2[..8]), ByteOf(r3[..8])]
  {
    hide ByteOf;
    assert r1[..8] == r[8..16];
    assert r2[..8] == r[16..24];
    assert r3[..8] == r[24..];
  }

  /** The next byte down, with its register. */
  method DropByte(c: bv32) returns (d: bv32, low: bv8)
    ensures d == c >> 8 && low == ByteOf(Crc32.WordBits(c)[..8])
    ensures Crc32.WordBits(d) == Crc32.Padded(Crc32.WordBits(c)[8..])
  {
    hide *;
    d := c >> 8;
    low := (c & 0xFF) as bv8;
    LowByteOfWord(c);
    ByteAbove(c, d);
  }

  /** The four bytes that a little-endian 32-bit store leaves behind. */
  method WordBytes(c: bv32) returns (s: seq<bv8>)
    ensures s == RegisterBytes(Crc32.WordBits(c))
  {
    hide *;
    var d1, b0 := DropByte(c);
    var d2, b1 := DropByte(d1);
    var d3, b2 := DropByte(d2);
    var d4, b3 := DropByte(d3);
    s := [b0, b1, b2, b3];
    BytesAbove(Crc32.WordBits(c), Crc32.WordBits(d1), Crc32.WordBits(d2), Crc32.WordBits(d3));
  }

  method SetCrc(a: array<bv8>, at: nat, crc: bv32, ghost written: seq<bv8>)
    requires |written| <= at && at + 4 <= a.Length && a[..] == Padded(written, a.Length)
    modifies a
    ensures a[..] == Padded(Padded(written, at) + RegisterBytes(Crc32.WordBits(crc)), a.Length)
  {
    hide Padded, RegisterBytes, Crc32.WordBits;
    ghost var before := a[..];
    var s := WordBytes(crc);
    a[at], a[at + 1], a[at + 2], a[at + 3] := s[0], s[1], s[2], s[3];
    WriteAt(before, a[..], written, at, s);
  }

  method SetBytes(a: array<bv8>, at: nat, bytes: seq<bv8>, ghost written: seq<bv8>)
    requires |written| <= at && at + |bytes| == a.Length && a[..] == Padded(written, a.Length)
    modifies a
    ensures a[..] == Padded(written, at) + bytes
  {
    forall i | 0 <= i < |bytes| {
      a[at + i] := bytes[i];
    }
  }

  lemma ZeroByte()
    ensures Byte(0) == 0
  {
  }

  lemma PaddedSame(w: seq<bv8>)
    ensures Padded(w, |w|) == w
  {
  }

  /** A skipped 16-bit field stays zero. */
  lemma PaddedSkip(w: seq<bv8>, at: nat)
    requires at == |w| + 2
    ensures Padded(w, at) == w + Le16(0)
  {
    ZeroByte();
  }

  /** The local header buffer of one entry. */
  method LocalHeaderBuffer(e: Entry, crc: bv32) returns (lh: array<bv8>)
    requires Crc32.WordBits(crc) == Crc32.Reference(e.data)
    ensures fresh(lh) && lh[..] == LocalHeader(e)
  {
    hide Padded, Le16, Le32, RegisterBytes, Crc32.WordBits, Crc32.Reference;
    lh := new bv8[30 + |e.name|](_ => 0);
    ghost var w: seq<bv8> := [];
    assert lh[..] == Padded(w, lh.Length) by {
      AllZero(lh[..]);
    }
    SetUint32(lh, 0, 0x04034b50, w);
    PaddedSame(w);
    w := w + Le32(0x04034b50);
    SetUint16(lh, 4, 20, w);
    PaddedSame(w);
    w := w + Le16(20);
    SetUint16(lh, 8, 0, w);
    PaddedSkip(w, 8);
    w := w + Le16(0) + Le16(0);
    SetUint16(lh, 12, 0x21, w);
    PaddedSkip(w, 12);
    w := w + Le16(0) + Le16(0x21);
    SetCrc(lh, 14, crc, w);
    PaddedSame(w);
    w := w + CrcField(e.data);
    SetUint32(lh, 18, |e.data|, w);
    PaddedSame(w);
    w := w + Le32(|e.data|);
    SetUint32(lh, 22, |e.data|, w);
    PaddedSame(w);
    w := w + Le32(|e.data|);
    SetUint16(lh, 26, |e.name|, w);
    PaddedSame(w);
    w := w + Le16(|e.name|);
    SetBytes(lh, 30, e.name, w);
    PaddedSkip(w, 30);
    assert w + Le16(0) == LocalFixed(e);
  }

  lemma AllZero(s: seq<bv8>)
    requires forall i :: 0 <= i < |s| ==> s[i] == 0
    ensures s == Padded([], |s|)
  {
  }

  /** The central directory buffer of one entry. */
  method CentralHeaderBuffer(e: Entry, crc: bv32, offset: nat) returns (ch: array<bv8>)
    requires Crc32.WordBits(crc) == Crc32.Reference(e.data)
    ensures fresh(ch) && ch[..] == CentralHeader(e, offset)
  {
    hide Padded, Le16, Le32, RegisterBytes, Crc32.WordBits, Crc32.Reference;
    ch := new bv8[46 + |e.name|](_ => 0);
    ghost var w: seq<bv8> := [];
    assert ch[..] == Padded(w, ch.Length) by {
      AllZero(ch[..]);
    }
    SetUint32(ch, 0, 0x02014b50, w);
    PaddedSame(w);
    w := w + Le32(0x02014b50);
    SetUint16(ch, 4, 20, w);
    PaddedSame(w);
    w := w + Le16(20);
    SetUint16(ch, 6, 20, w);
    PaddedSame(w);
    w := w + Le16(20);
    PaddedSkip3(w, 14);
    SetUint16(ch, 14, 0x21, w);
    w := w + Le16(0) + Le16(0) + Le16(0) + Le16(0x21);
    SetCrc(ch, 16, crc, w);
    PaddedSame(w);
    w := w + CrcField(e.data);
    SetUint32(ch, 20, |e.data|, w);
    PaddedSame(w);
    w := w + Le32(|e.data|);
    SetUint32(ch, 24, |e.data|, w);
    PaddedSame(w);
    w := w + Le32(|e.data|);
    SetUint16(ch, 28, |e.name|, w);
    PaddedSame(w);
    w := w + Le16(|e.name|);
    PaddedSkip6(w, 42);
    SetUint32(ch, 42, offset, w);
    w := w + Le16(0) + Le16(0) + Le16(0) + Le16(0) + Le32(0) + Le32(offset);
    PaddedSame(w);
    SetBytes(ch, 46, e.name, w);
    assert w == CentralFixed(e, offset);
  }

  /** Skipped fields stay zero. */
  lemma PaddedSkip3(w: seq<bv8>, at: nat)
    requires at == |w| + 6
    ensures Padded(w, at) == w + Le16(0) + Le16(0) + Le16(0)
  {
    ZeroByte();
  }

  lemma PaddedSkip6(w: seq<bv8>, at: nat)
    requires at == |w| + 12
    ensures Padded(w, at) == w + Le16(0) + Le16(0) + Le16(0) + Le16(0) + Le32(0)
  {
    ZeroByte();
  }

  method EndRecordBuffer(count: nat, size: nat, offset: nat) returns (eocd: array<bv8>)
    ensures fresh(eocd) && eocd[..] == EndRecord(count, size, offset)
  {
    hide Padded, Le16, Le32;
    eocd := new bv8[22](_ => 0);
    ghost var w: seq<bv8> := [];
    assert eocd[..] == Padded(w, eocd.Length) by {
      AllZero(eocd[..]);
    }
    SetUint32(eocd, 0, 0x06054b50, w);
    PaddedSame(w);
    w := w + Le32(0x06054b50);
    PaddedSkip(w, 6);
    PaddedSkip(w + Le16(0), 8);
    PaddedTwice(w, 6, 8);
    SetUint16(eocd, 8, count, w);
    w := w + Le16(0) + Le16(0) + Le16(count);
    SetUint16(eocd, 10, count, w);
    PaddedSame(w);
    w := w + Le16(count);
    SetUint32(eocd, 12, size, w);
    PaddedSame(w);
    w := w + Le32(size);
    SetUint32(eocd, 16, offset, w);
    PaddedSame(w);
    w := w + Le32(offset);
    PaddedSkip(w, 22);
    assert w + Le16(0) == EndRecord(count, size, offset);
  }

  lemma PaddedTwice(w: seq<bv8>, m: nat, n: nat)
    requires |w| <= m <= n
    ensures Padded(Padded(w, m), n) == Padded(w, n)
  {
  }

  // ----- the archive ------------------------------------------------------------------

  function Flat(chunks: seq<seq<bv8>>): seq<bv8> {
    if chunks == [] then [] else Flat(chunks[..|chunks| - 1]) + chunks[|chunks| - 1]
  }

  lemma FlatLast(chunks: seq<seq<bv8>>, c: seq<bv8>)
    ensures Flat(chunks + [c]) == Flat(chunks) + c
  {
    assert (chunks + [c])[..|chunks|] == chunks;
  }

  lemma {:induction false} FlatConcat(p: seq<seq<bv8>>, q: seq<seq<bv8>>)
    ensures Flat(p + q) == Flat(p) + Flat(q)
    decreases |q|
  {
    if q == [] {
      assert p + q == p;
    } else {
      var k := |q| - 1;
      assert (p + q)[..|p + q| - 1] == p + q[..k];
      FlatConcat(p, q[..k]);
    }
  }

  lemma {:induction false} BodiesLast(es: seq<Entry>, e: Entry)
    ensures Bodies(es + [e]) == Bodies(es) + LocalHeader(e) + e.data
    decreases |es|
  {
    hide LocalHeader;
    if es == [] {
      assert Bodies([e][1..]) == [];
    } else {
      assert (es + [e])[1..] == es[1..] + [e];
      BodiesLast(es[1..], e);
    }
  }

  lemma {:induction false} CentralsLast(es: seq<Entry>, e: Entry, offset: nat)
    ensures Centrals(es + [e], offset) == Centrals(es, offset) + CentralHeader(e, offset + |Bodies(es)|)
    decreases |es|
  {
    hide *;
    CentralsStep(es + [e], offset);
    CentralsStep(es, offset);
    if es == [] {
      NoBodies();
      assert es + [e] == [e] && [e][1..] == [];
      CentralsStep([], offset + 30 + |e.name| + |e.data|);
    } else {
      var next := offset + 30 + |es[0].name| + |es[0].data|;
      assert (es + [e])[1..] == es[1..] + [e];
      CentralsLast(es[1..], e, next);
      BodiesStep(es, offset);
    }
  }

  lemma NoBodies()
    ensures Bodies([]) == []
  {
  }

  lemma FlatNone()
    ensures Flat([]) == []
  {
  }

  lemma FlatOne(c: seq<bv8>)
    ensures Flat([c]) == c
  {
    assert [c][..0] == [];
  }

  /** Copies the chunks one after the other into a buffer of their total length. */
  method Join(chunks: seq<seq<bv8>>) returns (out: array<bv8>)
    ensures fresh(out) && out[..] == Flat(chunks)
  {
    hide Flat;
    FlatNone();
    var total := 0;
    for i := 0 to |chunks|
      invariant total == |Flat(chunks[..i])|
    {
      assert chunks[..i + 1] == chunks[..i] + [chunks[i]];
      FlatLast(chunks[..i], chunks[i]);
      total := total + |chunks[i]|;
    }
    assert chunks[..|chunks|] == chunks;
    out := new bv8[total](_ => 0);
    var p := 0;
    for i := 0 to |chunks|
      invariant p == |Flat(chunks[..i])| && p + |Flat(chunks[i..])| == total
      invariant out[..p] == Flat(chunks[..i])
    {
      ghost var done := Flat(chunks[..i]);
      assert chunks[i..] == [chunks[i]] + chunks[i + 1..];
      FlatConcat([chunks[i]], chunks[i + 1..]);
      FlatConcat(chunks[..i], [chunks[i]]);
      assert chunks[..i + 1] == chunks[..i] + [chunks[i]];
      FlatOne(chunks[i]);
      forall k | 0 <= k < |chunks[i]| {
        out[p + k] := chunks[i][k];
      }
      p := p + |chunks[i]|;
      assert out[..p] == done + chunks[i];
    }
    assert chunks[..|chunks|] == chunks;
    assert out[..] == out[..p];
  }

  /** Packs the entries; what comes out is the archive of the format, byte for byte. */
  method ZipStore(table: array<bv32>, entries: seq<Entry>) returns (out: array<bv8>)
    requires Crc32.IsTable(table[..])
    ensures fresh(out) && out[..] == Archive(entries)
    ensures Read(out[..]) == Some(entries) <==> Fits(entries)
  {
    hide Bodies, Archive, Fits, Read, Centrals, LocalHeader, CentralHeader, EndRecord, Crc32.WordBits,
         Crc32.Reference, Crc32.IsTable;
    var body: seq<seq<bv8>>, central: seq<seq<bv8>>, offset := [], [], 0;
    StartEmpty(entries);
    for i := 0 to |entries|
      invariant Flat(body) == Bodies(entries[..i])
      invariant Flat(central) == Centrals(entries[..i], 0)
      invariant offset == |Flat(body)|
    {
      var e := entries[i];
      var crc := Crc32.Checksum(table, e.data);
      var lh := LocalHeaderBuffer(e, crc);
      FlatLast(body, lh[..]);
      FlatLast(body + [lh[..]], e.data);
      body := body + [lh[..]] + [e.data];
      var ch := CentralHeaderBuffer(e, crc, offset);
      FlatLast(central, ch[..]);
      central := central + [ch[..]];
      offset := offset + lh.Length + |e.data|;
      assert entries[..i + 1] == entries[..i] + [e];
      BodiesLast(entries[..i], e);
      CentralsLast(entries[..i], e, 0);
    }
    assert entries[..|entries|] == entries;
    var centralSize := 0;
    for i := 0 to |central|
      invariant centralSize == |Flat(central[..i])|
    {
      assert central[..i + 1] == central[..i] + [central[i]];
      FlatLast(central[..i], central[i]);
      centralSize := centralSize + |central[i]|;
    }
    assert central[..|central|] == central;
    var eocd := EndRecordBuffer(|entries|, centralSize, offset);
    FlatConcat(body, central);
    FlatLast(body + central, eocd[..]);
    out := Join(body + central + [eocd[..]]);
    ArchiveParts(entries);
    RoundTrip(entries);
  }

  lemma StartEmpty(es: seq<Entry>)
    ensures Bodies(es[..0]) == [] && Centrals(es[..0], 0) == [] && Flat([]) == []
  {
  }
}
