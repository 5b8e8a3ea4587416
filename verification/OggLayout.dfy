/**
  The bytes of a recording where a decoder looks for them: every field of a page
  header at its offset (section 6 of RFC 3533), the two Opus headers (section 5 of
  RFC 7845), and from page to page of a whole file.
 */
module OggLayout {
  import opened Wrappers
  import opened OggCrc
  import opened OggPages
  import opened CallRecorder

  // Numbers in bytes ------------------------------------------------------------------

  /** Four bytes from `at` on, least significant first. */
  function Number4(bytes: seq<Byte>, at: nat): nat
    requires at + 4 <= |bytes|
  {
    var (b0, b1, b2, b3) := (bytes[at] as int, bytes[at + 1] as int, bytes[at + 2] as int, bytes[at + 3] as int);
    b0 + 0x100 * b1 + 0x1_0000 * b2 + 0x100_0000 * b3
  }

  function Number8(bytes: seq<Byte>, at: nat): nat
    requires at + 8 <= |bytes|
  {
    Number4(bytes, at) + 0x1_0000_0000 * Number4(bytes, at + 4)
  }

  /** Splitting off the lowest byte of a remainder. */
  lemma LowestByte(n: nat, m: nat)
    requires m > 0
    ensures n % (256 * m) == n % 256 + 256 * (n / 256 % m)
  {
    var q, r := n / 256, n % 256;
    var a, b := q / m, q % m;
    assert q == m * a + b;
    assert n == 256 * (m * a + b) + r;
    assert 256 * (m * a) == (256 * m) * a;
    assert n == (256 * m) * a + (256 * b + r) && 256 * b + r < 256 * m;
    Remainder(n, 256 * m, a, 256 * b + r);
  }

  lemma Remainder(n: nat, d: nat, q: nat, r: nat)
    requires d > 0 && n == d * q + r && r < d
    ensures n % d == r && n / d == q
  {
    var e: int := n / d - q;
    assert n == d * (n / d) + n % d;
    assert d * (n / d) - d * q == d * e;
    assert e > 0 ==> d * e >= d;
    assert e < 0 ==> d * e + d <= 0;
  }

  lemma FourBytes(n: nat)
    ensures Number4(LittleEndian(n, 4), 0) == n % 0x1_0000_0000
  {
    var b := LittleEndian(n, 4);
    assert b[0] == n % 256 && b[1..] == LittleEndian(n / 256, 3);
    assert b[1] == n / 256 % 256 && b[1..][1..] == LittleEndian(n / 256 / 256, 2);
    assert b[2] == n / 256 / 256 % 256 && b[1..][1..][1..] == LittleEndian(n / 256 / 256 / 256, 1);
    assert b[3] == n / 256 / 256 / 256 % 256;
    LowestByte(n, 0x100_0000);
    LowestByte(n / 256, 0x1_0000);
    LowestByte(n / 256 / 256, 0x100);
  }

  lemma EightBytes(n: nat)
    ensures Number8(LittleEndian(n, 8), 0) == n % 0x1_0000_0000_0000_0000
  {
    var high := n / 256 / 256 / 256 / 256;
    FourBytes(n);
    FourBytes(high);
    LowAndHigh(n);
    var b := LittleEndian(n, 8);
    assert b[4..] == LittleEndian(high, 4) && b[..4] == LittleEndian(n, 4) by {
      HighBytes(n);
    }
    assert Number4(b, 0) == Number4(b[..4], 0) && Number4(b, 4) == Number4(b[4..], 0);
  }

  lemma HighBytes(n: nat)
    ensures LittleEndian(n, 8)[4..] == LittleEndian(n / 256 / 256 / 256 / 256, 4)
    ensures LittleEndian(n, 8)[..4] == LittleEndian(n, 4)
  {
    var b, c := LittleEndian(n, 8), LittleEndian(n, 4);
    assert b[1..] == LittleEndian(n / 256, 7) && c[1..] == LittleEndian(n / 256, 3);
    assert b[1..][1..] == LittleEndian(n / 256 / 256, 6) && c[1..][1..] == LittleEndian(n / 256 / 256, 2);
    assert b[1..][1..][1..] == LittleEndian(n / 256 / 256 / 256, 5) && c[1..][1..][1..] == LittleEndian(n / 256 / 256 / 256, 1);
    assert b[1..][1..][1..][1..] == LittleEndian(n / 256 / 256 / 256 / 256, 4);
  }

  lemma LowAndHigh(n: nat)
    ensures n % 0x1_0000_0000_0000_0000 ==
            n % 0x1_0000_0000 + 0x1_0000_0000 * (n / 256 / 256 / 256 / 256 % 0x1_0000_0000)
  {
    LowestByte(n, 0x100_0000_0000_0000);
    LowestByte(n / 256, 0x1_0000_0000_0000);
    LowestByte(n / 256 / 256, 0x100_0000_0000);
    LowestByte(n / 256 / 256 / 256, 0x1_0000_0000);
    LowestByte(n, 0x100_0000);
    LowestByte(n / 256, 0x1_0000);
    LowestByte(n / 256 / 256, 0x100);
  }

  // One page ---------------------------------------------------------------------------

  /** Capture pattern, version 0, these flags, granule position, stream 0, page number. */
  predicate HeaderSays(bytes: seq<Byte>, flags: Byte, granule: nat, sequence: nat)
  {
    && |bytes| >= 27
    && bytes[0] == 'O' as int && bytes[1] == 'g' as int && bytes[2] == 'g' as int && bytes[3] == 'S' as int
    && bytes[4] == 0
    && bytes[5] == flags
    && Number8(bytes, 6) == granule % 0x1_0000_0000_0000_0000
    && Number4(bytes, 14) == 0
    && Number4(bytes, 18) == sequence % 0x1_0000_0000
  }

  /** After the header: the count's lowest byte, the segment table, the payload. */
  predicate BodyIs(bytes: seq<Byte>, segments: seq<Byte>, payload: seq<Byte>)
  {
    |bytes| >= 27 && bytes[26] == |segments| % 256 && bytes[27..] == segments + payload
  }

  /** The twenty-two bytes before the checksum, piece by piece. */
  lemma Pieces22(start: seq<Byte>, granule: seq<Byte>, serial: seq<Byte>, sequence: seq<Byte>, rest: seq<Byte>)
    requires |start| == 6 && |granule| == 8 && |serial| == 4 && |sequence| == 4
    ensures var bytes := start + granule + serial + sequence + rest;
      && bytes[..6] == start
      && Number8(bytes, 6) == Number8(granule, 0)
      && Number4(bytes, 14) == Number4(serial, 0)
      && Number4(bytes, 18) == Number4(sequence, 0)
  {
  }

  lemma FrontSays(front: seq<Byte>, flags: Byte, granule: nat, sequence: nat, rest: seq<Byte>)
    requires front == Signature() + [0, flags] + LittleEndian(granule, 8) + LittleEndian(0, 4) + LittleEndian(sequence, 4)
    requires |rest| >= 5
    ensures HeaderSays(front + rest, flags, granule, sequence)
  {
    EightBytes(granule);
    FourBytes(0);
    FourBytes(sequence);
    Pieces22(Signature() + [0, flags], LittleEndian(granule, 8), LittleEndian(0, 4), LittleEndian(sequence, 4), rest);
    assert (front + rest)[..6] == [0x4F, 0x67, 0x67, 0x53, 0, flags];
  }

  lemma AfterTheChecksum(front: seq<Byte>, checksum: seq<Byte>, count: Byte, segments: seq<Byte>, payload: seq<Byte>)
    requires |front| == 22 && |checksum| == 4
    ensures var rest := checksum + ([count] + segments + payload);
      && front + checksum + ([count] + segments + payload) == front + rest
      && |rest| >= 5
      && (front + rest)[26] == count && (front + rest)[27..] == segments + payload
  {
    var rest := checksum + ([count] + segments + payload);
    assert rest[4] == count && rest[5..] == segments + payload;
    assert (front + rest)[27..] == rest[5..];
  }

  /** Every page carries its fields where the format has them. */
  lemma PageIsLaidOut(p: Page)
    ensures HeaderSays(Encode(p), p.flags, p.granule, p.sequence)
    ensures BodyIs(Encode(p), p.segments, p.payload)
  {
    var front, checksum, count := Front(p), Checksum(p), CountByte(p);
    AfterTheChecksum(front, checksum, count, p.segments, p.payload);
    FrontSays(front, p.flags, p.granule, p.sequence, checksum + ([count] + p.segments + p.payload));
  }

  // A whole recording ------------------------------------------------------------------

  /** The characters of `text` from byte `at` on. */
  predicate Text(bytes: seq<Byte>, at: nat, text: string)
  {
    at + |text| <= |bytes| && forall k :: 0 <= k < |text| ==> bytes[at + k] == text[k] as int
  }

  /** Section 5.1 of RFC 7845: version 1, mono, no pre-skip, 48 kHz, no gain, mapping family 0. */
  predicate IdentificationHeader(payload: seq<Byte>)
  {
    && |payload| == 19
    && Text(payload, 0, "OpusHead")
    && payload[8] == 1
    && payload[9] == 1
    && payload[10] == 0 && payload[11] == 0
    && Number4(payload, 12) == 48000
    && payload[16] == 0 && payload[17] == 0
    && payload[18] == 0
  }

  /** Section 5.2: a vendor, its length first, and the number of comments. */
  predicate CommentHeader(payload: seq<Byte>)
  {
    && |payload| == 21
    && Text(payload, 0, "OpusTags")
    && Number4(payload, 8) == 5
    && Text(payload, 12, "wacrm")
    && Number4(payload, 17) == 0
  }

  lemma HeadersSay()
    ensures IdentificationHeader(OpusHead())
    ensures CommentHeader(OpusTags())
  {
  }

  /** Page `i` of a recording of `n` packets: beginning and end of stream, 960 samples for every packet so far, its number. */
  predicate PageSays(bytes: seq<Byte>, i: nat, n: nat, last: bool)
  {
    var so_far := if i < 2 then 0 else if 48 * (i - 1) <= n then 48 * (i - 1) else n;
    HeaderSays(bytes, if i == 0 then 2 else if i >= 2 && last && n % 48 != 0 then 4 else 0, 960 * so_far, i)
  }

  /** A header packet of its own page: one lacing value, then the packet. */
  predicate CarriesAlone(bytes: seq<Byte>, packet: Packet)
  {
    |packet| < 255 && BodyIs(bytes, [|packet|], packet)
  }

  ghost predicate WellFormed(chunks: seq<seq<Byte>>, packets: seq<Packet>)
  {
    && |chunks| == 2 + (|packets| + 47) / 48
    && (forall i :: 0 <= i < |chunks| ==> PageSays(chunks[i], i, |packets|, i == |chunks| - 1))
    && (exists head :: IdentificationHeader(head) && CarriesAlone(chunks[0], head))
    && (exists tags :: CommentHeader(tags) && CarriesAlone(chunks[1], tags))
  }

  lemma AudioChunkSays(packets: seq<Packet>, i: nat, p: Page)
    requires i < |AudioPages(packets)| && p == AudioPages(packets)[i]
    ensures PageSays(Encode(p), i + 2, |packets|, i == |AudioPages(packets)| - 1)
  {
    AudioPageAt(packets, i);
    WhichIsLast(|packets|, i);
    PageIsLaidOut(p);
  }

  lemma HeaderChunkSays(flags: Byte, i: nat, packet: Packet, n: nat)
    requires i < 2 && flags == (if i == 0 then 2 else 0) && |packet| < 255
    ensures PageSays(Encode(HeaderPage(flags, i, packet)), i, n, false)
    ensures PageSays(Encode(HeaderPage(flags, i, packet)), i, n, true)
    ensures CarriesAlone(Encode(HeaderPage(flags, i, packet)), packet)
  {
    PageIsLaidOut(HeaderPage(flags, i, packet));
  }

  /**
    A recording's file is a run of well formed pages: the two headers Opus asks for,
    then the audio, each page with its number, the samples so far and its marks, all
    at their places in the file.
   */
  lemma FileIsWellFormed(headers: seq<Page>, packets: seq<Packet>, file: seq<Byte>)
    requires headers == HeaderPages() && Holds(file, headers + AudioPages(packets))
    ensures exists chunks :: file == Joined(chunks) && WellFormed(chunks, packets)
  {
    var audio := AudioPages(packets);
    var pages := headers + audio;
    var chunks :| file == Joined(chunks) && Written(chunks, pages);
    HeadersSay();
    ChunksAreWellFormed(chunks, pages, audio, packets, OpusHead(), OpusTags());
  }

  lemma ChunksAreWellFormed(chunks: seq<seq<Byte>>, pages: seq<Page>, audio: seq<Page>, packets: seq<Packet>,
    head: Packet, tags: Packet)
    requires audio == AudioPages(packets) && Written(chunks, pages)
    requires pages == [HeaderPage(2, 0, head), HeaderPage(0, 1, tags)] + audio
    requires IdentificationHeader(head) && CommentHeader(tags)
    ensures WellFormed(chunks, packets)
  {
    HeaderChunksSay(chunks, pages, packets, head, tags);
    HowMany(packets);
    forall i | 2 <= i < |chunks|
      ensures PageSays(chunks[i], i, |packets|, i == |chunks| - 1)
    {
      assert chunks[i] == Encode(pages[i]) && pages[i] == audio[i - 2];
      AudioChunkSays(packets, i - 2, audio[i - 2]);
    }
  }

  lemma HeaderChunksSay(chunks: seq<seq<Byte>>, pages: seq<Page>, packets: seq<Packet>, head: Packet, tags: Packet)
    requires Written(chunks, pages) && |pages| >= 2 && |head| < 255 && |tags| < 255
    requires pages[0] == HeaderPage(2, 0, head) && pages[1] == HeaderPage(0, 1, tags)
    ensures forall i, last :: 0 <= i < 2 ==> PageSays(chunks[i], i, |packets|, last)
    ensures CarriesAlone(chunks[0], head) && CarriesAlone(chunks[1], tags)
  {
    var first, second := Encode(pages[0]), Encode(pages[1]);
    assert chunks[0] == first && chunks[1] == second;
    HeaderChunkSays(2, 0, head, |packets|);
    HeaderChunkSays(0, 1, tags, |packets|);
  }

  lemma HowMany(packets: seq<Packet>)
    ensures |AudioPages(packets)| == (|packets| + 47) / 48
  {
    if AudioPages(packets) != [] {
      AudioPageAt(packets, 0);
    }
  }
}
