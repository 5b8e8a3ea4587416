/**
  The call recorder: buffers Opus packets, writes a page every 48 of them and the
  rest when it stops (sections 4 and 5 of RFC 7845). What it writes reads back as
  the packets it was given.
 */
module CallRecorder {
  import opened Wrappers
  import opened OggCrc
  import opened OggOverflow
  import opened OggPages

  const SAMPLES_PER_FRAME := 960
  const MAX_PAGE_PACKETS := 48

  const BEGINS_STREAM: Byte := 2
  const ENDS_STREAM: Byte := 4

  // The recording of a sequence of packets ----------------------------------------

  /** A page of packets, `before` of which come earlier in the stream. */
  function AudioPage(packets: seq<Packet>, before: nat, sequence: nat, flags: Byte): Page
  {
    Page(flags, SAMPLES_PER_FRAME * (before + |packets|), sequence, Lacings(packets), Joined(packets))
  }

  function HeaderPage(flags: Byte, sequence: nat, payload: seq<Byte>): Page
  {
    Page(flags, 0, sequence, Lacing(|payload|), payload)
  }

  /** "OpusHead"; version 1, one channel; no pre-skip; 48 kHz; no gain; mapping family 0. */
  function OpusHead(): seq<Byte>
  {
    [0x4F, 0x70, 0x75, 0x73, 0x48, 0x65, 0x61, 0x64, 1, 1, 0, 0, 0x80, 0xBB, 0, 0, 0, 0, 0]
  }

  /** "OpusTags"; the vendor, 5 bytes: "wacrm"; no comments. */
  function OpusTags(): seq<Byte>
  {
    [0x4F, 0x70, 0x75, 0x73, 0x54, 0x61, 0x67, 0x73, 5, 0, 0, 0, 0x77, 0x61, 0x63, 0x72, 0x6D, 0, 0, 0, 0]
  }

  function HeaderPages(): seq<Page>
  {
    [HeaderPage(BEGINS_STREAM, 0, OpusHead()), HeaderPage(0, 1, OpusTags())]
  }

  /** The first `k` full pages. */
  function FullPages(packets: seq<Packet>, k: nat): (pages: seq<Page>)
    requires MAX_PAGE_PACKETS * k <= |packets|
    ensures |pages| == k
  {
    if k == 0 then []
    else
      var from := MAX_PAGE_PACKETS * (k - 1);
      FullPages(packets, k - 1) + [AudioPage(packets[from..from + MAX_PAGE_PACKETS], from, k + 1, 0)]
  }

  /** The final page, when packets are left over: only then is the end of the stream marked. */
  function FinalPages(rest: seq<Packet>, k: nat): seq<Page>
  {
    if rest == [] then [] else [AudioPage(rest, MAX_PAGE_PACKETS * k, k + 2, ENDS_STREAM)]
  }

  function AudioPages(packets: seq<Packet>): seq<Page>
  {
    var k := |packets| / MAX_PAGE_PACKETS;
    FullPages(packets, k) + FinalPages(packets[MAX_PAGE_PACKETS * k..], k)
  }

  lemma {:induction false} FullPagesAppend(packets: seq<Packet>, packet: Packet, k: nat)
    requires MAX_PAGE_PACKETS * k <= |packets|
    ensures FullPages(packets + [packet], k) == FullPages(packets, k)
  {
    if k > 0 {
      FullPagesAppend(packets, packet, k - 1);
      var from := MAX_PAGE_PACKETS * (k - 1);
      assert (packets + [packet])[from..from + MAX_PAGE_PACKETS] == packets[from..from + MAX_PAGE_PACKETS];
    }
  }

  /** What the recorder holds while it has written the full pages of `packets` and buffers the rest. */
  predicate Holding(buffered: seq<Packet>, granule: nat, sequence: nat, pages: seq<Page>, headers: seq<Page>,
    packets: seq<Packet>)
  {
    var k := |packets| / MAX_PAGE_PACKETS;
    && buffered == packets[MAX_PAGE_PACKETS * k..]
    && granule == SAMPLES_PER_FRAME * MAX_PAGE_PACKETS * k
    && sequence == k + 2
    && pages == headers + FullPages(packets, k)
  }

  /** One more packet is one more in the buffer. */
  lemma BufferOne(buffered: seq<Packet>, granule: nat, sequence: nat, pages: seq<Page>, headers: seq<Page>,
    packets: seq<Packet>, packet: Packet)
    requires Holding(buffered, granule, sequence, pages, headers, packets)
    requires |buffered| + 1 < MAX_PAGE_PACKETS
    ensures Holding(buffered + [packet], granule, sequence, pages, headers, packets + [packet])
  {
    var k := |packets| / MAX_PAGE_PACKETS;
    var more := packets + [packet];
    FullPagesAppend(packets, packet, k);
    assert more[MAX_PAGE_PACKETS * k..] == packets[MAX_PAGE_PACKETS * k..] + [packet];
  }

  /** Or one more page, and an empty buffer. */
  lemma FillPage(buffered: seq<Packet>, granule: nat, sequence: nat, pages: seq<Page>, headers: seq<Page>,
    packets: seq<Packet>, packet: Packet)
    requires Holding(buffered, granule, sequence, pages, headers, packets)
    requires |buffered| + 1 >= MAX_PAGE_PACKETS
    ensures |buffered| + 1 == MAX_PAGE_PACKETS
    ensures var before := |packets| / MAX_PAGE_PACKETS * MAX_PAGE_PACKETS;
      && granule == SAMPLES_PER_FRAME * before
      && Holding([], granule + SAMPLES_PER_FRAME * MAX_PAGE_PACKETS, sequence + 1,
                 pages + [AudioPage(buffered + [packet], before, sequence, 0)], headers, packets + [packet])
  {
    var k := |packets| / MAX_PAGE_PACKETS;
    var more := packets + [packet];
    FullPagesAppend(packets, packet, k);
    assert |more| == MAX_PAGE_PACKETS * k + MAX_PAGE_PACKETS;
    assert more[MAX_PAGE_PACKETS * k..] == buffered + [packet];
    assert more[MAX_PAGE_PACKETS * k..MAX_PAGE_PACKETS * k + MAX_PAGE_PACKETS] == more[MAX_PAGE_PACKETS * k..];
    assert more[MAX_PAGE_PACKETS * (k + 1)..] == [];
  }

  lemma NothingYet(buffered: seq<Packet>, granule: nat, sequence: nat, pages: seq<Page>, headers: seq<Page>,
    packets: seq<Packet>)
    requires buffered == [] && granule == 0 && sequence == 2 && pages == headers && packets == []
    ensures Holding(buffered, granule, sequence, pages, headers, packets)
  {
    assert headers + FullPages([], 0) == headers;
  }

  /** The buffer, if there is any, is the final page. */
  lemma LastPage(buffered: seq<Packet>, granule: nat, sequence: nat, pages: seq<Page>, headers: seq<Page>,
    packets: seq<Packet>)
    requires Holding(buffered, granule, sequence, pages, headers, packets)
    ensures var before := |packets| / MAX_PAGE_PACKETS * MAX_PAGE_PACKETS;
      && granule == SAMPLES_PER_FRAME * before
      && headers + AudioPages(packets) ==
           pages + if buffered == [] then [] else [AudioPage(buffered, before, sequence, ENDS_STREAM)]
  {
    var k := |packets| / MAX_PAGE_PACKETS;
    var full, final := FullPages(packets, k), FinalPages(buffered, k);
    assert headers + (full + final) == (headers + full) + final;
  }

  // What the recorder does ---------------------------------------------------------

  class Recorder {
    const table: array<seq<bool>>
    var file: seq<Byte>
    var granulePos: nat
    var pageSeqNo: nat
    var packetCount: nat
    var stopped: bool
    var writeErr: bool
    var pageBuf: seq<Packet>
    /** The pages written on creation. */
    ghost const headers: seq<Page>
    /** Every packet taken so far, every page written, and the bytes of each write. */
    ghost var packets: seq<Packet>
    ghost var pages: seq<Page>
    ghost var chunks: seq<seq<Byte>>

    ghost predicate Consistent()
      reads this, table
    {
      IsTable(table[..]) && file == Joined(chunks) && Written(chunks, pages)
    }

    /** Until a write fails, the file is the recording of the packets so far, short of those still buffered. */
    ghost predicate Valid()
      reads this, table
    {
      && Consistent()
      && |headers| == 2
      && (!writeErr ==> if stopped then pages == headers + AudioPages(packets) else Buffering())
    }

    ghost predicate Buffering()
      reads this
    {
      Holding(pageBuf, granulePos, pageSeqNo, pages, headers, packets)
    }

    constructor (table: array<seq<bool>>)
      requires IsTable(table[..])
      ensures Valid() && this.table == table
      ensures headers == HeaderPages()
      ensures !writeErr && !stopped && packets == [] && packetCount == 0
    {
      this.table := table;
      file := [];
      granulePos, pageSeqNo, packetCount, stopped, writeErr, pageBuf, packets := 0, 0, 0, false, false, [], [];
      headers, pages, chunks := HeaderPages(), [], [];
      new;
      WriteHeaders(OpusHead(), OpusTags());
    }

    /** The identification header and the comment header, a page each. */
    method WriteHeaders(opusHead: seq<Byte>, opusTags: seq<Byte>)
      requires Consistent() && headers == [HeaderPage(BEGINS_STREAM, 0, opusHead), HeaderPage(0, 1, opusTags)]
      requires pages == [] && pageSeqNo == 0 && granulePos == 0
      requires pageBuf == [] && packets == [] && !stopped
      modifies `file, `pageSeqNo, `pages, `chunks
      ensures Valid()
    {
      WritePage(opusHead, BEGINS_STREAM);
      WritePage(opusTags, 0);
      NothingYet(pageBuf, granulePos, pageSeqNo, pages, headers, packets);
    }

    method WritePacket(opusData: Packet, diskOk: bool)
      requires Valid() && packetCount == |packets|
      modifies this
      ensures Valid() && packetCount == |packets|
      ensures stopped == old(stopped)
      ensures packets == if stopped then old(packets) else old(packets) + [opusData]
      ensures diskOk ==> writeErr == old(writeErr)
    {
      if stopped {
        return;
      }
      if !writeErr && |pageBuf| + 1 < MAX_PAGE_PACKETS {
        BufferOne(pageBuf, granulePos, pageSeqNo, pages, headers, packets, opusData);
      } else if !writeErr {
        FillPage(pageBuf, granulePos, pageSeqNo, pages, headers, packets, opusData);
      }
      pageBuf := pageBuf + [opusData];
      packetCount := packetCount + 1;
      packets := packets + [opusData];
      if |pageBuf| >= MAX_PAGE_PACKETS {
        FlushPage(false, diskOk, |old(packets)| / MAX_PAGE_PACKETS * MAX_PAGE_PACKETS);
      }
    }

    method Stop(diskOk: bool) returns (count: nat, failed: bool)
      requires Valid() && packetCount == |packets|
      modifies this
      ensures Valid() && stopped && packets == old(packets)
      ensures count == |packets| && failed == writeErr
      ensures diskOk ==> writeErr == old(writeErr)
      ensures !failed ==> Holds(file, headers + AudioPages(packets))
    {
      if stopped {
        return packetCount, writeErr;
      }
      if !writeErr {
        LastPage(pageBuf, granulePos, pageSeqNo, pages, headers, packets);
        assert pages + [] == pages;
      }
      stopped := true;
      if |pageBuf| > 0 {
        FlushPage(true, diskOk, |packets| / MAX_PAGE_PACKETS * MAX_PAGE_PACKETS);
      }
      return packetCount, writeErr;
    }

    /** Writes the buffered packets as one page; on a failed write they stay buffered. `before` packets precede them. */
    method FlushPage(lastPage: bool, diskOk: bool, ghost before: nat)
      requires Consistent() && pageBuf != []
      modifies `file, `granulePos, `pageSeqNo, `writeErr, `pageBuf, `pages, `chunks
      ensures Consistent()
      ensures granulePos == old(granulePos) + SAMPLES_PER_FRAME * |old(pageBuf)|
      ensures diskOk ==>
        && (old(granulePos) == SAMPLES_PER_FRAME * before ==>
              pages == old(pages) + [AudioPage(old(pageBuf), before, old(pageSeqNo),
                                               if lastPage then ENDS_STREAM else 0)])
        && pageSeqNo == old(pageSeqNo) + 1
        && pageBuf == []
        && writeErr == old(writeErr)
      ensures !diskOk ==> writeErr && pageBuf == old(pageBuf) && file == old(file)
    {
      var segTable, payload := Layout(pageBuf);
      granulePos := granulePos + SAMPLES_PER_FRAME * |pageBuf|;
      var flags := if lastPage then ENDS_STREAM else 0;
      var page := Page(flags, granulePos, pageSeqNo, segTable, payload);
      assert old(granulePos) == SAMPLES_PER_FRAME * before ==> page == AudioPage(pageBuf, before, pageSeqNo, flags);
      if !diskOk {
        writeErr := true;
        return;
      }
      Append(page);
      pageBuf := [];
    }

    /** One header page. */
    method WritePage(payload: seq<Byte>, flags: Byte)
      requires Consistent()
      modifies `file, `pageSeqNo, `pages, `chunks
      ensures Consistent()
      ensures pages == old(pages) + [HeaderPage(flags, old(pageSeqNo), payload)]
      ensures pageSeqNo == old(pageSeqNo) + 1
    {
      var segTable := LacingValues(|payload|);
      Append(Page(flags, 0, pageSeqNo, segTable, payload));
    }

    /** One successful write. */
    method Append(page: Page)
      requires Consistent()
      modifies `file, `pageSeqNo, `pages, `chunks
      ensures Consistent()
      ensures pages == old(pages) + [page]
      ensures pageSeqNo == old(pageSeqNo) + 1
    {
      var bytes := BuildPage(table, page);
      OneMoreChunk(chunks, pages, bytes, page);
      file, chunks, pages := file + bytes, chunks + [bytes], pages + [page];
      pageSeqNo := pageSeqNo + 1;
    }
  }

  lemma OneMoreChunk(chunks: seq<seq<Byte>>, pages: seq<Page>, bytes: seq<Byte>, page: Page)
    requires Written(chunks, pages) && bytes == Encode(page)
    ensures Written(chunks + [bytes], pages + [page])
    ensures Joined(chunks + [bytes]) == Joined(chunks) + bytes
  {
    assert (chunks + [bytes])[..|chunks|] == chunks;
  }

  /** Lays a page out in a buffer with its checksum zero, computes that, and fills it in. */
  method BuildPage(table: array<seq<bool>>, p: Page) returns (bytes: seq<Byte>)
    requires IsTable(table[..])
    ensures bytes == Encode(p)
  {
    var zeroed := PageBytes(p, [0, 0, 0, 0]);
    ZeroedPage(p);
    var page := new Byte[|zeroed|](i requires 0 <= i < |zeroed| => zeroed[i]);
    assert page[..] == zeroed;
    var crc := OggCrc32(table, page[..]);
    PutUint32(page, 22, Number(crc));
    bytes := page[..];
  }

  method PutUint32(page: array<Byte>, at: nat, n: nat)
    requires at + 4 <= page.Length
    modifies page
    ensures page[..] == old(page[..])[..at] + LittleEndian(n, 4) + old(page[..])[at + 4..]
  {
    var bytes := LittleEndian(n, 4);
    page[at], page[at + 1], page[at + 2], page[at + 3] := bytes[0], bytes[1], bytes[2], bytes[3];
  }

  lemma ZeroedPage(p: Page)
    ensures var zeroed := PageBytes(p, [0, 0, 0, 0]);
      |zeroed| >= HEADER_LENGTH && Encode(p) == zeroed[..22] + LittleEndian(Number(Crc(zeroed)), 4) + zeroed[26..]
  {
    var zeroed := PageBytes(p, [0, 0, 0, 0]);
    assert zeroed[..22] == Front(p) && zeroed[26..] == [CountByte(p)] + p.segments + p.payload;
  }

  /** The segment table and the payload of a page. */
  method Layout(packets: seq<Packet>) returns (segTable: seq<Byte>, payload: seq<Byte>)
    ensures segTable == Lacings(packets) && payload == Joined(packets)
  {
    segTable, payload := [], [];
    for i := 0 to |packets|
      invariant segTable == Lacings(packets[..i]) && payload == Joined(packets[..i])
    {
      assert packets[..i + 1][..i] == packets[..i];
      var lacing := LacingValues(|packets[i]|);
      segTable := segTable + lacing;
      payload := payload + packets[i];
    }
    assert packets[..|packets|] == packets;
  }

  method LacingValues(length: nat) returns (segTable: seq<Byte>)
    ensures segTable == Lacing(length)
  {
    segTable := [];
    var remaining := length;
    while remaining >= 255
      invariant 0 <= remaining && segTable + Lacing(remaining) == Lacing(length)
    {
      segTable := segTable + [255];
      remaining := remaining - 255;
    }
    segTable := segTable + [remaining];
  }

  // Round trip ------------------------------------------------------------------

  predicate PagesFit(packets: seq<Packet>)
  {
    forall i :: 0 <= i < |AudioPages(packets)| ==> |AudioPages(packets)[i].segments| <= 255
  }

  lemma {:induction false} NonEmptyAppend(a: seq<Packet>, b: seq<Packet>)
    ensures NonEmpty(a + b) == NonEmpty(a) + NonEmpty(b)
    decreases |b|
  {
    if b == [] {
      assert a + b == a;
    } else {
      NonEmptyAppend(a, b[..|b| - 1]);
      assert (a + b)[..|a + b| - 1] == a + b[..|b| - 1];
    }
  }

  /** A page more holds its packets more. */
  lemma PageHolds(pages: seq<Page>, done: seq<Packet>, packets: seq<Packet>, before: nat, sequence: nat, flags: Byte)
    requires PacketsOn(pages) == NonEmpty(done)
    ensures PacketsOn(pages + [AudioPage(packets, before, sequence, flags)]) == NonEmpty(done + packets)
  {
    SplitPage(packets);
    NonEmptyAppend(done, packets);
    var page := AudioPage(packets, before, sequence, flags);
    assert (pages + [page])[..|pages|] == pages;
  }

  lemma {:induction false} FullPagesHold(packets: seq<Packet>, k: nat, done: seq<Packet>)
    requires MAX_PAGE_PACKETS * k <= |packets| && done == packets[..MAX_PAGE_PACKETS * k]
    ensures PacketsOn(FullPages(packets, k)) == NonEmpty(done)
  {
    if k > 0 {
      var from := MAX_PAGE_PACKETS * (k - 1);
      var before, chunk := packets[..from], packets[from..from + MAX_PAGE_PACKETS];
      var full := FullPages(packets, k - 1);
      assert FullPages(packets, k) == full + [AudioPage(chunk, from, k + 1, 0)] && done == before + chunk;
      FullPagesHold(packets, k - 1, before);
      PageHolds(full, before, chunk, from, k + 1, 0);
    }
  }

  lemma {:induction false} FullPagesAddUp(packets: seq<Packet>, k: nat)
    requires MAX_PAGE_PACKETS * k <= |packets|
    ensures forall i :: 0 <= i < k ==> Sum(FullPages(packets, k)[i].segments) == |FullPages(packets, k)[i].payload|
  {
    if k > 0 {
      FullPagesAddUp(packets, k - 1);
      LacingsSum(packets[MAX_PAGE_PACKETS * (k - 1)..MAX_PAGE_PACKETS * (k - 1) + MAX_PAGE_PACKETS]);
    }
  }

  lemma {:induction false} AudioPagesAddUp(packets: seq<Packet>)
    ensures var pages := AudioPages(packets);
      forall i :: 0 <= i < |pages| ==> Sum(pages[i].segments) == |pages[i].payload|
  {
    var k := |packets| / MAX_PAGE_PACKETS;
    FullPagesAddUp(packets, k);
    LacingsSum(packets[MAX_PAGE_PACKETS * k..]);
  }

  lemma FinalPageHolds(pages: seq<Page>, done: seq<Packet>, rest: seq<Packet>, k: nat)
    requires PacketsOn(pages) == NonEmpty(done)
    ensures PacketsOn(pages + FinalPages(rest, k)) == NonEmpty(done + rest)
  {
    if rest == [] {
      assert pages + [] == pages && done + rest == done;
    } else {
      PageHolds(pages, done, rest, MAX_PAGE_PACKETS * k, k + 2, ENDS_STREAM);
    }
  }

  lemma AudioPagesHold(packets: seq<Packet>)
    ensures PacketsOn(AudioPages(packets)) == NonEmpty(packets)
  {
    var k := |packets| / MAX_PAGE_PACKETS;
    var done, rest := packets[..MAX_PAGE_PACKETS * k], packets[MAX_PAGE_PACKETS * k..];
    Halves(packets, MAX_PAGE_PACKETS * k);
    FullPagesHold(packets, k, done);
    FinalPageHolds(FullPages(packets, k), done, rest, k);
  }

  lemma Halves(packets: seq<Packet>, n: nat)
    requires n <= |packets|
    ensures packets[..n] + packets[n..] == packets
  {
  }

  /**
    Round trip: as long as every page's segment table fits its one-byte count, the
    reader returns exactly the packets recorded, in order, except the empty ones.
   */
  lemma {:induction false} ReadsBack(headers: seq<Page>, packets: seq<Packet>, file: seq<Byte>)
    requires headers == HeaderPages() && Holds(file, headers + AudioPages(packets)) && PagesFit(packets)
    ensures Read(file, 0) == Ok(NonEmpty(packets))
  {
    var audio := AudioPages(packets);
    var pages := headers + audio;
    HeadersFit();
    AudioPagesHold(packets);
    AudioPagesAddUp(packets);
    assert forall i :: 2 <= i < |pages| ==> pages[i] == audio[i - 2];
    ReadFile(file, pages);
    assert pages[2..] == audio;
  }

  lemma HeadersFit()
    ensures |HeaderPages()| == 2 && Fits(HeaderPages()[0]) && Fits(HeaderPages()[1])
  {
    LacingSum(|OpusHead()|);
    LacingSum(|OpusTags()|);
  }

  /** At most 1274 bytes a packet is five lacing values, and 48 times five fit. */
  lemma {:induction false} LacingsAreFew(packets: seq<Packet>)
    requires forall i :: 0 <= i < |packets| ==> |packets[i]| <= 1274
    ensures |Lacings(packets)| <= 5 * |packets|
  {
    if packets != [] {
      LacingsAreFew(packets[..|packets| - 1]);
      LacingSum(|packets[|packets| - 1]|);
    }
  }

  lemma {:induction false} FullPagesFit(packets: seq<Packet>, k: nat)
    requires MAX_PAGE_PACKETS * k <= |packets|
    requires forall i :: 0 <= i < |packets| ==> |packets[i]| <= 1274
    ensures forall i :: 0 <= i < k ==> |FullPages(packets, k)[i].segments| <= 240
  {
    if k > 0 {
      FullPagesFit(packets, k - 1);
      LacingsAreFew(packets[MAX_PAGE_PACKETS * (k - 1)..MAX_PAGE_PACKETS * (k - 1) + MAX_PAGE_PACKETS]);
    }
  }

  lemma {:induction false} SmallPacketsFit(packets: seq<Packet>)
    requires forall i :: 0 <= i < |packets| ==> |packets[i]| <= 1274
    ensures PagesFit(packets)
  {
    var k := |packets| / MAX_PAGE_PACKETS;
    FullPagesFit(packets, k);
    LacingsAreFew(packets[MAX_PAGE_PACKETS * k..]);
  }

  lemma {:induction false} AllKept(packets: seq<Packet>)
    requires forall i :: 0 <= i < |packets| ==> packets[i] != []
    ensures NonEmpty(packets) == packets
  {
    if packets != [] {
      AllKept(packets[..|packets| - 1]);
    }
  }

  /** Packets of 1 to 1274 bytes, whatever their number, read back as they were. */
  lemma RoundTrip(headers: seq<Page>, packets: seq<Packet>, file: seq<Byte>)
    requires headers == HeaderPages() && Holds(file, headers + AudioPages(packets))
    requires forall i :: 0 <= i < |packets| ==> 1 <= |packets[i]| <= 1274
    ensures Read(file, 0) == Ok(packets)
  {
    SmallPacketsFit(packets);
    ReadsBack(headers, packets, file);
    AllKept(packets);
  }

  /** What Opus allows for one frame. */
  const LARGEST_PACKET := 1275

  predicate Largest(packets: seq<Packet>)
  {
    forall i :: 0 <= i < |packets| ==> |packets[i]| == LARGEST_PACKET
  }

  lemma {:induction false} LargestPackets(packets: seq<Packet>)
    requires Largest(packets)
    ensures |Lacings(packets)| == 6 * |packets|
  {
    if packets != [] {
      LargestPackets(packets[..|packets| - 1]);
      LacingSum(LARGEST_PACKET);
    }
  }

  // What an overflowing page loses -----------------------------------------------

  predicate FirstOverflow(packets: seq<Packet>, i: nat)
  {
    var pages := AudioPages(packets);
    && i < |pages| && |pages[i].segments| > 255
    && (forall k :: 0 <= k < i ==> |pages[k].segments| <= 255)
  }

  lemma {:induction false} SomeFirstOverflow(packets: seq<Packet>, n: nat) returns (i: nat)
    requires n < |AudioPages(packets)| && |AudioPages(packets)[n].segments| > 255
    ensures FirstOverflow(packets, i)
  {
    i := n;
    if k: nat :| k < n && |AudioPages(packets)[k].segments| > 255 {
      i := SomeFirstOverflow(packets, k);
    }
  }

  /** The overflow can be seen from the page itself, or the page is the last one and holds no empty packet. */
  ghost predicate Shows(packets: seq<Packet>, i: nat)
    requires i < |AudioPages(packets)|
  {
    var p := AudioPages(packets)[i];
    || (Sum(Taken(p)) <= |Body(p)| && Telltale(p))
    || (i == |AudioPages(packets)| - 1 && forall k :: 0 <= k < |packets| ==> packets[k] != [])
  }

  /** Every audio page is laid out from some of the packets. */
  lemma {:induction false} FullPagePackets(packets: seq<Packet>, k: nat, i: nat) returns (own: seq<Packet>)
    requires MAX_PAGE_PACKETS * k <= |packets| && i < k
    ensures FullPages(packets, k)[i].segments == Lacings(own) && FullPages(packets, k)[i].payload == Joined(own)
    ensures own == packets[MAX_PAGE_PACKETS * i..MAX_PAGE_PACKETS * i + MAX_PAGE_PACKETS]
  {
    if i < k - 1 {
      own := FullPagePackets(packets, k - 1, i);
    } else {
      own := packets[MAX_PAGE_PACKETS * i..MAX_PAGE_PACKETS * i + MAX_PAGE_PACKETS];
    }
  }

  lemma {:induction false} AudioPagePackets(packets: seq<Packet>, i: nat) returns (own: seq<Packet>)
    requires i < |AudioPages(packets)|
    ensures AudioPages(packets)[i].segments == Lacings(own) && AudioPages(packets)[i].payload == Joined(own)
    ensures forall x :: x in own ==> x in packets
    ensures MAX_PAGE_PACKETS * (i + 1) <= |packets| ==>
              own == packets[MAX_PAGE_PACKETS * i..MAX_PAGE_PACKETS * i + MAX_PAGE_PACKETS]
  {
    var k := |packets| / MAX_PAGE_PACKETS;
    if i < k {
      own := FullPagePackets(packets, k, i);
    } else {
      own := packets[MAX_PAGE_PACKETS * k..];
    }
  }

  lemma {:induction false} OverflowIsMisread(packets: seq<Packet>, i: nat, rest: seq<Byte>)
    requires FirstOverflow(packets, i) && Shows(packets, i)
    requires i == |AudioPages(packets)| - 1 ==> rest == []
    ensures var p := AudioPages(packets)[i];
      Read(Encode(p) + rest, 2) != Ok(Held(p) + PacketsOn(AudioPages(packets)[i + 1..]))
  {
    var audio := AudioPages(packets);
    var p, later := audio[i], PacketsOn(audio[i + 1..]);
    AudioPagesAddUp(packets);
    if Sum(Taken(p)) <= |Body(p)| && Telltale(p) {
      TelltaleMisreads(p, rest, later);
    } else {
      var own := AudioPagePackets(packets, i);
      SplitPage(own);
      forall k | 0 <= k < |own|
        ensures own[k] != []
      {
        assert own[k] in own;
      }
      AllKept(own);
      assert audio[i + 1..] == [] && Held(p) + later == own;
      LastPageMisreads(p, own);
    }
  }

  lemma {:induction false} OverflowIsLost(headers: seq<Page>, packets: seq<Packet>, file: seq<Byte>, i: nat)
    requires headers == HeaderPages() && Holds(file, headers + AudioPages(packets))
    requires FirstOverflow(packets, i) && Shows(packets, i)
    ensures Read(file, 0) != Ok(NonEmpty(packets))
  {
    var audio := AudioPages(packets);
    HeadersFit();
    PagesUpTo(headers, packets, i);
    var rest := ReadUpTo(file, headers + audio, i + 2);
    AudioPagesHold(packets);
    assert (headers + audio)[2..] == audio && (headers + audio)[i + 3..] == audio[i + 1..];
    OverflowIsMisread(packets, i, rest);
  }

  lemma PagesUpTo(headers: seq<Page>, packets: seq<Packet>, i: nat)
    requires |headers| == 2 && Fits(headers[0]) && Fits(headers[1]) && FirstOverflow(packets, i)
    ensures forall k :: 0 <= k < i + 2 ==> Fits((headers + AudioPages(packets))[k])
  {
    AudioPagesAddUp(packets);
    forall k | 0 <= k < i + 2
      ensures Fits((headers + AudioPages(packets))[k])
    {
      assert k >= 2 ==> (headers + AudioPages(packets))[k] == AudioPages(packets)[k - 2];
    }
  }

  /**
    Exactly when a recording reads back: every page fits its one-byte count. This
    holds of every recording whose first overflowing page shows it, so in any case
    of one without empty packets whose last page alone overflows.
   */
  lemma ReadsBackExactly(headers: seq<Page>, packets: seq<Packet>, file: seq<Byte>)
    requires headers == HeaderPages() && Holds(file, headers + AudioPages(packets))
    requires forall i :: FirstOverflow(packets, i) ==> Shows(packets, i)
    ensures Read(file, 0) == Ok(NonEmpty(packets)) <==> PagesFit(packets)
  {
    if PagesFit(packets) {
      ReadsBack(headers, packets, file);
    } else {
      var n: nat :| n < |AudioPages(packets)| && |AudioPages(packets)[n].segments| > 255;
      var i := SomeFirstOverflow(packets, n);
      OverflowIsLost(headers, packets, file, i);
    }
  }

  lemma OnlyPage(packets: seq<Packet>)
    requires 0 < |packets| <= MAX_PAGE_PACKETS
    ensures |AudioPages(packets)| == 1 && AudioPages(packets)[0].segments == Lacings(packets)
  {
    if |packets| == MAX_PAGE_PACKETS {
      assert packets[..MAX_PAGE_PACKETS] == packets && packets[MAX_PAGE_PACKETS..] == [];
      assert FullPages(packets, 1) == FullPages(packets, 0) + [AudioPage(packets, 0, 2, 0)];
    } else {
      assert packets[0..] == packets;
    }
  }

  /** A recording of up to 48 packets, none of them empty, reads back exactly when its one page fits. */
  lemma OnePageReadsBackExactly(headers: seq<Page>, packets: seq<Packet>, file: seq<Byte>)
    requires headers == HeaderPages() && Holds(file, headers + AudioPages(packets))
    requires 0 < |packets| <= MAX_PAGE_PACKETS && forall k :: 0 <= k < |packets| ==> packets[k] != []
    ensures Read(file, 0) == Ok(packets) <==> |Lacings(packets)| <= 255
  {
    AllKept(packets);
    OnlyPage(packets);
    OnePageShows(packets);
    ReadsBackExactly(headers, packets, file);
  }

  lemma OnePageShows(packets: seq<Packet>)
    requires |AudioPages(packets)| == 1 && forall k :: 0 <= k < |packets| ==> packets[k] != []
    ensures forall i :: FirstOverflow(packets, i) ==> Shows(packets, i)
    ensures PagesFit(packets) <==> |AudioPages(packets)[0].segments| <= 255
  {
  }

  function Pieces(bytes: seq<Byte>, n: nat): (pieces: seq<Packet>)
    requires LARGEST_PACKET * n <= |bytes|
    ensures |pieces| == n
  {
    if n == 0 then []
    else Pieces(bytes, n - 1) + [bytes[LARGEST_PACKET * (n - 1)..LARGEST_PACKET * n]]
  }

  /** Pieces of the packets' common length have the packets' lacing values, whatever is in them. */
  lemma {:induction false} PiecesLaced(bytes: seq<Byte>, n: nat, packets: seq<Packet>)
    requires LARGEST_PACKET * n <= |bytes| && |packets| == n && Largest(packets)
    ensures Lacings(Pieces(bytes, n)) == Lacings(packets)
    ensures Joined(Pieces(bytes, n)) == bytes[..LARGEST_PACKET * n]
    ensures Largest(Pieces(bytes, n))
  {
    if n > 0 {
      var at := LARGEST_PACKET * (n - 1);
      var before, piece := Pieces(bytes, n - 1), bytes[at..LARGEST_PACKET * n];
      PiecesLaced(bytes, n - 1, packets[..n - 1]);
      assert (before + [piece])[..n - 1] == before;
      assert bytes[..LARGEST_PACKET * n] == bytes[..at] + piece;
    }
  }

  lemma {:induction false} LacingsAppend(a: seq<Packet>, b: seq<Packet>)
    ensures Lacings(a + b) == Lacings(a) + Lacings(b)
    decreases |b|
  {
    if b == [] {
      assert a + b == a;
    } else {
      LacingsAppend(a, b[..|b| - 1]);
      assert (a + b)[..|a + b| - 1] == a + b[..|b| - 1];
    }
  }

  lemma LargestLacing()
    ensures Lacing(LARGEST_PACKET) == [255, 255, 255, 255, 255, 0]
  {
    assert Lacing(0) == [0] && Lacing(255) == [255, 0] && Lacing(510) == [255, 255, 0];
    assert Lacing(765) == [255, 255, 255, 0] && Lacing(1020) == [255, 255, 255, 255, 0];
  }

  /** The 32 segments taken for 48 of the largest packets: five packets and the first 510 bytes of a sixth. */
  lemma {:induction false} LargestTaken(packets: seq<Packet>)
    requires |packets| == MAX_PAGE_PACKETS && Largest(packets)
    ensures |Lacings(packets)| == 288 && Lacings(packets)[..32] == Lacings(packets[..5]) + [255, 255]
  {
    assert packets == packets[..6] + packets[6..];
    LacingsAppend(packets[..6], packets[6..]);
    LargestPackets(packets);
    LargestPackets(packets[..5]);
    assert packets[..6][..5] == packets[..5] && packets[..6][5] == packets[5];
    LargestLacing();
    assert Lacings(packets[..6]) == Lacings(packets[..5]) + [255, 255, 255, 255, 255, 0];
  }

  lemma {:induction false} SixthIsShort(payload: seq<Byte>, packets: seq<Packet>)
    requires |packets| == 5 && Largest(packets)
    requires |payload| == 5 * LARGEST_PACKET + 510
    ensures var seen := Split(Lacings(packets) + [255, 255], payload, []); |seen| == 6 && |seen[5]| == 510
  {
    var pieces, tail := Pieces(payload, 5), payload[LARGEST_PACKET * 5..];
    PiecesLaced(payload, 5, packets);
    assert payload == payload[..LARGEST_PACKET * 5] + tail;
    SplitLacings(pieces, [255, 255], tail);
    AllKept(pieces);
    assert tail[..255] + tail[255..][..255] == tail && [] + tail[..255] == tail[..255];
    assert [255, 255][1..] == [255] && [255][1..] == [];
    assert Split([255, 255], tail, []) == Split([255], tail[255..], tail[..255]) == Split([], tail[255..][255..], tail);
  }

  lemma {:induction false} LargestSum(packets: seq<Packet>)
    requires |packets| == 5 && Largest(packets)
    ensures Sum(Lacings(packets) + [255, 255]) == 5 * LARGEST_PACKET + 510
  {
    SumAppend(Lacings(packets), [255, 255]);
    assert [255, 255][1..] == [255] && [255][1..] == [];
    assert Sum([255, 255]) == 255 + Sum([255]) == 510;
    LacingsSum(packets);
    LargestJoined(packets);
  }

  lemma SixthDiffers(p: Page, packets: seq<Packet>)
    requires |packets| == MAX_PAGE_PACKETS && Largest(packets) && Held(p) == packets
    requires Taken(p) == Lacings(packets[..5]) + [255, 255] && Sum(Taken(p)) == 5 * LARGEST_PACKET + 510 <= |Body(p)|
    ensures Telltale(p)
  {
    SixthIsShort(Seen(p).payload, packets[..5]);
    assert Differ(Held(Seen(p)), Held(p), 5);
  }

  lemma {:induction false} LargestShow(p: Page, packets: seq<Packet>)
    requires |packets| == MAX_PAGE_PACKETS && Largest(packets)
    requires p.segments == Lacings(packets) && p.payload == Joined(packets)
    ensures |p.segments| == 288 && CountByte(p) == 32
    ensures Sum(Taken(p)) <= |Body(p)| && Telltale(p)
  {
    LacingsSum(packets);
    TakenIsCovered(p);
    LargestTaken(packets);
    LargestSum(packets[..5]);
    SplitPage(packets);
    AllKept(packets);
    SixthDiffers(p, packets);
  }

  lemma {:induction false} LargestJoined(packets: seq<Packet>)
    requires Largest(packets)
    ensures |Joined(packets)| == LARGEST_PACKET * |packets|
  {
    if packets != [] {
      LargestJoined(packets[..|packets| - 1]);
    }
  }

  /**
    One byte more than `RoundTrip` allows is one too many: a recording that opens
    with 48 packets of 1275 bytes, which Opus allows, never reads back. Its first
    page needs 288 segments, stored as 32.
   */
  lemma LargestPacketsOverflow(headers: seq<Page>, packets: seq<Packet>, file: seq<Byte>)
    requires headers == HeaderPages() && Holds(file, headers + AudioPages(packets))
    requires |packets| >= MAX_PAGE_PACKETS && Largest(packets[..MAX_PAGE_PACKETS])
    ensures |AudioPages(packets)[0].segments| == 288 && CountByte(AudioPages(packets)[0]) == 32
    ensures Read(file, 0) != Ok(NonEmpty(packets))
  {
    var own := AudioPagePackets(packets, 0);
    LargestShow(AudioPages(packets)[0], own);
    OverflowIsLost(headers, packets, file, 0);
  }

  // Page numbers, granules and flags -----------------------------------------------

  lemma {:induction false} FullPageAt(packets: seq<Packet>, k: nat, i: nat)
    requires MAX_PAGE_PACKETS * k <= |packets| && i < k
    ensures var p := FullPages(packets, k)[i];
      p.sequence == i + 2 && p.granule == SAMPLES_PER_FRAME * MAX_PAGE_PACKETS * (i + 1) && p.flags == 0
  {
    if i < k - 1 {
      FullPageAt(packets, k - 1, i);
    }
  }

  /** The audio pages continue the numbering after two headers, and count 960 samples a packet. */
  lemma {:induction false} AudioPageAt(packets: seq<Packet>, i: nat)
    requires i < |AudioPages(packets)|
    ensures var p := AudioPages(packets)[i];
      var full := MAX_PAGE_PACKETS * (i + 1) <= |packets|;
      && p.sequence == i + 2
      && p.granule == SAMPLES_PER_FRAME * (if full then MAX_PAGE_PACKETS * (i + 1) else |packets|)
      && p.flags == (if full then 0 else ENDS_STREAM)
    ensures |AudioPages(packets)| == (|packets| + MAX_PAGE_PACKETS - 1) / MAX_PAGE_PACKETS
  {
    var k := |packets| / MAX_PAGE_PACKETS;
    if i < k {
      FullPageAt(packets, k, i);
    }
  }

  /**
    Pages are numbered from 0 without a gap; the last granule position counts 960
    samples for every packet; the stream's beginning is marked on the first page
    only, its end on the last one exactly when the packets do not fill that page.
   */
  lemma {:induction false} StreamIsWellFormed(headers: seq<Page>, packets: seq<Packet>)
    requires headers == HeaderPages()
    ensures var pages := headers + AudioPages(packets);
      && (forall i :: 0 <= i < |pages| ==> pages[i].sequence == i)
      && pages[|pages| - 1].granule == SAMPLES_PER_FRAME * |packets|
      && (forall i :: 0 <= i < |pages| ==> (pages[i].flags == BEGINS_STREAM <==> i == 0))
      && (forall i :: 0 <= i < |pages| ==> (
            pages[i].flags == ENDS_STREAM <==> i == |pages| - 1 && |packets| % MAX_PAGE_PACKETS != 0))
  {
    var audio := AudioPages(packets);
    var pages := headers + audio;
    forall i | 2 <= i < |pages|
      ensures pages[i].sequence == i && pages[i].flags != BEGINS_STREAM
      ensures pages[i].flags == ENDS_STREAM <==> i == |pages| - 1 && |packets| % MAX_PAGE_PACKETS != 0
      ensures i == |pages| - 1 ==> pages[i].granule == SAMPLES_PER_FRAME * |packets|
    {
      assert pages[i] == audio[i - 2];
      AudioPageAt(packets, i - 2);
      WhichIsLast(|packets|, i - 2);
    }
    assert packets == [] ==> audio == [];
    assert forall i :: 0 <= i < 2 ==> pages[i] == headers[i];
  }

  lemma WhichIsLast(n: nat, i: nat)
    requires i < (n + MAX_PAGE_PACKETS - 1) / MAX_PAGE_PACKETS
    ensures MAX_PAGE_PACKETS * (i + 1) > n <==>
            i == (n + MAX_PAGE_PACKETS - 1) / MAX_PAGE_PACKETS - 1 && n % MAX_PAGE_PACKETS != 0
    ensures i == (n + MAX_PAGE_PACKETS - 1) / MAX_PAGE_PACKETS - 1 && n % MAX_PAGE_PACKETS == 0 ==>
            MAX_PAGE_PACKETS * (i + 1) == n
  {
  }
}
