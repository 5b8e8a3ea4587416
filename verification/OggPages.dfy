/**
  Ogg pages (section 6 of RFC 3533) as the call recorder writes them and the
  audio player reads them back: the bytes of a page, the segment table that
  delimits packets, and the reader.
 */
module OggPages {
  import opened Wrappers
  import opened OggCrc

  type Packet = seq<Byte>

  datatype ReadError = BadSignature | ShortSegmentTable | ShortPayload

  const HEADER_LENGTH := 27

  // Writing ---------------------------------------------------------------------

  /** The low `width` bytes of `n`, least significant first. Higher bytes are cut off, as the fixed-width counters wrap. */
  function LittleEndian(n: nat, width: nat): (bytes: seq<Byte>)
    ensures |bytes| == width
  {
    if width == 0 then [] else [n % 256] + LittleEndian(n / 256, width - 1)
  }

  /** A packet's length as lacing values: a 255 for every full 255 bytes, then the rest. */
  function Lacing(length: nat): seq<Byte>
  {
    if length >= 255 then [255] + Lacing(length - 255) else [length]
  }

  function Lacings(packets: seq<Packet>): seq<Byte>
  {
    if packets == [] then [] else Lacings(packets[..|packets| - 1]) + Lacing(|packets[|packets| - 1]|)
  }

  function Joined(packets: seq<Packet>): seq<Byte>
  {
    if packets == [] then [] else Joined(packets[..|packets| - 1]) + packets[|packets| - 1]
  }

  datatype Page = Page(flags: Byte, granule: nat, sequence: nat, segments: seq<Byte>, payload: seq<Byte>)

  function Signature(): seq<Byte>
  {
    [0x4F, 0x67, 0x67, 0x53]
  }

  /** Everything before the checksum: signature, version, flags, granule position, stream 0, page number. */
  function Front(p: Page): (front: seq<Byte>)
    ensures |front| == 22 && front[..4] == Signature()
  {
    Signature() + [0, p.flags] + LittleEndian(p.granule, 8) + LittleEndian(0, 4) + LittleEndian(p.sequence, 4)
  }

  /** The one-byte segment count, whatever the number of segments. */
  function CountByte(p: Page): Byte
  {
    |p.segments| % 256
  }

  function PageBytes(p: Page, checksum: seq<Byte>): seq<Byte>
  {
    Front(p) + checksum + ([CountByte(p)] + p.segments + p.payload)
  }

  /** The checksum is taken over the page with its own four bytes zero. */
  function Checksum(p: Page): (bytes: seq<Byte>)
    ensures |bytes| == 4
  {
    LittleEndian(Number(Crc(PageBytes(p, [0, 0, 0, 0]))), 4)
  }

  function Encode(p: Page): seq<Byte>
  {
    PageBytes(p, Checksum(p))
  }

  /** `chunks` are the pages' bytes, one write each. */
  ghost predicate Written(chunks: seq<seq<Byte>>, pages: seq<Page>)
  {
    |chunks| == |pages| && forall i {:trigger Encode(pages[i])} :: 0 <= i < |chunks| ==> chunks[i] == Encode(pages[i])
  }

  /** `file` is these pages, one after the other. */
  ghost predicate Holds(file: seq<Byte>, pages: seq<Page>)
  {
    exists chunks :: file == Joined(chunks) && Written(chunks, pages)
  }

  /** A decoder that zeroes bytes 22 to 25 of a page and takes the CRC finds the checksum stored there. */
  lemma ChecksumChecks(p: Page)
    ensures var bytes := Encode(p);
      |bytes| >= HEADER_LENGTH &&
      bytes[22..26] == LittleEndian(Number(Crc(bytes[..22] + [0, 0, 0, 0] + bytes[26..])), 4)
  {
    var bytes := Encode(p);
    var back := [CountByte(p)] + p.segments + p.payload;
    assert bytes[..22] == Front(p) && bytes[22..26] == Checksum(p) && bytes[26..] == back;
  }

  // Reading ---------------------------------------------------------------------

  function Sum(segments: seq<Byte>): nat
  {
    if segments == [] then 0 else segments[0] + Sum(segments[1..])
  }

  function NonEmpty(packets: seq<Packet>): seq<Packet>
  {
    if packets == [] then []
    else NonEmpty(packets[..|packets| - 1]) + Kept(packets[|packets| - 1])
  }

  function Kept(packet: Packet): seq<Packet>
  {
    if packet == [] then [] else [packet]
  }

  /** The packets a segment table cuts out of a payload; `current` is the packet under way. */
  function Split(segments: seq<Byte>, payload: seq<Byte>, current: Packet): seq<Packet>
    decreases |segments|
  {
    if segments == [] || segments[0] > |payload| then Kept(current)
    else
      var longer := current + payload[..segments[0]];
      var rest := payload[segments[0]..];
      if segments[0] < 255 then Kept(longer) + Split(segments[1..], rest, [])
      else Split(segments[1..], rest, longer)
  }

  function Prefixed(before: seq<Packet>, r: Result<seq<Packet>, ReadError>): Result<seq<Packet>, ReadError>
  {
    match r
    case Err(error) => Err(error)
    case Ok(packets) => Ok(before + packets)
  }

  lemma PrefixedTwice(a: seq<Packet>, b: seq<Packet>, r: Result<seq<Packet>, ReadError>)
    ensures Prefixed(a, Prefixed(b, r)) == Prefixed(a + b, r)
    ensures Prefixed([], r) == r
    ensures Prefixed(a, Ok([])) == Ok(a)
  {
    if r.Ok? {
      assert a + (b + r.value) == (a + b) + r.value;
      assert [] + r.value == r.value;
    }
    assert a + [] == a;
  }

  /** The packets in a file, the first two pages being headers. */
  function Read(file: seq<Byte>, skipped: nat): Result<seq<Packet>, ReadError>
    decreases |file|
  {
    if |file| < HEADER_LENGTH then Ok([])
    else if file[..4] != Signature() then Err(BadSignature)
    else
      var count := file[26];
      if |file| < HEADER_LENGTH + count then Err(ShortSegmentTable)
      else
        var segments := file[HEADER_LENGTH..HEADER_LENGTH + count];
        var start := HEADER_LENGTH + count;
        if |file| < start + Sum(segments) then Err(ShortPayload)
        else
          var payload := file[start..start + Sum(segments)];
          var rest := file[start + Sum(segments)..];
          if skipped < 2 then Read(rest, skipped + 1)
          else Prefixed(Split(segments, payload, []), Read(rest, skipped))
  }

  /** A page whose segment table fits its one-byte count and covers its payload. */
  predicate Fits(p: Page)
  {
    |p.segments| <= 255 && Sum(p.segments) == |p.payload|
  }

  /** The bytes of a page as far as the reader looks at them. */
  ghost predicate IsChunk(bytes: seq<Byte>, p: Page)
  {
    exists front :: Opens(front, p) && bytes == front + p.segments + p.payload
  }

  predicate Opens(front: seq<Byte>, p: Page)
  {
    |front| == HEADER_LENGTH && front[..4] == Signature() && front[26] == |p.segments|
  }

  lemma AssembledIsChunk(front: seq<Byte>, checksum: seq<Byte>, p: Page)
    requires Fits(p) && |front| == 22 && front[..4] == Signature() && |checksum| == 4
    ensures IsChunk(front + checksum + ([|p.segments|] + p.segments + p.payload), p)
  {
    var opening := front + checksum + [|p.segments|];
    assert opening[..4] == front[..4];
    assert Opens(opening, p);
    assert front + checksum + ([|p.segments|] + p.segments + p.payload) == opening + p.segments + p.payload;
  }

  lemma EncodedIsChunk(p: Page)
    requires Fits(p)
    ensures IsChunk(Encode(p), p)
  {
    var front, checksum := Front(p), Checksum(p);
    AssembledIsChunk(front, checksum, p);
    assert CountByte(p) == |p.segments|;
    assert Encode(p) == front + checksum + ([|p.segments|] + p.segments + p.payload);
  }

  lemma {:induction false} ReadChunk(bytes: seq<Byte>, p: Page, rest: seq<Byte>, skipped: nat)
    requires IsChunk(bytes, p) && Fits(p)
    ensures Read(bytes + rest, skipped) == (
      if skipped < 2 then Read(rest, skipped + 1)
      else Prefixed(Split(p.segments, p.payload, []), Read(rest, skipped)))
  {
    var file := bytes + rest;
    var front :| Opens(front, p) && bytes == front + p.segments + p.payload;
    var start := HEADER_LENGTH + |p.segments|;
    assert file == front + (p.segments + (p.payload + rest));
    assert file[..4] == front[..4] && file[26] == front[26];
    assert file[HEADER_LENGTH..start] == p.segments;
    assert file[start..start + |p.payload|] == p.payload;
    assert file[start + |p.payload|..] == rest;
  }

  /** The packets on a file's audio pages, in order. */
  function PacketsOn(pages: seq<Page>): seq<Packet>
  {
    if pages == [] then []
    else PacketsOn(pages[..|pages| - 1]) + Split(pages[|pages| - 1].segments, pages[|pages| - 1].payload, [])
  }

  lemma {:induction false} JoinedPair(first: seq<Byte>, second: seq<Byte>)
    ensures Joined([first, second]) == first + second
  {
    assert [first][..0] == [] && Joined([first]) == [] + first == first;
    assert [first, second][..1] == [first];
  }

  lemma {:induction false} ReadHeaders(first: seq<Byte>, second: seq<Byte>, p: Page, q: Page, rest: seq<Byte>)
    requires IsChunk(first, p) && IsChunk(second, q) && Fits(p) && Fits(q)
    ensures Read(Joined([first, second]) + rest, 0) == Read(rest, 2)
  {
    JoinedPair(first, second);
    assert first + second + rest == first + (second + rest);
    ReadChunk(first, p, second + rest, 0);
    ReadChunk(second, q, rest, 1);
  }

  /** Reading a file of fitting pages skips the two headers and splits the others. */
  lemma {:induction false} ReadChunks(chunks: seq<seq<Byte>>, pages: seq<Page>, rest: seq<Byte>)
    requires |chunks| == |pages| && |pages| >= 2
    requires forall i :: 0 <= i < |pages| ==> IsChunk(chunks[i], pages[i]) && Fits(pages[i])
    ensures Read(Joined(chunks) + rest, 0) == Prefixed(PacketsOn(pages[2..]), Read(rest, 2))
    decreases |pages|
  {
    var n := |pages| - 1;
    var last := chunks[n];
    if n == 1 {
      ReadHeaders(chunks[0], chunks[1], pages[0], pages[1], rest);
      assert chunks == [chunks[0], chunks[1]];
      PrefixedTwice([], [], Read(rest, 2));
    } else {
      assert Joined(chunks) + rest == Joined(chunks[..n]) + (last + rest);
      ReadChunks(chunks[..n], pages[..n], last + rest);
      ReadChunk(last, pages[n], rest, 2);
      assert pages[2..][..n - 2] == pages[..n][2..];
      PrefixedTwice(PacketsOn(pages[..n][2..]), Split(pages[n].segments, pages[n].payload, []), Read(rest, 2));
    }
  }

  lemma {:induction false} ReadFile(file: seq<Byte>, pages: seq<Page>)
    requires Holds(file, pages) && |pages| >= 2
    requires forall i :: 0 <= i < |pages| ==> Fits(pages[i])
    ensures Read(file, 0) == Ok(PacketsOn(pages[2..]))
  {
    var chunks :| file == Joined(chunks) && Written(chunks, pages);
    forall i | 0 <= i < |pages|
      ensures IsChunk(chunks[i], pages[i])
    {
      assert chunks[i] == Encode(pages[i]);
      EncodedIsChunk(pages[i]);
    }
    ReadChunks(chunks, pages, []);
    assert Joined(chunks) + [] == file;
    PrefixedTwice(PacketsOn(pages[2..]), [], Read([], 2));
  }

  /** What is left behind a file's pages: too little to be a header, something else, or a page that is cut short. */
  lemma {:induction false} ReadLeftOver(file: seq<Byte>, pages: seq<Page>, rest: seq<Byte>)
    requires Holds(file, pages) && |pages| >= 2
    requires forall i :: 0 <= i < |pages| ==> Fits(pages[i])
    ensures |rest| < 27 ==> Read(file + rest, 0) == Ok(PacketsOn(pages[2..]))
    ensures |rest| >= 27 && rest[..4] != [0x4F, 0x67, 0x67, 0x53] ==> Read(file + rest, 0) == Err(BadSignature)
    ensures forall p, n :: Fits(p) && 27 <= n < |Encode(p)| && rest == Encode(p)[..n] ==>
      Read(file + rest, 0) == Err(if n < 27 + |p.segments| then ShortSegmentTable else ShortPayload)
  {
    var chunks :| file == Joined(chunks) && Written(chunks, pages);
    forall i | 0 <= i < |pages|
      ensures IsChunk(chunks[i], pages[i])
    {
      assert chunks[i] == Encode(pages[i]);
      EncodedIsChunk(pages[i]);
    }
    ReadChunks(chunks, pages, rest);
    PrefixedTwice(PacketsOn(pages[2..]), [], Read(rest, 2));
    forall p, n | Fits(p) && 27 <= n < |Encode(p)| && rest == Encode(p)[..n]
      ensures Read(rest, 2) == Err(if n < 27 + |p.segments| then ShortSegmentTable else ShortPayload)
    {
      EncodedIsChunk(p);
      ReadCutShort(Encode(p), p, n);
    }
  }

  lemma {:induction false} ReadCutShort(bytes: seq<Byte>, p: Page, n: nat)
    requires IsChunk(bytes, p) && Fits(p) && 27 <= n < |bytes|
    ensures Read(bytes[..n], 2) == Err(if n < 27 + |p.segments| then ShortSegmentTable else ShortPayload)
  {
    var front :| Opens(front, p) && bytes == front + p.segments + p.payload;
    var cut := bytes[..n];
    assert cut[..4] == front[..4] && cut[26] == front[26];
    if n >= 27 + |p.segments| {
      assert cut[27..27 + |p.segments|] == p.segments;
    }
  }

  lemma {:induction false} SumAppend(a: seq<Byte>, b: seq<Byte>)
    ensures Sum(a + b) == Sum(a) + Sum(b)
    decreases |a|
  {
    if a == [] {
      assert a + b == b;
    } else {
      assert (a + b)[1..] == a[1..] + b;
      SumAppend(a[1..], b);
    }
  }

  lemma {:induction false} LacingSum(length: nat)
    ensures Sum(Lacing(length)) == length
    ensures |Lacing(length)| == length / 255 + 1
  {
    if length >= 255 {
      LacingSum(length - 255);
      assert Lacing(length)[1..] == Lacing(length - 255);
    }
  }

  lemma {:induction false} LacingsSum(packets: seq<Packet>)
    ensures Sum(Lacings(packets)) == |Joined(packets)|
  {
    if packets != [] {
      LacingsSum(packets[..|packets| - 1]);
      LacingSum(|packets[|packets| - 1]|);
      SumAppend(Lacings(packets[..|packets| - 1]), Lacing(|packets[|packets| - 1]|));
    }
  }

  /** One packet's lacing values cut that packet out, whatever its length. */
  lemma {:induction false} SplitOne(packet: Packet, segments: seq<Byte>, payload: seq<Byte>, current: Packet)
    ensures Split(Lacing(|packet|) + segments, packet + payload, current) ==
            Kept(current + packet) + Split(segments, payload, [])
    decreases |packet|
  {
    var all := Lacing(|packet|) + segments;
    if |packet| >= 255 {
      assert all[0] == 255 && all[1..] == Lacing(|packet| - 255) + segments;
      assert (packet + payload)[..255] == packet[..255];
      assert (packet + payload)[255..] == packet[255..] + payload;
      SplitOne(packet[255..], segments, payload, current + packet[..255]);
      assert current + packet[..255] + packet[255..] == current + packet;
    } else {
      assert all[0] == |packet| && all[1..] == segments;
      assert (packet + payload)[..|packet|] == packet && (packet + payload)[|packet|..] == payload;
    }
  }

  /** A segment table cuts its page's packets out again: all but the empty ones, in order. */
  lemma {:induction false} SplitLacings(packets: seq<Packet>, segments: seq<Byte>, payload: seq<Byte>)
    ensures Split(Lacings(packets) + segments, Joined(packets) + payload, []) ==
            NonEmpty(packets) + Split(segments, payload, [])
    decreases |packets|
  {
    if packets == [] {
      assert [] + segments == segments && [] + payload == payload;
    } else {
      var before := packets[..|packets| - 1];
      var last := packets[|packets| - 1];
      assert Lacings(packets) + segments == Lacings(before) + (Lacing(|last|) + segments);
      assert Joined(packets) + payload == Joined(before) + (last + payload);
      SplitLacings(before, Lacing(|last|) + segments, last + payload);
      SplitOne(last, segments, payload, []);
      assert [] + last == last;
      var tail := Split(segments, payload, []);
      assert NonEmpty(before) + (Kept(last) + tail) == (NonEmpty(before) + Kept(last)) + tail;
    }
  }

  lemma SplitPage(packets: seq<Packet>)
    ensures Split(Lacings(packets), Joined(packets), []) == NonEmpty(packets)
  {
    SplitLacings(packets, [], []);
    assert Lacings(packets) + [] == Lacings(packets) && Joined(packets) + [] == Joined(packets);
  }

  // The reader as it runs --------------------------------------------------------

  lemma SplitStep(before: seq<Packet>, segments: seq<Byte>, payload: seq<Byte>, i: nat, offset: nat, current: Packet)
    requires i < |segments| && offset + segments[i] <= |payload|
    ensures var longer := current + payload[offset..offset + segments[i]];
      before + Split(segments[i..], payload[offset..], current) ==
      if segments[i] < 255
      then (before + Kept(longer)) + Split(segments[i + 1..], payload[offset + segments[i]..], [])
      else before + Split(segments[i + 1..], payload[offset + segments[i]..], longer)
  {
    var size := segments[i];
    assert segments[i..][0] == size && segments[i..][1..] == segments[i + 1..];
    assert payload[offset..][..size] == payload[offset..offset + size];
    assert payload[offset..][size..] == payload[offset + size..];
  }

  /** The loop ends with the packet under way: at the end of the table, or before a segment the payload does not cover. */
  lemma SplitEnds(segments: seq<Byte>, payload: seq<Byte>, i: nat, offset: nat, current: Packet)
    requires i <= |segments| && offset <= |payload|
    requires i < |segments| ==> offset + segments[i] > |payload|
    ensures Split(segments[i..], payload[offset..], current) == Kept(current)
  {
  }

  /** The segment loop over one page. */
  method SplitSegments(segments: seq<Byte>, payload: seq<Byte>) returns (packets: seq<Packet>)
    ensures packets == Split(segments, payload, [])
  {
    packets := [];
    ghost var all := Split(segments, payload, []);
    var offset: nat := 0;
    var current: Packet := [];
    var i := 0;
    assert payload[0..] == payload && segments[0..] == segments;
    while i < |segments|
      invariant i <= |segments| && offset <= |payload|
      invariant packets + Split(segments[i..], payload[offset..], current) == all
    {
      if offset + segments[i] > |payload| {
        break;
      }
      SplitStep(packets, segments, payload, i, offset, current);
      current := current + payload[offset..offset + segments[i]];
      offset := offset + segments[i];
      if segments[i] < 255 {
        ghost var before := packets;
        if |current| > 0 {
          packets := packets + [current];
        }
        assert packets == before + Kept(current);
        current := [];
      }
      i := i + 1;
    }
    SplitEnds(segments, payload, i, offset, current);
    if |current| > 0 {
      packets := packets + [current];
    }
  }

  method Total(segments: seq<Byte>) returns (size: nat)
    ensures size == Sum(segments)
  {
    size := 0;
    for i := 0 to |segments|
      invariant size + Sum(segments[i..]) == Sum(segments)
    {
      assert segments[i..][1..] == segments[i + 1..];
      size := size + segments[i];
    }
  }

  /** What one round of the reader finds at `at`: too little for a page, an error, or a page ending at `next`. */
  datatype Round = Over | Bad(error: ReadError) | Cut(segments: seq<Byte>, payload: seq<Byte>, next: nat)

  function CutAt(file: seq<Byte>, at: nat): (r: Round)
    requires at <= |file|
    ensures r.Cut? ==> at < r.next <= |file|
  {
    if |file| - at < HEADER_LENGTH then Over
    else if file[at..at + 4] != Signature() then Bad(BadSignature)
    else
      var start := at + HEADER_LENGTH + file[at + 26];
      if |file| < start then Bad(ShortSegmentTable)
      else
        var segments := file[at + HEADER_LENGTH..start];
        var end := start + Sum(segments);
        if |file| < end then Bad(ShortPayload) else Cut(segments, file[start..end], end)
  }

  /** Reading the file from `at` on, one round at a time. */
  lemma {:induction false} ReadFrom(file: seq<Byte>, at: nat, skipped: nat)
    requires at <= |file|
    ensures Read(file[at..], skipped) == (
      match CutAt(file, at)
      case Over => Ok([])
      case Bad(error) => Err(error)
      case Cut(segments, payload, next) =>
        if skipped < 2 then Read(file[next..], skipped + 1)
        else Prefixed(Split(segments, payload, []), Read(file[next..], skipped)))
  {
    ReadOnce(file[at..], skipped);
    CutShifts(file, at);
    match CutAt(file, at)
    case Cut(_, _, next) => SliceOfRest(file, at, next - at, next - at);
    case _ =>
  }

  lemma {:induction false} ReadOnce(file: seq<Byte>, skipped: nat)
    ensures Read(file, skipped) == (
      match CutAt(file, 0)
      case Over => Ok([])
      case Bad(error) => Err(error)
      case Cut(segments, payload, next) =>
        if skipped < 2 then Read(file[next..], skipped + 1)
        else Prefixed(Split(segments, payload, []), Read(file[next..], skipped)))
  {
  }

  /** A round finds the same at `at` as it does at the start of what lies behind. */
  lemma CutShifts(file: seq<Byte>, at: nat)
    requires at <= |file|
    ensures match CutAt(file[at..], 0)
      case Cut(segments, payload, next) => CutAt(file, at) == Cut(segments, payload, at + next)
      case other => CutAt(file, at) == other
  {
    var suffix := file[at..];
    if |suffix| < HEADER_LENGTH {
      return;
    }
    SliceOfRest(file, at, 0, 4);
    var length := HEADER_LENGTH + suffix[26];
    if |suffix| < length {
      return;
    }
    SliceOfRest(file, at, HEADER_LENGTH, length);
    var total := length + Sum(suffix[HEADER_LENGTH..length]);
    if |suffix| < total {
      return;
    }
    SliceOfRest(file, at, length, total);
  }

  lemma SliceOfRest(file: seq<Byte>, at: nat, from: nat, to: nat)
    requires at <= |file| && from <= to <= |file| - at
    ensures file[at..][from..to] == file[at + from..at + to] && file[at..][to..] == file[at + to..]
  {
  }

  /** One page: 27 header bytes, the segment table, the payload it adds up to. */
  method CutPage(file: seq<Byte>, at: nat) returns (r: Round)
    requires at <= |file|
    ensures r == CutAt(file, at)
  {
    if |file| - at < HEADER_LENGTH {
      return Over;
    }
    if file[at..at + 4] != [0x4F, 0x67, 0x67, 0x53] {
      return Bad(BadSignature);
    }
    var start := at + HEADER_LENGTH + file[at + 26];
    if |file| < start {
      return Bad(ShortSegmentTable);
    }
    var segments := file[at + HEADER_LENGTH..start];
    var size := Total(segments);
    if |file| < start + size {
      return Bad(ShortPayload);
    }
    return Cut(segments, file[start..start + size], start + size);
  }

  method ReadOpusPackets(file: seq<Byte>) returns (r: Result<seq<Packet>, ReadError>)
    ensures r == Read(file, 0)
  {
    var packets: seq<Packet> := [];
    var at: nat := 0;
    var headersSkipped := 0;
    ghost var all := Read(file, 0);
    assert file[0..] == file;
    PrefixedTwice([], [], all);
    while true
      invariant at <= |file| && headersSkipped <= 2
      invariant Prefixed(packets, Read(file[at..], headersSkipped)) == all
      decreases |file| - at
    {
      ReadFrom(file, at, headersSkipped);
      var round := CutPage(file, at);
      if round.Over? {
        PrefixedTwice(packets, [], all);
        return Ok(packets);
      }
      if round.Bad? {
        return Err(round.error);
      }
      if headersSkipped < 2 {
        headersSkipped := headersSkipped + 1;
      } else {
        var found := SplitSegments(round.segments, round.payload);
        PrefixedTwice(packets, found, Read(file[round.next..], headersSkipped));
        packets := packets + found;
      }
      at := round.next;
    }
  }
}
