/**
  What the reader makes of a page with more segments than its one-byte count can
  say: it takes the count's worth of segments for the table and reads the rest of
  the table as payload.
 */
module OggOverflow {
  import opened Wrappers
  import opened OggCrc
  import opened OggPages

  /** How many segments the reader takes. */
  function Taken(p: Page): seq<Byte>
  {
    p.segments[..|p.segments| % 256]
  }

  /** Where the reader looks for the payload. */
  function Body(p: Page): seq<Byte>
  {
    p.segments[|p.segments| % 256..] + p.payload
  }

  lemma TakenIsCovered(p: Page)
    requires Sum(p.segments) == |p.payload|
    ensures Sum(Taken(p)) <= |p.payload| <= |Body(p)|
  {
    var count := |p.segments| % 256;
    assert p.segments == p.segments[..count] + p.segments[count..];
    SumAppend(p.segments[..count], p.segments[count..]);
  }

  /** The page as the reader sees it. */
  function Seen(p: Page): Page
    requires Sum(Taken(p)) <= |Body(p)|
  {
    p.(segments := Taken(p), payload := Body(p)[..Sum(Taken(p))])
  }

  function Unread(p: Page): seq<Byte>
    requires Sum(Taken(p)) <= |Body(p)|
  {
    Body(p)[Sum(Taken(p))..]
  }

  lemma Regroup(front: seq<Byte>, taken: seq<Byte>, left: seq<Byte>, payload: seq<Byte>, cut: nat, rest: seq<Byte>)
    requires cut <= |left + payload|
    ensures front + ((taken + left) + payload) + rest ==
            (front + (taken + (left + payload)[..cut])) + ((left + payload)[cut..] + rest)
  {
    var body := left + payload;
    assert body == body[..cut] + body[cut..];
    assert (taken + left) + payload + rest == taken + (body + rest);
    assert body + rest == body[..cut] + (body[cut..] + rest);
    assert front + ((taken + left) + payload) + rest == front + ((taken + left) + payload + rest);
  }

  lemma HeadFirst(front: seq<Byte>, checksum: seq<Byte>, count: Byte, segments: seq<Byte>, payload: seq<Byte>)
    ensures front + checksum + ([count] + segments + payload) == (front + checksum + [count]) + (segments + payload)
  {
    assert [count] + segments + payload == [count] + (segments + payload);
  }

  lemma {:induction false} ReadAssembled(front: seq<Byte>, checksum: seq<Byte>, p: Page, rest: seq<Byte>)
    requires |front| == 22 && front[..4] == Signature() && |checksum| == 4
    requires Sum(p.segments) == |p.payload| && Sum(Taken(p)) <= |Body(p)|
    ensures Read(front + checksum + ([CountByte(p)] + p.segments + p.payload) + rest, 2) ==
            Prefixed(Held(Seen(p)), Read(Unread(p) + rest, 2))
  {
    var q := Seen(p);
    var left := p.segments[CountByte(p)..];
    AssembledIsChunk(front, checksum, q);
    HeadFirst(front, checksum, CountByte(p), p.segments, p.payload);
    HeadFirst(front, checksum, CountByte(p), q.segments, q.payload);
    assert p.segments == Taken(p) + left;
    Regroup(front + checksum + [CountByte(p)], Taken(p), left, p.payload, Sum(Taken(p)), rest);
    ReadChunk(front + checksum + [CountByte(p)] + (q.segments + q.payload), q, Unread(p) + rest, 2);
  }

  /** The reader cuts the packets it sees out of the page and goes on after them. */
  lemma ReadPage(p: Page, rest: seq<Byte>)
    requires Sum(p.segments) == |p.payload|
    ensures Sum(Taken(p)) <= |Body(p)|
    ensures Read(Encode(p) + rest, 2) == Prefixed(Held(Seen(p)), Read(Unread(p) + rest, 2))
  {
    TakenIsCovered(p);
    ReadAssembled(Front(p), Checksum(p), p, rest);
  }

  // A page that shows it ---------------------------------------------------------

  /** The packets a page was built from, and those the reader finds in it. */
  function Held(p: Page): seq<Packet>
  {
    Split(p.segments, p.payload, [])
  }

  predicate Differ(seen: seq<Packet>, held: seq<Packet>, j: nat)
  {
    j < |seen| && j < |held| && seen[j] != held[j]
  }

  /** Already the first misread page gives a wrong packet or, if it gives none, is not followed by a page. */
  ghost predicate Telltale(p: Page)
    requires Sum(Taken(p)) <= |Body(p)|
  {
    if Sum(Taken(p)) == 0 then |Body(p)| >= HEADER_LENGTH && Body(p)[..4] != Signature()
    else exists j: nat :: Differ(Held(Seen(p)), Held(p), j)
  }

  lemma {:induction false} SplitFirst(segments: seq<Byte>, payload: seq<Byte>, current: Packet)
    requires Sum(segments) == |payload| && current + payload != []
    ensures var packets := Split(segments, payload, current);
      packets != [] && packets[0] != [] && packets[0][0] == (current + payload)[0]
    decreases |segments|
  {
    if segments != [] {
      var longer, rest := current + payload[..segments[0]], payload[segments[0]..];
      assert longer + rest == current + payload;
      if segments[0] == 255 {
        SplitFirst(segments[1..], rest, longer);
      } else if longer == [] {
        SplitFirst(segments[1..], rest, []);
        assert [] + rest == current + payload;
      }
    }
  }

  /** It is enough that the page's first payload byte is not the first segment left out of the count. */
  lemma FirstByteShows(p: Page)
    requires |p.segments| > 255 && Sum(p.segments) == |p.payload| > 0
    requires Sum(Taken(p)) > 0 ==> p.payload[0] != p.segments[|p.segments| % 256]
    requires Sum(Taken(p)) == 0 ==> Body(p)[..4] != Signature()
    ensures Sum(Taken(p)) <= |Body(p)| && Telltale(p)
  {
    TakenIsCovered(p);
    if Sum(Taken(p)) > 0 {
      SplitFirst(p.segments, p.payload, []);
      SplitFirst(Seen(p).segments, Seen(p).payload, []);
      assert Differ(Held(Seen(p)), Held(p), 0);
    }
  }

  lemma {:induction false} TelltaleMisreads(p: Page, rest: seq<Byte>, later: seq<Packet>)
    requires Sum(p.segments) == |p.payload| && Sum(Taken(p)) <= |Body(p)| && Telltale(p)
    ensures Read(Encode(p) + rest, 2) != Ok(Held(p) + later)
  {
    ReadPage(p, rest);
    var others := Read(Unread(p) + rest, 2);
    if Sum(Taken(p)) == 0 {
      assert (Unread(p) + rest)[..4] == Body(p)[..4];
      assert others == Err(BadSignature);
    } else if others.Ok? {
      var j: nat :| Differ(Held(Seen(p)), Held(p), j);
      assert (Held(Seen(p)) + others.value)[j] != (Held(p) + later)[j];
    }
  }

  // A page that is the last one ----------------------------------------------------

  /** The bytes packets take on pages, apart from the 27 of each header. */
  function Cost(packets: seq<Packet>): nat
  {
    if packets == [] then 0 else Cost(packets[..|packets| - 1]) + OneCost(packets[|packets| - 1])
  }

  function OneCost(packet: Packet): nat
  {
    |packet| + |packet| / 255 + 1
  }

  lemma {:induction false} CostAppend(a: seq<Packet>, b: seq<Packet>)
    ensures Cost(a + b) == Cost(a) + Cost(b)
    decreases |b|
  {
    if b == [] {
      assert a + b == a;
    } else {
      CostAppend(a, b[..|b| - 1]);
      assert (a + b)[..|a + b| - 1] == a + b[..|b| - 1];
    }
  }

  lemma {:induction false} CostIsLength(packets: seq<Packet>)
    ensures Cost(packets) == |Lacings(packets)| + |Joined(packets)|
  {
    if packets != [] {
      CostIsLength(packets[..|packets| - 1]);
      LacingSum(|packets[|packets| - 1]|);
    }
  }

  lemma {:induction false} CostKept(packet: Packet)
    ensures Cost(Kept(packet)) <= OneCost(packet)
  {
    if packet != [] {
      assert [packet][..0] == [];
    }
  }

  /** A page gives its packets for one segment less at most: the closing one of its last packet. */
  lemma {:induction false} SplitCost(segments: seq<Byte>, payload: seq<Byte>, current: Packet)
    requires |payload| == Sum(segments) && |current| % 255 == 0
    ensures Cost(Split(segments, payload, current)) <= OneCost(current) + |segments| + |payload|
    decreases |segments|
  {
    if segments == [] {
      CostKept(current);
    } else {
      var longer, rest := current + payload[..segments[0]], payload[segments[0]..];
      if segments[0] < 255 {
        SplitCost(segments[1..], rest, []);
        CostAppend(Kept(longer), Split(segments[1..], rest, []));
        CostKept(longer);
        assert |longer| / 255 == |current| / 255;
      } else {
        SplitCost(segments[1..], rest, longer);
      }
    }
  }

  /** Whatever the bytes, packets read from them cost their bytes, their segments and a header. */
  lemma {:induction false} ReadCost(file: seq<Byte>)
    ensures var r := Read(file, 2); r.Ok? && r.value != [] ==> Cost(r.value) + HEADER_LENGTH - 1 <= |file|
    decreases |file|
  {
    var cut := CutAt(file, 0);
    ReadFrom(file, 0, 2);
    assert file[0..] == file;
    if cut.Cut? {
      var rest := file[cut.next..];
      ReadCost(rest);
      SplitCost(cut.segments, cut.payload, []);
      if Read(rest, 2).Ok? {
        CostAppend(Split(cut.segments, cut.payload, []), Read(rest, 2).value);
      }
    }
  }

  lemma {:induction false} TooFewLeft(p: Page, packets: seq<Packet>, others: seq<Packet>)
    requires Sum(p.segments) == |p.payload| && |p.segments| > 255 && Cost(packets) == |p.segments| + |p.payload|
    requires Sum(Taken(p)) <= |Body(p)| && Read(Unread(p), 2) == Ok(others)
    ensures Held(Seen(p)) + others != packets
  {
    TakenIsCovered(p);
    SplitCost(Seen(p).segments, Seen(p).payload, []);
    CostAppend(Held(Seen(p)), others);
    ReadCost(Unread(p));
  }

  /** On the last page an overflow always shows: the bytes that follow are too few for the packets missing. */
  lemma LastPageMisreads(p: Page, packets: seq<Packet>)
    requires p.segments == Lacings(packets) && p.payload == Joined(packets) && |p.segments| > 255
    ensures Read(Encode(p) + [], 2) != Ok(packets)
  {
    LacingsSum(packets);
    ReadPage(p, []);
    CostIsLength(packets);
    assert Unread(p) + [] == Unread(p);
    var others := Read(Unread(p), 2);
    if others.Ok? {
      TooFewLeft(p, packets, others.value);
    }
  }

  // A whole file -----------------------------------------------------------------

  lemma {:induction false} JoinedAppend(a: seq<seq<Byte>>, b: seq<seq<Byte>>)
    ensures Joined(a + b) == Joined(a) + Joined(b)
    decreases |b|
  {
    if b == [] {
      assert a + b == a;
    } else {
      JoinedAppend(a, b[..|b| - 1]);
      assert (a + b)[..|a + b| - 1] == a + b[..|b| - 1];
    }
  }

  lemma {:induction false} PacketsOnAppend(a: seq<Page>, b: seq<Page>)
    ensures PacketsOn(a + b) == PacketsOn(a) + PacketsOn(b)
    decreases |b|
  {
    if b == [] {
      assert a + b == a;
    } else {
      PacketsOnAppend(a, b[..|b| - 1]);
      assert (a + b)[..|a + b| - 1] == a + b[..|b| - 1];
    }
  }

  lemma PacketsOnFrom(p: Page, later: seq<Page>)
    ensures PacketsOn([p] + later) == Held(p) + PacketsOn(later)
  {
    PacketsOnAppend([p], later);
    assert [p][..0] == [] && PacketsOn([p]) == [] + Held(p);
  }

  lemma JoinedFrom(chunk: seq<Byte>, later: seq<seq<Byte>>)
    ensures Joined([chunk] + later) == chunk + Joined(later)
  {
    JoinedAppend([chunk], later);
    assert [chunk][..0] == [] && Joined([chunk]) == [] + chunk;
  }

  lemma {:induction false} FileUpTo(chunks: seq<seq<Byte>>, pages: seq<Page>, i: nat)
    requires |chunks| == |pages| && 2 <= i < |pages|
    requires forall k :: 0 <= k < i ==> IsChunk(chunks[k], pages[k]) && Fits(pages[k])
    ensures Read(Joined(chunks), 0) ==
            Prefixed(PacketsOn(pages[..i][2..]), Read(chunks[i] + Joined(chunks[i + 1..]), 2))
  {
    var later := chunks[i + 1..];
    assert chunks == chunks[..i] + ([chunks[i]] + later);
    JoinedAppend(chunks[..i], [chunks[i]] + later);
    JoinedFrom(chunks[i], later);
    ReadChunks(chunks[..i], pages[..i], chunks[i] + Joined(later));
  }

  lemma PacketsUpTo(pages: seq<Page>, i: nat)
    requires 2 <= i < |pages|
    ensures PacketsOn(pages[2..]) == PacketsOn(pages[..i][2..]) + (Held(pages[i]) + PacketsOn(pages[i + 1..]))
  {
    assert pages[2..] == pages[..i][2..] + ([pages[i]] + pages[i + 1..]);
    PacketsOnAppend(pages[..i][2..], [pages[i]] + pages[i + 1..]);
    PacketsOnFrom(pages[i], pages[i + 1..]);
  }

  lemma WrittenChunk(chunks: seq<seq<Byte>>, pages: seq<Page>, k: nat)
    requires Written(chunks, pages) && k < |pages|
    ensures chunks[k] == Encode(pages[k])
    ensures Fits(pages[k]) ==> IsChunk(chunks[k], pages[k])
  {
    assert chunks[k] == Encode(pages[k]);
    if Fits(pages[k]) {
      EncodedIsChunk(pages[k]);
    }
  }

  /** Up to the first page that does not fit, the file reads as the pages; what counts is the bytes from there on. */
  lemma {:induction false} ReadUpTo(file: seq<Byte>, pages: seq<Page>, i: nat) returns (rest: seq<Byte>)
    requires Holds(file, pages) && 2 <= i < |pages|
    requires forall k :: 0 <= k < i ==> Fits(pages[k])
    ensures i == |pages| - 1 ==> rest == []
    ensures Read(file, 0) == Ok(PacketsOn(pages[2..])) <==>
            Read(Encode(pages[i]) + rest, 2) == Ok(Held(pages[i]) + PacketsOn(pages[i + 1..]))
  {
    var chunks :| file == Joined(chunks) && Written(chunks, pages);
    rest := Joined(chunks[i + 1..]);
    forall k | 0 <= k < i
      ensures IsChunk(chunks[k], pages[k])
    {
      WrittenChunk(chunks, pages, k);
    }
    WrittenChunk(chunks, pages, i);
    FileUpTo(chunks, pages, i);
    PacketsUpTo(pages, i);
    SamePrefix(PacketsOn(pages[..i][2..]), Read(chunks[i] + rest, 2), Held(pages[i]) + PacketsOn(pages[i + 1..]));
  }

  lemma SamePrefix(before: seq<Packet>, r: Result<seq<Packet>, ReadError>, packets: seq<Packet>)
    ensures Prefixed(before, r) == Ok(before + packets) <==> r == Ok(packets)
  {
    if Prefixed(before, r) == Ok(before + packets) {
      assert r.value == (before + r.value)[|before|..] == (before + packets)[|before|..] == packets;
    }
  }
}
