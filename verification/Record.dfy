/** Record marking (RFC 5531 section 11): a record is one or more fragments, each
    behind a word holding the last-fragment flag and the fragment's length.

    `NextRecord` reads a record off a whole byte stream; `RecordReader` is the
    source's incremental reader, proved to agree with it however the stream is
    cut into chunks. */
module RecordMarking {
  import opened Wire

  const MAX_RECORD_SIZE: nat := 10 * 1024 * 1024
  const LAST_FRAGMENT: u32 := 0x8000_0000

  datatype Parsed =
    | More
    | Record(payload: seq<byte>, rest: seq<byte>)
    | TooLarge(size: nat)

  /** The first record of s, given the payload already collected for it. */
  function NextRecord(acc: seq<byte>, s: seq<byte>): (o: Parsed)
    ensures o.Record? ==> |o.rest| + 4 <= |s|
    decreases |s|
  {
    if |s| < 4 then More
    else
      var header := Word32(s);
      var length := header % LAST_FRAGMENT;
      if |acc| + length > MAX_RECORD_SIZE then TooLarge(|acc| + length)
      else if |s| - 4 < length then More
      else
        var acc' := acc + s[4..4 + length];
        var rest := s[4 + length..];
        if header >= LAST_FRAGMENT then Record(acc', rest) else NextRecord(acc', rest)
  }

  /** One record as a single last fragment. The length is cut to 32 bits by the
      source's cast and then or-ed with the flag bit. */
  function Frame(data: seq<byte>): seq<byte> {
    BigEndian32(LAST_FRAGMENT + |data| % LAST_FRAGMENT) + data
  }

  /** The or with the flag bit. */
  function WithFlag(length: u32): u32 {
    if length >= LAST_FRAGMENT then length else LAST_FRAGMENT + length
  }

  lemma {:induction false} FlagIsModulo(n: nat)
    ensures WithFlag(n % U32_MODULUS) == LAST_FRAGMENT + n % LAST_FRAGMENT
  {
    var k := n / U32_MODULUS;
    var length := n % U32_MODULUS;
    assert n == 2 * k * LAST_FRAGMENT + length;
    if length >= LAST_FRAGMENT {
      assert n == (2 * k + 1) * LAST_FRAGMENT + (length - LAST_FRAGMENT);
    }
  }

  method WriteRecord(data: seq<byte>, buf: BytesMut)
    modifies buf
    ensures buf.data == old(buf.data) + Frame(data)
  {
    hide BigEndian32, WithFlag;
    var length: u32 := |data| % U32_MODULUS;
    var header := WithFlag(length);
    FlagIsModulo(|data|);
    AppendAssociative(buf.data, BigEndian32(header), data);
    buf.PutU32(header);
    buf.PutSlice(data);
  }

  // ------------------------------------------------------- the reader object

  datatype ReadResult = Complete(payload: seq<byte>) | Incomplete | RecordTooLarge(size: nat, max: nat)

  /** The reader's position inside the current record. */
  datatype Cursor = Cursor(record: seq<byte>, remaining: nat, inFragment: bool, isLast: bool)

  /** What the rest of the stream makes of a record from this position on. */
  ghost function Resume(c: Cursor, s: seq<byte>): Parsed {
    if !c.inFragment then NextRecord(c.record, s)
    else if |s| < c.remaining then More
    else
      var acc, rest := c.record + s[..c.remaining], s[c.remaining..];
      if c.isLast then Record(acc, rest) else NextRecord(acc, rest)
  }

  /** Consuming `bytes` since the last record ended leads to position c. */
  ghost predicate LeadsTo(bytes: seq<byte>, c: Cursor) {
    forall s: seq<byte> {:trigger Resume(c, s)} :: NextRecord([], bytes + s) == Resume(c, s)
  }

  lemma {:induction false} LeadsToStart()
    ensures LeadsTo([], Cursor([], 0, false, false)) && LeadsTo([], Cursor([], 0, false, true))
  {
    forall s: seq<byte>
      ensures NextRecord([], [] + s) == NextRecord([], s)
    {
      assert [] + s == s;
    }
  }

  lemma {:induction false} ResumesBehindHeader(acc: seq<byte>, header: seq<byte>, s: seq<byte>)
    requires |header| == 4 && |acc| + Word32(header) % LAST_FRAGMENT <= MAX_RECORD_SIZE
    ensures NextRecord(acc, header + s)
            == Resume(Cursor(acc, Word32(header) % LAST_FRAGMENT, true, Word32(header) >= LAST_FRAGMENT), s)
  {
    hide Word32;
    WordOfPrefix(header, s);
    var n := Word32(header) % LAST_FRAGMENT;
    if |s| >= n {
      assert (header + s)[4..4 + n] == s[..n];
      assert (header + s)[4 + n..] == s[n..];
    }
  }

  lemma {:induction false} LeadsToAcrossHeader(bytes: seq<byte>, c: Cursor, header: seq<byte>)
    requires LeadsTo(bytes, c) && !c.inFragment && |header| == 4
    requires |c.record| + Word32(header) % LAST_FRAGMENT <= MAX_RECORD_SIZE
    ensures LeadsTo(bytes + header,
                    Cursor(c.record, Word32(header) % LAST_FRAGMENT, true, Word32(header) >= LAST_FRAGMENT))
  {
    hide NextRecord, Word32;
    var c' := Cursor(c.record, Word32(header) % LAST_FRAGMENT, true, Word32(header) >= LAST_FRAGMENT);
    forall s: seq<byte>
      ensures NextRecord([], bytes + header + s) == Resume(c', s)
    {
      AppendAssociative(bytes, header, s);
      assert Resume(c, header + s) == NextRecord(c.record, header + s);
      ResumesBehindHeader(c.record, header, s);
    }
  }

  lemma {:induction false} LeadsToAcrossPayload(bytes: seq<byte>, c: Cursor, part: seq<byte>)
    requires LeadsTo(bytes, c) && c.inFragment && |part| <= c.remaining
    ensures LeadsTo(bytes + part, c.(record := c.record + part, remaining := c.remaining - |part|))
  {
    var c' := c.(record := c.record + part, remaining := c.remaining - |part|);
    forall s: seq<byte>
      ensures NextRecord([], bytes + part + s) == Resume(c', s)
    {
      assert bytes + part + s == bytes + (part + s);
      assert NextRecord([], bytes + (part + s)) == Resume(c, part + s);
      if |s| >= c'.remaining {
        assert c.record + (part + s)[..c.remaining] == c.record + part + s[..c'.remaining];
        assert (part + s)[c.remaining..] == s[c'.remaining..];
      }
    }
  }

  lemma {:induction false} LeadsToNextFragment(bytes: seq<byte>, c: Cursor)
    requires LeadsTo(bytes, c) && c.inFragment && c.remaining == 0 && !c.isLast
    ensures LeadsTo(bytes, c.(inFragment := false))
  {
    forall s: seq<byte>
      ensures NextRecord([], bytes + s) == Resume(c.(inFragment := false), s)
    {
      assert NextRecord([], bytes + s) == Resume(c, s);
      assert c.record + s[..0] == c.record;
    }
  }

  class RecordReader {
    var input: seq<byte>
    var record: seq<byte>
    var remaining: nat
    var inFragment: bool
    var isLast: bool
    /** The bytes of the current record that `input` no longer holds. */
    ghost var consumed: seq<byte>

    ghost function At(): Cursor
      reads this
    {
      Cursor(record, remaining, inFragment, isLast)
    }

    /** Every byte fed since the last complete record ended. */
    ghost function Seen(): seq<byte>
      reads this
    {
      consumed + input
    }

    /** The invariant between calls: the position is the one that the consumed
        bytes lead to, and the record is within the limit. */
    ghost predicate Valid()
      reads this
    {
      && LeadsTo(consumed, At())
      && |record| + remaining <= MAX_RECORD_SIZE
      && (inFragment <==> remaining > 0)
    }

    constructor ()
      ensures Valid() && Seen() == []
    {
      input, record, remaining, inFragment, isLast, consumed := [], [], 0, false, false, [];
      new;
      LeadsToStart();
    }

    /** One call delivers what the one-shot parser finds in all bytes seen since
        the last record; what follows a complete record stays for later calls.
        After RecordTooLarge the header is gone and the reader is not used again. */
    method Read(data: seq<byte>) returns (r: ReadResult)
      requires Valid()
      modifies this
      ensures match NextRecord([], old(Seen()) + data)
        case More => r == Incomplete && Seen() == old(Seen()) + data && Valid()
        case Record(payload, rest) => r == Complete(payload) && Seen() == rest && Valid()
        case TooLarge(size) => r == RecordTooLarge(size, MAX_RECORD_SIZE)
    {
      hide NextRecord, Word32, LeadsTo, Resume;
      ghost var all := Seen() + data;
      AppendAssociative(consumed, input, data);
      input := input + data;
      while true
        invariant consumed + input == all
        invariant LeadsTo(consumed, Cursor(record, remaining, inFragment, isLast))
        invariant |record| + remaining <= MAX_RECORD_SIZE
        invariant inFragment <==> remaining > 0
        decreases |input|
      {
        if !inFragment {
          if |input| < 4 {
            StopsInHeader(consumed, At(), input);
            return Incomplete;
          }
          var header := Word32(input);
          HeaderWord(input);
          var length := header % LAST_FRAGMENT;
          if |record| + length > MAX_RECORD_SIZE {
            StopsOversized(consumed, At(), input);
            return RecordTooLarge(|record| + length, MAX_RECORD_SIZE);
          }
          LeadsToAcrossHeader(consumed, At(), input[..4]);
          Regroup(consumed, input, 4);
          consumed := consumed + input[..4];
          input := input[4..];
          isLast := header >= LAST_FRAGMENT;
          remaining := length;
          inFragment := true;
        }

        var available := if |input| < remaining then |input| else remaining;
        LeadsToAcrossPayload(consumed, At(), input[..available]);
        Regroup(consumed, input, available);
        consumed := consumed + input[..available];
        record := record + input[..available];
        input := input[available..];
        remaining := remaining - available;

        if remaining == 0 {
          if isLast {
            StopsComplete(consumed, At(), input);
            r := Complete(record);
            record := [];
            inFragment := false;
            consumed := [];
            LeadsToStart();
            Regroup([], input, 0);
            return;
          }
          LeadsToNextFragment(consumed, At());
          inFragment := false;
        } else {
          StopsInPayload(consumed, At(), input);
          return Incomplete;
        }
      }
    }
  }

  lemma {:induction false} Regroup(done: seq<byte>, s: seq<byte>, n: nat)
    requires n <= |s|
    ensures done + s[..n] + s[n..] == done + s
  {
  }

  lemma {:induction false} HeaderWord(s: seq<byte>)
    requires |s| >= 4
    ensures Word32(s[..4]) == Word32(s)
  {
    assert s[..4] + s[4..] == s;
    WordOfPrefix(s[..4], s[4..]);
  }

  // The four exits of the loop.

  lemma {:induction false} StopsInHeader(bytes: seq<byte>, c: Cursor, s: seq<byte>)
    requires LeadsTo(bytes, c) && !c.inFragment && |s| < 4
    ensures NextRecord([], bytes + s) == More
  {
    assert NextRecord([], bytes + s) == Resume(c, s);
  }

  lemma {:induction false} StopsOversized(bytes: seq<byte>, c: Cursor, s: seq<byte>)
    requires LeadsTo(bytes, c) && !c.inFragment && |s| >= 4
    requires |c.record| + Word32(s) % LAST_FRAGMENT > MAX_RECORD_SIZE
    ensures NextRecord([], bytes + s) == TooLarge(|c.record| + Word32(s) % LAST_FRAGMENT)
  {
    assert NextRecord([], bytes + s) == Resume(c, s);
  }

  lemma {:induction false} StopsComplete(bytes: seq<byte>, c: Cursor, s: seq<byte>)
    requires LeadsTo(bytes, c) && c.inFragment && c.remaining == 0 && c.isLast
    ensures NextRecord([], bytes + s) == Record(c.record, s)
  {
    assert NextRecord([], bytes + s) == Resume(c, s);
    assert c.record + s[..0] == c.record;
  }

  lemma {:induction false} StopsInPayload(bytes: seq<byte>, c: Cursor, s: seq<byte>)
    requires LeadsTo(bytes, c) && c.inFragment && |s| < c.remaining
    ensures NextRecord([], bytes + s) == More
  {
    assert NextRecord([], bytes + s) == Resume(c, s);
  }

  // ---------------------------------------------------------- whole streams

  /** Every record of a stream, and the size that stopped it, if one did. */
  datatype Stream = Stream(records: seq<seq<byte>>, oversize: nat)

  function Records(s: seq<byte>): Stream
    decreases |s|
  {
    match NextRecord([], s)
    case More => Stream([], 0)
    case TooLarge(size) => Stream([], size)
    case Record(payload, rest) => After([payload], Records(rest))
  }

  function After(first: seq<seq<byte>>, s: Stream): Stream {
    s.(records := first + s.records)
  }

  /** What a reader that has seen `seen` delivers over a series of reads, one
      result a read, and what it then still holds. */
  datatype Run = Run(delivered: Stream, seen: seq<byte>)

  function Reads(seen: seq<byte>, chunks: seq<seq<byte>>): Run
    decreases |chunks|
  {
    if chunks == [] then Run(Stream([], 0), seen)
    else
      match NextRecord([], seen + chunks[0])
      case More => Reads(seen + chunks[0], chunks[1..])
      case TooLarge(size) => Run(Stream([], size), [])
      case Record(payload, rest) =>
        var later := Reads(rest, chunks[1..]);
        later.(delivered := After([payload], later.delivered))
  }

  /** A reader fed chunk by chunk, as its callers do, until it is out of chunks or a
      record is too large. */
  method ReadEach(chunks: seq<seq<byte>>) returns (delivered: Stream)
    ensures delivered == Reads([], chunks).delivered
  {
    hide NextRecord, Reads;
    var reader := new RecordReader();
    var records: seq<seq<byte>> := [];
    assert chunks[0..] == chunks;
    AfterNone(Reads([], chunks).delivered);
    for i := 0 to |chunks|
      invariant fresh(reader) && reader.Valid()
      invariant Reads([], chunks).delivered == After(records, Reads(reader.Seen(), chunks[i..]).delivered)
    {
      ReadsStep(reader.Seen(), chunks, i);
      var result := reader.Read(chunks[i]);
      match result {
        case Complete(payload) =>
          AfterAfter(records, payload, Reads(reader.Seen(), chunks[i + 1..]).delivered);
          records := records + [payload];
        case RecordTooLarge(size, _) =>
          assert records + [] == records;
          return Stream(records, size);
        case Incomplete =>
      }
    }
    ReadsEnd(reader.Seen(), chunks);
    assert records + [] == records;
    return Stream(records, 0);
  }

  lemma {:induction false} AfterNone(s: Stream)
    ensures After([], s) == s
  {
    assert [] + s.records == s.records;
  }

  lemma {:induction false} AfterAfter(records: seq<seq<byte>>, payload: seq<byte>, s: Stream)
    ensures After(records, After([payload], s)) == After(records + [payload], s)
  {
    assert records + ([payload] + s.records) == records + [payload] + s.records;
  }

  lemma {:induction false} ReadsEnd(seen: seq<byte>, chunks: seq<seq<byte>>)
    ensures Reads(seen, chunks[|chunks|..]) == Run(Stream([], 0), seen)
  {
  }

  lemma {:induction false} ReadsStep(seen: seq<byte>, chunks: seq<seq<byte>>, i: nat)
    requires i < |chunks|
    ensures Reads(seen, chunks[i..]).delivered ==
            match NextRecord([], seen + chunks[i])
            case More => Reads(seen + chunks[i], chunks[i + 1..]).delivered
            case TooLarge(size) => Stream([], size)
            case Record(payload, rest) => After([payload], Reads(rest, chunks[i + 1..]).delivered)
  {
    hide NextRecord;
    assert chunks[i..][1..] == chunks[i + 1..];
  }

  /** A decided outcome stands when more bytes arrive. */
  lemma {:induction false} OutcomeMonotone(acc: seq<byte>, s: seq<byte>, t: seq<byte>)
    ensures match NextRecord(acc, s)
      case More => true
      case Record(payload, rest) => NextRecord(acc, s + t) == Record(payload, rest + t)
      case TooLarge(size) => NextRecord(acc, s + t) == TooLarge(size)
    decreases |s|
  {
    if |s| >= 4 {
      WordOfPrefix(s, t);
      var length := Word32(s) % LAST_FRAGMENT;
      if |acc| + length <= MAX_RECORD_SIZE && |s| - 4 >= length {
        assert (s + t)[4..4 + length] == s[4..4 + length];
        assert (s + t)[4 + length..] == s[4 + length..] + t;
        if Word32(s) < LAST_FRAGMENT {
          OutcomeMonotone(acc + s[4..4 + length], s[4 + length..], t);
        }
      }
    }
  }

  /** Chunking is invisible: the reads deliver the records of the uncut stream in
      order, none lost, doubled or altered, and what is not delivered yet is
      exactly what the bytes still held contain. An oversized record stops both
      after the same records. */
  lemma {:induction false} ChunkingInvisible(seen: seq<byte>, chunks: seq<seq<byte>>)
    ensures var run := Reads(seen, chunks);
      Records(seen + Concat(chunks))
      == After(run.delivered.records,
               if run.delivered.oversize > 0 then Stream([], run.delivered.oversize) else Records(run.seen))
    decreases |chunks|
  {
    if chunks == [] {
      assert seen + [] == seen;
    } else {
      var later := Concat(chunks[1..]);
      assert seen + Concat(chunks) == seen + chunks[0] + later;
      OutcomeMonotone([], seen + chunks[0], later);
      match NextRecord([], seen + chunks[0]) {
        case More => ChunkingInvisible(seen + chunks[0], chunks[1..]);
        case TooLarge(size) =>
        case Record(payload, rest) =>
          ChunkingInvisible(rest, chunks[1..]);
          var run := Reads(rest, chunks[1..]);
          assert [payload] + run.delivered.records + Records(run.seen).records
              == [payload] + (run.delivered.records + Records(run.seen).records);
      }
    }
  }

  /** Two ways of cutting one stream deliver the same, once both are drained. */
  lemma {:induction false} CutsAgree(a: seq<seq<byte>>, b: seq<seq<byte>>)
    requires Concat(a) == Concat(b)
    requires Drained(Reads([], a)) && Drained(Reads([], b))
    ensures Reads([], a).delivered == Reads([], b).delivered
  {
    hide Reads, Concat;
    ChunkingInvisible([], a);
    ChunkingInvisible([], b);
    var da, db := Reads([], a).delivered, Reads([], b).delivered;
    assert da.records + [] == da.records && db.records + [] == db.records;
  }

  /** Nothing deliverable is left in the reader. */
  predicate Drained(run: Run) {
    run.delivered.oversize > 0 || NextRecord([], run.seen).More?
  }

  /** Empty reads drain: as many as there are buffered records, plus one, deliver
      everything. */
  lemma {:induction false} EmptyReadsDrain(seen: seq<byte>, idle: seq<seq<byte>>)
    requires forall i | 0 <= i < |idle| :: idle[i] == []
    requires |idle| > |Records(seen).records|
    ensures Reads(seen, idle).delivered == Records(seen)
    decreases |idle|
  {
    assert seen + idle[0] == seen;
    match NextRecord([], seen) {
      case More => IdleReadsStay(seen, idle);
      case TooLarge(_) =>
      case Record(_, rest) => EmptyReadsDrain(rest, idle[1..]);
    }
  }

  lemma {:induction false} IdleReadsStay(seen: seq<byte>, idle: seq<seq<byte>>)
    requires forall i | 0 <= i < |idle| :: idle[i] == []
    requires NextRecord([], seen).More?
    ensures Reads(seen, idle) == Run(Stream([], 0), seen)
  {
    if idle != [] {
      assert seen + idle[0] == seen;
      IdleReadsStay(seen, idle[1..]);
    }
  }

  // ------------------------------------------------ the writer and fragments

  lemma {:induction false} BehindHeader(header: seq<byte>, data: seq<byte>, suffix: seq<byte>, n: nat)
    requires |header| == 4 && n <= |data|
    ensures (header + data + suffix)[4..4 + n] == data[..n]
    ensures (header + data + suffix)[4 + n..] == data[n..] + suffix
  {
    assert (header + data + suffix)[4..] == data + suffix;
    assert (data + suffix)[n..] == data[n..] + suffix;
    assert (header + data + suffix)[4 + n..] == (header + data + suffix)[4..][n..];
  }

  /** What a framed record is read back as: beyond 31 bits its length is cut, and
      the record with it. */
  lemma {:induction false} FrameReadBack(data: seq<byte>, suffix: seq<byte>)
    ensures var n := |data| % LAST_FRAGMENT;
      NextRecord([], Frame(data) + suffix)
      == if n > MAX_RECORD_SIZE then TooLarge(n) else Record(data[..n], data[n..] + suffix)
  {
    hide BigEndian32, Word32;
    var n := |data| % LAST_FRAGMENT;
    var header := BigEndian32(LAST_FRAGMENT + n);
    assert header + data + suffix == header + (data + suffix);
    Word32OfBigEndian(LAST_FRAGMENT + n, data + suffix);
    BehindHeader(header, data, suffix, n);
    assert [] + data[..n] == data[..n];
  }

  /** A framed record is read back, with what follows it untouched, exactly when
      it is within the record limit. */
  lemma {:induction false} FrameReadBackIff(data: seq<byte>, suffix: seq<byte>)
    ensures NextRecord([], Frame(data) + suffix) == Record(data, suffix) <==> |data| <= MAX_RECORD_SIZE
  {
    hide NextRecord, Frame;
    FrameReadBack(data, suffix);
    if |data| <= MAX_RECORD_SIZE {
      assert data[..|data|] == data && data[|data|..] + suffix == suffix;
    }
  }

  /** The wire form of a record cut into fragments, the last one flagged. */
  function Fragments(parts: seq<seq<byte>>): seq<byte>
    requires forall i | 0 <= i < |parts| :: |parts[i]| < 0x8000_0000
  {
    if parts == [] then []
    else
      BigEndian32(|parts[0]| + (if |parts| == 1 then 0x8000_0000 else 0)) + parts[0] + Fragments(parts[1..])
  }

  /** Fragments after which the record goes on. */
  function OpenFragments(parts: seq<seq<byte>>): seq<byte>
    requires forall i | 0 <= i < |parts| :: |parts[i]| < 0x8000_0000
  {
    if parts == [] then [] else BigEndian32(|parts[0]|) + parts[0] + OpenFragments(parts[1..])
  }

  lemma {:induction false} OneFragment(acc: seq<byte>, header: u32, part: seq<byte>, later: seq<byte>)
    requires header % LAST_FRAGMENT == |part| && |acc| + |part| <= MAX_RECORD_SIZE
    ensures NextRecord(acc, BigEndian32(header) + part + later)
            == if header >= LAST_FRAGMENT then Record(acc + part, later) else NextRecord(acc + part, later)
  {
    hide BigEndian32, Word32;
    assert BigEndian32(header) + part + later == BigEndian32(header) + (part + later);
    Word32OfBigEndian(header, part + later);
    BehindHeader(BigEndian32(header), part, later, |part|);
    assert part[..|part|] == part && part[|part|..] + later == later;
  }

  /** However a record within the limit is cut into fragments, empty ones
      included, the parser puts it together again. */
  lemma {:induction false} FragmentsReassemble(acc: seq<byte>, parts: seq<seq<byte>>, suffix: seq<byte>)
    requires parts != [] && forall i | 0 <= i < |parts| :: |parts[i]| < LAST_FRAGMENT
    requires |acc| + |Concat(parts)| <= MAX_RECORD_SIZE
    ensures NextRecord(acc, Fragments(parts) + suffix) == Record(acc + Concat(parts), suffix)
    decreases |parts|
  {
    hide BigEndian32, NextRecord;
    var part := parts[0];
    var header: u32 := |part| + (if |parts| == 1 then LAST_FRAGMENT else 0);
    var later := Fragments(parts[1..]);
    BigEndianThen(header, part, later, suffix);
    OneFragment(acc, header, part, later + suffix);
    if |parts| == 1 {
      assert later + suffix == suffix && part + [] == part;
    } else {
      FragmentsReassemble(acc + part, parts[1..], suffix);
      assert acc + part + Concat(parts[1..]) == acc + Concat(parts);
    }
  }

  lemma {:induction false} BigEndianThen(header: u32, part: seq<byte>, later: seq<byte>, suffix: seq<byte>)
    ensures BigEndian32(header) + part + later + suffix == BigEndian32(header) + part + (later + suffix)
  {
    hide BigEndian32;
  }

  /** A stream taken apart at its first header. */
  lemma {:induction false} HeaderApart(s: seq<byte>)
    requires |s| >= 4
    ensures var n := Word32(s) % LAST_FRAGMENT;
      |s| - 4 >= n ==> s == BigEndian32(Word32(s)) + s[4..4 + n] + s[4 + n..]
    ensures s == BigEndian32(Word32(s)) + s[4..]
  {
    hide BigEndian32, Word32;
    WordBytes(s);
  }

  predicate Small(parts: seq<seq<byte>>) { forall i | 0 <= i < |parts| :: |parts[i]| < 0x8000_0000 }

  lemma {:induction false} FragmentThen(part: seq<byte>, later: seq<seq<byte>>, end: seq<byte>)
    requires |part| < 0x8000_0000 && Small(later) && later != []
    ensures Small([part] + later) && Concat([part] + later) == part + Concat(later)
    ensures Fragments([part] + later) + end == BigEndian32(|part|) + part + (Fragments(later) + end)
  {
    hide BigEndian32;
    assert ([part] + later)[1..] == later;
    AppendAssociative(BigEndian32(|part|) + part, Fragments(later), end);
  }

  lemma {:induction false} LastFragment(part: seq<byte>, end: seq<byte>)
    requires |part| < 0x8000_0000
    ensures Small([part]) && Concat([part]) == part
    ensures Fragments([part]) + end == BigEndian32(0x8000_0000 + |part|) + part + end
  {
    hide BigEndian32;
    assert [part][1..] == [] && part + [] == part;
    assert BigEndian32(0x8000_0000 + |part|) + part + [] == BigEndian32(0x8000_0000 + |part|) + part;
  }

  /** The fragments that a record was put together from. */
  lemma {:induction false} RecordTakenApart(acc: seq<byte>, s: seq<byte>) returns (parts: seq<seq<byte>>)
    requires NextRecord(acc, s).Record?
    ensures parts != [] && Small(parts)
    ensures NextRecord(acc, s).payload == acc + Concat(parts)
    ensures s == Fragments(parts) + NextRecord(acc, s).rest
    ensures |NextRecord(acc, s).payload| <= 10_485_760
    decreases |s|
  {
    hide BigEndian32, Word32, Fragments, Concat;
    var header := Word32(s);
    var n := header % LAST_FRAGMENT;
    var part, rest := s[4..4 + n], s[4 + n..];
    HeaderApart(s);
    if header >= LAST_FRAGMENT {
      parts := [part];
      LastFragment(part, rest);
    } else {
      var later := RecordTakenApart(acc + part, rest);
      parts := [part] + later;
      AppendAssociative(acc, part, Concat(later));
      FragmentThen(part, later, NextRecord(acc, s).rest);
    }
  }

  /** What a record is: a stream begins with the record p, followed by rest, exactly when
      it begins with fragments of p, each shorter than 2^31 bytes and only the last one
      flagged, and p has at most 10 MiB. */
  lemma {:induction false} RecordIff(s: seq<byte>, p: seq<byte>, rest: seq<byte>)
    ensures NextRecord([], s) == Record(p, rest) <==>
            |p| <= 10_485_760
            && exists parts :: parts != [] && Small(parts) && Concat(parts) == p && s == Fragments(parts) + rest
  {
    hide NextRecord, Concat, Fragments;
    if NextRecord([], s) == Record(p, rest) {
      var parts := RecordTakenApart([], s);
      assert [] + Concat(parts) == Concat(parts);
    }
    if |p| <= 10_485_760
       && exists parts :: parts != [] && Small(parts) && Concat(parts) == p && s == Fragments(parts) + rest
    {
      var parts :| parts != [] && Small(parts) && Concat(parts) == p && s == Fragments(parts) + rest;
      FragmentsReassemble([], parts, rest);
      assert [] + Concat(parts) == Concat(parts);
    }
  }

  /** Open fragments within the limit, then a header that goes beyond it. */
  predicate Exceeds(acc: seq<byte>, s: seq<byte>, parts: seq<seq<byte>>, header: u32, tail: seq<byte>, size: nat) {
    && Small(parts) && |acc| + |Concat(parts)| <= 10_485_760
    && size == |acc| + |Concat(parts)| + header % 0x8000_0000 && size > 10_485_760
    && s == OpenFragments(parts) + (BigEndian32(header) + tail)
  }

  lemma {:induction false} ExcessTakenApart(acc: seq<byte>, s: seq<byte>)
    returns (parts: seq<seq<byte>>, header: u32, tail: seq<byte>)
    requires |acc| <= 10_485_760 && NextRecord(acc, s).TooLarge?
    ensures Exceeds(acc, s, parts, header, tail, NextRecord(acc, s).size)
    decreases |s|
  {
    hide BigEndian32, Word32;
    var first := Word32(s);
    var n := first % LAST_FRAGMENT;
    HeaderApart(s);
    if |acc| + n > MAX_RECORD_SIZE {
      parts, header, tail := [], first, s[4..];
      assert [] + (BigEndian32(header) + tail) == BigEndian32(header) + tail;
    } else {
      var part, rest := s[4..4 + n], s[4 + n..];
      var later;
      later, header, tail := ExcessTakenApart(acc + part, rest);
      parts := [part] + later;
      assert parts[1..] == later && Concat(parts) == part + Concat(later);
      var end := BigEndian32(header) + tail;
      assert BigEndian32(n) + part + OpenFragments(later) + end == BigEndian32(n) + part + (OpenFragments(later) + end);
    }
  }

  lemma {:induction false} ExcessRefused(acc: seq<byte>, s: seq<byte>, parts: seq<seq<byte>>, header: u32,
                                         tail: seq<byte>, size: nat)
    requires Exceeds(acc, s, parts, header, tail, size)
    ensures NextRecord(acc, s) == TooLarge(size)
    decreases |parts|
  {
    hide BigEndian32, Word32;
    var end := BigEndian32(header) + tail;
    if parts == [] {
      assert s == end;
      Word32OfBigEndian(header, tail);
    } else {
      var part, later := parts[0], parts[1..];
      assert s == BigEndian32(|part|) + part + (OpenFragments(later) + end);
      OneFragment(acc, |part|, part, OpenFragments(later) + end);
      ExcessRefused(acc + part, OpenFragments(later) + end, later, header, tail, size);
    }
  }

  /** When a stream is refused: exactly when its open fragments stay within 10 MiB up to
      a header that goes beyond, flagged or not; the sum is what is reported. Any other
      stream that is no record yet waits for more bytes. */
  lemma {:induction false} TooLargeIff(s: seq<byte>, size: nat)
    ensures NextRecord([], s) == TooLarge(size) <==>
            exists parts, header, tail :: Exceeds([], s, parts, header, tail, size)
  {
    hide NextRecord, Exceeds;
    if NextRecord([], s) == TooLarge(size) {
      var parts, header, tail := ExcessTakenApart([], s);
    }
    if exists parts, header, tail :: Exceeds([], s, parts, header, tail, size) {
      var parts, header, tail :| Exceeds([], s, parts, header, tail, size);
      ExcessRefused([], s, parts, header, tail, size);
    }
  }

  /** The header of a framed record, in numbers. */
  lemma {:induction false} FrameForm(data: seq<byte>)
    ensures |data| < 0x8000_0000 ==> Frame(data) == BigEndian32(0x8000_0000 + |data|) + data
  {
    hide BigEndian32;
  }
}
