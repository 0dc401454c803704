/** The read-ahead buffer. `Cache` is its state as a value; the class is the
    source's object, proved to move between these states. */
module ReadAhead {
  import opened Wire
  import opened Options

  const U32_MAX: nat := 0xFFFF_FFFF

  function Min(a: nat, b: nat): nat { if a < b then a else b }

  datatype Cache = Cache(data: seq<byte>, offset: u64, lastEnd: u64, streak: u32) {
    predicate Covers(o: u64, len: nat) {
      offset <= o && o + len <= offset + |data|
    }

    predicate Sequential() { streak >= 2 }

    /** Reading len bytes at o: the next state and, on a hit, the bytes. */
    function Read(o: u64, len: nat): (Cache, Option<seq<byte>>)
      requires o + len < U64_MODULUS
    {
      var streak' := if o != lastEnd then 0 else if streak == U32_MAX then streak else streak + 1;
      if Covers(o, len) then (this.(streak := streak', lastEnd := o + len), Some(data[o - offset..o - offset + len]))
      else (this.(streak := streak'), None)
    }

    /** How much to fetch after a miss. The product is a usize: it wraps. */
    function Plan(len: u64, max: nat): (n: nat)
      ensures n <= if len > max then len else max
    {
      if !Sequential() then len else Min(max, 4 * len % U64_MODULUS)
    }
  }

  class ReadAheadBuf {
    var data: seq<byte>
    var bufOffset: u64
    const maxSize: nat
    var lastReadEnd: u64
    var sequentialCount: u32

    function State(): Cache
      reads this
    {
      Cache(data, bufOffset, lastReadEnd, sequentialCount)
    }

    predicate Valid()
      reads this
    {
      bufOffset + |data| < U64_MODULUS
    }

    constructor (limit: nat)
      ensures Valid() && State() == Cache([], 0, U64_MODULUS - 1, 0) && maxSize == limit
    {
      data, bufOffset, lastReadEnd, sequentialCount := [], 0, U64_MODULUS - 1, 0;
      maxSize := limit;
    }

    method TryRead(offset: u64, len: nat) returns (r: Option<seq<byte>>)
      requires Valid() && offset + len < U64_MODULUS
      modifies this
      ensures Valid() && (State(), r) == old(State()).Read(offset, len)
    {
      if offset == lastReadEnd {
        sequentialCount := if sequentialCount == U32_MAX then U32_MAX else sequentialCount + 1;
      } else {
        sequentialCount := 0;
      }
      var bufEnd := bufOffset + |data|;
      if offset >= bufOffset && offset + len <= bufEnd {
        var start := offset - bufOffset;
        r := Some(data[start..start + len]);
        lastReadEnd := offset + len;
        return;
      }
      r := None;
    }

    method Fill(offset: u64, d: seq<byte>)
      requires offset + |d| < U64_MODULUS
      modifies this
      ensures Valid() && State() == old(State()).(data := d, offset := offset)
    {
      bufOffset := offset;
      data := d;
    }

    method FetchPlan(offset: u64, len: u64) returns (plan: (u64, nat))
      ensures plan == (offset, State().Plan(len, maxSize))
    {
      if sequentialCount >= 2 {
        plan := (offset, Min(maxSize, 4 * len % U64_MODULUS));
      } else {
        plan := (offset, len);
      }
    }

    method Invalidate()
      modifies this
      ensures Valid() && State() == old(State()).(data := [], offset := 0)
    {
      data := [];
      bufOffset := 0;
    }
  }

  // -------------------------------------------------------------- agreement

  /** The file's bytes in a range; short where the file ends. */
  function Range(file: seq<byte>, offset: nat, len: nat): seq<byte> {
    if offset >= |file| then []
    else if offset + len > |file| then file[offset..]
    else file[offset..offset + len]
  }

  datatype Event =
    | TryAt(offset: u64, len: nat)
    | Fetch(offset: u64, len: nat)    // fill with the file's current bytes
    | Forget                          // invalidate
    | Change(file: seq<byte>)

  /** `stale`: the file changed and the buffer was neither refilled nor invalidated
      since. */
  datatype World = World(cache: Cache, file: seq<byte>, stale: bool)

  /** Offset plus length is a u64 in the source. */
  predicate InRange(events: seq<Event>) {
    forall i | 0 <= i < |events| && events[i].TryAt? :: events[i].offset + events[i].len < U64_MODULUS
  }

  function Next(w: World, e: Event): World
    requires InRange([e])
  {
    match e
    case TryAt(o, len) => assert [e][0] == e; w.(cache := w.cache.Read(o, len).0)
    case Fetch(o, len) => World(w.cache.(data := Range(w.file, o, len), offset := o), w.file, false)
    case Forget => World(w.cache.(data := [], offset := 0), w.file, false)
    case Change(file) => World(w.cache, file, true)
  }

  lemma {:induction false} InRangeStep(events: seq<Event>)
    requires InRange(events) && events != []
    ensures InRange([events[0]]) && InRange(events[1..])
    ensures events[0].TryAt? ==> events[0].offset + events[0].len < U64_MODULUS
  {
  }

  /** A read that hits and hands out bytes. */
  predicate HandsOut(w: World, e: Event) {
    e.TryAt? && e.len > 0 && w.cache.Covers(e.offset, e.len)
  }

  /** Every hit of the run hands out the file's bytes, and all it was asked for. */
  predicate HitsAreCurrent(w: World, events: seq<Event>)
    requires InRange(events)
    decreases |events|
  {
    events == [] ||
    (InRangeStep(events);
     var e := events[0];
     && (e.TryAt? ==>
           match w.cache.Read(e.offset, e.len).1
           case None => true
           case Some(d) => d == Range(w.file, e.offset, e.len) && |d| == e.len)
     && HitsAreCurrent(Next(w, e), events[1..]))
  }

  /** The run never hands out bytes while stale. Reads that miss, or ask for nothing,
      are free to come at any time. */
  predicate FreshHits(w: World, events: seq<Event>)
    requires InRange(events)
    decreases |events|
  {
    events == [] ||
    (InRangeStep(events);
     && !(w.stale && HandsOut(w, events[0]))
     && FreshHits(Next(w, events[0]), events[1..]))
  }

  predicate Agrees(c: Cache, file: seq<byte>) {
    c.data == [] || (c.offset + |c.data| <= |file| && c.data == file[c.offset..c.offset + |c.data|])
  }

  /** A fresh run from a buffer that agrees with the file: every hit returns exactly
      the file's current bytes. */
  lemma {:induction false} ReadsAgree(w: World, events: seq<Event>)
    requires InRange(events) && FreshHits(w, events) && (w.stale || Agrees(w.cache, w.file))
    ensures HitsAreCurrent(w, events)
    decreases |events|
  {
    if events != [] {
      InRangeStep(events);
      var e := events[0];
      if e.TryAt? && w.cache.Covers(e.offset, e.len) {
        if e.len == 0 {
          assert w.cache.data[e.offset - w.cache.offset..e.offset - w.cache.offset] == [];
          assert Range(w.file, e.offset, 0) == [];
        } else {
          HitIsCurrent(w.cache, w.file, e.offset, e.len);
        }
      }
      ReadsAgree(Next(w, e), events[1..]);
    }
  }

  lemma {:induction false} SliceOfSlice(s: seq<byte>, from: nat, size: nat, i: nat, len: nat)
    requires from + size <= |s| && i + len <= size
    ensures s[from..from + size][i..i + len] == s[from + i..from + i + len]
  {
    var a, b := s[from..from + size][i..i + len], s[from + i..from + i + len];
    assert |a| == len && |b| == len;
    forall k | 0 <= k < len
      ensures a[k] == b[k]
    {
      assert a[k] == s[from..from + size][i + k] == s[from + i + k];
    }
  }

  lemma {:induction false} HitIsCurrent(c: Cache, file: seq<byte>, o: u64, len: nat)
    requires o + len < U64_MODULUS && Agrees(c, file) && c.Covers(o, len) && len > 0
    ensures c.Read(o, len).1 == Some(Range(file, o, len)) && |Range(file, o, len)| == len
  {
    SliceOfSlice(file, c.offset, |c.data|, o - c.offset, len);
  }

  // ------------------------------------------- schedules and file contents

  /** The same event; a change may put other bytes, but as many. */
  predicate SameShape(e: Event, f: Event) {
    if e.Change? then f.Change? && |f.file| == |e.file| else f == e
  }

  predicate SameShapes(es: seq<Event>, fs: seq<Event>) {
    |es| == |fs| && forall i | 0 <= i < |es| :: SameShape(es[i], fs[i])
  }

  /** Worlds that differ in bytes only. */
  predicate Alike(w: World, v: World) {
    && v.stale == w.stale && |v.file| == |w.file|
    && v.cache == w.cache.(data := v.cache.data) && |v.cache.data| == |w.cache.data|
  }

  /** The schedule of `events` from w, with other file contents. */
  predicate Realises(w: World, events: seq<Event>, v: World, es: seq<Event>) {
    Alike(w, v) && (v.stale || Agrees(v.cache, v.file)) && SameShapes(events, es) && InRange(es)
  }

  /** A hit hands out bytes before the buffer is next refilled or invalidated. */
  predicate HitsSoon(w: World, events: seq<Event>)
    requires InRange(events)
    decreases |events|
  {
    events != [] &&
    (InRangeStep(events);
     var e := events[0];
     HandsOut(w, e) || (!e.Fetch? && !e.Forget? && HitsSoon(Next(w, e), events[1..])))
  }

  lemma {:induction false} AlikeStep(w: World, v: World, e: Event, f: Event)
    requires Alike(w, v) && SameShape(e, f) && InRange([e])
    ensures InRange([f]) && Alike(Next(w, e), Next(v, f)) && (HandsOut(w, e) <==> HandsOut(v, f)) && v.stale == w.stale
  {
    assert [e][0] == e && [f][0] == f;
  }

  /** Whether hits are fresh, and whether one comes soon, is a matter of the schedule
      alone. */
  lemma {:induction false} AlikeRuns(w: World, v: World, es: seq<Event>, fs: seq<Event>)
    requires Alike(w, v) && SameShapes(es, fs) && InRange(es)
    ensures InRange(fs) && (FreshHits(w, es) <==> FreshHits(v, fs)) && (HitsSoon(w, es) <==> HitsSoon(v, fs))
    decreases |es|
  {
    hide Next, HandsOut, Alike;
    forall i | 0 <= i < |fs| && fs[i].TryAt?
      ensures fs[i].offset + fs[i].len < U64_MODULUS
    {
      assert SameShape(es[i], fs[i]);
    }
    if es != [] {
      InRangeStep(es);
      InRangeStep(fs);
      assert SameShape(es[0], fs[0]);
      AlikeStep(w, v, es[0], fs[0]);
      forall i | 0 <= i < |es[1..]|
        ensures SameShape(es[1..][i], fs[1..][i])
      {
        assert SameShape(es[i + 1], fs[i + 1]);
      }
      AlikeRuns(Next(w, es[0]), Next(v, fs[0]), es[1..], fs[1..]);
    }
  }

  function Ones(n: nat): seq<byte> { seq(n, _ => 1) }

  /** Buffer and file hold zeros. */
  predicate Blank(w: World) { w.cache.data == Zeros(|w.cache.data|) && w.file == Zeros(|w.file|) }

  /** The buffer holds zeros, the file ones. */
  predicate Torn(w: World) { w.cache.data == Zeros(|w.cache.data|) && w.file == Ones(|w.file|) }

  lemma {:induction false} RangeOfOne(n: nat, b: byte, o: nat, len: nat)
    ensures var r := Range(seq(n, _ => b), o, len);
      |r| <= len && forall i | 0 <= i < |r| :: r[i] == b
  {
  }

  /** The schedule with every change writing ones. */
  function AllOnes(events: seq<Event>): (es: seq<Event>)
    ensures SameShapes(events, es)
  {
    seq(|events|, i requires 0 <= i < |events| =>
      if events[i].Change? then Change(Ones(|events[i].file|)) else events[i])
  }

  lemma {:induction false} AllOnesStep(events: seq<Event>)
    requires events != []
    ensures AllOnes(events) == [AllOnes(events)[0]] + AllOnes(events[1..])
    ensures SameShape(events[0], AllOnes(events)[0])
    ensures events[0].Change? ==> AllOnes(events)[0] == Change(Ones(|events[0].file|))
    ensures !events[0].Change? ==> AllOnes(events)[0] == events[0]
  {
  }

  lemma {:induction false} RunStep(w: World, e: Event, events: seq<Event>)
    requires InRange([e]) && InRange(events)
    ensures InRange([e] + events)
    ensures HitsAreCurrent(w, [e] + events) ==> HitsAreCurrent(Next(w, e), events)
  {
    assert ([e] + events)[1..] == events;
    forall i | 0 <= i < |[e] + events| && ([e] + events)[i].TryAt?
      ensures ([e] + events)[i].offset + ([e] + events)[i].len < U64_MODULUS
    {
      if i > 0 {
        assert ([e] + events)[i] == events[i - 1];
      } else {
        assert [e][0] == e;
      }
    }
    InRangeStep([e] + events);
  }

  lemma {:induction false} SameShapesRefl(es: seq<Event>)
    ensures SameShapes(es, es)
  {
  }

  /** A torn buffer that hits before it is refilled hands out a zero for a one. */
  lemma {:induction false} TornHit(w: World, events: seq<Event>)
    requires InRange(events) && Torn(w) && HitsSoon(w, events)
    ensures InRange(AllOnes(events)) && !HitsAreCurrent(w, AllOnes(events))
    decreases |events|
  {
    var e, es, later := events[0], AllOnes(events), events[1..];
    InRangeStep(events);
    AlikeRuns(w, w, events, es);
    AllOnesStep(events);
    InRangeStep(es);
    assert es[1..] == AllOnes(later);
    if HandsOut(w, e) {
      RangeOfOne(|w.file|, 1, e.offset, e.len);
      var i := e.offset - w.cache.offset;
      assert w.cache.data[i..i + e.len][0] == 0;
    } else {
      var f := es[0];
      AlikeStep(w, w, e, f);
      SameShapesRefl(later);
      AlikeRuns(Next(w, e), Next(w, f), later, later);
      TornHit(Next(w, f), later);
      RunStep(w, f, AllOnes(later));
    }
  }

  /** Contents that expose a schedule's first stale hit: zeros up to the change that
      makes it stale, ones from there on. */
  function Exposing(w: World, events: seq<Event>): (es: seq<Event>)
    requires InRange(events)
    decreases |events|
  {
    if events == [] then []
    else
      InRangeStep(events);
      var e, later := events[0], events[1..];
      if e.Change? then
        var blank := Change(Zeros(|e.file|));
        if HitsSoon(Next(w, blank), later) then AllOnes(events) else [blank] + Exposing(Next(w, blank), later)
      else [e] + Exposing(Next(w, e), later)
  }

  lemma {:induction false} Exposed(w: World, events: seq<Event>)
    requires InRange(events) && Blank(w) && !FreshHits(w, events) && !(w.stale && HitsSoon(w, events))
    ensures var es := Exposing(w, events);
      SameShapes(events, es) && InRange(es) && !HitsAreCurrent(w, es)
    decreases |events|
  {
    InRangeStep(events);
    var e, later := events[0], events[1..];
    var f := if e.Change? then Change(Zeros(|e.file|)) else e;
    AlikeStep(w, w, e, f);
    SameShapesRefl(later);
    AlikeRuns(Next(w, e), Next(w, f), later, later);
    if e.Change? && HitsSoon(Next(w, f), later) {
      var g := Change(Ones(|e.file|));
      AllOnesStep(events);
      AlikeStep(w, w, f, g);
      AlikeRuns(Next(w, f), Next(w, g), later, later);
      TornHit(Next(w, g), later);
      RunStep(w, g, AllOnes(later));
    } else {
      if e.Fetch? {
        RangeOfOne(|w.file|, 0, e.offset, e.len);
      }
      Exposed(Next(w, f), later);
      var es := Exposing(Next(w, f), later);
      RunStep(w, f, es);
      assert Exposing(w, events) == [f] + es;
      forall i | 0 <= i < |events|
        ensures SameShape(events[i], ([f] + es)[i])
      {
        if i > 0 {
          assert events[i] == later[i - 1] && ([f] + es)[i] == es[i - 1];
        }
      }
    }
  }

  /** Exactly when a schedule of reads, refills, invalidations and changes is safe: all
      its hits are current, for all file contents, if and only if it never hands out
      bytes while stale. */
  lemma {:induction false} HitsAreCurrentIff(w: World, events: seq<Event>)
    requires InRange(events) && (w.stale || Agrees(w.cache, w.file))
    ensures FreshHits(w, events) <==>
            forall v: World, es: seq<Event> | Realises(w, events, v, es) :: HitsAreCurrent(v, es)
  {
    hide FreshHits, HitsAreCurrent, HitsSoon;
    if FreshHits(w, events) {
      forall v: World, es: seq<Event> | Realises(w, events, v, es)
        ensures HitsAreCurrent(v, es)
      {
        AlikeRuns(w, v, events, es);
        ReadsAgree(v, es);
      }
    } else {
      var torn := w.stale && HitsSoon(w, events);
      var v := World(w.cache.(data := Zeros(|w.cache.data|)), if torn then Ones(|w.file|) else Zeros(|w.file|),
          w.stale);
      SameShapesRefl(events);
      AlikeRuns(w, v, events, events);
      if torn {
        TornHit(v, events);
        assert Realises(w, events, v, AllOnes(events));
      } else {
        Exposed(v, events);
        assert Realises(w, events, v, Exposing(v, events));
      }
    }
  }

  /** Miss, plan, fill, retry: after filling the whole planned range the retry hits,
      with the first len bytes fetched, exactly unless the reader is in sequential mode
      and asks for more than the limit, or for so much that four times as much wraps
      around to less. */
  lemma {:induction false} RetryHitsIff(c: Cache, o: u64, len: u64, max: nat, fetched: seq<byte>)
    requires o + len < U64_MODULUS && c.Read(o, len).1 == None
    requires |fetched| == c.Read(o, len).0.Plan(len, max)
    ensures var missed := c.Read(o, len).0;
      var filled := missed.(data := fetched, offset := o);
      && (filled.Read(o, len).1 == None <==> missed.Sequential() && (len > max || 4 * len % U64_MODULUS < len))
      && (filled.Read(o, len).1 != None ==> filled.Read(o, len).1 == Some(fetched[..len]))
  {
  }

  /** Below 2^62 bytes nothing wraps; from there to a third of 2^64 everything does. At
      2^62 the plan is to fetch nothing at all. */
  lemma {:induction false} ProductWraps(len: u64)
    ensures Cache([], 0, 0, 2).Plan(0x4000_0000_0000_0000, 0x4000_0000_0000_0000) == 0
    ensures len < 0x4000_0000_0000_0000 ==> 4 * len % U64_MODULUS == 4 * len
    ensures 0x4000_0000_0000_0000 <= len && 3 * len < U64_MODULUS ==> 4 * len % U64_MODULUS < len
  {
    if 0x4000_0000_0000_0000 <= len && 3 * len < U64_MODULUS {
      assert 4 * len % U64_MODULUS == 4 * len - U64_MODULUS;
    }
  }

  /** How much to fetch, in numbers: what was asked for, or in sequential mode four times
      as much, up to the limit. */
  lemma {:induction false} PlanExact(c: Cache, len: u64, max: nat)
    ensures c.streak < 2 ==> c.Plan(len, max) == len
    ensures c.streak >= 2 && 4 * len < U64_MODULUS ==> c.Plan(len, max) == if max < 4 * len then max else 4 * len
    ensures c.streak >= 2 && 4 * len >= U64_MODULUS ==>
              var wrapped := 4 * len % U64_MODULUS;
              c.Plan(len, max) == if max < wrapped then max else wrapped
  {
  }

  // ------------------------------------------------------ the mode over runs

  /** The world after a run. */
  function Through(w: World, events: seq<Event>): World
    requires InRange(events)
    decreases |events|
  {
    if events == [] then w
    else
      var n := |events| - 1;
      InRangeLast(events);
      Next(Through(w, events[..n]), events[n])
  }

  lemma {:induction false} InRangeLast(events: seq<Event>)
    requires InRange(events) && events != []
    ensures InRange(events[..|events| - 1]) && InRange([events[|events| - 1]])
  {
  }

  /** Where the last read that hit in this run ended. */
  function LastHitEnd(w: World, events: seq<Event>): u64
    requires InRange(events)
    decreases |events|
  {
    if events == [] then w.cache.lastEnd
    else
      var n := |events| - 1;
      InRangeLast(events);
      var e, c := events[n], Through(w, events[..n]).cache;
      if e.TryAt? && c.offset <= e.offset && e.offset + e.len <= c.offset + |c.data| then
        assert events[n] == e;
        e.offset + e.len
      else LastHitEnd(w, events[..n])
  }

  predicate NoReads(events: seq<Event>) {
    forall i | 0 <= i < |events| :: !events[i].TryAt?
  }

  lemma {:induction false} LastHitKept(w: World, events: seq<Event>)
    requires InRange(events)
    ensures Through(w, events).cache.lastEnd == LastHitEnd(w, events)
    decreases |events|
  {
    if events != [] {
      InRangeLast(events);
      LastHitKept(w, events[..|events| - 1]);
    }
  }

  lemma {:induction false} QuietKeeps(w: World, events: seq<Event>, quiet: seq<Event>)
    requires NoReads(quiet) && InRange(events)
    ensures InRange(events + quiet)
    ensures Through(w, events + quiet).cache.streak == Through(w, events).cache.streak
    decreases |quiet|
  {
    var n := |quiet| - 1;
    if quiet == [] {
      assert events + quiet == events;
    } else {
      assert (events + quiet)[..|events| + n] == events + quiet[..n];
      QuietKeeps(w, events, quiet[..n]);
    }
  }

  lemma {:induction false} ReadCounts(w: World, events: seq<Event>, read: Event)
    requires InRange(events) && read.TryAt? && read.offset + read.len < U64_MODULUS
    ensures InRange(events + [read])
    ensures var before, after := Through(w, events).cache.streak, Through(w, events + [read]).cache.streak;
      if read.offset != LastHitEnd(w, events) then after == 0
      else after > 0 && (before < 0xFFFF_FFFF ==> after == before + 1) && after >= before
  {
    assert (events + [read])[..|events|] == events;
    LastHitKept(w, events);
  }

  /** Sequential mode, in terms of the run: on exactly when each of the last two reads
      started where the last hit before it ended, whatever refills, invalidations and
      changes came in between and since. */
  lemma {:induction false} SequentialIff(w: World, events: seq<Event>, first: Event, between: seq<Event>, second: Event,
                                         since: seq<Event>)
    requires InRange(events) && NoReads(between) && NoReads(since)
    requires first.TryAt? && first.offset + first.len < U64_MODULUS
    requires second.TryAt? && second.offset + second.len < U64_MODULUS
    ensures InRange(events + [first]) && InRange(events + [first] + between)
    ensures InRange(events + [first] + between + [second] + since)
    ensures Through(w, events + [first] + between + [second] + since).cache.Sequential()
            <==> first.offset == LastHitEnd(w, events)
                 && second.offset == LastHitEnd(w, events + [first] + between)
  {
    hide Through, LastHitEnd, InRange;
    ReadCounts(w, events, first);
    QuietKeeps(w, events + [first], between);
    ReadCounts(w, events + [first] + between, second);
    QuietKeeps(w, events + [first] + between + [second], since);
  }

  /** A run with a single read from a buffer without a streak is not sequential yet. */
  lemma {:induction false} NotYet(w: World, before: seq<Event>, read: Event, since: seq<Event>)
    requires w.cache.streak == 0 && NoReads(before) && NoReads(since)
    requires read.TryAt? && read.offset + read.len < U64_MODULUS
    ensures InRange(before + [read] + since) && !Through(w, before + [read] + since).cache.Sequential()
  {
    hide LastHitEnd;
    assert [] + before == before;
    QuietKeeps(w, [], before);
    ReadCounts(w, before, read);
    QuietKeeps(w, before + [read], since);
  }

  /** A read within the buffered range gets exactly the bytes at its place in it; any
      other gets nothing. */
  lemma {:induction false} HitForm(c: Cache, before: seq<byte>, wanted: seq<byte>, behind: seq<byte>, o: u64, len: nat)
    requires o + len < U64_MODULUS
    ensures c.data == before + wanted + behind && o == c.offset + |before| && len == |wanted| ==>
              c.Read(o, len).1 == Some(wanted)
    ensures o < c.offset || o + len > c.offset + |c.data| ==> c.Read(o, len).1 == None
  {
    if c.data == before + wanted + behind {
      assert c.data[|before|..|before| + |wanted|] == wanted;
    }
  }
}
