/** The write coalescer: contiguous writes are gathered up to a size limit and
    handed out as one flush. Proved: flushing loses nothing and reorders nothing
    that a reader of the file could tell, and no other way of gathering the same
    writes needs fewer flushes. */
module WriteCoalescing {
  import opened Wire
  import opened Options

  datatype FlushData = FlushData(offset: u64, data: seq<byte>)

  function End(w: FlushData): nat {
    w.offset + |w.data|
  }

  /** May w join what is gathered? */
  predicate Joins(gathered: FlushData, w: FlushData, max: nat) {
    w.offset == End(gathered) && |gathered.data| + |w.data| <= max
  }

  function Join(gathered: FlushData, w: FlushData): FlushData {
    FlushData(gathered.offset, gathered.data + w.data)
  }

  class WriteBuf {
    var data: seq<byte>
    var bufOffset: u64
    const maxSize: nat
    var dirty: bool

    ghost predicate Valid()
      reads this
    {
      && (!dirty ==> data == [] && bufOffset == 0)
      && bufOffset + |data| < U64_MODULUS
    }

    /** The gathered but unflushed write, if any. */
    ghost function Pending(): Option<FlushData>
      reads this
    {
      if dirty then Some(FlushData(bufOffset, data)) else None
    }

    constructor (limit: nat)
      ensures Valid() && Pending() == None && maxSize == limit
    {
      data, bufOffset, dirty := [], 0, false;
      maxSize := limit;
    }

    /** The caller keeps offset plus length within 64 bits. */
    method Write(offset: u64, d: seq<byte>) returns (flush: Option<FlushData>)
      requires Valid() && offset + |d| < U64_MODULUS
      modifies this
      ensures Valid()
      ensures var (out, next) := Step(old(Pending()), FlushData(offset, d), maxSize);
        flush == out && Pending() == Some(next)
    {
      flush := None;
      if dirty {
        var bufEnd := bufOffset + |data|;
        if offset != bufEnd || |data| + |d| > maxSize {
          var f := TakeFlush();
          flush := Some(f);
        }
      }
      if !dirty {
        bufOffset := offset;
        assert data + d == d;
      }
      data := data + d;
      dirty := true;
    }

    method Flush() returns (flush: Option<FlushData>)
      requires Valid()
      modifies this
      ensures Valid() && flush == old(Pending()) && Pending() == None
    {
      if dirty {
        var f := TakeFlush();
        flush := Some(f);
      } else {
        flush := None;
      }
    }

    method TakeFlush() returns (f: FlushData)
      requires Valid() && dirty
      modifies this
      ensures Valid() && Some(f) == old(Pending()) && Pending() == None
    {
      f := FlushData(bufOffset, data);
      data, bufOffset, dirty := [], 0, false;
    }
  }

  /** One write: what is flushed and what is gathered afterwards. */
  function Step(pending: Option<FlushData>, w: FlushData, max: nat): (Option<FlushData>, FlushData) {
    match pending
    case None => (None, w)
    case Some(g) => if Joins(g, w, max) then (None, Join(g, w)) else (Some(g), w)
  }

  // --------------------------------------------------------- the file's view

  /** A write into a file that reads as zero wherever nothing was written. */
  function Apply(file: seq<byte>, w: FlushData): seq<byte> {
    if w.data == [] then file
    else
      var padded := if |file| < w.offset then file + Zeros(w.offset - |file|) else file;
      padded[..w.offset] + w.data + (if End(w) <= |padded| then padded[End(w)..] else [])
  }

  function ApplyAll(file: seq<byte>, ws: seq<FlushData>): seq<byte>
    decreases |ws|
  {
    if ws == [] then file else ApplyAll(Apply(file, ws[0]), ws[1..])
  }

  /** Writing two adjoining pieces is writing them as one. */
  lemma {:induction false} ApplyJoin(file: seq<byte>, g: FlushData, w: FlushData)
    requires w.offset == End(g)
    ensures Apply(Apply(file, g), w) == Apply(file, Join(g, w))
  {
    if w.data == [] {
      assert g.data + w.data == g.data;
    } else if g.data == [] {
      assert g.data + w.data == w.data;
    } else {
      var one, two := Apply(file, Join(g, w)), Apply(Apply(file, g), w);
      assert |one| == |two|;
      forall i | 0 <= i < |one| ensures one[i] == two[i] {
      }
    }
  }

  datatype Op = Put(w: FlushData) | FlushNow

  function Drained(pending: Option<FlushData>): seq<FlushData> {
    match pending case None => [] case Some(g) => [g]
  }

  /** Everything the buffer hands out over a run of calls, in order, ending with
      what is still pending. */
  function Outputs(pending: Option<FlushData>, ops: seq<Op>, max: nat): seq<FlushData>
    decreases |ops|
  {
    if ops == [] then Drained(pending)
    else
      match ops[0]
      case FlushNow => Drained(pending) + Outputs(None, ops[1..], max)
      case Put(w) =>
        var (out, next) := Step(pending, w, max);
        Drained(out) + Outputs(Some(next), ops[1..], max)
  }

  /** A buffer put through a run of calls and flushed at the end. */
  method WriteEach(ops: seq<Op>, max: nat) returns (outs: seq<FlushData>)
    requires forall i | 0 <= i < |ops| && ops[i].Put? :: End(ops[i].w) < U64_MODULUS
    ensures outs == Outputs(None, ops, max)
  {
    hide Outputs, Step, Drained;
    var buf := new WriteBuf(max);
    outs := [];
    assert ops[0..] == ops && [] + Outputs(None, ops, max) == Outputs(None, ops, max);
    for i := 0 to |ops|
      invariant fresh(buf) && buf.Valid() && buf.maxSize == max
      invariant Outputs(None, ops, max) == outs + Outputs(buf.Pending(), ops[i..], max)
    {
      OutputsStep(buf.Pending(), ops, i, max);
      ghost var pending, before := buf.Pending(), outs;
      match ops[i] {
        case FlushNow =>
          var flush := buf.Flush();
          AppendFlush(before, flush, Outputs(buf.Pending(), ops[i + 1..], max));
          outs := outs + Drained(flush);
        case Put(w) =>
          var flush := buf.Write(w.offset, w.data);
          AppendFlush(before, flush, Outputs(buf.Pending(), ops[i + 1..], max));
          outs := outs + Drained(flush);
      }
    }
    OutputsEnd(buf.Pending(), ops, max);
    var last := buf.Flush();
    outs := outs + Drained(last);
  }

  lemma {:induction false} AppendFlush(outs: seq<FlushData>, flush: Option<FlushData>, later: seq<FlushData>)
    ensures outs + (Drained(flush) + later) == outs + Drained(flush) + later
  {
  }

  lemma {:induction false} OutputsEnd(pending: Option<FlushData>, ops: seq<Op>, max: nat)
    ensures Outputs(pending, ops[|ops|..], max) == Drained(pending)
  {
  }

  lemma {:induction false} OutputsStep(pending: Option<FlushData>, ops: seq<Op>, i: nat, max: nat)
    requires i < |ops|
    ensures Outputs(pending, ops[i..], max) ==
            match ops[i]
            case FlushNow => Drained(pending) + Outputs(None, ops[i + 1..], max)
            case Put(w) =>
              var (out, next) := Step(pending, w, max);
              Drained(out) + Outputs(Some(next), ops[i + 1..], max)
  {
    hide Step, Drained;
    assert ops[i..][1..] == ops[i + 1..];
  }

  function Direct(file: seq<byte>, ops: seq<Op>): seq<byte>
    decreases |ops|
  {
    if ops == [] then file
    else Direct(if ops[0].Put? then Apply(file, ops[0].w) else file, ops[1..])
  }

  /** For any run of writes and flushes, overlapping, sparse or empty: applying
      what the buffer hands out gives the file that writing directly gives. */
  lemma {:induction false} BufferedEqualsDirect(file: seq<byte>, pending: Option<FlushData>, ops: seq<Op>, max: nat)
    ensures ApplyAll(file, Outputs(pending, ops, max)) == Direct(ApplyAll(file, Drained(pending)), ops)
    decreases |ops|
  {
    if ops != [] {
      match ops[0] {
        case FlushNow =>
          var later := Outputs(None, ops[1..], max);
          ApplyAfter(file, pending, later);
          BufferedEqualsDirect(ApplyAll(file, Drained(pending)), None, ops[1..], max);
        case Put(w) =>
          var (out, next) := Step(pending, w, max);
          ApplyAfter(file, out, Outputs(Some(next), ops[1..], max));
          BufferedEqualsDirect(ApplyAll(file, Drained(out)), Some(next), ops[1..], max);
          if pending.Some? && out.None? {
            ApplyJoin(file, pending.value, w);
          }
      }
    }
  }

  lemma {:induction false} ApplyAfter(file: seq<byte>, first: Option<FlushData>, later: seq<FlushData>)
    ensures ApplyAll(file, Drained(first) + later) == ApplyAll(ApplyAll(file, Drained(first)), later)
  {
    if first.Some? {
      assert ([first.value] + later)[1..] == later;
    } else {
      assert [] + later == later;
    }
  }

  // -------------------------------------------------------------- optimality

  function Puts(ws: seq<FlushData>): seq<Op> {
    seq(|ws|, i requires 0 <= i < |ws| => Put(ws[i]))
  }

  function Merge(g: seq<FlushData>): FlushData
    requires g != []
  {
    if |g| == 1 then g[0] else Join(Merge(g[..|g| - 1]), g[|g| - 1])
  }

  function Total(g: seq<FlushData>): nat {
    if g == [] then 0 else Total(g[..|g| - 1]) + |g[|g| - 1].data|
  }

  /** A flush may carry a single write of any size, or adjoining writes within
      the limit. */
  predicate ValidGroup(g: seq<FlushData>, max: nat) {
    && g != []
    && (forall i | 0 < i < |g| :: g[i].offset == End(g[i - 1]))
    && (|g| == 1 || Total(g) <= max)
  }

  function Flatten(groups: seq<seq<FlushData>>): seq<FlushData> {
    if groups == [] then [] else groups[0] + Flatten(groups[1..])
  }

  /** An order-preserving way of gathering the writes ws. */
  predicate Grouping(groups: seq<seq<FlushData>>, ws: seq<FlushData>, max: nat) {
    Flatten(groups) == ws && forall i | 0 <= i < |groups| :: ValidGroup(groups[i], max)
  }

  /** How many writes the buffer gathers, having gathered the first n. */
  function Reach(ws: seq<FlushData>, n: nat, max: nat): (m: nat)
    requires 0 < n <= |ws|
    ensures n <= m <= |ws|
    decreases |ws| - n
  {
    if n < |ws| && Joins(Merge(ws[..n]), ws[n], max) then Reach(ws, n + 1, max) else n
  }

  function Greedy(ws: seq<FlushData>, max: nat): seq<seq<FlushData>>
    decreases |ws|
  {
    if ws == [] then []
    else
      var m := Reach(ws, 1, max);
      [ws[..m]] + Greedy(ws[m..], max)
  }

  function MergeEach(groups: seq<seq<FlushData>>): seq<FlushData>
    requires forall i | 0 <= i < |groups| :: groups[i] != []
  {
    seq(|groups|, i requires 0 <= i < |groups| => Merge(groups[i]))
  }

  lemma {:induction false} MergeShape(g: seq<FlushData>)
    requires g != [] && forall i | 0 < i < |g| :: g[i].offset == End(g[i - 1])
    ensures End(Merge(g)) == End(g[|g| - 1]) && |Merge(g).data| == Total(g)
  {
    if |g| > 1 {
      MergeShape(g[..|g| - 1]);
    } else {
      assert g[..0] == [];
    }
  }

  lemma {:induction false} TotalPrefix(g: seq<FlushData>, n: nat)
    requires n <= |g|
    ensures Total(g[..n]) <= Total(g)
  {
    if n < |g| {
      TotalPrefix(g[..|g| - 1], n);
      assert g[..|g| - 1][..n] == g[..n];
    } else {
      assert g[..n] == g;
    }
  }

  /** What the buffer gathers from a valid group is a valid group. */
  lemma {:induction false} ReachValid(ws: seq<FlushData>, n: nat, max: nat)
    requires 0 < n <= |ws| && ValidGroup(ws[..n], max)
    ensures ValidGroup(ws[..Reach(ws, n, max)], max)
    decreases |ws| - n
  {
    if n < |ws| && Joins(Merge(ws[..n]), ws[n], max) {
      MergeShape(ws[..n]);
      assert ws[..n + 1][..n] == ws[..n];
      ReachValid(ws, n + 1, max);
    }
  }

  /** Inside a valid group the buffer goes on gathering. */
  lemma {:induction false} GathersInside(ws: seq<FlushData>, n: nat, k: nat, max: nat)
    requires 0 < n < k <= |ws| && ValidGroup(ws[..k], max)
    ensures Joins(Merge(ws[..n]), ws[n], max)
  {
    hide Merge, Total;
    var g := ws[..k];
    assert g[..n] == ws[..n] && g[..n + 1] == ws[..n + 1] && ws[..n + 1][..n] == ws[..n];
    assert g[n] == ws[n] && g[n - 1] == ws[n - 1];
    MergeShape(ws[..n]);
    TotalPrefix(g, n + 1);
    TotalStep(ws, n);
  }

  lemma {:induction false} TotalStep(ws: seq<FlushData>, n: nat)
    requires n < |ws|
    ensures Total(ws[..n + 1]) == Total(ws[..n]) + |ws[n].data|
  {
    assert ws[..n + 1][..n] == ws[..n];
  }

  /** No valid group at the front of ws reaches further than the buffer does. */
  lemma {:induction false} ReachLongest(ws: seq<FlushData>, n: nat, k: nat, max: nat)
    requires 0 < n <= k <= |ws| && ValidGroup(ws[..k], max)
    ensures k <= Reach(ws, n, max)
    decreases k - n
  {
    hide Merge, Joins, ValidGroup;
    if n < k {
      GathersInside(ws, n, k, max);
      ReachLongest(ws, n + 1, k, max);
    }
  }

  lemma {:induction false} PutsStep(ws: seq<FlushData>, n: nat)
    requires n <= |ws|
    ensures Puts(ws[n..]) == if n == |ws| then [] else [Put(ws[n])] + Puts(ws[n + 1..])
  {
  }

  lemma {:induction false} MergeStep(ws: seq<FlushData>, n: nat)
    requires 0 < n < |ws|
    ensures Merge(ws[..n + 1]) == Join(Merge(ws[..n]), ws[n])
  {
    assert ws[..n + 1][..n] == ws[..n];
  }

  /** The buffer's outputs are the greedy groups, merged. */
  lemma {:induction false} OutputsFollowReach(ws: seq<FlushData>, n: nat, max: nat)
    requires 0 < n <= |ws|
    ensures var m := Reach(ws, n, max);
      Outputs(Some(Merge(ws[..n])), Puts(ws[n..]), max) == [Merge(ws[..m])] + Outputs(None, Puts(ws[m..]), max)
    decreases |ws| - n
  {
    hide Merge, Joins, Join;
    PutsStep(ws, n);
    if n < |ws| {
      if Joins(Merge(ws[..n]), ws[n], max) {
        MergeStep(ws, n);
        OutputsFollowReach(ws, n + 1, max);
      }
    }
  }

  lemma {:induction false} GreedyIsGrouping(ws: seq<FlushData>, max: nat)
    ensures Grouping(Greedy(ws, max), ws, max)
    decreases |ws|
  {
    if ws != [] {
      var m := Reach(ws, 1, max);
      hide Reach, ValidGroup, Grouping;
      SingleGroup(ws, max);
      ReachValid(ws, 1, max);
      GreedyIsGrouping(ws[m..], max);
      GroupingPrepend(ws[..m], Greedy(ws[m..], max), ws[m..], max);
      assert ws[..m] + ws[m..] == ws;
    }
  }

  lemma {:induction false} SingleGroup(ws: seq<FlushData>, max: nat)
    requires ws != []
    ensures ValidGroup(ws[..1], max)
  {
  }

  lemma {:induction false} GroupingPrepend(g: seq<FlushData>, groups: seq<seq<FlushData>>, ws: seq<FlushData>, max: nat)
    requires ValidGroup(g, max) && Grouping(groups, ws, max)
    ensures Grouping([g] + groups, g + ws, max)
  {
    assert ([g] + groups)[1..] == groups;
  }

  lemma {:induction false} OutputsAreGreedy(ws: seq<FlushData>, max: nat)
    ensures Grouping(Greedy(ws, max), ws, max)
    ensures Outputs(None, Puts(ws), max) == MergeEach(Greedy(ws, max))
    decreases |ws|
  {
    GreedyIsGrouping(ws, max);
    if ws != [] {
      var m := Reach(ws, 1, max);
      OutputsAreGreedy(ws[m..], max);
      OutputsFollowReach(ws, 1, max);
      FirstPut(ws, max);
      hide Merge, Puts, Reach, ValidGroup, Grouping, Outputs;
      var later := Greedy(ws[m..], max);
      assert MergeEach([ws[..m]] + later) == [Merge(ws[..m])] + MergeEach(later);
    }
  }

  lemma {:induction false} FirstPut(ws: seq<FlushData>, max: nat)
    requires ws != []
    ensures Outputs(None, Puts(ws), max) == Outputs(Some(Merge(ws[..1])), Puts(ws[1..]), max)
  {
    PutsStep(ws, 0);
    assert ws[0..] == ws && ws[..1] == [ws[0]];
    var ops := Puts(ws);
    assert ops[1..] == Puts(ws[1..]);
    assert [] + Outputs(Some(ws[0]), ops[1..], max) == Outputs(Some(ws[0]), ops[1..], max);
  }

  /** A grouping with its first n writes taken away. */
  function Without(groups: seq<seq<FlushData>>, n: nat): seq<seq<FlushData>>
    decreases |groups|
  {
    if n == 0 || groups == [] then groups
    else if n >= |groups[0]| then Without(groups[1..], n - |groups[0]|)
    else [groups[0][n..]] + groups[1..]
  }

  lemma {:induction false} TotalSuffix(g: seq<FlushData>, n: nat)
    requires n <= |g|
    ensures Total(g[n..]) <= Total(g)
  {
    if n < |g| {
      TotalSuffix(g[..|g| - 1], n);
      assert g[n..][..|g| - n - 1] == g[..|g| - 1][n..];
    }
  }

  lemma {:induction false} WithoutIsGrouping(groups: seq<seq<FlushData>>, ws: seq<FlushData>, n: nat, max: nat)
    requires Grouping(groups, ws, max) && n <= |ws|
    ensures Grouping(Without(groups, n), ws[n..], max)
    ensures |Without(groups, n)| <= |groups|
    ensures groups != [] && n >= |groups[0]| ==> |Without(groups, n)| < |groups|
    decreases |groups|
  {
    if n > 0 && groups != [] {
      var g, others := groups[0], Flatten(groups[1..]);
      assert ws == g + others;
      if n >= |g| {
        assert ws[n..] == others[n - |g|..];
        WithoutIsGrouping(groups[1..], others, n - |g|, max);
      } else {
        TotalSuffix(g, n);
        assert ws[n..] == g[n..] + others;
        assert Without(groups, n)[1..] == groups[1..];
      }
    }
  }

  /** Coalescing is optimal: whatever grouping of the same writes one takes, the
      buffer hands out no more flushes than it has groups. */
  lemma {:induction false} FewestFlushes(ws: seq<FlushData>, groups: seq<seq<FlushData>>, max: nat)
    requires Grouping(groups, ws, max)
    ensures |Outputs(None, Puts(ws), max)| <= |groups|
  {
    OutputsAreGreedy(ws, max);
    GreedyIsLeast(ws, groups, max);
  }

  lemma {:induction false} GreedyIsLeast(ws: seq<FlushData>, groups: seq<seq<FlushData>>, max: nat)
    requires Grouping(groups, ws, max)
    ensures |Greedy(ws, max)| <= |groups|
    decreases |ws|
  {
    if ws != [] {
      var m, g := Reach(ws, 1, max), groups[0];
      assert ws[..|g|] == g;
      ReachLongest(ws, 1, |g|, max);
      WithoutIsGrouping(groups, ws, m, max);
      GreedyIsLeast(ws[m..], Without(groups, m), max);
    }
  }
}
