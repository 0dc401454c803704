/** The client's slot table (section 2.10.6.1 of RFC 8881): which slots are in use
    and the sequence id each one carries next. `Slots` is the table as a value,
    `SlotTable` the source's object behind the mutex. */
module SessionSlots {
  import opened Wire
  import opened Options

  datatype Grant = Grant(slot: nat, sequence: u32, highest: u32)

  datatype Slots = Slots(sequence: seq<u32>, inUse: seq<bool>) {
    predicate Valid() { |sequence| == |inUse| <= U32_MODULUS }

    /** The lowest free slot, or the table's size. */
    function FirstFree(from: nat): (i: nat)
      requires from <= |inUse|
      ensures from <= i <= |inUse|
      ensures forall k | from <= k < i :: inUse[k]
      ensures i < |inUse| ==> !inUse[i]
      decreases |inUse| - from
    {
      if from == |inUse| || !inUse[from] then from else FirstFree(from + 1)
    }

    function Alloc(): (r: (Slots, Option<Grant>))
      requires Valid()
      ensures r.0.Valid() && (r.1.Some? ==> r.1.value.slot < |inUse| <= U32_MODULUS)
    {
      var i := FirstFree(0);
      if i == |inUse| then (this, None)
      else (this.(inUse := inUse[i := true]), Some(Grant(i, sequence[i], Highest(|inUse|))))
    }

    /** The sequence id moves on whatever became of the request; it wraps. */
    function Release(slot: nat): (t: Slots)
      requires Valid()
      ensures t.Valid() && |t.inUse| == |inUse|
    {
      if slot >= |inUse| then this
      else Slots(sequence[slot := (sequence[slot] + 1) % U32_MODULUS], inUse[slot := false])
    }
  }

  /** Allocation on any table: first fit, the slot's own sequence id, and as highest id
      that of the last slot. */
  lemma {:induction false} AllocFirstFit(s: Slots)
    requires s.Valid()
    ensures var (t, g) := s.Alloc();
      && (g == None <==> forall k | 0 <= k < |s.inUse| :: s.inUse[k]) && (g == None ==> t == s)
      && (g.Some? ==>
            var k := g.value.slot;
            && k < |s.inUse| && !s.inUse[k] && (forall lower | 0 <= lower < k :: s.inUse[lower])
            && g.value.sequence == s.sequence[k] && g.value.highest == |s.inUse| - 1
            && t == Slots(s.sequence, s.inUse[k := true]))
  {
    var i := s.FirstFree(0);
    assert i < |s.inUse| ==> !s.inUse[i];
  }

  /** Release on any table: the slot is free and its sequence id one further, 2^32 - 1
      becoming 0; the other slots, and the whole table for an unknown slot, stay. */
  lemma {:induction false} ReleaseForm(s: Slots, slot: nat)
    requires s.Valid()
    ensures var t := s.Release(slot);
      && |t.inUse| == |t.sequence| == |s.inUse| && (slot >= |s.inUse| ==> t == s)
      && (slot < |s.inUse| ==>
            && !t.inUse[slot]
            && t.sequence[slot] == if s.sequence[slot] == 0xFFFF_FFFF then 0 else s.sequence[slot] + 1)
      && forall k | 0 <= k < |s.inUse| && k != slot :: t.inUse[k] == s.inUse[k] && t.sequence[k] == s.sequence[k]
  {
  }

  /** A new table: every slot free, every sequence id 1. */
  lemma {:induction false} FreshForm(n: u32)
    ensures |Fresh(n).inUse| == |Fresh(n).sequence| == n
    ensures forall k | 0 <= k < n :: !Fresh(n).inUse[k] && Fresh(n).sequence[k] == 1
  {
  }

  /** The highest slot id of a table of n slots, as the source's cast computes it
      (an empty table wraps around; nothing is granted from it). */
  function Highest(n: nat): u32 {
    (n - 1) % U32_MODULUS
  }

  function Fresh(maxSlots: nat): (s: Slots)
    ensures maxSlots <= U32_MODULUS ==> s.Valid()
  {
    Slots(seq(maxSlots, _ => 1), seq(maxSlots, _ => false))
  }

  class SlotTable {
    const sequenceIds: array<u32>
    const inUse: array<bool>

    ghost predicate Valid()
      reads this, sequenceIds, inUse
    {
      sequenceIds.Length == inUse.Length <= U32_MODULUS
    }

    ghost function State(): Slots
      reads this, sequenceIds, inUse
    {
      Slots(sequenceIds[..], inUse[..])
    }

    constructor (maxSlots: u32)
      ensures Valid() && fresh(sequenceIds) && fresh(inUse) && State() == Fresh(maxSlots)
    {
      sequenceIds := new u32[maxSlots](_ => 1);
      inUse := new bool[maxSlots](_ => false);
    }

    /** First fit over the in-use flags. */
    method TryAllocSlot() returns (r: Option<Grant>)
      requires Valid()
      modifies inUse
      ensures Valid() && (State(), r) == old(State()).Alloc()
      ensures r.Some? ==> r.value.highest == inUse.Length - 1
    {
      var highest := Highest(inUse.Length);
      for i := 0 to inUse.Length
        invariant inUse[..] == old(inUse[..])
        invariant State().FirstFree(0) == State().FirstFree(i)
      {
        if !inUse[i] {
          inUse[i] := true;
          return Some(Grant(i, sequenceIds[i], highest));
        }
      }
      return None;
    }

    method ReleaseSlot(slot: u32)
      requires Valid()
      modifies inUse, sequenceIds
      ensures Valid() && State() == old(State()).Release(slot)
    {
      if slot < inUse.Length {
        inUse[slot] := false;
        sequenceIds[slot] := (sequenceIds[slot] + 1) % U32_MODULUS;
      }
    }
  }
}

/** The slot table against a server, over all interleavings of any number of
    tasks. A run is a log of every request ever granted a slot; tasks take it
    further by the steps grant, arrival at the server, and release. A request may
    arrive once, at any time, or never. */
module SlotProtocol {
  import opened Wire
  import opened Options
  import opened SessionSlots

  /** What the server's SEQUENCE said (section 18.46 of RFC 8881). */
  datatype Verdict = New | Replay | Misordered

  datatype Request = Request(slot: nat, sequence: u32, held: bool, verdict: Option<Verdict>)

  /** The client's table, the server's last accepted id per slot, the log. */
  datatype State = State(client: Slots, server: seq<u32>, log: seq<Request>)

  function Judge(last: u32, sequence: u32): Verdict {
    if sequence == (last + 1) % U32_MODULUS then New
    else if sequence == last then Replay
    else Misordered
  }

  ghost predicate Init(s: State) {
    exists n: nat :: n <= U32_MODULUS && s == State(Fresh(n), seq(n, _ => 0), [])
  }

  predicate Grants(s: State, t: State) {
    && s.client.Valid()
    && var (client', grant) := s.client.Alloc();
    && grant.Some?
    && t == State(client', s.server, s.log + [Request(grant.value.slot, grant.value.sequence, true, None)])
  }

  predicate Arrives(s: State, t: State, i: nat) {
    && i < |s.log| && s.log[i].verdict == None && s.log[i].slot < |s.server|
    && var r := s.log[i];
    && var verdict := Judge(s.server[r.slot], r.sequence);
    && t == State(s.client,
                  if verdict == New then s.server[r.slot := r.sequence] else s.server,
                  s.log[i := r.(verdict := Some(verdict))])
  }

  /** Callers release only what they hold. */
  predicate Releases(s: State, t: State, i: nat) {
    && s.client.Valid()
    && i < |s.log| && s.log[i].held
    && t == State(s.client.Release(s.log[i].slot), s.server, s.log[i := s.log[i].(held := false)])
  }

  ghost predicate Step(s: State, t: State) {
    Grants(s, t) || exists i: nat :: Arrives(s, t, i) || Releases(s, t, i)
  }

  /** A finite run from an initial state. */
  ghost predicate IsRun(run: seq<State>) {
    run != [] && Init(run[0]) && forall k | 0 < k < |run| :: Step(run[k - 1], run[k])
  }

  // --------------------------------------------------------------- counting

  /** How many requests of the log, on one slot, are of a kind. */
  function Count(log: seq<Request>, slot: nat, kind: Kind): nat {
    if log == [] then 0
    else Count(log[..|log| - 1], slot, kind) + (if Matches(log[|log| - 1], slot, kind) then 1 else 0)
  }

  datatype Kind = Granted | Held | Waiting | Accepted | Lost

  /** Waiting: held, and not accepted by the server as new (so far).
      Lost: released, and not accepted by the server as new (so far). */
  predicate Matches(r: Request, slot: nat, kind: Kind) {
    r.slot == slot &&
    match kind
    case Granted => true
    case Held => r.held
    case Waiting => r.held && r.verdict != Some(New)
    case Accepted => r.verdict == Some(New)
    case Lost => !r.held && r.verdict != Some(New)
  }

  lemma {:induction false} CountUpdate(log: seq<Request>, i: nat, r: Request, slot: nat, kind: Kind)
    requires i < |log|
    ensures Count(log[i := r], slot, kind)
            == Count(log, slot, kind) - (if Matches(log[i], slot, kind) then 1 else 0)
               + (if Matches(r, slot, kind) then 1 else 0)
  {
    var n := |log| - 1;
    if i < n {
      CountUpdate(log[..n], i, r, slot, kind);
      assert log[i := r][..n] == log[..n][i := r];
    } else {
      assert log[i := r][..n] == log[..n];
    }
  }

  lemma {:induction false} CountAppend(log: seq<Request>, r: Request, slot: nat, kind: Kind)
    ensures Count(log + [r], slot, kind) == Count(log, slot, kind) + (if Matches(r, slot, kind) then 1 else 0)
  {
    assert (log + [r])[..|log|] == log;
  }

  /** A request that is held counts. */
  lemma {:induction false} CountOne(log: seq<Request>, i: nat, slot: nat, kind: Kind)
    requires i < |log| && Matches(log[i], slot, kind)
    ensures Count(log, slot, kind) >= 1
  {
    if i < |log| - 1 {
      CountOne(log[..|log| - 1], i, slot, kind);
    }
  }

  /** Of two requests of a kind on one slot, both count. */
  lemma {:induction false} CountTwo(log: seq<Request>, i: nat, j: nat, slot: nat, kind: Kind)
    requires i < j < |log| && Matches(log[i], slot, kind) && Matches(log[j], slot, kind)
    ensures Count(log, slot, kind) >= 2
  {
    if j < |log| - 1 {
      CountTwo(log[..|log| - 1], i, j, slot, kind);
    } else {
      CountOne(log[..|log| - 1], i, slot, kind);
    }
  }

  /** Every request of a slot is accepted, lost or waiting. */
  lemma {:induction false} GrantedSplits(log: seq<Request>, slot: nat)
    ensures Count(log, slot, Granted)
            == Count(log, slot, Accepted) + Count(log, slot, Lost) + Count(log, slot, Waiting)
    ensures Count(log, slot, Waiting) <= Count(log, slot, Held)
  {
    if log != [] {
      GrantedSplits(log[..|log| - 1], slot);
    }
  }

  // -------------------------------------------------------------- invariant

  /** The books of one slot. */
  ghost predicate Books(s: State, slot: nat)
    requires slot < |s.client.inUse| == |s.client.sequence| == |s.server|
  {
    var uses, held := Count(s.log, slot, Granted), Count(s.log, slot, Held);
    && held == (if s.client.inUse[slot] then 1 else 0)
    && held <= uses
    && s.client.sequence[slot] == (1 + uses - held) % U32_MODULUS
    && s.server[slot] == Count(s.log, slot, Accepted) % U32_MODULUS
  }

  /** The k-th use of a slot carries sequence id k. */
  ghost predicate Numbered(log: seq<Request>) {
    forall i | 0 <= i < |log| ::
      log[i].sequence == (1 + Count(log[..i], log[i].slot, Granted)) % U32_MODULUS
  }

  ghost predicate Inv(s: State) {
    && s.client.Valid() && |s.server| == |s.client.inUse|
    && (forall i | 0 <= i < |s.log| :: s.log[i].slot < |s.server|)
    && (forall slot | 0 <= slot < |s.server| :: Books(s, slot))
    && (forall i | 0 <= i < |s.log| && s.log[i].held :: s.log[i].sequence == s.client.sequence[s.log[i].slot])
    && Numbered(s.log)
  }

  lemma {:induction false} InvInit(s: State)
    requires Init(s)
    ensures Inv(s)
  {
  }

  /** Counting on modulo 2^32. */
  lemma {:induction false} NextModulo(x: int)
    ensures (x % U32_MODULUS + 1) % U32_MODULUS == (x + 1) % U32_MODULUS
  {
  }

  lemma {:induction false} BooksGrants(s: State, t: State, slot: nat)
    requires Inv(s) && Grants(s, t) && slot < |t.server|
    ensures Books(t, slot)
  {
    hide Count, Numbered;
    var r := t.log[|s.log|];
    assert Books(s, slot);
    CountAppend(s.log, r, slot, Granted);
    CountAppend(s.log, r, slot, Held);
    CountAppend(s.log, r, slot, Accepted);
  }

  lemma {:induction false} NumberedAppend(log: seq<Request>, r: Request)
    requires Numbered(log) && r.sequence == (1 + Count(log, r.slot, Granted)) % U32_MODULUS
    ensures Numbered(log + [r])
  {
    hide Count;
    var log' := log + [r];
    forall i | 0 <= i < |log'|
      ensures log'[i].sequence == (1 + Count(log'[..i], log'[i].slot, Granted)) % U32_MODULUS
    {
      assert log'[..i] == log[..i];
      assert log[..|log|] == log;
    }
  }

  lemma {:induction false} InvGrants(s: State, t: State)
    requires Inv(s) && Grants(s, t)
    ensures Inv(t)
  {
    hide Count, Books, Numbered;
    var r := t.log[|s.log|];
    GrantNumber(s, r.slot);
    NumberedAppend(s.log, r);
    forall slot | 0 <= slot < |t.server|
      ensures Books(t, slot)
    {
      BooksGrants(s, t, slot);
    }
  }

  lemma {:induction false} GrantNumber(s: State, slot: nat)
    requires Inv(s) && slot < |s.server| && !s.client.inUse[slot]
    ensures s.client.sequence[slot] == (1 + Count(s.log, slot, Granted)) % U32_MODULUS
  {
    assert Books(s, slot);
  }

  lemma {:induction false} NumberedBelow(log: seq<Request>, i: nat, r: Request, k: nat)
    requires Numbered(log) && i < |log| && r.slot == log[i].slot && r.sequence == log[i].sequence && k <= i
    ensures log[i := r][k].sequence == (1 + Count(log[i := r][..k], log[i := r][k].slot, Granted)) % U32_MODULUS
  {
    hide Count;
    assert log[i := r][..k] == log[..k];
  }

  lemma {:induction false} NumberedAbove(log: seq<Request>, i: nat, r: Request, k: nat)
    requires Numbered(log) && i < k < |log| && r.slot == log[i].slot && r.sequence == log[i].sequence
    ensures log[i := r][k].sequence == (1 + Count(log[i := r][..k], log[i := r][k].slot, Granted)) % U32_MODULUS
  {
    SameUses(log, i, r, k, log[k].slot);
    hide Count;
  }

  /** Changing a request's standing keeps every use count. */
  lemma {:induction false} SameUses(log: seq<Request>, i: nat, r: Request, k: nat, slot: nat)
    requires i < k <= |log| && r.slot == log[i].slot
    ensures Count(log[i := r][..k], slot, Granted) == Count(log[..k], slot, Granted)
  {
    hide Count;
    assert log[i := r][..k] == log[..k][i := r];
    CountUpdate(log[..k], i, r, slot, Granted);
  }

  lemma {:induction false} NumberedUpdate(log: seq<Request>, i: nat, r: Request)
    requires Numbered(log) && i < |log| && r.slot == log[i].slot && r.sequence == log[i].sequence
    ensures Numbered(log[i := r])
  {
    hide Count;
    var log' := log[i := r];
    forall k | 0 <= k < |log'|
      ensures log'[k].sequence == (1 + Count(log'[..k], log'[k].slot, Granted)) % U32_MODULUS
    {
      if i < k {
        NumberedAbove(log, i, r, k);
      } else {
        NumberedBelow(log, i, r, k);
      }
    }
  }

  lemma {:induction false} BooksArrives(s: State, t: State, i: nat, slot: nat)
    requires Inv(s) && Arrives(s, t, i) && slot < |t.server|
    ensures Books(t, slot)
  {
    hide Count, Numbered;
    var r := t.log[i];
    assert Books(s, slot);
    CountUpdate(s.log, i, r, slot, Granted);
    CountUpdate(s.log, i, r, slot, Held);
    CountUpdate(s.log, i, r, slot, Accepted);
    NextModulo(Count(s.log, slot, Accepted));
  }

  lemma {:induction false} InvArrives(s: State, t: State, i: nat)
    requires Inv(s) && Arrives(s, t, i)
    ensures Inv(t)
  {
    hide Books, Numbered, Count;
    NumberedUpdate(s.log, i, t.log[i]);
    forall slot | 0 <= slot < |t.server|
      ensures Books(t, slot)
    {
      BooksArrives(s, t, i, slot);
    }
  }

  lemma {:induction false} HeldDistinct(s: State, i: nat, j: nat)
    requires Inv(s) && i < |s.log| && j < |s.log| && s.log[i].held && s.log[j].held && i != j
    ensures s.log[i].slot != s.log[j].slot
  {
    hide Count, Numbered;
    assert Books(s, s.log[i].slot);
    if s.log[i].slot == s.log[j].slot {
      CountTwo(s.log, if i < j then i else j, if i < j then j else i, s.log[i].slot, Held);
    }
  }

  lemma {:induction false} BooksReleases(s: State, t: State, i: nat, slot: nat)
    requires Inv(s) && Releases(s, t, i) && slot < |t.server|
    ensures Books(t, slot)
  {
    hide Count, Numbered;
    var r := t.log[i];
    CountOne(s.log, i, r.slot, Held);
    assert Books(s, slot);
    CountUpdate(s.log, i, r, slot, Granted);
    CountUpdate(s.log, i, r, slot, Held);
    CountUpdate(s.log, i, r, slot, Accepted);
    NextModulo(1 + Count(s.log, slot, Granted) - Count(s.log, slot, Held));
  }

  lemma {:induction false} InvReleases(s: State, t: State, i: nat)
    requires Inv(s) && Releases(s, t, i)
    ensures Inv(t)
  {
    hide Books, Numbered, Count;
    NumberedUpdate(s.log, i, t.log[i]);
    forall k | 0 <= k < |t.log| && t.log[k].held
      ensures t.log[k].sequence == t.client.sequence[t.log[k].slot]
    {
      if k != i {
        HeldDistinct(s, i, k);
      }
    }
    forall slot | 0 <= slot < |t.server|
      ensures Books(t, slot)
    {
      BooksReleases(s, t, i, slot);
    }
  }

  /** The invariant holds in every state of every run. */
  lemma {:induction false} RunsKeepInv(run: seq<State>, k: nat)
    requires IsRun(run) && k < |run|
    ensures Inv(run[k])
  {
    if k == 0 {
      InvInit(run[0]);
    } else {
      RunsKeepInv(run, k - 1);
      var s, t := run[k - 1], run[k];
      assert Step(s, t);
      if Grants(s, t) {
        InvGrants(s, t);
      } else {
        var i: nat :| Arrives(s, t, i) || Releases(s, t, i);
        if Arrives(s, t, i) { InvArrives(s, t, i); } else { InvReleases(s, t, i); }
      }
    }
  }

  // ------------------------------------------------------------ main results

  /** Safety in every reachable state: the slots held by tasks are pairwise
      distinct, below the granted count and marked in use; an allocation takes the
      lowest free slot, reports the last slot's id as the highest, carries the number
      of this use as sequence id, and fails exactly when every slot is in use. */
  lemma {:induction false} SlotSafety(run: seq<State>, k: nat)
    requires IsRun(run) && k < |run|
    ensures var s := run[k];
      && s.client.Valid()
      && (forall i | 0 <= i < |s.log| && s.log[i].held ::
            s.log[i].slot < |s.client.inUse| && s.client.inUse[s.log[i].slot])
      && (forall i, j | 0 <= i < j < |s.log| && s.log[i].held && s.log[j].held :: s.log[i].slot != s.log[j].slot)
      && (s.client.Alloc().1 == None <==> forall slot | 0 <= slot < |s.client.inUse| :: s.client.inUse[slot])
      && (s.client.Alloc().1.Some? ==>
            var g := s.client.Alloc().1.value;
            && g.slot <= g.highest == |s.client.inUse| - 1
            && !s.client.inUse[g.slot] && (forall lower | 0 <= lower < g.slot :: s.client.inUse[lower])
            && g.sequence == (Count(s.log, g.slot, Granted) + 1) % U32_MODULUS)
  {
    RunsKeepInv(run, k);
    var s := run[k];
    forall i | 0 <= i < |s.log| && s.log[i].held
      ensures s.client.inUse[s.log[i].slot]
    {
      CountOne(s.log, i, s.log[i].slot, Held);
      assert Books(s, s.log[i].slot);
    }
    forall i, j | 0 <= i < j < |s.log| && s.log[i].held && s.log[j].held
      ensures s.log[i].slot != s.log[j].slot
    {
      HeldDistinct(s, i, j);
    }
    var free := s.client.FirstFree(0);
    if free < |s.client.inUse| {
      assert Books(s, free);
    }
  }

  /** Exact accounting: on a free slot the client is ahead of the server by one
      plus the number of requests it released without the server accepting them. */
  lemma {:induction false} FreeSlotAccounting(run: seq<State>, k: nat, slot: nat)
    requires IsRun(run) && k < |run|
    requires slot < |run[k].client.inUse| && !run[k].client.inUse[slot]
    ensures var s := run[k];
      |s.server| == |s.client.sequence| == |s.client.inUse|
      && s.client.sequence[slot] == (s.server[slot] + 1 + Count(s.log, slot, Lost)) % U32_MODULUS
  {
    hide Count;
    RunsKeepInv(run, k);
    assert Books(run[k], slot);
    GrantedSplits(run[k].log, slot);
  }

  /** How far the i-th request runs ahead of the server: the requests of its slot that
      were granted before it, less those of its slot that the server has accepted. */
  function Ahead(log: seq<Request>, i: nat): int
    requires i < |log|
  {
    Count(log[..i], log[i].slot, Granted) - Count(log, log[i].slot, Accepted)
  }

  /** The verdict on any request that reaches the server, in time or long after its slot
      was released: new exactly when it is not ahead, a replay exactly when it is one
      behind, modulo 2^32, and misordered otherwise. */
  lemma {:induction false} ArrivalVerdict(run: seq<State>, k: nat, i: nat)
    requires IsRun(run) && k < |run|
    requires i < |run[k].log| && run[k].log[i].verdict == None
    ensures var s, r := run[k], run[k].log[i];
      && r.slot < |s.server|
      && (Judge(s.server[r.slot], r.sequence) == New <==> Ahead(s.log, i) % U32_MODULUS == 0)
      && (Judge(s.server[r.slot], r.sequence) == Replay <==> (Ahead(s.log, i) + 1) % U32_MODULUS == 0)
  {
    RunsKeepInv(run, k);
    VerdictArithmetic(run[k], i);
  }

  lemma {:induction false} VerdictArithmetic(s: State, i: nat)
    requires Inv(s) && i < |s.log|
    ensures var r := s.log[i];
      && (Judge(s.server[r.slot], r.sequence) == New <==> Ahead(s.log, i) % U32_MODULUS == 0)
      && (Judge(s.server[r.slot], r.sequence) == Replay <==> (Ahead(s.log, i) + 1) % U32_MODULUS == 0)
  {
    hide Count;
    var slot := s.log[i].slot;
    assert Books(s, slot);
    var uses, accepted := Count(s.log[..i], slot, Granted), Count(s.log, slot, Accepted);
    assert s.log[i].sequence == (uses + 1) % U32_MODULUS && s.server[slot] == accepted % U32_MODULUS;
    NextModulo(accepted);
    Congruent(accepted + 1, uses - accepted);
    Congruent(accepted, uses + 1 - accepted);
  }

  /** While a request is held it is ahead by the requests of its slot that were released
      without being accepted. */
  lemma {:induction false} HeldIsAheadByLost(run: seq<State>, k: nat, i: nat)
    requires IsRun(run) && k < |run|
    requires i < |run[k].log| && run[k].log[i].held && run[k].log[i].verdict == None
    ensures (Ahead(run[k].log, i) - Count(run[k].log, run[k].log[i].slot, Lost)) % U32_MODULUS == 0
  {
    RunsKeepInv(run, k);
    var s := run[k];
    var slot := s.log[i].slot;
    CountOne(s.log, i, slot, Waiting);
    GrantedSplits(s.log, slot);
    hide Count;
    assert Books(s, slot);
    var uses, accepted, lost := Count(s.log[..i], slot, Granted), Count(s.log, slot, Accepted), Count(s.log, slot,
        Lost);
    assert (uses + 1) % U32_MODULUS == s.log[i].sequence == (accepted + lost + 1) % U32_MODULUS;
    Congruent(accepted + lost + 1, uses - accepted - lost);
  }

  lemma {:induction false} Congruent(x: int, d: int)
    ensures (x + d) % U32_MODULUS == x % U32_MODULUS <==> d % U32_MODULUS == 0
  {
  }

  /** No arrival of the run was a replay or misordered. */
  predicate NoneRefused(log: seq<Request>) {
    forall i | 0 <= i < |log| :: log[i].verdict == None || log[i].verdict == Some(New)
  }

  /** Every request of the run arrives when as many of its slot have been accepted as
      were granted before it, modulo 2^32. */
  ghost predicate ArrivesInTurn(run: seq<State>) {
    forall k: nat, i: nat | ArrivesAt(run, k, i) :: Ahead(run[k - 1].log, i) % U32_MODULUS == 0
  }

  /** The k-th step of the run is the arrival of the i-th request. */
  predicate ArrivesAt(run: seq<State>, k: nat, i: nat)
    ensures ArrivesAt(run, k, i) ==> 0 < k < |run| && i < |run[k - 1].log|
  {
    0 < k < |run| && Arrives(run[k - 1], run[k], i)
  }

  /** Exactly once, exactly when: the server accepts every request that reaches it as
      new, over a whole run, if and only if every request arrives in its turn. */
  lemma {:induction false} AllAcceptedIff(run: seq<State>)
    requires IsRun(run)
    ensures NoneRefused(run[|run| - 1].log) <==> ArrivesInTurn(run)
  {
    hide Count, Arrives;
    if ArrivesInTurn(run) {
      InTurnAccepted(run, |run| - 1);
    }
    if NoneRefused(run[|run| - 1].log) {
      forall k: nat, i: nat | ArrivesAt(run, k, i)
        ensures Ahead(run[k - 1].log, i) % U32_MODULUS == 0
      {
        ArrivalRecorded(run[k - 1], run[k], i);
        VerdictStays(run, k, |run| - 1, i);
        ArrivalVerdict(run, k - 1, i);
      }
    }
  }

  lemma {:induction false} ArrivalRecorded(s: State, t: State, i: nat)
    requires Arrives(s, t, i)
    ensures i < |s.log| && i < |t.log| && s.log[i].verdict == None
    ensures t.log[i].verdict == Some(Judge(s.server[s.log[i].slot], s.log[i].sequence))
  {
  }

  /** A verdict once given is never changed. */
  lemma {:induction false} VerdictStays(run: seq<State>, j: nat, k: nat, i: nat)
    requires IsRun(run) && j <= k < |run| && i < |run[j].log| && run[j].log[i].verdict.Some?
    ensures i < |run[k].log| && run[k].log[i].verdict == run[j].log[i].verdict
    decreases k
  {
    hide Count;
    if j < k {
      VerdictStays(run, j, k - 1, i);
      assert Step(run[k - 1], run[k]);
    }
  }

  lemma {:induction false} InTurnAccepted(run: seq<State>, k: nat)
    requires IsRun(run) && ArrivesInTurn(run) && k < |run|
    ensures NoneRefused(run[k].log)
  {
    hide Count;
    if k > 0 {
      InTurnAccepted(run, k - 1);
      var s, t := run[k - 1], run[k];
      assert Step(s, t);
      if !Grants(s, t) {
        var i: nat :| Arrives(s, t, i) || Releases(s, t, i);
        if Arrives(s, t, i) {
          assert ArrivesAt(run, k, i);
          ArrivalVerdict(run, k - 1, i);
        }
      }
    }
  }

  /** Runs in which a task releases its slot only after its request arrived. */
  ghost predicate IsReliable(run: seq<State>) {
    IsRun(run) && forall k | 0 < k < |run| :: ReleasesArrived(run[k - 1], run[k])
  }

  ghost predicate ReleasesArrived(s: State, t: State) {
    forall i: nat | Releases(s, t, i) :: s.log[i].verdict != None
  }

  predicate AllNew(log: seq<Request>) {
    NoneRefused(log) && forall i | 0 <= i < |log| :: log[i].held || log[i].verdict != None
  }

  lemma {:induction false} AllNewLosesNone(log: seq<Request>, slot: nat)
    requires AllNew(log)
    ensures Count(log, slot, Lost) == 0
  {
    if log != [] {
      AllNewLosesNone(log[..|log| - 1], slot);
    }
  }

  /** In particular, reliable runs: a request that arrives before its slot is released
      arrives in its turn. */
  lemma {:induction false} ReliableRunsAllNew(run: seq<State>, k: nat)
    requires IsReliable(run) && k < |run|
    ensures AllNew(run[k].log)
    ensures k == |run| - 1 ==> ArrivesInTurn(run)
  {
    ReliableStep(run, k);
    if k == |run| - 1 {
      AllAcceptedIff(run);
    }
  }

  lemma {:induction false} ReliableStep(run: seq<State>, k: nat)
    requires IsReliable(run) && k < |run|
    ensures AllNew(run[k].log)
  {
    hide Count;
    if k > 0 {
      ReliableStep(run, k - 1);
      var s, t := run[k - 1], run[k];
      assert Step(s, t) && ReleasesArrived(s, t);
      if !Grants(s, t) {
        var i: nat :| Arrives(s, t, i) || Releases(s, t, i);
        if Arrives(s, t, i) {
          AllNewLosesNone(s.log, s.log[i].slot);
          HeldIsAheadByLost(run, k - 1, i);
          ArrivalVerdict(run, k - 1, i);
        }
      }
    }
  }
}
