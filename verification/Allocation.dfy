/** Handing out identifiers: the in-memory generator, leases against a persisted high-water mark, and every
    interleaving of allocators, restarts and lost leases. */
module Allocation {
  import opened Wrappers
  import opened Snowflake
  import opened Supply

  const MaximumReservationSize: nat := 1_000_000

  /** Milliseconds since the epoch of the scheme, as some clock reads them. */
  function TimestampFor(reading: int): IdOutcome<nat> {
    if reading < 0 then Failure(ClockBeforeEpoch)
    else if reading > MaxTimestamp then Failure(TimestampExhausted)
    else Success(reading)
  }

  ghost predicate Ascending(ids: seq<int>) {
    forall i, j :: 0 <= i < j < |ids| ==> ids[i] < ids[j]
  }

  // ----- the in-memory generator -----------------------------------------------------------------

  class Generator {
    const node: nat
    var lastTimestamp: int
    var sequence: nat
    ghost var issued: seq<int>

    ghost predicate Valid()
      reads this
    {
      && node <= MaxNode && Ascending(issued) && -1 <= lastTimestamp
      && (lastTimestamp == -1 ==> issued == [])
      && (lastTimestamp >= 0 ==>
            InRange(lastTimestamp, node, sequence) && issued != []
            && issued[|issued| - 1] == Compose(lastTimestamp, node, sequence))
    }

    constructor (node: nat)
      requires node <= MaxNode
      ensures Valid() && issued == [] && this.node == node
    {
      this.node := node;
      lastTimestamp, sequence, issued := -1, 0, [];
    }

    /** Every identifier is above all earlier ones, whatever the clock does. */
    method Next(reading: int) returns (r: IdOutcome<int>)
      requires Valid()
      modifies this
      ensures Valid()
      ensures r.Failure? ==> issued == old(issued) && lastTimestamp == old(lastTimestamp) && sequence == old(sequence)
      ensures r.Success? ==> issued == old(issued) + [r.value] && 0 <= r.value < 0x8000_0000_0000_0000 && NodeOf(r.value) == node
      ensures r.Failure? <==>
        || reading < 0 || reading >= 0x200_0000_0000
        || (reading <= old(lastTimestamp) && old(lastTimestamp) == 0x1FF_FFFF_FFFF && old(sequence) == 4095)
      ensures r.Success? ==> TimestampOf(r.value) >= reading
      ensures r.Success? && reading > old(lastTimestamp) ==> TimestampOf(r.value) == reading && SequenceOf(r.value) == 0
    {
      hide Compose, NodeOf, Ascending;
      var timestamp :- TimestampFor(reading);
      if timestamp > lastTimestamp {
        lastTimestamp, sequence := timestamp, 0;
      } else if sequence < MaxSequence {
        sequence := sequence + 1;
      } else {
        if lastTimestamp == MaxTimestamp { return Failure(TimestampExhausted); }
        lastTimestamp, sequence := lastTimestamp + 1, 0;
      }
      var id := Compose(lastTimestamp, node, sequence);
      UnpackUndoesPack(lastTimestamp, node, sequence);
      NewestIsAbove(issued, old(lastTimestamp), old(sequence), lastTimestamp, sequence, node);
      issued := issued + [id];
      return Success(id);
    }
  }

  lemma NewestIsAbove(issued: seq<int>, t: int, p: nat, u: nat, q: nat, node: nat)
    requires Ascending(issued) && -1 <= t && InRange(u, node, q) && (t < u || (t == u && p < q))
    requires t == -1 ==> issued == []
    requires t >= 0 ==> InRange(t, node, p) && issued != [] && issued[|issued| - 1] == Compose(t, node, p)
    ensures Ascending(issued + [Compose(u, node, q)])
  {
    UnpackUndoesPack(u, node, q);
    if t >= 0 {
      UnpackUndoesPack(t, node, p);
      PackingIsOrdered(Compose(t, node, p), Compose(u, node, q));
    }
  }

  // ----- leases ----------------------------------------------------------------------------------

  /** The first identifier and its successors, in order. */
  predicate IsLease(ids: seq<int>, node: nat) {
    && ids != []
    && forall i :: 0 <= i < |ids| - 1 ==> Successor(ids[i], node) == Success(ids[i + 1])
  }

  /** A lease whose identifiers are all usable. */
  predicate UsableLease(ids: seq<int>, node: nat) {
    IsLease(ids, node) && Usable(ids[0], node)
  }

  lemma {:induction false} LeaseAscends(ids: seq<int>, node: nat)
    requires UsableLease(ids, node)
    ensures Ascending(ids) && forall i :: 0 <= i < |ids| ==> Usable(ids[i], node)
  {
    hide Successor, Usable;
    if |ids| > 1 {
      SuccessorIsNext(ids[0], node);
      var rest := ids[1..];
      forall i | 0 <= i < |rest| - 1 ensures Successor(rest[i], node) == Success(rest[i + 1]) { }
      LeaseAscends(rest, node);
      forall i, j | 0 <= i < j < |ids| ensures ids[i] < ids[j] {
        assert ids[j] == rest[j - 1];
        if i > 0 { assert ids[i] == rest[i - 1]; }
      }
      forall i | 0 <= i < |ids| ensures Usable(ids[i], node) {
        if i > 0 { assert ids[i] == rest[i - 1]; }
      }
    }
  }

  datatype Reservation = Reservation(firstID: int, lastID: int, count: int)

  /** The lowest identifier a new lease may start with. */
  function FirstOf(node: nat, observed: nat, highWater: int): IdOutcome<int> {
    var first := Compose(observed, node, 0);
    if highWater > 0 && first <= highWater then Successor(highWater, node) else Success(first)
  }

  ghost predicate Granted(ids: seq<int>, node: nat, observed: nat, highWater: int) {
    IsLease(ids, node) && FirstOf(node, observed, highWater) == Success(ids[0])
  }

  /** A lease of this size exists: the request is valid and time does not run out within it. */
  ghost predicate Grantable(node: nat, observed: int, highWater: int, count: int) {
    && node <= MaxNode && 0 <= observed <= MaxTimestamp && 1 <= count <= MaximumReservationSize
    && exists ids :: Granted(ids, node, observed, highWater) && |ids| == count
  }

  ghost predicate GrantedAboveZero(node: nat, observed: int, highWater: int, count: int) {
    Grantable(node, observed, highWater, count) && FirstOf(node, observed, highWater).value > 0
  }

  /** Two leases with the same start agree as far as both go. */
  lemma {:induction false} LeasesAgree(a: seq<int>, b: seq<int>, node: nat, i: nat)
    requires IsLease(a, node) && IsLease(b, node) && a[0] == b[0] && i < |a| && i < |b|
    ensures a[i] == b[i]
  {
    hide Successor;
    if i > 0 { LeasesAgree(a, b, node, i - 1); }
  }

  /** A lease that cannot be continued is not the start of a longer one. */
  lemma LeaseEnds(ids: seq<int>, node: nat, observed: nat, highWater: int, count: int)
    requires Granted(ids, node, observed, highWater) && |ids| < count && Successor(ids[|ids| - 1], node).Failure?
    ensures !Grantable(node, observed, highWater, count)
  {
    hide Successor, FirstOf;
    forall longer | Granted(longer, node, observed, highWater) ensures |longer| != count {
      if |longer| == count {
        assert Successor(longer[|ids| - 1], node) == Success(longer[|ids|]);
        LeasesAgree(ids, longer, node, |ids| - 1);
      }
    }
  }

  /** Succeeds exactly when the whole lease fits. */
  method ReserveRange(node: nat, observed: int, highWater: int, count: int)
    returns (r: IdOutcome<Reservation>, ghost ids: seq<int>)
    ensures r.Success? <==> Grantable(node, observed, highWater, count)
    ensures r.Success? ==> 0 <= observed <= MaxTimestamp && node <= MaxNode && 1 <= count <= MaximumReservationSize
    ensures r.Success? ==> IsLease(ids, node) && |ids| == count && r.value == Reservation(ids[0], ids[count - 1], count)
    ensures r.Success? ==> FirstOf(node, observed, highWater) == Success(ids[0])
  {
    hide Successor, Compose;
    ids := [];
    if node > MaxNode { return Failure(InvalidNode), []; }
    if observed < 0 { return Failure(ClockBeforeEpoch), []; }
    if observed > MaxTimestamp { return Failure(TimestampExhausted), []; }
    if count < 1 || count > MaximumReservationSize { return Failure(InvalidReservation), []; }
    var first := Compose(observed, node, 0);
    if highWater > 0 && first <= highWater {
      first :- Successor(highWater, node);
    }
    var last := first;
    ids := [first];
    assert Granted(ids, node, observed, highWater);
    for step := 1 to count
      invariant |ids| == step && Granted(ids, node, observed, highWater) && ids[0] == first && ids[step - 1] == last
    {
      if Successor(last, node).Failure? { LeaseEnds(ids, node, observed, highWater, count); }
      last :- Successor(last, node);
      ids := ids + [last];
    }
    return Success(Reservation(first, last, count)), ids;
  }

  /** A lease starts above the high-water mark and not before the observed time. */
  lemma LeaseIsFresh(ids: seq<int>, node: nat, observed: nat, highWater: int)
    requires node <= MaxNode && observed <= MaxTimestamp && IsLease(ids, node) && ids[|ids| - 1] > 0
    requires highWater > 0 ==> Usable(highWater, node)
    requires FirstOf(node, observed, highWater) == Success(ids[0])
    ensures UsableLease(ids, node) && (highWater > 0 ==> highWater < ids[0]) && Compose(observed, node, 0) <= ids[0]
  {
    hide Compose, NodeOf, TimestampOf, SequenceOf, Successor;
    UnpackUndoesPack(observed, node, 0);
    if highWater > 0 { SuccessorIsNext(highWater, node); }
    ZeroHasNoSuccessor(node);
    assert |ids| > 1 ==> Successor(ids[0], node) == Success(ids[1]);
  }

  lemma LeaseIsPositive(ids: seq<int>, node: nat)
    requires IsLease(ids, node) && ids[0] > 0
    ensures ids[|ids| - 1] > 0
  {
    if |ids| > 1 {
      var last := ids[|ids| - 2];
      assert Successor(last, node) == Success(ids[|ids| - 1]);
    }
  }

  lemma ZeroHasNoSuccessor(node: nat)
    ensures Successor(0, node) == Failure(InvalidReservation)
  {
  }

  // ----- the persisted high-water mark -----------------------------------------------------------

  /** How a reservation's transaction ends: committed, rolled back, or committed with the answer lost. */
  datatype Fate = Committed | RolledBack | AnswerLost

  class StateStore {
    var highWater: map<nat, int>

    predicate Valid()
      reads this
    {
      forall n :: n in highWater ==> n <= MaxNode && Usable(highWater[n], n)
    }

    constructor ()
      ensures Valid() && highWater == map[]
    {
      highWater := map[];
    }

    function Mark(node: nat): int
      reads this
    {
      if node in highWater then highWater[node] else 0
    }

    /** Either nothing is persisted, or a fresh lease is: all of it above the old mark, its last identifier the new one. */
    method ReserveIDRange(node: nat, observed: int, count: int, fate: Fate)
      returns (r: IdOutcome<Reservation>, ghost ids: seq<int>)
      requires Valid()
      modifies this
      ensures Valid()
      ensures ids == [] ==> r.Failure? && highWater == old(highWater)
      ensures ids != [] ==> UsableLease(ids, node) && |ids| == count && old(Mark(node)) < ids[0]
      ensures ids != [] ==> highWater == old(highWater)[node := ids[|ids| - 1]]
      ensures r.Success? ==> ids != [] && r.value == Reservation(ids[0], ids[count - 1], count)
      ensures fate == Committed && GrantedAboveZero(node, observed, old(Mark(node)), count) ==> r.Success?
    {
      hide Compose, NodeOf, Successor, IsLease;
      var mark := Mark(node);
      var reserved, lease := ReserveRange(node, observed, mark, count);
      if reserved.Failure? { return reserved, []; }
      if reserved.value.firstID > 0 { LeaseIsPositive(lease, node); }
      if fate == RolledBack || reserved.value.lastID <= 0 { return Failure(StateFailed), []; }
      LeaseIsFresh(lease, node, observed, mark);
      LeaseAscends(lease, node);
      highWater := highWater[node := reserved.value.lastID];
      ids := lease;
      if fate == AnswerLost { return Failure(StateFailed), ids; }
      return reserved, ids;
    }
  }

  // ----- the allocator ---------------------------------------------------------------------------

  class PersistentAllocator {
    const node: nat
    const leaseSize: nat
    var nextID: int
    var remaining: nat
    ghost var pending: seq<int>

    ghost predicate Valid()
      reads this
    {
      && node <= MaxNode && 1 <= leaseSize <= MaximumReservationSize && |pending| == remaining
      && (remaining > 0 ==> UsableLease(pending, node) && pending[0] == nextID)
    }

    constructor (node: nat, leaseSize: nat)
      requires node <= MaxNode && 1 <= leaseSize <= MaximumReservationSize
      ensures Valid() && pending == [] && this.node == node && this.leaseSize == leaseSize
    {
      this.node, this.leaseSize := node, leaseSize;
      nextID, remaining, pending := 0, 0, [];
    }

    /** Replaces what is left of the current lease by a fresh one of the given size. `ids` is what the transaction
        committed, whether or not its answer arrived. */
    method Reserve(store: StateStore, reading: int, count: nat, fate: Fate) returns (ok: IdOutcome<()>, ghost ids: seq<int>)
      requires Valid() && store.Valid() && 1 <= count
      modifies this, store
      ensures Valid() && store.Valid()
      ensures Spent(store.highWater, old(store.highWater), old(store.Mark(node)), ids)
      ensures if ok.Success? then ids != [] && pending == ids && |ids| == count else pending == old(pending)
    {
      hide UsableLease, Usable;
      ids := [];
      var timestamp :- TimestampFor(reading);
      var reservation;
      reservation, ids := store.ReserveIDRange(node, timestamp, count, fate);
      if ids != [] { MarkRises(ids, node); }
      if reservation.Failure? { return Failure(reservation.error), ids; }
      if reservation.value.count != count || reservation.value.firstID <= 0
         || reservation.value.lastID < reservation.value.firstID {
        return Failure(InvalidReservation), ids;
      }
      nextID, remaining, pending := reservation.value.firstID, reservation.value.count, ids;
      return Success(()), ids;
    }

    /** What a call took from the store: nothing, or a fresh lease above the old mark, whose end is the new one. */
    ghost predicate Spent(now: map<nat, int>, before: map<nat, int>, mark: int, ids: seq<int>) {
      if ids == [] then now == before
      else UsableLease(ids, node) && mark < ids[0] && now == before[node := ids[|ids| - 1]]
    }

    /** The next identifier of the lease; only an empty lease reserves. */
    method Next(store: StateStore, reading: int, fate: Fate) returns (r: IdOutcome<int>, ghost ids: seq<int>)
      requires Valid() && store.Valid()
      modifies this, store
      ensures Valid() && store.Valid()
      ensures Spent(store.highWater, old(store.highWater), old(store.Mark(node)), ids)
      ensures old(remaining) > 0 ==> ids == [] && r == Success(old(pending)[0]) && pending == old(pending)[1..]
      ensures old(remaining) == 0 && r.Success? ==> |ids| == leaseSize && [r.value] + pending == ids
      ensures old(remaining) == 0 && r.Failure? ==> pending == []
    {
      hide Usable, Successor;
      ids := [];
      if remaining == 0 {
        var reserved;
        reserved, ids := Reserve(store, reading, leaseSize, fate);
        if reserved.Failure? { return Failure(reserved.error), ids; }
      }
      var handed := nextID;
      LeaseTail(pending, node);
      remaining := remaining - 1;
      if remaining > 0 {
        // Within a lease the successor always exists.
        var next := Successor(nextID, node);
        nextID := next.value;
      }
      assert pending == [pending[0]] + pending[1..];
      pending := pending[1..];
      return Success(handed), ids;
    }

    /** After success the next `count` calls of Next reserve nothing. */
    method Ensure(store: StateStore, reading: int, count: int, fate: Fate) returns (ok: IdOutcome<()>, ghost ids: seq<int>)
      requires Valid() && store.Valid()
      modifies this, store
      ensures Valid() && store.Valid()
      ensures Spent(store.highWater, old(store.highWater), old(store.Mark(node)), ids)
      ensures ok.Success? ==> 1 <= count <= MaximumReservationSize && remaining >= count
      ensures pending == if ok.Success? && ids != [] then ids else old(pending)
      ensures 1 <= count <= MaximumReservationSize && old(remaining) >= count ==> ok.Success? && ids == []
    {
      hide UsableLease, Usable;
      if count < 1 || count > MaximumReservationSize { return Failure(InvalidReservation), []; }
      if remaining >= count { return Success(()), []; }
      ok, ids := Reserve(store, reading, if count > leaseSize then count else leaseSize, fate);
    }
  }

  /** As a publication does: ensures enough identifiers before its transaction, then draws them. However the clock reads
      and the store answers meanwhile, drawing reserves nothing, and hands out what was there after ensuring, in order. */
  method EnsureAndDraw(
    allocator: PersistentAllocator, store: StateStore, reading: int, fate: Fate, count: int,
    readings: seq<int>, fates: seq<Fate>)
    returns (r: IdOutcome<seq<int>>, ghost ensured: seq<int>)
    requires allocator.Valid() && store.Valid() && |readings| == |fates| <= count
    modifies allocator, store
    ensures allocator.Valid() && store.Valid()
    ensures r.Success? ==> allocator.Spent(store.highWater, old(store.highWater), old(store.Mark(allocator.node)), ensured)
    ensures r.Success? ==>
      var lease := if ensured == [] then old(allocator.pending) else ensured;
      && count <= |lease| && r.value == lease[..|readings|] && allocator.pending == lease[|readings|..]
      && Ascending(r.value) && forall id :: id in r.value ==> Usable(id, allocator.node)
    ensures r.Failure? ==> !(1 <= count <= old(allocator.remaining) && count <= MaximumReservationSize)
  {
    hide UsableLease, Usable, Ascending;
    var ok;
    ok, ensured := allocator.Ensure(store, reading, count, fate);
    if ok.Failure? { return Failure(ok.error), ensured; }
    ghost var lease := allocator.pending;
    ghost var mark := store.highWater;
    var drawn: seq<int> := [];
    for i := 0 to |readings|
      invariant allocator.Valid() && store.Valid() && store.highWater == mark
      invariant drawn == lease[..i] && allocator.pending == lease[i..]
    {
      var id, _ := allocator.Next(store, readings[i], fates[i]);
      assert lease[i..][1..] == lease[i + 1..] && lease[..i + 1] == lease[..i] + [lease[i]];
      drawn := drawn + [id.value];
    }
    DrawnAscend(lease, allocator.node, |readings|);
    return Success(drawn), ensured;
  }

  lemma DrawnAscend(lease: seq<int>, node: nat, n: nat)
    requires UsableLease(lease, node) && n <= |lease|
    ensures Ascending(lease[..n]) && forall id :: id in lease[..n] ==> Usable(id, node)
  {
    hide UsableLease, Usable;
    LeaseAscends(lease, node);
  }

  lemma MarkRises(ids: seq<int>, node: nat)
    requires UsableLease(ids, node)
    ensures ids[0] <= ids[|ids| - 1]
  {
    LeaseAscends(ids, node);
    hide UsableLease;
  }

  lemma LeaseTail(ids: seq<int>, node: nat)
    requires UsableLease(ids, node)
    ensures |ids| > 1 ==> Successor(ids[0], node) == Success(ids[1]) && UsableLease(ids[1..], node)
  {
    hide Successor, Usable;
    LeaseAscends(ids, node);
    if |ids| > 1 {
      var rest := ids[1..];
      forall i | 0 <= i < |rest| - 1 ensures Successor(rest[i], node) == Success(rest[i + 1]) {
        assert rest[i] == ids[i + 1] && rest[i + 1] == ids[i + 2];
      }
    }
  }

  // ----- every interleaving of allocators of one node --------------------------------------------

  /** The mark, what each allocator still has to hand out, and what was handed out, by whom, in order. A restart
      begins a new allocator; the identifiers its predecessor still had are never used. */
  datatype System = System(highWater: int, pending: map<int, seq<int>>, handed: seq<(int, int)>)

  datatype Event =
    | Restart(a: int)
    | Lease(a: int, ids: seq<int>)
    | Lose(ids: seq<int>)
    | Hand(a: int)

  predicate FreshLease(s: System, ids: seq<int>, node: nat) {
    UsableLease(ids, node) && s.highWater < ids[0]
  }

  predicate Possible(s: System, e: Event, node: nat) {
    match e
    case Restart(a) => a !in s.pending
    case Lease(a, ids) => a in s.pending && FreshLease(s, ids, node)
    case Lose(ids) => FreshLease(s, ids, node)
    case Hand(a) => a in s.pending && s.pending[a] != []
  }

  function Happen(s: System, e: Event, node: nat): System
    requires Possible(s, e, node)
  {
    match e
    case Restart(a) => s.(pending := s.pending[a := []])
    case Lease(a, ids) => s.(highWater := ids[|ids| - 1], pending := s.pending[a := ids])
    case Lose(ids) => s.(highWater := ids[|ids| - 1])
    case Hand(a) => s.(pending := s.pending[a := s.pending[a][1..]], handed := s.handed + [(a, s.pending[a][0])])
  }

  ghost predicate Below(ids: seq<int>, mark: int) {
    forall i :: 0 <= i < |ids| ==> 0 < ids[i] <= mark
  }

  ghost predicate Apart(s: seq<int>, t: seq<int>) {
    forall i, j :: 0 <= i < |s| && 0 <= j < |t| ==> s[i] != t[j]
  }

  function HandedIDs(s: System): seq<int> {
    seq(|s.handed|, i requires 0 <= i < |s.handed| => s.handed[i].1)
  }

  ghost predicate Distinct(ids: seq<int>) {
    forall i, j :: 0 <= i < j < |ids| ==> ids[i] != ids[j]
  }

  ghost predicate PendingSound(s: System, a: int)
    requires a in s.pending
  {
    && Ascending(s.pending[a]) && Below(s.pending[a], s.highWater) && Apart(s.pending[a], HandedIDs(s))
    && (forall i, j :: 0 <= i < |s.handed| && 0 <= j < |s.pending[a]| && s.handed[i].0 == a ==> s.handed[i].1 < s.pending[a][j])
  }

  /** Each allocator's own identifiers ascend. */
  ghost predicate OwnAscend(s: System) {
    forall i, j :: 0 <= i < j < |s.handed| && s.handed[i].0 == s.handed[j].0 ==> s.handed[i].1 < s.handed[j].1
  }

  ghost predicate Sound(s: System) {
    && 0 <= s.highWater && Below(HandedIDs(s), s.highWater) && Distinct(HandedIDs(s)) && OwnAscend(s)
    && (forall a :: a in s.pending ==> PendingSound(s, a))
    && (forall a, b :: a in s.pending && b in s.pending && a != b ==> Apart(s.pending[a], s.pending[b]))
    && (forall i :: 0 <= i < |s.handed| ==> s.handed[i].0 in s.pending)
  }

  lemma LeaseKeeps(s: System, node: nat, a: int, ids: seq<int>)
    requires Sound(s) && Possible(s, Lease(a, ids), node)
    ensures Sound(Happen(s, Lease(a, ids), node))
  {
    LeaseAscends(ids, node);
    hide IsLease, Usable;
    var t := Happen(s, Lease(a, ids), node);
    assert HandedIDs(t) == HandedIDs(s);
    assert Below(ids, t.highWater);
    forall i | 0 <= i < |ids| ensures s.highWater < ids[i] { if i > 0 { assert ids[0] < ids[i]; } }
    forall i, j | 0 <= i < |s.handed| && 0 <= j < |ids| ensures s.handed[i].1 < ids[j] { assert HandedIDs(s)[i] <= s.highWater; }
    forall b | b in t.pending ensures PendingSound(t, b) { assert PendingSound(s, b); }
    forall b | b in s.pending && b != a ensures Apart(t.pending[a], t.pending[b]) && Apart(t.pending[b], t.pending[a]) {
      assert PendingSound(s, b);
    }
  }

  lemma LoseKeeps(s: System, node: nat, ids: seq<int>)
    requires Sound(s) && Possible(s, Lose(ids), node)
    ensures Sound(Happen(s, Lose(ids), node))
  {
    LeaseAscends(ids, node);
    hide IsLease, Usable;
    var t := Happen(s, Lose(ids), node);
    assert HandedIDs(t) == HandedIDs(s);
    forall b | b in t.pending ensures PendingSound(t, b) { assert PendingSound(s, b); }
  }

  lemma RestartKeeps(s: System, node: nat, a: int)
    requires Sound(s) && Possible(s, Restart(a), node)
    ensures Sound(Happen(s, Restart(a), node))
  {
    var t := Happen(s, Restart(a), node);
    assert HandedIDs(t) == HandedIDs(s);
    forall b | b in t.pending ensures PendingSound(t, b) { if b != a { assert PendingSound(s, b); } }
  }

  lemma HandKeeps(s: System, node: nat, a: int)
    requires Sound(s) && Possible(s, Hand(a), node)
    ensures Sound(Happen(s, Hand(a), node))
  {
    var t := Happen(s, Hand(a), node);
    var id := s.pending[a][0];
    assert PendingSound(s, a);
    assert HandedIDs(t) == HandedIDs(s) + [id];
    forall i | 0 <= i < |s.handed| ensures HandedIDs(s)[i] != id { }
    hide HandedIDs;
    HandedKeeps(s, t, a, id);
    forall b | b in t.pending ensures PendingSound(t, b) {
      assert PendingSound(s, b);
      if b == a { TailSound(s, t, a); } else { assert Apart(s.pending[a], s.pending[b]); }
    }
    forall b, c | b in t.pending && c in t.pending && b != c ensures Apart(t.pending[b], t.pending[c]) {
      assert Apart(s.pending[b], s.pending[c]);
    }
  }

  lemma HandedKeeps(s: System, t: System, a: int, id: int)
    requires Sound(s) && a in s.pending && s.pending[a] != [] && id == s.pending[a][0]
    requires HandedIDs(t) == HandedIDs(s) + [id] && t.handed == s.handed + [(a, id)] && t.highWater == s.highWater
    ensures Below(HandedIDs(t), t.highWater) && Distinct(HandedIDs(t)) && OwnAscend(t)
  {
    assert PendingSound(s, a);
  }

  lemma TailSound(s: System, t: System, a: int)
    requires a in s.pending && s.pending[a] != [] && PendingSound(s, a) && a in t.pending && t.pending[a] == s.pending[a][1..]
    requires t.handed == s.handed + [(a, s.pending[a][0])] && t.highWater == s.highWater
    requires HandedIDs(t) == HandedIDs(s) + [s.pending[a][0]]
    ensures PendingSound(t, a)
  {
    forall j | 0 <= j < |t.pending[a]| ensures t.pending[a][j] == s.pending[a][j + 1] && s.pending[a][0] < t.pending[a][j] { }
  }

  lemma EventKeeps(s: System, e: Event, node: nat)
    requires Sound(s) && Possible(s, e, node)
    ensures Sound(Happen(s, e, node))
  {
    hide *;
    match e
    case Restart(a) => RestartKeeps(s, node, a);
    case Lease(a, ids) => LeaseKeeps(s, node, a, ids);
    case Lose(ids) => LoseKeeps(s, node, ids);
    case Hand(a) => HandKeeps(s, node, a);
  }

  predicate Runs(s: System, events: seq<Event>, node: nat)
    decreases |events|
  {
    events == [] || (Possible(s, events[0], node) && Runs(Happen(s, events[0], node), events[1..], node))
  }

  function Run(s: System, events: seq<Event>, node: nat): System
    requires Runs(s, events, node)
    decreases |events|
  {
    if events == [] then s else Run(Happen(s, events[0], node), events[1..], node)
  }

  lemma {:induction false} RunKeeps(s: System, events: seq<Event>, node: nat)
    requires Sound(s) && Runs(s, events, node)
    ensures Sound(Run(s, events, node))
    decreases |events|
  {
    hide Sound, Possible, Happen;
    if events != [] {
      EventKeeps(s, events[0], node);
      RunKeeps(Happen(s, events[0], node), events[1..], node);
    }
  }

  const FirstBoot := System(0, map[], [])

  /** Whatever the clocks read, however often allocators restart, and whichever leases are abandoned or lost after
      their commit: no identifier is handed out twice, and each allocator's identifiers ascend. */
  lemma IdentifiersAreUnique(events: seq<Event>, node: nat)
    requires Runs(FirstBoot, events, node)
    ensures var s := Run(FirstBoot, events, node);
      && (forall i, j :: 0 <= i < j < |s.handed| ==> s.handed[i].1 != s.handed[j].1)
      && (forall i, j :: 0 <= i < j < |s.handed| && s.handed[i].0 == s.handed[j].0 ==> s.handed[i].1 < s.handed[j].1)
      && (forall i :: 0 <= i < |s.handed| ==> 0 < s.handed[i].1 <= s.highWater)
  {
    assert Sound(FirstBoot);
    RunKeeps(FirstBoot, events, node);
    var s := Run(FirstBoot, events, node);
    hide Runs, Run;
    forall i, j | 0 <= i < j < |s.handed| ensures s.handed[i].1 != s.handed[j].1 {
      assert HandedIDs(s)[i] != HandedIDs(s)[j];
    }
    forall i | 0 <= i < |s.handed| ensures 0 < s.handed[i].1 <= s.highWater { assert 0 < HandedIDs(s)[i] <= s.highWater; }
  }

  function Hands(events: seq<Event>, a: int): nat {
    if events == [] then 0 else (if events[0] == Hand(a) then 1 else 0) + Hands(events[1..], a)
  }

  /** Between two reservations of its own, an allocator works through its lease in order, whatever the others do:
      after `Ensure(n)` the next n identifiers are already decided. */
  lemma {:induction false} LeaseServedInOrder(s: System, events: seq<Event>, node: nat, a: int)
    requires a in s.pending && Runs(s, events, node)
    requires forall i :: 0 <= i < |events| ==> !(events[i].Lease? && events[i].a == a)
    ensures Hands(events, a) <= |s.pending[a]|
    ensures a in Run(s, events, node).pending
    ensures Run(s, events, node).pending[a] == s.pending[a][Hands(events, a)..]
    decreases |events|
  {
    if events != [] {
      var t := Happen(s, events[0], node);
      assert a in t.pending;
      LeaseServedInOrder(t, events[1..], node, a);
    }
  }

  // ----- the calls are steps of the system -------------------------------------------------------

  /** The system as one allocator and the store see it. */
  ghost predicate Shows(s: System, a: int, allocator: PersistentAllocator, store: StateStore)
    reads allocator, store
  {
    a in s.pending && s.pending[a] == allocator.pending && s.highWater == store.Mark(allocator.node)
  }

  /** One allocator moved from `s` to `t`: the others keep what they had, and these were handed out. */
  ghost predicate Moved(s: System, t: System, events: seq<Event>, node: nat, a: int, handed: seq<int>) {
    && Runs(s, events, node) && t == Run(s, events, node) && (Sound(s) ==> Sound(t))
    && t.handed == s.handed + seq(|handed|, i requires 0 <= i < |handed| => (a, handed[i]))
    && forall b :: b in s.pending && b != a ==> b in t.pending && t.pending[b] == s.pending[b]
  }

  /** The events of a call that took `ids` from the store and then, perhaps, handed one identifier out. */
  function EventsOf(a: int, ids: seq<int>, kept: bool, hands: bool): seq<Event> {
    (if ids == [] then [] else if kept then [Lease(a, ids)] else [Lose(ids)]) + if hands then [Hand(a)] else []
  }

  lemma NoEvent(s: System, node: nat)
    ensures Runs(s, [], node) && Run(s, [], node) == s
  {
  }

  lemma OneEvent(s: System, e: Event, node: nat)
    requires Possible(s, e, node)
    ensures Runs(s, [e], node) && Run(s, [e], node) == Happen(s, e, node)
  {
    assert [e][1..] == [];
    NoEvent(Happen(s, e, node), node);
  }

  lemma TwoEvents(s: System, e: Event, f: Event, node: nat)
    requires Possible(s, e, node) && Possible(Happen(s, e, node), f, node)
    ensures Runs(s, [e, f], node) && Run(s, [e, f], node) == Happen(Happen(s, e, node), f, node)
  {
    assert [e, f][1..] == [f];
    OneEvent(Happen(s, e, node), f, node);
  }

  lemma CallMoves(s: System, node: nat, a: int, ids: seq<int>, kept: bool, hands: bool)
    requires a in s.pending && (ids == [] || FreshLease(s, ids, node))
    requires var lease := if ids != [] && kept then ids else s.pending[a]; hands ==> lease != []
    ensures Runs(s, EventsOf(a, ids, kept, hands), node)
    ensures var t := Run(s, EventsOf(a, ids, kept, hands), node);
      var lease := if ids != [] && kept then ids else s.pending[a];
      && Moved(s, t, EventsOf(a, ids, kept, hands), node, a, if hands then [lease[0]] else [])
      && a in t.pending && t.pending[a] == (if hands then lease[1..] else lease)
      && t.highWater == if ids == [] then s.highWater else ids[|ids| - 1]
  {
    var events := EventsOf(a, ids, kept, hands);
    var taken := if kept then Lease(a, ids) else Lose(ids);
    hide Sound, Runs, Run, FreshLease;
    if ids == [] && !hands {
      assert events == [];
      NoEvent(s, node);
    } else if !hands {
      assert events == [taken];
      OneEvent(s, taken, node);
    } else if ids == [] {
      assert events == [Hand(a)];
      OneEvent(s, Hand(a), node);
    } else {
      assert events == [taken, Hand(a)];
      TwoEvents(s, taken, Hand(a), node);
    }
    if Sound(s) { RunKeeps(s, events, node); }
  }

  /** A call of Next on one allocator is a run of the system, and what it returns is handed out in it; so, by the
      soundness of runs, no allocator over this store has returned it before. */
  method NextInSystem(
    allocator: PersistentAllocator, store: StateStore, reading: int, fate: Fate, ghost s: System, ghost a: int)
    returns (r: IdOutcome<int>, ghost t: System, ghost events: seq<Event>)
    requires allocator.Valid() && store.Valid() && Shows(s, a, allocator, store)
    modifies allocator, store
    ensures allocator.Valid() && store.Valid() && Shows(t, a, allocator, store)
    ensures Moved(s, t, events, allocator.node, a, if r.Success? then [r.value] else [])
    ensures Sound(s) && r.Success? ==> r.value !in HandedIDs(s)
  {
    hide Sound, UsableLease, Runs, Run, Moved;
    ghost var had := allocator.remaining > 0;
    ghost var ids;
    r, ids := allocator.Next(store, reading, fate);
    events := EventsOf(a, ids, r.Success?, r.Success?);
    CallMoves(s, allocator.node, a, ids, r.Success?, r.Success?);
    t := Run(s, events, allocator.node);
    if Sound(s) && r.Success? { HandedIsNew(s, t, events, allocator.node, a, r.value); }
  }

  lemma HandedIsNew(s: System, t: System, events: seq<Event>, node: nat, a: int, id: int)
    requires Moved(s, t, events, node, a, [id]) && Sound(s)
    ensures id !in HandedIDs(s)
  {
    var n := |s.handed|;
    assert HandedIDs(t) == HandedIDs(s) + [id];
    forall i | 0 <= i < n ensures HandedIDs(s)[i] != id {
      assert HandedIDs(t)[i] != HandedIDs(t)[n];
    }
  }

  /** And so is a call of Ensure, which hands nothing out. */
  method EnsureInSystem(
    allocator: PersistentAllocator, store: StateStore, reading: int, count: int, fate: Fate, ghost s: System, ghost a: int)
    returns (ok: IdOutcome<()>, ghost t: System, ghost events: seq<Event>)
    requires allocator.Valid() && store.Valid() && Shows(s, a, allocator, store)
    modifies allocator, store
    ensures allocator.Valid() && store.Valid() && Shows(t, a, allocator, store)
    ensures Moved(s, t, events, allocator.node, a, [])
  {
    hide Sound, UsableLease, Runs, Run, Moved;
    ghost var ids;
    ok, ids := allocator.Ensure(store, reading, count, fate);
    events := EventsOf(a, ids, ok.Success?, false);
    CallMoves(s, allocator.node, a, ids, ok.Success?, false);
    t := Run(s, events, allocator.node);
  }

  /** What an allocator still has is what a transaction may draw: valid, different, and handed out to nobody before. */
  lemma PendingIsPlenty(s: System, a: int, node: nat)
    requires Sound(s) && a in s.pending && UsableLease(s.pending[a], node)
    ensures Plenty(s.pending[a], (set id | id in HandedIDs(s)), |s.pending[a]|)
  {
    assert PendingSound(s, a);
    LeaseAscends(s.pending[a], node);
    hide UsableLease;
  }
}
