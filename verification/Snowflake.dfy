/** Packing a timestamp, a node and a sequence number into one identifier, and the order that packing keeps. The program
    shifts and masks 64-bit words; `WordFields` and `PackedIsComposed` say that on the integers these words stand for this
    is the arithmetic of `Compose` and its fields. */
module Snowflake {
  import opened Wrappers
  import opened Words

  const MaxNode: nat := 0x3FF
  const MaxSequence: nat := 0xFFF
  const MaxTimestamp: nat := 0x1FF_FFFF_FFFF

  datatype IdError =
    | InvalidNode | ClockBeforeEpoch | InvalidReservation | TimestampExhausted | StateFailed

  type IdOutcome<+T> = Result<T, IdError>

  function Compose(timestamp: nat, node: nat, sequence: nat): nat {
    timestamp * 0x40_0000 + node * 0x1000 + sequence
  }

  function TimestampOf(id: nat): nat {
    id / 0x40_0000
  }

  function NodeOf(id: nat): nat {
    id / 0x1000 % 0x400
  }

  function SequenceOf(id: nat): nat {
    id % 0x1000
  }

  predicate InRange(timestamp: nat, node: nat, sequence: nat) {
    timestamp <= MaxTimestamp && node <= MaxNode && sequence <= MaxSequence
  }

  /** Packing is putting the sequence number below the node and both below the timestamp. */
  lemma FieldsOf(timestamp: nat, node: nat, sequence: nat, upper: nat, id: nat)
    requires node < 0x400 && sequence < 0x1000
    requires upper == 0x400 * timestamp + node && id == 0x1000 * upper + sequence
    ensures id == Compose(timestamp, node, sequence)
    ensures TimestampOf(id) == timestamp && NodeOf(id) == node && SequenceOf(id) == sequence
  {
    assert id / 0x1000 == upper && id % 0x1000 == sequence;
    assert upper % 0x400 == node;
    assert id == timestamp * 0x40_0000 + (node * 0x1000 + sequence) && node * 0x1000 + sequence < 0x40_0000;
  }

  /** Unpacking undoes packing, within 63 bits. */
  lemma UnpackUndoesPack(timestamp: nat, node: nat, sequence: nat)
    requires InRange(timestamp, node, sequence)
    ensures var id := Compose(timestamp, node, sequence);
      id < 0x8000_0000_0000_0000 && TimestampOf(id) == timestamp && NodeOf(id) == node && SequenceOf(id) == sequence
  {
    var upper := 0x400 * timestamp + node;
    FieldsOf(timestamp, node, sequence, upper, 0x1000 * upper + sequence);
  }

  /** And packing undoes unpacking on every non-negative 64-bit integer. */
  lemma PackUndoesUnpack(id: nat)
    requires id < 0x8000_0000_0000_0000
    ensures InRange(TimestampOf(id), NodeOf(id), SequenceOf(id))
    ensures Compose(TimestampOf(id), NodeOf(id), SequenceOf(id)) == id
  {
  }

  // ----- words -----------------------------------------------------------------------------------

  /** The program's own form: the fields shifted into place and joined. */
  function Packed(t: bv64, n: bv64, s: bv64): bv64 {
    (t << 22) | (n << 12) | s
  }

  lemma PackedParts(t: bv64, n: bv64, s: bv64)
    requires t <= 0x1FF_FFFF_FFFF && n <= 0x3FF && s <= 0xFFF
    ensures var id := Packed(t, n, s);
      id & 0x8000_0000_0000_0000 == 0 && id >> 22 == t && (id >> 12) & 0x3FF == n && id & 0xFFF == s
  {
  }

  /** Shifting and masking a word yields the integer fields of the integer it stands for. */
  lemma WordFields(id: bv64)
    ensures ValueOf(id >> 22) == TimestampOf(ValueOf(id))
    ensures ValueOf((id >> 12) & 0x3FF) == NodeOf(ValueOf(id))
    ensures ValueOf(id & 0xFFF) == SequenceOf(ValueOf(id))
    ensures ValueOf(id) == Compose(ValueOf(id >> 22), ValueOf((id >> 12) & 0x3FF), ValueOf(id & 0xFFF))
  {
    hide *;
    SplitFields(id);
    FieldsOf(ValueOf(id >> 22), ValueOf((id >> 12) & 0x3FF), ValueOf(id & 0xFFF), ValueOf(id >> 12), ValueOf(id));
  }

  /** And joining shifted fields is the sum of the fields at their weights. */
  lemma PackedIsComposed(t: bv64, n: bv64, s: bv64)
    requires t <= 0x1FF_FFFF_FFFF && n <= 0x3FF && s <= 0xFFF
    ensures ValueOf(Packed(t, n, s)) == Compose(ValueOf(t), ValueOf(n), ValueOf(s))
  {
    PackedParts(t, n, s);
    hide *;
    WordFields(Packed(t, n, s));
  }

  predicate Usable(id: int, node: nat) {
    0 < id < 0x8000_0000_0000_0000 && NodeOf(id) == node
  }

  /** The identifier after this one for the same node. */
  function Successor(id: int, node: nat): IdOutcome<int> {
    if id <= 0 then Failure(InvalidReservation)
    else if NodeOf(id) != node then Failure(InvalidReservation)
    else if SequenceOf(id) < MaxSequence then Success(Compose(TimestampOf(id), NodeOf(id), SequenceOf(id) + 1))
    else if TimestampOf(id) >= MaxTimestamp then Failure(TimestampExhausted)
    else Success(Compose(TimestampOf(id) + 1, NodeOf(id), 0))
  }

  /** For one node, identifiers are ordered by timestamp and then by sequence number. */
  lemma PackingIsOrdered(x: nat, y: nat)
    requires NodeOf(x) == NodeOf(y)
    ensures x < y <==>
      TimestampOf(x) < TimestampOf(y) || (TimestampOf(x) == TimestampOf(y) && SequenceOf(x) < SequenceOf(y))
  {
  }

  lemma SuccessorParts(id: int, node: nat)
    requires Usable(id, node) && Successor(id, node).Success?
    ensures var next := Successor(id, node).value;
      && Usable(next, node)
      && (if SequenceOf(id) < MaxSequence
          then TimestampOf(next) == TimestampOf(id) && SequenceOf(next) == SequenceOf(id) + 1
          else TimestampOf(next) == TimestampOf(id) + 1 && SequenceOf(next) == 0)
  {
    var t, s := TimestampOf(id), SequenceOf(id);
    PackUndoesUnpack(id);
    if s < MaxSequence {
      UnpackUndoesPack(t, node, s + 1);
    } else {
      UnpackUndoesPack(t + 1, node, 0);
    }
  }

  /** The successor is the least identifier of the node above this one; it is missing only at the very end. */
  lemma SuccessorIsNext(id: int, node: nat)
    requires Usable(id, node)
    ensures Successor(id, node).Failure? ==> Successor(id, node) == Failure(TimestampExhausted)
    ensures Successor(id, node).Failure? <==> forall other: int :: Usable(other, node) ==> other <= id
    ensures Successor(id, node).Success? ==>
      var next := Successor(id, node).value;
      Usable(next, node) && id < next && forall other: int :: Usable(other, node) && id < other ==> next <= other
  {
    if Successor(id, node).Success? { SuccessorParts(id, node); }
    PackUndoesUnpack(id);
    forall other: int | Usable(other, node)
      ensures Successor(id, node).Failure? ==> other <= id
      ensures Successor(id, node).Success? && id < other ==> Successor(id, node).value <= other
    {
      PackUndoesUnpack(other);
      PackingIsOrdered(id, other);
      if Successor(id, node).Success? { PackingIsOrdered(other, Successor(id, node).value); }
    }
    if Successor(id, node).Success? { PackingIsOrdered(id, Successor(id, node).value); }
  }
}
