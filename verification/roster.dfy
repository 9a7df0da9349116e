/**
 The process-wide participant list of the chat server and the three ways the
 event handlers change it.  Entries are kept in connection order; nothing
 stops two entries from sharing an id or a name.
 */
module Roster {
  import opened Wrappers
  import Underscore

  /** One `{id, name}` record: the connection's session id and its display name. */
  datatype Participant = Participant(id: string, name: string)

  type Roster = seq<Participant>

  /** No entry of `r` carries `id`. */
  predicate Absent(r: Roster, id: string) {
    forall i :: 0 <= i < |r| ==> r[i].id != id
  }

  /** `k` is the position of the first entry of `r` that carries `id`. */
  predicate IsFirst(r: Roster, id: string, k: nat) {
    k < |r| && r[k].id == id && Absent(r[..k], id)
  }

  /**
   The lookup `_.findWhere(participants, {id: id})` performs, as a position:
   the first entry with that id, or nothing when no entry has it.
   */
  function FirstIndex(r: Roster, id: string): (k: Option<nat>)
    ensures k.Some? ==> IsFirst(r, id, k.value)
    ensures k.None? <==> Absent(r, id)
  {
    if |r| == 0 then None
    else if r[0].id == id then Some(0)
    else match FirstIndex(r[1..], id)
      case None => None
      case Some(j) =>
        assert r[..j + 1] == [r[0]] + r[1..][..j];
        Some(j + 1)
  }

  /** `_.findWhere(participants, {id: id})` itself: the first record with that id, or `undefined`. */
  function FindWhere(r: Roster, id: string): (p: Option<Participant>)
    ensures p.None? <==> Absent(r, id)
    ensures p.Some? ==> p.value.id == id && p.value in r
    ensures forall k: nat :: IsFirst(r, id, k) ==> p == Some(r[k])
  {
    match FirstIndex(r, id)
    case None => None
    case Some(k) => Some(r[k])
  }

  /** The first position is unique: any position meeting `IsFirst` is the one `FirstIndex` finds. */
  lemma FirstIndexIs(r: Roster, id: string, k: nat)
    requires IsFirst(r, id, k)
    ensures FirstIndex(r, id) == Some(k)
  {
  }

  /** `participants.push({id, name})`: the new record goes at the end, with no check on id or name. */
  function Join(r: Roster, id: string, name: string): (r': Roster)
    ensures |r'| == |r| + 1
    ensures r'[..|r|] == r
    ensures r'[|r|] == Participant(id, name)
  {
    r + [Participant(id, name)]
  }

  /**
   `_.findWhere(participants, {id}).name = name`: the name of the first entry
   with the id is overwritten in place.  When no entry has the id the lookup
   yields `undefined` and the assignment throws, which is `None` here.
   */
  function Rename(r: Roster, id: string, name: string): (res: Option<Roster>)
    ensures res.None? <==> Absent(r, id)
    ensures res.Some? ==>
              && |res.value| == |r|
              && (forall i :: 0 <= i < |r| ==> res.value[i].id == r[i].id)
              && var k := FirstIndex(r, id).value;
                 && res.value[k].name == name
                 && (forall i :: 0 <= i < |r| && i != k ==> res.value[i] == r[i])
  {
    match FirstIndex(r, id)
    case None => None
    case Some(k) => Some(r[k := r[k].(name := name)])
  }

  /**
   `participants = _.without(participants, _.findWhere(participants, {id}))`.
   Every roster record is a distinct object, so this drops exactly the first
   entry with the id (see `Underscore.WithoutDistinct`); when the lookup
   yields `undefined` nothing is identical to it and the roster is unchanged.
   */
  function Leave(r: Roster, id: string): (r': Roster)
    ensures Absent(r, id) ==> r' == r
    ensures !Absent(r, id) ==>
              && |r'| == |r| - 1
              && var k := FirstIndex(r, id).value;
                 && r'[..k] == r[..k]
                 && r'[k..] == r[k + 1..]
  {
    match FirstIndex(r, id)
    case None => r
    case Some(k) => r[..k] + r[k + 1..]
  }

  /** An independent reference for `Leave`: walk the list and skip the first entry with the id. */
  function SkipFirst(r: Roster, id: string): Roster
  {
    if |r| == 0 then []
    else if r[0].id == id then r[1..]
    else [r[0]] + SkipFirst(r[1..], id)
  }

  lemma {:induction false} LeaveIsSkipFirst(r: Roster, id: string)
    ensures Leave(r, id) == SkipFirst(r, id)
  {
    if |r| > 0 && r[0].id != id {
      LeaveIsSkipFirst(r[1..], id);
      match FirstIndex(r[1..], id)
      case None =>
        assert r == [r[0]] + r[1..];
      case Some(j) =>
        assert r[..j + 1] == [r[0]] + r[1..][..j];
        assert r[j + 2..] == r[1..][j + 1..];
    }
  }

  /** Leaving removes one copy of exactly one record: the first one with the id. */
  lemma LeaveRemovesOneRecord(r: Roster, id: string, k: nat)
    requires IsFirst(r, id, k)
    ensures multiset(Leave(r, id)) + multiset{r[k]} == multiset(r)
  {
    FirstIndexIs(r, id, k);
    var left, right := r[..k], r[k + 1..];
    assert Leave(r, id) == left + right;
    assert r == left + ([r[k]] + right);
    calc {
      multiset(r);
      multiset(left) + multiset([r[k]] + right);
      multiset(left) + (multiset{r[k]} + multiset(right));
      multiset(left + right) + multiset{r[k]};
    }
  }

  /** A participant who joined twice under one id is still listed after one leave. */
  lemma LeaveKeepsLaterDuplicate(r: Roster, id: string, i: nat, j: nat)
    requires i < j < |r| && r[i].id == id && r[j].id == id
    ensures !Absent(Leave(r, id), id)
  {
  }

  /** Joining with an id nobody holds and then leaving with it restores the roster. */
  lemma JoinThenLeave(r: Roster, id: string, name: string)
    requires Absent(r, id)
    ensures Leave(Join(r, id, name), id) == r
  {
  }

  /** Renaming twice is the same as renaming once with the later name. */
  lemma RenameLastWins(r: Roster, id: string, a: string, b: string)
    requires !Absent(r, id)
    ensures Rename(r, id, a).Some?
    ensures Rename(Rename(r, id, a).value, id, b) == Rename(r, id, b)
  {
    var k := FirstIndex(r, id).value;
    var r1 := Rename(r, id, a).value;
    assert r1 == r[k := r[k].(name := a)];
    assert r1[..k] == r[..k];
    FirstIndexIs(r1, id, k);
    assert r1[k := r1[k].(name := b)] == r[k := r[k].(name := b)];
  }

  /** The roster as JavaScript holds it: each position refers to an object, `Some(ref)`, looked up in `heap`. */
  function Deref(objs: seq<Option<nat>>, heap: map<nat, Participant>): (r: Roster)
    requires forall i :: 0 <= i < |objs| ==> objs[i].Some? && objs[i].value in heap
    ensures |r| == |objs|
    ensures forall i :: 0 <= i < |objs| ==> r[i] == heap[objs[i].value]
  {
    seq(|objs|, i requires 0 <= i < |objs| => heap[objs[i].value])
  }

  /** The object `_.findWhere` hands to `_.without`: the first match's reference, or `undefined`. */
  function Lookup(r: Roster, id: string, objs: seq<Option<nat>>): Option<nat>
    requires |objs| == |r|
  {
    match FirstIndex(r, id)
    case None => None
    case Some(k) => objs[k]
  }

  /**
   `Leave` is what `_.without(participants, _.findWhere(participants, {id}))`
   does to a list of distinct object references: the lookup yields the first
   matching object, or `undefined` (`None`), and filtering it out by identity
   leaves the objects that `Leave` keeps, in the same order.
   */
  lemma LeaveIsWithoutByIdentity(r: Roster, id: string, objs: seq<Option<nat>>, heap: map<nat, Participant>)
    requires |objs| == |r| && Underscore.Distinct(objs)
    requires forall i :: 0 <= i < |r| ==> objs[i].Some? && objs[i].value in heap && heap[objs[i].value] == r[i]
    ensures var kept := Underscore.Without(objs, Lookup(r, id, objs));
            forall i :: 0 <= i < |kept| ==> kept[i].Some? && kept[i].value in heap
    ensures Deref(Underscore.Without(objs, Lookup(r, id, objs)), heap) == Leave(r, id)
  {
    match FirstIndex(r, id)
    case None =>
      assert None !in objs by {
        forall i | 0 <= i < |objs| ensures objs[i] != None {
          assert objs[i].Some?;
        }
      }
      Underscore.WithoutAbsent(objs, None);
      assert Deref(objs, heap) == r;
    case Some(k) =>
      Underscore.WithoutDistinct(objs, k);
      DerefDrop(objs, heap, k);
      assert Deref(objs, heap) == r;
  }

  /** Dropping position `k` from the references drops position `k` from the records they denote. */
  lemma DerefDrop(objs: seq<Option<nat>>, heap: map<nat, Participant>, k: nat)
    requires forall i :: 0 <= i < |objs| ==> objs[i].Some? && objs[i].value in heap
    requires k < |objs|
    ensures var kept := objs[..k] + objs[k + 1..];
            forall i :: 0 <= i < |kept| ==> kept[i].Some? && kept[i].value in heap
    ensures Deref(objs[..k] + objs[k + 1..], heap) == Deref(objs, heap)[..k] + Deref(objs, heap)[k + 1..]
  {
    var kept := objs[..k] + objs[k + 1..];
    assert forall i :: 0 <= i < |kept| ==> kept[i] == objs[if i < k then i else i + 1];
  }
}
