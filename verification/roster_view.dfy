/**
 What clients are meant to see in the roster: who is present and under which
 name.  The view of a roster maps each present id to the name of its first
 entry, which is the entry `findWhere` (and so every rename) reaches.
 */
module RosterView {
  import opened Wrappers
  import opened Roster

  /** The invariant that unique connection ids suggest and the code does not enforce: one entry per id. */
  predicate UniqueIds(r: Roster) {
    forall i, j :: 0 <= i < j < |r| ==> r[i].id != r[j].id
  }

  function IdSet(r: Roster): set<string> {
    set i | 0 <= i < |r| :: r[i].id
  }

  /** Presence view: each id in the roster with the name `findWhere` reports for it. */
  function View(r: Roster): (m: map<string, string>)
    ensures forall id :: id in m <==> !Absent(r, id)
    ensures forall id :: id in m ==> FindWhere(r, id) == Some(Participant(id, m[id]))
  {
    assert forall id :: id in IdSet(r) <==> !Absent(r, id) by {
      forall id | !Absent(r, id) ensures id in IdSet(r) {
        var i :| 0 <= i < |r| && r[i].id == id;
      }
    }
    map id | id in IdSet(r) :: FindWhere(r, id).value.name
  }

  /** A roster whose every lookup agrees with `m` has `m` as its view. */
  lemma ViewIs(r: Roster, m: map<string, string>)
    requires forall x :: FindWhere(r, x) == if x in m then Some(Participant(x, m[x])) else None
    ensures View(r) == m
  {
    assert View(r).Keys == m.Keys;
  }

  lemma FindWhereAfterJoin(r: Roster, id: string, name: string, x: string)
    ensures FindWhere(Join(r, id, name), x)
            == if !Absent(r, x) then FindWhere(r, x)
               else if x == id then Some(Participant(id, name))
               else None
  {
    var r' := Join(r, id, name);
    if !Absent(r, x) {
      var k := FirstIndex(r, x).value;
      assert r'[..k] == r[..k];
      FirstIndexIs(r', x, k);
    } else if x == id {
      assert r'[..|r|] == r;
      FirstIndexIs(r', x, |r|);
    }
  }

  /**
   A join shows up in the view only for a new id: a second entry under an id
   already present sits behind the first one and is invisible to lookups.
   */
  lemma ViewAfterJoin(r: Roster, id: string, name: string)
    ensures View(Join(r, id, name))
            == if id in View(r) then View(r) else View(r)[id := name]
  {
    var m := View(r);
    var expected := if id in m then m else m[id := name];
    forall x
      ensures FindWhere(Join(r, id, name), x)
              == if x in expected then Some(Participant(x, expected[x])) else None
    {
      FindWhereAfterJoin(r, id, name, x);
    }
    ViewIs(Join(r, id, name), expected);
  }

  lemma FindWhereAfterRename(r: Roster, id: string, name: string, x: string)
    requires !Absent(r, id)
    ensures Rename(r, id, name).Some?
    ensures FindWhere(Rename(r, id, name).value, x)
            == if x == id then Some(Participant(id, name)) else FindWhere(r, x)
  {
    var r' := Rename(r, id, name).value;
    var k := FirstIndex(r, id).value;
    assert forall j: nat :: j <= |r| ==> (Absent(r'[..j], x) <==> Absent(r[..j], x)) by {
      forall j: nat | j <= |r| ensures Absent(r'[..j], x) <==> Absent(r[..j], x) {
        assert forall i :: 0 <= i < j ==> r'[..j][i].id == r[..j][i].id;
      }
    }
    if x == id {
      FirstIndexIs(r', x, k);
    } else if !Absent(r, x) {
      var j := FirstIndex(r, x).value;
      FirstIndexIs(r', x, j);
    }
  }

  /** A rename is seen by everybody as exactly one changed name. */
  lemma ViewAfterRename(r: Roster, id: string, name: string)
    requires !Absent(r, id)
    ensures Rename(r, id, name).Some?
    ensures View(Rename(r, id, name).value) == View(r)[id := name]
  {
    var r' := Rename(r, id, name).value;
    var expected := View(r)[id := name];
    forall x
      ensures FindWhere(r', x) == if x in expected then Some(Participant(x, expected[x])) else None
    {
      FindWhereAfterRename(r, id, name, x);
    }
    ViewIs(r', expected);
  }

  /**
   After a leave every other id is found as before, duplicates or not; with one
   entry per id the id itself is no longer found.
   */
  lemma FindWhereAfterLeave(r: Roster, id: string, x: string)
    ensures x != id ==> FindWhere(Leave(r, id), x) == FindWhere(r, x)
    ensures UniqueIds(r) && x == id ==> FindWhere(Leave(r, id), x) == None
  {
    var r' := Leave(r, id);
    if !Absent(r, id) {
      var k := FirstIndex(r, id).value;
      assert r' == r[..k] + r[k + 1..];
      if x == id {
        if UniqueIds(r) {
          assert Absent(r', id) by {
            forall i | 0 <= i < |r'| ensures r'[i].id != id {
              if i >= k { assert r'[i] == r[i + 1]; }
            }
          }
        }
      } else if !Absent(r, x) {
        var j := FirstIndex(r, x).value;
        if j < k {
          assert r'[..j] == r[..j];
          FirstIndexIs(r', x, j);
        } else {
          assert r'[j - 1] == r[j];
          assert Absent(r'[..j - 1], x) by {
            forall i | 0 <= i < j - 1 ensures r'[i].id != x {
              if i < k { assert r'[i] == r[..j][i]; }
              else { assert r'[i] == r[..j][i + 1]; }
            }
          }
          FirstIndexIs(r', x, j - 1);
        }
      } else {
        assert Absent(r', x) by {
          forall i | 0 <= i < |r'| ensures r'[i].id != x {
            if i >= k { assert r'[i] == r[i + 1]; }
          }
        }
      }
    }
  }

  /** With one entry per id, a leave takes the id out of everybody's view and nothing else. */
  lemma ViewAfterLeave(r: Roster, id: string)
    requires UniqueIds(r)
    ensures View(Leave(r, id)) == View(r) - {id}
  {
    var expected := View(r) - {id};
    forall x
      ensures FindWhere(Leave(r, id), x)
              == if x in expected then Some(Participant(x, expected[x])) else None
    {
      FindWhereAfterLeave(r, id, x);
    }
    ViewIs(Leave(r, id), expected);
  }

  /** Joining under an id that is not present keeps one entry per id. */
  lemma JoinKeepsUniqueIds(r: Roster, id: string, name: string)
    requires UniqueIds(r) && Absent(r, id)
    ensures UniqueIds(Join(r, id, name))
  {
  }

  lemma RenameKeepsUniqueIds(r: Roster, id: string, name: string)
    requires UniqueIds(r) && !Absent(r, id)
    ensures Rename(r, id, name).Some?
    ensures UniqueIds(Rename(r, id, name).value)
  {
  }

  lemma LeaveKeepsUniqueIds(r: Roster, id: string)
    requires UniqueIds(r)
    ensures UniqueIds(Leave(r, id))
  {
  }

  /** Without the invariant a leave can reveal a second entry under the same id. */
  lemma DuplicateJoinSurvivesLeave()
    ensures var r := Join(Join([], "a", "Ann"), "a", "Bob");
            View(Leave(r, "a")) == map["a" := "Bob"]
  {
  }
}
