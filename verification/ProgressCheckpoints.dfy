/** The replay progress checkpoints of the in-memory store, src/indexer/store.ts. */
module ProgressCheckpoints {
  import opened Numbers
  import opened Options

  datatype Checkpoint = Checkpoint(cursorId: string, total: nat, lastCommittedOffset: int, completed: bool)

  type Table = map<string, Checkpoint>

  predicate Regresses(t: Table, c: Checkpoint) {
    c.cursorId in t && c.lastCommittedOffset < t[c.cursorId].lastCommittedOffset
  }

  /** The table after a series of saves, of which the regressing ones are refused. */
  function AfterSaves(t: Table, saves: seq<Checkpoint>): Table {
    if saves == [] then t
    else
      var before := AfterSaves(t, saves[..|saves| - 1]);
      var c := saves[|saves| - 1];
      if Regresses(before, c) then before else before[c.cursorId := c]
  }

  function OffsetOf(t: Table, id: string): Option<int> { if id in t then Some(t[id].lastCommittedOffset) else None }

  /** Of all checkpoints ever offered for a cursor, accepted or not, the table holds one with the greatest
      offset, and it never goes back. */
  lemma {:induction false} SavesKeepGreatest(t: Table, saves: seq<Checkpoint>, id: string)
    requires forall k :: k in t ==> t[k].cursorId == k
    ensures id in t ==> id in AfterSaves(t, saves) && t[id].lastCommittedOffset <= AfterSaves(t, saves)[id].lastCommittedOffset
    ensures forall c :: c in saves && c.cursorId == id ==>
      id in AfterSaves(t, saves) && c.lastCommittedOffset <= AfterSaves(t, saves)[id].lastCommittedOffset
    ensures id in AfterSaves(t, saves) ==> (id in t && AfterSaves(t, saves)[id] == t[id]) || AfterSaves(t, saves)[id] in saves
  {
    if saves != [] {
      var n := |saves| - 1;
      SavesKeepGreatest(t, saves[..n], id);
      assert saves == saves[..n] + [saves[n]];
    }
  }

  class CheckpointStore {
    var checkpoints: Table

    constructor ()
      ensures checkpoints == map[]
    {
      checkpoints := map[];
    }

    method SaveCheckpoint(c: Checkpoint) returns (saved: bool)
      modifies this
      ensures saved <==> !Regresses(old(checkpoints), c)
      ensures checkpoints == AfterSaves(old(checkpoints), [c])
    {
      var existing := OffsetOf(checkpoints, c.cursorId);
      assert [c][..0] == [];
      if existing.Some? && c.lastCommittedOffset < existing.value {
        return false;
      }
      var maxOffset := Max(existing.GetOr(c.lastCommittedOffset), c.lastCommittedOffset);
      checkpoints := checkpoints[c.cursorId := c.(lastCommittedOffset := maxOffset)];
      return true;
    }
  }
}
