/** Copy-on-write snapshots: what a snapshot shows, that no later edit of its source changes it, and its two indexes. */
module Snapshots {
  import opened Sets
  import opened Extents
  import opened Allocation
  import opened ExtentMaps
  import opened ThinVolumes
  import opened Indexes

  ghost function MarkCell(c: Option<Cell>): Option<Cell> {
    if c == None then None else Some(c.value.(flags := c.value.flags.(shared := true)))
  }

  /** A snapshot means its source up to the shared flag: every mapped byte keeps object, position and other flags. */
  lemma SharedBytes(m: ExtentTable, b: nat)
    requires WellFormed(m)
    ensures At(AllShared(m), b) == MarkCell(At(m, b))
  {
    SharedWellFormed(m);
    if k :| k in m && m[k].Contains(b) {
      SharedOwner(m, k, b);
    } else {
      assert forall k :: k in AllShared(m) ==> AllShared(m)[k] == MarkShared(m[k]);
    }
  }

  lemma SharedOwner(m: ExtentTable, k: nat, b: nat)
    requires WellFormed(m) && WellFormed(AllShared(m)) && k in m && m[k].Contains(b)
    ensures At(AllShared(m), b) == MarkCell(At(m, b))
  {
    AtOwner(m, k, b);
    AtOwner(AllShared(m), k, b);
  }

  lemma SharedFlags(m: ExtentTable, b: nat)
    requires WellFormed(m)
    ensures SharedByte(AllShared(m), b) <==> At(m, b).Some?
  {
    SharedBytes(m, b);
  }

  /** The copied counter is as right for the snapshot as it is for the source, whatever the table. */
  lemma SharedDrift(m: ExtentTable, counter: int)
    ensures Drift(Tracked(AllShared(m), counter)) == Drift(Tracked(m, counter))
  {
    var n := AllShared(m);
    forall b | b in AllocatedBytes(m) ensures b in AllocatedBytes(n) {
      var k :| k in m && !m[k].IsHole() && b in BytesOf(m[k]);
      assert !n[k].IsHole() && b in BytesOf(n[k]);
    }
    forall b | b in AllocatedBytes(n) ensures b in AllocatedBytes(m) {
      var k :| k in n && !n[k].IsHole() && b in BytesOf(n[k]);
      assert !m[k].IsHole() && b in BytesOf(m[k]);
    }
    assert AllocatedBytes(n) == AllocatedBytes(m);
  }

  class BlockSnapshot {
    const id: nat
    const sourceId: nat
    const size: nat
    const extents: ExtentMap

    constructor FromVolume(id: nat, source: ThinVolume)
      requires source.extents.Valid()
      ensures this.id == id && sourceId == source.id && size == source.virtualSize
      ensures fresh(extents) && extents.Valid()
      ensures extents.extents == AllShared(source.extents.extents) && extents.counter == source.extents.counter
    {
      this.id := id;
      this.sourceId := source.id;
      this.size := source.virtualSize;
      var em := source.extents.CloneForSnapshot();
      this.extents := em;
    }
  }

  /** Any run of edits on one extent map. */
  method EditAll(em: ExtentMap, edits: seq<Edit>)
    requires em.Valid()
    modifies em
    ensures em.Valid() && em.State() == EditsFrom(old(em.State()), edits)
  {
    for i := 0 to |edits|
      invariant em.Valid() && em.State() == EditsFrom(old(em.State()), edits[..i])
    {
      assert edits[..i + 1][..i] == edits[..i];
      match edits[i] {
        case Insert(e) => em.Insert(e);
        case RemoveRange(start, end) => em.RemoveRange(start, end);
      }
    }
    assert edits[..|edits|] == edits;
  }

  /** No run of edits of the source after a snapshot, of any kind, changes what the snapshot shows. */
  method SnapshotThenEdit(id: nat, source: ThinVolume, edits: seq<Edit>) returns (snapshot: BlockSnapshot)
    requires source.extents.Valid()
    modifies source.extents
    ensures source.extents.State() == EditsFrom(old(source.extents.State()), edits)
    ensures snapshot.extents.extents == AllShared(old(source.extents.extents))
    ensures WellFormed(old(source.extents.extents)) ==>
              forall b: nat :: At(snapshot.extents.extents, b) == MarkCell(old(At(source.extents.extents, b)))
    ensures Drift(snapshot.extents.State()) == old(Drift(source.extents.State()))
  {
    ghost var m := source.extents.extents;
    snapshot := new BlockSnapshot.FromVolume(id, source);
    EditAll(source.extents, edits);
    SharedDrift(m, snapshot.extents.counter);
    if WellFormed(m) {
      forall b: nat ensures At(AllShared(m), b) == MarkCell(At(m, b)) {
        SharedBytes(m, b);
      }
    }
  }

  /** The write test of the copy-on-write manager; it looks only at the map it is given. */
  method NeedsCow(offset: nat, length: nat, em: ExtentMap) returns (r: bool)
    requires em.Valid()
    ensures r <==> CowNeeded(em.extents, offset, offset + length)
  {
    var es := em.LookupRange(offset, offset + length);
    for i := 0 to |es|
      invariant forall j :: 0 <= j < i ==> !es[j].IsShared()
    {
      if es[i].IsShared() {
        return true;
      }
    }
    return false;
  }

  /**
    On a snapshot a non-empty write needs copy-on-write exactly when it touches a mapped byte or an empty extent lies
    inside its range; on the source it depends only on the source's own flags, which taking a snapshot does not change.
   */
  lemma SnapshotWriteNeedsCow(m: ExtentTable, start: nat, end: nat)
    requires WellFormed(m) && start < end
    ensures CowNeeded(AllShared(m), start, end) <==>
              || (exists b: nat :: start <= b < end && At(m, b).Some?)
              || (exists k :: k in m && m[k].length == 0 && start < k < end)
  {
    var n := AllShared(m);
    SharedWellFormed(m);
    CowIsPerByte(n, start, end);
    forall b: nat ensures SharedByte(n, b) <==> At(m, b).Some? {
      SharedFlags(m, b);
    }
    forall k: nat ensures EmptyInside(n, start, end, k) <==> k in m && m[k].length == 0 && start < k < end {
    }
  }

  // ---------------------------------------------------------------- the manager's two indexes

  class SnapshotManager {
    var snapshots: map<nat, BlockSnapshot>
    var bySource: map<nat, seq<nat>>

    ghost function Sources(): map<nat, nat>
      reads this
    {
      map id | id in snapshots :: snapshots[id].sourceId
    }

    /** Each source lists, without duplicates, exactly its snapshots. */
    ghost predicate Valid()
      reads this
    {
      && (forall id :: id in snapshots ==> snapshots[id].id == id)
      && Indexed(Sources(), bySource)
    }

    constructor ()
      ensures Valid() && snapshots == map[] && bySource == map[]
    {
      snapshots := map[];
      bySource := map[];
    }

    /** `id` stands for the next value of the global volume id counter, so it is not in use. */
    method CreateSnapshot(id: nat, source: ThinVolume) returns (snapshot: BlockSnapshot)
      requires Valid() && source.extents.Valid() && id !in snapshots
      modifies this
      ensures Valid()
      ensures snapshots == old(snapshots)[id := snapshot] && snapshot.sourceId == source.id
      ensures bySource == Pushed(old(bySource), source.id, id)
      ensures snapshot.extents.extents == AllShared(source.extents.extents)
    {
      snapshot := new BlockSnapshot.FromVolume(id, source);
      PushIndexed(Sources(), bySource, source.id, id);
      ghost var sources := Sources();
      bySource := Pushed(bySource, source.id, id);
      snapshots := snapshots[id := snapshot];
      assert Sources() == sources[id := source.id];
    }

    method DeleteSnapshot(id: nat) returns (r: Result<()>)
      requires Valid()
      modifies this
      ensures Valid()
      ensures id !in old(snapshots) ==> r == Err(SnapshotNotFound(id)) && unchanged(this)
      ensures id in old(snapshots) ==> r == Ok(()) && snapshots == old(snapshots) - {id}
      ensures id in old(snapshots) ==> bySource == Dropped(old(bySource), old(snapshots)[id].sourceId, id)
    {
      if id !in snapshots {
        return Err(SnapshotNotFound(id));
      }
      DropIndexed(Sources(), bySource, id);
      ghost var sources := Sources();
      var source := snapshots[id].sourceId;
      snapshots := snapshots - {id};
      bySource := Dropped(bySource, source, id);
      assert Sources() == sources - {id};
      return Ok(());
    }
  }
}
