/** The profile view's handlers for measurements and photos: each builds
    the updated profile handed to `onUpdateProfile`. A fresh
    `crypto.randomUUID()` is a parameter: `id` for one record, `newId(k)`
    for the `k`-th imported one. */
module ProfileView {
  import opened Wrappers
  import opened Records

  // ---- Measurements ----

  /** `handleAddDataLog`: the new measurement, given the fresh id, appended. */
  function AddDataLog(p: CompostProfile, log: DataLog, id: string): (r: CompostProfile)
    ensures r.dataLogs == p.dataLogs + [log.(id := id)]
    ensures r.(dataLogs := p.dataLogs) == p
  {
    p.(dataLogs := p.dataLogs + [log.(id := id)])
  }

  /** `handleUpdateDataLog`: the measurements with the same id replaced. */
  function UpdateDataLog(p: CompostProfile, updated: DataLog): CompostProfile {
    p.(dataLogs := ReplaceKey(p.dataLogs, LogId, updated))
  }

  /** `handleDeleteDataLog`: the measurements with that id left out. */
  function DeleteDataLog(p: CompostProfile, id: string): CompostProfile {
    p.(dataLogs := RemoveKey(p.dataLogs, LogId, id))
  }

  /** Updating replaces exactly the measurement with the same id, in place;
      everything else about the profile stays, the ids are kept, and doing
      it twice is doing it once. */
  lemma UpdateDataLogSpec(p: CompostProfile, updated: DataLog)
    ensures var r := UpdateDataLog(p, updated);
            |r.dataLogs| == |p.dataLogs| && r.(dataLogs := p.dataLogs) == p &&
            (forall i :: 0 <= i < |p.dataLogs| && p.dataLogs[i].id == updated.id ==> r.dataLogs[i] == updated) &&
            (forall i :: 0 <= i < |p.dataLogs| && p.dataLogs[i].id != updated.id ==> r.dataLogs[i] == p.dataLogs[i]) &&
            (forall i :: 0 <= i < |p.dataLogs| ==> r.dataLogs[i].id == p.dataLogs[i].id)
    ensures UpdateDataLog(UpdateDataLog(p, updated), updated) == UpdateDataLog(p, updated)
  {
    var r := UpdateDataLog(p, updated);
    assert forall i :: 0 <= i < |p.dataLogs| && p.dataLogs[i].id == updated.id ==> LogId(p.dataLogs[i]) == LogId(updated);
    ReplaceKeyIdempotent(p.dataLogs, LogId, updated);
  }

  /** Deleting leaves out exactly the measurements with that id; the others
      keep their order, nothing else about the profile changes, and with
      unique ids one measurement goes. */
  lemma DeleteDataLogSpec(p: CompostProfile, id: string)
    ensures var r := DeleteDataLog(p, id);
            r.(dataLogs := p.dataLogs) == p &&
            (forall i :: 0 <= i < |r.dataLogs| ==> r.dataLogs[i].id != id && r.dataLogs[i] in p.dataLogs) &&
            (forall i :: 0 <= i < |p.dataLogs| && p.dataLogs[i].id != id ==> p.dataLogs[i] in r.dataLogs)
    ensures UniqueIds(p.dataLogs, LogId) && (exists i :: 0 <= i < |p.dataLogs| && p.dataLogs[i].id == id) ==>
              |DeleteDataLog(p, id).dataLogs| == |p.dataLogs| - 1
  {
    var r := DeleteDataLog(p, id);
    assert forall i :: 0 <= i < |r.dataLogs| ==> LogId(r.dataLogs[i]) != id;
    if UniqueIds(p.dataLogs, LogId) && (exists i :: 0 <= i < |p.dataLogs| && p.dataLogs[i].id == id) {
      var i :| 0 <= i < |p.dataLogs| && p.dataLogs[i].id == id;
      assert LogId(p.dataLogs[i]) == id;
      RemoveUniqueKey(p.dataLogs, LogId, id);
    }
  }

  /** Deleting a measurement just added under a fresh id gives the profile back. */
  lemma DeleteUndoesAddDataLog(p: CompostProfile, log: DataLog, id: string)
    requires forall i :: 0 <= i < |p.dataLogs| ==> p.dataLogs[i].id != id
    ensures DeleteDataLog(AddDataLog(p, log, id), id) == p
  {
    assert forall i :: 0 <= i < |p.dataLogs| ==> LogId(p.dataLogs[i]) != id;
    RemoveAbsentKey(p.dataLogs, LogId, id);
    RemoveKeyAppend(p.dataLogs, [log.(id := id)], LogId, id);
  }

  /** Adding under a fresh id keeps the ids unique. */
  lemma AddDataLogKeepsIdsUnique(p: CompostProfile, log: DataLog, id: string)
    requires UniqueIds(p.dataLogs, LogId)
    requires forall i :: 0 <= i < |p.dataLogs| ==> p.dataLogs[i].id != id
    ensures UniqueIds(AddDataLog(p, log, id).dataLogs, LogId)
  {
  }

  // ---- Photos ----

  /** `handleAddImage`: the new photo, given the fresh id, appended. */
  function AddImage(p: CompostProfile, image: CompostImage, id: string): (r: CompostProfile)
    ensures r.images == p.images + [image.(id := id)]
    ensures r.(images := p.images) == p
  {
    p.(images := p.images + [image.(id := id)])
  }

  /** `handleDeleteImage`: the photos with that id left out. */
  function DeleteImage(p: CompostProfile, id: string): CompostProfile {
    p.(images := RemoveKey(p.images, ImageId, id))
  }

  /** Deleting leaves out exactly the photos with that id, keeps the others'
      order and the rest of the profile. */
  lemma DeleteImageSpec(p: CompostProfile, id: string, others: seq<CompostImage>)
    ensures var r := DeleteImage(p, id);
            r.(images := p.images) == p &&
            (forall i :: 0 <= i < |r.images| ==> r.images[i].id != id && r.images[i] in p.images) &&
            (forall i :: 0 <= i < |p.images| && p.images[i].id != id ==> p.images[i] in r.images)
    ensures RemoveKey(p.images + others, ImageId, id) == DeleteImage(p, id).images + RemoveKey(others, ImageId, id)
  {
    var r := DeleteImage(p, id);
    assert forall i :: 0 <= i < |r.images| ==> ImageId(r.images[i]) != id;
    RemoveKeyAppend(p.images, others, ImageId, id);
  }

  /** Deleting a photo just added under a fresh id gives the profile back. */
  lemma DeleteUndoesAddImage(p: CompostProfile, image: CompostImage, id: string)
    requires forall i :: 0 <= i < |p.images| ==> p.images[i].id != id
    ensures DeleteImage(AddImage(p, image, id), id) == p
  {
    assert forall i :: 0 <= i < |p.images| ==> ImageId(p.images[i]) != id;
    RemoveAbsentKey(p.images, ImageId, id);
    RemoveKeyAppend(p.images, [image.(id := id)], ImageId, id);
  }

  // ---- Importing ----

  /** The imported measurements, the `k`-th under the fresh id `newId(k)`. */
  function WithFreshIds(logs: seq<DataLog>, newId: nat -> string): (r: seq<DataLog>)
    ensures |r| == |logs|
    ensures forall k :: 0 <= k < |logs| ==> r[k] == logs[k].(id := newId(k))
  {
    seq(|logs|, k requires 0 <= k < |logs| => logs[k].(id := newId(k)))
  }

  /** `handleImportData`: the old and the imported measurements, newest first. */
  function ImportData(p: CompostProfile, imported: seq<DataLog>, newId: nat -> string): CompostProfile {
    p.(dataLogs := SortNewestFirst(p.dataLogs + WithFreshIds(imported, newId)))
  }

  /** An import keeps every old measurement and adds every imported one
      under its fresh id, nothing else; the result is newest first, and the
      rest of the profile is unchanged. */
  lemma ImportDataSpec(p: CompostProfile, imported: seq<DataLog>, newId: nat -> string)
    ensures var r := ImportData(p, imported, newId);
            r.(dataLogs := p.dataLogs) == p &&
            NewestFirst(r.dataLogs) &&
            multiset(r.dataLogs) == multiset(p.dataLogs) + multiset(WithFreshIds(imported, newId)) &&
            |r.dataLogs| == |p.dataLogs| + |imported|
  {
  }

  /** Importing nothing into measurements already newest first changes nothing. */
  lemma ImportNothing(p: CompostProfile, newId: nat -> string)
    requires NewestFirst(p.dataLogs)
    ensures ImportData(p, [], newId) == p
  {
    assert p.dataLogs + WithFreshIds([], newId) == p.dataLogs;
    SortSorted(p.dataLogs);
  }
}
