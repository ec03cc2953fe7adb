/** The record-set operations of the ledger's save and delete handlers (App.tsx), as
    functions from the old list of records to the new one that replaces it in state. */
module Records {
  import opened Wrappers
  import opened Seqs
  import opened Types

  // ---------------------------------------------------------------- identity

  function Ids(rs: seq<LandRecord>): (ids: seq<string>)
    ensures |ids| == |rs| && forall k :: 0 <= k < |rs| ==> ids[k] == rs[k].id
  {
    seq(|rs|, k requires 0 <= k < |rs| => rs[k].id)
  }

  /** No two records share an id. */
  predicate UniqueIds(rs: seq<LandRecord>) {
    forall i, j :: 0 <= i < j < |rs| ==> rs[i].id != rs[j].id
  }

  /** No two entries of a history share an id. */
  predicate UniqueEntryIds(es: seq<CollectionEntry>) {
    forall i, j :: 0 <= i < j < |es| ==> es[i].id != es[j].id
  }

  /** Filtering keeps ids unique. */
  lemma {:induction false} FilterKeepsUniqueIds(rs: seq<LandRecord>, p: LandRecord -> bool)
    requires UniqueIds(rs)
    ensures UniqueIds(Filter(rs, p))
  {
    if rs != [] {
      FilterKeepsUniqueIds(rs[1..], p);
      var rest := Filter(rs[1..], p);
      if p(rs[0]) {
        var f := Filter(rs, p);
        assert f == [rs[0]] + rest;
        forall i, j | 0 <= i < j < |f| ensures f[i].id != f[j].id {
          if i == 0 {
            assert f[j] in rs[1..];
          } else {
            assert f[i] == rest[i - 1] && f[j] == rest[j - 1];
          }
        }
      }
    }
  }

  // ---------------------------------------------------------------- records.map(...)

  /** `records.map(r => r.id === id ? f(r) : r)`. */
  function MapMatching(rs: seq<LandRecord>, id: string, f: LandRecord -> LandRecord): (out: seq<LandRecord>)
    ensures |out| == |rs|
  {
    seq(|rs|, k requires 0 <= k < |rs| => if rs[k].id == id then f(rs[k]) else rs[k])
  }

  /** The value left in the variable the map callback assigns on every match: the image of
      the last record with that id, or nothing when none has it. */
  function LastMatch(rs: seq<LandRecord>, id: string, f: LandRecord -> LandRecord): (u: Option<LandRecord>)
    ensures u.None? <==> forall k :: 0 <= k < |rs| ==> rs[k].id != id
    ensures u.Some? ==> exists k :: 0 <= k < |rs| && rs[k].id == id && u.value == f(rs[k])
  {
    if rs == [] then None
    else if rs[|rs| - 1].id == id then Some(f(rs[|rs| - 1]))
    else
      var u := LastMatch(rs[..|rs| - 1], id, f);
      assert forall k :: 0 <= k < |rs| - 1 ==> rs[..|rs| - 1][k] == rs[k];
      u
  }

  /** With unique ids, the captured value is the updated record as it is stored in the new
      list. */
  lemma {:induction false} LastMatchIsStored(rs: seq<LandRecord>, id: string, f: LandRecord -> LandRecord, k: int)
    requires UniqueIds(rs) && 0 <= k < |rs| && rs[k].id == id
    ensures LastMatch(rs, id, f) == Some(MapMatching(rs, id, f)[k])
  {
    var n := |rs|;
    var m := MapMatching(rs, id, f);
    if k == n - 1 {
      assert m[k] == f(rs[k]);
    } else {
      assert rs[n - 1].id != id;
      var init := rs[..n - 1];
      assert init[k] == rs[k];
      assert UniqueIds(init);
      LastMatchIsStored(init, id, f, k);
      assert LastMatch(rs, id, f) == LastMatch(init, id, f);
      assert MapMatching(init, id, f)[k] == m[k];
    }
  }

  /** The records whose id differs are untouched, in place. */
  lemma MapMatchingOthersUnchanged(rs: seq<LandRecord>, id: string, f: LandRecord -> LandRecord, k: int)
    requires 0 <= k < |rs| && rs[k].id != id
    ensures MapMatching(rs, id, f)[k] == rs[k]
  {
  }

  /** When `f` keeps the id, ids are unchanged, so uniqueness is kept. */
  lemma MapMatchingKeepsIds(rs: seq<LandRecord>, id: string, f: LandRecord -> LandRecord)
    requires forall r: LandRecord :: r.id == id ==> f(r).id == id
    ensures Ids(MapMatching(rs, id, f)) == Ids(rs)
    ensures UniqueIds(rs) ==> UniqueIds(MapMatching(rs, id, f))
  {
  }

  // ---------------------------------------------------------------- save (add / edit)

  /** `if (recordData.id)`: a non-empty id means editing an existing record. */
  predicate IsEditing(data: RecordPatch) {
    data.id.Some? && data.id.value != ""
  }

  /** `{...recordData, id: generateId(), collections: []}`. */
  function NewRecord(data: RecordPatch, freshId: string): (r: LandRecord)
    ensures r.id == freshId && r.collections == Some([])
    ensures r == MergeOver(r, data.(id := None, collections := None))
  {
    LandRecord(
      freshId, data.title.GetOr(""), data.area.GetOr(0), data.location.GetOr(""),
      data.amount.GetOr(0), data.ownerName.GetOr(""), data.mobile.GetOr(""),
      data.duration.GetOr(""), data.contractorName.GetOr(""), data.contractorMobile.GetOr(""),
      data.contractorAddress.GetOr(""), data.collectionAmount.GetOr(0),
      data.reference.GetOr(""), data.startDate.GetOr(""), data.notes.GetOr(""), Some([]))
  }

  /** Adding: `[...records, newRecord]`. */
  function AddRecord(rs: seq<LandRecord>, data: RecordPatch, freshId: string): (out: seq<LandRecord>)
    ensures |out| == |rs| + 1 && out[..|rs|] == rs
    ensures out[|rs|].id == freshId && out[|rs|].collections == Some([])
  {
    rs + [NewRecord(data, freshId)]
  }

  /** The edit callback `r => ({...r, ...recordData})`. */
  function MergeStep(data: RecordPatch): LandRecord -> LandRecord {
    (r: LandRecord) => MergeOver(r, data)
  }

  /** Editing: the shallow merge of the data into every record with its id. */
  function EditRecord(rs: seq<LandRecord>, data: RecordPatch): (out: seq<LandRecord>)
    requires IsEditing(data)
    ensures Ids(out) == Ids(rs)
    ensures forall k :: 0 <= k < |rs| && rs[k].id != data.id.value ==> out[k] == rs[k]
    ensures forall k :: 0 <= k < |rs| && rs[k].id == data.id.value ==> out[k] == MergeOver(rs[k], data)
  {
    MapMatching(rs, data.id.value, MergeStep(data))
  }

  /** `handleSaveRecord`: edit when the data carries an id, add otherwise. */
  function SaveRecord(rs: seq<LandRecord>, data: RecordPatch, freshId: string): (out: seq<LandRecord>)
    ensures IsEditing(data) ==> Ids(out) == Ids(rs)
    ensures !IsEditing(data) ==> Ids(out) == Ids(rs) + [freshId] && out[..|rs|] == rs
  {
    if IsEditing(data) then EditRecord(rs, data) else AddRecord(rs, data, freshId)
  }

  /** Adding keeps ids unique when the new id is fresh. */
  lemma {:induction false} AddKeepsUniqueIds(rs: seq<LandRecord>, data: RecordPatch, freshId: string)
    requires UniqueIds(rs) && freshId !in Ids(rs)
    ensures UniqueIds(AddRecord(rs, data, freshId))
  {
    var out := AddRecord(rs, data, freshId);
    forall i, j | 0 <= i < j < |out| ensures out[i].id != out[j].id {
      if j == |rs| {
        assert Ids(rs)[i] == rs[i].id;
      }
    }
  }

  /** Editing keeps the length, the order and the ids; a record with another id is
      untouched, and a record with this id keeps every field the data does not supply. */
  lemma EditOnlyMergesMatches(rs: seq<LandRecord>, data: RecordPatch, k: int)
    requires IsEditing(data) && 0 <= k < |rs|
    ensures |EditRecord(rs, data)| == |rs|
    ensures Ids(EditRecord(rs, data)) == Ids(rs)
    ensures rs[k].id != data.id.value ==> EditRecord(rs, data)[k] == rs[k]
    ensures rs[k].id == data.id.value ==>
      var e := EditRecord(rs, data)[k];
      && (data.title.None? ==> e.title == rs[k].title)
      && (data.area.None? ==> e.area == rs[k].area)
      && (data.location.None? ==> e.location == rs[k].location)
      && (data.amount.None? ==> e.amount == rs[k].amount)
      && (data.ownerName.None? ==> e.ownerName == rs[k].ownerName)
      && (data.mobile.None? ==> e.mobile == rs[k].mobile)
      && (data.duration.None? ==> e.duration == rs[k].duration)
      && (data.contractorName.None? ==> e.contractorName == rs[k].contractorName)
      && (data.contractorMobile.None? ==> e.contractorMobile == rs[k].contractorMobile)
      && (data.contractorAddress.None? ==> e.contractorAddress == rs[k].contractorAddress)
      && (data.collectionAmount.None? ==> e.collectionAmount == rs[k].collectionAmount)
      && (data.reference.None? ==> e.reference == rs[k].reference)
      && (data.startDate.None? ==> e.startDate == rs[k].startDate)
      && (data.notes.None? ==> e.notes == rs[k].notes)
      && (data.collections.None? ==> e.collections == rs[k].collections)
  {
  }

  /** Editing an id no record has changes nothing. */
  lemma EditUnknownIdIsNoop(rs: seq<LandRecord>, data: RecordPatch)
    requires IsEditing(data)
    requires forall k :: 0 <= k < |rs| ==> rs[k].id != data.id.value
    ensures EditRecord(rs, data) == rs
  {
  }

  /** Saving a record of the list back over it, unchanged, leaves the list as it was. */
  lemma {:induction false} EditWithSameRecordIsNoop(rs: seq<LandRecord>, i: int)
    requires UniqueIds(rs) && 0 <= i < |rs| && rs[i].id != "" && rs[i].collections.Some?
    ensures EditRecord(rs, FromRecord(rs[i])) == rs
  {
    var out := EditRecord(rs, FromRecord(rs[i]));
    forall k | 0 <= k < |rs| ensures out[k] == rs[k] {
      if k != i {
        assert rs[k].id != rs[i].id;
      }
    }
  }

  // ---------------------------------------------------------------- delete a record

  /** The filter test `r => r.id !== id`. */
  function KeepsRecord(id: string): LandRecord -> bool {
    (r: LandRecord) => r.id != id
  }

  /** The filter test `c => c.id !== entryId`. */
  function KeepsEntry(entryId: string): CollectionEntry -> bool {
    (c: CollectionEntry) => c.id != entryId
  }

  /** `records.filter(r => r.id !== id)`. */
  function DeleteRecord(rs: seq<LandRecord>, id: string): (out: seq<LandRecord>)
    ensures |out| <= |rs|
    ensures forall k :: 0 <= k < |out| ==> out[k].id != id && out[k] in rs
  {
    Filter(rs, KeepsRecord(id))
  }

  /** Deleting removes every record with the id, keeps every other record, and keeps the
      relative order of those it keeps. */
  lemma DeleteRecordSpec(rs: seq<LandRecord>, id: string)
    ensures IsSubsequence(DeleteRecord(rs, id), rs)
    ensures forall k :: 0 <= k < |DeleteRecord(rs, id)| ==> DeleteRecord(rs, id)[k].id != id
    ensures forall r :: r in rs && r.id != id ==> r in DeleteRecord(rs, id)
    ensures UniqueIds(rs) ==> UniqueIds(DeleteRecord(rs, id))
  {
    FilterIsSubsequence(rs, KeepsRecord(id));
    forall r | r in rs && r.id != id ensures r in DeleteRecord(rs, id) {
      FilterMembership(rs, KeepsRecord(id), r);
    }
    if UniqueIds(rs) {
      FilterKeepsUniqueIds(rs, KeepsRecord(id));
    }
  }

  // ---------------------------------------------------------------- delete one collection entry

  /** `{...r, collections: (r.collections || []).filter(c => c.id !== entryId)}`. */
  function WithoutEntry(r: LandRecord, entryId: string): (out: LandRecord)
    ensures out.(collections := r.collections) == r
  {
    r.(collections := Some(Filter(Entries(r), KeepsEntry(entryId))))
  }

  /** The callback applied to the record that owns the entry. */
  function DeleteEntryStep(entryId: string): LandRecord -> LandRecord {
    (r: LandRecord) => WithoutEntry(r, entryId)
  }

  /** `records.map(r => r.id === recordId ? {...r, collections: ...filter(...)} : r)`. */
  function DeleteEntry(rs: seq<LandRecord>, recordId: string, entryId: string): (out: seq<LandRecord>)
    ensures Ids(out) == Ids(rs)
    ensures forall k :: 0 <= k < |rs| && rs[k].id != recordId ==> out[k] == rs[k]
    ensures forall k :: 0 <= k < |rs| && rs[k].id == recordId ==>
      out[k].collections.Some? && |out[k].collections.value| <= |Entries(rs[k])|
      && forall c :: c in out[k].collections.value ==> c in Entries(rs[k]) && c.id != entryId
  {
    MapMatching(rs, recordId, DeleteEntryStep(entryId))
  }

  /** Deleting an entry touches only the records with the id, and in them only the history:
      the history loses exactly the entries with the entry id, the others keep their order,
      and an absent history becomes an empty one. */
  lemma {:induction false} DeleteEntrySpec(rs: seq<LandRecord>, recordId: string, entryId: string, k: int)
    requires 0 <= k < |rs|
    ensures |DeleteEntry(rs, recordId, entryId)| == |rs|
    ensures Ids(DeleteEntry(rs, recordId, entryId)) == Ids(rs)
    ensures rs[k].id != recordId ==> DeleteEntry(rs, recordId, entryId)[k] == rs[k]
    ensures rs[k].id == recordId ==>
      var e := DeleteEntry(rs, recordId, entryId)[k];
      && e.(collections := rs[k].collections) == rs[k]
      && e.collections.Some?
      && IsSubsequence(e.collections.value, Entries(rs[k]))
      && (forall c :: c in e.collections.value <==> c in Entries(rs[k]) && c.id != entryId)
      && (rs[k].collections.None? ==> e.collections == Some([]))
  {
    if rs[k].id == recordId {
      var es := Entries(rs[k]);
      FilterIsSubsequence(es, KeepsEntry(entryId));
      forall c ensures c in Filter(es, KeepsEntry(entryId)) <==> c in es && c.id != entryId {
        FilterMembership(es, KeepsEntry(entryId), c);
      }
    }
  }

  // ---------------------------------------------------------------- save collections

  /** `entries.map(e => ({id: generateId(), ...e}))`, one fresh id per entry. */
  function WithIds(drafts: seq<EntryDraft>, ids: seq<string>): (es: seq<CollectionEntry>)
    requires |ids| == |drafts|
    ensures |es| == |drafts|
    ensures forall k :: 0 <= k < |es| ==>
      es[k].id == ids[k] && es[k].date == drafts[k].date
      && es[k].amount == drafts[k].amount && es[k].note == drafts[k].note
  {
    seq(|drafts|, k requires 0 <= k < |drafts| =>
      CollectionEntry(ids[k], drafts[k].date, drafts[k].amount, drafts[k].note))
  }

  /** `newDuration || r.duration`. */
  function ChosenDuration(newDuration: Option<string>, current: string): string {
    if newDuration.Some? && newDuration.value != "" then newDuration.value else current
  }

  /** `{...r, collections: [...(r.collections || []), ...newEntries], duration: newDuration || r.duration}`. */
  function WithNewEntries(r: LandRecord, es: seq<CollectionEntry>, newDuration: Option<string>): (out: LandRecord)
    ensures out.(collections := r.collections, duration := r.duration) == r
  {
    r.(collections := Some(Entries(r) + es), duration := ChosenDuration(newDuration, r.duration))
  }

  /** The callback applied to the record collected for. */
  function AddEntriesStep(es: seq<CollectionEntry>, newDuration: Option<string>): LandRecord -> LandRecord {
    (r: LandRecord) => WithNewEntries(r, es, newDuration)
  }

  /** `records.map(r => r.id === targetId ? {...r, collections: [...], duration} : r)`. */
  function SaveCollection(rs: seq<LandRecord>, targetId: string, drafts: seq<EntryDraft>,
                          ids: seq<string>, newDuration: Option<string>): (out: seq<LandRecord>)
    requires |ids| == |drafts|
    ensures Ids(out) == Ids(rs)
    ensures forall k :: 0 <= k < |rs| && rs[k].id != targetId ==> out[k] == rs[k]
    ensures forall k :: 0 <= k < |rs| && rs[k].id == targetId ==>
      out[k].collections == Some(Entries(rs[k]) + WithIds(drafts, ids))
  {
    MapMatching(rs, targetId, AddEntriesStep(WithIds(drafts, ids), newDuration))
  }

  /** Saving collections appends the new entries after the existing ones in the given
      order, replaces the duration only by a supplied non-empty one, and leaves every other
      field and every other record alone. */
  lemma SaveCollectionSpec(rs: seq<LandRecord>, targetId: string, drafts: seq<EntryDraft>,
                           ids: seq<string>, newDuration: Option<string>, k: int)
    requires |ids| == |drafts| && 0 <= k < |rs|
    ensures |SaveCollection(rs, targetId, drafts, ids, newDuration)| == |rs|
    ensures Ids(SaveCollection(rs, targetId, drafts, ids, newDuration)) == Ids(rs)
    ensures rs[k].id != targetId ==> SaveCollection(rs, targetId, drafts, ids, newDuration)[k] == rs[k]
    ensures rs[k].id == targetId ==>
      var e := SaveCollection(rs, targetId, drafts, ids, newDuration)[k];
      && e.(collections := rs[k].collections, duration := rs[k].duration) == rs[k]
      && e.collections == Some(Entries(rs[k]) + WithIds(drafts, ids))
      && (newDuration.None? || newDuration == Some("") ==> e.duration == rs[k].duration)
      && (newDuration.Some? && newDuration.value != "" ==> e.duration == newDuration.value)
  {
  }

  /** Appending entries whose ids are fresh keeps a history's entry ids unique. */
  lemma {:induction false} WithIdsKeepsUniqueEntryIds(es: seq<CollectionEntry>, drafts: seq<EntryDraft>, ids: seq<string>)
    requires |ids| == |drafts|
    requires UniqueEntryIds(es)
    requires forall i, j :: 0 <= i < j < |ids| ==> ids[i] != ids[j]
    requires forall i, k :: 0 <= i < |ids| && 0 <= k < |es| ==> ids[i] != es[k].id
    ensures UniqueEntryIds(es + WithIds(drafts, ids))
  {
    var all := es + WithIds(drafts, ids);
    forall i, j | 0 <= i < j < |all| ensures all[i].id != all[j].id {
      if j >= |es| {
        assert all[j].id == ids[j - |es|];
        if i >= |es| {
          assert all[i].id == ids[i - |es|];
        }
      }
    }
  }

  /** Deleting an entry keeps a history's entry ids unique. */
  lemma DeleteKeepsUniqueEntryIds(r: LandRecord, entryId: string)
    requires UniqueEntryIds(Entries(r))
    ensures UniqueEntryIds(Entries(WithoutEntry(r, entryId)))
  {
    var es := Entries(r);
    var f := Filter(es, KeepsEntry(entryId));
    FilterUniqueEntryIds(es, KeepsEntry(entryId));
  }

  lemma {:induction false} FilterUniqueEntryIds(es: seq<CollectionEntry>, p: CollectionEntry -> bool)
    requires UniqueEntryIds(es)
    ensures UniqueEntryIds(Filter(es, p))
  {
    if es != [] {
      FilterUniqueEntryIds(es[1..], p);
      var rest := Filter(es[1..], p);
      if p(es[0]) {
        var f := Filter(es, p);
        forall i, j | 0 <= i < j < |f| ensures f[i].id != f[j].id {
          if i == 0 {
            assert f[j] in es[1..];
          } else {
            assert f[i] == rest[i - 1] && f[j] == rest[j - 1];
          }
        }
      }
    }
  }

  // ---------------------------------------------------------------- cloud refresh

  /** The refresh rule: when the fetched list differs from the local one it replaces it
      (`result.records || []`); the comparison only avoids a needless update, so the fetched
      list always wins. */
  function Reconcile(local: seq<LandRecord>, fetched: Option<seq<LandRecord>>): (r: seq<LandRecord>)
    ensures r == fetched.GetOr([])
  {
    match fetched
    case None => []
    case Some(remote) => if remote != local then remote else local
  }
}
