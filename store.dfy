/** The state of the ledger screen (App.tsx) and its handlers: the record list, the record
    shown in the detail view, the record collected for, the record being edited, and the
    settings. Each handler replaces the record list by the one the functions of `Records`
    compute, and hands back the message it would post to the cloud sheet, if any. */
module Store {
  import opened Wrappers
  import opened Types
  import Records

  /** The body of a request to the cloud sheet: `{action, ...payload}`. */
  datatype SyncAction =
    | Add(record: LandRecord)
    | Edit(patch: RecordPatch)
    | Delete(id: string)

  /** A message is posted exactly when automatic sync is on and a sheet URL is configured. */
  function Outbox(config: AppConfig, action: SyncAction): (out: Option<SyncAction>)
    ensures out.Some? <==> config.autoSync && config.googleSheetUrl != ""
    ensures out.Some? ==> out.value == action
  {
    if config.autoSync && config.googleSheetUrl != "" then Some(action) else None
  }

  /** `records.map(r => { if (r.id === id) { updatedRec = f(r); return updatedRec; } return r; })`:
      the mapped list together with the value the callback last stored in `updatedRec`. */
  method MapCapturing(rs: seq<LandRecord>, id: string, f: LandRecord -> LandRecord)
    returns (out: seq<LandRecord>, updated: Option<LandRecord>)
    ensures out == Records.MapMatching(rs, id, f)
    ensures updated == Records.LastMatch(rs, id, f)
  {
    out := [];
    updated := None;
    for i := 0 to |rs|
      invariant out == Records.MapMatching(rs[..i], id, f)
      invariant updated == Records.LastMatch(rs[..i], id, f)
    {
      CaptureStep(rs, id, f, i);
      if rs[i].id == id {
        updated := Some(f(rs[i]));
        out := out + [f(rs[i])];
      } else {
        out := out + [rs[i]];
      }
    }
    assert rs[..|rs|] == rs;
  }

  /** One turn of the map: the prefix grows by the image of the next record, and the
      captured value becomes that image when the record matches. */
  lemma CaptureStep(rs: seq<LandRecord>, id: string, f: LandRecord -> LandRecord, i: int)
    requires 0 <= i < |rs|
    ensures Records.MapMatching(rs[..i + 1], id, f)
            == Records.MapMatching(rs[..i], id, f) + [if rs[i].id == id then f(rs[i]) else rs[i]]
    ensures Records.LastMatch(rs[..i + 1], id, f)
            == if rs[i].id == id then Some(f(rs[i])) else Records.LastMatch(rs[..i], id, f)
  {
    assert rs[..i + 1][..i] == rs[..i];
  }

  class Ledger {
    var records: seq<LandRecord>
    var config: AppConfig
    /** The record open in the detail view (`viewingRecord`). */
    var viewing: Option<LandRecord>
    /** The record the collection form is open for (`collectingFor`). */
    var collectingFor: Option<LandRecord>
    /** The record the record form edits (`editingRecord`). */
    var editing: Option<LandRecord>
    var formOpen: bool

    /** The screen as it starts, over the saved settings and records. */
    constructor (config: AppConfig, saved: seq<LandRecord>)
      ensures records == saved && this.config == config
      ensures viewing.None? && collectingFor.None? && editing.None? && !formOpen
    {
      records := saved;
      this.config := config;
      viewing := None;
      collectingFor := None;
      editing := None;
      formOpen := false;
    }

    /** `handleSaveRecord`: the list becomes the saved one, the form closes, and an edit
        posts the data as given while an add posts the new record. A fresh id keeps ids
        unique. */
    method SaveRecord(data: RecordPatch, freshId: string) returns (sync: Option<SyncAction>)
      modifies this
      ensures records == Records.SaveRecord(old(records), data, freshId)
      ensures Records.UniqueIds(old(records)) && freshId !in Records.Ids(old(records))
              ==> Records.UniqueIds(records)
      ensures !formOpen && editing.None?
      ensures config == old(config) && viewing == old(viewing) && collectingFor == old(collectingFor)
      ensures sync == Outbox(config, if Records.IsEditing(data) then Edit(data)
                                     else Add(Records.NewRecord(data, freshId)))
    {
      var action: SyncAction;
      if Records.IsEditing(data) {
        var updated;
        records, updated := MapCapturing(records, data.id.value, Records.MergeStep(data));
        Records.MapMatchingKeepsIds(old(records), data.id.value, Records.MergeStep(data));
        action := Edit(data);
      } else {
        var newRecord := Records.NewRecord(data, freshId);
        records := records + [newRecord];
        if Records.UniqueIds(old(records)) && freshId !in Records.Ids(old(records)) {
          Records.AddKeepsUniqueIds(old(records), data, freshId);
        }
        action := Add(newRecord);
      }
      formOpen := false;
      editing := None;
      sync := Outbox(config, action);
    }

    /** `handleDeleteRecord`: every record with the id leaves the list. */
    method DeleteRecord(id: string) returns (sync: Option<SyncAction>)
      modifies this`records
      ensures records == Records.DeleteRecord(old(records), id)
      ensures Records.UniqueIds(old(records)) ==> Records.UniqueIds(records)
      ensures sync == Outbox(config, Delete(id))
    {
      records := Records.DeleteRecord(records, id);
      Records.DeleteRecordSpec(old(records), id);
      sync := Outbox(config, Delete(id));
    }

    /** `handleDeleteCollectionEntry`: the entry leaves the history of the records with the
        record id; the detail view, when it shows that record, shows it as now stored; the
        updated record is posted when there was one. */
    method DeleteCollectionEntry(recordId: string, entryId: string) returns (sync: Option<SyncAction>)
      modifies this`records, this`viewing
      ensures records == Records.DeleteEntry(old(records), recordId, entryId)
      ensures var updated := Records.LastMatch(old(records), recordId, Records.DeleteEntryStep(entryId));
        && (old(viewing).Some? && old(viewing).value.id == recordId && updated.Some? ==> viewing == updated)
        && (!(old(viewing).Some? && old(viewing).value.id == recordId && updated.Some?) ==> viewing == old(viewing))
        && sync == (if updated.Some? then Outbox(config, Edit(FromRecord(updated.value))) else None)
      ensures Records.UniqueIds(old(records)) && viewing != old(viewing) ==> viewing.value in records
    {
      var updated;
      records, updated := MapCapturing(records, recordId, Records.DeleteEntryStep(entryId));
      if viewing.Some? && viewing.value.id == recordId && updated.Some? {
        viewing := updated;
      }
      if updated.Some? {
        sync := Outbox(config, Edit(FromRecord(updated.value)));
      } else {
        sync := None;
      }
      if Records.UniqueIds(old(records)) && viewing != old(viewing) {
        var k := StoredAt(old(records), recordId);
        Records.LastMatchIsStored(old(records), recordId, Records.DeleteEntryStep(entryId), k);
      }
    }

    /** Opening the collection form for a record (`setCollectingFor(r)`). */
    method StartCollecting(r: LandRecord)
      modifies this`collectingFor
      ensures collectingFor == Some(r)
    {
      collectingFor := Some(r);
    }

    /** `handleSaveCollection`: nothing happens unless the collection form is open; then the
        entries, with their fresh ids, are appended to the records with that record's id,
        the duration is replaced by a non-empty new one, and the form closes. The detail
        view is left as it was. */
    method SaveCollection(drafts: seq<EntryDraft>, newDuration: Option<string>, ids: seq<string>)
      returns (sync: Option<SyncAction>)
      requires |ids| == |drafts|
      modifies this`records, this`collectingFor
      ensures old(collectingFor).None? ==> records == old(records) && collectingFor.None? && sync.None?
      ensures old(collectingFor).Some? ==>
        var targetId := old(collectingFor).value.id;
        var updated := Records.LastMatch(old(records), targetId,
                         Records.AddEntriesStep(Records.WithIds(drafts, ids), newDuration));
        && records == Records.SaveCollection(old(records), targetId, drafts, ids, newDuration)
        && collectingFor.None?
        && sync == (if updated.Some? then Outbox(config, Edit(FromRecord(updated.value))) else None)
      ensures Records.UniqueIds(old(records)) ==> Records.UniqueIds(records)
    {
      sync := None;
      if collectingFor.None? {
        return;
      }
      var targetId := collectingFor.value.id;
      var step := Records.AddEntriesStep(Records.WithIds(drafts, ids), newDuration);
      var updated;
      records, updated := MapCapturing(records, targetId, step);
      Records.MapMatchingKeepsIds(old(records), targetId, step);
      collectingFor := None;
      if updated.Some? {
        sync := Outbox(config, Edit(FromRecord(updated.value)));
      }
    }

    /** The refresh from the cloud sheet, given what a successful fetch returned: without a
        sheet URL nothing happens; otherwise the fetched list replaces the local one. */
    method ApplyFetched(fetched: Option<seq<LandRecord>>)
      modifies this`records
      ensures config.googleSheetUrl == "" ==> records == old(records)
      ensures config.googleSheetUrl != "" ==> records == Records.Reconcile(old(records), fetched)
    {
      if config.googleSheetUrl != "" {
        records := Records.Reconcile(records, fetched);
      }
    }
  }

  /** The position of a record with the id, when one has it. */
  function StoredAt(rs: seq<LandRecord>, id: string): (k: int)
    requires exists k :: 0 <= k < |rs| && rs[k].id == id
    ensures 0 <= k < |rs| && rs[k].id == id
  {
    if rs[0].id == id then 0
    else
      assert exists k :: 0 <= k < |rs[1..]| && rs[1..][k].id == id by {
        var j :| 0 <= j < |rs| && rs[j].id == id;
        assert rs[1..][j - 1] == rs[j];
      }
      1 + StoredAt(rs[1..], id)
  }
}
