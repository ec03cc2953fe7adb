/** The ledger's data model (types.ts). A string field that may be missing is "" and a
    numeric one 0, as the readers that guard them (`x || ''`, `x || 0`) treat a missing
    value; the unguarded readers, which would fail on a missing field, are not modelled.
    The collection history alone is optional, because the handlers spell out
    `r.collections || []`. Money and areas are whole numbers. */
module Types {
  import opened Wrappers

  /** One instalment payment against a contract. */
  datatype CollectionEntry = CollectionEntry(id: string, date: string, amount: int, note: string)

  /** A payment not yet given an id: `Omit<CollectionEntry, 'id'>`. */
  datatype EntryDraft = EntryDraft(amount: int, date: string, note: string)

  /** One land-mortgage contract. */
  datatype LandRecord = LandRecord(
    id: string,
    title: string,
    area: int,
    location: string,
    amount: int,
    ownerName: string,
    mobile: string,
    duration: string,
    contractorName: string,
    contractorMobile: string,
    contractorAddress: string,
    collectionAmount: int,
    reference: string,
    startDate: string,
    notes: string,
    collections: Option<seq<CollectionEntry>>)

  datatype Theme = Light | Dark

  /** Process-wide settings. */
  datatype AppConfig = AppConfig(
    businessName: string,
    profitPercentage: int,
    warningDays: int,
    currency: string,
    theme: Theme,
    googleSheetUrl: string,
    spreadsheetUrl: string,
    autoSync: bool,
    restrictCollectionToExpired: bool)

  /** A record object of which any field may be absent: what the record form hands to the
      save handler, and the right-hand side of a shallow merge `{...r, ...patch}`. */
  datatype RecordPatch = RecordPatch(
    id: Option<string>,
    title: Option<string>,
    area: Option<int>,
    location: Option<string>,
    amount: Option<int>,
    ownerName: Option<string>,
    mobile: Option<string>,
    duration: Option<string>,
    contractorName: Option<string>,
    contractorMobile: Option<string>,
    contractorAddress: Option<string>,
    collectionAmount: Option<int>,
    reference: Option<string>,
    startDate: Option<string>,
    notes: Option<string>,
    collections: Option<seq<CollectionEntry>>)

  /** The patch `{}` that supplies no field. */
  const NoFields := RecordPatch(None, None, None, None, None, None, None, None,
                                None, None, None, None, None, None, None, None)

  /** `r.collections || []`. */
  function Entries(r: LandRecord): seq<CollectionEntry> {
    r.collections.GetOr([])
  }

  /** The sum of the entry amounts; no amount below zero means no sum below zero. */
  function SumAmounts(es: seq<CollectionEntry>): (s: int)
    ensures (forall k :: 0 <= k < |es| ==> es[k].amount >= 0) ==> s >= 0
  {
    if es == [] then 0
    else
      assert forall k :: 0 <= k < |es| - 1 ==> es[..|es| - 1][k] == es[k];
      SumAmounts(es[..|es| - 1]) + es[|es| - 1].amount
  }

  lemma {:induction false} SumAmountsAppend(a: seq<CollectionEntry>, b: seq<CollectionEntry>)
    ensures SumAmounts(a + b) == SumAmounts(a) + SumAmounts(b)
    decreases |b|
  {
    if b == [] {
      assert a + b == a;
    } else {
      SumAmountsAppend(a, b[..|b| - 1]);
      assert (a + b)[..|a + b| - 1] == a + b[..|b| - 1];
    }
  }

  /** The amount collected so far on a record (`totalCollectedBefore`, and one term of the
      dashboard's `collected`): the sum over its history, an absent history counting as
      empty. */
  function CollectedTotal(r: LandRecord): (t: int)
    ensures r.collections.None? ==> t == 0
    ensures (forall k :: 0 <= k < |Entries(r)| ==> Entries(r)[k].amount >= 0) ==> t >= 0
  {
    SumAmounts(Entries(r))
  }

  /** `{...r, ...p}`: every field the patch supplies replaces the record's, every other
      field keeps the record's value. */
  function MergeOver(r: LandRecord, p: RecordPatch): (m: LandRecord)
    ensures m.id == if p.id.Some? then p.id.value else r.id
    ensures m.collections == if p.collections.Some? then p.collections else r.collections
    ensures p == NoFields ==> m == r
  {
    LandRecord(
      p.id.GetOr(r.id), p.title.GetOr(r.title), p.area.GetOr(r.area),
      p.location.GetOr(r.location), p.amount.GetOr(r.amount), p.ownerName.GetOr(r.ownerName),
      p.mobile.GetOr(r.mobile), p.duration.GetOr(r.duration),
      p.contractorName.GetOr(r.contractorName), p.contractorMobile.GetOr(r.contractorMobile),
      p.contractorAddress.GetOr(r.contractorAddress),
      p.collectionAmount.GetOr(r.collectionAmount), p.reference.GetOr(r.reference),
      p.startDate.GetOr(r.startDate), p.notes.GetOr(r.notes),
      if p.collections.Some? then p.collections else r.collections)
  }

  /** A whole record seen as a patch that supplies every field. */
  function FromRecord(r: LandRecord): (p: RecordPatch)
  {
    RecordPatch(
      Some(r.id), Some(r.title), Some(r.area), Some(r.location), Some(r.amount),
      Some(r.ownerName), Some(r.mobile), Some(r.duration), Some(r.contractorName),
      Some(r.contractorMobile), Some(r.contractorAddress), Some(r.collectionAmount),
      Some(r.reference), Some(r.startDate), Some(r.notes), r.collections)
  }

  /** Merging a whole record over anything gives that record, except that an absent
      history in it leaves the old history in place. */
  lemma MergeWholeRecord(old_: LandRecord, r: LandRecord)
    ensures MergeOver(old_, FromRecord(r)) == r.(collections := if r.collections.Some? then r.collections else old_.collections)
  {
  }

  /** Merging the same patch twice is merging it once. */
  lemma MergeIdempotent(r: LandRecord, p: RecordPatch)
    ensures MergeOver(MergeOver(r, p), p) == MergeOver(r, p)
  {
  }
}
