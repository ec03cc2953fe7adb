/** The record form (components/RecordForm.tsx): its fields as the strings typed in, how
    an existing record is loaded into them, the instalment derived from the land price, the
    check of the required fields, and the record handed to the save handler. */
module RecordForm {
  import opened Wrappers
  import opened Text
  import opened Calendar
  import opened Types
  import opened Durations
  import Records

  /** `formData`: every field as the text in its input. */
  datatype FormData = FormData(
    title: string,
    area: string,
    location: string,
    amount: string,
    ownerName: string,
    mobile: string,
    durationValue: string,
    durationUnit: string,
    contractorName: string,
    contractorMobile: string,
    contractorAddress: string,
    collectionAmount: string,
    startDate: string)

  /** The empty form: a one-year contract starting today. */
  function InitialForm(today: Date): (f: FormData)
    requires Valid(today)
    ensures f.durationValue == "1" && f.durationUnit == YearUnit && f.startDate == IsoDate(today)
    ensures f.title == "" && f.ownerName == "" && f.amount == "" && f.contractorName == ""
  {
    FormData("", "", "", "", "", "", "1", YearUnit, "", "", "", "", IsoDate(today))
  }

  /** `durationStr.split(' ')` with the defaults of the form: an empty duration reads as
      "1 বছর", an empty magnitude as "1", a missing or empty unit as বছর. */
  function LoadDuration(duration: string): (vu: (string, string))
    ensures vu.0 != "" && vu.1 != ""
  {
    var parts := Split(if duration == "" then "1 বছর" else duration, ' ');
    (if parts[0] == "" then "1" else parts[0],
     match PartAt(parts, 1) case None => YearUnit case Some(u) => if u == "" then YearUnit else u)
  }

  /** The form filled from an existing record (the `initialData` effect): strings as they
      are, numbers in decimal, the duration split in two, an empty start date as today. */
  function LoadForm(r: LandRecord, today: Date): (f: FormData)
    requires Valid(today)
    ensures f.durationValue != "" && f.durationUnit != ""
    ensures ParseNumber(f.area) == Some(r.area) && ParseNumber(f.amount) == Some(r.amount)
    ensures ParseNumber(f.collectionAmount) == Some(r.collectionAmount)
    ensures f.startDate == if r.startDate == "" then IsoDate(today) else r.startDate
  {
    ParseIntToString(r.area, "");
    ParseIntToString(r.amount, "");
    ParseIntToString(r.collectionAmount, "");
    assert IntToString(r.area) + "" == IntToString(r.area);
    assert IntToString(r.amount) + "" == IntToString(r.amount);
    assert IntToString(r.collectionAmount) + "" == IntToString(r.collectionAmount);
    var (v, u) := LoadDuration(r.duration);
    FormData(r.title, IntToString(r.area), r.location, IntToString(r.amount), r.ownerName, r.mobile,
             v, u, r.contractorName, r.contractorMobile, r.contractorAddress,
             IntToString(r.collectionAmount), if r.startDate == "" then IsoDate(today) else r.startDate)
  }

  /** The form the record form opens with: filled from the record being edited, or empty. */
  function OpenForm(initial: Option<LandRecord>, today: Date): (f: FormData)
    requires Valid(today)
    ensures f.durationValue != "" && f.durationUnit != "" && f.startDate != ""
    ensures initial.None? ==> !PreSave(f)
    ensures initial.Some? ==>
      (PreSave(f) <==> initial.value.title != "" && initial.value.ownerName != ""
                       && initial.value.contractorName != "")
  {
    match initial
    case None => InitialForm(today)
    case Some(r) => LoadForm(r, today)
  }

  /** A duration of one magnitude and one unit, neither empty nor holding a space, is loaded
      as those two. */
  lemma LoadDurationSplits(v: string, u: string)
    requires v != "" && u != "" && ' ' !in v && ' ' !in u
    ensures LoadDuration(v + " " + u) == (v, u)
  {
    SplitPair(v, u);
  }

  /** An empty duration loads as one year. */
  lemma LoadEmptyDuration()
    ensures LoadDuration("") == ("1", YearUnit)
  {
    SplitPair("1", YearUnit);
    assert "1 বছর" == "1" + " " + YearUnit;
  }

  // ---------------------------------------------------------------- the derived instalment

  /** `Math.round(price * (pct / 100))` for whole numbers: the nearest whole number to
      price * pct / 100, halves rounded up. */
  function Instalment(price: int, pct: int): (r: int)
    ensures 100 * r - 50 <= price * pct < 100 * r + 50
  {
    (price * pct + 50) / 100
  }

  /** `handleLandAmountChange`: the amount takes the typed text, and the instalment is
      recomputed from it (0 for text that is not a number); nothing else changes. */
  function AmountChanged(f: FormData, val: string, pct: int): (g: FormData)
    ensures g.(amount := f.amount, collectionAmount := f.collectionAmount) == f
    ensures g.amount == val
    ensures ParseNumber(g.collectionAmount) == Some(Instalment(NumberOrZero(val), pct))
  {
    var due := Instalment(NumberOrZero(val), pct);
    ParseIntToString(due, "");
    assert IntToString(due) + "" == IntToString(due);
    f.(amount := val, collectionAmount := IntToString(due))
  }

  /** The default profit of nine per cent on a land price of 100000 is 9000. */
  lemma InstalmentExample()
    ensures Instalment(100000, 9) == 9000
  {
  }

  // ---------------------------------------------------------------- saving

  /** `handlePreSave`: title, owner, amount and contractor must not be empty. */
  predicate PreSave(f: FormData)
    ensures PreSave(f) <==>
      Payload(f).title != Some("") && Payload(f).ownerName != Some("")
      && Payload(f).contractorName != Some("") && f.amount != ""
  {
    f.title != "" && f.ownerName != "" && f.amount != "" && f.contractorName != ""
  }

  /** The fields of the form as a record: numbers parsed (0 when not a number) and the
      duration joined with a space. It supplies no id, history, reference or notes. */
  function Payload(f: FormData): (p: RecordPatch)
    ensures p.title == Some(f.title) && p.ownerName == Some(f.ownerName)
    ensures p.contractorName == Some(f.contractorName)
    ensures p.id.None? && p.collections.None? && p.reference.None? && p.notes.None?
    ensures p.area == Some(NumberOrZero(f.area)) && p.amount == Some(NumberOrZero(f.amount))
    ensures p.collectionAmount == Some(NumberOrZero(f.collectionAmount))
    ensures p.duration == Some(f.durationValue + " " + f.durationUnit)
  {
    RecordPatch(
      None, Some(f.title), Some(NumberOrZero(f.area)), Some(f.location), Some(NumberOrZero(f.amount)),
      Some(f.ownerName), Some(f.mobile), Some(f.durationValue + " " + f.durationUnit),
      Some(f.contractorName), Some(f.contractorMobile), Some(f.contractorAddress),
      Some(NumberOrZero(f.collectionAmount)), None, Some(f.startDate), None, None)
  }

  /** `handleFinalSave`: the payload alone for a new record; for an edit, the payload spread
      over the record being edited, which keeps its id, history, reference and notes. */
  function FinalSave(f: FormData, initial: Option<LandRecord>): (p: RecordPatch)
    ensures initial.None? ==> p == Payload(f)
    ensures initial.Some? ==>
      && p.id == Some(initial.value.id) && p.collections == initial.value.collections
      && p.reference == Some(initial.value.reference) && p.notes == Some(initial.value.notes)
      && p.(id := None, collections := None, reference := None, notes := None) == Payload(f)
  {
    match initial
    case None => Payload(f)
    case Some(r) => FromRecord(MergeOver(r, Payload(f)))
  }

  /** A record added from a form that passed the check has a title, an owner and a
      contractor, a fresh id and an empty history. */
  lemma NewRecordHasRequiredFields(f: FormData, freshId: string)
    requires PreSave(f)
    ensures var r := Records.NewRecord(FinalSave(f, None), freshId);
      r.title != "" && r.ownerName != "" && r.contractorName != ""
      && r.title == f.title && r.ownerName == f.ownerName && r.contractorName == f.contractorName
      && r.id == freshId && r.collections == Some([])
  {
  }

  /** The amount typed last sets the saved instalment. */
  lemma SavedInstalment(f: FormData, val: string, pct: int)
    ensures FinalSave(AmountChanged(f, val, pct), None).collectionAmount
            == Some(Instalment(NumberOrZero(val), pct))
  {
  }

  /** A duration "<v> <u>" of one magnitude and one unit survives loading and saving. */
  lemma DurationRoundTrip(r: LandRecord, today: Date, v: string, u: string)
    requires Valid(today)
    requires r.duration == v + " " + u && v != "" && u != "" && ' ' !in v && ' ' !in u
    ensures FinalSave(LoadForm(r, today), Some(r)).duration == Some(r.duration)
  {
    LoadDurationSplits(v, u);
  }

  /** Editing a record whose duration is empty saves it as one year. */
  lemma EmptyDurationSavedAsOneYear(r: LandRecord, today: Date)
    requires Valid(today) && r.duration == ""
    ensures FinalSave(LoadForm(r, today), Some(r)).duration == Some("1 বছর")
  {
    LoadEmptyDuration();
    var f := LoadForm(r, today);
    assert f.durationValue == "1" && f.durationUnit == YearUnit;
    OneYearSpelled();
  }

  lemma OneYearSpelled()
    ensures "1" + " " + YearUnit == "1 বছর"
  {
  }

  /** Opening a record with a start date and a two-part duration and saving the form
      unchanged hands back the record itself. */
  lemma UnchangedEditRoundTrip(r: LandRecord, today: Date, v: string, u: string)
    requires Valid(today) && r.startDate != ""
    requires r.duration == v + " " + u && v != "" && u != "" && ' ' !in v && ' ' !in u
    ensures FinalSave(LoadForm(r, today), Some(r)) == FromRecord(r)
  {
    LoadDurationSplits(v, u);
  }

  /** Hence saving such a record, opened and left unchanged, leaves the ledger as it was. */
  lemma UnchangedEditLeavesLedger(rs: seq<LandRecord>, i: int, today: Date, v: string, u: string)
    requires Records.UniqueIds(rs) && 0 <= i < |rs| && Valid(today)
    requires rs[i].id != "" && rs[i].collections.Some? && rs[i].startDate != ""
    requires rs[i].duration == v + " " + u && v != "" && u != "" && ' ' !in v && ' ' !in u
    ensures Records.SaveRecord(rs, FinalSave(LoadForm(rs[i], today), Some(rs[i])), "") == rs
  {
    UnchangedEditRoundTrip(rs[i], today, v, u);
    Records.EditWithSameRecordIsNoop(rs, i);
  }
}
