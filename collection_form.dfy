/** The collection form (components/CollectionForm.tsx): the recurring-instalment
    generator, the running totals, the expiry preview, the duration-extension rule, and the
    two submit steps. The current date is a parameter `now`, the date field's default a
    parameter `today`. */
module CollectionForm {
  import opened Wrappers
  import opened Seqs
  import opened Text
  import opened Calendar
  import opened Types
  import opened Durations
  import Records
  import opened Views

  datatype Mode = Single | Bulk

  datatype Frequency = Monthly | Quarterly | Yearly

  /** The form's own state. `amount`, `extValue` and the date are the raw input strings. */
  datatype FormState = FormState(
    mode: Mode,
    amount: string,
    date: string,
    note: string,
    isExtending: bool,
    extValue: string,
    extUnit: string,
    frequency: Frequency)

  /** The form as it opens for a record: one payment of the agreed instalment, dated today,
      no extension (one year offered), monthly generation. */
  function InitialState(r: LandRecord, today: Date): (s: FormState)
    requires Valid(today)
    ensures s.mode == Single && !s.isExtending && s.frequency == Monthly
    ensures ParseNumber(s.amount) == Some(r.collectionAmount)
    ensures ParseIsoDate(s.date) == Some(today) <== 0 <= today.year <= 9999
    ensures s.extValue == "1" && s.extUnit == YearUnit && s.note == ""
  {
    ParseIntToString(r.collectionAmount, "");
    assert IntToString(r.collectionAmount) + "" == IntToString(r.collectionAmount);
    var s := FormState(Single, IntToString(r.collectionAmount), IsoDate(today), "", false, "1", YearUnit, Monthly);
    if 0 <= today.year <= 9999 then
      IsoDateRoundTrip(today);
      s
    else s
  }

  // ---------------------------------------------------------------- the recurring generator

  /** Months in one period of the frequency. */
  function Period(freq: Frequency): nat {
    match freq
    case Monthly => 1
    case Quarterly => 3
    case Yearly => 12
  }

  /** `increment()`: one period later, by `setMonth(+1)`, `setMonth(+3)` or `setFullYear(+1)`. */
  function Step(d: Date, freq: Frequency): (r: Date)
    requires Valid(d)
    ensures Valid(r) && Before(d, r)
    ensures MonthIndex(r) == MonthIndex(d) + Period(freq)
  {
    match freq
    case Monthly =>
      AddMonthsAdvances(d, 1);
      AddMonths(d, 1)
    case Quarterly =>
      AddMonthsAdvances(d, 3);
      AddMonths(d, 3)
    case Yearly =>
      AddYearsIsTwelveMonths(d, 1);
      AddMonthsAdvances(d, 12);
      AddYears(d, 1)
  }

  /** The dates the loop visits from `cur` on: `cur`, its step, the step of that, ... as long
      as they are not after `now`. */
  function Candidates(cur: Date, freq: Frequency, now: Date): (cs: seq<Date>)
    requires Valid(cur) && Valid(now)
    ensures forall k :: 0 <= k < |cs| ==> Valid(cs[k]) && NotAfter(cs[k], now)
    ensures forall k :: 0 <= k < |cs| ==> MonthIndex(cur) <= MonthIndex(cs[k])
    decreases MonthIndex(now) - MonthIndex(cur)
  {
    if Before(now, cur) then []
    else
      MonthIndexOrder(cur, now);
      [cur] + Candidates(Step(cur, freq), freq, now)
  }

  /** The chain starts at `cur`, steps by the period, and stops only where the next step
      would pass `now`: it is empty exactly when `cur` is already after `now`. */
  lemma CandidatesChain(cur: Date, freq: Frequency, now: Date)
    requires Valid(cur) && Valid(now)
    ensures var cs := Candidates(cur, freq, now);
      && (cs == [] <==> Before(now, cur))
      && (cs != [] ==> cs[0] == cur && Before(now, Step(cs[|cs| - 1], freq)))
      && (forall k :: 0 < k < |cs| ==> cs[k] == Step(cs[k - 1], freq))
  {
    CandidatesHead(cur, freq, now);
    CandidatesLast(cur, freq, now);
    CandidatesSteps(cur, freq, now);
  }

  lemma CandidatesHead(cur: Date, freq: Frequency, now: Date)
    requires Valid(cur) && Valid(now)
    ensures var cs := Candidates(cur, freq, now);
      (cs == [] <==> Before(now, cur)) && (cs != [] ==> cs[0] == cur)
  {
  }

  lemma {:induction false} CandidatesLast(cur: Date, freq: Frequency, now: Date)
    requires Valid(cur) && Valid(now)
    ensures var cs := Candidates(cur, freq, now);
      cs != [] ==> Before(now, Step(cs[|cs| - 1], freq))
    decreases MonthIndex(now) - MonthIndex(cur)
  {
    if !Before(now, cur) {
      MonthIndexOrder(cur, now);
      var next := Step(cur, freq);
      CandidatesLast(next, freq, now);
      var rest := Candidates(next, freq, now);
      var cs := Candidates(cur, freq, now);
      assert cs == [cur] + rest;
      if rest != [] {
        assert cs[|cs| - 1] == rest[|rest| - 1];
      }
    }
  }

  lemma CandidatesSteps(cur: Date, freq: Frequency, now: Date)
    requires Valid(cur) && Valid(now)
    ensures var cs := Candidates(cur, freq, now);
      forall k :: 0 < k < |cs| ==> cs[k] == Step(cs[k - 1], freq)
  {
    forall k | 0 < k < |Candidates(cur, freq, now)| {
      CandidatesStepAt(cur, freq, now, k);
    }
  }

  lemma {:induction false} CandidatesStepAt(cur: Date, freq: Frequency, now: Date, k: int)
    requires Valid(cur) && Valid(now) && 0 < k < |Candidates(cur, freq, now)|
    ensures var cs := Candidates(cur, freq, now);
      cs[k] == Step(cs[k - 1], freq)
    decreases k
  {
    var cs := Candidates(cur, freq, now);
    CandidatesHead(cur, freq, now);
    MonthIndexOrder(cur, now);
    var next := Step(cur, freq);
    var rest := Candidates(next, freq, now);
    assert cs == [cur] + rest;
    CandidatesHead(next, freq, now);
    if k > 1 {
      CandidatesStepAt(next, freq, now, k - 1);
      assert cs[k] == rest[k - 1] && cs[k - 1] == rest[k - 2];
    } else {
      assert cs[1] == rest[0];
    }
  }

  /** Month indices strictly increase along the dates. */
  predicate IncreasingMonths(ds: seq<Date>) {
    forall i, j :: 0 <= i < j < |ds| ==> MonthIndex(ds[i]) < MonthIndex(ds[j])
  }

  lemma CandidatesIncreasing(cur: Date, freq: Frequency, now: Date)
    requires Valid(cur) && Valid(now)
    ensures IncreasingMonths(Candidates(cur, freq, now))
  {
    var cs := Candidates(cur, freq, now);
    forall i, j | 0 <= i < j < |cs| ensures MonthIndex(cs[i]) < MonthIndex(cs[j]) {
      CandidatesIncreasingAt(cur, freq, now, i, j);
    }
  }

  lemma {:induction false} CandidatesIncreasingAt(cur: Date, freq: Frequency, now: Date, i: int, j: int)
    requires Valid(cur) && Valid(now) && 0 <= i < j < |Candidates(cur, freq, now)|
    ensures var cs := Candidates(cur, freq, now);
      MonthIndex(cs[i]) < MonthIndex(cs[j])
    decreases j
  {
    CandidatesStepAt(cur, freq, now, j);
    if i < j - 1 {
      CandidatesIncreasingAt(cur, freq, now, i, j - 1);
    }
  }

  /** Filtering keeps month indices increasing. */
  lemma {:induction false} FilterIncreasing(ds: seq<Date>, p: Date -> bool)
    requires IncreasingMonths(ds)
    ensures IncreasingMonths(Filter(ds, p))
  {
    if ds != [] {
      var tail := ds[1..];
      assert IncreasingMonths(tail) by {
        forall i, j | 0 <= i < j < |tail| ensures MonthIndex(tail[i]) < MonthIndex(tail[j]) {
          assert tail[i] == ds[i + 1] && tail[j] == ds[j + 1];
        }
      }
      FilterIncreasing(tail, p);
      var rest := Filter(tail, p);
      if p(ds[0]) {
        assert Filter(ds, p) == [ds[0]] + rest;
        forall k | 0 <= k < |rest| ensures MonthIndex(ds[0]) < MonthIndex(rest[k]) {
          assert rest[k] in tail;
          var m :| 0 <= m < |tail| && tail[m] == rest[k];
          assert ds[m + 1] == rest[k];
        }
        PrependIncreasing(ds[0], rest);
      } else {
        assert Filter(ds, p) == rest;
      }
    }
  }

  lemma PrependIncreasing(d: Date, ds: seq<Date>)
    requires IncreasingMonths(ds)
    requires forall k :: 0 <= k < |ds| ==> MonthIndex(d) < MonthIndex(ds[k])
    ensures IncreasingMonths([d] + ds)
  {
    var e := [d] + ds;
    forall i, j | 0 <= i < j < |e| ensures MonthIndex(e[i]) < MonthIndex(e[j]) {
      assert e[j] == ds[j - 1];
      if i > 0 {
        assert e[i] == ds[i - 1];
      }
    }
  }

  /** `c.date.startsWith(key)` for some entry of the history. */
  predicate Covered(key: string, existing: seq<CollectionEntry>) {
    exists k :: 0 <= k < |existing| && StartsWith(existing[k].date, key)
  }

  /** `dateStr.substring(0, 7)`: the YYYY-MM part of the date. */
  function MonthKey(d: Date): (key: string)
    requires Valid(d)
    ensures |key| == 7 && key == IsoDate(d)[..7]
  {
    Take(IsoDate(d), 7)
  }

  /** The test for a month no entry of the history already falls in. */
  function Uncovered(existing: seq<CollectionEntry>): Date -> bool {
    (d: Date) => Valid(d) && !Covered(MonthKey(d), existing)
  }

  const AutoNotePrefix := "স্বয়ংক্রিয় রিকারিং কিস্তি ("

  /** The name of a frequency in the generated note. */
  function FrequencyName(freq: Frequency): string {
    match freq
    case Monthly => "মাসিক"
    case Quarterly => "ত্রৈমাসিক"
    case Yearly => "বার্ষিক"
  }

  /** The note of a generated instalment, `স্বয়ংক্রিয় রিকারিং কিস্তি (<frequency>)`: reading
      it back names the frequency it was generated with. */
  function AutoNote(freq: Frequency): (note: string)
    ensures NoteFrequency(note) == Some(freq)
  {
    var note := AutoNotePrefix + FrequencyName(freq) + ")";
    assert note[..|AutoNotePrefix|] == AutoNotePrefix;
    assert note[|AutoNotePrefix|..|note| - 1] == FrequencyName(freq);
    note
  }

  /** The frequency a note names, when it has the form of a generated note. */
  function NoteFrequency(note: string): Option<Frequency> {
    var p := |AutoNotePrefix|;
    if |note| > p && note[..p] == AutoNotePrefix && note[|note| - 1] == ')' then
      var name := note[p..|note| - 1];
      if name == FrequencyName(Monthly) then Some(Monthly)
      else if name == FrequencyName(Quarterly) then Some(Quarterly)
      else if name == FrequencyName(Yearly) then Some(Yearly)
      else None
    else None
  }

  /** One instalment of `amount` on each of the dates. */
  function ToDrafts(ds: seq<Date>, amount: int, note: string): (es: seq<EntryDraft>)
    requires forall k :: 0 <= k < |ds| ==> Valid(ds[k])
    ensures |es| == |ds|
    ensures forall k :: 0 <= k < |ds| ==> es[k] == EntryDraft(amount, IsoDate(ds[k]), note)
  {
    if ds == [] then []
    else
      var rest := ToDrafts(ds[1..], amount, note);
      assert forall k :: 1 <= k < |ds| ==> ds[1..][k - 1] == ds[k];
      [EntryDraft(amount, IsoDate(ds[0]), note)] + rest
  }

  /** The dates generated from `cur` on for the history: the candidates whose month is not
      covered yet. */
  function PendingFrom(cur: Date, freq: Frequency, now: Date, existing: seq<CollectionEntry>): (ds: seq<Date>)
    requires Valid(cur) && Valid(now)
    ensures forall k :: 0 <= k < |ds| ==> Valid(ds[k]) && NotAfter(ds[k], now)
  {
    Filter(Candidates(cur, freq, now), Uncovered(existing))
  }

  /** The generated dates: none outside BULK mode or when the start date is not a date;
      otherwise the pending dates from one period after the start. */
  function PendingDates(mode: Mode, freq: Frequency, r: LandRecord, now: Date): (ds: seq<Date>)
    requires Valid(now)
    ensures forall k :: 0 <= k < |ds| ==> Valid(ds[k]) && NotAfter(ds[k], now)
  {
    if mode != Bulk then []
    else
      match ParseIsoDate(r.startDate)
      case None => []
      case Some(start) => PendingFrom(Step(start, freq), freq, now, Entries(r))
  }

  /** `bulkPreview`, as a value: nothing outside BULK mode, and every instalment is of the
      record's amount with a note naming the frequency. */
  function BulkPreview(mode: Mode, freq: Frequency, r: LandRecord, now: Date): (es: seq<EntryDraft>)
    requires Valid(now)
    ensures mode != Bulk ==> es == []
    ensures forall k :: 0 <= k < |es| ==>
      es[k].amount == r.collectionAmount && NoteFrequency(es[k].note) == Some(freq)
  {
    ToDrafts(PendingDates(mode, freq, r, now), r.collectionAmount, AutoNote(freq))
  }

  /** `bulkPreview`: step a date from the start through the periods up to now, and collect
      an instalment for each month the history does not cover yet. */
  method GenerateBulk(mode: Mode, freq: Frequency, r: LandRecord, now: Date) returns (entries: seq<EntryDraft>)
    requires Valid(now)
    ensures entries == BulkPreview(mode, freq, r, now)
  {
    if mode != Bulk {
      return [];
    }
    var start := ParseIsoDate(r.startDate);
    if start.None? {
      // An invalid start date never compares as not after now.
      return [];
    }
    entries := GenerateFrom(Step(start.value, freq), freq, now, Entries(r), r.collectionAmount, AutoNote(freq));
  }

  /** The loop of `bulkPreview`, from the first date it considers: `current` advances by
      `increment()` while it is not after now, and a month the history does not cover yet
      gets an instalment. */
  method GenerateFrom(first: Date, freq: Frequency, now: Date, existing: seq<CollectionEntry>, amount: int, note: string)
    returns (entries: seq<EntryDraft>)
    requires Valid(first) && Valid(now)
    ensures entries == ToDrafts(PendingFrom(first, freq, now, existing), amount, note)
  {
    var current := first;
    entries := [];
    while !Before(now, current)
      invariant Valid(current)
      invariant entries + ToDrafts(PendingFrom(current, freq, now, existing), amount, note)
                == ToDrafts(PendingFrom(first, freq, now, existing), amount, note)
      decreases MonthIndex(now) - MonthIndex(current)
    {
      MonthIndexOrder(current, now);
      var next := Step(current, freq);
      var dateStr := IsoDate(current);
      var covered := Covered(Take(dateStr, 7), existing);
      DraftsStep(current, freq, now, existing, amount, note);
      if !covered {
        var entry := EntryDraft(amount, dateStr, note);
        var rest := ToDrafts(PendingFrom(next, freq, now, existing), amount, note);
        AppendAssociative(entries, [entry], rest);
        entries := entries + [entry];
      }
      current := next;
    }
    assert ToDrafts(PendingFrom(current, freq, now, existing), amount, note) == [];
  }

  /** One turn of the loop in terms of instalments: the date's instalment, when its month is
      uncovered, followed by the instalments from its step. */
  lemma DraftsStep(cur: Date, freq: Frequency, now: Date, existing: seq<CollectionEntry>, amount: int, note: string)
    requires Valid(cur) && Valid(now) && !Before(now, cur)
    ensures ToDrafts(PendingFrom(cur, freq, now, existing), amount, note)
      == (if Covered(MonthKey(cur), existing) then [] else [EntryDraft(amount, IsoDate(cur), note)])
         + ToDrafts(PendingFrom(Step(cur, freq), freq, now, existing), amount, note)
  {
    PendingFromUnfold(cur, freq, now, existing);
    var head := if Covered(MonthKey(cur), existing) then [] else [cur];
    ToDraftsAppend(head, PendingFrom(Step(cur, freq), freq, now, existing), amount, note);
    assert ToDrafts(head, amount, note)
      == if Covered(MonthKey(cur), existing) then [] else [EntryDraft(amount, IsoDate(cur), note)];
  }

  lemma {:induction false} ToDraftsAppend(a: seq<Date>, b: seq<Date>, amount: int, note: string)
    requires forall k :: 0 <= k < |a| ==> Valid(a[k])
    requires forall k :: 0 <= k < |b| ==> Valid(b[k])
    ensures ToDrafts(a + b, amount, note) == ToDrafts(a, amount, note) + ToDrafts(b, amount, note)
    decreases |a|
  {
    if a != [] {
      assert (a + b)[1..] == a[1..] + b;
      ToDraftsAppend(a[1..], b, amount, note);
    }
  }

  /** One turn of the loop: the date is generated when its month is uncovered, and the rest
      come from its step. */
  lemma PendingFromUnfold(cur: Date, freq: Frequency, now: Date, existing: seq<CollectionEntry>)
    requires Valid(cur) && Valid(now) && !Before(now, cur)
    ensures PendingFrom(cur, freq, now, existing)
      == (if Covered(MonthKey(cur), existing) then [] else [cur]) + PendingFrom(Step(cur, freq), freq, now, existing)
  {
    var cs := Candidates(cur, freq, now);
    assert cs == [cur] + Candidates(Step(cur, freq), freq, now);
    assert cs[1..] == Candidates(Step(cur, freq), freq, now);
  }

  /** What the generator promises: every instalment is of the agreed amount, carries the
      frequency's note, and falls on a generated date; the generated dates are not after
      now, fall in months no earlier entry covers, strictly increase, and are all the
      candidate dates whose month is uncovered. */
  lemma BulkPreviewSpec(mode: Mode, freq: Frequency, r: LandRecord, now: Date, start: Date)
    requires Valid(now) && mode == Bulk && ParseIsoDate(r.startDate) == Some(start)
    ensures var es := BulkPreview(mode, freq, r, now);
      var ds := PendingDates(mode, freq, r, now);
      var cs := Candidates(Step(start, freq), freq, now);
      && |es| == |ds|
      && (forall k :: 0 <= k < |es| ==>
            es[k].amount == r.collectionAmount && es[k].note == AutoNote(freq)
            && es[k].date == IsoDate(ds[k]) && NotAfter(ds[k], now)
            && !Covered(Take(es[k].date, 7), Entries(r)))
      && (forall i, j :: 0 <= i < j < |ds| ==> Before(ds[i], ds[j]))
      && IsSubsequence(ds, cs)
      && (forall d :: d in cs ==> (d in ds <==> !Covered(MonthKey(d), Entries(r))))
  {
    var ds := PendingDates(mode, freq, r, now);
    var cs := Candidates(Step(start, freq), freq, now);
    var u := Uncovered(Entries(r));
    assert ds == Filter(cs, u);
    CandidatesIncreasing(Step(start, freq), freq, now);
    FilterIncreasing(cs, u);
    forall i, j | 0 <= i < j < |ds| ensures Before(ds[i], ds[j]) {
      MonthIndexOrder(ds[i], ds[j]);
    }
    FilterIsSubsequence(cs, u);
    forall d | d in cs ensures d in ds <==> !Covered(MonthKey(d), Entries(r)) {
      FilterMembership(cs, u, d);
    }
  }

  /** Outside BULK mode, or with a start date that is not a date, nothing is generated. */
  lemma BulkPreviewEmpty(mode: Mode, freq: Frequency, r: LandRecord, now: Date)
    requires Valid(now) && (mode != Bulk || ParseIsoDate(r.startDate).None?)
    ensures BulkPreview(mode, freq, r, now) == []
  {
  }

  /** The first date the loop considers is one period after the start; it is generated when
      it is not after now and its month is uncovered. */
  lemma BulkPreviewFirst(freq: Frequency, r: LandRecord, now: Date, start: Date)
    requires Valid(now) && ParseIsoDate(r.startDate) == Some(start)
    requires NotAfter(Step(start, freq), now) && !Covered(MonthKey(Step(start, freq)), Entries(r))
    ensures BulkPreview(Bulk, freq, r, now) != []
    ensures BulkPreview(Bulk, freq, r, now)[0].date == IsoDate(Step(start, freq))
  {
    CandidatesChain(Step(start, freq), freq, now);
    PendingFromUnfold(Step(start, freq), freq, now, Entries(r));
  }

  /** For four-digit years, no two generated instalments fall in the same month: their
      YYYY-MM prefixes differ. */
  lemma BulkPreviewMonthsDistinct(freq: Frequency, r: LandRecord, now: Date, start: Date)
    requires Valid(now) && ParseIsoDate(r.startDate) == Some(start)
    requires 0 <= start.year && now.year <= 9999
    ensures var es := BulkPreview(Bulk, freq, r, now);
      forall i, j :: 0 <= i < j < |es| ==> Take(es[i].date, 7) != Take(es[j].date, 7)
  {
    var es := BulkPreview(Bulk, freq, r, now);
    var ds := PendingDates(Bulk, freq, r, now);
    var first := Step(start, freq);
    var cs := Candidates(first, freq, now);
    CandidatesIncreasing(first, freq, now);
    FilterIncreasing(cs, Uncovered(Entries(r)));
    forall i, j | 0 <= i < j < |es| ensures Take(es[i].date, 7) != Take(es[j].date, 7) {
      PendingInRange(freq, r, now, start, i);
      PendingInRange(freq, r, now, start, j);
      DistinctMonthKeys(ds[i], ds[j]);
    }
  }

  /** Dates of different months, with four-digit years, have different YYYY-MM keys. */
  lemma DistinctMonthKeys(a: Date, b: Date)
    requires Valid(a) && 0 <= a.year <= 9999 && Valid(b) && 0 <= b.year <= 9999
    requires MonthIndex(a) < MonthIndex(b)
    ensures MonthKey(a) != MonthKey(b)
  {
    if MonthKey(a) == MonthKey(b) {
      MonthPrefixDeterminesMonth(a, b);
    }
  }

  /** A generated date lies between the start's year and now's year. */
  lemma PendingInRange(freq: Frequency, r: LandRecord, now: Date, start: Date, k: int)
    requires Valid(now) && ParseIsoDate(r.startDate) == Some(start)
    requires 0 <= k < |PendingDates(Bulk, freq, r, now)|
    ensures start.year <= PendingDates(Bulk, freq, r, now)[k].year <= now.year
  {
    var first := Step(start, freq);
    var ds := PendingDates(Bulk, freq, r, now);
    assert ds == Filter(Candidates(first, freq, now), Uncovered(Entries(r)));
    YearInRange(first, freq, now, ds[k]);
  }

  /** A candidate lies between the first date's year and now's year. */
  lemma YearInRange(cur: Date, freq: Frequency, now: Date, d: Date)
    requires Valid(cur) && Valid(now) && d in Candidates(cur, freq, now)
    ensures cur.year <= d.year <= now.year
  {
    var cs := Candidates(cur, freq, now);
    var k :| 0 <= k < |cs| && cs[k] == d;
    assert MonthIndex(cur) <= MonthIndex(d) && NotAfter(d, now);
  }

  // ---------------------------------------------------------------- totals

  /** The sum of the draft amounts; no amount below zero means no sum below zero. */
  function SumDrafts(es: seq<EntryDraft>): (s: int)
    ensures (forall k :: 0 <= k < |es| ==> es[k].amount >= 0) ==> s >= 0
  {
    if es == [] then 0
    else
      assert forall k :: 0 <= k < |es| - 1 ==> es[..|es| - 1][k] == es[k];
      SumDrafts(es[..|es| - 1]) + es[|es| - 1].amount
  }

  /** `currentPayTotal`: the amount typed in (0 when it is not a number) in SINGLE mode,
      the sum of the generated instalments in BULK mode. It is positive in SINGLE mode
      exactly when the amount is a positive number, and never negative in BULK mode for
      instalments that are not. */
  function CurrentPayTotal(mode: Mode, amount: string, preview: seq<EntryDraft>): (t: int)
    ensures mode == Single ==> (t > 0 <==> ParseNumber(amount).Some? && ParseNumber(amount).value > 0)
    ensures mode == Bulk && (forall k :: 0 <= k < |preview| ==> preview[k].amount >= 0) ==> t >= 0
  {
    match mode
    case Single => NumberOrZero(amount)
    case Bulk => SumDrafts(preview)
  }

  lemma {:induction false} SumDraftsOfEqual(es: seq<EntryDraft>, amount: int)
    requires forall k :: 0 <= k < |es| ==> es[k].amount == amount
    ensures SumDrafts(es) == |es| * amount
  {
    if es != [] {
      SumDraftsOfEqual(es[..|es| - 1], amount);
      assert (|es| - 1) * amount + amount == |es| * amount;
    }
  }

  /** In BULK mode the total due is one instalment per generated month. */
  lemma BulkPayTotal(freq: Frequency, r: LandRecord, now: Date)
    requires Valid(now)
    ensures var preview := BulkPreview(Bulk, freq, r, now);
      CurrentPayTotal(Bulk, "", preview) == |preview| * r.collectionAmount
  {
    SumDraftsOfEqual(BulkPreview(Bulk, freq, r, now), r.collectionAmount);
  }

  lemma {:induction false} SumAmountsOfWithIds(drafts: seq<EntryDraft>, ids: seq<string>)
    requires |ids| == |drafts|
    ensures SumAmounts(Records.WithIds(drafts, ids)) == SumDrafts(drafts)
    decreases |drafts|
  {
    if drafts != [] {
      var n := |drafts|;
      var es := Records.WithIds(drafts, ids);
      SumAmountsOfWithIds(drafts[..n - 1], ids[..n - 1]);
      assert es[..n - 1] == Records.WithIds(drafts[..n - 1], ids[..n - 1]);
    }
  }

  /** Once the submitted instalments are saved, the record's collected total has grown by
      exactly the pay total shown in BULK mode. */
  lemma SavedBulkAddsPayTotal(r: LandRecord, preview: seq<EntryDraft>, ids: seq<string>, newDuration: Option<string>)
    requires |ids| == |preview|
    ensures CollectedTotal(Records.WithNewEntries(r, Records.WithIds(preview, ids), newDuration))
      == CollectedTotal(r) + CurrentPayTotal(Bulk, "", preview)
  {
    SumAmountsAppend(Entries(r), Records.WithIds(preview, ids));
    SumAmountsOfWithIds(preview, ids);
  }

  // ---------------------------------------------------------------- duration extension

  /** The extended duration: the old magnitude plus the extension's, in the extension's
      unit; the old unit is dropped. */
  function ExtendedDuration(duration: string, extValue: string, extUnit: string): (d: string)
    ensures ParseNumber(d) == Some(Magnitude(duration) + NumberOrZero(extValue))
    ensures |d| > |extUnit| && d[|d| - |extUnit|..] == extUnit
  {
    var n := Magnitude(duration) + NumberOrZero(extValue);
    ParseIntToString(n, " " + extUnit);
    assert Format(n, extUnit) == IntToString(n) + (" " + extUnit);
    Format(n, extUnit)
  }

  /** Read back, the extended duration has the summed magnitude and the extension's unit. */
  lemma ExtendedDurationReadsBack(duration: string, extValue: string, extUnit: string)
    requires ' ' !in extUnit
    ensures Magnitude(ExtendedDuration(duration, extValue, extUnit))
            == Magnitude(duration) + NumberOrZero(extValue)
    ensures UnitOf(ExtendedDuration(duration, extValue, extUnit)) == Some(extUnit)
  {
    var n := Magnitude(duration) + NumberOrZero(extValue);
    assert ExtendedDuration(duration, extValue, extUnit) == Format(n, extUnit);
    FormatRoundTrip(n, extUnit);
  }

  // ---------------------------------------------------------------- expiry preview

  /** What the preview shows: nothing, "Invalid Date", or a date. */
  datatype Preview = NoPreview | InvalidDate | On(date: Date)

  /** `parts[1] || 'বছর'`: a missing or empty unit means years. */
  function PreviewUnit(duration: string): (u: string)
    ensures UnitOf(duration).Some? && UnitOf(duration).value != "" ==> u == UnitOf(duration).value
    ensures UnitOf(duration).None? || UnitOf(duration) == Some("") ==> u == YearUnit
  {
    match UnitOf(duration)
    case None => YearUnit
    case Some(u) => if u == "" then YearUnit else u
  }

  /** `newExpiryDate`: the start date moved by the duration, years when it names no unit,
      and then, when extending, by the extension on top. */
  function NewExpiryPreview(r: LandRecord, isExtending: bool, extValue: string, extUnit: string): (p: Preview)
    ensures p.NoPreview? <==> r.startDate == "" || r.duration == ""
    ensures p.On? ==> ParseIsoDate(r.startDate).Some? && Valid(p.date)
  {
    if r.startDate == "" || r.duration == "" then NoPreview
    else
      match ParseIsoDate(r.startDate)
      case None => InvalidDate
      case Some(start) =>
        var e := AddInUnit(start, Magnitude(r.duration), PreviewUnit(r.duration));
        On(if isExtending then AddInUnit(e, NumberOrZero(extValue), extUnit) else e)
  }

  /** For a duration written "<a> <unit>", the preview moves the start by a units and then
      by the extension, if any. */
  lemma PreviewOfFormatted(r: LandRecord, start: Date, a: int, unit: string,
                           isExtending: bool, extValue: string, extUnit: string)
    requires ParseIsoDate(r.startDate) == Some(start)
    requires r.duration == Format(a, unit) && unit != "" && ' ' !in unit
    ensures var e := AddInUnit(start, a, unit);
      NewExpiryPreview(r, isExtending, extValue, extUnit)
        == On(if isExtending then AddInUnit(e, NumberOrZero(extValue), extUnit) else e)
  {
    FormatRoundTrip(a, unit);
    assert PreviewUnit(r.duration) == unit;
    assert r.startDate != "" && r.duration != "";
  }

  /** Without an extension and with a named unit, the preview is the ledger's own expiry. */
  lemma PreviewMatchesExpiry(r: LandRecord, extValue: string, extUnit: string)
    requires UnitOf(r.duration).Some? && UnitOf(r.duration).value != ""
    requires r.startDate != "" && ParseIsoDate(r.startDate).Some?
    ensures NewExpiryPreview(r, false, extValue, extUnit) == On(ExpiryDate(r).value)
  {
    assert r.duration != "";
  }

  /** A duration with no unit, "<n>", is previewed as n years but counted as n days by the
      ledger. */
  lemma UnitlessDurationDisagrees(r: LandRecord, start: Date, n: int, extValue: string, extUnit: string)
    requires ParseIsoDate(r.startDate) == Some(start) && r.duration == IntToString(n)
    ensures NewExpiryPreview(r, false, extValue, extUnit) == On(AddYears(start, n))
    ensures ExpiryDate(r) == Some(AddDays(start, n))
  {
    SplitNoSeparator(r.duration, ' ');
    ExpiryWithoutUnitCountsDays(r, start, n);
    ParseIntToString(n, "");
    assert IntToString(n) + "" == IntToString(n);
    assert r.startDate != "";
  }

  /** Extending in the duration's own unit, by years or months, previews exactly the
      expiry the saved duration gets, when the start day needs no clamping. */
  lemma PreviewMatchesSavedExtension(r: LandRecord, start: Date, a: int, extValue: string, unit: string)
    requires ParseIsoDate(r.startDate) == Some(start) && start.day <= 28
    requires unit == YearUnit || unit == MonthUnit
    requires r.duration == Format(a, unit)
    ensures var saved := r.(duration := ExtendedDuration(r.duration, extValue, unit));
      NewExpiryPreview(r, true, extValue, unit) == On(ExpiryDate(saved).value)
  {
    PreviewExtendedInUnit(r, start, a, extValue, unit);
    SavedExtendedInUnit(r, start, a, extValue, unit);
  }

  lemma PreviewExtendedInUnit(r: LandRecord, start: Date, a: int, extValue: string, unit: string)
    requires ParseIsoDate(r.startDate) == Some(start) && start.day <= 28
    requires unit == YearUnit || unit == MonthUnit
    requires r.duration == Format(a, unit)
    ensures NewExpiryPreview(r, true, extValue, unit) == On(AddInUnit(start, a + NumberOrZero(extValue), unit))
  {
    var b := NumberOrZero(extValue);
    var e := AddInUnit(start, a, unit);
    UnitsHaveNoSpace();
    PreviewOfFormatted(r, start, a, unit, true, extValue, unit);
    assert NewExpiryPreview(r, true, extValue, unit) == On(AddInUnit(e, b, unit));
    AddInUnitCompose(start, a, b, unit);
  }

  lemma SavedExtendedInUnit(r: LandRecord, start: Date, a: int, extValue: string, unit: string)
    requires ParseIsoDate(r.startDate) == Some(start)
    requires unit == YearUnit || unit == MonthUnit
    requires r.duration == Format(a, unit)
    ensures ExpiryDate(r.(duration := ExtendedDuration(r.duration, extValue, unit)))
            == Some(AddInUnit(start, a + NumberOrZero(extValue), unit))
  {
    UnitsHaveNoSpace();
    ExtendFormatted(a, unit, extValue, unit);
    ExpiryOfFormattedDuration(r.(duration := ExtendedDuration(r.duration, extValue, unit)),
                              start, a + NumberOrZero(extValue), unit);
  }

  /** Extending "<a> বছর" by months: the preview adds a years and then the months, but the
      saved duration "<a + months> মাস" counts the old years as months. The two differ
      whenever a is not zero ("2 বছর" plus one month previews 25 months on and saves 3). */
  lemma PreviewDisagreesAcrossUnits(r: LandRecord, start: Date, a: int, extValue: string)
    requires ParseIsoDate(r.startDate) == Some(start) && r.duration == Format(a, YearUnit)
    ensures var b := NumberOrZero(extValue);
      var saved := r.(duration := ExtendedDuration(r.duration, extValue, MonthUnit));
      && NewExpiryPreview(r, true, extValue, MonthUnit) == On(AddMonths(AddYears(start, a), b))
      && ExpiryDate(saved) == Some(AddMonths(start, a + b))
      && (a != 0 ==> NewExpiryPreview(r, true, extValue, MonthUnit) != On(ExpiryDate(saved).value))
  {
    var b := NumberOrZero(extValue);
    var p, e := AddMonths(AddYears(start, a), b), AddMonths(start, a + b);
    PreviewYearsThenMonths(r, start, a, extValue);
    SavedInMonths(r, start, a, extValue);
    assert MonthIndex(p) == MonthIndex(start) + 12 * a + b;
    assert MonthIndex(e) == MonthIndex(start) + a + b;
  }

  lemma PreviewYearsThenMonths(r: LandRecord, start: Date, a: int, extValue: string)
    requires ParseIsoDate(r.startDate) == Some(start) && r.duration == Format(a, YearUnit)
    ensures NewExpiryPreview(r, true, extValue, MonthUnit)
            == On(AddMonths(AddYears(start, a), NumberOrZero(extValue)))
  {
    PreviewOfFormatted(r, start, a, YearUnit, true, extValue, MonthUnit);
    InYears(start, a);
    InMonths(AddYears(start, a), NumberOrZero(extValue));
  }

  lemma SavedInMonths(r: LandRecord, start: Date, a: int, extValue: string)
    requires ParseIsoDate(r.startDate) == Some(start) && r.duration == Format(a, YearUnit)
    ensures ExpiryDate(r.(duration := ExtendedDuration(r.duration, extValue, MonthUnit)))
            == Some(AddMonths(start, a + NumberOrZero(extValue)))
  {
    UnitsHaveNoSpace();
    ExtendFormatted(a, YearUnit, extValue, MonthUnit);
    ExpiryInMonths(r.(duration := ExtendedDuration(r.duration, extValue, MonthUnit)),
                   start, a + NumberOrZero(extValue));
  }

  /** Extending a formatted duration adds the extension to its magnitude. */
  lemma ExtendFormatted(a: int, unit: string, extValue: string, extUnit: string)
    requires ' ' !in unit
    ensures ExtendedDuration(Format(a, unit), extValue, extUnit) == Format(a + NumberOrZero(extValue), extUnit)
  {
    FormatRoundTrip(a, unit);
  }

  lemma ExpiryInMonths(r: LandRecord, start: Date, n: int)
    requires ParseIsoDate(r.startDate) == Some(start) && r.duration == Format(n, MonthUnit)
    ensures ExpiryDate(r) == Some(AddMonths(start, n))
  {
    UnitsHaveNoSpace();
    ExpiryOfFormattedDuration(r, start, n, MonthUnit);
    InMonths(start, n);
  }

  // ---------------------------------------------------------------- submitting

  /** What a number input can hold: nothing, or a number. */
  predicate NumberInputValue(s: string) {
    s == "" || ParseNumber(s).Some?
  }

  /** `handlePreSubmit`: SINGLE mode turns away an empty amount and one not above zero;
      BULK mode turns away an empty preview. What it lets through has something to pay. */
  predicate PreSubmit(mode: Mode, amount: string, preview: seq<EntryDraft>)
    ensures PreSubmit(mode, amount, preview) && mode == Single ==>
      amount != "" && CurrentPayTotal(mode, amount, preview) >= 0
    ensures PreSubmit(mode, amount, preview) && mode == Bulk ==> |preview| >= 1
  {
    match mode
    case Single => !(amount == "" || (ParseNumber(amount).Some? && ParseNumber(amount).value <= 0))
    case Bulk => preview != []
  }

  /** For what a number input holds, SINGLE mode accepts exactly a positive amount. */
  lemma PreSubmitSingle(amount: string)
    requires NumberInputValue(amount)
    ensures PreSubmit(Single, amount, []) <==> ParseNumber(amount).Some? && ParseNumber(amount).value > 0
  {
    if amount == "" {
      assert ParseNumber("") == None by {
        assert TrimStart("") == "";
        assert LeadingDigits("") == "";
      }
    }
  }

  /** The note of a single payment: the one typed in, or one saying what the payment was;
      never empty, and never mistaken for a generated instalment's note. */
  function SingleNote(note: string, isExtending: bool, extValue: string, extUnit: string): (n: string)
    ensures n != ""
    ensures note == "" ==> NoteFrequency(n).None?
  {
    if note != "" then note
    else if isExtending then
      var n := "কিস্তি আদায় + মেয়াদ বৃদ্ধি (" + extValue + " " + extUnit + ")";
      assert n[0] == '\U{0995}' && AutoNotePrefix[0] == '\U{09B8}';
      n
    else "নিয়মিত কিস্তি"
  }

  /** `handleFinalSubmit`: the instalments handed to the save handler and the duration to
      store (only when extending). SINGLE mode hands one payment of the typed amount on the
      chosen date, BULK mode the generated instalments. */
  function FinalSubmit(s: FormState, r: LandRecord, preview: seq<EntryDraft>): (out: (seq<EntryDraft>, Option<string>))
    requires s.mode == Single ==> PreSubmit(Single, s.amount, preview) && NumberInputValue(s.amount)
    ensures s.mode == Bulk ==> out.0 == preview
    ensures s.mode == Single ==> |out.0| == 1 && out.0[0].amount > 0 && out.0[0].date == s.date
    ensures out.1.Some? <==> s.isExtending
  {
    var drafts :=
      if s.mode == Single then
        [EntryDraft(ParseNumber(s.amount).value, s.date, SingleNote(s.note, s.isExtending, s.extValue, s.extUnit))]
      else preview;
    (drafts, if s.isExtending then Some(ExtendedDuration(r.duration, s.extValue, s.extUnit)) else None)
  }

  /** Saved through the ledger, the submitted duration replaces the record's exactly when
      extending, and then by the extended duration. */
  lemma SubmittedDurationIsStored(s: FormState, r: LandRecord, preview: seq<EntryDraft>)
    requires s.mode == Single ==> PreSubmit(Single, s.amount, preview) && NumberInputValue(s.amount)
    ensures var newDuration := FinalSubmit(s, r, preview).1;
      Records.ChosenDuration(newDuration, r.duration)
        == if s.isExtending then ExtendedDuration(r.duration, s.extValue, s.extUnit) else r.duration
  {
    if s.isExtending {
      assert ExtendedDuration(r.duration, s.extValue, s.extUnit) != "" by {
        var d := ExtendedDuration(r.duration, s.extValue, s.extUnit);
        assert d == IntToString(Magnitude(r.duration) + NumberOrZero(s.extValue)) + " " + s.extUnit;
      }
    }
  }

  /** In SINGLE mode the pay total shown is the amount saved. */
  lemma SinglePayTotalIsSaved(s: FormState, r: LandRecord, preview: seq<EntryDraft>)
    requires s.mode == Single && PreSubmit(Single, s.amount, preview) && NumberInputValue(s.amount)
    ensures SumDrafts(FinalSubmit(s, r, preview).0) == CurrentPayTotal(Single, s.amount, preview)
  {
    var drafts := FinalSubmit(s, r, preview).0;
    assert drafts[..0] == [];
  }
}
