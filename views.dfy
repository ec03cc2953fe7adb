/** The derived views of the ledger screen (App.tsx): a contract's expiry, the dashboard
    totals, the search-and-status filter and the owner's initials. The current time is a
    parameter `now`. */
module Views {
  import opened Wrappers
  import opened Seqs
  import opened Text
  import opened Calendar
  import opened Types
  import opened Durations
  import Records

  // ---------------------------------------------------------------- expiry

  datatype ExpiryInfo = ExpiryInfo(expired: bool, date: Option<Date>)

  /** The expiry date: the start date moved by the duration's magnitude in its unit, a
      missing unit counting days. None when the start date or the duration is empty or the
      start date is not a date. */
  function ExpiryDate(r: LandRecord): (e: Option<Date>)
    ensures e.Some? ==> r.startDate != "" && r.duration != "" && Valid(e.value)
    ensures e.Some? ==> ParseIsoDate(r.startDate).Some?
  {
    if r.startDate == "" || r.duration == "" then None
    else
      match ParseIsoDate(r.startDate)
      case None => None
      case Some(start) => Some(AddInUnit(start, Magnitude(r.duration), UnitOf(r.duration).GetOr("")))
  }

  /** `getExpiryInfo`: the expiry is the instant at which the expiry day begins and `now` is
      an instant during the current day, so `now > expiry` holds exactly when the expiry day
      is the current day or an earlier one. A record without an expiry date is never
      expired. */
  function GetExpiryInfo(r: LandRecord, now: Date): (info: ExpiryInfo)
    ensures info.date == ExpiryDate(r)
    ensures info.expired <==> info.date.Some? && NotAfter(info.date.value, now)
  {
    match ExpiryDate(r)
    case None => ExpiryInfo(false, None)
    case Some(e) => ExpiryInfo(NotAfter(e, now), Some(e))
  }

  predicate IsExpired(r: LandRecord, now: Date)
    ensures IsExpired(r, now) <==> ExpiryDate(r).Some? && NotAfter(ExpiryDate(r).value, now)
  {
    GetExpiryInfo(r, now).expired
  }

  /** Fail open: an empty start date, an empty duration or a start date that is not a date
      never makes a contract expired. */
  lemma ExpiryFailsOpen(r: LandRecord, now: Date)
    requires r.startDate == "" || r.duration == "" || ParseIsoDate(r.startDate).None?
    ensures !IsExpired(r, now)
  {
  }

  /** Once expired, always expired: expiry is monotone in the current time. */
  lemma ExpiryMonotone(r: LandRecord, t1: Date, t2: Date)
    requires NotAfter(t1, t2) && IsExpired(r, t1)
    ensures IsExpired(r, t2)
  {
    NotAfterTransitive(ExpiryDate(r).value, t1, t2);
  }

  /** A contract is not expired before its start day, when its duration is not negative,
      nor on its start day, when its duration is positive. */
  lemma NotExpiredBeforeStart(r: LandRecord, start: Date, now: Date)
    requires ParseIsoDate(r.startDate) == Some(start)
    requires (Before(now, start) && Magnitude(r.duration) >= 0)
             || (NotAfter(now, start) && Magnitude(r.duration) > 0)
    ensures !IsExpired(r, now)
  {
    if ExpiryDate(r).Some? {
      var e := ExpiryDate(r).value;
      assert e == AddInUnit(start, Magnitude(r.duration), UnitOf(r.duration).GetOr(""));
      if Magnitude(r.duration) > 0 {
        assert Before(start, e);
      } else {
        assert e == start;
      }
    }
  }

  /** A duration written "<n> <unit>" ends n units after the start: years for বছর, months
      for মাস, days for any other unit. */
  lemma ExpiryOfFormattedDuration(r: LandRecord, start: Date, n: int, unit: string)
    requires ParseIsoDate(r.startDate) == Some(start)
    requires r.duration == Format(n, unit) && ' ' !in unit
    ensures ExpiryDate(r) == Some(AddInUnit(start, n, unit))
  {
    FormatRoundTrip(n, unit);
  }

  /** A duration with no unit, "<n>", counts days. */
  lemma ExpiryWithoutUnitCountsDays(r: LandRecord, start: Date, n: int)
    requires ParseIsoDate(r.startDate) == Some(start)
    requires r.duration == IntToString(n)
    ensures ExpiryDate(r) == Some(AddDays(start, n))
  {
    SplitNoSeparator(r.duration, ' ');
    ParseIntToString(n, "");
    assert IntToString(n) + "" == IntToString(n);
  }

  /** The contract "Plot A", started 2024-01-01 for "1 বছর", is expired exactly when the
      current date is 2025-01-01 or later. */
  lemma OneYearContractExample(r: LandRecord, now: Date)
    requires r.startDate == "2024-01-01" && r.duration == "1 বছর"
    ensures IsExpired(r, now) <==> NotAfter(Date(2025, 1, 1), now)
  {
    var start := Date(2024, 1, 1);
    NewYear2024();
    assert r.duration == Format(1, YearUnit) by {
      assert IntToString(1) == "1";
    }
    ExpiryOfFormattedDuration(r, start, 1, YearUnit);
  }

  // ---------------------------------------------------------------- dashboard totals

  datatype Stats = Stats(investment: int, collected: int, active: nat, total: nat)

  /** The sum of the amounts invested. */
  function Investment(rs: seq<LandRecord>): int {
    if rs == [] then 0 else Investment(rs[..|rs| - 1]) + rs[|rs| - 1].amount
  }

  /** The sum over records of what each has collected. */
  function Collected(rs: seq<LandRecord>): int {
    if rs == [] then 0 else Collected(rs[..|rs| - 1]) + CollectedTotal(rs[|rs| - 1])
  }

  function IsActiveAt(now: Date): LandRecord -> bool {
    (r: LandRecord) => !IsExpired(r, now)
  }

  function IsExpiredAt(now: Date): LandRecord -> bool {
    (r: LandRecord) => IsExpired(r, now)
  }

  /** The dashboard: investment, collected, the number of contracts not expired, and the
      number of contracts. */
  function ComputeStats(rs: seq<LandRecord>, now: Date): (s: Stats)
    ensures s.total == |rs| && s.active <= s.total
  {
    Stats(Investment(rs), Collected(rs), |Filter(rs, IsActiveAt(now))|, |rs|)
  }

  /** Every contract is either active or expired: the active count and the expired count
      add up to the total. */
  lemma ActivePlusExpiredIsTotal(rs: seq<LandRecord>, now: Date)
    ensures ComputeStats(rs, now).active + |Filter(rs, IsExpiredAt(now))| == ComputeStats(rs, now).total
  {
    var all := (r: LandRecord) => true;
    FilterSplit(rs, all, IsActiveAt(now), IsExpiredAt(now));
    FilterAll(rs, all);
  }

  /** The totals of a list with one more record grow by that record's share. */
  lemma StatsAppend(rs: seq<LandRecord>, r: LandRecord, now: Date)
    ensures var s := ComputeStats(rs, now);
      ComputeStats(rs + [r], now)
        == Stats(s.investment + r.amount, s.collected + CollectedTotal(r),
                 s.active + (if IsExpired(r, now) then 0 else 1), s.total + 1)
  {
    assert (rs + [r])[..|rs + [r]| - 1] == rs;
    FilterAppend(rs, [r], IsActiveAt(now));
  }

  /** The number of records with the id. */
  function CountId(rs: seq<LandRecord>, id: string): nat {
    if rs == [] then 0
    else CountId(rs[..|rs| - 1], id) + (if rs[|rs| - 1].id == id then 1 else 0)
  }

  lemma MapMatchingPrefix(rs: seq<LandRecord>, id: string, f: LandRecord -> LandRecord)
    requires rs != []
    ensures Records.MapMatching(rs, id, f)[..|rs| - 1] == Records.MapMatching(rs[..|rs| - 1], id, f)
  {
  }

  /** Updating the records with an id by a step that keeps the amount invested and adds a
      fixed sum to what is collected adds that sum once per such record. */
  lemma {:induction false} MapMatchingTotals(rs: seq<LandRecord>, id: string, f: LandRecord -> LandRecord, delta: int)
    requires forall r :: f(r).amount == r.amount && CollectedTotal(f(r)) == CollectedTotal(r) + delta
    ensures Collected(Records.MapMatching(rs, id, f)) == Collected(rs) + CountId(rs, id) * delta
    ensures Investment(Records.MapMatching(rs, id, f)) == Investment(rs)
  {
    if rs != [] {
      var n := |rs|;
      var init := rs[..n - 1];
      var last := rs[n - 1];
      var after := Records.MapMatching(rs, id, f);
      MapMatchingTotals(init, id, f, delta);
      MapMatchingPrefix(rs, id, f);
      var c := CountId(init, id);
      assert after[..n - 1] == Records.MapMatching(init, id, f);
      assert after[n - 1] == if last.id == id then f(last) else last;
      assert Collected(after) == Collected(Records.MapMatching(init, id, f)) + CollectedTotal(after[n - 1]);
      assert Investment(after) == Investment(Records.MapMatching(init, id, f)) + after[n - 1].amount;
      if last.id == id {
        assert CountId(rs, id) == c + 1;
        MulSucc(c, delta);
      } else {
        assert CountId(rs, id) == c;
      }
    }
  }

  lemma MulSucc(c: int, delta: int)
    ensures (c + 1) * delta == c * delta + delta
  {
  }

  /** Saving collections adds their sum once per record with the target id to the amount
      collected, and leaves the investment as it was. */
  lemma SaveCollectionTotals(rs: seq<LandRecord>, targetId: string, drafts: seq<EntryDraft>,
                             ids: seq<string>, newDuration: Option<string>)
    requires |ids| == |drafts|
    ensures Collected(Records.SaveCollection(rs, targetId, drafts, ids, newDuration))
      == Collected(rs) + CountId(rs, targetId) * SumAmounts(Records.WithIds(drafts, ids))
    ensures Investment(Records.SaveCollection(rs, targetId, drafts, ids, newDuration)) == Investment(rs)
  {
    var es := Records.WithIds(drafts, ids);
    var f := Records.AddEntriesStep(es, newDuration);
    forall r ensures f(r).amount == r.amount && CollectedTotal(f(r)) == CollectedTotal(r) + SumAmounts(es) {
      SumAmountsAppend(Entries(r), es);
    }
    MapMatchingTotals(rs, targetId, f, SumAmounts(es));
  }

  // ---------------------------------------------------------------- search and status filter

  datatype StatusFilter = All | ActiveOnly | ExpiredOnly

  /** The search term, lower-cased, occurs in the lower-cased title, owner or contractor
      name, or as it is in the mobile number. */
  predicate MatchesSearch(r: LandRecord, searchTerm: string)
    ensures searchTerm == "" ==> MatchesSearch(r, searchTerm)
    ensures Contains(r.mobile, Lower(searchTerm)) ==> MatchesSearch(r, searchTerm)
  {
    var search := Lower(searchTerm);
    || Contains(Lower(r.title), search)
    || Contains(Lower(r.ownerName), search)
    || Contains(r.mobile, search)
    || (r.contractorName != "" && Contains(Lower(r.contractorName), search))
  }

  predicate MatchesStatus(r: LandRecord, status: StatusFilter, now: Date) {
    match status
    case All => true
    case ActiveOnly => !IsExpired(r, now)
    case ExpiredOnly => IsExpired(r, now)
  }

  function ShownBy(searchTerm: string, status: StatusFilter, now: Date): LandRecord -> bool {
    (r: LandRecord) => MatchesSearch(r, searchTerm) && MatchesStatus(r, status, now)
  }

  /** `filteredRecords`. */
  function FilteredRecords(rs: seq<LandRecord>, searchTerm: string, status: StatusFilter, now: Date): (out: seq<LandRecord>)
    ensures |out| <= |rs|
    ensures forall k :: 0 <= k < |out| ==>
      out[k] in rs && MatchesSearch(out[k], searchTerm) && MatchesStatus(out[k], status, now)
  {
    Filter(rs, ShownBy(searchTerm, status, now))
  }

  /** The filter keeps the records that match, all of them, in their original order. */
  lemma FilteredIsOrderedSelection(rs: seq<LandRecord>, searchTerm: string, status: StatusFilter, now: Date)
    ensures IsSubsequence(FilteredRecords(rs, searchTerm, status, now), rs)
    ensures forall r :: (r in FilteredRecords(rs, searchTerm, status, now)
      <==> r in rs && MatchesSearch(r, searchTerm) && MatchesStatus(r, status, now))
  {
    FilterIsSubsequence(rs, ShownBy(searchTerm, status, now));
    forall r ensures r in FilteredRecords(rs, searchTerm, status, now)
      <==> r in rs && MatchesSearch(r, searchTerm) && MatchesStatus(r, status, now)
    {
      FilterMembership(rs, ShownBy(searchTerm, status, now), r);
    }
  }

  /** The empty search with status ALL shows every record, in order. */
  lemma ShowAllByDefault(rs: seq<LandRecord>, now: Date)
    ensures FilteredRecords(rs, "", All, now) == rs
  {
    forall k | 0 <= k < |rs| ensures ShownBy("", All, now)(rs[k]) {
      assert Lower("") == "";
      assert StartsWith(Lower(rs[k].title), "");
    }
    FilterAll(rs, ShownBy("", All, now));
  }

  /** ACTIVE and EXPIRED split the search matches between them: together they hold each
      match exactly once. */
  lemma ActiveAndExpiredPartitionMatches(rs: seq<LandRecord>, searchTerm: string, now: Date)
    ensures multiset(FilteredRecords(rs, searchTerm, ActiveOnly, now))
          + multiset(FilteredRecords(rs, searchTerm, ExpiredOnly, now))
         == multiset(FilteredRecords(rs, searchTerm, All, now))
    ensures |FilteredRecords(rs, searchTerm, ActiveOnly, now)|
          + |FilteredRecords(rs, searchTerm, ExpiredOnly, now)|
         == |FilteredRecords(rs, searchTerm, All, now)|
  {
    FilterSplit(rs, ShownBy(searchTerm, All, now), ShownBy(searchTerm, ActiveOnly, now),
                ShownBy(searchTerm, ExpiredOnly, now));
  }

  /** The mobile number is searched without lower-casing it while the term is lower-cased,
      so capitals in a mobile field can never be found. */
  lemma MobileSearchIsCaseSensitive(r: LandRecord)
    requires r.title == "" && r.ownerName == "" && r.contractorName == "" && r.mobile == "AB"
    ensures !MatchesSearch(r, "AB")
  {
    assert Lower("AB") == "ab";
    assert !StartsWith("AB", "ab");
    assert !StartsWith("B", "ab");
    assert "AB"[1..] == "B";
    assert "B"[1..] == "";
  }

  // ---------------------------------------------------------------- initials

  /** `words.map(n => n[0]).join('')`: the first character of every non-empty word. */
  function FirstChars(words: seq<string>): string {
    if words == [] then ""
    else (if words[0] == "" then "" else [words[0][0]]) + FirstChars(words[1..])
  }

  /** `getInitials`: the first characters of the first two words of the name ("?" for an
      empty name), upper-cased. */
  function Initials(name: string): (r: string)
    ensures |r| <= 2
  {
    Upper(Take(FirstChars(Split(if name == "" then "?" else name, ' ')), 2))
  }

  /** An empty name shows "?". */
  lemma InitialsOfEmptyName()
    ensures Initials("") == "?"
  {
    SplitNoSeparator("?", ' ');
    assert FirstChars(["?"]) == "?";
  }

  /** A name that does not start with a space shows its own first letter first. */
  lemma InitialsStartWithFirstLetter(name: string)
    requires name != [] && name[0] != ' '
    ensures |Initials(name)| >= 1 && Initials(name)[0] == UpperChar(name[0])
  {
    SplitFirstPart(name, ' ');
    var words := Split(name, ' ');
    assert words[0] != "" && words[0][0] == name[0];
  }

  /** Two words give the upper-cased first letters of both. */
  lemma InitialsOfTwoWords(first: string, last: string)
    requires first != "" && last != "" && ' ' !in first && ' ' !in last
    ensures Initials(first + " " + last) == [UpperChar(first[0]), UpperChar(last[0])]
  {
    SplitPair(first, last);
    var name := first + " " + last;
    assert name != "";
    assert FirstChars([first, last]) == [first[0], last[0]] by {
      assert [first, last][1..] == [last];
      assert FirstChars([last]) == [last[0]];
    }
  }
}
