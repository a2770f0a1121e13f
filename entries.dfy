/**
 * Time-entry aggregation (lib/helpers/entries-helper.ts): total hours of a list of
 * entries, and the two-level grouping of entries by the calendar date of their
 * start and, within a day, by their exact description.
 */
module Entries {
  import opened Opt
  import opened OrderedMap
  import Text

  /** A month as dayjs counts it: 0 is January. */
  type Month = m: int | 0 <= m < 12

  type DayOfMonth = d: int | 1 <= d <= 31 witness 1

  /** The calendar date an entry is bucketed under (year, month, day of month). */
  datatype DateKey = DateKey(year: int, month: Month, date: DayOfMonth)

  /**
   * A time entry. Instants are milliseconds since the epoch; `end` is None when
   * the entry's end is missing or empty (falsy), as for a running timer.
   */
  datatype TimeEntry = TimeEntry(description: string, start: int, end: Option<int>)

  /** One description within one day: `GroupEntry` of lib/models/group-entry.ts. */
  datatype GroupEntry = GroupEntry(id: string, description: string, timeEntries: seq<TimeEntry>, totalDescHours: real)

  /** One day: `DailyEntry` of lib/models/daily-entry.ts. */
  datatype DailyEntry = DailyEntry(
    dateStarted: DateKey,
    timeEntries: seq<TimeEntry>,
    totalDayHours: real,
    groupedTimeEntries: seq<GroupEntry>)

  const MsPerHour: int := 3_600_000

  /** `end.diff(start, 'hour', true)` for an entry with an end, 0 otherwise. */
  function EntryHours(e: TimeEntry): (h: real)
    ensures e.end.None? ==> h == 0.0
    ensures e.end.Some? ==> h * 3600000.0 == (e.end.value - e.start) as real
  {
    if e.end.Some? then (e.end.value - e.start) as real / MsPerHour as real else 0.0
  }

  /** getTotalHoursOfTimeEntries: `reduce` from the left, starting at 0. */
  function TotalHours(es: seq<TimeEntry>): (h: real)
    ensures (forall i :: 0 <= i < |es| ==> es[i].end.None?) ==> h == 0.0
    ensures (forall i :: 0 <= i < |es| && es[i].end.Some? ==> es[i].start <= es[i].end.value) ==> h >= 0.0
  {
    if es == [] then 0.0 else TotalHours(es[..|es| - 1]) + EntryHours(es[|es| - 1])
  }

  // ---------------------------------------------------------------------------
  // Total hours against an independent definition

  /** The entries that have an end, in input order. */
  function Ended(es: seq<TimeEntry>): (r: seq<TimeEntry>)
    ensures forall i :: 0 <= i < |r| ==> r[i].end.Some?
  {
    if es == [] then []
    else if es[0].end.Some? then [es[0]] + Ended(es[1..])
    else Ended(es[1..])
  }

  /** Sum of the elapsed hours of entries that all have an end, from the right. */
  function ElapsedHours(es: seq<TimeEntry>): real
    requires forall i :: 0 <= i < |es| ==> es[i].end.Some?
  {
    if es == [] then 0.0
    else (es[0].end.value - es[0].start) as real / 3600000.0 + ElapsedHours(es[1..])
  }

  lemma {:induction false} TotalHoursAppend(a: seq<TimeEntry>, b: seq<TimeEntry>)
    ensures TotalHours(a + b) == TotalHours(a) + TotalHours(b)
    decreases |b|
  {
    if b == [] {
      assert a + b == a;
    } else {
      assert (a + b)[..|a + b| - 1] == a + b[..|b| - 1];
      TotalHoursAppend(a, b[..|b| - 1]);
    }
  }

  lemma TotalHoursCons(e: TimeEntry, es: seq<TimeEntry>)
    ensures TotalHours([e] + es) == EntryHours(e) + TotalHours(es)
  {
    TotalHoursAppend([e], es);
    assert [e][..0] == [];
  }

  /**
   * The total is the sum, over the entries that have an end, of their elapsed
   * hours; entries without an end add nothing and the empty list gives 0.
   */
  lemma {:induction false} TotalHoursIsElapsedOfEnded(es: seq<TimeEntry>)
    ensures TotalHours(es) == ElapsedHours(Ended(es))
  {
    if es != [] {
      TotalHoursIsElapsedOfEnded(es[1..]);
      TotalHoursCons(es[0], es[1..]);
      assert [es[0]] + es[1..] == es;
    }
  }

  // ---------------------------------------------------------------------------
  // getDailyTimeEntries as a specification

  /** The bucketing key of an entry: the calendar date of its start, never its end. */
  function DayKey(dateOf: int -> DateKey): TimeEntry -> DateKey
  {
    (e: TimeEntry) => dateOf(e.start)
  }

  function DescriptionOf(e: TimeEntry): string
  {
    e.description
  }

  /** The id of the `idx`-th description group of a day: `${desc}_${idx}`. */
  function GroupId(desc: string, idx: nat): string
  {
    desc + "_" + Text.NatToString(idx)
  }

  function MakeGroup(b: Bucket<string, TimeEntry>, idx: nat): GroupEntry
  {
    GroupEntry(GroupId(b.key, idx), b.key, b.items, TotalHours(b.items))
  }

  function MakeGroups(lib: seq<Bucket<string, TimeEntry>>): seq<GroupEntry>
  {
    seq(|lib|, i requires 0 <= i < |lib| => MakeGroup(lib[i], i))
  }

  /** The entries of one day turned into a DailyEntry (the `.map` callback). */
  function MakeDay(b: Bucket<DateKey, TimeEntry>): (d: DailyEntry)
    ensures |d.groupedTimeEntries| <= |b.items|
    ensures b.items != [] ==> |d.groupedTimeEntries| >= 1
  {
    GroupBySize(b.items, DescriptionOf);
    DailyEntry(b.key, b.items, TotalHours(b.items), MakeGroups(GroupBy(b.items, DescriptionOf)))
  }

  function MakeDays(lib: seq<Bucket<DateKey, TimeEntry>>): seq<DailyEntry>
  {
    seq(|lib|, i requires 0 <= i < |lib| => MakeDay(lib[i]))
  }

  /** What getDailyTimeEntries returns for `es`, when `dateOf` gives an instant's local date. */
  function DailyEntries(es: seq<TimeEntry>, dateOf: int -> DateKey): (days: seq<DailyEntry>)
    ensures |days| <= |es|
    ensures days == [] <==> es == []
  {
    GroupBySize(es, DayKey(dateOf));
    MakeDays(GroupBy(es, DayKey(dateOf)))
  }

  function DateKeys(days: seq<DailyEntry>): seq<DateKey>
  {
    seq(|days|, i requires 0 <= i < |days| => days[i].dateStarted)
  }

  function Descriptions(groups: seq<GroupEntry>): seq<string>
  {
    seq(|groups|, i requires 0 <= i < |groups| => groups[i].description)
  }

  function AllDayEntries(days: seq<DailyEntry>): seq<TimeEntry>
  {
    if days == [] then [] else days[0].timeEntries + AllDayEntries(days[1..])
  }

  function AllGroupEntries(groups: seq<GroupEntry>): seq<TimeEntry>
  {
    if groups == [] then [] else groups[0].timeEntries + AllGroupEntries(groups[1..])
  }

  function SumGroupHours(groups: seq<GroupEntry>): real
  {
    if groups == [] then 0.0
    else SumGroupHours(groups[..|groups| - 1]) + groups[|groups| - 1].totalDescHours
  }

  function SumDayHours(days: seq<DailyEntry>): real
  {
    if days == [] then 0.0 else SumDayHours(days[..|days| - 1]) + days[|days| - 1].totalDayHours
  }

  /** Any per-day figure (hours, an amount of money) added over the days. */
  function SumOver(days: seq<DailyEntry>, value: DailyEntry -> real): real
  {
    if days == [] then 0.0 else SumOver(days[..|days| - 1], value) + value(days[|days| - 1])
  }

  function SumBucketHours<K>(lib: seq<Bucket<K, TimeEntry>>): real
  {
    if lib == [] then 0.0 else SumBucketHours(lib[..|lib| - 1]) + TotalHours(lib[|lib| - 1].items)
  }

  // ---------------------------------------------------------------------------
  // Sum invariant: buckets add up to the total of their inputs

  lemma {:induction false} SumBucketHoursAppend<K>(lib: seq<Bucket<K, TimeEntry>>, b: Bucket<K, TimeEntry>)
    ensures SumBucketHours(lib + [b]) == SumBucketHours(lib) + TotalHours(b.items)
  {
    assert (lib + [b])[..|lib|] == lib;
  }

  lemma {:induction false} SumBucketHoursPushAt<K>(lib: seq<Bucket<K, TimeEntry>>, i: nat, e: TimeEntry)
    requires i < |lib|
    ensures SumBucketHours(lib[i := Bucket(lib[i].key, lib[i].items + [e])]) == SumBucketHours(lib) + EntryHours(e)
    decreases |lib|
  {
    var n := |lib|;
    if i == n - 1 {
      SumBucketHoursPushLast(lib, e);
    } else {
      var init := lib[..n - 1];
      SumBucketHoursPushAt(init, i, e);
      SumBucketHoursPushInit(lib, i, e);
    }
  }

  lemma SumBucketHoursPushLast<K>(lib: seq<Bucket<K, TimeEntry>>, e: TimeEntry)
    requires |lib| > 0
    ensures var n := |lib|;
      SumBucketHours(lib[n - 1 := Bucket(lib[n - 1].key, lib[n - 1].items + [e])]) == SumBucketHours(lib) + EntryHours(e)
  {
    var n := |lib|;
    var lib' := lib[n - 1 := Bucket(lib[n - 1].key, lib[n - 1].items + [e])];
    assert lib'[..n - 1] == lib[..n - 1];
    TotalHoursItemsPush(lib[n - 1].items, e);
  }

  lemma SumBucketHoursPushInit<K>(lib: seq<Bucket<K, TimeEntry>>, i: nat, e: TimeEntry)
    requires i < |lib| - 1
    ensures var n, init := |lib|, lib[..|lib| - 1];
      SumBucketHours(lib[i := Bucket(lib[i].key, lib[i].items + [e])])
      == SumBucketHours(init[i := Bucket(init[i].key, init[i].items + [e])]) + TotalHours(lib[n - 1].items)
  {
    var n, init := |lib|, lib[..|lib| - 1];
    var lib' := lib[i := Bucket(lib[i].key, lib[i].items + [e])];
    assert lib'[..n - 1] == init[i := Bucket(init[i].key, init[i].items + [e])];
  }

  lemma TotalHoursItemsPush(items: seq<TimeEntry>, e: TimeEntry)
    ensures TotalHours(items + [e]) == TotalHours(items) + EntryHours(e)
  {
    assert (items + [e])[..|items|] == items;
  }

  /** Grouping never loses or duplicates hours: the buckets' totals add up to the whole. */
  lemma {:induction false} GroupByPreservesHours<K>(es: seq<TimeEntry>, key: TimeEntry -> K)
    ensures SumBucketHours(GroupBy(es, key)) == TotalHours(es)
  {
    if es != [] {
      var init, e := es[..|es| - 1], es[|es| - 1];
      var lib := GroupBy(init, key);
      GroupByPreservesHours(init, key);
      match IndexOf(lib, key(e))
      case Some(i) =>
        SumBucketHoursPushAt(lib, i, e);
      case None =>
        SumBucketHoursAppend(lib, Bucket(key(e), [e]));
        TotalHoursItemsPush([], e);
        assert [] + [e] == [e];
    }
  }

  lemma {:induction false} SumGroupHoursOfBuckets(lib: seq<Bucket<string, TimeEntry>>)
    ensures SumGroupHours(MakeGroups(lib)) == SumBucketHours(lib)
  {
    if lib != [] {
      assert MakeGroups(lib)[..|lib| - 1] == MakeGroups(lib[..|lib| - 1]);
      SumGroupHoursOfBuckets(lib[..|lib| - 1]);
    }
  }

  lemma {:induction false} SumDayHoursOfBuckets(lib: seq<Bucket<DateKey, TimeEntry>>)
    ensures SumDayHours(MakeDays(lib)) == SumBucketHours(lib)
  {
    if lib != [] {
      assert MakeDays(lib)[..|lib| - 1] == MakeDays(lib[..|lib| - 1]);
      SumDayHoursOfBuckets(lib[..|lib| - 1]);
    }
  }

  /** A figure proportional to each day's hours adds up to the same multiple of the total hours. */
  lemma {:induction false} SumOverProportional(days: seq<DailyEntry>, value: DailyEntry -> real, c: real)
    requires forall d :: value(d) == d.totalDayHours * c
    ensures SumOver(days, value) == SumDayHours(days) * c
  {
    if days != [] {
      var init, last := days[..|days| - 1], days[|days| - 1];
      SumOverProportional(init, value, c);
      Distribute(SumDayHours(init), last.totalDayHours, c);
    }
  }

  lemma Distribute(a: real, b: real, c: real)
    ensures (a + b) * c == a * c + b * c
  {
  }

  /** A day's total equals the sum of its description groups' totals. */
  lemma DayTotalIsSumOfGroups(b: Bucket<DateKey, TimeEntry>)
    ensures MakeDay(b).totalDayHours == SumGroupHours(MakeDay(b).groupedTimeEntries)
  {
    GroupByPreservesHours(b.items, DescriptionOf);
    SumGroupHoursOfBuckets(GroupBy(b.items, DescriptionOf));
  }

  /** The days' totals add up to the total hours of all the input entries. */
  lemma DaysPreserveHours(es: seq<TimeEntry>, dateOf: int -> DateKey)
    ensures SumDayHours(DailyEntries(es, dateOf)) == TotalHours(es)
  {
    GroupByPreservesHours(es, DayKey(dateOf));
    SumDayHoursOfBuckets(GroupBy(es, DayKey(dateOf)));
  }

  // ---------------------------------------------------------------------------
  // Day buckets

  lemma {:induction false} AllDayEntriesOfBuckets(lib: seq<Bucket<DateKey, TimeEntry>>)
    ensures AllDayEntries(MakeDays(lib)) == Flatten(lib)
  {
    if lib != [] {
      assert MakeDays(lib)[1..] == MakeDays(lib[1..]);
      AllDayEntriesOfBuckets(lib[1..]);
    }
  }

  /**
   * Days are keyed by the date of their entries' start, each key once, in the
   * order in which the dates first occur in the input; each day holds exactly
   * the inputs with its date, in input order; and together the days hold the
   * input entries, each as often as it occurs.
   */
  lemma DaysPartitionEntries(es: seq<TimeEntry>, dateOf: int -> DateKey)
    ensures var days := DailyEntries(es, dateOf);
      && DateKeys(days) == Distinct(KeysOf(es, DayKey(dateOf)))
      && NoDuplicates(DateKeys(days))
      && InFirstOccurrenceOrder(DateKeys(days), KeysOf(es, DayKey(dateOf)))
      && (forall i :: 0 <= i < |days| ==>
            days[i].timeEntries == Select(es, DayKey(dateOf), days[i].dateStarted))
      && multiset(AllDayEntries(days)) == multiset(es)
  {
    var lib := GroupBy(es, DayKey(dateOf));
    var days := DailyEntries(es, dateOf);
    GroupByKeys(es, DayKey(dateOf));
    assert DateKeys(days) == Keys(lib);
    DistinctProperties(KeysOf(es, DayKey(dateOf)));
    DistinctFirstOccurrenceOrder(KeysOf(es, DayKey(dateOf)));
    GroupByItems(es, DayKey(dateOf));
    AllDayEntriesOfBuckets(lib);
    GroupByPermutation(es, DayKey(dateOf));
  }

  /** Every entry lands in the day of its start date, and only there. */
  lemma EntryLandsInItsStartDay(es: seq<TimeEntry>, dateOf: int -> DateKey, i: nat)
    requires i < |DailyEntries(es, dateOf)|
    ensures forall e :: e in DailyEntries(es, dateOf)[i].timeEntries ==>
      e in es && dateOf(e.start) == DailyEntries(es, dateOf)[i].dateStarted
  {
    var days := DailyEntries(es, dateOf);
    DaysPartitionEntries(es, dateOf);
    SelectHasKey(es, DayKey(dateOf), days[i].dateStarted);
    forall e | e in days[i].timeEntries
      ensures e in es && dateOf(e.start) == days[i].dateStarted
    {
      var j :| 0 <= j < |days[i].timeEntries| && days[i].timeEntries[j] == e;
      assert DayKey(dateOf)(e) == days[i].dateStarted;
      DayEntryInAll(days, i, e);
      assert e in multiset(es);
    }
  }

  lemma {:induction false} DayEntryInAll(days: seq<DailyEntry>, i: nat, e: TimeEntry)
    requires i < |days| && e in days[i].timeEntries
    ensures e in AllDayEntries(days)
    decreases i
  {
    if i > 0 {
      DayEntryInAll(days[1..], i - 1, e);
    }
  }

  /** An entry's day exists: its start date is among the days' keys. */
  lemma EveryEntryHasADay(es: seq<TimeEntry>, dateOf: int -> DateKey, e: TimeEntry)
    requires e in es
    ensures dateOf(e.start) in DateKeys(DailyEntries(es, dateOf))
  {
    DaysPartitionEntries(es, dateOf);
    DistinctProperties(KeysOf(es, DayKey(dateOf)));
    var j :| 0 <= j < |es| && es[j] == e;
    assert KeysOf(es, DayKey(dateOf))[j] == dateOf(e.start);
  }

  /** The `end` of an entry is never consulted for bucketing. */
  lemma BucketingIgnoresEnd(es: seq<TimeEntry>, fs: seq<TimeEntry>, dateOf: int -> DateKey)
    requires |es| == |fs| && forall i :: 0 <= i < |es| ==> es[i].start == fs[i].start
    ensures DateKeys(DailyEntries(es, dateOf)) == DateKeys(DailyEntries(fs, dateOf))
  {
    assert KeysOf(es, DayKey(dateOf)) == KeysOf(fs, DayKey(dateOf));
    DaysPartitionEntries(es, dateOf);
    DaysPartitionEntries(fs, dateOf);
  }

  // ---------------------------------------------------------------------------
  // Description groups within a day

  /** Group ids determine both the description and the index. */
  lemma GroupIdInjective(d1: string, i1: nat, d2: string, i2: nat)
    requires GroupId(d1, i1) == GroupId(d2, i2)
    ensures d1 == d2 && i1 == i2
  {
    var n1, n2 := Text.NatToString(i1), Text.NatToString(i2);
    var s := GroupId(d1, i1);
    // the '_' before the shorter number would be a digit of the longer one
    GroupIdShape(d1, i1);
    GroupIdShape(d2, i2);
    if |n1| != |n2| {
      assert false;
    } else {
      assert n1 == s[|s| - |n1|..] == n2;
      Text.NatToStringInjective(i1, i2);
      assert d1 == s[..|d1|] == d2;
    }
  }

  lemma GroupIdShape(d: string, idx: nat)
    ensures var s, n := GroupId(d, idx), Text.NatToString(idx);
      && s[|s| - |n| - 1] == '_'
      && forall j :: |s| - |n| <= j < |s| ==> Text.IsDigit(s[j])
  {
  }

  /** The description groups of one day, as the source builds them. */
  predicate GroupsOfDay(d: DailyEntry)
  {
    var gs := d.groupedTimeEntries;
    && Descriptions(gs) == Distinct(KeysOf(d.timeEntries, DescriptionOf))
    && NoDuplicates(Descriptions(gs))
    && (forall k :: 0 <= k < |gs| ==>
          gs[k].timeEntries == Select(d.timeEntries, DescriptionOf, gs[k].description)
          && gs[k].timeEntries != []
          && gs[k].id == GroupId(gs[k].description, k)
          && gs[k].totalDescHours == TotalHours(gs[k].timeEntries))
    && multiset(AllGroupEntries(gs)) == multiset(d.timeEntries)
    && |gs| <= |d.timeEntries|
    && (d.timeEntries != [] ==> |gs| >= 1)
  }

  lemma {:induction false} AllGroupEntriesOfBuckets(lib: seq<Bucket<string, TimeEntry>>, offset: nat)
    ensures AllGroupEntries(seq(|lib|, i requires 0 <= i < |lib| => MakeGroup(lib[i], offset + i)))
         == Flatten(lib)
  {
    if lib != [] {
      var gs := seq(|lib|, i requires 0 <= i < |lib| => MakeGroup(lib[i], offset + i));
      assert gs[1..] == seq(|lib[1..]|, i requires 0 <= i < |lib[1..]| => MakeGroup(lib[1..][i], offset + 1 + i));
      AllGroupEntriesOfBuckets(lib[1..], offset + 1);
    }
  }

  /**
   * Within a day, the description groups partition the day's entries: every
   * group holds exactly the day's entries with its description (exact string
   * equality), each description once and in the order the descriptions first
   * occur, numbered `desc_idx` by that position, with its own total.
   */
  lemma MakeDayGroups(b: Bucket<DateKey, TimeEntry>)
    ensures GroupsOfDay(MakeDay(b))
  {
    GroupsAreDistinct(b);
    GroupsSelectByDescription(b);
    GroupsPartitionDay(b);
  }

  /** The groups come in the order in which their descriptions first occur, each once. */
  lemma GroupsAreDistinct(b: Bucket<DateKey, TimeEntry>)
    ensures Descriptions(MakeDay(b).groupedTimeEntries) == Distinct(KeysOf(b.items, DescriptionOf))
    ensures NoDuplicates(Descriptions(MakeDay(b).groupedTimeEntries))
  {
    var lib := GroupBy(b.items, DescriptionOf);
    GroupByKeys(b.items, DescriptionOf);
    DistinctProperties(KeysOf(b.items, DescriptionOf));
    assert Descriptions(MakeDay(b).groupedTimeEntries) == Keys(lib);
  }

  lemma GroupsSelectByDescription(b: Bucket<DateKey, TimeEntry>)
    ensures var gs := MakeDay(b).groupedTimeEntries;
      forall k :: 0 <= k < |gs| ==>
        gs[k].timeEntries == Select(b.items, DescriptionOf, gs[k].description)
        && gs[k].timeEntries != []
        && gs[k].id == GroupId(gs[k].description, k)
        && gs[k].totalDescHours == TotalHours(gs[k].timeEntries)
  {
    GroupByItems(b.items, DescriptionOf);
    GroupBySize(b.items, DescriptionOf);
  }

  lemma GroupsPartitionDay(b: Bucket<DateKey, TimeEntry>)
    ensures var gs := MakeDay(b).groupedTimeEntries;
      && multiset(AllGroupEntries(gs)) == multiset(b.items)
      && |gs| <= |b.items|
      && (b.items != [] ==> |gs| >= 1)
  {
    var lib := GroupBy(b.items, DescriptionOf);
    GroupBySize(b.items, DescriptionOf);
    GroupByPermutation(b.items, DescriptionOf);
    AllGroupEntriesOfBuckets(lib, 0);
    assert MakeGroups(lib) == seq(|lib|, i requires 0 <= i < |lib| => MakeGroup(lib[i], 0 + i));
  }

  /** Every day of the result has well-formed groups whose totals add up to the day's. */
  lemma DaysHaveGroups(es: seq<TimeEntry>, dateOf: int -> DateKey, i: nat)
    requires i < |DailyEntries(es, dateOf)|
    ensures GroupsOfDay(DailyEntries(es, dateOf)[i])
    ensures DailyEntries(es, dateOf)[i].totalDayHours
         == SumGroupHours(DailyEntries(es, dateOf)[i].groupedTimeEntries)
    ensures DailyEntries(es, dateOf)[i].timeEntries != []
  {
    var lib := GroupBy(es, DayKey(dateOf));
    MakeDayGroups(lib[i]);
    DayTotalIsSumOfGroups(lib[i]);
    GroupBySize(es, DayKey(dateOf));
  }

  /** Within a day, the ids of the groups are pairwise different. */
  lemma GroupIdsUnique(d: DailyEntry)
    requires GroupsOfDay(d)
    ensures forall j, k :: 0 <= j < k < |d.groupedTimeEntries| ==>
      d.groupedTimeEntries[j].id != d.groupedTimeEntries[k].id
  {
    var gs := d.groupedTimeEntries;
    forall j, k | 0 <= j < k < |gs|
      ensures gs[j].id != gs[k].id
    {
      if gs[j].id == gs[k].id {
        GroupIdInjective(gs[j].description, j, gs[k].description, k);
      }
    }
  }

  /** Matching is exact: descriptions that differ only in case form two groups. */
  lemma CaseSensitiveGroups(dateOf: int -> DateKey, s1: int, s2: int)
    requires dateOf(s1) == dateOf(s2)
    ensures var days := DailyEntries([TimeEntry("Bug fix", s1, None), TimeEntry("bug fix", s2, None)], dateOf);
      |days| == 1 && |days[0].groupedTimeEntries| == 2
  {
    var es := [TimeEntry("Bug fix", s1, None), TimeEntry("bug fix", s2, None)];
    assert es[..1] == [es[0]];
    assert [es[0]][..0] == [];
    var k := dateOf(s1);
    assert GroupBy(es[..1], DayKey(dateOf)) == Push([], k, es[0]) == [Bucket(k, [es[0]])];
    assert IndexOf([Bucket(k, [es[0]])], k) == Some(0);
    assert DayKey(dateOf)(es[1]) == k;
    assert [es[0]] + [es[1]] == es;
    assert GroupBy(es, DayKey(dateOf)) == Push([Bucket(k, [es[0]])], k, es[1]) == [Bucket(k, es)];
    assert "Bug fix" != "bug fix" by { assert "Bug fix"[0] != "bug fix"[0]; }
    var first := [Bucket("Bug fix", [es[0]])];
    assert GroupBy(es[..1], DescriptionOf) == Push([], "Bug fix", es[0]) == first;
    assert IndexOf(first, "bug fix") == None;
    assert GroupBy(es, DescriptionOf) == first + [Bucket("bug fix", [es[1]])];
  }

  /**
   * Groups are built per day: one description on two days gives two separate
   * groups, each holding only its own day's entry and both numbered 0.
   */
  lemma SameDescriptionOnTwoDays(dateOf: int -> DateKey, desc: string, s1: int, s2: int)
    requires dateOf(s1) != dateOf(s2)
    ensures var e1, e2 := TimeEntry(desc, s1, None), TimeEntry(desc, s2, None);
      var days := DailyEntries([e1, e2], dateOf);
      && |days| == 2
      && days[0].groupedTimeEntries == [GroupEntry(GroupId(desc, 0), desc, [e1], 0.0)]
      && days[1].groupedTimeEntries == [GroupEntry(GroupId(desc, 0), desc, [e2], 0.0)]
  {
    var e1, e2 := TimeEntry(desc, s1, None), TimeEntry(desc, s2, None);
    var es := [e1, e2];
    assert es[..1] == [e1];
    assert [e1][..0] == [];
    var k1, k2 := dateOf(s1), dateOf(s2);
    assert GroupBy(es[..1], DayKey(dateOf)) == Push([], k1, e1) == [Bucket(k1, [e1])];
    assert IndexOf([Bucket(k1, [e1])], k2) == None;
    assert GroupBy(es, DayKey(dateOf)) == [Bucket(k1, [e1]), Bucket(k2, [e2])];
    OneEntryDay(k1, e1);
    OneEntryDay(k2, e2);
  }

  /** A day holding a single entry has a single group with it. */
  lemma OneEntryDay(k: DateKey, e: TimeEntry)
    requires e.end.None?
    ensures MakeDay(Bucket(k, [e])).groupedTimeEntries
         == [GroupEntry(GroupId(e.description, 0), e.description, [e], 0.0)]
  {
    assert [e][..0] == [];
    assert GroupBy([e], DescriptionOf) == Push([], e.description, e) == [Bucket(e.description, [e])];
    assert TotalHours([e]) == 0.0;
  }

  // ---------------------------------------------------------------------------
  // The imperative code

  /** The body of the `.map` over the days: bucket the day's entries by description. */
  method BuildDay(dateStarted: DateKey, timeEntries: seq<TimeEntry>) returns (day: DailyEntry)
    ensures day == MakeDay(Bucket(dateStarted, timeEntries))
  {
    var totalDayHours := TotalHours(timeEntries);
    var byDesc: seq<Bucket<string, TimeEntry>> := [];
    for i := 0 to |timeEntries|
      invariant byDesc == GroupBy(timeEntries[..i], DescriptionOf)
    {
      assert timeEntries[..i + 1][..i] == timeEntries[..i];
      byDesc := PushItem(byDesc, timeEntries[i].description, timeEntries[i]);
    }
    assert timeEntries[..|timeEntries|] == timeEntries;
    var grouped := seq(|byDesc|, idx requires 0 <= idx < |byDesc| =>
      GroupEntry(GroupId(byDesc[idx].key, idx), byDesc[idx].key, byDesc[idx].items, TotalHours(byDesc[idx].items)));
    day := DailyEntry(dateStarted, timeEntries, totalDayHours, grouped);
  }

  /** getDailyTimeEntries: bucket by start date, then build each day. */
  method GetDailyTimeEntries(timeEntries: seq<TimeEntry>, dateOf: int -> DateKey) returns (entriesByDay: seq<DailyEntry>)
    ensures entriesByDay == DailyEntries(timeEntries, dateOf)
  {
    var byDate: seq<Bucket<DateKey, TimeEntry>> := [];
    for i := 0 to |timeEntries|
      invariant byDate == GroupBy(timeEntries[..i], DayKey(dateOf))
    {
      assert timeEntries[..i + 1][..i] == timeEntries[..i];
      byDate := PushItem(byDate, dateOf(timeEntries[i].start), timeEntries[i]);
    }
    assert timeEntries[..|timeEntries|] == timeEntries;
    entriesByDay := [];
    for d := 0 to |byDate|
      invariant |entriesByDay| == d
      invariant forall j :: 0 <= j < d ==> entriesByDay[j] == MakeDay(byDate[j])
    {
      var day := BuildDay(byDate[d].key, byDate[d].items);
      entriesByDay := entriesByDay + [day];
    }
  }
}
