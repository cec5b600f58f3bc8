/** The derivations the résumé page makes from its experience entries: the
    timeline in newest-first order, and the "years of experience" summary
    with its seniority tier. */
module Experiences {
  import opened Wrappers
  import opened Text
  import opened Calendar
  import opened Periods
  import opened Sorting

  /** An entry of the work timeline. Its bullets and stack are only
      rendered, so they are not carried. */
  datatype Experience = Experience(role: String, company: String, location: String, period: String)

  function Range(e: Experience): PeriodRange {
    ExtractPeriodRange(Some(e.period))
  }

  /** The sort key: extractPeriodRange(period).end. */
  function End(e: Experience): int {
    Range(e).end
  }

  // ---------- Newest-first ordering ----------

  /** sortedExperiences: the entries are spread into a fresh array, which is
      then sorted in place by descending end; the input is left alone. */
  method SortedExperiences(experiences: array<Experience>) returns (sorted: array<Experience>)
    ensures fresh(sorted)
    ensures sorted[..] == SortDesc(experiences[..], End)
    ensures experiences[..] == old(experiences[..])
  {
    sorted := new Experience[experiences.Length](k reads experiences requires 0 <= k < experiences.Length => experiences[k]);
    assert sorted[..] == experiences[..];
    SortInPlace(sorted, End);
  }

  /** The timeline is newest first, holds exactly the input entries, keeps
      entries with the same end in input order, and puts every entry whose
      end is not positive (no year found, 1970, or earlier) after every
      entry with a positive end. */
  lemma NewestFirst(exps: seq<Experience>)
    ensures var r := SortDesc(exps, End);
      && NonIncreasing(r, End)
      && multiset(r) == multiset(exps)
      && (forall t :: WithKey(r, End, t) == WithKey(exps, End, t))
      && (forall i, j :: 0 <= i < j < |r| && End(r[i]) <= 0 ==> End(r[j]) <= 0)
  {
    SortDescSpec(exps, End);
  }

  // ---------- Experience summary ----------

  /** The four seniority levels, lowest first. */
  datatype Tier = Junior | Pleno | Senior | Especialista

  function TierName(t: Tier): String {
    match t
    case Junior => "Júnior"
    case Pleno => "Pleno"
    case Senior => "Sênior"
    case Especialista => "Especialista"
  }

  /** Each tier has its own name, so the label names the tier. */
  lemma TierNamesDistinct(t1: Tier, t2: Tier)
    ensures TierName(t1) == TierName(t2) <==> t1 == t2
  {
  }

  function Rank(t: Tier): nat {
    match t
    case Junior => 0
    case Pleno => 1
    case Senior => 2
    case Especialista => 3
  }

  /** The proficiency if-chain over totalYears = elapsed / MS_YEAR. Each
      bound is inclusive. Comparing the quotient of two integers below 2^53
      against 10, 6 or 3 gives the same answer in floating point as exactly,
      so the thresholds are stated on the elapsed milliseconds. */
  function TierOf(elapsed: int): (t: Tier)
    ensures t == Especialista <==> elapsed >= 10 * MsPerYear
    ensures t == Senior <==> 6 * MsPerYear <= elapsed < 10 * MsPerYear
    ensures t == Pleno <==> 3 * MsPerYear <= elapsed < 6 * MsPerYear
    ensures t == Junior <==> elapsed < 3 * MsPerYear
  {
    if elapsed >= 10 * MsPerYear then Especialista
    else if elapsed >= 6 * MsPerYear then Senior
    else if elapsed >= 3 * MsPerYear then Pleno
    else Junior
  }

  /** More elapsed time never lowers the tier. */
  lemma TierMonotone(e1: int, e2: int)
    requires e1 <= e2
    ensures Rank(TierOf(e1)) <= Rank(TierOf(e2))
  {
  }

  /** { label: "", years: 0 } is NoSummary; otherwise the earliest known
      start, the time elapsed since it, and the tier. The label's text and
      the fractional years are formatting left out of this model. */
  datatype ExperienceSummary = NoSummary | Summary(earliestStart: int, elapsed: int, tier: Tier)

  /** The starts that survive the filter r.start > 0, in order. */
  function PositiveStarts(ranges: seq<PeriodRange>): (starts: seq<int>)
    ensures forall x :: x in starts ==> x > 0
    ensures forall x :: x in starts ==> exists k :: 0 <= k < |ranges| && ranges[k].start == x
    ensures forall k :: 0 <= k < |ranges| && ranges[k].start > 0 ==> ranges[k].start in starts
  {
    if ranges == [] then []
    else
      var rest := PositiveStarts(ranges[1..]);
      assert forall x :: x in rest ==> exists k :: 0 <= k < |ranges| && ranges[k].start == x by {
        forall x | x in rest ensures exists k :: 0 <= k < |ranges| && ranges[k].start == x {
          var k :| 0 <= k < |ranges[1..]| && ranges[1..][k].start == x;
          assert ranges[k + 1].start == x;
        }
      }
      assert forall k :: 1 <= k < |ranges| && ranges[k].start > 0 ==> ranges[k].start in rest by {
        forall k | 1 <= k < |ranges| && ranges[k].start > 0 ensures ranges[k].start in rest {
          assert ranges[1..][k - 1] == ranges[k];
        }
      }
      if ranges[0].start > 0 then [ranges[0].start] + rest else rest
  }

  /** Math.min over a non-empty list. */
  function Min(xs: seq<int>): (m: int)
    requires xs != []
    ensures m in xs && forall x :: x in xs ==> m <= x
  {
    if |xs| == 1 then xs[0]
    else
      var rest := Min(xs[1..]);
      assert forall x :: x in xs ==> x == xs[0] || x in xs[1..];
      if xs[0] <= rest then xs[0] else rest
  }

  /** The summary of a list of ranges at time `now`: ranges whose start is
      not positive are ignored; without any left there is no summary;
      otherwise the earliest start is the least positive start. */
  function SummaryOfRanges(ranges: seq<PeriodRange>, now: int): (s: ExperienceSummary)
    ensures s.NoSummary? <==> forall k :: 0 <= k < |ranges| ==> ranges[k].start <= 0
    ensures s.Summary? ==>
      && s.earliestStart > 0
      && (exists k :: 0 <= k < |ranges| && ranges[k].start == s.earliestStart)
      && (forall k :: 0 <= k < |ranges| && ranges[k].start > 0 ==> s.earliestStart <= ranges[k].start)
      && s.elapsed == now - s.earliestStart
      && s.tier == TierOf(s.elapsed)
  {
    var starts := PositiveStarts(ranges);
    if |starts| == 0 then NoSummary
    else
      var earliest := Min(starts);
      Summary(earliest, now - earliest, TierOf(now - earliest))
  }

  function Ranges(exps: seq<Experience>): (r: seq<PeriodRange>)
    ensures |r| == |exps| && forall k :: 0 <= k < |exps| ==> r[k] == Range(exps[k])
  {
    if exps == [] then [] else [Range(exps[0])] + Ranges(exps[1..])
  }

  /** experienceSummary, with Date.now() passed in as `now`. */
  function SummaryOf(exps: seq<Experience>, now: int): ExperienceSummary {
    SummaryOfRanges(Ranges(exps), now)
  }

  /** Some range of the list starts at x. */
  ghost predicate HasStart(ranges: seq<PeriodRange>, x: int) {
    exists k :: 0 <= k < |ranges| && ranges[k].start == x
  }

  /** Two lists of ranges with the same positive starts have the same
      summary. */
  lemma SummaryDependsOnStarts(r1: seq<PeriodRange>, r2: seq<PeriodRange>, now: int)
    requires forall x :: x > 0 ==> (HasStart(r1, x) <==> HasStart(r2, x))
    ensures SummaryOfRanges(r1, now) == SummaryOfRanges(r2, now)
  {
    var s1, s2 := SummaryOfRanges(r1, now), SummaryOfRanges(r2, now);
    if s1.Summary? {
      assert HasStart(r1, s1.earliestStart);
      var k2 :| 0 <= k2 < |r2| && r2[k2].start == s1.earliestStart;
    }
    if s2.Summary? {
      assert HasStart(r2, s2.earliestStart);
      var k1 :| 0 <= k1 < |r1| && r1[k1].start == s2.earliestStart;
    }
  }

  /** Every entry of a being an entry of b carries a's starts over to b. */
  lemma StartsCarryOver(a: seq<Experience>, b: seq<Experience>, x: int)
    requires forall e :: e in a ==> e in b
    ensures HasStart(Ranges(a), x) ==> HasStart(Ranges(b), x)
  {
    if HasStart(Ranges(a), x) {
      var k :| 0 <= k < |a| && Ranges(a)[k].start == x;
      assert a[k] in b;
      var k' :| 0 <= k' < |b| && b[k'] == a[k];
      assert Ranges(b)[k'].start == x;
    }
  }

  /** The summary reads the entries in source order, but any reordering of
      them, the newest-first timeline included, gives the same summary. */
  lemma SummaryOrderFree(exps: seq<Experience>, now: int)
    ensures SummaryOf(SortDesc(exps, End), now) == SummaryOf(exps, now)
  {
    var sorted := SortDesc(exps, End);
    SortDescSpec(exps, End);
    forall e | e in sorted ensures e in exps {
      assert e in multiset(sorted);
    }
    forall e | e in exps ensures e in sorted {
      assert e in multiset(exps);
    }
    forall x | x > 0 ensures HasStart(Ranges(sorted), x) <==> HasStart(Ranges(exps), x) {
      StartsCarryOver(sorted, exps, x);
      StartsCarryOver(exps, sorted, x);
    }
    SummaryDependsOnStarts(Ranges(sorted), Ranges(exps), now);
  }

  /** A later `now` never gives a lower tier. */
  lemma TierGrowsWithTime(exps: seq<Experience>, now1: int, now2: int)
    requires now1 <= now2 && SummaryOf(exps, now1).Summary?
    ensures SummaryOf(exps, now2).Summary?
    ensures Rank(SummaryOf(exps, now1).tier) <= Rank(SummaryOf(exps, now2).tier)
  {
    var s1, s2 := SummaryOf(exps, now1), SummaryOf(exps, now2);
    assert s1.earliestStart == s2.earliestStart by {
      var r := Ranges(exps);
      var k1 :| 0 <= k1 < |r| && r[k1].start == s1.earliestStart;
      var k2 :| 0 <= k2 < |r| && r[k2].start == s2.earliestStart;
    }
    TierMonotone(s1.elapsed, s2.elapsed);
  }

  /** An entry whose start is not positive (no year, 1970, or before 1970)
      does not change the summary. */
  lemma IgnoredEntry(exps: seq<Experience>, e: Experience, now: int)
    requires Range(e).start <= 0
    ensures SummaryOf(exps + [e], now) == SummaryOf(exps, now)
  {
    var longer := exps + [e];
    forall x | x > 0 ensures HasStart(Ranges(longer), x) <==> HasStart(Ranges(exps), x) {
      if HasStart(Ranges(longer), x) {
        var k :| 0 <= k < |longer| && Ranges(longer)[k].start == x;
        assert longer[k] == exps[k];
        assert Ranges(exps)[k].start == x;
      }
      if HasStart(Ranges(exps), x) {
        var k :| 0 <= k < |exps| && Ranges(exps)[k].start == x;
        assert longer[k] == exps[k];
        assert Ranges(longer)[k].start == x;
      }
    }
    SummaryDependsOnStarts(Ranges(longer), Ranges(exps), now);
  }

  /** A label "a–b" or "a-b" starting in 1970 or earlier is dropped by the
      start > 0 filter: 1970 collides with the "no year" sentinel, and
      earlier years start before the epoch. */
  lemma EarlyLabelIgnored(exps: seq<Experience>, e: Experience, a: int, sep: char, b: int, now: int)
    requires 1900 <= a <= 1970 && 1900 <= b <= 2099 && IsDash(sep)
    requires e.period == YearText(a) + [sep] + YearText(b)
    ensures SummaryOf(exps + [e], now) == SummaryOf(exps, now)
  {
    YearRangeLabel(a, sep, b);
    YearStartSign(a);
    IgnoredEntry(exps, e, now);
  }

  function Entry(period: String): Experience {
    Experience("", "", "", period)
  }

  lemma ExampleRanges()
    ensures Ranges([Entry("2023–2025"), Entry("2021–2023"), Entry("2020-2020")])
      == [PeriodRange(YearStart(2023), YearStart(2025)), PeriodRange(YearStart(2021), YearStart(2023)),
          PeriodRange(YearStart(2020), YearStart(2020))]
  {
    assert "2023–2025" == YearText(2023) + ['–'] + YearText(2025);
    assert "2021–2023" == YearText(2021) + ['–'] + YearText(2023);
    assert "2020-2020" == YearText(2020) + ['-'] + YearText(2020);
    YearRangeLabel(2023, '–', 2025);
    YearRangeLabel(2021, '–', 2023);
    YearRangeLabel(2020, '-', 2020);
  }

  /** Periods 2023–2025, 2021–2023 and 2020-2020 (whose ranges ExampleRanges
      gives), seen on 1 January 2025: the earliest start is 2020, 1827 days
      earlier, which is tier Pleno. */
  lemma SummaryExample(r: seq<PeriodRange>)
    requires r == [PeriodRange(YearStart(2023), YearStart(2025)), PeriodRange(YearStart(2021), YearStart(2023)),
                   PeriodRange(YearStart(2020), YearStart(2020))]
    ensures SummaryOfRanges(r, YearStart(2025)) == Summary(YearStart(2020), 157_852_800_000, Pleno)
  {
    YearStartSign(2020);
    YearStartIncreasing(2020, 2021);
    YearStartIncreasing(2020, 2023);
    KnownYearStarts();
    var s := SummaryOfRanges(r, YearStart(2025));
    var k :| 0 <= k < 3 && r[k].start == s.earliestStart;
    assert s.earliestStart <= r[2].start;
  }
}
