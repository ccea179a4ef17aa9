/** The statistics panel of the home page: which records have enough metadata,
    the oldest and newest of them, the most common main paradigm, the count per
    decade with the most productive decade, and the per-decade timeline. */
module QuickStats {
  import opened Languages
  import opened Text
  import opened Seqs
  import opened Tally

  /** `lang.year > 0 && lang.paradigm`: a year is known and the paradigm is not empty. */
  predicate HasStats(l: Language)
  {
    l.year > 0 && l.paradigm != ""
  }

  /** The records that count towards the statistics: exactly those with a known year
      and a paradigm, in dataset order, each as often as it occurs. */
  function Eligible(langs: seq<Language>): (r: seq<Language>)
    ensures forall l :: l in r <==> l in langs && HasStats(l)
    ensures forall l :: multiset(r)[l] == if HasStats(l) then multiset(langs)[l] else 0
    ensures IsSubsequence(r, langs)
  {
    Filter(HasStats, langs)
  }

  /** Where `s.reduce((oldest, lang) => lang.year < oldest.year ? lang : oldest)` ends:
      a record with the smallest year, and, because the comparison is strict, the
      first such record. */
  function OldestIndex(s: seq<Language>): (k: nat)
    requires |s| > 0
    ensures k < |s|
    ensures forall j :: 0 <= j < |s| ==> s[k].year <= s[j].year
    ensures forall j :: 0 <= j < k ==> s[j].year > s[k].year
  {
    if |s| == 1 then 0
    else
      var k := OldestIndex(s[..|s| - 1]);
      if s[|s| - 1].year < s[k].year then |s| - 1 else k
  }

  /** Where `s.reduce((newest, lang) => lang.year > newest.year ? lang : newest)` ends:
      a record with the largest year, and the first such record. */
  function NewestIndex(s: seq<Language>): (k: nat)
    requires |s| > 0
    ensures k < |s|
    ensures forall j :: 0 <= j < |s| ==> s[j].year <= s[k].year
    ensures forall j :: 0 <= j < k ==> s[j].year < s[k].year
  {
    if |s| == 1 then 0
    else
      var k := NewestIndex(s[..|s| - 1]);
      if s[|s| - 1].year > s[k].year then |s| - 1 else k
  }

  /** `paradigm.split(":")[0].trim()`: the text before the first colon, without
      surrounding whitespace; the whole trimmed paradigm when there is no colon. */
  function MainParadigm(paradigm: string): (r: string)
    ensures ':' !in r
    ensures r == [] || (!IsJsWhitespace(r[0]) && !IsJsWhitespace(r[|r| - 1]))
    ensures ':' !in paradigm ==> r == Trim(paradigm)
    ensures var j := |BeforeColon(paradigm)|;
      && j <= |paradigm| && ':' !in paradigm[..j]
      && (j == |paradigm| || paradigm[j] == ':')
      && r == Trim(paradigm[..j])
  {
    var b := BeforeColon(paradigm);
    assert paradigm[..|b|] == b;
    Trim(b)
  }

  /** `Math.floor(year / 10) * 10`: the multiple of ten whose decade holds `year`. */
  function Decade(year: int): (d: int)
    ensures d <= year < d + 10
    ensures d % 10 == 0
  {
    (year / 10) * 10
  }

  /** The grouping key of each record, in order. */
  function MainParadigms(s: seq<Language>): (keys: seq<string>)
    ensures |keys| == |s|
    ensures forall i :: 0 <= i < |s| ==> keys[i] == MainParadigm(s[i].paradigm)
  {
    seq(|s|, i requires 0 <= i < |s| => MainParadigm(s[i].paradigm))
  }

  function Decades(s: seq<Language>): (keys: seq<int>)
    ensures |keys| == |s|
    ensures forall i :: 0 <= i < |s| ==> keys[i] == Decade(s[i].year)
  {
    seq(|s|, i requires 0 <= i < |s| => Decade(s[i].year))
  }

  /** `paradigmCounts`: records counted per main paradigm; string keys, so the groups
      are enumerated in the order they were created. */
  function ParadigmCounts(s: seq<Language>): (c: Counts<string>)
    ensures WellFormed(c)
    ensures forall i :: 0 <= i < |s| ==> MainParadigm(s[i].paradigm) in c.count
    ensures forall k :: k in c.count ==> k in MainParadigms(s) && c.count[k] == multiset(MainParadigms(s))[k]
    ensures InFirstOccurrenceOrder(MainParadigms(s), c.keys)
  {
    var keys := MainParadigms(s);
    InsertionOrderCounts(keys);
    InsertionOrderIsFirstOccurrence(keys);
    assert forall i :: 0 <= i < |s| ==> keys[i] in keys;
    CountInInsertionOrder(keys)
  }

  /** `decadeCounts`: records counted per decade; integer keys, so the groups are
      enumerated in ascending order of decade. */
  function DecadeCounts(s: seq<Language>): (c: Counts<int>)
    ensures WellFormed(c) && Ascending(c.keys)
    ensures forall i :: 0 <= i < |s| ==> Decade(s[i].year) in c.count
    ensures forall k :: k in c.count ==> k in Decades(s) && c.count[k] == multiset(Decades(s))[k]
  {
    var keys := Decades(s);
    AscendingOrderCounts(keys);
    assert forall i :: 0 <= i < |s| ==> keys[i] in keys;
    CountInAscendingOrder(keys)
  }

  /** The accumulator loop of `paradigmCounts`: one object written in place per record. */
  method CountParadigms(s: seq<Language>) returns (c: Counts<string>)
    ensures c == ParadigmCounts(s)
  {
    var keys: seq<string> := [];
    var count: map<string, int> := map[];
    ghost var seen: seq<string> := [];
    var i := 0;
    while i < |s|
      invariant 0 <= i <= |s|
      invariant |seen| == i && forall j :: 0 <= j < i ==> seen[j] == MainParadigm(s[j].paradigm)
      invariant Counts(keys, count) == CountInInsertionOrder(seen)
    {
      var main := MainParadigm(s[i].paradigm);
      InsertionOrderStep(seen, main);
      keys, count := Increment(keys, count, main);
      seen := seen + [main];
      i := i + 1;
    }
    assert seen == MainParadigms(s);
    c := Counts(keys, count);
  }

  /** The accumulator loop of `decadeCounts`. */
  method CountDecades(s: seq<Language>) returns (c: Counts<int>)
    ensures c == DecadeCounts(s)
  {
    var keys: seq<int> := [];
    var count: map<int, int> := map[];
    ghost var seen: seq<int> := [];
    var i := 0;
    while i < |s|
      invariant 0 <= i <= |s|
      invariant |seen| == i && forall j :: 0 <= j < i ==> seen[j] == Decade(s[j].year)
      invariant Counts(keys, count) == CountInAscendingOrder(seen)
    {
      var decade := Decade(s[i].year);
      AscendingOrderStep(seen, decade);
      keys, count := IncrementAscending(keys, count, decade);
      seen := seen + [decade];
      i := i + 1;
    }
    assert seen == Decades(s);
    c := Counts(keys, count);
  }

  /** `mostCommonParadigm`: the first entry of `Object.entries(paradigmCounts)` after a
      stable sort by descending count. Its count is the number of eligible records with
      that main paradigm, and no main paradigm of an eligible record has more. */
  function MostCommonParadigm(e: seq<Language>): (r: (string, int))
    requires |e| > 0
    ensures r.1 == multiset(MainParadigms(e))[r.0] > 0
    ensures forall i :: 0 <= i < |e| ==>
      multiset(MainParadigms(e))[MainParadigm(e[i].paradigm)] <= r.1
  {
    var keys := MainParadigms(e);
    var c := ParadigmCounts(e);
    InsertionOrderCounts(keys);
    TopEntryIsMostFrequent(c, keys);
    TopEntry(c)
  }

  /** Among main paradigms with the maximal count, the most common one is the one that
      occurs first among the eligible records. */
  lemma MostCommonParadigmTieBreak(e: seq<Language>, i: nat)
    requires i < |e|
    requires multiset(MainParadigms(e))[MainParadigm(e[i].paradigm)] == MostCommonParadigm(e).1
    ensures MostCommonParadigm(e).0 in MainParadigms(e)
    ensures FirstIndex(MainParadigms(e), MostCommonParadigm(e).0)
         <= FirstIndex(MainParadigms(e), MainParadigms(e)[i])
  {
    var keys := MainParadigms(e);
    assert keys[i] in keys;
    FirstOccurringWinsTies(keys, keys[i]);
  }

  /** `mostProductiveDecade`: the first entry of `Object.entries(decadeCounts)` after a
      stable sort by descending count. Its count is the number of eligible records in
      that decade, and no decade of an eligible record has more. */
  function MostProductiveDecade(e: seq<Language>): (r: (int, int))
    requires |e| > 0
    ensures r.1 == multiset(Decades(e))[r.0] > 0
    ensures forall i :: 0 <= i < |e| ==> multiset(Decades(e))[Decade(e[i].year)] <= r.1
  {
    var keys := Decades(e);
    var c := DecadeCounts(e);
    AscendingOrderCounts(keys);
    TopEntryIsMostFrequent(c, keys);
    TopEntry(c)
  }

  /** Decade keys are enumerated in ascending order, so among decades with the maximal
      count the most productive one is the smallest, not the first one met. */
  lemma MostProductiveDecadeTieBreak(e: seq<Language>, i: nat)
    requires i < |e|
    requires multiset(Decades(e))[Decade(e[i].year)] == MostProductiveDecade(e).1
    ensures MostProductiveDecade(e).0 <= Decade(e[i].year)
  {
    var keys := Decades(e);
    assert keys[i] in keys;
    SmallestWinsTies(keys, keys[i]);
  }

  /** A record with only a year and a paradigm, for the examples below. */
  function YearOnly(year: int): Language
  {
    Language("", "", "", year, "Imperative", "", "", "", [])
  }

  /** The decade counter of the example below. */
  lemma DecadeCounterOfExample()
    ensures CountInAscendingOrder([1990, 1980, 1970]) == Counts([1970, 1980, 1990], map[1990 := 1, 1980 := 1, 1970 := 1])
  {
    AscendingOrderStep([], 1990);
    AscendingOrderStep([1990], 1980);
    AscendingOrderStep([1990, 1980], 1970);
    assert [] + [1990] == [1990];
    assert [1990] + [1980] == [1990, 1980];
    assert [1990, 1980] + [1970] == [1990, 1980, 1970];
    assert InsertAscending([1990], 1980) == [1980, 1990];
    assert InsertAscending([1980, 1990], 1970) == [1970, 1980, 1990];
  }

  /** The decade keys of the example below. */
  lemma DecadesOfExample()
    ensures Decades([YearOnly(1995), YearOnly(1983), YearOnly(1972)]) == [1990, 1980, 1970]
  {
    var e := [YearOnly(1995), YearOnly(1983), YearOnly(1972)];
    assert Decade(1995) == 1990 && Decade(1983) == 1980 && Decade(1972) == 1970;
  }

  /** The decade counts of the example below. */
  lemma DecadeCountsOfExample()
    ensures DecadeCounts([YearOnly(1995), YearOnly(1983), YearOnly(1972)])
         == Counts([1970, 1980, 1990], map[1990 := 1, 1980 := 1, 1970 := 1])
  {
    DecadesOfExample();
    DecadeCounterOfExample();
  }

  /** In the example below the three decades tie, and the first key, 1970, wins. */
  lemma TopDecadeOfExample()
    ensures MostProductiveDecade([YearOnly(1995), YearOnly(1983), YearOnly(1972)]) == (1970, 1)
  {
    var ks := [1970, 1980, 1990];
    var m := map[1990 := 1, 1980 := 1, 1970 := 1];
    DecadeCountsOfExample();
    assert ks[..1] == [1970] && ks[..2] == [1970, 1980];
    assert FirstMaxIndex([1970], m) == 0;
    assert FirstMaxIndex([1970, 1980], m) == 0;
    assert FirstMaxIndex(ks, m) == 0;
  }

  /** The timeline of the example below. */
  lemma TimelineOfExample()
    ensures Timeline([YearOnly(1995), YearOnly(1983), YearOnly(1972)]) == [(1970, 1), (1980, 1), (1990, 1)]
  {
    DecadeCountsOfExample();
    assert Entries(Counts([1970, 1980, 1990], map[1990 := 1, 1980 := 1, 1970 := 1]))
        == [(1970, 1), (1980, 1), (1990, 1)];
  }

  /** Decades tie at one record each; the most productive decade is the smallest one,
      1970, although the 1990s are met first, and the timeline lists all three in
      ascending order. */
  lemma DecadeTieExample()
    ensures var e := [YearOnly(1995), YearOnly(1983), YearOnly(1972)];
      && MostProductiveDecade(e) == (1970, 1)
      && Timeline(e) == [(1970, 1), (1980, 1), (1990, 1)]
  {
    TopDecadeOfExample();
    TimelineOfExample();
  }

  /** The main-paradigm counts add up to the number of eligible records. */
  lemma ParadigmCountsSumToEligible(e: seq<Language>)
    ensures var c := ParadigmCounts(e);
      (forall k :: k in c.keys ==> k in c.count) && Total(c.keys, c.count) == |e|
  {
    InsertionOrderCounts(MainParadigms(e));
    CountsSumToLength(ParadigmCounts(e), MainParadigms(e));
  }

  /** The decade counts add up to the number of eligible records, and every eligible
      record has a bucket whose decade holds its year. */
  lemma DecadeCountsSumToEligible(e: seq<Language>)
    ensures var c := DecadeCounts(e);
      && (forall k :: k in c.keys ==> k in c.count)
      && Total(c.keys, c.count) == |e|
      && (forall i :: 0 <= i < |e| ==>
            Decade(e[i].year) in c.count && Decade(e[i].year) <= e[i].year < Decade(e[i].year) + 10)
  {
    var keys := Decades(e);
    AscendingOrderCounts(keys);
    CountsSumToLength(DecadeCounts(e), keys);
    assert forall i :: 0 <= i < |e| ==> keys[i] in keys;
  }

  /** The timeline: `Object.entries(decadeCounts)` sorted by numeric decade. The entries
      are already enumerated in ascending order, so the sort leaves them as they are:
      strictly ascending decades, each with the number of eligible records in it. */
  function Timeline(e: seq<Language>): (t: seq<(int, int)>)
    ensures forall i, j :: 0 <= i < j < |t| ==> t[i].0 < t[j].0
    ensures forall i :: 0 <= i < |t| ==> t[i].1 == multiset(Decades(e))[t[i].0] >= 1
    ensures forall i :: 0 <= i < |e| ==> (Decade(e[i].year), multiset(Decades(e))[Decade(e[i].year)]) in t
  {
    var c := DecadeCounts(e);
    AscendingOrderCounts(Decades(e));
    var t := Entries(c);
    assert forall i :: 0 <= i < |t| ==> c.keys[i] in c.count;
    forall i | 0 <= i < |e| ensures (Decade(e[i].year), multiset(Decades(e))[Decade(e[i].year)]) in t {
      assert Decades(e)[i] in Decades(e);
      var j :| 0 <= j < |c.keys| && c.keys[j] == Decade(e[i].year);
      assert t[j] == (c.keys[j], c.count[c.keys[j]]);
    }
    t
  }

  /** `Math.max(...Object.values(decadeCounts))`: no bar of the timeline is higher,
      it is at least one, and it is the count of the most productive decade. */
  function MaxCount(e: seq<Language>): (m: int)
    requires |e| > 0
    ensures forall i :: 0 <= i < |Timeline(e)| ==> Timeline(e)[i].1 <= m
    ensures m >= 1
    ensures m == MostProductiveDecade(e).1
  {
    var c := DecadeCounts(e);
    var keys := Decades(e);
    AscendingOrderCounts(keys);
    assert keys[0] in c.count;
    var vs := Values(c);
    var m := MaxOf(vs);
    var d := FirstMaxIndex(c.keys, c.count);
    assert m == c.count[c.keys[d]] by {
      var k :| 0 <= k < |vs| && vs[k] == m;
      assert vs[d] <= m;
    }
    assert forall i :: 0 <= i < |Timeline(e)| ==> Timeline(e)[i].1 == vs[i];
    m
  }

  /** The oldest and the newest record bound the year of every record. */
  lemma YearRange(e: seq<Language>)
    requires |e| > 0
    ensures forall l :: l in e ==> e[OldestIndex(e)].year <= l.year <= e[NewestIndex(e)].year
  {
    forall l | l in e ensures e[OldestIndex(e)].year <= l.year <= e[NewestIndex(e)].year {
      var i :| 0 <= i < |e| && e[i] == l;
    }
  }

  /** What the panel shows: the placeholder, or the computed statistics. */
  datatype Stats =
    | NotEnoughData
    | Stats(
        oldest: Language,
        newest: Language,
        mostCommonParadigm: (string, int),
        mostProductiveDecade: (int, int),
        timeline: seq<(int, int)>,
        maxCount: int)

  /** The statistics of `QuickStats`. Fewer than two eligible records give the
      placeholder and nothing else; otherwise the oldest and newest of the eligible
      records bound every eligible year, and no bar of the timeline exceeds the
      maximum, which is at least one. */
  function ComputeStats(langs: seq<Language>): (r: Stats)
    ensures r.NotEnoughData? <==> |Eligible(langs)| < 2
    ensures r.Stats? ==>
      var e := Eligible(langs);
      && r.oldest in e && r.newest in e
      && (forall l :: l in e ==> r.oldest.year <= l.year <= r.newest.year)
    ensures r.Stats? ==>
      && (forall i :: 0 <= i < |r.timeline| ==> r.timeline[i].1 <= r.maxCount)
      && r.maxCount == r.mostProductiveDecade.1 >= 1
    ensures r.Stats? ==>
      var e := Eligible(langs);
      && r.oldest == e[OldestIndex(e)] && r.newest == e[NewestIndex(e)]
      && r.mostCommonParadigm == MostCommonParadigm(e)
      && r.mostProductiveDecade == MostProductiveDecade(e)
      && r.timeline == Timeline(e)
  {
    var e := Eligible(langs);
    if |e| < 2 then NotEnoughData
    else
      var oldest := OldestIndex(e);
      var newest := NewestIndex(e);
      YearRange(e);
      Stats(e[oldest], e[newest], MostCommonParadigm(e), MostProductiveDecade(e), Timeline(e), MaxCount(e))
  }
}
