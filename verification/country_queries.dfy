/** The two queries of the analyzer: `show_countries` (Titanic.py lines 6-8)
    and `top_countries` (lines 11-20). */
module CountryQueries {
  import opened Ships
  import opened Lex
  import opened StableSort

  /** `sorted({ship["COUNTRY"] for ship in data})`: every country once, in
      ascending string order. Built by adding the records' countries one at
      a time to an ascending, duplicate-free list. */
  function ShowCountries(data: Dataset): (r: seq<string>)
    ensures StrictlyAscending(r)
    ensures forall c :: c in r <==> c in Countries(data)
    decreases |data|
  {
    if |data| == 0 then []
    else
      var p := data[..|data| - 1];
      var x := data[|data| - 1];
      Init(data, x.country);
      InsertUnique(ShowCountries(p), x.country)
  }

  /** The result is THE ascending listing of the countries: any strictly
      ascending list of exactly those countries is equal to it, so the
      order in which records are visited does not matter. */
  lemma ShowCountriesIsSortedSet(data: Dataset, listing: seq<string>)
    requires StrictlyAscending(listing)
    requires forall c :: c in listing <==> c in Countries(data)
    ensures ShowCountries(data) == listing
  {
    AscendingUnique(ShowCountries(data), listing);
  }

  /** One entry per distinct country. */
  lemma {:induction false} ShowCountriesLength(data: Dataset)
    ensures |ShowCountries(data)| == |Countries(data)|
    ensures data == [] ==> ShowCountries(data) == []
  {
    var r := ShowCountries(data);
    forall i, j | 0 <= i < j < |r|
      ensures r[i] != r[j]
    {
      LessIrreflexive(r[i]);
    }
    DistinctCardinality(r);
    assert (set c | c in r) == Countries(data);
  }

  /** `country_counts[c] = country_counts.get(c, 0) + 1` on an
      insertion-ordered dict: an existing key is incremented where it stands,
      a new key is appended with count 1. */
  function Tally(g: seq<Group>, c: string): seq<Group>
    decreases |g|
  {
    if |g| == 0 then [Group(c, 1)]
    else if g[0].country == c then [Group(c, g[0].count + 1)] + g[1..]
    else [g[0]] + Tally(g[1..], c)
  }

  /** An existing key is updated in place; a new key is appended with
      count 1. */
  lemma {:induction false} TallyLength(g: seq<Group>, c: string)
    ensures |Tally(g, c)| == if HasKey(g, c) then |g| else |g| + 1
    ensures !HasKey(g, c) ==> Tally(g, c)[|g|] == Group(c, 1)
    decreases |g|
  {
    if |g| > 0 && g[0].country != c {
      TallyLength(g[1..], c);
      if HasKey(g, c) {
        var k :| 0 <= k < |g| && g[k].country == c;
        assert g[1..][k - 1].country == c;
      }
      if HasKey(g[1..], c) {
        var k :| 0 <= k < |g| - 1 && g[1..][k].country == c;
        assert g[k + 1].country == c;
      }
    } else if |g| > 0 {
      assert g[0].country == c;
    }
  }

  /** On a dict without repeated keys, the update touches only the entry for
      `c`: every other item keeps its place and count. */
  lemma {:induction false} TallyItems(g: seq<Group>, c: string)
    requires DistinctNames(g)
    ensures |Tally(g, c)| >= |g|
    ensures forall i :: 0 <= i < |g| ==>
              Tally(g, c)[i] == Group(g[i].country, g[i].count + if g[i].country == c then 1 else 0)
    decreases |g|
  {
    if |g| > 0 {
      var r := Tally(g, c);
      if g[0].country == c {
        assert forall i :: 0 < i < |g| ==> g[i].country != c;
      } else {
        var t := Tally(g[1..], c);
        assert DistinctNames(g[1..]);
        TallyItems(g[1..], c);
        assert r == [g[0]] + t;
        forall i | 0 < i < |g|
          ensures r[i] == Group(g[i].country, g[i].count + if g[i].country == c then 1 else 0)
        {
          assert g[1..][i - 1] == g[i];
        }
      }
    }
  }

  /** The update keeps keys unique and adds exactly `c` to them. */
  lemma TallyNames(g: seq<Group>, c: string)
    requires DistinctNames(g)
    ensures DistinctNames(Tally(g, c))
    ensures forall d :: HasKey(Tally(g, c), d) <==> HasKey(g, d) || d == c
  {
    TallyLength(g, c);
    TallyItems(g, c);
    var r := Tally(g, c);
    forall d | HasKey(r, d)
      ensures HasKey(g, d) || d == c
    {
      var k :| 0 <= k < |r| && r[k].country == d;
      if k < |g| {
        assert g[k].country == d;
      }
    }
    forall d | HasKey(g, d)
      ensures HasKey(r, d)
    {
      var k :| 0 <= k < |g| && g[k].country == d;
      assert r[k].country == d;
    }
    if !HasKey(g, c) {
      assert r[|g|].country == c;
    } else {
      var k :| 0 <= k < |g| && g[k].country == c;
      assert r[k].country == c;
    }
    forall i, j | 0 <= i < j < |r|
      ensures r[i].country != r[j].country
    {
      assert g[i].country == r[i].country;
      if j < |g| {
        assert g[i].country != g[j].country;
      }
    }
  }

  /** Each update adds exactly one to the total. */
  lemma {:induction false} TallyTotal(g: seq<Group>, c: string)
    ensures Total(Tally(g, c)) == Total(g) + 1
    decreases |g|
  {
    if |g| > 0 {
      var r := Tally(g, c);
      if g[0].country == c {
        assert r[1..] == g[1..];
      } else {
        TallyTotal(g[1..], c);
        assert r[1..] == Tally(g[1..], c);
      }
    }
  }

  /** The dict built by the counting loop (lines 13-17), as its list of
      items: one record at a time, in file order. */
  function GroupCounts(data: Dataset): seq<Group>
    decreases |data|
  {
    if |data| == 0 then []
    else Tally(GroupCounts(data[..|data| - 1]), data[|data| - 1].country)
  }

  /** Every record is counted exactly once. */
  lemma {:induction false} GroupCountsTotal(data: Dataset)
    ensures Total(GroupCounts(data)) == |data|
    decreases |data|
  {
    if |data| > 0 {
      GroupCountsTotal(data[..|data| - 1]);
      TallyTotal(GroupCounts(data[..|data| - 1]), data[|data| - 1].country);
    }
  }

  /** `g` is the item list of the dict the counting loop has built after
      reading `data`: each country of `data` once, with its number of
      records, in order of first appearance. */
  ghost predicate IsTallyOf(g: seq<Group>, data: Dataset)
  {
    && DistinctNames(g)
    && (forall c :: HasKey(g, c) <==> c in Countries(data))
    && (forall i :: 0 <= i < |g| ==> g[i].count == Occurrences(data, g[i].country))
    && (forall i, j :: 0 <= i < j < |g| ==> FirstIndex(data, g[i].country) < FirstIndex(data, g[j].country))
  }

  /** The loop invariant: one more iteration of lines 15-17, reading record
      `x`, turns the tally of the records before it into the tally of
      `p + [x]`. */
  lemma TallyStep(g: seq<Group>, p: Dataset, x: Record)
    requires IsTallyOf(g, p)
    ensures IsTallyOf(Tally(g, x.country), p + [x])
  {
    var r := Tally(g, x.country);
    var data := p + [x];
    TallyLength(g, x.country);
    TallyItems(g, x.country);
    TallyNames(g, x.country);
    Snoc(p, x, x.country);
    forall i | 0 <= i < |r|
      ensures r[i].count == Occurrences(data, r[i].country)
    {
      Snoc(p, x, r[i].country);
      if i == |g| {
        assert Occurrences(p, x.country) == 0 by {
          if Occurrences(p, x.country) > 0 {
            OccurringIsCountry(p, x.country);
          }
        }
      }
    }
    forall i, j | 0 <= i < j < |r|
      ensures FirstIndex(data, r[i].country) < FirstIndex(data, r[j].country)
    {
      assert g[i].country == r[i].country;
      Snoc(p, x, r[i].country);
      Snoc(p, x, r[j].country);
      if j < |g| {
        assert g[j].country == r[j].country;
      }
    }
  }

  /** The counting loop (lines 13-17) lists each country of the data once,
      with the number of its records, in order of first appearance. */
  lemma {:induction false} GroupCountsCorrect(data: Dataset)
    ensures IsTallyOf(GroupCounts(data), data)
    decreases |data|
  {
    if |data| > 0 {
      var p, x := data[..|data| - 1], data[|data| - 1];
      GroupCountsCorrect(p);
      TallyStep(GroupCounts(p), p, x);
      assert data == p + [x];
    }
  }

  /** `sorted_counts[:num]` with `num >= 0`: a prefix of at most `num` items. */
  function TopCountries(data: Dataset, num: nat): (r: seq<Group>)
  {
    var ranked := SortByCountDesc(GroupCounts(data));
    ranked[..if num < |ranked| then num else |ranked|]
  }

  /** Every item of `s` is a country of `data` with its number of records,
      and every country of `data` has an item. */
  ghost predicate CountsAllOf(s: seq<Group>, data: Dataset)
  {
    && (forall i :: 0 <= i < |s| ==>
          s[i].country in Countries(data) && s[i].count == Occurrences(data, s[i].country))
    && (forall c :: c in Countries(data) ==> HasKey(s, c))
  }

  /** `ranked` is what line 19 yields for `data`: every country once, with
      its number of records, by non-increasing count, ties in order of first
      appearance. */
  ghost predicate IsRankingOf(ranked: seq<Group>, data: Dataset)
  {
    && NonIncreasing(ranked)
    && DistinctNames(ranked)
    && CountsAllOf(ranked, data)
    && TiesOrdered(ranked, (a: Group, b: Group) => FirstIndex(data, a.country) < FirstIndex(data, b.country))
    && |ranked| == |Countries(data)|
  }

  /** Sorting a tally keeps its items: same countries, same counts. */
  lemma {:induction false} SortedTallyMembers(g: seq<Group>, data: Dataset)
    requires IsTallyOf(g, data)
    ensures CountsAllOf(SortByCountDesc(g), data)
  {
    var ranked := SortByCountDesc(g);
    forall i | 0 <= i < |ranked|
      ensures ranked[i].country in Countries(data)
      ensures ranked[i].count == Occurrences(data, ranked[i].country)
    {
      SortElement(g, i);
      var k :| 0 <= k < |g| && g[k] == ranked[i];
    }
    forall c | c in Countries(data)
      ensures HasKey(ranked, c)
    {
      var k :| 0 <= k < |g| && g[k].country == c;
      SortKeepsElement(g, k);
      var m :| 0 <= m < |ranked| && ranked[m] == g[k];
    }
  }

  /** A tally has one item per country. */
  lemma TallySize(g: seq<Group>, data: Dataset)
    requires IsTallyOf(g, data)
    ensures |g| == |Countries(data)|
  {
    assert forall i, j :: 0 <= i < j < |g| ==> Names(g)[i] != Names(g)[j];
    DistinctCardinality(Names(g));
    NamesAreKeys(g);
    assert (set c | c in Names(g)) == Countries(data);
  }

  /** Sorting the tally (line 19) gives the ranking of the data. */
  lemma {:induction false} SortedTallyIsRanking(g: seq<Group>, data: Dataset)
    requires IsTallyOf(g, data)
    ensures IsRankingOf(SortByCountDesc(g), data)
  {
    var ranked := SortByCountDesc(g);
    var before := (a: Group, b: Group) => FirstIndex(data, a.country) < FirstIndex(data, b.country);
    SortKeepsTieOrder(g, before);
    SortedTallyMembers(g, data);
    forall i, j | 0 <= i < j < |ranked|
      ensures ranked[i].country != ranked[j].country
    {
      assert ranked[i].count == Occurrences(data, ranked[i].country);
      assert ranked[j].count == Occurrences(data, ranked[j].country);
      if ranked[i].count == ranked[j].count {
        assert before(ranked[i], ranked[j]);
      }
    }
    TallySize(g, data);
  }

  lemma {:induction false} Ranking(data: Dataset)
    ensures IsRankingOf(SortByCountDesc(GroupCounts(data)), data)
  {
    GroupCountsCorrect(data);
    SortedTallyIsRanking(GroupCounts(data), data);
  }

  /** `top_countries(data, num)` returns `min(num, number of countries)`
      items; none for `num == 0` or an empty dataset. */
  lemma {:induction false} TopCountriesLength(data: Dataset, num: nat)
    ensures |TopCountries(data, num)| == if num < |Countries(data)| then num else |Countries(data)|
    ensures num == 0 || data == [] ==> TopCountries(data, num) == []
  {
    Ranking(data);
  }

  /** Each returned item is a country of the data with its exact number of
      records, no country appears twice, and counts never go up. */
  lemma TopCountriesCounts(data: Dataset, num: nat)
    ensures NonIncreasing(TopCountries(data, num))
    ensures DistinctNames(TopCountries(data, num))
    ensures forall i :: 0 <= i < |TopCountries(data, num)| ==>
              TopCountries(data, num)[i].country in Countries(data) &&
              TopCountries(data, num)[i].count == Occurrences(data, TopCountries(data, num)[i].country)
  {
    Ranking(data);
    var ranked := SortByCountDesc(GroupCounts(data));
    RankingPrefix(ranked, data, |TopCountries(data, num)|);
  }

  /** Any prefix of a ranking keeps its order, uniqueness and counts. */
  lemma RankingPrefix(ranked: seq<Group>, data: Dataset, k: nat)
    requires IsRankingOf(ranked, data) && k <= |ranked|
    ensures NonIncreasing(ranked[..k]) && DistinctNames(ranked[..k])
    ensures forall i :: 0 <= i < k ==>
              ranked[..k][i].country in Countries(data) &&
              ranked[..k][i].count == Occurrences(data, ranked[..k][i].country)
  {
  }

  /** Countries with equal counts come in the order in which the data first
      mentions them (insertion-ordered dict plus stable sort). */
  lemma TopCountriesTies(data: Dataset, num: nat)
    ensures forall i, j ::
              0 <= i < j < |TopCountries(data, num)| && TopCountries(data, num)[i].count == TopCountries(data, num)[j].count
              ==> FirstIndex(data, TopCountries(data, num)[i].country) < FirstIndex(data, TopCountries(data, num)[j].country)
  {
    Ranking(data);
    var ranked := SortByCountDesc(GroupCounts(data));
    var r := TopCountries(data, num);
    forall i, j | 0 <= i < j < |r| && r[i].count == r[j].count
      ensures FirstIndex(data, r[i].country) < FirstIndex(data, r[j].country)
    {
      assert r[i] == ranked[i] && r[j] == ranked[j];
    }
  }

  /** They really are the top ones: a country left out of the result has no
      more records than any country in it. */
  lemma {:induction false} TopCountriesIsTop(data: Dataset, num: nat, c: string)
    requires c in Countries(data) && !HasKey(TopCountries(data, num), c)
    ensures forall i :: 0 <= i < |TopCountries(data, num)| ==> Occurrences(data, c) <= TopCountries(data, num)[i].count
    ensures forall i :: 0 <= i < |TopCountries(data, num)| && TopCountries(data, num)[i].count == Occurrences(data, c) ==>
              FirstIndex(data, TopCountries(data, num)[i].country) < FirstIndex(data, c)
  {
    var ranked := SortByCountDesc(GroupCounts(data));
    Ranking(data);
    var r := TopCountries(data, num);
    assert r == ranked[..|r|];
    RankingPrefixIsTop(ranked, data, |r|, c);
  }

  /** A country beyond the first `k` of a ranking has no more records than
      any of them, and when it ties with one of them, that one appears
      earlier in the data. */
  lemma {:induction false} RankingPrefixIsTop(ranked: seq<Group>, data: Dataset, k: nat, c: string)
    requires IsRankingOf(ranked, data) && k <= |ranked|
    requires c in Countries(data) && !HasKey(ranked[..k], c)
    ensures forall i :: 0 <= i < k ==> Occurrences(data, c) <= ranked[i].count
    ensures forall i :: 0 <= i < k && ranked[i].count == Occurrences(data, c) ==>
              FirstIndex(data, ranked[i].country) < FirstIndex(data, c)
  {
    var m :| 0 <= m < |ranked| && ranked[m].country == c;
    forall i | 0 <= i < k
      ensures ranked[i].country != c
    {
      assert ranked[..k][i].country == ranked[i].country;
    }
    assert k <= m;
    assert ranked[m].count == Occurrences(data, c);
    forall i | 0 <= i < k && ranked[i].count == Occurrences(data, c)
      ensures FirstIndex(data, ranked[i].country) < FirstIndex(data, c)
    {
      var before := (a: Group, b: Group) => FirstIndex(data, a.country) < FirstIndex(data, b.country);
      assert TiesOrdered(ranked, before);
      assert before(ranked[i], ranked[m]);
    }
  }

  /** Asking for at least as many items as there are countries returns every
      group, each exactly once, and the counts add up to the record count. */
  lemma {:induction false} TopCountriesAll(data: Dataset, num: nat)
    requires num >= |Countries(data)|
    ensures multiset(TopCountries(data, num)) == multiset(GroupCounts(data))
    ensures Total(TopCountries(data, num)) == |data|
  {
    Ranking(data);
    GroupCountsTotal(data);
    var ranked := SortByCountDesc(GroupCounts(data));
    assert TopCountries(data, num) == ranked;
  }
}
