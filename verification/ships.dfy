/** The ship-traffic data as the queries see it, and reference definitions
    (which countries occur, how often, where first) that the queries are
    proved against. */
module Ships {

  /** One ship entry. Only its `COUNTRY` value is read by the queries, so
      that is the one field modelled; it is always present. */
  datatype Record = Record(country: string)

  /** The `data` list of the loaded file, in file order. */
  type Dataset = seq<Record>

  /** One `(country, count)` item of the per-country tally. */
  datatype Group = Group(country: string, count: nat)

  /** The set of countries that occur in the data. */
  function Countries(data: Dataset): set<string>
    decreases |data|
  {
    if |data| == 0 then {} else {data[0].country} + Countries(data[1..])
  }

  /** How many records carry country `c`. */
  function Occurrences(data: Dataset, c: string): (n: nat)
    ensures n <= |data|
    decreases |data|
  {
    if |data| == 0 then 0
    else (if data[0].country == c then 1 else 0) + Occurrences(data[1..], c)
  }

  /** Position of the first record with country `c`; `|data|` if none. */
  function FirstIndex(data: Dataset, c: string): (k: nat)
    ensures k <= |data|
    decreases |data|
  {
    if |data| == 0 then 0
    else if data[0].country == c then 0
    else 1 + FirstIndex(data[1..], c)
  }

  /** The countries of a list of groups, in order. */
  function Names(g: seq<Group>): (names: seq<string>)
    ensures |names| == |g|
    ensures forall i :: 0 <= i < |g| ==> names[i] == g[i].country
    decreases |g|
  {
    if |g| == 0 then [] else [g[0].country] + Names(g[1..])
  }

  /** Some group is for country `c`: `c in dict` on the tally. */
  predicate HasKey(g: seq<Group>, c: string)
  {
    exists i :: 0 <= i < |g| && g[i].country == c
  }

  /** The listed names are exactly the dict's keys. */
  lemma NamesAreKeys(g: seq<Group>)
    ensures forall c :: c in Names(g) <==> HasKey(g, c)
  {
    forall c
      ensures c in Names(g) <==> HasKey(g, c)
    {
      if c in Names(g) {
        var k :| 0 <= k < |g| && Names(g)[k] == c;
        assert g[k].country == c;
      }
      if HasKey(g, c) {
        var k :| 0 <= k < |g| && g[k].country == c;
        assert Names(g)[k] == c;
      }
    }
  }

  /** No country is listed twice. */
  predicate DistinctNames(g: seq<Group>)
  {
    forall i, j :: 0 <= i < j < |g| ==> g[i].country != g[j].country
  }

  /** The total of all counts. */
  function Total(g: seq<Group>): nat
    decreases |g|
  {
    if |g| == 0 then 0 else g[0].count + Total(g[1..])
  }

  /** A country with a record is one of the data's countries. */
  lemma {:induction false} OccurringIsCountry(data: Dataset, c: string)
    requires Occurrences(data, c) > 0
    ensures c in Countries(data)
    decreases |data|
  {
    if data[0].country != c {
      OccurringIsCountry(data[1..], c);
    }
  }

  /** What appending one record does to the reference definitions: it adds
      its country and one occurrence of it, and moves no first position. */
  lemma {:induction false} Snoc(data: Dataset, x: Record, c: string)
    ensures Countries(data + [x]) == Countries(data) + {x.country}
    ensures Occurrences(data + [x], c) == Occurrences(data, c) + (if c == x.country then 1 else 0)
    ensures FirstIndex(data, c) < |data| <==> c in Countries(data)
    ensures c in Countries(data) ==> FirstIndex(data + [x], c) == FirstIndex(data, c)
    ensures c !in Countries(data) && c == x.country ==> FirstIndex(data + [x], c) == |data|
    decreases |data|
  {
    if |data| > 0 {
      Snoc(data[1..], x, c);
      assert (data + [x])[1..] == data[1..] + [x];
    } else {
      assert data + [x] == [x];
    }
  }

  /** The same facts, read from the other side: the data minus its last record. */
  lemma Init(data: Dataset, c: string)
    requires |data| > 0
    ensures var p, x := data[..|data| - 1], data[|data| - 1];
      && Countries(data) == Countries(p) + {x.country}
      && Occurrences(data, c) == Occurrences(p, c) + (if c == x.country then 1 else 0)
      && (c in Countries(p) ==> FirstIndex(data, c) == FirstIndex(p, c) < |p|)
      && (c !in Countries(p) && c == x.country ==> FirstIndex(data, c) == |p|)
  {
    var p, x := data[..|data| - 1], data[|data| - 1];
    assert data == p + [x];
    Snoc(p, x, c);
  }
}
