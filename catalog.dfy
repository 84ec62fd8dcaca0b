/** The catalog lists of one synergy: the regular, additional, unique,
    legendary and special units, each reduced to the first unit of every
    family, the additional ones restricted to unlocked families and the
    regular ones ordered by rarity cost. */
module Catalog {
  import opened Types

  /** `units.findIndex((x) => family[x] === f)` started at position `k`:
      the first position at or after `k` whose unit is of family `f`, or -1. */
  function FindIndexFrom(units: seq<Pkm>, family: FamilyTable, f: Pkm, k: nat): (r: int)
    requires k <= |units|
    ensures r == -1 || k <= r < |units|
    ensures r == -1 ==> forall j | k <= j < |units| :: family(units[j]) != f
    ensures r != -1 ==> family(units[r]) == f && forall j | k <= j < r :: family(units[j]) != f
    decreases |units| - k
  {
    if k == |units| then -1
    else if family(units[k]) == f then k
    else FindIndexFrom(units, family, f, k + 1)
  }

  function FindIndex(units: seq<Pkm>, family: FamilyTable, f: Pkm): int {
    FindIndexFrom(units, family, f, 0)
  }

  /** The filter test `arr.findIndex(...) === i`: position `i` holds the
      first unit of its family. */
  predicate IsFirstOfFamily(units: seq<Pkm>, family: FamilyTable, i: nat)
    requires i < |units|
  {
    FindIndex(units, family, family(units[i])) == i
  }

  /** The family-deduplicating `filter`, applied from position `i` on. */
  function DedupFrom(units: seq<Pkm>, family: FamilyTable, i: nat): seq<Pkm>
    requires i <= |units|
    decreases |units| - i
  {
    if i == |units| then []
    else (if IsFirstOfFamily(units, family, i) then [units[i]] else [])
         + DedupFrom(units, family, i + 1)
  }

  /** "Remove duplicates of same family": keep the first unit of each family. */
  function Dedup(units: seq<Pkm>, family: FamilyTable): seq<Pkm> {
    DedupFrom(units, family, 0)
  }

  /** No two units of `s` belong to the same family. */
  ghost predicate FamilyUnique(s: seq<Pkm>, family: FamilyTable) {
    forall i, j | 0 <= i < j < |s| :: family(s[i]) != family(s[j])
  }

  /** `.filter((p) => unlocked.includes(family[p]))`. */
  function FilterUnlocked(units: seq<Pkm>, unlocked: seq<Pkm>, family: FamilyTable): (r: seq<Pkm>)
    ensures forall u :: u in r <==> u in units && family(u) in unlocked
    ensures forall u {:trigger multiset(r)[u]} :: multiset(r)[u] == if family(u) in unlocked then multiset(units)[u] else 0
    ensures IsSubsequence(r, units)
  {
    if units == [] then []
    else
      assert units == [units[0]] + units[1..];
      if family(units[0]) in unlocked then [units[0]] + FilterUnlocked(units[1..], unlocked, family)
      else FilterUnlocked(units[1..], unlocked, family)
  }

  /** `.map((p) => getPokemonData(p))`. */
  function ToData(units: seq<Pkm>, data: Pkm -> PokemonData): seq<PokemonData> {
    seq(|units|, i requires 0 <= i < |units| => data(units[i]))
  }

  // ---------------------------------------------------------------------
  // Ordering by rarity cost

  ghost predicate SortedByCost(s: seq<PokemonData>, cost: Rarity -> int) {
    forall i, j | 0 <= i < j < |s| :: cost(s[i].rarity) <= cost(s[j].rarity)
  }

  /** Places `x` before the first element that costs at least as much,
      so equal-cost units keep their relative order. */
  function InsertByCost(x: PokemonData, s: seq<PokemonData>, cost: Rarity -> int): (r: seq<PokemonData>)
    ensures multiset(r) == multiset(s) + multiset{x}
  {
    if s == [] || cost(x.rarity) <= cost(s[0].rarity) then [x] + s
    else
      assert s == [s[0]] + s[1..];
      [s[0]] + InsertByCost(x, s[1..], cost)
  }

  /** Inserting into an ordered list keeps it ordered. */
  lemma {:induction false} InsertByCostSorted(x: PokemonData, s: seq<PokemonData>, cost: Rarity -> int)
    requires SortedByCost(s, cost)
    ensures SortedByCost(InsertByCost(x, s, cost), cost)
  {
    if s == [] || cost(x.rarity) <= cost(s[0].rarity) {
      SortedCons(x, s, cost);
    } else {
      var rest := InsertByCost(x, s[1..], cost);
      InsertByCostSorted(x, s[1..], cost);
      forall d | d in rest ensures cost(s[0].rarity) <= cost(d.rarity) {
        assert d in multiset(rest);
      }
      SortedCons(s[0], rest, cost);
    }
  }

  /** Prepending an element no dearer than the rest keeps the order. */
  lemma SortedCons(a: PokemonData, rest: seq<PokemonData>, cost: Rarity -> int)
    requires forall d | d in rest :: cost(a.rarity) <= cost(d.rarity)
    ensures SortedByCost(rest, cost) ==> SortedByCost([a] + rest, cost)
  {
    var r := [a] + rest;
    if SortedByCost(rest, cost) {
      forall i, j | 0 <= i < j < |r| ensures cost(r[i].rarity) <= cost(r[j].rarity) {
        assert r[j] == rest[j - 1];
        if i > 0 { assert r[i] == rest[i - 1]; }
      }
    }
  }

  /** `.sort((a, b) => RarityCost[a.rarity] - RarityCost[b.rarity])`, a
      stable sort by rarity cost. */
  function SortByCost(s: seq<PokemonData>, cost: Rarity -> int): (r: seq<PokemonData>)
    ensures multiset(r) == multiset(s)
    ensures SortedByCost(r, cost)
  {
    if s == [] then []
    else
      assert s == [s[0]] + s[1..];
      InsertByCostSorted(s[0], SortByCost(s[1..], cost), cost);
      InsertByCost(s[0], SortByCost(s[1..], cost), cost)
  }

  // ---------------------------------------------------------------------
  // The five category lists

  /** The regular units: deduplicated by family, then ordered by cost. */
  function Regulars(units: seq<Pkm>, family: FamilyTable, data: Pkm -> PokemonData,
                    cost: Rarity -> int): (r: seq<PokemonData>)
    ensures SortedByCost(r, cost)
    ensures multiset(r) == multiset(ToData(Dedup(units, family), data))
  {
    SortByCost(ToData(Dedup(units, family), data), cost)
  }

  /** The additional units: restricted to unlocked families, then
      deduplicated by family, in catalog order. */
  function Additionals(units: seq<Pkm>, unlocked: seq<Pkm>, family: FamilyTable,
                       data: Pkm -> PokemonData): seq<PokemonData>
  {
    ToData(Dedup(FilterUnlocked(units, unlocked, family), family), data)
  }

  /** The unique, legendary and special units: deduplicated by family, in
      catalog order. */
  function Listed(units: seq<Pkm>, family: FamilyTable, data: Pkm -> PokemonData): seq<PokemonData> {
    ToData(Dedup(units, family), data)
  }

  // ---------------------------------------------------------------------
  // Properties of the deduplication

  /** The first unit of a family is found at or before any unit of it. */
  lemma FindIndexIsFirst(units: seq<Pkm>, family: FamilyTable, i: nat)
    requires i < |units|
    ensures 0 <= FindIndex(units, family, family(units[i])) <= i
    ensures family(units[FindIndex(units, family, family(units[i]))]) == family(units[i])
  {
  }

  /** The deduplicated list holds exactly the units that stand first in
      their family. */
  lemma {:induction false} DedupFromMembers(units: seq<Pkm>, family: FamilyTable, i: nat, y: Pkm)
    requires i <= |units|
    ensures y in DedupFrom(units, family, i) <==>
              exists j | i <= j < |units| :: units[j] == y && IsFirstOfFamily(units, family, j)
    decreases |units| - i
  {
    if i < |units| {
      DedupFromMembers(units, family, i + 1, y);
    }
  }

  /** Deduplication only drops units; it never reorders them. */
  lemma {:induction false} DedupFromIsSubsequence(units: seq<Pkm>, family: FamilyTable, i: nat)
    requires i <= |units|
    ensures IsSubsequence(DedupFrom(units, family, i), units[i..])
    decreases |units| - i
  {
    if i < |units| {
      var rest := DedupFrom(units, family, i + 1);
      DedupFromIsSubsequence(units, family, i + 1);
      assert units[i..][1..] == units[i + 1..];
      if IsFirstOfFamily(units, family, i) {
        assert DedupFrom(units, family, i) == [units[i]] + rest;
        assert ([units[i]] + rest)[1..] == rest;
      } else {
        assert DedupFrom(units, family, i) == rest;
      }
    }
  }

  /** No two units of a deduplicated list share a family. */
  lemma {:induction false} DedupFromFamilyUnique(units: seq<Pkm>, family: FamilyTable, i: nat)
    requires i <= |units|
    ensures FamilyUnique(DedupFrom(units, family, i), family)
    decreases |units| - i
  {
    if i < |units| {
      var rest := DedupFrom(units, family, i + 1);
      DedupFromFamilyUnique(units, family, i + 1);
      if IsFirstOfFamily(units, family, i) {
        var r := [units[i]] + rest;
        forall b | 0 <= b < |rest| ensures family(rest[b]) != family(units[i]) {
          DedupFromMembers(units, family, i + 1, rest[b]);
          var j :| i + 1 <= j < |units| && units[j] == rest[b] && IsFirstOfFamily(units, family, j);
        }
        forall a, b | 0 <= a < b < |r| ensures family(r[a]) != family(r[b]) {
          if a > 0 { assert r[a] == rest[a - 1] && r[b] == rest[b - 1]; }
          else { assert r[b] == rest[b - 1]; }
        }
      }
    }
  }

  /** Every family that occurs in the input is kept, by its first unit. */
  lemma DedupCoversFamilies(units: seq<Pkm>, family: FamilyTable, k: nat)
    requires k < |units|
    ensures var f := FindIndex(units, family, family(units[k]));
            0 <= f <= k && family(units[f]) == family(units[k]) && units[f] in Dedup(units, family)
  {
    var f := FindIndex(units, family, family(units[k]));
    FindIndexIsFirst(units, family, k);
    assert IsFirstOfFamily(units, family, f);
    DedupFromMembers(units, family, 0, units[f]);
  }

  /** The properties the view relies on, for the list as a whole: a
      family-unique subsequence of its input that keeps every family. */
  lemma DedupIsFamilyRepresentatives(units: seq<Pkm>, family: FamilyTable)
    ensures IsSubsequence(Dedup(units, family), units)
    ensures FamilyUnique(Dedup(units, family), family)
    ensures forall k | 0 <= k < |units| ::
              exists y | y in Dedup(units, family) :: family(y) == family(units[k])
  {
    DedupFromIsSubsequence(units, family, 0);
    assert units[0..] == units;
    DedupFromFamilyUnique(units, family, 0);
    forall k | 0 <= k < |units|
      ensures exists y | y in Dedup(units, family) :: family(y) == family(units[k])
    {
      DedupCoversFamilies(units, family, k);
    }
  }

  /** A family-unique list is left as it is. */
  lemma {:induction false} DedupFromOfUnique(units: seq<Pkm>, family: FamilyTable, i: nat)
    requires FamilyUnique(units, family) && i <= |units|
    ensures DedupFrom(units, family, i) == units[i..]
    decreases |units| - i
  {
    if i < |units| {
      DedupFromOfUnique(units, family, i + 1);
      FindIndexIsFirst(units, family, i);
      assert IsFirstOfFamily(units, family, i);
      assert units[i..] == [units[i]] + units[i + 1..];
    }
  }

  /** Deduplicating twice is the same as deduplicating once. */
  lemma DedupIdempotent(units: seq<Pkm>, family: FamilyTable)
    ensures Dedup(Dedup(units, family), family) == Dedup(units, family)
  {
    var d := Dedup(units, family);
    DedupFromFamilyUnique(units, family, 0);
    DedupFromOfUnique(d, family, 0);
    assert d[0..] == d;
  }

  /** A unique, legendary or special list shows, in catalog order, the
      record of the first unit of every family of the catalog list, and
      nothing else. */
  lemma ListedShowsFirstOfEachFamily(units: seq<Pkm>, family: FamilyTable, data: Pkm -> PokemonData)
    ensures |Listed(units, family, data)| == |Dedup(units, family)| <= |units|
    ensures forall d | d in Listed(units, family, data) :: exists u | u in units :: data(u) == d
    ensures forall k | 0 <= k < |units| ::
              data(units[FindIndex(units, family, family(units[k]))]) in Listed(units, family, data)
  {
    var dd := Dedup(units, family);
    var r := Listed(units, family, data);
    DedupFromIsSubsequence(units, family, 0);
    assert units[0..] == units;
    SubsequenceIsShorter(dd, units);
    forall d | d in r ensures exists u | u in units :: data(u) == d {
      var k :| 0 <= k < |r| && r[k] == d;
      DedupFromMembers(units, family, 0, dd[k]);
    }
    forall k | 0 <= k < |units|
      ensures data(units[FindIndex(units, family, family(units[k]))]) in r
    {
      DedupCoversFamilies(units, family, k);
      var u := units[FindIndex(units, family, family(units[k]))];
      var m :| 0 <= m < |dd| && dd[m] == u;
      assert r[m] == data(u);
    }
  }

  lemma {:induction false} SubsequenceIsShorter(a: seq<Pkm>, b: seq<Pkm>)
    requires IsSubsequence(a, b)
    ensures |a| <= |b|
    decreases |b|
  {
    if a != [] {
      if a[0] == b[0] && IsSubsequence(a[1..], b[1..]) {
        SubsequenceIsShorter(a[1..], b[1..]);
      } else {
        SubsequenceIsShorter(a, b[1..]);
      }
    }
  }

  /** The additional list only shows units of unlocked families, at most
      one per family, and every unlocked family of the catalog is shown. */
  lemma AdditionalsUnlockedAndUnique(units: seq<Pkm>, unlocked: seq<Pkm>, family: FamilyTable)
    ensures var d := Dedup(FilterUnlocked(units, unlocked, family), family);
            && (forall u | u in d :: u in units && family(u) in unlocked)
            && FamilyUnique(d, family)
            && (forall u | u in units && family(u) in unlocked ::
                  exists v | v in d :: family(v) == family(u))
  {
    var filtered := FilterUnlocked(units, unlocked, family);
    var d := Dedup(filtered, family);
    DedupIsFamilyRepresentatives(filtered, family);
    forall u | u in d ensures u in filtered {
      DedupFromMembers(filtered, family, 0, u);
    }
    forall u | u in units && family(u) in unlocked
      ensures exists v | v in d :: family(v) == family(u)
    {
      var k :| 0 <= k < |filtered| && filtered[k] == u;
    }
  }

  /** Every record of the additional list is that of a catalog unit of an
      unlocked family. */
  lemma AdditionalsShowUnlocked(units: seq<Pkm>, unlocked: seq<Pkm>, family: FamilyTable,
                                data: Pkm -> PokemonData)
    ensures forall r | r in Additionals(units, unlocked, family, data) ::
              exists u | u in units && family(u) in unlocked :: data(u) == r
  {
    var filtered := FilterUnlocked(units, unlocked, family);
    var d := Dedup(filtered, family);
    forall r | r in Additionals(units, unlocked, family, data)
      ensures exists u | u in units && family(u) in unlocked :: data(u) == r
    {
      var k :| 0 <= k < |d| && data(d[k]) == r;
      var u := d[k];
      DedupFromMembers(filtered, family, 0, u);
      assert u in filtered;
    }
  }

  /** The regular list is a permutation of the family-deduplicated catalog
      list, ordered by non-decreasing rarity cost, and therefore shows one
      unit per family. */
  lemma RegularsArePermutedRepresentatives(units: seq<Pkm>, family: FamilyTable,
                                           data: Pkm -> PokemonData, cost: Rarity -> int)
    ensures var r := Regulars(units, family, data, cost);
            && SortedByCost(r, cost)
            && |r| == |Dedup(units, family)|
            && forall d | d in r :: exists u | u in Dedup(units, family) :: data(u) == d
  {
    var dd := ToData(Dedup(units, family), data);
    var r := Regulars(units, family, data, cost);
    assert |r| == |multiset(r)| == |multiset(dd)| == |dd|;
    forall d | d in r ensures exists u | u in Dedup(units, family) :: data(u) == d {
      assert d in multiset(dd);
      var k :| 0 <= k < |dd| && dd[k] == d;
      assert Dedup(units, family)[k] in Dedup(units, family);
    }
  }
}
