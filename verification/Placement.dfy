/** The generator of the repository placement, which keeps each country repository once, and the
    flattening of a placement into the units of the production ledger. */
module Placement {
  import opened Sequences
  import opened Wrappers
  import L = Ledger

  datatype Country = Country(code: string, name: string)

  datatype RegionSource = RegionSource(id: string, countries: seq<Country>)

  // One source file, under the continent it belongs to.
  datatype SourceFile = SourceFile(continent: string, regions: seq<RegionSource>)

  datatype Placed = Placed(code: string, name: string, repository: string, split: bool, children: seq<string>)

  datatype Region = Region(id: string, countries: seq<Placed>)

  datatype Continent = Continent(id: string, order: Option<int>, regions: seq<Region>)

  // The split rules by country code, and the lower-casing of codes.
  datatype Config = Config(rules: map<string, seq<string>>, lower: string -> string, order: map<string, int>)

  const COUNTRY_PREFIX := "agid-country-"
  const ANTARCTICA := Placed("AQ", "Antarctica and Antarctic Claims", "agid-area-antarctica", false, [])

  function RepositoryOf(cfg: Config, code: string): string {
    COUNTRY_PREFIX + cfg.lower(code)
  }

  function PlaceCountry(cfg: Config, c: Country): Placed {
    if c.code in cfg.rules then Placed(c.code, c.name, RepositoryOf(cfg, c.code), true, cfg.rules[c.code])
    else Placed(c.code, c.name, RepositoryOf(cfg, c.code), false, [])
  }

  // ---------- the generator ----------

  function Repositories(cfg: Config, countries: seq<Country>): set<string> {
    set c | c in countries :: RepositoryOf(cfg, c.code)
  }

  // The countries whose repository was not emitted before, in order.
  function Kept(cfg: Config, countries: seq<Country>, emitted: set<string>): seq<Placed> {
    if countries == [] then [] else
      var p := PlaceCountry(cfg, countries[0]);
      if p.repository in emitted then Kept(cfg, countries[1..], emitted)
      else [p] + Kept(cfg, countries[1..], emitted + {p.repository})
  }

  lemma {:induction false} KeptAppend(cfg: Config, a: seq<Country>, b: seq<Country>, emitted: set<string>)
    ensures Kept(cfg, a + b, emitted) == Kept(cfg, a, emitted) + Kept(cfg, b, emitted + Repositories(cfg, a))
    decreases |a|
  {
    hide RepositoryOf;
    if a == [] {
      assert a + b == b && emitted + Repositories(cfg, a) == emitted;
    } else {
      var r := PlaceCountry(cfg, a[0]).repository;
      var emitted' := if r in emitted then emitted else emitted + {r};
      assert (a + b)[1..] == a[1..] + b;
      assert a == [a[0]] + a[1..];
      assert emitted' + Repositories(cfg, a[1..]) == emitted + Repositories(cfg, a);
      KeptAppend(cfg, a[1..], b, emitted');
    }
  }

  lemma KeptStep(cfg: Config, countries: seq<Country>, c: Country, emitted: set<string>)
    ensures var p, seen := PlaceCountry(cfg, c), emitted + Repositories(cfg, countries);
            && Kept(cfg, countries + [c], emitted)
               == Kept(cfg, countries, emitted) + (if p.repository in seen then [] else [p])
            && Repositories(cfg, countries + [c]) == Repositories(cfg, countries) + {p.repository}
  {
    hide RepositoryOf;
    KeptAppend(cfg, countries, [c], emitted);
  }

  method PlaceCountries(cfg: Config, countries: seq<Country>, emitted0: set<string>)
    returns (generated: seq<Placed>, emitted: set<string>)
    ensures generated == Kept(cfg, countries, emitted0)
    ensures emitted == emitted0 + Repositories(cfg, countries)
  {
    hide Kept, Repositories, PlaceCountry;
    NothingKept(cfg, emitted0);
    generated, emitted := [], emitted0;
    for i := 0 to |countries|
      invariant generated == Kept(cfg, countries[..i], emitted0)
      invariant emitted == emitted0 + Repositories(cfg, countries[..i])
    {
      assert countries[..i + 1] == countries[..i] + [countries[i]];
      KeptStep(cfg, countries[..i], countries[i], emitted0);
      var p := PlaceCountry(cfg, countries[i]);
      if p.repository !in emitted {
        generated, emitted := generated + [p], emitted + {p.repository};
      }
    }
    assert countries[..|countries|] == countries;
  }

  function CountriesIn(regions: seq<RegionSource>): seq<Country> {
    if regions == [] then [] else CountriesIn(regions[..|regions| - 1]) + regions[|regions| - 1].countries
  }

  function AllCountries(files: seq<SourceFile>): seq<Country> {
    if files == [] then [] else AllCountries(files[..|files| - 1]) + CountriesIn(files[|files| - 1].regions)
  }

  // The generated regions of one file, when the given repositories were emitted before it.
  function Regioned(cfg: Config, regions: seq<RegionSource>, emitted: set<string>): seq<Region> {
    if regions == [] then [] else
      var before, r := regions[..|regions| - 1], regions[|regions| - 1];
      Regioned(cfg, before, emitted)
        + [Region(r.id, Kept(cfg, r.countries, emitted + Repositories(cfg, CountriesIn(before))))]
  }

  // The continents in the order in which files first name them.
  function ContinentIds(files: seq<SourceFile>): seq<string> {
    if files == [] then [] else
      var before, id := ContinentIds(files[..|files| - 1]), files[|files| - 1].continent;
      if id in before then before else before + [id]
  }

  // The regions of a continent: those of its files, in order, without countries of any earlier file.
  function RegionsOf(cfg: Config, files: seq<SourceFile>, id: string): seq<Region> {
    if files == [] then [] else
      var before, f := files[..|files| - 1], files[|files| - 1];
      RegionsOf(cfg, before, id)
        + if f.continent == id then Regioned(cfg, f.regions, Repositories(cfg, AllCountries(before))) else []
  }

  function OrderFor(cfg: Config, id: string): Option<int> {
    Some(if id in cfg.order then cfg.order[id] else 99)
  }

  // The continents are those the files name, each with all its regions.
  predicate IsPlacement(cfg: Config, files: seq<SourceFile>, continents: seq<Continent>) {
    var ids := ContinentIds(files);
    |continents| == |ids| && forall k :: 0 <= k < |ids| ==>
      continents[k] == Continent(ids[k], OrderFor(cfg, ids[k]), RegionsOf(cfg, files, ids[k]))
  }

  lemma {:induction false} ContinentIdsFacts(cfg: Config, files: seq<SourceFile>, id: string)
    ensures Distinct(ContinentIds(files))
    ensures id !in ContinentIds(files) ==> RegionsOf(cfg, files, id) == []
  {
    hide Regioned;
    if files != [] {
      var before, last := ContinentIds(files[..|files| - 1]), files[|files| - 1].continent;
      ContinentIdsFacts(cfg, files[..|files| - 1], id);
      DistinctAppend(before, last);
    }
  }

  lemma OneMoreFile(cfg: Config, files: seq<SourceFile>, f: SourceFile, id: string)
    ensures var ids := ContinentIds(files);
            ContinentIds(files + [f]) == if f.continent in ids then ids else ids + [f.continent]
    ensures RegionsOf(cfg, files + [f], id) == RegionsOf(cfg, files, id)
              + if f.continent == id then Regioned(cfg, f.regions, Repositories(cfg, AllCountries(files))) else []
  {
    hide Regioned, AllCountries, Repositories;
    assert (files + [f])[..|files|] == files;
  }

  lemma PlacementExtended(cfg: Config, files: seq<SourceFile>, f: SourceFile, continents: seq<Continent>, k: nat,
                          regions: seq<Region>)
    requires IsPlacement(cfg, files, continents) && k <= |continents|
    requires regions == Regioned(cfg, f.regions, Repositories(cfg, AllCountries(files)))
    requires k < |continents| ==> continents[k].id == f.continent
    requires k == |continents| ==> forall j :: 0 <= j < k ==> continents[j].id != f.continent
    ensures IsPlacement(cfg, files + [f],
              if k < |continents| then continents[k := continents[k].(regions := continents[k].regions + regions)]
              else continents + [Continent(f.continent, OrderFor(cfg, f.continent), regions)])
  {
    hide Regioned, AllCountries, Repositories, ContinentIds, RegionsOf, OrderFor;
    ContinentIdsFacts(cfg, files, f.continent);
    var ids := ContinentIds(files);
    forall id ensures RegionsOf(cfg, files + [f], id)
                      == RegionsOf(cfg, files, id) + if f.continent == id then regions else []
    {
      OneMoreFile(cfg, files, f, id);
    }
    OneMoreFile(cfg, files, f, f.continent);
    assert k < |continents| ==> ids[k] == f.continent;
    if k == |continents| {
      assert forall j :: 0 <= j < k ==> ids[j] == continents[j].id;
      assert f.continent !in ids;
    }
  }

  // ---------- the ids in a placement ----------

  ghost function UnitIds(p: Placed): multiset<string> {
    multiset{p.repository} + multiset(p.children)
  }

  ghost function IdsOf(ps: seq<Placed>): multiset<string> {
    if ps == [] then multiset{} else IdsOf(ps[..|ps| - 1]) + UnitIds(ps[|ps| - 1])
  }

  ghost function IdsOfRegions(regions: seq<Region>): multiset<string> {
    if regions == [] then multiset{}
    else IdsOfRegions(regions[..|regions| - 1]) + IdsOf(regions[|regions| - 1].countries)
  }

  ghost function IdsOfContinents(continents: seq<Continent>): multiset<string> {
    if continents == [] then multiset{}
    else IdsOfContinents(continents[..|continents| - 1]) + IdsOfRegions(continents[|continents| - 1].regions)
  }

  lemma {:induction false} IdsAppend(a: seq<Placed>, b: seq<Placed>)
    ensures IdsOf(a + b) == IdsOf(a) + IdsOf(b)
  {
    hide UnitIds;
    if b == [] {
      assert a + b == a;
    } else {
      assert (a + b)[..|a| + |b| - 1] == a + b[..|b| - 1];
      IdsAppend(a, b[..|b| - 1]);
    }
  }

  lemma {:induction false} RegionsAppend(a: seq<Region>, b: seq<Region>)
    ensures IdsOfRegions(a + b) == IdsOfRegions(a) + IdsOfRegions(b)
  {
    hide IdsOf;
    if b == [] {
      assert a + b == a;
    } else {
      assert (a + b)[..|a| + |b| - 1] == a + b[..|b| - 1];
      RegionsAppend(a, b[..|b| - 1]);
    }
  }

  lemma {:induction false} ContinentExtended(continents: seq<Continent>, k: nat, more: seq<Region>)
    requires k < |continents|
    ensures var c := continents[k].(regions := continents[k].regions + more);
            IdsOfContinents(continents[k := c]) == IdsOfContinents(continents) + IdsOfRegions(more)
  {
    hide IdsOfRegions;
    var n := |continents| - 1;
    var c := continents[k].(regions := continents[k].regions + more);
    if k == n {
      assert continents[k := c][..n] == continents[..n];
      RegionsAppend(continents[k].regions, more);
    } else {
      assert continents[k := c][..n] == continents[..n][k := c];
      ContinentExtended(continents[..n], k, more);
    }
  }

  method PlaceRegions(cfg: Config, regions: seq<RegionSource>, emitted0: set<string>)
    returns (generated: seq<Region>, emitted: set<string>)
    ensures generated == Regioned(cfg, regions, emitted0)
    ensures IdsOfRegions(generated) == IdsOf(Kept(cfg, CountriesIn(regions), emitted0))
    ensures emitted == emitted0 + Repositories(cfg, CountriesIn(regions))
  {
    hide Kept, IdsOf, RepositoryOf;
    NothingKept(cfg, emitted0);
    generated, emitted := [], emitted0;
    for i := 0 to |regions|
      invariant generated == Regioned(cfg, regions[..i], emitted0)
      invariant IdsOfRegions(generated) == IdsOf(Kept(cfg, CountriesIn(regions[..i]), emitted0))
      invariant emitted == emitted0 + Repositories(cfg, CountriesIn(regions[..i]))
    {
      ghost var before := CountriesIn(regions[..i]);
      assert regions[..i + 1][..i] == regions[..i];
      KeptAppend(cfg, before, regions[i].countries, emitted0);
      IdsAppend(Kept(cfg, before, emitted0), Kept(cfg, regions[i].countries, emitted));
      RepositoriesAppend(cfg, before, regions[i].countries);
      var countries;
      countries, emitted := PlaceCountries(cfg, regions[i].countries, emitted);
      assert (generated + [Region(regions[i].id, countries)])[..|generated|] == generated;
      generated := generated + [Region(regions[i].id, countries)];
    }
    assert regions[..|regions|] == regions;
  }

  lemma NothingKept(cfg: Config, emitted: set<string>)
    ensures Kept(cfg, [], emitted) == [] && Repositories(cfg, []) == {} && IdsOf([]) == multiset{}
  {
  }

  lemma RepositoriesAppend(cfg: Config, a: seq<Country>, b: seq<Country>)
    ensures Repositories(cfg, a + b) == Repositories(cfg, a) + Repositories(cfg, b)
  {
    hide RepositoryOf;
    assert forall c :: c in a + b <==> c in a || c in b;
  }

  function FindContinent(continents: seq<Continent>, id: string): (k: nat)
    ensures k <= |continents|
    ensures k < |continents| ==> continents[k].id == id
    ensures k == |continents| ==> forall j :: 0 <= j < k ==> continents[j].id != id
  {
    if continents == [] || continents[0].id == id then 0 else 1 + FindContinent(continents[1..], id)
  }

  // Places every file; a file of a continent already seen extends it. Antarctica comes last.
  method Generate(cfg: Config, files: seq<SourceFile>) returns (continents: seq<Continent>)
    ensures var n := |ContinentIds(files)|;
            && |continents| == n + 1 && IsPlacement(cfg, files, continents[..n])
            && continents[n] == Continent("antarctica",
                 if "antarctica" in cfg.order then Some(cfg.order["antarctica"]) else None,
                 [Region("antarctica", [ANTARCTICA])])
    ensures IdsOfContinents(continents) == IdsOf(Kept(cfg, AllCountries(files), {}) + [ANTARCTICA])
  {
    hide Kept, IdsOf, RepositoryOf, IdsOfRegions, IsPlacement, Regioned, ContinentIds, RegionsOf, AllCountries;
    var placed := PlaceFiles(cfg, files);
    NoCountries(cfg, files, placed);
    IdsAppend(Kept(cfg, AllCountries(files), {}), [ANTARCTICA]);
    NothingKept(cfg, {});
    OneRegion(Region("antarctica", [ANTARCTICA]));
    var order := if "antarctica" in cfg.order then Some(cfg.order["antarctica"]) else None;
    continents := PushContinent(placed, Continent("antarctica", order, [Region("antarctica", [ANTARCTICA])]));
    assert continents[..|placed|] == placed;
  }

  lemma NoCountries(cfg: Config, files: seq<SourceFile>, placed: seq<Continent>)
    ensures IsPlacement(cfg, files, placed) ==> |placed| == |ContinentIds(files)|
  {
  }

  method PlaceFiles(cfg: Config, files: seq<SourceFile>) returns (continents: seq<Continent>)
    ensures IsPlacement(cfg, files, continents)
    ensures IdsOfContinents(continents) == IdsOf(Kept(cfg, AllCountries(files), {}))
  {
    hide Kept, IdsOf, RepositoryOf, IdsOfRegions, IsPlacement, Regioned, ContinentIds, RegionsOf;
    NothingKept(cfg, {});
    NothingPlaced(cfg);
    continents := [];
    var emitted: set<string> := {};
    for f := 0 to |files|
      invariant IsPlacement(cfg, files[..f], continents)
      invariant IdsOfContinents(continents) == IdsOf(Kept(cfg, AllCountries(files[..f]), {}))
      invariant emitted == Repositories(cfg, AllCountries(files[..f]))
    {
      ghost var before, here := AllCountries(files[..f]), CountriesIn(files[f].regions);
      assert files[..f + 1][..f] == files[..f] && files[..f + 1] == files[..f] + [files[f]];
      KeptAppend(cfg, before, here, {});
      assert {} + Repositories(cfg, before) == emitted;
      IdsAppend(Kept(cfg, before, {}), Kept(cfg, here, emitted));
      RepositoriesAppend(cfg, before, here);
      var regions;
      regions, emitted := PlaceRegions(cfg, files[f].regions, emitted);
      var k := FindContinent(continents, files[f].continent);
      PlacementExtended(cfg, files[..f], files[f], continents, k, regions);
      if k < |continents| {
        ContinentExtended(continents, k, regions);
        continents := continents[k := continents[k].(regions := continents[k].regions + regions)];
      } else {
        continents := PushContinent(continents,
                                    Continent(files[f].continent, OrderFor(cfg, files[f].continent), regions));
      }
    }
    assert files[..|files|] == files;
  }

  lemma NothingPlaced(cfg: Config)
    ensures IsPlacement(cfg, [], [])
  {
  }

  method PushContinent(continents: seq<Continent>, c: Continent) returns (r: seq<Continent>)
    ensures r == continents + [c]
    ensures IdsOfContinents(r) == IdsOfContinents(continents) + IdsOfRegions(c.regions)
  {
    r := continents + [c];
    assert r[..|continents|] == continents;
  }

  lemma OneRegion(r: Region)
    ensures IdsOfRegions([r]) == IdsOf(r.countries)
  {
  }

  // ---------- which countries are kept ----------

  ghost function Emitted(ps: seq<Placed>): set<string> {
    set p | p in ps :: p.repository
  }

  // Every repository of the input is kept exactly once, except those emitted before.
  lemma {:induction false} KeptFacts(cfg: Config, countries: seq<Country>, emitted: set<string>)
    ensures var kept := Kept(cfg, countries, emitted);
            && Emitted(kept) == Repositories(cfg, countries) - emitted
            && forall i, j :: 0 <= i < j < |kept| ==> kept[i].repository != kept[j].repository
    decreases |countries|
  {
    hide RepositoryOf;
    if countries != [] {
      var p := PlaceCountry(cfg, countries[0]);
      assert countries == [countries[0]] + countries[1..];
      RepositoriesAppend(cfg, [countries[0]], countries[1..]);
      assert Repositories(cfg, [countries[0]]) == {p.repository};
      if p.repository in emitted {
        KeptFacts(cfg, countries[1..], emitted);
      } else {
        var rest := Kept(cfg, countries[1..], emitted + {p.repository});
        KeptFacts(cfg, countries[1..], emitted + {p.repository});
        assert Emitted([p] + rest) == {p.repository} + Emitted(rest);
        assert forall q :: q in rest ==> q.repository in Emitted(rest);
      }
    }
  }

  // Each kept country is the first of the input with its repository.
  lemma {:induction false} KeptIsFirst(cfg: Config, countries: seq<Country>, emitted: set<string>, p: Placed)
    requires p in Kept(cfg, countries, emitted)
    ensures exists i: nat :: i < |countries| && p == PlaceCountry(cfg, countries[i])
              && p.repository !in Repositories(cfg, countries[..i])
    decreases |countries|
  {
    hide RepositoryOf;
    var q := PlaceCountry(cfg, countries[0]);
    var emitted' := if q.repository in emitted then emitted else emitted + {q.repository};
    if p in Kept(cfg, countries[1..], emitted') {
      KeptFacts(cfg, countries[1..], emitted');
      KeptIsFirst(cfg, countries[1..], emitted', p);
      var i: nat :| i < |countries| - 1 && p == PlaceCountry(cfg, countries[1..][i])
                    && p.repository !in Repositories(cfg, countries[1..][..i]);
      assert countries[..i + 1] == [countries[0]] + countries[1..][..i];
      RepositoriesAppend(cfg, [countries[0]], countries[1..][..i]);
      assert Repositories(cfg, [countries[0]]) == {q.repository};
      assert p == PlaceCountry(cfg, countries[i + 1]);
    } else {
      assert p == q && Repositories(cfg, countries[..0]) == {};
    }
  }

  // ---------- when ids are unique ----------

  predicate Unique(ids: multiset<string>) {
    forall id :: id in ids ==> ids[id] == 1
  }

  // No child repository repeats within a rule, is shared with the rule of another country, or is itself
  // a country's repository or Antarctica's.
  ghost predicate RulesOk(cfg: Config) {
    && (forall c :: c in cfg.rules ==> Unique(multiset(cfg.rules[c])))
    && (forall c, d, id :: c in cfg.rules && d in cfg.rules && RepositoryOf(cfg, c) != RepositoryOf(cfg, d)
            && id in cfg.rules[c]
          ==> id !in cfg.rules[d])
    && (forall c, d :: c in cfg.rules ==> RepositoryOf(cfg, d) !in cfg.rules[c])
    && (forall c :: c in cfg.rules ==> ANTARCTICA.repository !in cfg.rules[c])
  }

  lemma {:induction false} DisjointIds(ps: seq<Placed>, ids: multiset<string>)
    ensures IdsOf(ps) !! ids <==> forall i :: 0 <= i < |ps| ==> UnitIds(ps[i]) !! ids
  {
    hide UnitIds;
    if ps != [] {
      var n := |ps| - 1;
      DisjointIds(ps[..n], ids);
      assert forall i :: 0 <= i < n ==> ps[..n][i] == ps[i];
      DisjointSum(IdsOf(ps[..n]), UnitIds(ps[n]), ids);
    }
  }

  lemma DisjointSum(a: multiset<string>, b: multiset<string>, c: multiset<string>)
    ensures (a + b) !! c <==> a !! c && b !! c
  {
    if (a + b) !! c {
      forall id ensures id !in a || id !in c {
        assert id in a ==> id in a + b;
      }
      forall id ensures id !in b || id !in c {
        assert id in b ==> id in a + b;
      }
    }
  }

  // Ids are unique exactly when they are unique in each unit and no two units share one.
  lemma {:induction false} UniqueIds(ps: seq<Placed>)
    ensures Unique(IdsOf(ps)) <==>
      && (forall i :: 0 <= i < |ps| ==> Unique(UnitIds(ps[i])))
      && (forall i, j :: 0 <= i < j < |ps| ==> UnitIds(ps[i]) !! UnitIds(ps[j]))
  {
    hide UnitIds, Unique;
    if ps == [] {
      assert Unique(IdsOf(ps)) by { NoneUnique(); }
    } else {
      var n := |ps| - 1;
      UniqueIds(ps[..n]);
      UniqueSum(IdsOf(ps[..n]), UnitIds(ps[n]));
      DisjointIds(ps[..n], UnitIds(ps[n]));
      assert forall i :: 0 <= i < n ==> ps[..n][i] == ps[i];
    }
  }

  lemma NoneUnique()
    ensures Unique(multiset{})
  {
  }

  lemma UniqueSum(a: multiset<string>, b: multiset<string>)
    ensures Unique(a + b) <==> Unique(a) && Unique(b) && a !! b
  {
    if Unique(a + b) {
      forall id | id in a ensures a[id] == 1 && id !in b {
        assert (a + b)[id] == 1;
      }
      forall id | id in b ensures b[id] == 1 {
        assert (a + b)[id] == 1;
      }
    }
    if Unique(a) && Unique(b) && a !! b {
      forall id | id in a + b ensures (a + b)[id] == 1 {
        assert id in a ==> id !in b;
      }
    }
  }

  ghost predicate AlwaysUnique(cfg: Config) {
    forall countries :: Unique(IdsOf(Kept(cfg, countries, {}) + [ANTARCTICA]))
  }

  // What the rules must meet for two countries of different repositories to share no id.
  lemma RulesSeparate(cfg: Config, c: Country, d: Country)
    requires RulesOk(cfg) && RepositoryOf(cfg, c.code) != RepositoryOf(cfg, d.code)
    ensures UnitIds(PlaceCountry(cfg, c)) !! UnitIds(PlaceCountry(cfg, d))
  {
    hide RepositoryOf;
    forall id | id in UnitIds(PlaceCountry(cfg, c)) ensures id !in UnitIds(PlaceCountry(cfg, d)) {
      if id in PlaceCountry(cfg, c).children {
        assert id !in PlaceCountry(cfg, d).children;
      }
    }
  }

  lemma RulesKeepOneCountry(cfg: Config, c: Country)
    requires RulesOk(cfg)
    ensures Unique(UnitIds(PlaceCountry(cfg, c))) && UnitIds(PlaceCountry(cfg, c)) !! UnitIds(ANTARCTICA)
  {
    var p := PlaceCountry(cfg, c);
    assert p.repository == COUNTRY_PREFIX + cfg.lower(c.code);
    assert p.repository[5] == 'c' && ANTARCTICA.repository[5] == 'a';
    assert p.repository !in p.children && ANTARCTICA.repository !in p.children;
    if c.code in cfg.rules {
      UniqueSum(multiset{p.repository}, multiset(p.children));
    }
  }

  lemma OkRulesGiveUniqueIds(cfg: Config, countries: seq<Country>)
    requires RulesOk(cfg)
    ensures Unique(IdsOf(Kept(cfg, countries, {}) + [ANTARCTICA]))
  {
    hide RulesOk, UnitIds, IdsOf, Unique, Kept, PlaceCountry;
    var kept := Kept(cfg, countries, {});
    var all := kept + [ANTARCTICA];
    KeptFacts(cfg, countries, {});
    forall i | 0 <= i < |kept|
      ensures Unique(UnitIds(kept[i])) && UnitIds(kept[i]) !! UnitIds(ANTARCTICA)
    {
      var c := Origin(cfg, countries, kept[i]);
      RulesKeepOneCountry(cfg, c);
    }
    forall i, j | 0 <= i < j < |kept| ensures UnitIds(kept[i]) !! UnitIds(kept[j]) {
      var c := Origin(cfg, countries, kept[i]);
      var d := Origin(cfg, countries, kept[j]);
      RulesSeparate(cfg, c, d);
    }
    AntarcticaAlone();
    UniqueIds(all);
  }

  lemma Origin(cfg: Config, countries: seq<Country>, p: Placed) returns (c: Country)
    requires p in Kept(cfg, countries, {})
    ensures p == PlaceCountry(cfg, c) && p.repository == RepositoryOf(cfg, c.code)
  {
    KeptIsFirst(cfg, countries, {}, p);
    var i: nat :| i < |countries| && p == PlaceCountry(cfg, countries[i]);
    c := countries[i];
  }

  lemma AntarcticaAlone()
    ensures Unique(UnitIds(ANTARCTICA))
  {
  }

  lemma UniqueFor(cfg: Config, c: Country, d: Country)
    requires AlwaysUnique(cfg)
    ensures var p, q := PlaceCountry(cfg, c), PlaceCountry(cfg, d);
            && Unique(UnitIds(p)) && UnitIds(p) !! UnitIds(ANTARCTICA)
            && (p.repository != q.repository ==> UnitIds(p) !! UnitIds(q))
  {
    hide UnitIds, IdsOf, Unique, RepositoryOf, PlaceCountry;
    var p, q := PlaceCountry(cfg, c), PlaceCountry(cfg, d);
    var kept := Kept(cfg, [c, d], {});
    KeptStep(cfg, [], c, {});
    KeptStep(cfg, [c], d, {});
    assert [] + [c] == [c] && [c] + [d] == [c, d] && {} + Repositories(cfg, []) == {};
    assert kept == if p.repository == q.repository then [p] else [p, q];
    var all := kept + [ANTARCTICA];
    UniqueIds(all);
    assert all[0] == p && all[|all| - 1] == ANTARCTICA;
    if p.repository != q.repository {
      assert all[1] == q;
    }
  }

  lemma UniqueIdsNeedOkRules(cfg: Config)
    requires AlwaysUnique(cfg)
    ensures RulesOk(cfg)
  {
    hide AlwaysUnique, RepositoryOf;
    forall c | c in cfg.rules
      ensures Unique(multiset(cfg.rules[c])) && ANTARCTICA.repository !in cfg.rules[c]
    {
      var p := PlaceCountry(cfg, Country(c, ""));
      UniqueFor(cfg, Country(c, ""), Country(c, ""));
      UniqueSum(multiset{p.repository}, multiset(p.children));
    }
    forall c, d, id | c in cfg.rules && d in cfg.rules && RepositoryOf(cfg, c) != RepositoryOf(cfg, d)
                      && id in cfg.rules[c]
      ensures id !in cfg.rules[d]
    {
      UniqueFor(cfg, Country(c, ""), Country(d, ""));
      assert id in UnitIds(PlaceCountry(cfg, Country(c, "")));
    }
    forall c, d | c in cfg.rules ensures RepositoryOf(cfg, d) !in cfg.rules[c] {
      var p := PlaceCountry(cfg, Country(c, ""));
      UniqueFor(cfg, Country(c, ""), Country(d, ""));
      UniqueSum(multiset{p.repository}, multiset(p.children));
      assert RepositoryOf(cfg, d) in UnitIds(PlaceCountry(cfg, Country(d, "")));
    }
  }

  // The generator's ids are all different for every input exactly when the split rules are sound.
  lemma UniqueExactlyWhenRulesOk(cfg: Config)
    ensures AlwaysUnique(cfg) <==> RulesOk(cfg)
  {
    if AlwaysUnique(cfg) {
      UniqueIdsNeedOkRules(cfg);
    }
    if RulesOk(cfg) {
      forall countries ensures Unique(IdsOf(Kept(cfg, countries, {}) + [ANTARCTICA])) {
        OkRulesGiveUniqueIds(cfg, countries);
      }
    }
  }

  // ---------- flattening a placement into units ----------

  // The order used for sorting; an absent one counts as 999.
  function OrderOf(c: Continent): int {
    if c.order.Some? then c.order.value else 999
  }

  // Puts c behind every continent whose order is not larger.
  function Insert(sorted: seq<Continent>, c: Continent): seq<Continent> {
    var n := |sorted| - 1;
    if sorted == [] || OrderOf(sorted[n]) <= OrderOf(c) then sorted + [c]
    else Insert(sorted[..n], c) + [sorted[n]]
  }

  function ByOrder(continents: seq<Continent>): seq<Continent> {
    if continents == [] then [] else
      Insert(ByOrder(continents[..|continents| - 1]), continents[|continents| - 1])
  }

  predicate Ordered(continents: seq<Continent>) {
    forall i, j :: 0 <= i < j < |continents| ==> OrderOf(continents[i]) <= OrderOf(continents[j])
  }

  function WithOrder(continents: seq<Continent>, k: int): seq<Continent> {
    if continents == [] then [] else
      var n := |continents| - 1;
      WithOrder(continents[..n], k) + if OrderOf(continents[n]) == k then [continents[n]] else []
  }

  lemma {:induction false} InsertKeeps(sorted: seq<Continent>, c: Continent)
    ensures multiset(Insert(sorted, c)) == multiset(sorted) + multiset{c}
  {
    hide OrderOf;
    var n := |sorted| - 1;
    if sorted != [] && OrderOf(sorted[n]) > OrderOf(c) {
      assert sorted == sorted[..n] + [sorted[n]];
      InsertKeeps(sorted[..n], c);
    }
  }

  predicate NoneAbove(continents: seq<Continent>, bound: int) {
    forall d :: d in continents ==> OrderOf(d) <= bound
  }

  lemma InsertBound(sorted: seq<Continent>, c: Continent, bound: int)
    requires NoneAbove(sorted, bound) && OrderOf(c) <= bound
    ensures NoneAbove(Insert(sorted, c), bound)
  {
    hide OrderOf, Insert;
    InsertKeeps(sorted, c);
    forall d | d in Insert(sorted, c) ensures OrderOf(d) <= bound {
      assert d in multiset(Insert(sorted, c));
      assert d in sorted || d == c;
    }
  }

  lemma OrderedAppend(sorted: seq<Continent>, c: Continent)
    ensures Ordered(sorted + [c]) <==> Ordered(sorted) && NoneAbove(sorted, OrderOf(c))
  {
    hide OrderOf;
    var both := sorted + [c];
    assert forall i :: 0 <= i < |sorted| ==> both[i] == sorted[i];
    if Ordered(both) {
      forall d | d in sorted ensures OrderOf(d) <= OrderOf(c) {
        var i :| 0 <= i < |sorted| && sorted[i] == d;
        assert both[i] == d && both[|sorted|] == c;
      }
    }
  }

  lemma {:induction false} InsertOrdered(sorted: seq<Continent>, c: Continent)
    requires Ordered(sorted)
    ensures Ordered(Insert(sorted, c))
  {
    hide OrderOf, Ordered;
    if sorted == [] {
      OrderedAppend([], c);
      NoneOrdered();
    } else {
      var rest, last := sorted[..|sorted| - 1], sorted[|sorted| - 1];
      assert sorted == rest + [last];
      OrderedAppend(rest, last);
      if OrderOf(last) <= OrderOf(c) {
        OrderedAppend(sorted, c);
      } else {
        InsertOrdered(rest, c);
        InsertBound(rest, c, OrderOf(last));
        OrderedAppend(Insert(rest, c), last);
      }
    }
  }

  lemma WithOrderAppend(continents: seq<Continent>, c: Continent, k: int)
    ensures WithOrder(continents + [c], k) == WithOrder(continents, k) + if OrderOf(c) == k then [c] else []
  {
    hide OrderOf;
    assert (continents + [c])[..|continents|] == continents;
  }

  lemma {:induction false} InsertStable(sorted: seq<Continent>, c: Continent, k: int)
    ensures WithOrder(Insert(sorted, c), k) == WithOrder(sorted, k) + if OrderOf(c) == k then [c] else []
  {
    hide OrderOf, WithOrder;
    WithOrderAppend(sorted, c, k);
    var n := |sorted| - 1;
    if sorted != [] && OrderOf(sorted[n]) > OrderOf(c) {
      InsertStable(sorted[..n], c, k);
      WithOrderAppend(Insert(sorted[..n], c), sorted[n], k);
      assert sorted == sorted[..n] + [sorted[n]];
      WithOrderAppend(sorted[..n], sorted[n], k);
    }
  }

  // The sort keeps every continent, puts them in order, and keeps equal orders as they were.
  lemma {:induction false} SortFacts(continents: seq<Continent>, k: int)
    ensures Ordered(ByOrder(continents))
    ensures multiset(ByOrder(continents)) == multiset(continents)
    ensures WithOrder(ByOrder(continents), k) == WithOrder(continents, k)
  {
    hide Insert, Ordered;
    if continents == [] {
      assert Ordered([]) by { NoneOrdered(); }
    } else {
      var n := |continents| - 1;
      SortFacts(continents[..n], k);
      InsertOrdered(ByOrder(continents[..n]), continents[n]);
      InsertKeeps(ByOrder(continents[..n]), continents[n]);
      InsertStable(ByOrder(continents[..n]), continents[n], k);
      assert continents == continents[..n] + [continents[n]];
    }
  }

  lemma NoneOrdered()
    ensures Ordered([])
  {
  }

  function ChildUnits(continent: string, children: seq<string>): seq<L.Unit> {
    if children == [] then [] else
      ChildUnits(continent, children[..|children| - 1]) + [L.Unit(children[|children| - 1], continent)]
  }

  function CountryUnits(continent: string, p: Placed): seq<L.Unit> {
    [L.Unit(p.repository, continent)] + ChildUnits(continent, p.children)
  }

  function RegionUnits(continent: string, ps: seq<Placed>): seq<L.Unit> {
    if ps == [] then [] else
      RegionUnits(continent, ps[..|ps| - 1]) + CountryUnits(continent, ps[|ps| - 1])
  }

  function ContinentUnits(continent: string, regions: seq<Region>): seq<L.Unit> {
    if regions == [] then [] else
      ContinentUnits(continent, regions[..|regions| - 1]) + RegionUnits(continent, regions[|regions| - 1].countries)
  }

  function Units(continents: seq<Continent>): seq<L.Unit> {
    if continents == [] then [] else
      var c := continents[|continents| - 1];
      Units(continents[..|continents| - 1]) + ContinentUnits(c.id, c.regions)
  }

  method FlattenUnits(placement: seq<Continent>) returns (units: seq<L.Unit>)
    ensures units == Units(ByOrder(placement))
  {
    var continents := ByOrder(placement);
    units := [];
    for i := 0 to |continents|
      invariant units == Units(continents[..i])
    {
      assert continents[..i + 1][..i] == continents[..i];
      units := FlattenContinent(continents[i], units);
    }
    assert continents[..|continents|] == continents;
  }

  method FlattenContinent(c: Continent, before: seq<L.Unit>) returns (units: seq<L.Unit>)
    ensures units == before + ContinentUnits(c.id, c.regions)
  {
    hide RegionUnits;
    units := before;
    for i := 0 to |c.regions|
      invariant units == before + ContinentUnits(c.id, c.regions[..i])
    {
      assert c.regions[..i + 1][..i] == c.regions[..i];
      units := FlattenRegion(c.id, c.regions[i].countries, units);
    }
    assert c.regions[..|c.regions|] == c.regions;
  }

  method FlattenRegion(continent: string, ps: seq<Placed>, before: seq<L.Unit>) returns (units: seq<L.Unit>)
    ensures units == before + RegionUnits(continent, ps)
  {
    hide ChildUnits;
    units := before;
    for i := 0 to |ps|
      invariant units == before + RegionUnits(continent, ps[..i])
    {
      assert ps[..i + 1][..i] == ps[..i];
      units := FlattenCountry(continent, ps[i], units);
    }
    assert ps[..|ps|] == ps;
  }

  method FlattenCountry(continent: string, p: Placed, before: seq<L.Unit>) returns (units: seq<L.Unit>)
    ensures units == before + CountryUnits(continent, p)
  {
    units := before + [L.Unit(p.repository, continent)];
    for i := 0 to |p.children|
      invariant units == before + [L.Unit(p.repository, continent)] + ChildUnits(continent, p.children[..i])
    {
      assert p.children[..i + 1][..i] == p.children[..i];
      units := units + [L.Unit(p.children[i], continent)];
    }
    assert p.children[..|p.children|] == p.children;
  }

  // ---------- the units of a placement carry its ids ----------

  ghost function IdBag(units: seq<L.Unit>): multiset<string> {
    if units == [] then multiset{} else IdBag(units[..|units| - 1]) + multiset{units[|units| - 1].id}
  }

  lemma {:induction false} BagAppend(a: seq<L.Unit>, b: seq<L.Unit>)
    ensures IdBag(a + b) == IdBag(a) + IdBag(b)
  {
    if b == [] {
      assert a + b == a;
    } else {
      assert (a + b)[..|a| + |b| - 1] == a + b[..|b| - 1] && (a + b)[|a| + |b| - 1] == b[|b| - 1];
      BagAppend(a, b[..|b| - 1]);
      hide IdBag;
    }
  }

  lemma {:induction false} ChildBag(continent: string, children: seq<string>)
    ensures IdBag(ChildUnits(continent, children)) == multiset(children)
  {
    if children != [] {
      var n := |children| - 1;
      assert children == children[..n] + [children[n]];
      ChildBag(continent, children[..n]);
    }
  }

  lemma {:induction false} RegionBag(continent: string, ps: seq<Placed>)
    ensures IdBag(RegionUnits(continent, ps)) == IdsOf(ps)
  {
    hide ChildUnits, IdBag;
    if ps == [] {
      NoBag();
    } else {
      var p := ps[|ps| - 1];
      RegionBag(continent, ps[..|ps| - 1]);
      ChildBag(continent, p.children);
      BagAppend([L.Unit(p.repository, continent)], ChildUnits(continent, p.children));
      OneBag(L.Unit(p.repository, continent));
      BagAppend(RegionUnits(continent, ps[..|ps| - 1]), CountryUnits(continent, p));
    }
  }

  lemma NoBag()
    ensures IdBag([]) == multiset{}
  {
  }

  lemma OneBag(u: L.Unit)
    ensures IdBag([u]) == multiset{u.id}
  {
  }

  lemma {:induction false} ContinentBag(continent: string, regions: seq<Region>)
    ensures IdBag(ContinentUnits(continent, regions)) == IdsOfRegions(regions)
  {
    hide RegionUnits, IdsOf;
    if regions != [] {
      var last := regions[|regions| - 1].countries;
      ContinentBag(continent, regions[..|regions| - 1]);
      RegionBag(continent, last);
      BagAppend(ContinentUnits(continent, regions[..|regions| - 1]), RegionUnits(continent, last));
    }
  }

  lemma {:induction false} UnitsBag(continents: seq<Continent>)
    ensures IdBag(Units(continents)) == IdsOfContinents(continents)
  {
    hide ContinentUnits, IdsOfRegions;
    if continents != [] {
      var c := continents[|continents| - 1];
      UnitsBag(continents[..|continents| - 1]);
      ContinentBag(c.id, c.regions);
      BagAppend(Units(continents[..|continents| - 1]), ContinentUnits(c.id, c.regions));
    }
  }

  lemma {:induction false} ContinentsAppend(a: seq<Continent>, b: seq<Continent>)
    ensures IdsOfContinents(a + b) == IdsOfContinents(a) + IdsOfContinents(b)
  {
    hide IdsOfRegions;
    if b == [] {
      assert a + b == a;
    } else {
      assert (a + b)[..|a| + |b| - 1] == a + b[..|b| - 1];
      ContinentsAppend(a, b[..|b| - 1]);
    }
  }

  lemma {:induction false} PermutedIds(a: seq<Continent>, b: seq<Continent>)
    requires multiset(a) == multiset(b)
    ensures IdsOfContinents(a) == IdsOfContinents(b)
    decreases |a|
  {
    hide IdsOfRegions;
    if a == [] {
      assert |multiset(b)| == 0;
    } else {
      var n, last := |a| - 1, a[|a| - 1];
      assert a == a[..n] + [last];
      assert last in multiset(b);
      var k :| 0 <= k < |b| && b[k] == last;
      var rest := b[..k] + b[k + 1..];
      assert b == b[..k] + [last] + b[k + 1..];
      assert multiset(a[..n]) == multiset(a) - multiset{last};
      assert multiset(rest) == multiset(b) - multiset{last} by {
        assert multiset(b) == multiset(b[..k]) + multiset{last} + multiset(b[k + 1..]);
        assert multiset(rest) == multiset(b[..k]) + multiset(b[k + 1..]);
      }
      PermutedIds(a[..n], rest);
      ContinentsAppend(b[..k], b[k + 1..]);
      ContinentsAppend(b[..k], [last]);
      ContinentsAppend(b[..k] + [last], b[k + 1..]);
      ContinentsAppend([], [last]);
      ContinentsAppend(a[..n], [last]);
    }
  }

  lemma {:induction false} UniqueBag(units: seq<L.Unit>)
    ensures Unique(IdBag(units)) <==> L.DistinctIds(units)
    ensures forall id :: id in IdBag(units) <==> exists u :: u in units && u.id == id
  {
    if units != [] {
      var n := |units| - 1;
      var last := units[n];
      assert units == units[..n] + [last];
      UniqueBag(units[..n]);
      hide Unique, IdBag;
      UniqueSum(IdBag(units[..n]), multiset{last.id});
      assert IdBag(units) == IdBag(units[..n]) + multiset{last.id} by { BagAppend(units[..n], [last]); OneBag(last); }
      OneIsUnique(last.id);
    }
  }

  lemma OneIsUnique(id: string)
    ensures Unique(multiset{id})
  {
  }

  // However the generated continents are sorted before they are written, the ledger's units have
  // distinct ids when the split rules are sound.
  lemma GeneratedUnitsAreDistinct(cfg: Config, files: seq<SourceFile>, generated: seq<Continent>,
                                  written: seq<Continent>)
    requires RulesOk(cfg)
    requires IdsOfContinents(generated) == IdsOf(Kept(cfg, AllCountries(files), {}) + [ANTARCTICA])
    requires multiset(written) == multiset(generated)
    ensures L.DistinctIds(Units(ByOrder(written)))
  {
    hide *;
    OkRulesGiveUniqueIds(cfg, AllCountries(files));
    SortFacts(written, 0);
    PermutedIds(ByOrder(written), generated);
    UnitsBag(ByOrder(written));
    UniqueBag(Units(ByOrder(written)));
  }

  // So the ledger of a generated placement conserves its units under every sequence of commands.
  lemma GeneratedLedgerConserves(cfg: Config, files: seq<SourceFile>, generated: seq<Continent>,
                                 written: seq<Continent>, commands: seq<L.Command>)
    requires RulesOk(cfg)
    requires IdsOfContinents(generated) == IdsOf(Kept(cfg, AllCountries(files), {}) + [ANTARCTICA])
    requires multiset(written) == multiset(generated)
    ensures var units := Units(ByOrder(written));
            var s := L.Summarized(units, L.Runs(units, commands));
            s.completedUnits + s.remainingUnits == |units| && L.Sound(units, L.Runs(units, commands))
  {
    hide *;
    GeneratedUnitsAreDistinct(cfg, files, generated, written);
    var units := Units(ByOrder(written));
    L.SummaryConserves(units, commands);
    L.ReachableIsSound(units, commands);
    SummaryCountsUnits(units, L.Runs(units, commands));
  }

  lemma SummaryCountsUnits(units: seq<L.Unit>, entries: seq<L.Entry>)
    ensures L.Summarized(units, entries).totalUnits == |units|
  {
  }
}
