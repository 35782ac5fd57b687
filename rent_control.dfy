/** The category bookkeeping of the rent-control scripts: the cities and their periods, the filter
    keeping each city's latest period, the duplication of the Paris rows into flats and houses,
    the housing types, the enumeration of rent categories and the Paris postal codes. */
module RentControl {
  import opened Common
  import opened Tables
  import opened Geometry

  /** The reference rent of a zone and category, with its upper (`refmaj`) and lower (`refmin`)
      bounds, in euros per square metre. */
  datatype Rents = Rents(ref: real, refmaj: real, refmin: real)

  /** One row of the rent-control table `gdf_rc`. Paris does not distinguish houses from flats,
      so its housing type is missing (`None`). */
  datatype RentRow = RentRow(
    city: string, period: string, housingType: Option<string>, rooms: int, epoque: string,
    furnished: string, idZone: int, rents: Rents, shape: Region)

  const CITY: seq<string> := ["paris", "plaine-commune", "est-ensemble"]

  /** The periods published for each city, oldest first. */
  const PERIOD: map<string, seq<string>> := map[
    "paris" := ["2015-08-01", "2016-08-01", "2017-08-01", "2019-07-01", "2020-07-01",
                "2021-07-01", "2022-07-01", "2023-07-01", "2024-07-01"],
    "plaine-commune" := ["2021-06-01", "2022-06-01", "2023-06-01", "2024-06-01"],
    "est-ensemble" := ["2021-12-01", "2022-06-01", "2023-06-01", "2024-06-01"]]

  /** Housing-type tokens per city; the empty token stands for "no distinction". */
  const HOUSING_TYPE: map<string, seq<string>> := map[
    "paris" := [""],
    "plaine-commune" := ["_maison", "_appartement"],
    "est-ensemble" := ["_maison", "_appartement"]]

  /** The room counts `_1` … `_4`, read back as integers by `astype(int)`. */
  const ROOMS: seq<int> := [1, 2, 3, 4]
  /** The construction periods and furnishing states, without their leading `_`. */
  const EPOQUE: seq<string> := ["inf1946", "1946-1970", "1971-1990", "sup1990"]
  const FURNISHED: seq<string> := ["meuble", "non-meuble"]

  /** `most_recent_periods`: the last period of every city's list; an empty list makes `l[-1]`
      raise IndexError. */
  function LatestPeriods(period: map<string, seq<string>>): (r: Result<set<string>>)
    ensures r.Err? <==> exists c :: c in period && period[c] == []
    ensures r.Err? ==> r.error == IndexError
    ensures r.Ok? ==> forall p :: p in r.value <==>
      exists c :: c in period && period[c] != [] && p == period[c][|period[c]| - 1]
  {
    if exists c :: c in period && period[c] == [] then Err(IndexError)
    else Ok(set c | c in period :: period[c][|period[c]| - 1])
  }

  /** The latest periods are the 2024 releases: July in Paris, June elsewhere. */
  lemma MostRecentPeriods()
    ensures LatestPeriods(PERIOD) == Ok({"2024-07-01", "2024-06-01"})
  {
    var latest := {"2024-07-01", "2024-06-01"};
    assert PERIOD.Keys == {"paris", "plaine-commune", "est-ensemble"};
    assert |PERIOD["paris"]| == 9 && PERIOD["paris"][8] == "2024-07-01";
    assert |PERIOD["plaine-commune"]| == 4 && PERIOD["plaine-commune"][3] == "2024-06-01";
    assert |PERIOD["est-ensemble"]| == 4 && PERIOD["est-ensemble"][3] == "2024-06-01";
    LatestFromLasts(PERIOD, latest, "paris", "plaine-commune");
  }

  /** When every list ends in `latest` and each member of `latest` ends some list, the latest
      periods are `latest`. */
  lemma LatestFromLasts(period: map<string, seq<string>>, latest: set<string>, c1: string, c2: string)
    requires forall c :: c in period ==> period[c] != [] && period[c][|period[c]| - 1] in latest
    requires c1 in period && c2 in period && period[c1] != [] && period[c2] != []
    requires latest == {period[c1][|period[c1]| - 1], period[c2][|period[c2]| - 1]}
    ensures LatestPeriods(period) == Ok(latest)
  {
    var r := LatestPeriods(period);
    assert r.Ok?;
    forall p ensures p in r.value <==> p in latest {
      if p in latest {
        assert p == period[c1][|period[c1]| - 1] || p == period[c2][|period[c2]| - 1];
      }
    }
    assert r.value == latest;
  }

  /** The last period of a city's list, if the city is known and has one. */
  function LatestOf(city: string): (r: Option<string>)
    ensures r.Some? <==> city in PERIOD && PERIOD[city] != []
    ensures r.Some? ==> r.value in PERIOD[city]
  {
    if city in PERIOD && PERIOD[city] != [] then Some(PERIOD[city][|PERIOD[city]| - 1]) else None
  }

  /** A row whose city and period are among the published ones. */
  ghost predicate Published(row: RentRow)
  {
    row.city in PERIOD && row.period in PERIOD[row.city]
  }

  predicate IsLatest(latest: set<string>, row: RentRow)
  {
    row.period in latest
  }

  /** `gdf_rc.loc[gdf_rc.period.isin(most_recent_periods)]`. */
  function FilterLatest(rows: seq<RentRow>, latest: set<string>): (r: seq<RentRow>)
    ensures forall k :: 0 <= k < |r| ==> r[k].period in latest && r[k] in rows
    ensures forall k :: 0 <= k < |rows| && rows[k].period in latest ==> rows[k] in r
  {
    Select(rows, row => IsLatest(latest, row))
  }

  /** The filter keeps exactly the rows of each city's own latest period: no city publishes
      another city's latest period. */
  lemma OnlyLatestPeriod(rows: seq<RentRow>)
    requires forall k :: 0 <= k < |rows| ==> Published(rows[k])
    ensures forall k :: 0 <= k < |FilterLatest(rows, {"2024-07-01", "2024-06-01"})| ==>
      var row := FilterLatest(rows, {"2024-07-01", "2024-06-01"})[k];
      LatestOf(row.city) == Some(row.period)
    ensures forall k :: 0 <= k < |rows| && LatestOf(rows[k].city) == Some(rows[k].period) ==>
      rows[k] in FilterLatest(rows, {"2024-07-01", "2024-06-01"})
  {
    var latest := {"2024-07-01", "2024-06-01"};
    var r := FilterLatest(rows, latest);
    assert PERIOD.Keys == {"paris", "plaine-commune", "est-ensemble"};
    assert "2024-06-01" !in PERIOD["paris"];
    assert "2024-07-01" !in PERIOD["plaine-commune"] && "2024-07-01" !in PERIOD["est-ensemble"];
    forall k | 0 <= k < |r|
      ensures LatestOf(r[k].city) == Some(r[k].period)
    {
      var i :| 0 <= i < |rows| && rows[i] == r[k];
      assert Published(rows[i]);
    }
  }

  /** `fillna(v)`: the missing housing types become `v`; since no other column has missing
      values, nothing else changes. */
  function FillHousing(rows: seq<RentRow>, v: string): (r: seq<RentRow>)
    ensures |r| == |rows|
    ensures forall k :: 0 <= k < |rows| ==> r[k].housingType.Some? && r[k].(housingType := rows[k].housingType) == rows[k]
    ensures forall k :: 0 <= k < |rows| && rows[k].housingType.Some? ==> r[k] == rows[k]
    ensures forall k :: 0 <= k < |rows| && rows[k].housingType.None? ==> r[k].housingType == Some(v)
  {
    seq(|rows|, k requires 0 <= k < |rows| =>
      if rows[k].housingType.None? then rows[k].(housingType := Some(v)) else rows[k])
  }

  predicate IsParis(row: RentRow)
  {
    row.city == "paris"
  }

  predicate NotParis(row: RentRow)
  {
    row.city != "paris"
  }

  /** Paris rents are the same for flats and houses, so the Paris rows are repeated once as
      `appartement` and once as `maison` after the other cities' rows. */
  function DuplicateParis(rows: seq<RentRow>): (r: seq<RentRow>)
    ensures |r| == |Select(rows, NotParis)| + 2 * |Select(rows, IsParis)|
  {
    var paris := Select(rows, IsParis);
    Select(rows, NotParis) + FillHousing(paris, "appartement") + FillHousing(paris, "maison")
  }

  /** The other cities' rows come first and unchanged. */
  lemma DuplicateParisPrefix(rows: seq<RentRow>)
    ensures DuplicateParis(rows)[..|Select(rows, NotParis)|] == Select(rows, NotParis)
  {
    var np, paris := Select(rows, NotParis), Select(rows, IsParis);
    assert DuplicateParis(rows) == np + (FillHousing(paris, "appartement") + FillHousing(paris, "maison"));
  }

  /** Then every Paris row, in order, as a flat, and then every Paris row again as a house; each
      copy differs from its row only in the filled housing type. */
  lemma DuplicateParisCopies(rows: seq<RentRow>, k: nat)
    requires k < |Select(rows, IsParis)|
    ensures var p, n, m := Select(rows, IsParis)[k], |Select(rows, NotParis)|, |Select(rows, IsParis)|;
      && DuplicateParis(rows)[n + k].(housingType := p.housingType) == p
      && DuplicateParis(rows)[n + m + k].(housingType := p.housingType) == p
      && (p.housingType.None? ==> DuplicateParis(rows)[n + k].housingType == Some("appartement"))
      && (p.housingType.None? ==> DuplicateParis(rows)[n + m + k].housingType == Some("maison"))
  {
    var np, paris := Select(rows, NotParis), Select(rows, IsParis);
    DuplicateParisParts(rows, np, paris);
    CopiesAt(DuplicateParis(rows), np, paris, k);
  }

  lemma DuplicateParisParts(rows: seq<RentRow>, np: seq<RentRow>, paris: seq<RentRow>)
    requires np == Select(rows, NotParis) && paris == Select(rows, IsParis)
    ensures DuplicateParis(rows) == np + FillHousing(paris, "appartement") + FillHousing(paris, "maison")
  {
  }

  lemma CopiesAt(r: seq<RentRow>, np: seq<RentRow>, paris: seq<RentRow>, k: nat)
    requires k < |paris|
    requires r == np + FillHousing(paris, "appartement") + FillHousing(paris, "maison")
    ensures var p := paris[k];
      && |np| + |paris| + k < |r|
      && r[|np| + k].(housingType := p.housingType) == p
      && r[|np| + |paris| + k].(housingType := p.housingType) == p
      && (p.housingType.None? ==> r[|np| + k].housingType == Some("appartement"))
      && (p.housingType.None? ==> r[|np| + |paris| + k].housingType == Some("maison"))
  {
    var app, msn := FillHousing(paris, "appartement"), FillHousing(paris, "maison");
    MiddleIndex(np, app, msn, k);
    LastIndex(np, app, msn, k);
    FillHousingAt(paris, "appartement", k);
    FillHousingAt(paris, "maison", k);
  }

  lemma MiddleIndex<T>(a: seq<T>, b: seq<T>, c: seq<T>, k: nat)
    requires k < |b|
    ensures (a + b + c)[|a| + k] == b[k]
  {
  }

  lemma LastIndex<T>(a: seq<T>, b: seq<T>, c: seq<T>, k: nat)
    requires k < |c|
    ensures (a + b + c)[|a| + |b| + k] == c[k]
  {
  }

  lemma FillHousingAt(rows: seq<RentRow>, v: string, k: nat)
    requires k < |rows|
    ensures var x := FillHousing(rows, v)[k];
      x.(housingType := rows[k].housingType) == rows[k] && (rows[k].housingType.None? ==> x.housingType == Some(v))
  {
  }

  /** When only the Paris rows lack a housing type, every row of the result has one. */
  lemma DuplicateParisFilled(rows: seq<RentRow>)
    requires forall k :: 0 <= k < |rows| && rows[k].city != "paris" ==> rows[k].housingType.Some?
    ensures forall k :: 0 <= k < |DuplicateParis(rows)| ==> DuplicateParis(rows)[k].housingType.Some?
  {
    var np, paris := Select(rows, NotParis), Select(rows, IsParis);
    var app, msn := FillHousing(paris, "appartement"), FillHousing(paris, "maison");
    var r := DuplicateParis(rows);
    assert r == np + app + msn;
    forall k | 0 <= k < |r| ensures r[k].housingType.Some? {
      if k < |np| {
        assert r[k] == np[k];
        var i :| 0 <= i < |rows| && rows[i] == np[k];
      } else if k < |np| + |paris| {
        assert r[k] == app[k - |np|];
      } else {
        assert r[k] == msn[k - |np| - |paris|];
      }
    }
  }

  /** The duplication copies rents: every row of the result carries the rents of an input row. */
  lemma DuplicateParisRents(rows: seq<RentRow>, k: nat)
    requires k < |DuplicateParis(rows)|
    ensures exists i :: 0 <= i < |rows| && DuplicateParis(rows)[k].rents == rows[i].rents
  {
    var np, paris := Select(rows, NotParis), Select(rows, IsParis);
    var app, msn := FillHousing(paris, "appartement"), FillHousing(paris, "maison");
    var r := DuplicateParis(rows);
    assert r == np + app + msn;
    var row: RentRow;
    if k < |np| {
      assert r[k] == np[k];
      row := np[k];
    } else if k < |np| + |paris| {
      assert r[k] == app[k - |np|];
      row := paris[k - |np|];
    } else {
      assert r[k] == msn[k - |np| - |paris|];
      row := paris[k - |np| - |paris|];
    }
    assert row in rows && row.rents == r[k].rents;
    var i :| 0 <= i < |rows| && rows[i] == row;
  }

  /** The housing types looped over: the non-empty tokens of every city. */
  function HousingTypes(ht: map<string, seq<string>>): (r: set<string>)
    ensures forall h :: h in r <==> h != "" && exists c :: c in ht && h in ht[c]
  {
    set c, h | c in ht && h in ht[c] && h != "" :: h
  }

  /** There are exactly two: houses and flats. */
  lemma HousingTypesOfRentControl()
    ensures HousingTypes(HOUSING_TYPE) == {"_maison", "_appartement"}
  {
    assert HOUSING_TYPE.Keys == {"paris", "plaine-commune", "est-ensemble"};
    assert "plaine-commune" in HOUSING_TYPE && "_maison" in HOUSING_TYPE["plaine-commune"];
    assert "_appartement" in HOUSING_TYPE["plaine-commune"];
  }

  /** One combination of rent categories; `housingType` is `None` where the loop does not select
      on it. */
  datatype Combo = Combo(rooms: int, epoque: string, furnished: string, housingType: Option<string>)

  /** Whether a row belongs to a combination (the `query` of the combination loop). */
  predicate Matches(c: Combo, row: RentRow)
  {
    && row.rooms == c.rooms && row.epoque == c.epoque && row.furnished == c.furnished
    && (c.housingType.Some? ==> row.housingType == c.housingType)
  }

  function ForHousing(r: int, e: string, f: string, hs: seq<Option<string>>): (s: seq<Combo>)
    ensures |s| == |hs|
    ensures forall c :: c in s <==> c.rooms == r && c.epoque == e && c.furnished == f && c.housingType in hs
  {
    var s := seq(|hs|, i requires 0 <= i < |hs| => Combo(r, e, f, hs[i]));
    assert forall c :: c in s <==> c.rooms == r && c.epoque == e && c.furnished == f && c.housingType in hs by {
      forall c: Combo | c.rooms == r && c.epoque == e && c.furnished == f && c.housingType in hs ensures c in s {
        var i :| 0 <= i < |hs| && hs[i] == c.housingType;
        assert s[i] == c;
      }
    }
    s
  }

  lemma MulSucc(a: nat, b: nat)
    requires a > 0
    ensures a * b == b + (a - 1) * b
  {
  }

  function ForFurnished(r: int, e: string, fs: seq<string>, hs: seq<Option<string>>): (s: seq<Combo>)
    ensures |s| == |fs| * |hs|
    ensures forall c :: c in s <==> c.rooms == r && c.epoque == e && c.furnished in fs && c.housingType in hs
  {
    if fs == [] then []
    else
      var s := ForHousing(r, e, fs[0], hs) + ForFurnished(r, e, fs[1..], hs);
      MulSucc(|fs|, |hs|);
      assert fs == [fs[0]] + fs[1..];
      s
  }

  function ForEpoque(r: int, es: seq<string>, fs: seq<string>, hs: seq<Option<string>>): (s: seq<Combo>)
    ensures |s| == |es| * (|fs| * |hs|)
    ensures forall c :: c in s <==> c.rooms == r && c.epoque in es && c.furnished in fs && c.housingType in hs
  {
    if es == [] then []
    else
      var s := ForFurnished(r, es[0], fs, hs) + ForEpoque(r, es[1..], fs, hs);
      MulSucc(|es|, |fs| * |hs|);
      assert es == [es[0]] + es[1..];
      s
  }

  /** The nested loops `for rooms … for epoque … for furnished … for housing_type`, outermost
      first: every combination of the four lists, once per choice of positions. */
  function Combinations(rs: seq<int>, es: seq<string>, fs: seq<string>, hs: seq<Option<string>>): (s: seq<Combo>)
    ensures |s| == |rs| * (|es| * (|fs| * |hs|))
    ensures forall c :: c in s <==> c.rooms in rs && c.epoque in es && c.furnished in fs && c.housingType in hs
  {
    if rs == [] then []
    else
      var s := ForEpoque(rs[0], es, fs, hs) + Combinations(rs[1..], es, fs, hs);
      MulSucc(|rs|, |es| * (|fs| * |hs|));
      assert rs == [rs[0]] + rs[1..];
      s
  }

  /** A combination of the rent-control loop: a room count, period and furnishing of the
      lists, and a housing type of `hs`. */
  predicate InGrid(c: Combo, hs: seq<Option<string>>)
  {
    c.rooms in ROOMS && c.epoque in EPOQUE && c.furnished in FURNISHED && c.housingType in hs
  }

  /** The rent-control loop over the fixed lists, `hs` being its housing types. */
  function Grid(hs: seq<Option<string>>): (s: seq<Combo>)
    ensures |s| == 32 * |hs|
    ensures forall c :: c in s <==> InGrid(c, hs)
  {
    Combinations(ROOMS, EPOQUE, FURNISHED, hs)
  }

  /** The housing-type loop runs over the two tokens of a Python set, in an order Python does
      not fix; `[1:]` strips the leading `_`. */
  ghost predicate HousingOrder(hs: seq<Option<string>>)
  {
    hs == [Some("maison"), Some("appartement")] || hs == [Some("appartement"), Some("maison")]
  }

  /** The Paris rent-control loop makes 4 · 4 · 2 · 2 = 64 blocks, in either set order. */
  lemma SixtyFourBlocks(hs: seq<Option<string>>)
    requires HousingOrder(hs)
    ensures |Grid(hs)| == 64
    ensures forall c :: c in Grid(hs) <==>
      c.rooms in ROOMS && c.epoque in EPOQUE && c.furnished in FURNISHED &&
      c.housingType in {Some("maison"), Some("appartement")}
  {
    HousingTypesOfRentControl();
  }

  /** Two decimal digits, `str(i).zfill(2)` for `i < 100`. */
  function TwoDigits(i: nat): (s: string)
    requires i < 100
    ensures |s| == 2 && '0' <= s[0] <= '9' && '0' <= s[1] <= '9'
    ensures (s[0] as int - '0' as int) * 10 + (s[1] as int - '0' as int) == i
  {
    [('0' as int + i / 10) as char, ('0' as int + i % 10) as char]
  }

  /** `CP_PARIS`: the postal codes 75001 … 75020 of the twenty arrondissements, then 75116 for
      the second office of the 16th. */
  function CpParis(): seq<string>
  {
    seq(20, i requires 0 <= i < 20 => "750" + TwoDigits(i + 1)) + ["75116"]
  }

  /** Twenty-one distinct five-character Paris codes. */
  lemma CpParisSpec()
    ensures |CpParis()| == 21
    ensures CpParis()[0] == "75001" && CpParis()[19] == "75020" && CpParis()[20] == "75116"
    ensures forall i :: 0 <= i < 21 ==> |CpParis()[i]| == 5 && CpParis()[i][..2] == "75"
    ensures forall i, j :: 0 <= i < j < 21 ==> CpParis()[i] != CpParis()[j]
  {
    assert CpParis()[0] == "750" + TwoDigits(1);
    assert CpParis()[19] == "750" + TwoDigits(20);
    forall i | 0 <= i < 21 ensures |CpParis()[i]| == 5 && CpParis()[i][..2] == "75" {
      if i < 20 {
        assert CpParis()[i] == "750" + TwoDigits(i + 1);
      }
    }
    forall i, j | 0 <= i < j < 21 ensures CpParis()[i] != CpParis()[j] {
      if j < 20 {
        var a, b := TwoDigits(i + 1), TwoDigits(j + 1);
        assert CpParis()[i] == "750" + a && CpParis()[j] == "750" + b;
        assert a != b;
        assert ("750" + a)[3..] == a && ("750" + b)[3..] == b;
      } else {
        assert CpParis()[i] == "750" + TwoDigits(i + 1);
        assert CpParis()[i][2] == '0' && CpParis()[j][2] == '1';
      }
    }
  }

  /** A postal-code polygon. */
  datatype PostalCode = PostalCode(cp: string, shape: Region)

  predicate InParis(p: PostalCode)
  {
    p.cp in CpParis()
  }

  /** `gdf_cp.loc[gdf_cp.index.isin(CP_PARIS)]`: the Paris postal codes, in input order. */
  function ParisPostalCodes(codes: seq<PostalCode>): (r: seq<PostalCode>)
    ensures forall k :: 0 <= k < |r| ==> r[k].cp in CpParis() && r[k] in codes
    ensures forall k :: 0 <= k < |codes| && codes[k].cp in CpParis() ==> codes[k] in r
  {
    Select(codes, InParis)
  }

  predicate IsParis2024(row: RentRow)
  {
    row.city == "paris" && row.period == "2024-07-01"
  }

  /** `gdf_rc_pr`: the Paris rows of the July 2024 release. */
  function Paris2024(rows: seq<RentRow>): (r: seq<RentRow>)
    ensures forall k :: 0 <= k < |r| ==> r[k].city == "paris" && r[k].period == "2024-07-01" && r[k] in rows
    ensures forall k :: 0 <= k < |rows| && IsParis2024(rows[k]) ==> rows[k] in r
  {
    Select(rows, IsParis2024)
  }

  /** The July 2024 Paris rows are the Paris rows that survive the latest-period filter. */
  lemma Paris2024IsLatest(row: RentRow)
    requires Published(row)
    ensures IsParis2024(row) <==> IsParis(row) && IsLatest({"2024-07-01", "2024-06-01"}, row)
  {
    assert "2024-06-01" !in PERIOD["paris"];
  }
}
