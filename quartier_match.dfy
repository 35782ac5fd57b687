/** Building the SeLoger quartier table: the quartiers of the scraped response list are kept when
    a low-quality quartier of the same name overlaps them, and ordered by label; after the joins,
    the one missing postal code is filled with '75012' and the rows are ordered by postal code and
    name. */
module QuartierMatch {
  import opened Common
  import opened Geometry
  import opened Tables

  /** A quartier of the response list (`Label`, `geometry`). */
  datatype Response = Response(name: string, shape: Region)

  /** A quartier of the low-quality table, indexed by its label. */
  datatype LowQuality = LowQuality(name: string, shape: Region)

  /** Some low-quality entry has the name and a shape meeting the target. */
  ghost predicate Matches(lq: seq<LowQuality>, name: string, shape: Region)
  {
    exists i :: 0 <= i < |lq| && lq[i].name == name && Intersects(lq[i].shape, shape)
  }

  /** `match_quartiers`: scan the low-quality entries and stop at the first matching one. */
  method MatchQuartiers(lq: seq<LowQuality>, name: string, shape: Region) returns (b: bool)
    ensures b <==> Matches(lq, name, shape)
  {
    for i := 0 to |lq|
      invariant forall j :: 0 <= j < i ==> !(lq[j].name == name && Intersects(lq[j].shape, shape))
    {
      if lq[i].name == name && Intersects(lq[i].shape, shape) {
        return true;
      }
    }
    return false;
  }

  /** An empty low-quality table matches nothing. */
  lemma NothingMatchesEmpty(name: string, shape: Region)
    ensures !Matches([], name, shape)
  {
  }

  /** An entry of another name never makes a quartier match, whatever its shape. */
  lemma OtherNameIrrelevant(lq: seq<LowQuality>, e: LowQuality, name: string, shape: Region)
    requires e.name != name
    ensures Matches(lq + [e], name, shape) <==> Matches(lq, name, shape)
  {
    if Matches(lq + [e], name, shape) {
      var i :| 0 <= i < |lq + [e]| && (lq + [e])[i].name == name && Intersects((lq + [e])[i].shape, shape);
      assert i < |lq| && lq[i] == (lq + [e])[i];
    }
    if Matches(lq, name, shape) {
      var i :| 0 <= i < |lq| && lq[i].name == name && Intersects(lq[i].shape, shape);
      assert (lq + [e])[i] == lq[i];
    }
  }

  /** Growing a matching shape keeps it matching. */
  lemma MatchesMonotone(lq: seq<LowQuality>, name: string, small: Region, large: Region)
    requires small <= large && Matches(lq, name, small)
    ensures Matches(lq, name, large)
  {
    var i :| 0 <= i < |lq| && lq[i].name == name && Intersects(lq[i].shape, small);
    var c :| c in lq[i].shape * small;
    assert c in lq[i].shape * large;
  }

  /** `gdf_rl.apply(lambda row: match_quartiers(...), axis = 1)`: the boolean mask of the rows. */
  method MatchMask(rows: seq<Response>, lq: seq<LowQuality>) returns (mask: seq<bool>)
    ensures |mask| == |rows|
    ensures forall i :: 0 <= i < |rows| ==> (mask[i] <==> Matches(lq, rows[i].name, rows[i].shape))
  {
    mask := [];
    for i := 0 to |rows|
      invariant |mask| == i
      invariant forall j :: 0 <= j < i ==> (mask[j] <==> Matches(lq, rows[j].name, rows[j].shape))
    {
      var b := MatchQuartiers(lq, rows[i].name, rows[i].shape);
      mask := mask + [b];
    }
  }

  function Identity(r: Response): Response { r }

  predicate LabelLeq(a: Response, b: Response)
  {
    LexLeq(a.name, b.name)
  }

  lemma LabelLeqTotalPreorder()
    ensures TotalPreorder(LabelLeq)
  {
    forall a: Response, b: Response ensures LabelLeq(a, b) || LabelLeq(b, a) {
      LexLeqTotal(a.name, b.name);
    }
    forall a: Response, b: Response, c: Response | LabelLeq(a, b) && LabelLeq(b, c) ensures LabelLeq(a, c) {
      LexLeqTransitive(a.name, b.name, c.name);
    }
  }

  /** The rows of `rows` where `mask` holds, in order. */
  function Masked(rows: seq<Response>, mask: seq<bool>): (r: seq<Response>)
    requires |mask| == |rows|
    ensures forall x :: x in r <==> exists i :: 0 <= i < |rows| && mask[i] && rows[i] == x
  {
    if rows == [] then []
    else
      var rest := Masked(rows[1..], mask[1..]);
      var kept := if mask[0] then [rows[0]] + rest else rest;
      MaskedCons(rows, mask, rest, kept);
      kept
  }

  lemma MaskedCons(rows: seq<Response>, mask: seq<bool>, rest: seq<Response>, kept: seq<Response>)
    requires |mask| == |rows| && rows != []
    requires forall x :: x in rest <==> exists i :: 0 <= i < |rows| - 1 && mask[1..][i] && rows[1..][i] == x
    requires kept == if mask[0] then [rows[0]] + rest else rest
    ensures forall x :: x in kept <==> exists i :: 0 <= i < |rows| && mask[i] && rows[i] == x
  {
    forall i | 0 <= i < |rows| && mask[i] ensures rows[i] in kept {
      if i > 0 {
        assert mask[1..][i - 1] && rows[1..][i - 1] == rows[i];
      }
    }
    forall x | x in rest ensures exists i :: 0 <= i < |rows| && mask[i] && rows[i] == x {
      var i :| 0 <= i < |rows| - 1 && mask[1..][i] && rows[1..][i] == x;
      assert mask[i + 1] && rows[i + 1] == x;
    }
  }

  /** `drop_duplicates()`, the match filter and `sort_values('Label')`: the distinct response
      rows that match a low-quality entry, ordered by label. */
  method MatchedQuartiers(rl: seq<Response>, lq: seq<LowQuality>) returns (r: seq<Response>)
    ensures SortedBy(r, LabelLeq)
    ensures forall x :: x in r <==> x in rl && Matches(lq, x.name, x.shape)
    ensures forall i, j :: 0 <= i < j < |r| ==> r[i] != r[j]
  {
    var rows := DedupBy(rl, Identity);
    var mask := MatchMask(rows, lq);
    var kept := Masked(rows, mask);
    LabelLeqTotalPreorder();
    r := SortBy(kept, LabelLeq);
    MatchedRows(rl, lq, rows, mask, kept, r);
  }

  lemma MatchedRows(rl: seq<Response>, lq: seq<LowQuality>, rows: seq<Response>, mask: seq<bool>,
                    kept: seq<Response>, r: seq<Response>)
    requires rows == DedupBy(rl, Identity) && |mask| == |rows|
    requires forall i :: 0 <= i < |rows| ==> (mask[i] <==> Matches(lq, rows[i].name, rows[i].shape))
    requires kept == Masked(rows, mask) && multiset(r) == multiset(kept)
    ensures forall x :: x in r <==> x in rl && Matches(lq, x.name, x.shape)
    ensures forall i, j :: 0 <= i < j < |r| ==> r[i] != r[j]
  {
    forall x ensures x in rows <==> x in rl {
      DedupResponses(rl, rows, x);
    }
    forall x ensures x in r <==> x in kept {
      assert x in r <==> x in multiset(r);
      assert x in kept <==> x in multiset(kept);
    }
    MaskedDistinct(rows, mask, kept);
    PermutationKeepsDistinct(kept, r);
  }

  /** With the whole row as key, de-duplication keeps exactly the rows there are. */
  lemma DedupResponses(rl: seq<Response>, rows: seq<Response>, x: Response)
    requires rows == DedupBy(rl, Identity)
    ensures x in rows <==> x in rl
  {
    assert KeysOf(rows, Identity) == KeysOf(rl, Identity);
    if x in rows {
      var i :| 0 <= i < |rows| && rows[i] == x;
      assert Identity(rows[i]) in KeysOf(rl, Identity);
    }
    if x in rl {
      var i :| 0 <= i < |rl| && rl[i] == x;
      assert Identity(rl[i]) in KeysOf(rows, Identity);
    }
  }

  /** Masking rows without repetitions gives rows without repetitions. */
  lemma {:induction false} MaskedDistinct(rows: seq<Response>, mask: seq<bool>, kept: seq<Response>)
    requires |mask| == |rows| && kept == Masked(rows, mask)
    requires forall i, j :: 0 <= i < j < |rows| ==> Identity(rows[i]) != Identity(rows[j])
    ensures forall i, j :: 0 <= i < j < |kept| ==> kept[i] != kept[j]
  {
    if rows != [] {
      var rest := Masked(rows[1..], mask[1..]);
      MaskedDistinct(rows[1..], mask[1..], rest);
      if mask[0] {
        assert rows[0] !in rest by {
          forall k | 0 <= k < |rows| - 1 ensures rows[1..][k] != rows[0] {
            assert rows[1..][k] == rows[k + 1];
          }
        }
        assert kept == [rows[0]] + rest;
      }
    }
  }

  // ---- The joined table ----

  /** A row after the joins: the postal code may be missing. */
  datatype Joined = Joined(quartier: string, codePostal: Option<string>, shape: Region)

  /** A row of the exported table. */
  datatype Quartier = Quartier(quartier: string, codePostal: string, shape: Region)

  const MISSING_CODE_POSTAL: string := "75012"

  /** `.fillna('75012')`, row by row. */
  function FillNa(rows: seq<Joined>): (r: seq<Quartier>)
    ensures |r| == |rows|
    ensures forall i :: 0 <= i < |rows| ==> r[i].quartier == rows[i].quartier && r[i].shape == rows[i].shape
    ensures forall i :: 0 <= i < |rows| ==> rows[i].codePostal.None? ==> r[i].codePostal == MISSING_CODE_POSTAL
    ensures forall i :: 0 <= i < |rows| ==> rows[i].codePostal.Some? ==> r[i].codePostal == rows[i].codePostal.value
  {
    if rows == [] then []
    else
      var x := rows[0];
      [Quartier(x.quartier, if x.codePostal.Some? then x.codePostal.value else MISSING_CODE_POSTAL, x.shape)] + FillNa(rows[1..])
  }

  /** The order of `sort_values(by = ['code_postal', 'seloger_quartier'])`. */
  predicate CodeThenNameLeq(a: Quartier, b: Quartier)
  {
    if a.codePostal == b.codePostal then LexLeq(a.quartier, b.quartier) else LexLeq(a.codePostal, b.codePostal)
  }

  lemma CodeThenNameTotalPreorder()
    ensures TotalPreorder(CodeThenNameLeq)
  {
    forall a: Quartier, b: Quartier ensures CodeThenNameLeq(a, b) || CodeThenNameLeq(b, a) {
      LexLeqTotal(a.quartier, b.quartier);
      LexLeqTotal(a.codePostal, b.codePostal);
    }
    forall a: Quartier, b: Quartier, c: Quartier | CodeThenNameLeq(a, b) && CodeThenNameLeq(b, c)
      ensures CodeThenNameLeq(a, c)
    {
      CodeThenNameTransitive(a, b, c);
    }
  }

  lemma CodeThenNameTransitive(a: Quartier, b: Quartier, c: Quartier)
    requires CodeThenNameLeq(a, b) && CodeThenNameLeq(b, c)
    ensures CodeThenNameLeq(a, c)
  {
    if a.codePostal == b.codePostal && b.codePostal == c.codePostal {
      LexLeqTransitive(a.quartier, b.quartier, c.quartier);
    } else if a.codePostal == b.codePostal || b.codePostal == c.codePostal {
    } else {
      LexLeqTransitive(a.codePostal, b.codePostal, c.codePostal);
      if a.codePostal == c.codePostal {
        LexLeqAntisymmetric(a.codePostal, b.codePostal);
      }
    }
  }

  /** The exported table: every joined row with its postal code filled, ordered by postal code
      and then by name. */
  function ExportTable(rows: seq<Joined>): (r: seq<Quartier>)
    ensures SortedBy(r, CodeThenNameLeq) && multiset(r) == multiset(FillNa(rows))
  {
    CodeThenNameTotalPreorder();
    SortBy(FillNa(rows), CodeThenNameLeq)
  }

  /** No exported row lacks a postal code the join gave it: a quartier whose code was present
      keeps it, and only a missing one becomes '75012'. */
  lemma ExportedCodes(rows: seq<Joined>, x: Quartier)
    requires x in ExportTable(rows)
    ensures exists i :: (0 <= i < |rows| && rows[i].quartier == x.quartier && rows[i].shape == x.shape &&
      x.codePostal == (if rows[i].codePostal.Some? then rows[i].codePostal.value else MISSING_CODE_POSTAL))
  {
    assert x in multiset(ExportTable(rows));
    assert x in FillNa(rows);
  }
}
