/** The heat-sensitivity encodings and the per-target averages of the LCZ (local climate zone)
    table: every LCZ polygon falls in one of six sensitivity classes, read on a 0-5 scale or as six
    one-hot columns worth 100, and each target unit gets the overlap-weighted average of the LCZ
    morphology columns and of the class columns, i.e. the share of its area in each class. */
module HeatSensitivity {
  import opened Common
  import opened Sums
  import opened Geometry
  import opened Overlay
  import opened Averages

  datatype Sensitivity = TresForte | Forte | Moyenne | Faible | Variable | FaibleANulle

  /** `map_lcz_to_sensibilite`: LCZ types 1-10 are built or natural classes, letters are land
      covers, 'E' (bare rock or paved) counting as variable. */
  function FromLcz(lcz: string): Sensitivity
  {
    if lcz == "1" || lcz == "2" then TresForte
    else if lcz == "3" then Forte
    else if lcz == "4" || lcz == "5" then Moyenne
    else if lcz == "6" || lcz == "9" then Faible
    else if lcz == "7" || lcz == "8" || lcz == "10" || lcz == "E" then Variable
    else FaibleANulle
  }

  /** Every class is the class of some LCZ code. */
  lemma FromLczOnto(c: Sensitivity)
    ensures exists lcz :: FromLcz(lcz) == c
  {
    match c
    case TresForte => assert FromLcz("1") == c;
    case Forte => assert FromLcz("3") == c;
    case Moyenne => assert FromLcz("4") == c;
    case Faible => assert FromLcz("6") == c;
    case Variable => assert FromLcz("7") == c;
    case FaibleANulle => assert FromLcz("A") == c;
  }

  /** The `sns_str` label of a class, also the name of its one-hot column. */
  function Label(c: Sensitivity): string
  {
    match c
    case TresForte => "Très Forte Sensibilité"
    case Forte => "Forte Sensibilité"
    case Moyenne => "Sensibilité Moyenne"
    case Faible => "Faible Sensibilité"
    case Variable => "Sensibilité Variable"
    case FaibleANulle => "Sensibilité Faible à Nulle"
  }

  /** `map_sensibilte_to_int` on any string: the five named labels score 5 down to 1, anything
      else 0. */
  function LabelToInt(sns: string): (r: int)
    ensures 0 <= r <= 5
  {
    if sns == "Très Forte Sensibilité" then 5
    else if sns == "Forte Sensibilité" then 4
    else if sns == "Sensibilité Moyenne" then 3
    else if sns == "Faible Sensibilité" then 2
    else if sns == "Sensibilité Variable" then 1
    else 0
  }

  /** The `sns_int` column: the score of an LCZ code through its label. */
  function SnsInt(lcz: string): (r: real)
    ensures 0.0 <= r <= 5.0
  {
    LabelToInt(Label(FromLcz(lcz))) as real
  }

  /** The labels are distinct, so reading the label back gives a scale on which distinct classes
      have distinct scores, the six classes taking each of 0..5. */
  lemma ScoresDistinct(a: Sensitivity, b: Sensitivity)
    ensures LabelToInt(Label(a)) == LabelToInt(Label(b)) ==> a == b
    ensures Label(a) == Label(b) ==> a == b
  {
    LabelScores();
  }

  lemma LabelScores()
    ensures LabelToInt(Label(TresForte)) == 5 && LabelToInt(Label(Forte)) == 4
    ensures LabelToInt(Label(Moyenne)) == 3 && LabelToInt(Label(Faible)) == 2
    ensures LabelToInt(Label(Variable)) == 1 && LabelToInt(Label(FaibleANulle)) == 0
  {
    assert Label(Forte) != Label(TresForte) by { assert Label(Forte)[0] != Label(TresForte)[0]; }
    assert Label(Moyenne) != Label(TresForte) && Label(Moyenne) != Label(Forte) by {
      assert Label(Moyenne)[0] == 'S';
    }
    assert Label(Faible) != Label(TresForte) && Label(Faible) != Label(Forte) && Label(Faible) != Label(Moyenne) by {
      assert Label(Faible)[0] == 'F' && Label(Faible)[1] == 'a';
    }
    assert Label(Variable) != Label(TresForte) && Label(Variable) != Label(Forte) by {
      assert Label(Variable)[0] == 'S';
    }
    assert Label(Variable) != Label(Moyenne) && Label(Variable) != Label(Faible) by {
      assert Label(Variable)[12] == 'V' && Label(Moyenne)[12] == 'M' && Label(Faible)[0] == 'F';
    }
    var n := Label(FaibleANulle);
    assert n != Label(TresForte) && n != Label(Forte) && n != Label(Faible) by { assert n[0] == 'S'; }
    assert n != Label(Moyenne) && n != Label(Variable) by { assert n[12] == 'F'; }
  }

  lemma ScoreRange(k: int)
    requires 0 <= k <= 5
    ensures exists c :: LabelToInt(Label(c)) == k
  {
    LabelScores();
    if k == 5 { assert LabelToInt(Label(TresForte)) == k; }
    else if k == 4 { assert LabelToInt(Label(Forte)) == k; }
    else if k == 3 { assert LabelToInt(Label(Moyenne)) == k; }
    else if k == 2 { assert LabelToInt(Label(Faible)) == k; }
    else if k == 1 { assert LabelToInt(Label(Variable)) == k; }
    else { assert LabelToInt(Label(FaibleANulle)) == k; }
  }

  /** The class columns in the order of `numeric_cols`, i.e. alphabetical by label. */
  const CLASS_COLUMNS: seq<Sensitivity> := [Faible, Forte, FaibleANulle, Moyenne, Variable, TresForte]

  /** The number of LCZ morphology columns averaged before the class columns: hre, are, bur, ror,
      bsr, war, ver and vhr. */
  const MORPHOLOGY: nat := 8

  const WIDTH: nat := MORPHOLOGY + |CLASS_COLUMNS|

  /** The position of a class among the class columns. */
  function ColumnOf(c: Sensitivity): (j: nat)
    ensures j < |CLASS_COLUMNS| && CLASS_COLUMNS[j] == c
  {
    match c
    case Faible => 0
    case Forte => 1
    case FaibleANulle => 2
    case Moyenne => 3
    case Variable => 4
    case TresForte => 5
  }

  /** Every class has exactly one column. */
  lemma ClassColumnsDistinct()
    ensures forall i, j :: 0 <= i < j < |CLASS_COLUMNS| ==> CLASS_COLUMNS[i] != CLASS_COLUMNS[j]
  {
  }

  /** `100 * pd.get_dummies(...)`: the class columns of one LCZ polygon. */
  function OneHot(c: Sensitivity): (r: seq<real>)
    ensures |r| == |CLASS_COLUMNS|
  {
    seq(|CLASS_COLUMNS|, j requires 0 <= j < |CLASS_COLUMNS| => if CLASS_COLUMNS[j] == c then 100.0 else 0.0)
  }

  /** Exactly one class column of a polygon holds 100, the one of its class, and the others hold
      0, so its class columns add up to 100. */
  lemma OneHotExactlyOne(c: Sensitivity)
    ensures exists j :: 0 <= j < |CLASS_COLUMNS| && CLASS_COLUMNS[j] == c && OneHot(c)[j] == 100.0
    ensures forall j, k :: (0 <= j < |CLASS_COLUMNS| && 0 <= k < |CLASS_COLUMNS| &&
                            OneHot(c)[j] == 100.0 && OneHot(c)[k] == 100.0) ==> j == k
    ensures forall j :: 0 <= j < |CLASS_COLUMNS| ==> OneHot(c)[j] == 0.0 || OneHot(c)[j] == 100.0
    ensures Sum(OneHot(c)) == 100.0
  {
    ClassColumnsDistinct();
    var r := OneHot(c);
    var j := ColumnOf(c);
    assert r == r[..j] + [r[j]] + r[j + 1..];
    SumAppend(r[..j] + [r[j]], r[j + 1..]);
    SumAppend(r[..j], [r[j]]);
    SumZeroIffAllZero(r[..j]);
    SumZeroIffAllZero(r[j + 1..]);
  }

  /** An LCZ polygon with its code and its morphology columns. */
  datatype Zone = Zone(shape: Region, lcz: string, morphology: seq<real>)

  ghost predicate WellFormed(zones: seq<Zone>)
  {
    forall i :: 0 <= i < |zones| ==> |zones[i].morphology| == MORPHOLOGY
  }

  function Shapes(zones: seq<Zone>): (r: seq<Region>)
    ensures |r| == |zones| && forall i :: 0 <= i < |zones| ==> r[i] == zones[i].shape
  {
    seq(|zones|, i requires 0 <= i < |zones| => zones[i].shape)
  }

  /** `get_dummies` makes a column only for the classes that occur: `numeric_cols` finds all six
      only if every class has a polygon. */
  predicate ClassesPresent(zones: seq<Zone>)
  {
    forall j :: 0 <= j < |CLASS_COLUMNS| ==> exists i :: 0 <= i < |zones| && FromLcz(zones[i].lcz) == CLASS_COLUMNS[j]
  }

  /** The `numeric_cols` row of a polygon. */
  function Attributes(z: Zone): (r: seq<real>)
    requires |z.morphology| == MORPHOLOGY
    ensures |r| == WIDTH
  {
    z.morphology + OneHot(FromLcz(z.lcz))
  }

  function AttributeTable(zones: seq<Zone>): (r: seq<seq<real>>)
    requires WellFormed(zones)
    ensures |r| == |zones| && Rectangular(r, WIDTH)
  {
    seq(|zones|, i requires 0 <= i < |zones| => Attributes(zones[i]))
  }

  function ClassTable(zones: seq<Zone>): (r: seq<seq<real>>)
    ensures |r| == |zones| && Rectangular(r, |CLASS_COLUMNS|)
  {
    seq(|zones|, i requires 0 <= i < |zones| => OneHot(FromLcz(zones[i].lcz)))
  }

  /** The averages of one target over the polygons of positive weight, in `numeric_cols` order. */
  function TargetRow(target: Region, zones: seq<Zone>): (r: seq<real>)
    requires WellFormed(zones)
    ensures |r| == WIDTH
  {
    MaskedMeans(Weights(target, Shapes(zones)), AttributeTable(zones), WIDTH)
  }

  /** Without the zero-weight mask the row would be the same: each entry is the plain weighted
      sum of its column. */
  lemma TargetRowUnmasked(target: Region, zones: seq<Zone>)
    requires WellFormed(zones) && Weights(target, Shapes(zones)).Some?
    ensures forall j :: 0 <= j < WIDTH ==>
      TargetRow(target, zones)[j] == Dot(Weights(target, Shapes(zones)).value, Column(AttributeTable(zones), j))
  {
    MaskedMeansAreMeans(Weights(target, Shapes(zones)), AttributeTable(zones), WIDTH);
  }

  /** A target overlapping no LCZ polygon gets a row of zeros, not missing values. */
  lemma TargetRowWithoutOverlap(target: Region, zones: seq<Zone>)
    requires WellFormed(zones)
    requires forall i :: 0 <= i < |zones| ==> !Intersects(target, zones[i].shape)
    ensures TargetRow(target, zones) == Const(WIDTH, 0.0)
  {
    MaskedMeansAreMeans(Weights(target, Shapes(zones)), AttributeTable(zones), WIDTH);
  }

  /** For an overlapping target, a column that is constant over the polygons averages to that
      constant. */
  lemma TargetRowConstant(target: Region, zones: seq<Zone>, j: nat, v: real)
    requires WellFormed(zones) && j < WIDTH && Weights(target, Shapes(zones)).Some?
    requires forall i :: 0 <= i < |zones| ==> Attributes(zones[i])[j] == v
    ensures TargetRow(target, zones)[j] == v
  {
    var table := AttributeTable(zones);
    MaskedMeansAreMeans(Weights(target, Shapes(zones)), table, WIDTH);
    MeanOfConstantColumn(OverlapAreas(target, Shapes(zones)), table, WIDTH, j, v);
  }

  /** The class columns of a target's row are its class shares: the averages of the one-hot
      table. */
  lemma ClassColumnsOfRow(target: Region, zones: seq<Zone>)
    requires WellFormed(zones) && Weights(target, Shapes(zones)).Some?
    ensures TargetRow(target, zones)[MORPHOLOGY..] == SkipNanMeans(Weights(target, Shapes(zones)), ClassTable(zones), |CLASS_COLUMNS|)
  {
    var w := Weights(target, Shapes(zones));
    var table, classes := AttributeTable(zones), ClassTable(zones);
    MaskedMeansAreMeans(w, table, WIDTH);
    var lhs, rhs := TargetRow(target, zones)[MORPHOLOGY..], SkipNanMeans(w, classes, |CLASS_COLUMNS|);
    forall j | 0 <= j < |CLASS_COLUMNS| ensures lhs[j] == rhs[j] {
      assert Column(table, MORPHOLOGY + j) == Column(classes, j);
    }
  }

  /** For an overlapping target, each class share is between 0 and 100 and the six shares add up
      to 100. */
  lemma ClassShares(target: Region, zones: seq<Zone>)
    requires WellFormed(zones) && Weights(target, Shapes(zones)).Some?
    ensures forall j :: MORPHOLOGY <= j < WIDTH ==> 0.0 <= TargetRow(target, zones)[j] <= 100.0
    ensures Sum(TargetRow(target, zones)[MORPHOLOGY..]) == 100.0
  {
    var areas := OverlapAreas(target, Shapes(zones));
    var row := TargetRow(target, zones);
    ClassColumnsOfRow(target, zones);
    ClassTableShares(zones);
    SharesOfMeans(areas, ClassTable(zones), row[MORPHOLOGY..]);
    forall j | MORPHOLOGY <= j < WIDTH ensures 0.0 <= row[j] <= 100.0 {
      assert row[j] == row[MORPHOLOGY..][j - MORPHOLOGY];
    }
  }

  /** Every polygon's class columns lie between 0 and 100 and add up to 100. */
  lemma ClassTableShares(zones: seq<Zone>)
    ensures forall i :: 0 <= i < |ClassTable(zones)| ==>
      Sum(ClassTable(zones)[i]) == 100.0 &&
      forall j :: 0 <= j < |CLASS_COLUMNS| ==> 0.0 <= ClassTable(zones)[i][j] <= 100.0
  {
    forall i | 0 <= i < |zones|
      ensures Sum(ClassTable(zones)[i]) == 100.0
      ensures forall j :: 0 <= j < |CLASS_COLUMNS| ==> 0.0 <= ClassTable(zones)[i][j] <= 100.0
    {
      OneHotExactlyOne(FromLcz(zones[i].lcz));
    }
  }

  /** Averages of rows of shares adding up to 100 are shares adding up to 100. */
  lemma SharesOfMeans(areas: seq<real>, classes: seq<seq<real>>, row: seq<real>)
    requires NonNegative(areas) && |areas| == |classes| && Rectangular(classes, |CLASS_COLUMNS|)
    requires Normalize(areas).Some?
    requires forall i :: 0 <= i < |classes| ==>
      Sum(classes[i]) == 100.0 && forall j :: 0 <= j < |CLASS_COLUMNS| ==> 0.0 <= classes[i][j] <= 100.0
    requires row == SkipNanMeans(Normalize(areas), classes, |CLASS_COLUMNS|)
    ensures forall j :: 0 <= j < |row| ==> 0.0 <= row[j] <= 100.0
    ensures Sum(row) == 100.0
  {
    MeansOfSharesSum(areas, classes, |CLASS_COLUMNS|, 100.0);
    forall j | 0 <= j < |row| ensures 0.0 <= row[j] <= 100.0 {
      MeanWithinColumnBounds(areas, classes, |CLASS_COLUMNS|, j, 0.0, 100.0);
    }
  }

  /** `for cq in gdf_cq.index`: the `geo_weight` column is overwritten for each target and one row
      of averages is appended per target, in input order; selecting `numeric_cols` inside the
      loop raises KeyError when a class has no polygon, so with no target there is no error. */
  method AverageAll(targets: seq<Region>, zones: seq<Zone>) returns (r: Result<seq<seq<real>>>)
    requires WellFormed(zones)
    ensures r.Err? <==> targets != [] && !ClassesPresent(zones)
    ensures r.Err? ==> r.error == KeyError
    ensures r.Ok? ==> |r.value| == |targets|
    ensures r.Ok? ==> forall k :: 0 <= k < |targets| ==> r.value[k] == TargetRow(targets[k], zones)
  {
    if targets != [] && !ClassesPresent(zones) {
      return Err(KeyError);
    }
    var table := AttributeTable(zones);
    var series: seq<seq<real>> := [];
    var k := 0;
    while k < |targets|
      invariant 0 <= k <= |targets| && |series| == k
      invariant forall j :: 0 <= j < k ==> series[j] == TargetRow(targets[j], zones)
    {
      var geoWeight := Weights(targets[k], Shapes(zones));
      series := series + [MaskedMeans(geoWeight, table, WIDTH)];
      k := k + 1;
    }
    return Ok(series);
  }
}
