/** `examples/from_sirius.py`: the older reader of a sirius JSON. Its
    `to_list`, `read_magnetization`, cell scaling and k-point branch are the
    same code as in the helper module and are reused from `FromSirius`. It
    differs in two ways: it scales the cell by an imported `bohr_to_ang`
    rather than the helper's literal, and it does not rescale atoms whose
    units are `a.u.` or `au`. */
module FromSiriusExample {
  import opened Results
  import opened SiriusInput
  import opened Structure
  import opened FromSirius

  /** This reader's placement: all three accepted unit tags leave the row's
      position unchanged, no key means fractional coordinates, anything else
      is a `ValueError`. */
  function ExamplePlacement(units: Option<string>): (r: Result<Placement, InputError>)
    ensures units.None? ==> r == Success(Fractional)
    ensures r.Failure? <==> units.Some? && units.value !in AcceptedUnits
    ensures r.Failure? ==> r.error == InvalidUnits(units.value)
    ensures units.Some? && units.value in AcceptedUnits ==> r == Success(Verbatim)
  {
    match units
    case None => Success(Fractional)
    case Some(u) => if u in AcceptedUnits then Success(Verbatim) else Failure(InvalidUnits(u))
  }

  /** The two readers accept and reject the same units and place atoms the
      same way, except that only the helper rescales `a.u.`/`au` positions. */
  lemma PlacementsDifferOnlyOnBohr(units: Option<string>)
    ensures ExamplePlacement(units).Failure? <==> HelperPlacement(units).Failure?
    ensures ExamplePlacement(units) != HelperPlacement(units) <==>
            units == Some("a.u.") || units == Some("au")
    ensures ExamplePlacement(units).Success? ==> !ExamplePlacement(units).value.Rescaled?
  {
  }

  /** For every accepted unit tag, the example's sites carry the rows' first
      three entries unchanged, one per row, in type-then-row order. */
  lemma ExamplePositionsVerbatim(uc: UnitCell, bohrToAng: real, cartesian: (seq<seq<real>>, seq<real>) -> seq<real>,
                                 i: nat, j: nat)
    requires uc.atomCoordinateUnits.Some? && uc.atomCoordinateUnits.value in AcceptedUnits
    requires i < |uc.atoms| && j < |uc.atoms[i].1|
    ensures var sites := Sites(uc.atoms, ExamplePlacement(uc.atomCoordinateUnits).value,
                               CellAngstrom(uc, bohrToAng), cartesian);
            && |sites| == TotalRows(uc.atoms)
            && RowsBefore(uc.atoms, i) + j < |sites|
            && sites[RowsBefore(uc.atoms, i) + j] == Site(Take(uc.atoms[i].1[j], 3), uc.atoms[i].0)
  {
    SitesCount(uc.atoms, Verbatim, CellAngstrom(uc, bohrToAng), cartesian);
    SiteAt(uc.atoms, Verbatim, CellAngstrom(uc, bohrToAng), cartesian, i, j);
  }

  /** `from_sirius_json` of the example: the structure, the magnetisation
      table and the k-points, with the k-point `KeyError` raised before the
      units check. This reader scales its cell by the `bohr_to_ang` it
      imports from `aiida.common.constants`, whose value is the parameter
      `bohrToAng`. */
  method FromSiriusJson(json: SiriusJson, bohrToAng: real, cartesian: (seq<seq<real>>, seq<real>) -> seq<real>)
    returns (r: Result<(StructureData, AtomTable, Kpoints), InputError>)
    ensures var kp := KpointsFrom(json.parameters);
            var pl := ExamplePlacement(json.unitCell.atomCoordinateUnits);
            && (r.Failure? <==> kp.Failure? || pl.Failure?)
            && (r.Failure? ==> r.error == if kp.Failure? then kp.error else pl.error)
            && (r.Success? ==>
                  && fresh(r.value.0)
                  && r.value.0.cell == CellAngstrom(json.unitCell, bohrToAng)
                  && r.value.0.sites == Sites(json.unitCell.atoms, pl.value, CellAngstrom(json.unitCell, bohrToAng), cartesian)
                  && r.value.2 == kp.value)
    ensures r.Success? ==>
              && Types(r.value.1) == Types(json.unitCell.atoms)
              && (forall i :: 0 <= i < |json.unitCell.atoms| ==>
                    |r.value.1[i].1| == |json.unitCell.atoms[i].1|)
              && (forall i, j :: 0 <= i < |json.unitCell.atoms| && 0 <= j < |json.unitCell.atoms[i].1| ==>
                    r.value.1[i].1[j] == GetMag(json.unitCell.atoms[i].1[j]))
  {
    var uc := json.unitCell;
    var cell := CellAngstrom(uc, bohrToAng);
    var magnetization := ReadMagnetization(uc.atoms);
    var kpoints := KpointsFrom(json.parameters);
    if kpoints.Failure? {
      return Failure(kpoints.error);
    }
    var s := new StructureData(ToList(cell));
    assert ToList(cell) == cell;
    var placement := ExamplePlacement(uc.atomCoordinateUnits);
    if placement.Failure? {
      return Failure(placement.error);
    }
    AppendSites(s, uc.atoms, placement.value, cartesian);
    r := Success((s, magnetization, kpoints.value));
  }
}
