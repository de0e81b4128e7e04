/** `helpers/from_sirius.py`: reads a sirius JSON input back into the
    provenance inputs of a calculation: a structure, a magnetisation table
    and a k-point specification. */
module FromSirius {
  import opened Results
  import opened SiriusInput
  import opened Structure

  /** `to_list`: every row turned into a list, rows kept in order. */
  function ToList(x: seq<seq<real>>): (r: seq<seq<real>>)
    ensures |r| == |x|
    ensures forall i :: 0 <= i < |x| ==> r[i] == x[i]
  {
    seq(|x|, i requires 0 <= i < |x| => x[i])
  }

  /** `get_mag`: the entries after the position, or `[0, 0, 0]` when the
      row holds a position only. */
  function GetMag(row: Row): (mag: Row)
    ensures |row| > 3 ==> mag == row[3..]
    ensures |row| <= 3 ==> mag == [0.0, 0.0, 0.0]
    ensures |mag| > 0
  {
    var tail := Drop(row, 3);
    if |tail| == 0 then [0.0, 0.0, 0.0] else tail
  }

  /** A row is a position followed by a magnetisation: `get_mag` gives back
      the magnetisation when there is one and `row[:3]` the position. */
  lemma RowSplits(position: Row, magnetization: Row)
    requires |position| == 3
    ensures Take(position + magnetization, 3) == position
    ensures GetMag(position + magnetization)
            == if magnetization == [] then [0.0, 0.0, 0.0] else magnetization
  {
    assert (position + magnetization)[..3] == position;
    assert (position + magnetization)[3..] == magnetization;
  }

  /** `[get_mag(lpos) for lpos in rows]`. */
  function MagnetizationList(rows: seq<Row>): (mags: seq<Row>)
    ensures |mags| == |rows|
    ensures forall j :: 0 <= j < |rows| ==> mags[j] == GetMag(rows[j])
  {
    seq(|rows|, j requires 0 <= j < |rows| => GetMag(rows[j]))
  }

  /** `read_magnetization`: for each atom type, in key order, the list of
      `get_mag` of its rows. */
  method ReadMagnetization(atoms: AtomTable) returns (magnetization: AtomTable)
    ensures Types(magnetization) == Types(atoms)
    ensures forall i :: 0 <= i < |atoms| ==> |magnetization[i].1| == |atoms[i].1|
    ensures forall i, j :: 0 <= i < |atoms| && 0 <= j < |atoms[i].1| ==>
              magnetization[i].1[j] == GetMag(atoms[i].1[j])
  {
    magnetization := [];
    var i := 0;
    while i < |atoms|
      invariant 0 <= i <= |atoms|
      invariant |magnetization| == i
      invariant forall k :: 0 <= k < i ==>
                  magnetization[k] == (atoms[k].0, MagnetizationList(atoms[k].1))
    {
      var atomType := atoms[i].0;
      var mag := MagnetizationList(atoms[i].1);
      magnetization := magnetization + [(atomType, mag)];
      i := i + 1;
    }
  }

  /** The magnetisation table is again a dictionary: same keys, each once. */
  lemma MagnetizationKeysDistinct(atoms: AtomTable, magnetization: AtomTable)
    requires DistinctTypes(atoms)
    requires Types(magnetization) == Types(atoms)
    ensures DistinctTypes(magnetization)
    ensures (set k | k in Types(magnetization)) == (set k | k in Types(atoms))
  {
    forall i, j | 0 <= i < j < |magnetization|
      ensures magnetization[i].0 != magnetization[j].0
    {
      assert Types(magnetization)[i] == Types(atoms)[i];
      assert Types(magnetization)[j] == Types(atoms)[j];
    }
  }

  /** `lattice_vectors_scale`, 1 when the key is absent. */
  function LatticeScale(uc: UnitCell): (scale: real)
    ensures uc.latticeVectorsScale.None? ==> scale == 1.0
    ensures uc.latticeVectorsScale.Some? ==> scale == uc.latticeVectorsScale.value
  {
    match uc.latticeVectorsScale
    case Some(s) => s
    case None => 1.0
  }

  /** This module's own `bohr_to_ang`. */
  const BohrToAng: real := 0.529177210903

  /** `np.array(lattice_vectors) * lattice_vectors_scale * bohr_to_ang`, for
      the conversion factor `bohrToAng` the reader uses. */
  function CellAngstrom(uc: UnitCell, bohrToAng: real): (cell: seq<seq<real>>)
    ensures |cell| == |uc.latticeVectors|
    ensures forall i :: 0 <= i < |cell| ==>
              cell[i] == Scale(uc.latticeVectors[i], LatticeScale(uc) * bohrToAng)
  {
    var c := LatticeScale(uc) * bohrToAng;
    seq(|uc.latticeVectors|, i requires 0 <= i < |uc.latticeVectors| => Scale(uc.latticeVectors[i], c))
  }

  /** What `KpointsData` is set to: an explicit list or a mesh. */
  datatype Kpoints = ExplicitList(vk: seq<seq<real>>) | Mesh(ngridk: seq<int>)

  /** The k-point branch: `vk` when the key is present, else the `ngridk`
      mesh, and a `KeyError` for `ngridk` when neither is present. */
  function KpointsFrom(p: Parameters): (r: Result<Kpoints, InputError>)
    ensures p.vk.Some? ==> r == Success(ExplicitList(p.vk.value))
    ensures p.vk.None? && p.ngridk.Some? ==> r == Success(Mesh(p.ngridk.value))
    ensures r.Failure? <==> p.vk.None? && p.ngridk.None?
    ensures r.Failure? ==> r.error == MissingKey("ngridk")
  {
    if p.vk.Some? then Success(ExplicitList(p.vk.value))
    else if p.ngridk.Some? then Success(Mesh(p.ngridk.value))
    else Failure(MissingKey("ngridk"))
  }

  /** The three accepted values of `atom_coordinate_units`. */
  const AcceptedUnits: seq<string> := ["A", "a.u.", "au"]

  /** How this reader places atoms for a given `atom_coordinate_units`:
      angstrom unchanged, `a.u.`/`au` rescaled from bohr, no key fractional,
      any other value a `ValueError`. */
  function HelperPlacement(units: Option<string>): (r: Result<Placement, InputError>)
    ensures units.None? ==> r == Success(Fractional)
    ensures r.Failure? <==> units.Some? && units.value !in AcceptedUnits
    ensures r.Failure? ==> r.error == InvalidUnits(units.value)
    ensures r == Success(Verbatim) <==> units == Some("A")
    ensures r == Success(Rescaled(BohrToAng)) <==> units == Some("a.u.") || units == Some("au")
  {
    match units
    case None => Success(Fractional)
    case Some(u) =>
      if u in AcceptedUnits then
        if u in ["a.u.", "au"] then Success(Rescaled(BohrToAng)) else Success(Verbatim)
      else Failure(InvalidUnits(u))
  }

  /** `sirius_to_aiida_structure`: a structure with the scaled cell and one
      site per row, type by type, or the units `ValueError`. */
  method SiriusToAiidaStructure(uc: UnitCell, cartesian: (seq<seq<real>>, seq<real>) -> seq<real>)
    returns (r: Result<StructureData, InputError>)
    ensures r.Failure? <==> HelperPlacement(uc.atomCoordinateUnits).Failure?
    ensures r.Failure? ==> r.error == HelperPlacement(uc.atomCoordinateUnits).error
    ensures r.Success? ==>
              && fresh(r.value)
              && r.value.cell == CellAngstrom(uc, BohrToAng)
              && r.value.sites
                 == Sites(uc.atoms, HelperPlacement(uc.atomCoordinateUnits).value, CellAngstrom(uc, BohrToAng), cartesian)
  {
    var structure := new StructureData(ToList(CellAngstrom(uc, BohrToAng)));
    assert ToList(CellAngstrom(uc, BohrToAng)) == CellAngstrom(uc, BohrToAng);
    var placement := HelperPlacement(uc.atomCoordinateUnits);
    if placement.Failure? {
      return Failure(placement.error);
    }
    AppendSites(structure, uc.atoms, placement.value, cartesian);
    r := Success(structure);
  }

  /** With units `A` every site's position is its row's first three
      entries as written, and its symbol is its atom type. */
  lemma AngstromPositionsVerbatim(uc: UnitCell, cartesian: (seq<seq<real>>, seq<real>) -> seq<real>,
                                  i: nat, j: nat)
    requires uc.atomCoordinateUnits == Some("A")
    requires i < |uc.atoms| && j < |uc.atoms[i].1|
    ensures var sites := Sites(uc.atoms, HelperPlacement(uc.atomCoordinateUnits).value,
                               CellAngstrom(uc, BohrToAng), cartesian);
            && |sites| == TotalRows(uc.atoms)
            && RowsBefore(uc.atoms, i) + j < |sites|
            && sites[RowsBefore(uc.atoms, i) + j] == Site(Take(uc.atoms[i].1[j], 3), uc.atoms[i].0)
  {
    SitesCount(uc.atoms, Verbatim, CellAngstrom(uc, BohrToAng), cartesian);
    SiteAt(uc.atoms, Verbatim, CellAngstrom(uc, BohrToAng), cartesian, i, j);
  }

  /** With units `a.u.` or `au` every coordinate is multiplied by
      `bohr_to_ang`. */
  lemma BohrPositionsRescaled(uc: UnitCell, cartesian: (seq<seq<real>>, seq<real>) -> seq<real>,
                              i: nat, j: nat)
    requires uc.atomCoordinateUnits == Some("a.u.") || uc.atomCoordinateUnits == Some("au")
    requires i < |uc.atoms| && j < |uc.atoms[i].1|
    ensures var sites := Sites(uc.atoms, HelperPlacement(uc.atomCoordinateUnits).value,
                               CellAngstrom(uc, BohrToAng), cartesian);
            && |sites| == TotalRows(uc.atoms)
            && RowsBefore(uc.atoms, i) + j < |sites|
            && sites[RowsBefore(uc.atoms, i) + j]
               == Site(Scale(Take(uc.atoms[i].1[j], 3), BohrToAng), uc.atoms[i].0)
  {
    SitesCount(uc.atoms, Rescaled(BohrToAng), CellAngstrom(uc, BohrToAng), cartesian);
    SiteAt(uc.atoms, Rescaled(BohrToAng), CellAngstrom(uc, BohrToAng), cartesian, i, j);
  }

  /** Without units every site is the cell's image of the row's fractional
      coordinates. */
  lemma FractionalPositionsMapped(uc: UnitCell, cartesian: (seq<seq<real>>, seq<real>) -> seq<real>,
                                  i: nat, j: nat)
    requires uc.atomCoordinateUnits.None?
    requires i < |uc.atoms| && j < |uc.atoms[i].1|
    ensures var sites := Sites(uc.atoms, HelperPlacement(uc.atomCoordinateUnits).value,
                               CellAngstrom(uc, BohrToAng), cartesian);
            && |sites| == TotalRows(uc.atoms)
            && RowsBefore(uc.atoms, i) + j < |sites|
            && sites[RowsBefore(uc.atoms, i) + j]
               == Site(cartesian(CellAngstrom(uc, BohrToAng), Take(uc.atoms[i].1[j], 3)), uc.atoms[i].0)
  {
    SitesCount(uc.atoms, Fractional, CellAngstrom(uc, BohrToAng), cartesian);
    SiteAt(uc.atoms, Fractional, CellAngstrom(uc, BohrToAng), cartesian, i, j);
  }

  /** `from_sirius_json`: the structure, the magnetisation table and the
      k-points; the k-point `KeyError` is raised before the units check runs. */
  method FromSiriusJson(json: SiriusJson, cartesian: (seq<seq<real>>, seq<real>) -> seq<real>)
    returns (r: Result<(StructureData, AtomTable, Kpoints), InputError>)
    ensures var kp := KpointsFrom(json.parameters);
            var pl := HelperPlacement(json.unitCell.atomCoordinateUnits);
            && (r.Failure? <==> kp.Failure? || pl.Failure?)
            && (r.Failure? ==> r.error == if kp.Failure? then kp.error else pl.error)
            && (r.Success? ==>
                  && fresh(r.value.0)
                  && r.value.0.cell == CellAngstrom(json.unitCell, BohrToAng)
                  && r.value.0.sites == Sites(json.unitCell.atoms, pl.value, CellAngstrom(json.unitCell, BohrToAng), cartesian)
                  && r.value.2 == kp.value)
    ensures r.Success? ==>
              && Types(r.value.1) == Types(json.unitCell.atoms)
              && (forall i :: 0 <= i < |json.unitCell.atoms| ==>
                    |r.value.1[i].1| == |json.unitCell.atoms[i].1|)
              && (forall i, j :: 0 <= i < |json.unitCell.atoms| && 0 <= j < |json.unitCell.atoms[i].1| ==>
                    r.value.1[i].1[j] == GetMag(json.unitCell.atoms[i].1[j]))
  {
    var uc := json.unitCell;
    var magnetization := ReadMagnetization(uc.atoms);
    var kpoints := KpointsFrom(json.parameters);
    if kpoints.Failure? {
      return Failure(kpoints.error);
    }
    var structure := SiriusToAiidaStructure(uc, cartesian);
    if structure.Failure? {
      return Failure(structure.error);
    }
    r := Success((structure.value, magnetization, kpoints.value));
  }
}
