/** The parts of a sirius JSON input document that are read back into
    provenance inputs: the `unit_cell` section and the `parameters`
    section. Numbers are exact reals. */
module SiriusInput {
  import opened Results

  /** One row of `unit_cell.atoms[type]`: a position, optionally followed by
      a magnetisation vector. */
  type Row = seq<real>

  /** `unit_cell.atoms`: atom type to rows, in the dictionary's key order. */
  type AtomTable = seq<(string, seq<Row>)>

  datatype UnitCell = UnitCell(
    latticeVectors: seq<seq<real>>,
    latticeVectorsScale: Option<real>,   // absent key is None
    atomCoordinateUnits: Option<string>, // absent key is None
    atoms: AtomTable)

  datatype Parameters = Parameters(
    vk: Option<seq<seq<real>>>,
    ngridk: Option<seq<int>>)

  datatype SiriusJson = SiriusJson(unitCell: UnitCell, parameters: Parameters)

  /** The exceptions that reading the document can raise. */
  datatype InputError =
    | MissingKey(key: string)        // KeyError
    | InvalidUnits(units: string)    // ValueError('invalid entry for atom_coordinate_units')

  /** Python's `row[:n]`. */
  function Take(row: Row, n: nat): (r: Row)
    ensures |r| == if |row| < n then |row| else n
    ensures r <= row
  {
    if |row| < n then row else row[..n]
  }

  /** Python's `row[n:]`. */
  function Drop(row: Row, n: nat): (r: Row)
    ensures |r| == if |row| < n then 0 else |row| - n
    ensures Take(row, n) + r == row
  {
    if |row| < n then [] else row[n..]
  }

  /** The atom types of a table, in order. */
  function Types(t: AtomTable): (r: seq<string>)
    ensures |r| == |t|
    ensures forall i :: 0 <= i < |t| ==> r[i] == t[i].0
  {
    seq(|t|, i requires 0 <= i < |t| => t[i].0)
  }

  /** A Python dictionary has each key once. */
  predicate DistinctTypes(t: AtomTable)
  {
    forall i, j :: 0 <= i < j < |t| ==> t[i].0 != t[j].0
  }

  /** Number of rows across all atom types. */
  function TotalRows(t: AtomTable): nat
  {
    if t == [] then 0 else TotalRows(t[..|t| - 1]) + |t[|t| - 1].1|
  }

  /** Number of rows of the types before position `i`. */
  function RowsBefore(t: AtomTable, i: nat): nat
    requires i <= |t|
  {
    TotalRows(t[..i])
  }
}
