/** A crystal structure under construction, as `StructureData` is used by
    the readers of a sirius JSON: it is created with its cell and grows by
    `append_atom`, one site at a time. Also holds the placement of each site
    and the nested loop over atom types and rows that both readers run. */
module Structure {
  import opened SiriusInput

  /** One appended atom: its Cartesian position and its atom type. */
  datatype Site = Site(position: seq<real>, symbol: string)

  class StructureData {
    var cell: seq<seq<real>>
    var sites: seq<Site>

    constructor (cell: seq<seq<real>>)
      ensures this.cell == cell && sites == []
    {
      this.cell := cell;
      sites := [];
    }

    /** `append_atom(position=..., symbols=...)`. */
    method AppendAtom(position: seq<real>, symbol: string)
      modifies this
      ensures cell == old(cell)
      ensures sites == old(sites) + [Site(position, symbol)]
    {
      sites := sites + [Site(position, symbol)];
    }
  }

  /** How a row's first three entries become a position: unchanged,
      multiplied by a conversion factor, or mapped from fractional to
      Cartesian coordinates by the cell. */
  datatype Placement = Verbatim | Rescaled(factor: real) | Fractional

  function Scale(v: seq<real>, c: real): (r: seq<real>)
    ensures |r| == |v|
    ensures forall i :: 0 <= i < |v| ==> r[i] == v[i] * c
  {
    seq(|v|, i requires 0 <= i < |v| => v[i] * c)
  }

  /** The position of the atom of `row`. `cartesian(cell, frac)` stands for
      `np.dot(cell.T, frac)`. */
  function Place(p: Placement, cell: seq<seq<real>>, row: Row,
                 cartesian: (seq<seq<real>>, seq<real>) -> seq<real>): seq<real>
  {
    match p
    case Verbatim => Take(row, 3)
    case Rescaled(c) => Scale(Take(row, 3), c)
    case Fractional => cartesian(cell, Take(row, 3))
  }

  /** The sites one atom type contributes, in row order. */
  function TypeSites(atomType: string, rows: seq<Row>, p: Placement, cell: seq<seq<real>>,
                     cartesian: (seq<seq<real>>, seq<real>) -> seq<real>): (r: seq<Site>)
    ensures |r| == |rows|
    ensures forall j :: 0 <= j < |rows| ==> r[j] == Site(Place(p, cell, rows[j], cartesian), atomType)
  {
    seq(|rows|, j requires 0 <= j < |rows| => Site(Place(p, cell, rows[j], cartesian), atomType))
  }

  /** The sites the nested loop appends: type by type, row by row. */
  function Sites(t: AtomTable, p: Placement, cell: seq<seq<real>>,
                 cartesian: (seq<seq<real>>, seq<real>) -> seq<real>): seq<Site>
  {
    if t == [] then []
    else Sites(t[..|t| - 1], p, cell, cartesian)
         + TypeSites(t[|t| - 1].0, t[|t| - 1].1, p, cell, cartesian)
  }

  /** One site per row of the table. */
  lemma {:induction false} SitesCount(t: AtomTable, p: Placement, cell: seq<seq<real>>,
                                      cartesian: (seq<seq<real>>, seq<real>) -> seq<real>)
    ensures |Sites(t, p, cell, cartesian)| == TotalRows(t)
  {
    if t != [] {
      SitesCount(t[..|t| - 1], p, cell, cartesian);
    }
  }

  /** Ordering: row `j` of the `i`-th atom type is the site right after the
      rows of all earlier types and the earlier rows of its own type. */
  lemma {:induction false} SiteAt(t: AtomTable, p: Placement, cell: seq<seq<real>>,
                                  cartesian: (seq<seq<real>>, seq<real>) -> seq<real>, i: nat, j: nat)
    requires i < |t| && j < |t[i].1|
    ensures RowsBefore(t, i) + j < |Sites(t, p, cell, cartesian)|
    ensures Sites(t, p, cell, cartesian)[RowsBefore(t, i) + j]
            == Site(Place(p, cell, t[i].1[j], cartesian), t[i].0)
  {
    var n := |t|;
    var init := t[..n - 1];
    SitesCount(init, p, cell, cartesian);
    if i == n - 1 {
      assert t[..i] == init;
    } else {
      assert init[..i] == t[..i];
      SiteAt(init, p, cell, cartesian, i, j);
    }
  }

  /** The sites of a table extended by one more atom type, after some
      sites already present. */
  lemma SitesSnoc(before: seq<Site>, t: AtomTable, i: nat, p: Placement, cell: seq<seq<real>>,
                  cartesian: (seq<seq<real>>, seq<real>) -> seq<real>)
    requires i < |t|
    ensures before + Sites(t[..i + 1], p, cell, cartesian)
            == before + Sites(t[..i], p, cell, cartesian) + TypeSites(t[i].0, t[i].1, p, cell, cartesian)
  {
    assert t[..i + 1][..i] == t[..i];
  }

  /** One more row of the same atom type adds one site. */
  lemma TypeSitesSnoc(atomType: string, rows: seq<Row>, j: nat, p: Placement, cell: seq<seq<real>>,
                      cartesian: (seq<seq<real>>, seq<real>) -> seq<real>)
    requires j < |rows|
    ensures TypeSites(atomType, rows[..j + 1], p, cell, cartesian)
            == TypeSites(atomType, rows[..j], p, cell, cartesian)
               + [Site(Place(p, cell, rows[j], cartesian), atomType)]
  {
  }

  /** The inner loop `for lposmag in atoms[atom_type]: append_atom(...)`. */
  method AppendTypeSites(s: StructureData, atomType: string, rows: seq<Row>, p: Placement,
                         cartesian: (seq<seq<real>>, seq<real>) -> seq<real>)
    modifies s
    ensures s.cell == old(s.cell)
    ensures s.sites == old(s.sites) + TypeSites(atomType, rows, p, s.cell, cartesian)
  {
    var cell := s.cell;
    var j := 0;
    while j < |rows|
      invariant 0 <= j <= |rows|
      invariant s.cell == cell
      invariant s.sites == old(s.sites) + TypeSites(atomType, rows[..j], p, cell, cartesian)
    {
      s.AppendAtom(Place(p, cell, rows[j], cartesian), atomType);
      TypeSitesSnoc(atomType, rows, j, p, cell, cartesian);
      j := j + 1;
    }
    assert rows[..j] == rows;
  }

  /** The nested `for atom_type ...: for lposmag ...: append_atom(...)` loop. */
  method AppendSites(s: StructureData, t: AtomTable, p: Placement,
                     cartesian: (seq<seq<real>>, seq<real>) -> seq<real>)
    modifies s
    ensures s.cell == old(s.cell)
    ensures s.sites == old(s.sites) + Sites(t, p, s.cell, cartesian)
  {
    var cell := s.cell;
    var i := 0;
    while i < |t|
      invariant 0 <= i <= |t|
      invariant s.cell == cell
      invariant s.sites == old(s.sites) + Sites(t[..i], p, cell, cartesian)
    {
      AppendTypeSites(s, t[i].0, t[i].1, p, cartesian);
      SitesSnoc(old(s.sites), t, i, p, cell, cartesian);
      i := i + 1;
    }
    assert t[..i] == t;
  }
}
