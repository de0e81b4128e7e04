# aiida-sirius: UPF dispatch, sirius JSON read-back and pseudopotential tables in Dafny

This project models the self-contained logic of the aiida-sirius workflow
plugin and proves properties of it:

- **UPF dispatcher** (`UpfToJson`, `upf_to_json.dfy`). `GetUpfVersion` sniffs
  the first line of a pseudopotential text (`<PP_INFO>` gives 1, otherwise
  `UPF version` gives 2, otherwise 0). `UpfToJson` returns no result for
  version 0. Otherwise it hands the text to the version-1 or version-2
  parser and writes the file name at
  `pseudo_potential` / `header` / `original_upf_file`. The JSON document is
  the `Json` datatype. The nested assignment is `Assign`, with its frame and
  shape lemmas. The two parsers are function parameters.
- **sirius JSON read-back** (`SiriusInput`, `Structure`, `FromSirius`,
  `FromSiriusExample`). It reads the magnetisation table (`GetMag`,
  `ReadMagnetization`), the lattice scale and cell, the k-point source
  (`vk` or an `ngridk` mesh) and the atoms of the structure. The
  `atom_coordinate_units` check leads to a `ValueError`, to positions taken
  unchanged, to positions rescaled from bohr, or to the fractional branch.
  The structure is a class, `StructureData`, that grows by `AppendAtom`
  inside the nested loop `AppendSites`. Both readers share that loop. They
  differ in two ways. The helper rescales `a.u.`/`au` positions and the
  example does not. The helper scales its cell by its own literal
  `bohr_to_ang`, while the example uses the constant it imports from
  `aiida.common.constants`, whose value is the parameter `bohrToAng`.
- **Pseudopotential table** (`Pseudos`, `pseudos.dfy`). The glob step is a
  suffix filter over a list of names. The first loop builds the
  element→file table and fails with `MultipleObjects` on a shared element,
  in any iteration order. The second loop builds the kind-name→file table
  and fails with `NotExistent` for the first kind whose name is missing.

A Python dictionary of atom types is an association list
`seq<(string, seq<Row>)>`, which keeps the key order the loops depend on.
Exceptions are `Failure` values of `Results.Result`. `None` is
`Results.Option.None`.

The code tests `<PP_INFO>` before `UPF version`, so a first line holding
both markers is version 1 (`V1MarkerTakesPrecedence`).

## Model

| member | source | states |
|---|---|---|
| UpfToJson.Contains | aiida_sirius/upf_to_json/upf_to_json.py:9-12 | the executable `in` test is true exactly when the pattern occurs at some position of the string |
| UpfToJson.FirstLine | aiida_sirius/upf_to_json/upf_to_json.py:8 | `split('\n')[0]` is a prefix without a newline that stops at the first newline or at the end |
| UpfToJson.FirstLineUnique | aiida_sirius/upf_to_json/upf_to_json.py:8 | those three properties determine the first line uniquely |
| UpfToJson.FirstLineOfJoin | aiida_sirius/upf_to_json/upf_to_json.py:8 | the first line of `line + "\n" + rest` is `line`, whatever `rest` is |
| UpfToJson.GetUpfVersion | aiida_sirius/upf_to_json/upf_to_json.py:7-13 | the version is in {0,1,2}; 1 iff the first line holds `<PP_INFO>`; 2 iff it holds `UPF version` and not `<PP_INFO>`; 0 iff it holds neither |
| UpfToJson.VersionIgnoresLaterLines | aiida_sirius/upf_to_json/upf_to_json.py:8 | two texts that agree up to and including the first newline have the same first line and the same version |
| UpfToJson.VersionOfSingleLine | aiida_sirius/upf_to_json/upf_to_json.py:8 | a text without a newline is its own first line, and adding a newline does not change its version |
| UpfToJson.MarkersAfterFirstLineIgnored | aiida_sirius/upf_to_json/upf_to_json.py:8-13 | a first line without either marker gives version 0 even if later lines hold both markers |
| UpfToJson.V1MarkerTakesPrecedence | aiida_sirius/upf_to_json/upf_to_json.py:9-12 | a first line holding both markers gives version 1 |
| UpfToJson.Assign | aiida_sirius/upf_to_json/upf_to_json.py:24 | the nested assignment succeeds iff every key but the last leads to a dictionary; if it succeeds, the path then reads back the assigned value and the top level gains at most the first key |
| UpfToJson.AssignFrame | aiida_sirius/upf_to_json/upf_to_json.py:24 | every value reached by a key path that parts ways with the assigned path is unchanged |
| UpfToJson.AssignKeepsKeys | aiida_sirius/upf_to_json/upf_to_json.py:24 | every dictionary on the path keeps its keys; the innermost one gains the assigned key and nothing else |
| UpfToJson.UpfToJson | aiida_sirius/upf_to_json/upf_to_json.py:15-25 | no result exactly when the version is 0; on success the header's `original_upf_file` is the file name |
| UpfToJson.OnlySelectedParserUsed | aiida_sirius/upf_to_json/upf_to_json.py:16-22 | version 0 uses no parser; version 1 uses only the v1 parser; version 2 uses only the v2 parser (replacing an unused parser never changes the outcome) |
| UpfToJson.AnnotationIsLocal | aiida_sirius/upf_to_json/upf_to_json.py:24-25 | the annotation succeeds iff the parsed output has a `pseudo_potential.header` dictionary; other sections and header keys are returned unchanged; the top-level and section key sets are kept, and the header gains only `original_upf_file` |
| Structure.StructureData.constructor | aiida_sirius/helpers/from_sirius.py:54 | a new structure has the given cell and no sites |
| Structure.StructureData.AppendAtom | aiida_sirius/helpers/from_sirius.py:62-64 | `append_atom` adds one site at the end and changes nothing else |
| Structure.AppendTypeSites | aiida_sirius/helpers/from_sirius.py:59-64 | the inner loop appends the sites of one atom type's rows, in row order |
| Structure.AppendSites | aiida_sirius/helpers/from_sirius.py:58-73 | the nested loops append exactly `Sites(atoms, ...)`, type by type and row by row, and leave the cell alone |
| Structure.SitesCount | aiida_sirius/helpers/from_sirius.py:58-59 | the loops append one site per row, so the number of sites is the total number of rows |
| Structure.SiteAt | aiida_sirius/helpers/from_sirius.py:58-64 | row j of the i-th atom type becomes site number (rows of earlier types + j), with that row's position and the type as symbol |
| FromSirius.ToList | aiida_sirius/helpers/from_sirius.py:8-9 | `to_list` keeps the number of rows and every row's contents and order |
| FromSirius.GetMag | aiida_sirius/helpers/from_sirius.py:21-29 | `row[3:]` when the row has more than three entries, else `[0, 0, 0]`; never empty |
| FromSirius.RowSplits | aiida_sirius/helpers/from_sirius.py:25-29 | for a row made of a position and a magnetisation, `row[:3]` gives back the position and `get_mag` the magnetisation, or `[0,0,0]` when there is none |
| FromSirius.MagnetizationList | aiida_sirius/helpers/from_sirius.py:32 | the comprehension has one entry per row, entry j being `get_mag` of row j |
| FromSirius.ReadMagnetization | aiida_sirius/helpers/from_sirius.py:12-34 | the same atom types in the same order; per type, as many entries as rows, entry j being `get_mag` of row j |
| FromSirius.MagnetizationKeysDistinct | aiida_sirius/helpers/from_sirius.py:30-34 | the output has the same key set as the input and is again a dictionary (each key once) |
| FromSirius.LatticeScale | aiida_sirius/helpers/from_sirius.py:47-50 | `lattice_vectors_scale`, 1 when the key is absent |
| FromSirius.CellAngstrom | aiida_sirius/helpers/from_sirius.py:52 | one row per lattice vector, each entry multiplied by the scale times the reader's conversion factor (the helper passes its literal `0.529177210903`) |
| FromSirius.KpointsFrom | aiida_sirius/helpers/from_sirius.py:97-102 | the explicit `vk` list when present, otherwise the `ngridk` mesh; a `KeyError` for `ngridk` exactly when neither is present |
| FromSirius.HelperPlacement | aiida_sirius/helpers/from_sirius.py:55-66 | `ValueError` exactly for a units value outside `A`, `a.u.`, `au`; `A` leaves positions unchanged, `a.u.`/`au` rescale them, and a missing key selects fractional coordinates |
| FromSirius.SiriusToAiidaStructure | aiida_sirius/helpers/from_sirius.py:37-74 | fails exactly on invalid units; otherwise a fresh structure with the scaled cell and the sites of `AppendSites` |
| FromSirius.AngstromPositionsVerbatim | aiida_sirius/helpers/from_sirius.py:58-64 | with units `A`, there are as many sites as rows, and each site is the row's first three entries unchanged, with the atom type as symbol |
| FromSirius.BohrPositionsRescaled | aiida_sirius/helpers/from_sirius.py:61-62 | with units `a.u.` or `au`, each site is the row's first three entries times `bohr_to_ang` |
| FromSirius.FractionalPositionsMapped | aiida_sirius/helpers/from_sirius.py:67-73 | without units, each site is the cell's image of the row's first three entries |
| FromSirius.FromSiriusJson | aiida_sirius/helpers/from_sirius.py:77-106 | fails iff the k-points or the units fail, with the k-point `KeyError` taking precedence; otherwise returns the structure, the magnetisation table and the k-points described above |
| FromSiriusExample.ExamplePlacement | examples/from_sirius.py:63-72 | `ValueError` exactly for units outside the three accepted tags; all three tags leave positions unchanged; no key selects fractional coordinates |
| FromSiriusExample.PlacementsDifferOnlyOnBohr | examples/from_sirius.py:64-70 | the example and the helper reject the same units; they differ exactly on `a.u.` and `au`; the example never rescales |
| FromSiriusExample.ExamplePositionsVerbatim | examples/from_sirius.py:65-70 | for every accepted tag, there is one site per row in type-then-row order, each site being the row's first three entries unchanged with the atom type as symbol |
| FromSiriusExample.FromSiriusJson | examples/from_sirius.py:29-81 | the example's reader fails iff the k-points or the units fail, with the k-point `KeyError` first; otherwise the cell is scaled by the imported `bohr_to_ang`, the sites follow the example's placement, and the magnetisation table and k-points are as in the helper |
| Pseudos.PseudoFiles | aiida_sirius/helpers/pseudos.py:21-23 | a name is a candidate iff it is listed, does not start with a dot (glob's rule), and ends in `UPF`, `upf` or `Upf` |
| Pseudos.ElementsCount | aiida_sirius/helpers/pseudos.py:24-32 | without a shared element there are as many elements as candidate files |
| Pseudos.EnteredTable | aiida_sirius/helpers/pseudos.py:24-32 | a finished element table has one key per file, and sends each element to the one file carrying it |
| Pseudos.ElementTable | aiida_sirius/helpers/pseudos.py:24-32 | `MultipleObjectsError` iff two candidate files share an element, in any iteration order; the error names such an element and the path; otherwise the table holds each file under its element |
| Pseudos.KindTable | aiida_sirius/helpers/pseudos.py:34-41 | `NotExistent` iff some kind's name is not a key; it reports the symbol of the first such kind; otherwise the keys are exactly the kind names, each mapped to the pseudo stored under that name |
| Pseudos.GetPseudosFromStructureAndPath | aiida_sirius/helpers/pseudos.py:7-43 | the two errors under their exact conditions; on success the keys are the kind names and each maps to a candidate file whose element is that name |

## Left out

- The UPF version-1 and version-2 grammars (`parse_upf1_from_string`, `parse_upf2_from_string`): their source is not part of this model. They are the parameters `parseV1` and `parseV2` and are taken to be total: an exception raised inside a parser is not modelled.
- UpfToJson.UpfToJson: Python mutates the parser's dictionary in place; the model returns an updated value. Aliasing of that dictionary is not captured, which is harmless because the parser's output is freshly built.
- JSON objects are Dafny maps, so the key order of the parsed document is not modelled.
- Floating point: numbers are exact reals. IEEE rounding in `cell * scale * bohr_to_ang` and in the `a.u.` rescale is not modelled.
- `np.dot(cell_angstrom.T, lpos)` is the parameter `cartesian`. numpy's shape errors are not modelled: a ragged `lattice_vectors`, or a row shorter than three entries in the fractional branch.
- Missing required keys (`unit_cell`, `atoms`, `lattice_vectors`, `parameters`) and values of the wrong JSON type: the input record always has these fields, so the corresponding `KeyError`/`TypeError` is not modelled.
- `StructureData` holds only a cell and a list of sites. Its kinds bookkeeping, its checks of symbols, its check that the cell is 3×3 and `append_atom`'s check that a position has three entries are not modelled. So a row shorter than three entries under units `A`, `a.u.` or `au` gives a shorter site in the model, where the library raises. `KpointsData` is the `Kpoints` value it is set to; its own validation is not modelled.
- FromSirius.GetMag: the `[0, 0, 0]` default is an integer numpy array in the source; the model returns reals.
- examples/from_sirius.py `to_list`, `read_magnetization`, the cell scaling and the k-point branch (lines 8-26, 46-61) are the same code as in the helper, except that the cell scaling uses the `bohr_to_ang` imported at line 3. The value of that constant is not part of this model, so the example's reader takes it as the parameter `bohrToAng`. They are modelled once, by `FromSirius.ToList`, `FromSirius.ReadMagnetization`, `FromSirius.CellAngstrom` and `FromSirius.KpointsFrom`, which `FromSiriusExample.FromSiriusJson` calls.
- Glob and file loading in `pseudos.py`: the directory listing is the input `names`. Path joining, directories, case-insensitive file systems and glob's ordering are not modelled. Loading a `UpfData` is the parameter `elementOf`, and a pseudo is named by its file. Error messages are modelled by their element or symbol and path, not by their text.
- The rest of the repository is not part of this model: calculation classes, output parsers, option schemas, the k-point helper and the submission scripts. It is framework glue, file I/O, and calls into libraries that cannot be seen.
