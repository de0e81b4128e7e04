/** The UPF dispatcher of `upf_to_json.py`: it sniffs the format version
    from the first line of a pseudopotential text, hands the text to the
    version-1 or version-2 parser, and writes the originating file name
    into the parsed document at
    `pseudo_potential` / `header` / `original_upf_file`. */
module UpfToJson {
  import opened Results

  /** A JSON document as produced by the UPF parsers (a nested dictionary). */
  datatype Json =
    | JNull
    | JBool(b: bool)
    | JNum(n: real)
    | JStr(s: string)
    | JArr(items: seq<Json>)
    | JObj(fields: map<string, Json>)

  // ---------------------------------------------------------------------
  // Substring tests and the first line
  // ---------------------------------------------------------------------

  /** Reference meaning of Python's `pat in s` on strings: `pat` occurs at
      some position of `s`. */
  ghost predicate Occurs(pat: string, s: string)
  {
    exists i :: 0 <= i <= |s| && pat <= s[i..]
  }

  /** Executable substring test, scanning `s` from the left. */
  function Contains(s: string, pat: string): (b: bool)
    ensures b <==> Occurs(pat, s)
    decreases |s|
  {
    if pat <= s then
      assert s[0..] == s;
      true
    else if s == [] then
      false
    else
      var b := Contains(s[1..], pat);
      assert forall i :: 1 <= i <= |s| ==> s[i..] == s[1..][i - 1..];
      assert b ==> exists i :: 1 <= i <= |s| && pat <= s[i..];
      b
  }

  /** `s.split('\n')[0]`: everything before the first newline, or the whole
      string when it has none. */
  function FirstLine(s: string): (line: string)
    ensures line <= s
    ensures '\n' !in line
    ensures |line| < |s| ==> s[|line|] == '\n'
  {
    if s == [] || s[0] == '\n' then [] else [s[0]] + FirstLine(s[1..])
  }

  /** The three postconditions of `FirstLine` determine it: any prefix that
      has no newline and stops at a newline (or at the end) is the first line. */
  lemma {:induction false} FirstLineUnique(s: string, line: string)
    requires line <= s && '\n' !in line
    requires |line| < |s| ==> s[|line|] == '\n'
    ensures FirstLine(s) == line
  {
    if s != [] && s[0] != '\n' {
      assert line != [] && line[0] == s[0];
      FirstLineUnique(s[1..], line[1..]);
    }
  }

  /** A string whose first line is `line` and that continues with any `rest`. */
  lemma FirstLineOfJoin(line: string, rest: string)
    requires '\n' !in line
    ensures FirstLine(line + "\n" + rest) == line
  {
    FirstLineUnique(line + "\n" + rest, line);
  }

  // ---------------------------------------------------------------------
  // get_upf_version
  // ---------------------------------------------------------------------

  const V1Marker: string := "<PP_INFO>"
  const V2Marker: string := "UPF version"

  /** `get_upf_version`: 1 for a first line holding `<PP_INFO>`, otherwise 2
      for one holding `UPF version`, otherwise 0. */
  function GetUpfVersion(upf: string): (v: nat)
    ensures v <= 2
    ensures v == 1 <==> Occurs(V1Marker, FirstLine(upf))
    ensures v == 2 <==> !Occurs(V1Marker, FirstLine(upf)) && Occurs(V2Marker, FirstLine(upf))
    ensures v == 0 <==> !Occurs(V1Marker, FirstLine(upf)) && !Occurs(V2Marker, FirstLine(upf))
  {
    var line := FirstLine(upf);
    if Contains(line, V1Marker) then 1
    else if Contains(line, V2Marker) then 2
    else 0
  }

  /** Two strings that agree on their first `n + 1` characters agree on
      the first `n` and on the one at `n`. */
  lemma AgreeingPrefixes(s: string, t: string, n: nat)
    requires n < |s| && n < |t| && t[..n + 1] == s[..n + 1]
    ensures t[..n] == s[..n] && t[n] == s[n]
  {
    assert t[..n] == t[..n + 1][..n];
    assert s[..n] == s[..n + 1][..n];
    assert t[n] == t[..n + 1][n];
    assert s[n] == s[..n + 1][n];
  }

  /** Only the first line is inspected: two texts that agree up to and
      including their first newline get the same version, whatever follows. */
  lemma VersionIgnoresLaterLines(s: string, t: string)
    requires |FirstLine(s)| < |s|
    requires |FirstLine(s)| < |t| && t[..|FirstLine(s)| + 1] == s[..|FirstLine(s)| + 1]
    ensures FirstLine(t) == FirstLine(s)
    ensures GetUpfVersion(t) == GetUpfVersion(s)
  {
    var line := FirstLine(s);
    var n := |line|;
    AgreeingPrefixes(s, t, n);
    assert line == s[..n];
    assert line <= t;
    FirstLineUnique(t, line);
  }

  /** A text without a newline is its own first line. */
  lemma VersionOfSingleLine(s: string)
    requires '\n' !in s
    ensures FirstLine(s) == s
    ensures GetUpfVersion(s) == GetUpfVersion(s + "\n")
  {
    FirstLineUnique(s, s);
    FirstLineOfJoin(s, "");
    assert s + "\n" + "" == s + "\n";
  }

  /** The first-line test shadows every later marker: a first line with no
      marker yields 0 even when later lines carry both markers. */
  lemma MarkersAfterFirstLineIgnored(line: string, rest: string)
    requires '\n' !in line
    requires !Occurs(V1Marker, line) && !Occurs(V2Marker, line)
    ensures GetUpfVersion(line + "\n" + rest) == 0
  {
    FirstLineOfJoin(line, rest);
  }

  /** `<PP_INFO>` wins over `UPF version` on the same first line. */
  lemma V1MarkerTakesPrecedence(line: string, rest: string)
    requires '\n' !in line && Occurs(V1Marker, line) && Occurs(V2Marker, line)
    ensures GetUpfVersion(line + "\n" + rest) == 1
  {
    FirstLineOfJoin(line, rest);
  }

  // ---------------------------------------------------------------------
  // Nested lookup and assignment in a JSON document
  // ---------------------------------------------------------------------

  /** Why `d[k1][k2]...[kn] = v` raises: a key missing on the way down
      (`KeyError`), or a value on the way that is not a dictionary
      (`TypeError`). */
  datatype PathError = MissingKey(key: string) | NotADict

  /** `d[p0][p1]...` as a lookup, `None` when a key is missing or a value on
      the way is not a dictionary. */
  function Lookup(doc: Json, path: seq<string>): Option<Json>
    decreases |path|
  {
    if path == [] then Some(doc)
    else match doc
      case JObj(m) => if path[0] in m then Lookup(m[path[0]], path[1..]) else None
      case _ => None
  }

  /** Two key paths that part ways at some position. */
  predicate Diverge(p: seq<string>, q: seq<string>)
    decreases |p|
  {
    p != [] && q != [] && (p[0] != q[0] || Diverge(p[1..], q[1..]))
  }

  /** Python's `d[p0]...[p(n-2)][p(n-1)] = v`: every key but the last must
      exist and lead to a dictionary; the last key is created or overwritten. */
  function Assign(doc: Json, path: seq<string>, v: Json): (r: Result<Json, PathError>)
    requires path != []
    ensures r.Success? <==>
              Lookup(doc, path[..|path| - 1]).Some? && Lookup(doc, path[..|path| - 1]).value.JObj?
    ensures r.Success? ==> Lookup(r.value, path) == Some(v)
    ensures r.Success? ==> r.value.JObj? && r.value.fields.Keys == doc.fields.Keys + {path[0]}
    decreases |path|
  {
    match doc
    case JObj(m) =>
      if |path| == 1 then
        Success(JObj(m[path[0] := v]))
      else if path[0] !in m then
        Failure(MissingKey(path[0]))
      else
        var sub := Assign(m[path[0]], path[1..], v);
        assert path[1..][..|path[1..]| - 1] == path[..|path| - 1][1..];
        if sub.Failure? then Failure(sub.error)
        else Success(JObj(m[path[0] := sub.value]))
    case _ =>
      assert path[..|path| - 1] == [] || Lookup(doc, path[..|path| - 1]).None?;
      Failure(NotADict)
  }

  /** Frame: every value reached by a key path that parts ways with the
      assigned path is unchanged. */
  lemma {:induction false} AssignFrame(doc: Json, path: seq<string>, v: Json, q: seq<string>)
    requires path != [] && Assign(doc, path, v).Success?
    requires Diverge(path, q)
    ensures Lookup(Assign(doc, path, v).value, q) == Lookup(doc, q)
  {
    var m := doc.fields;
    if path[0] != q[0] {
    } else {
      AssignFrame(m[path[0]], path[1..], v, q[1..]);
    }
  }

  /** Shape: every dictionary on the assigned path keeps its keys, and the
      innermost one gains at most the assigned key. */
  lemma {:induction false} AssignKeepsKeys(doc: Json, path: seq<string>, v: Json, j: nat)
    requires path != [] && Assign(doc, path, v).Success?
    requires j < |path|
    ensures Lookup(doc, path[..j]).Some? && Lookup(doc, path[..j]).value.JObj?
    ensures Lookup(Assign(doc, path, v).value, path[..j]).Some?
    ensures Lookup(Assign(doc, path, v).value, path[..j]).value.JObj?
    ensures Lookup(Assign(doc, path, v).value, path[..j]).value.fields.Keys ==
            Lookup(doc, path[..j]).value.fields.Keys + (if j == |path| - 1 then {path[j]} else {})
  {
    var r := Assign(doc, path, v).value;
    if j == 0 {
      assert path[..0] == [];
      if |path| > 1 {
        assert path[0] in doc.fields;
      }
    } else {
      var m := doc.fields;
      AssignKeepsKeys(m[path[0]], path[1..], v, j - 1);
      assert path[..j] == [path[0]] + path[1..][..j - 1];
      assert path[..j][1..] == path[1..][..j - 1];
    }
  }

  // ---------------------------------------------------------------------
  // upf_to_json
  // ---------------------------------------------------------------------

  /** Where the dispatcher writes the file name. */
  const OriginalFilePath: seq<string> := ["pseudo_potential", "header", "original_upf_file"]

  /** The output of the one parser the version selects. */
  function Selected(upf: string, parseV1: string -> Json, parseV2: string -> Json): Json
  {
    if GetUpfVersion(upf) == 1 then parseV1(upf) else parseV2(upf)
  }

  /** `upf_to_json`: `None` for an unrecognised text; otherwise the output of
      the parser the version selects, with the file name written into its
      header. The parsers are parameters: `parseV1` and `parseV2` stand for
      `parse_upf1_from_string` and `parse_upf2_from_string`. */
  function UpfToJson(upf: string, fname: string, parseV1: string -> Json, parseV2: string -> Json)
    : (r: Result<Option<Json>, PathError>)
    ensures r == Success(None) <==> GetUpfVersion(upf) == 0
    ensures r.Success? && r.value.Some? ==>
              Lookup(r.value.value, OriginalFilePath) == Some(JStr(fname))
  {
    var version := GetUpfVersion(upf);
    if version == 0 then Success(None)
    else
      var pp := Selected(upf, parseV1, parseV2);
      match Assign(pp, OriginalFilePath, JStr(fname))
      case Success(d) => Success(Some(d))
      case Failure(e) => Failure(e)
  }

  /** Version 1 reads only the v1 parser, version 2 only the v2 parser, and
      version 0 reads neither: replacing the unused parser never changes the
      outcome. */
  lemma OnlySelectedParserUsed(upf: string, fname: string,
                               parseV1: string -> Json, parseV2: string -> Json,
                               otherV1: string -> Json, otherV2: string -> Json)
    ensures GetUpfVersion(upf) == 0 ==>
              UpfToJson(upf, fname, parseV1, parseV2) == UpfToJson(upf, fname, otherV1, otherV2)
    ensures GetUpfVersion(upf) == 1 ==>
              UpfToJson(upf, fname, parseV1, parseV2) == UpfToJson(upf, fname, parseV1, otherV2)
    ensures GetUpfVersion(upf) == 2 ==>
              UpfToJson(upf, fname, parseV1, parseV2) == UpfToJson(upf, fname, otherV1, parseV2)
  {
  }

  /** The annotation succeeds exactly when the parser's output has a
      `pseudo_potential` dictionary holding a `header` dictionary; it then
      overwrites `original_upf_file` with the file name and leaves every
      value reached by another key path untouched, and no dictionary on
      the path loses or gains a key other than `original_upf_file`. */
  lemma AnnotationIsLocal(upf: string, fname: string,
                          parseV1: string -> Json, parseV2: string -> Json, q: seq<string>)
    requires GetUpfVersion(upf) != 0
    ensures var pp := Selected(upf, parseV1, parseV2);
            var header := Lookup(pp, ["pseudo_potential", "header"]);
            UpfToJson(upf, fname, parseV1, parseV2).Success? <==> header.Some? && header.value.JObj?
    ensures var pp := Selected(upf, parseV1, parseV2);
            var r := UpfToJson(upf, fname, parseV1, parseV2);
            r.Success? && Diverge(OriginalFilePath, q) ==>
              r.value.Some? && Lookup(r.value.value, q) == Lookup(pp, q)
    ensures var pp := Selected(upf, parseV1, parseV2);
            var r := UpfToJson(upf, fname, parseV1, parseV2);
            r.Success? ==>
              && r.value.Some?
              && r.value.value.fields.Keys == pp.fields.Keys
              && Lookup(r.value.value, ["pseudo_potential"]).value.fields.Keys
                 == Lookup(pp, ["pseudo_potential"]).value.fields.Keys
              && Lookup(r.value.value, ["pseudo_potential", "header"]).value.fields.Keys
                 == Lookup(pp, ["pseudo_potential", "header"]).value.fields.Keys + {"original_upf_file"}
  {
    var pp := Selected(upf, parseV1, parseV2);
    var path := OriginalFilePath;
    assert path[..2] == ["pseudo_potential", "header"];
    assert path[..1] == ["pseudo_potential"];
    assert path[..0] == [];
    var a := Assign(pp, path, JStr(fname));
    if a.Success? {
      if Diverge(path, q) {
        AssignFrame(pp, path, JStr(fname), q);
      }
      AssignKeepsKeys(pp, path, JStr(fname), 0);
      AssignKeepsKeys(pp, path, JStr(fname), 1);
      AssignKeepsKeys(pp, path, JStr(fname), 2);
    }
  }
}
