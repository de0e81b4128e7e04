/** `helpers/pseudos.py`: pick, for every kind of a structure, the UPF file
    of a directory that carries that kind's element. Reading a file into a
    `UpfData` node is the parameter `elementOf`, which gives the element a
    file declares; the pseudo chosen for a kind is named by its file. */
module Pseudos {
  import opened Results

  /** A kind of a structure: its name (the lookup key) and its chemical
      symbol (used in the error message). */
  datatype Kind = Kind(name: string, symbol: string)

  datatype PseudoError =
    | MultipleObjects(element: string, path: string)   // MultipleObjectsError
    | NotExistent(symbol: string, path: string)        // NotExistent

  predicate EndsWith(name: string, suffix: string)
  {
    |suffix| <= |name| && name[|name| - |suffix|..] == suffix
  }

  /** The glob pattern `*SUFFIX`: any name, not starting with a dot, that
      ends in `SUFFIX` (case-sensitive). */
  predicate GlobMatches(name: string, suffix: string)
  {
    |name| > 0 && name[0] != '.' && EndsWith(name, suffix)
  }

  /** The union of the matches of `*UPF`, `*upf` and `*Upf` among the names
      in the directory. */
  function PseudoFiles(names: seq<string>): (files: set<string>)
    ensures forall n :: n in files <==>
              n in names && |n| > 0 && n[0] != '.' &&
              (EndsWith(n, "UPF") || EndsWith(n, "upf") || EndsWith(n, "Upf"))
  {
    (set n | n in names && GlobMatches(n, "UPF"))
    + (set n | n in names && GlobMatches(n, "upf"))
    + (set n | n in names && GlobMatches(n, "Upf"))
  }

  /** Two different candidate files declare the same element. */
  ghost predicate SharedElement(files: set<string>, elementOf: string -> string)
  {
    exists f, g :: f in files && g in files && f != g && elementOf(f) == elementOf(g)
  }

  function Elements(files: set<string>, elementOf: string -> string): set<string>
  {
    set f | f in files :: elementOf(f)
  }

  /** `pseudos` holds exactly the files of `done`, each under its own
      element, and no two of them share an element. */
  ghost predicate Entered(pseudos: map<string, string>, done: set<string>, elementOf: string -> string)
  {
    && pseudos.Keys == Elements(done, elementOf)
    && (forall f :: f in done ==> pseudos[elementOf(f)] == f)
    && !SharedElement(done, elementOf)
  }

  /** Entering one more file whose element is new keeps `Entered`. */
  lemma EnterFile(pseudos: map<string, string>, done: set<string>, f: string, elementOf: string -> string)
    requires Entered(pseudos, done, elementOf) && f !in done
    requires elementOf(f) !in pseudos
    ensures Entered(pseudos[elementOf(f) := f], done + {f}, elementOf)
  {
    assert Elements(done + {f}, elementOf) == Elements(done, elementOf) + {elementOf(f)};
    forall g, h | g in done + {f} && h in done + {f} && g != h
      ensures elementOf(g) != elementOf(h)
    {
      if g == f {
        assert elementOf(h) in Elements(done, elementOf);
      } else if h == f {
        assert elementOf(g) in Elements(done, elementOf);
      }
    }
  }

  /** A file whose element is already entered shares it with an entered file. */
  lemma DuplicateFound(pseudos: map<string, string>, done: set<string>, f: string, elementOf: string -> string)
    requires Entered(pseudos, done, elementOf) && f !in done
    requires elementOf(f) in pseudos
    ensures exists g :: g in done && g != f && elementOf(g) == elementOf(f)
  {
    var g :| g in done && elementOf(g) == elementOf(f);
  }

  /** Without a shared element, there are as many elements as files. */
  lemma {:induction false} ElementsCount(files: set<string>, elementOf: string -> string)
    requires !SharedElement(files, elementOf)
    ensures |Elements(files, elementOf)| == |files|
    decreases |files|
  {
    if files != {} {
      var f :| f in files;
      var rest := files - {f};
      assert !SharedElement(rest, elementOf) by {
        forall g, h | g in rest && h in rest && g != h
          ensures elementOf(g) != elementOf(h)
        {
          assert g in files && h in files;
        }
      }
      ElementsCount(rest, elementOf);
      assert Elements(files, elementOf) == Elements(rest, elementOf) + {elementOf(f)};
      assert elementOf(f) !in Elements(rest, elementOf);
    }
  }

  /** What `Entered` promises of the finished table: one key per file,
      each element sent to the one file carrying it. */
  lemma EnteredTable(pseudos: map<string, string>, files: set<string>, elementOf: string -> string)
    requires Entered(pseudos, files, elementOf)
    ensures pseudos.Keys == Elements(files, elementOf)
    ensures forall f :: f in files ==> pseudos[elementOf(f)] == f
    ensures forall e :: e in pseudos ==> pseudos[e] in files && elementOf(pseudos[e]) == e
    ensures |pseudos| == |files|
  {
    ElementsCount(files, elementOf);
    assert |pseudos| == |pseudos.Keys|;
    forall e | e in pseudos
      ensures pseudos[e] in files && elementOf(pseudos[e]) == e
    {
      var f :| f in files && elementOf(f) == e;
    }
  }

  /** The first loop: each candidate file is entered under its element, in
      whatever order the set is iterated; a second file for an element
      raises `MultipleObjectsError`. */
  method ElementTable(files: set<string>, elementOf: string -> string, path: string)
    returns (r: Result<map<string, string>, PseudoError>)
    ensures r.Failure? <==> SharedElement(files, elementOf)
    ensures r.Failure? ==>
              && r.error.MultipleObjects? && r.error.path == path
              && exists f, g :: f in files && g in files && f != g
                                && elementOf(f) == r.error.element && elementOf(g) == r.error.element
    ensures r.Success? ==> Entered(r.value, files, elementOf)
  {
    var pseudos: map<string, string> := map[];
    var remaining := files;
    ghost var done: set<string> := {};
    while remaining != {}
      invariant done + remaining == files && done !! remaining
      invariant Entered(pseudos, done, elementOf)
      decreases remaining
    {
      var ppFile :| ppFile in remaining;
      var element := elementOf(ppFile);
      if element in pseudos {
        DuplicateFound(pseudos, done, ppFile, elementOf);
        return Failure(MultipleObjects(element, path));
      }
      EnterFile(pseudos, done, ppFile, elementOf);
      pseudos := pseudos[element := ppFile];
      remaining := remaining - {ppFile};
      done := done + {ppFile};
    }
    assert done == files;
    r := Success(pseudos);
  }

  /** The second loop: every kind, in order, is looked up by its name; the
      first kind with no file raises `NotExistent` naming its symbol. */
  method KindTable(kinds: seq<Kind>, pseudos: map<string, string>, path: string)
    returns (r: Result<map<string, string>, PseudoError>)
    ensures r.Failure? <==> exists k :: k in kinds && k.name !in pseudos
    ensures r.Failure? ==>
              exists i :: 0 <= i < |kinds| && kinds[i].name !in pseudos
                          && (forall j :: 0 <= j < i ==> kinds[j].name in pseudos)
                          && r.error == NotExistent(kinds[i].symbol, path)
    ensures r.Success? ==> r.value.Keys == set k | k in kinds :: k.name
    ensures r.Success? ==> forall k :: k in kinds ==> r.value[k.name] == pseudos[k.name]
  {
    var pseudoList: map<string, string> := map[];
    var i := 0;
    while i < |kinds|
      invariant 0 <= i <= |kinds|
      invariant forall j :: 0 <= j < i ==> kinds[j].name in pseudos
      invariant pseudoList.Keys == set k | k in kinds[..i] :: k.name
      invariant forall k :: k in kinds[..i] ==> pseudoList[k.name] == pseudos[k.name]
    {
      var kind := kinds[i];
      if kind.name !in pseudos {
        return Failure(NotExistent(kind.symbol, path));
      }
      pseudoList := pseudoList[kind.name := pseudos[kind.name]];
      assert kinds[..i + 1] == kinds[..i] + [kind];
      i := i + 1;
    }
    assert kinds[..i] == kinds;
    r := Success(pseudoList);
  }

  /** `get_pseudos_from_structure_and_path`. */
  method GetPseudosFromStructureAndPath(names: seq<string>, elementOf: string -> string,
                                        kinds: seq<Kind>, path: string)
    returns (r: Result<map<string, string>, PseudoError>)
    ensures var files := PseudoFiles(names);
            r.Failure? && r.error.MultipleObjects? <==> SharedElement(files, elementOf)
    ensures var files := PseudoFiles(names);
            r.Failure? && r.error.NotExistent? <==>
              !SharedElement(files, elementOf)
              && exists k :: k in kinds && k.name !in Elements(files, elementOf)
    ensures var files := PseudoFiles(names);
            r.Failure? && r.error.MultipleObjects? ==>
              && r.error.path == path
              && exists f, g :: f in files && g in files && f != g
                                && elementOf(f) == r.error.element && elementOf(g) == r.error.element
    ensures var files := PseudoFiles(names);
            r.Failure? && r.error.NotExistent? ==>
              exists i :: 0 <= i < |kinds| && kinds[i].name !in Elements(files, elementOf)
                          && (forall j :: 0 <= j < i ==> kinds[j].name in Elements(files, elementOf))
                          && r.error == NotExistent(kinds[i].symbol, path)
    ensures r.Success? ==> r.value.Keys == set k | k in kinds :: k.name
    ensures r.Success? ==> forall k :: k in kinds ==>
              && r.value[k.name] in PseudoFiles(names)
              && elementOf(r.value[k.name]) == k.name
  {
    var files := PseudoFiles(names);
    var pseudos := ElementTable(files, elementOf, path);
    if pseudos.Failure? {
      return Failure(pseudos.error);
    }
    EnteredTable(pseudos.value, files, elementOf);
    r := KindTable(kinds, pseudos.value, path);
  }
}
