/**
 * module_04/scraper_utils.py: `NB_Markdown_Scraper` walks directory trees for
 * notebooks, numbers their markdown cells, and stores each notebook's markdown,
 * joined in `ix` order, under a key derived from the notebook's path.
 *
 * The directory walk (`os.walk`) and the notebook reader (`nbformat.read`) are
 * parameters: the walk as the sequence of entries it yields, the reader as a
 * function from a path to the notebook's cells, or `None` when reading raises.
 */
module NotebookScraper {
  import opened Wrappers
  import opened Text

  /** One `(dirpath, dirnames, filenames)` triple yielded by the walk. */
  datatype WalkEntry = WalkEntry(dirpath: string, dirnames: seq<string>, filenames: seq<string>)

  /**
   * A notebook cell: its `cell_type` and `source`, and the `ix` and `title` keys
   * that `get_cell_contents` adds (absent in a cell as read).
   */
  datatype Cell = Cell(cellType: string, source: string, ix: Option<string>, title: Option<string>)

  /** What makes `scrape_markdowns` raise. */
  datatype ScrapeError =
    | InputPathsNotIterable        // `input_paths` was left at `None`
    | ReadFailed(notebook: string) // the notebook could not be read

  // ---------------------------------------------------------------- nbpathwalk

  /** Directories the walk skips: checkpoint folders and solution folders. */
  predicate SkippedDir(dirpath: string) {
    Contains(dirpath, ".ipynb_checkpoints") || Contains(dirpath, "solutions")
  }

  /** File names the walk keeps. */
  predicate IsNotebookName(f: string) {
    EndsWith(f, ".ipynb") && !StartsWith(f, "dontcommit")
  }

  /** `os.path.join(a, b)` on POSIX paths. */
  function PathJoin(a: string, b: string): string {
    if StartsWith(b, "/") then b
    else if a == [] || EndsWith(a, "/") then a + b
    else a + "/" + b
  }

  /** `[i for i in files if i.endswith('.ipynb') and not i.startswith('dontcommit')]` */
  function NotebookNames(files: seq<string>): (r: seq<string>)
    ensures forall f :: f in r <==> f in files && IsNotebookName(f)
  {
    if files == [] then []
    else
      var last := files[|files| - 1];
      NotebookNames(files[..|files| - 1]) + (if IsNotebookName(last) then [last] else [])
  }

  /**
   * The comprehension keeps the listing order and every repeat: filtering a
   * concatenation filters each part in turn, and a single name is kept exactly
   * when it is a notebook name.
   */
  lemma {:induction false} NotebookNamesAppend(a: seq<string>, b: seq<string>)
    ensures NotebookNames(a + b) == NotebookNames(a) + NotebookNames(b)
    decreases |b|
  {
    if b == [] {
      assert a + b == a;
    } else {
      var init := b[..|b| - 1];
      NotebookNamesAppend(a, init);
      assert (a + b)[..|a + b| - 1] == a + init;
    }
  }

  lemma NotebookNamesSingle(f: string)
    ensures NotebookNames([f]) == if IsNotebookName(f) then [f] else []
  {
  }

  /** `os.path.join(dir, f)` for each name, in order. */
  function JoinEach(dir: string, names: seq<string>): seq<string> {
    if names == [] then []
    else JoinEach(dir, names[..|names| - 1]) + [PathJoin(dir, names[|names| - 1])]
  }

  lemma {:induction false} JoinEachMembers(dir: string, names: seq<string>, p: string)
    ensures p in JoinEach(dir, names) <==> exists f :: f in names && p == PathJoin(dir, f)
  {
    if names != [] {
      var init := names[..|names| - 1];
      JoinEachMembers(dir, init, p);
      assert names == init + [names[|names| - 1]];
    }
  }

  /** The paths one walk entry contributes. */
  function EntryNotebooks(e: WalkEntry): seq<string> {
    if SkippedDir(e.dirpath) then [] else JoinEach(e.dirpath, NotebookNames(e.filenames))
  }

  /** The paths of a whole walk, in walk order and then file order. */
  function NotebookFiles(walk: seq<WalkEntry>): seq<string> {
    if walk == [] then []
    else NotebookFiles(walk[..|walk| - 1]) + EntryNotebooks(walk[|walk| - 1])
  }

  /** Entry `k` of the walk, in a directory that is not skipped, lists the notebook name `f`, which joins to `p`. */
  ghost predicate Yields(walk: seq<WalkEntry>, k: int, f: string, p: string) {
    0 <= k < |walk| && !SkippedDir(walk[k].dirpath) && f in walk[k].filenames && IsNotebookName(f)
    && p == PathJoin(walk[k].dirpath, f)
  }

  /** Every path found is yielded by some entry of the walk. */
  lemma {:induction false} NotebookFilesSound(walk: seq<WalkEntry>, p: string)
    requires p in NotebookFiles(walk)
    ensures exists k, f :: Yields(walk, k, f, p)
  {
    var n := |walk| - 1;
    var init, e := walk[..n], walk[n];
    assert NotebookFiles(walk) == NotebookFiles(init) + EntryNotebooks(e);
    if p in NotebookFiles(init) {
      NotebookFilesSound(init, p);
      var k, f :| Yields(init, k, f, p);
      assert init[k] == walk[k];
      assert Yields(walk, k, f, p);
    } else {
      var names := NotebookNames(e.filenames);
      JoinEachMembers(e.dirpath, names, p);
      var f :| f in names && p == PathJoin(e.dirpath, f);
      assert Yields(walk, n, f, p);
    }
  }

  /** Every path an entry of the walk yields is found. */
  lemma {:induction false} NotebookFilesComplete(walk: seq<WalkEntry>, k: int, f: string, p: string)
    requires Yields(walk, k, f, p)
    ensures p in NotebookFiles(walk)
  {
    var n := |walk| - 1;
    var init, e := walk[..n], walk[n];
    assert NotebookFiles(walk) == NotebookFiles(init) + EntryNotebooks(e);
    if k < n {
      assert init[k] == walk[k];
      NotebookFilesComplete(init, k, f, p);
    } else {
      var names := NotebookNames(e.filenames);
      assert f in names;
      JoinEachMembers(e.dirpath, names, p);
    }
  }

  /**
   * A path is found exactly when some entry whose directory is not skipped lists a
   * notebook name that joins to it.
   */
  lemma NotebookFilesMembers(walk: seq<WalkEntry>, p: string)
    ensures p in NotebookFiles(walk) <==> exists k, f :: Yields(walk, k, f, p)
  {
    if p in NotebookFiles(walk) {
      NotebookFilesSound(walk, p);
    }
    if exists k, f :: Yields(walk, k, f, p) {
      var k, f :| Yields(walk, k, f, p);
      NotebookFilesComplete(walk, k, f, p);
    }
  }

  // ---------------------------------------------------------------- get_cell_contents

  /** `[i for i in nb.cells if i['cell_type'] in cell_typ]` */
  function KeepTypes(cells: seq<Cell>, types: seq<string>): (r: seq<Cell>)
    ensures forall c :: c in r <==> c in cells && c.cellType in types
  {
    if cells == [] then []
    else
      var last := cells[|cells| - 1];
      KeepTypes(cells[..|cells| - 1], types) + (if last.cellType in types then [last] else [])
  }

  /**
   * The comprehension keeps the notebook's cell order and every repeat: filtering
   * a concatenation filters each part in turn, and a single cell is kept exactly
   * when its type is listed.
   */
  lemma {:induction false} KeepTypesAppend(a: seq<Cell>, b: seq<Cell>, types: seq<string>)
    ensures KeepTypes(a + b, types) == KeepTypes(a, types) + KeepTypes(b, types)
    decreases |b|
  {
    if b == [] {
      assert a + b == a;
    } else {
      var init := b[..|b| - 1];
      KeepTypesAppend(a, init, types);
      assert (a + b)[..|a + b| - 1] == a + init;
    }
  }

  lemma KeepTypesSingle(c: Cell, types: seq<string>)
    ensures KeepTypes([c], types) == if c.cellType in types then [c] else []
  {
  }

  /** `c.update({"ix": str(ix)}); c.update({"title": title})` */
  function Tagged(c: Cell, ix: nat, title: string): Cell {
    c.(ix := Some(NatToString(ix)), title := Some(title))
  }

  /** The kept cells after the numbering loop, counting from `start`. */
  function Numbered(cells: seq<Cell>, start: nat, title: string): seq<Cell> {
    seq(|cells|, k requires 0 <= k < |cells| => Tagged(cells[k], start + k, title))
  }

  /**
   * What `get_cell_contents` returns: the earlier cells unchanged, then the kept
   * cells, in order, numbered on from the earlier ones and titled with the notebook.
   * If the earlier cells are numbered 0, 1, ... then so is the whole result.
   */
  lemma CellContentsNumbering(prior: seq<Cell>, kept: seq<Cell>, nbFn: string)
    ensures var r := prior + Numbered(kept, |prior|, nbFn);
      |r| == |prior| + |kept| && r[..|prior|] == prior
      && (forall k :: 0 <= k < |kept| ==>
            r[|prior| + k].ix == Some(NatToString(|prior| + k)) && r[|prior| + k].title == Some(nbFn)
            && r[|prior| + k].cellType == kept[k].cellType && r[|prior| + k].source == kept[k].source)
      && ((forall j :: 0 <= j < |prior| ==> prior[j].ix == Some(NatToString(j)))
            ==> forall j :: 0 <= j < |r| ==> r[j].ix == Some(NatToString(j)))
  {
  }

  /** Numbering gives every cell of a notebook its own `ix`. */
  lemma NumberedIxDistinct(cells: seq<Cell>, start: nat, title: string)
    ensures forall i, j :: 0 <= i < j < |cells| ==>
      Numbered(cells, start, title)[i].ix != Numbered(cells, start, title)[j].ix
  {
    forall i, j | 0 <= i < j < |cells|
      ensures Numbered(cells, start, title)[i].ix != Numbered(cells, start, title)[j].ix
    {
      NatToStringInjective(start + i, start + j);
    }
  }

  // ---------------------------------------------------------------- the ordered join

  /** The sort key `d['ix']`; every cell sorted here has been numbered. */
  function IxKey(c: Cell): string {
    c.ix.GetOr("")
  }

  /** Insert `c` before the first cell whose key is not smaller (keeps equal keys in order). */
  function InsertByIx(c: Cell, s: seq<Cell>): seq<Cell> {
    if s == [] || !LexLess(IxKey(s[0]), IxKey(c)) then [c] + s
    else [s[0]] + InsertByIx(c, s[1..])
  }

  /** `sorted(cells, key=lambda d: d['ix'])`: a stable sort by the string `ix`. */
  function SortByIx(cells: seq<Cell>): seq<Cell> {
    if cells == [] then [] else InsertByIx(cells[0], SortByIx(cells[1..]))
  }

  /** No cell is followed by a cell with a smaller key. */
  predicate SortedByIx(s: seq<Cell>) {
    forall i, j :: 0 <= i < j < |s| ==> !LexLess(IxKey(s[j]), IxKey(s[i]))
  }

  /** `!LexLess(b, a)` is a transitive relation: "a is not after b". */
  lemma NotAfterTransitive(a: string, b: string, c: string)
    requires !LexLess(b, a) && !LexLess(c, b)
    ensures !LexLess(c, a)
  {
  }

  lemma {:induction false} InsertByIxSorted(c: Cell, s: seq<Cell>)
    requires SortedByIx(s)
    ensures SortedByIx(InsertByIx(c, s))
    ensures multiset(InsertByIx(c, s)) == multiset([c] + s)
    ensures forall x :: x in InsertByIx(c, s) <==> x == c || x in s
    decreases |s|
  {
    var r := InsertByIx(c, s);
    if s == [] || !LexLess(IxKey(s[0]), IxKey(c)) {
      forall i, j | 0 <= i < j < |r| ensures !LexLess(IxKey(r[j]), IxKey(r[i])) {
        if i == 0 && j > 1 {
          NotAfterTransitive(IxKey(c), IxKey(s[0]), IxKey(s[j - 1]));
        }
      }
    } else {
      var t := InsertByIx(c, s[1..]);
      InsertByIxSorted(c, s[1..]);
      assert r == [s[0]] + t;
      forall i, j | 0 <= i < j < |r| ensures !LexLess(IxKey(r[j]), IxKey(r[i])) {
        if i == 0 {
          assert r[j] in t;
          if r[j] != c {
            assert r[j] in s[1..];
          } else {
            LexLessAsymmetric(IxKey(s[0]), IxKey(c));
          }
        }
      }
      assert s == [s[0]] + s[1..];
    }
  }

  /** The sort orders the cells by `ix` as strings and keeps every cell: a sorted permutation. */
  lemma {:induction false} SortByIxSortedPermutation(cells: seq<Cell>)
    ensures SortedByIx(SortByIx(cells))
    ensures multiset(SortByIx(cells)) == multiset(cells)
  {
    if cells != [] {
      SortByIxSortedPermutation(cells[1..]);
      InsertByIxSorted(cells[0], SortByIx(cells[1..]));
      assert cells == [cells[0]] + cells[1..];
    }
  }

  /** In a sorted notebook with at least 11 numbered cells, cell "10" comes before cell "2". */
  lemma TenSortsBeforeTwo(s: seq<Cell>, i: nat, j: nat)
    requires SortedByIx(s) && i < |s| && j < |s|
    requires IxKey(s[i]) == NatToString(10) && IxKey(s[j]) == NatToString(2)
    ensures i < j
  {
  }

  /** `[cell['source'] for cell in cells]` */
  function Sources(cells: seq<Cell>): seq<string> {
    seq(|cells|, k requires 0 <= k < |cells| => cells[k].source)
  }

  /** The markdown stored for a notebook: cell sources in `ix` order, joined with spaces. */
  function NotebookText(cells: seq<Cell>): string {
    Join(" ", Sources(SortByIx(cells)))
  }

  /** What `get_cell_contents(notebook, cell_typ=['markdown'])` returns, as `scrape_markdowns` calls it. */
  function MarkdownCells(notebook: string, nbCells: seq<Cell>): seq<Cell> {
    Numbered(KeepTypes(nbCells, ["markdown"]), 0, notebook)
  }

  // ---------------------------------------------------------------- the notebook key

  /** `'_'.join(notebook.split('/')[1:]).split('.')[0]` */
  function NotebookKey(notebook: string): string {
    Split(Join("_", Split(notebook, '/')[1..]), '.')[0]
  }

  /**
   * The key drops the first path component, joins the rest with '_' and stops at the
   * first '.', so it holds neither '/' nor '.' and is a prefix of the joined rest.
   */
  lemma NotebookKeyShape(notebook: string)
    ensures '/' !in NotebookKey(notebook) && '.' !in NotebookKey(notebook)
    ensures NotebookKey(notebook) <= Join("_", Split(notebook, '/')[1..])
  {
    var parts := Split(notebook, '/')[1..];
    JoinExcludes("_", parts, '/');
    SplitHeadIsPrefix(Join("_", parts), '.');
  }

  // ---------------------------------------------------------------- scrape_markdowns

  /** The dictionary after a run, and what stopped it early, if anything. */
  datatype ScrapeState = ScrapeState(dict: map<string, string>, failure: Option<ScrapeError>)

  /** All notebooks the walks of `dirs` find, directory by directory. */
  function Notebooks(dirs: seq<string>, walk: string -> seq<WalkEntry>): seq<string> {
    if dirs == [] then [] else NotebookFiles(walk(dirs[0])) + Notebooks(dirs[1..], walk)
  }

  /**
   * Storing the notebooks one by one into `d`; an unreadable notebook stops the run,
   * keeping what was stored before it.
   */
  function ScrapeNotebooks(d: map<string, string>, notebooks: seq<string>, read: string -> Option<seq<Cell>>)
    : ScrapeState
    decreases |notebooks|
  {
    if notebooks == [] then ScrapeState(d, None)
    else
      match read(notebooks[0])
      case None => ScrapeState(d, Some(ReadFailed(notebooks[0])))
      case Some(nbCells) =>
        var nb := notebooks[0];
        ScrapeNotebooks(d[NotebookKey(nb) := NotebookText(MarkdownCells(nb, nbCells))], notebooks[1..], read)
  }

  /**
   * A run only adds or overwrites entries: every earlier key stays, and a key that
   * no scraped notebook maps to keeps its value.
   */
  lemma {:induction false} ScrapeNeverRemoves(
    d: map<string, string>, notebooks: seq<string>, read: string -> Option<seq<Cell>>)
    ensures d.Keys <= ScrapeNotebooks(d, notebooks, read).dict.Keys
    ensures ScrapeNotebooks(d, notebooks, read).dict.Keys <= d.Keys + set nb | nb in notebooks :: NotebookKey(nb)
    ensures forall key :: key in d && (forall nb :: nb in notebooks ==> NotebookKey(nb) != key) ==>
      ScrapeNotebooks(d, notebooks, read).dict[key] == d[key]
    decreases |notebooks|
  {
    if notebooks != [] && read(notebooks[0]).Some? {
      var nb := notebooks[0];
      var d' := d[NotebookKey(nb) := NotebookText(MarkdownCells(nb, read(nb).value))];
      ScrapeNeverRemoves(d', notebooks[1..], read);
      forall key | key in d && (forall nb' :: nb' in notebooks ==> NotebookKey(nb') != key)
        ensures ScrapeNotebooks(d, notebooks, read).dict[key] == d[key]
      {
        assert nb in notebooks;
        forall nb' | nb' in notebooks[1..] ensures NotebookKey(nb') != key {
          assert nb' in notebooks;
        }
      }
      forall nb' | nb' in notebooks[1..] ensures nb' in notebooks {
      }
    }
  }

  /** A run finishes without failure exactly when every notebook can be read. */
  lemma {:induction false} ScrapeCompletesIffAllRead(
    d: map<string, string>, notebooks: seq<string>, read: string -> Option<seq<Cell>>)
    ensures ScrapeNotebooks(d, notebooks, read).failure.None? <==> forall nb :: nb in notebooks ==> read(nb).Some?
    decreases |notebooks|
  {
    if notebooks != [] {
      var nb := notebooks[0];
      assert nb in notebooks;
      if read(nb).Some? {
        var d' := d[NotebookKey(nb) := NotebookText(MarkdownCells(nb, read(nb).value))];
        ScrapeCompletesIffAllRead(d', notebooks[1..], read);
        assert notebooks == [nb] + notebooks[1..];
      }
    }
  }

  /**
   * When every notebook reads, the entry for a key holds the markdown of the last
   * notebook with that key: a later notebook replaces an earlier one.
   */
  lemma {:induction false} ScrapeLastNotebookWins(
    d: map<string, string>, notebooks: seq<string>, read: string -> Option<seq<Cell>>, i: nat)
    requires forall nb :: nb in notebooks ==> read(nb).Some?
    requires i < |notebooks|
    requires forall j :: i < j < |notebooks| ==> NotebookKey(notebooks[j]) != NotebookKey(notebooks[i])
    ensures var key := NotebookKey(notebooks[i]);
      key in ScrapeNotebooks(d, notebooks, read).dict
      && ScrapeNotebooks(d, notebooks, read).dict[key]
         == NotebookText(MarkdownCells(notebooks[i], read(notebooks[i]).value))
    decreases |notebooks|
  {
    var nb := notebooks[0];
    assert nb in notebooks;
    var d' := d[NotebookKey(nb) := NotebookText(MarkdownCells(nb, read(nb).value))];
    var rest := notebooks[1..];
    assert ScrapeNotebooks(d, notebooks, read) == ScrapeNotebooks(d', rest, read);
    if i == 0 {
      forall x | x in rest ensures NotebookKey(x) != NotebookKey(nb) {
        var j :| 0 <= j < |rest| && rest[j] == x;
        assert notebooks[j + 1] == x;
      }
      ScrapeNeverRemoves(d', rest, read);
    } else {
      forall x | x in rest ensures read(x).Some? {
        assert x in notebooks;
      }
      forall j | i - 1 < j < |rest| ensures NotebookKey(rest[j]) != NotebookKey(rest[i - 1]) {
        assert rest[j] == notebooks[j + 1];
      }
      ScrapeLastNotebookWins(d', rest, read, i - 1);
      assert rest[i - 1] == notebooks[i];
    }
  }

  /** Scraping `a + b` is scraping `a`, then, unless that failed, scraping `b` from where it stopped. */
  lemma {:induction false} ScrapeNotebooksAppend(
    d: map<string, string>, a: seq<string>, b: seq<string>, read: string -> Option<seq<Cell>>)
    ensures var first := ScrapeNotebooks(d, a, read);
      ScrapeNotebooks(d, a + b, read)
        == if first.failure.Some? then first else ScrapeNotebooks(first.dict, b, read)
    decreases |a|
  {
    if a == [] {
      assert a + b == b;
    } else {
      assert (a + b)[0] == a[0] && (a + b)[1..] == a[1..] + b;
      if read(a[0]).Some? {
        var d' := d[NotebookKey(a[0]) := NotebookText(MarkdownCells(a[0], read(a[0]).value))];
        ScrapeNotebooksAppend(d', a[1..], b, read);
      }
    }
  }

  /** `NB_Markdown_Scraper`: the markdown it has scraped, keyed by notebook, and the trees to walk. */
  class MarkdownScraper {
    var notebookMdDict: map<string, string>
    var inputPaths: Option<seq<string>>

    /** `NB_Markdown_Scraper(input_paths)`: an empty dictionary. */
    constructor (inputPaths: Option<seq<string>>)
      ensures notebookMdDict == map[] && this.inputPaths == inputPaths
    {
      notebookMdDict := map[];
      this.inputPaths := inputPaths;
    }

    /** `nbpathwalk(path)`, given the entries that walking `path` yields. */
    method NbPathWalk(walk: seq<WalkEntry>) returns (validNotebookFiles: seq<string>)
      ensures validNotebookFiles == NotebookFiles(walk)
    {
      validNotebookFiles := [];
      var i := 0;
      while i < |walk|
        invariant 0 <= i <= |walk|
        invariant validNotebookFiles == NotebookFiles(walk[..i])
      {
        assert walk[..i + 1][..i] == walk[..i];
        var path := walk[i].dirpath;
        if !SkippedDir(path) {
          var names := NotebookNames(walk[i].filenames);
          ghost var before := validNotebookFiles;
          var k := 0;
          while k < |names|
            invariant 0 <= k <= |names|
            invariant validNotebookFiles == before + JoinEach(path, names[..k])
          {
            assert names[..k + 1][..k] == names[..k];
            validNotebookFiles := validNotebookFiles + [PathJoin(path, names[k])];
            k := k + 1;
          }
          assert names[..k] == names;
        }
        i := i + 1;
      }
      assert walk[..|walk|] == walk;
    }

    /**
     * `get_cell_contents(nb_fn, c_md, cell_typ)`, given the cells `nbformat.read`
     * returns for `nb_fn`. `None` stands for an argument left at its default.
     */
    method GetCellContents(nbFn: string, nbCells: seq<Cell>, cMd: Option<seq<Cell>>, cellTyp: Option<seq<string>>)
      returns (r: seq<Cell>)
      ensures var prior := cMd.GetOr([]);
        r == prior + Numbered(KeepTypes(nbCells, cellTyp.GetOr(["markdown"])), |prior|, nbFn)
    {
      var types := cellTyp.GetOr(["markdown"]);
      var prior := cMd.GetOr([]);
      var kept := KeepTypes(nbCells, types);
      ghost var original := kept;
      var ix := |prior|;
      var k := 0;
      while k < |kept|
        invariant 0 <= k <= |kept| && |kept| == |original|
        invariant ix == |prior| + k
        invariant forall m :: 0 <= m < k ==> kept[m] == Tagged(original[m], |prior| + m, nbFn)
        invariant forall m :: k <= m < |kept| ==> kept[m] == original[m]
      {
        kept := kept[k := Tagged(kept[k], ix, nbFn)];
        ix := ix + 1;
        k := k + 1;
      }
      assert kept == Numbered(original, |prior|, nbFn);
      r := prior + kept;
    }

    /**
     * The inner loop of `scrape_markdowns()` for one tree's notebooks: store each
     * notebook's joined markdown under its key, stopping at an unreadable notebook.
     */
    method ScrapeNotebookList(notebooks: seq<string>, read: string -> Option<seq<Cell>>)
      returns (failure: Option<ScrapeError>)
      modifies this`notebookMdDict
      ensures ScrapeState(notebookMdDict, failure) == ScrapeNotebooks(old(notebookMdDict), notebooks, read)
    {
      ghost var target := ScrapeNotebooks(notebookMdDict, notebooks, read);
      var j := 0;
      while j < |notebooks|
        invariant 0 <= j <= |notebooks|
        invariant ScrapeNotebooks(notebookMdDict, notebooks[j..], read) == target
      {
        var notebook := notebooks[j];
        assert notebooks[j..][1..] == notebooks[j + 1..];
        var cellsRead := read(notebook);
        if cellsRead.None? {
          return Some(ReadFailed(notebook));
        }
        var notebookCells := GetCellContents(notebook, cellsRead.value, None, Some(["markdown"]));
        assert notebookCells == MarkdownCells(notebook, cellsRead.value);
        var notebookName := NotebookKey(notebook);
        notebookMdDict := notebookMdDict[notebookName := NotebookText(notebookCells)];
        j := j + 1;
      }
      failure := None;
    }

    /**
     * `scrape_markdowns()`: for every notebook of every input tree, store the joined
     * markdown under the notebook's key. `walk` gives the entries of walking a tree,
     * `read` the cells of a notebook. Returns what stopped the run, if anything.
     */
    method ScrapeMarkdowns(walk: string -> seq<WalkEntry>, read: string -> Option<seq<Cell>>)
      returns (failure: Option<ScrapeError>)
      modifies this`notebookMdDict
      ensures old(inputPaths).None? ==>
        failure == Some(InputPathsNotIterable) && notebookMdDict == old(notebookMdDict)
      ensures old(inputPaths).Some? ==>
        ScrapeState(notebookMdDict, failure)
          == ScrapeNotebooks(old(notebookMdDict), Notebooks(old(inputPaths).value, walk), read)
    {
      if inputPaths.None? {
        return Some(InputPathsNotIterable);
      }
      var dirs := inputPaths.value;
      ghost var target := ScrapeNotebooks(notebookMdDict, Notebooks(dirs, walk), read);
      failure := None;
      var i := 0;
      assert dirs[i..] == dirs;
      while i < |dirs|
        invariant 0 <= i <= |dirs|
        invariant failure == None
        invariant ScrapeNotebooks(notebookMdDict, Notebooks(dirs[i..], walk), read) == target
      {
        assert dirs[i..][1..] == dirs[i + 1..];
        var directoryNotebooks := NbPathWalk(walk(dirs[i]));
        ghost var later := Notebooks(dirs[i + 1..], walk);
        ScrapeNotebooksAppend(notebookMdDict, directoryNotebooks, later, read);
        failure := ScrapeNotebookList(directoryNotebooks, read);
        if failure.Some? {
          return;
        }
        i := i + 1;
      }
      assert dirs[i..] == [];
    }
  }
}
