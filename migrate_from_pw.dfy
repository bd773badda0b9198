// The migration script's walk: every markdown file under a folder, in
// directory-listing order, depth first.

module MigrateFromPw {
  import opened Text
  import opened Seqs
  import opened Sorting

  /** What `lstatSync` says of a listing entry: a directory, with its own
      listing, or anything else (a file, a symbolic link, ...). */
  datatype Node = Directory(entries: seq<Entry>) | NotDirectory

  /** One entry of a `readdirSync` listing. */
  datatype Entry = Entry(name: string, node: Node)

  /** Index of the last '.', or -1. */
  function LastDot(s: string): (r: int)
    ensures -1 <= r < |s|
    ensures r >= 0 ==> s[r] == '.' && forall k :: r < k < |s| ==> s[k] != '.'
    ensures r == -1 ==> forall k :: 0 <= k < |s| ==> s[k] != '.'
  {
    if s == [] then -1
    else if s[|s| - 1] == '.' then |s| - 1
    else LastDot(s[..|s| - 1])
  }

  /** `path.extname` of an entry name (which holds no '/'): from the last '.'
      to the end, except that there is no extension when there is no '.',
      when the last '.' is the first character (".md", ".profile") and for
      "..". */
  function ExtName(name: string): (r: string)
    ensures r == "" || r[0] == '.'
    ensures EndsWith(name, r)
  {
    var d := LastDot(name);
    if d <= 0 || name == ".." then "" else name[d..]
  }

  /** A name has extension ".md" exactly when it ends with ".md" and has
      something before it: a dot-file named ".md" has none. */
  lemma ExtNameMarkdown(name: string)
    ensures ExtName(name) == ".md" <==> EndsWith(name, ".md") && |name| > 3
  {
    var d := LastDot(name);
    if EndsWith(name, ".md") && |name| > 3 {
      assert name[|name| - 3] == '.';
      assert name[|name| - 2] == 'm' && name[|name| - 1] == 'd';
    }
  }

  /** The result of `listAllMdFiles` on a folder whose listing is `entries`:
      the entries visited in order, each contributing its own markdown
      files. */
  function MdFiles(folder: string, entries: seq<Entry>): seq<string>
    decreases entries, 1
  {
    if entries == [] then []
    else MdFiles(folder, entries[..|entries| - 1]) + EntryMdFiles(folder, entries[|entries| - 1])
  }

  /** What one entry contributes: a directory everything below it, another
      entry its full path when its extension is ".md". */
  function EntryMdFiles(folder: string, e: Entry): seq<string>
    decreases e, 0
  {
    var fullPath := JoinPath(folder, e.name);
    match e.node
    case Directory(entries) => MdFiles(fullPath, entries)
    case NotDirectory => if ExtName(e.name) == ".md" then [fullPath] else []
  }

  /** One entry of the whole tree, listed with its full path. */
  datatype Listed = Listed(path: string, name: string, isDirectory: bool)

  /** Every entry under the folder, depth first: each entry, then (for a
      directory) everything below it. */
  function Walk(folder: string, entries: seq<Entry>): seq<Listed>
    decreases entries, 1
  {
    if entries == [] then []
    else Walk(folder, entries[..|entries| - 1]) + WalkEntry(folder, entries[|entries| - 1])
  }

  function WalkEntry(folder: string, e: Entry): seq<Listed>
    decreases e, 0
  {
    var fullPath := JoinPath(folder, e.name);
    [Listed(fullPath, e.name, e.node.Directory?)]
      + match e.node
        case Directory(entries) => Walk(fullPath, entries)
        case NotDirectory => []
  }

  /** A listed entry the walk returns: not a directory, extension ".md". */
  predicate IsMarkdownFile(l: Listed) {
    !l.isDirectory && ExtName(l.name) == ".md"
  }

  function Paths(ls: seq<Listed>): (r: seq<string>)
    ensures |r| == |ls| && forall i :: 0 <= i < |ls| ==> r[i] == ls[i].path
  {
    if ls == [] then [] else [ls[0].path] + Paths(ls[1..])
  }

  lemma {:induction false} PathsAppend(a: seq<Listed>, b: seq<Listed>)
    ensures Paths(a + b) == Paths(a) + Paths(b)
  {
    assert Paths(a + b) == Paths(a) + Paths(b);
  }

  /** The walk returns the paths of exactly the non-directory ".md" entries
      of the tree, in depth-first listing order: directories are descended
      into and never returned, and every markdown entry appears once, at its
      place in the listing. */
  lemma {:induction false} MdFilesAreMarkdownLeaves(folder: string, entries: seq<Entry>)
    ensures MdFiles(folder, entries) == Paths(Filter(Walk(folder, entries), IsMarkdownFile))
    decreases entries, 1
  {
    if entries != [] {
      var init, e := entries[..|entries| - 1], entries[|entries| - 1];
      MdFilesAreMarkdownLeaves(folder, init);
      EntryMarkdownLeaves(folder, e);
      FilterAppend(Walk(folder, init), WalkEntry(folder, e), IsMarkdownFile);
      PathsAppend(Filter(Walk(folder, init), IsMarkdownFile), Filter(WalkEntry(folder, e), IsMarkdownFile));
    }
  }

  lemma {:induction false} EntryMarkdownLeaves(folder: string, e: Entry)
    ensures EntryMdFiles(folder, e) == Paths(Filter(WalkEntry(folder, e), IsMarkdownFile))
    decreases e, 0
  {
    var fullPath := JoinPath(folder, e.name);
    var head := [Listed(fullPath, e.name, e.node.Directory?)];
    match e.node
    case Directory(entries) =>
      MdFilesAreMarkdownLeaves(fullPath, entries);
      FilterAppend(head, Walk(fullPath, entries), IsMarkdownFile);
      assert Filter(head, IsMarkdownFile) == [];
    case NotDirectory =>
      assert WalkEntry(folder, e) == head;
  }

  /** Every returned path is the folder, a '/', and more, and ends in ".md"
      after at least one other character of its entry name. */
  lemma {:induction false} MdFilesShape(folder: string, entries: seq<Entry>)
    ensures forall p :: p in MdFiles(folder, entries) ==>
      StartsWith(p, folder + "/") && EndsWith(p, ".md") && |p| > |folder| + 4
    decreases entries, 1
  {
    if entries != [] {
      var init, e := entries[..|entries| - 1], entries[|entries| - 1];
      MdFilesShape(folder, init);
      EntryMdFilesShape(folder, e);
    }
  }

  lemma {:induction false} EntryMdFilesShape(folder: string, e: Entry)
    ensures forall p :: p in EntryMdFiles(folder, e) ==>
      StartsWith(p, folder + "/") && EndsWith(p, ".md") && |p| > |folder| + 4
    decreases e, 0
  {
    var fullPath := JoinPath(folder, e.name);
    match e.node
    case Directory(entries) =>
      MdFilesShape(fullPath, entries);
      forall p | p in MdFiles(fullPath, entries)
        ensures StartsWith(p, folder + "/") && EndsWith(p, ".md") && |p| > |folder| + 4
      {
        PrefixOfPrefix(p, fullPath + "/", folder + "/");
      }
    case NotDirectory =>
      if ExtName(e.name) == ".md" {
        ExtNameMarkdown(e.name);
        assert fullPath[|fullPath| - 3..] == e.name[|e.name| - 3..];
      }
  }

  lemma PrefixOfPrefix(s: string, p: string, q: string)
    requires StartsWith(s, p) && StartsWith(p, q)
    ensures StartsWith(s, q)
  {
    assert s[..|q|] == p[..|q|];
  }

  /** `listAllMdFiles(folder)`, where `entries` is what `readdirSync` and
      `lstatSync` report for the folder: a loop over the listing that
      appends each directory's own result and each ".md" entry's path. */
  method ListAllMdFiles(folder: string, entries: seq<Entry>) returns (res: seq<string>)
    ensures res == MdFiles(folder, entries)
    decreases entries
  {
    res := [];
    for i := 0 to |entries|
      invariant res == MdFiles(folder, entries[..i])
    {
      var fileOrFolder := entries[i];
      var fullPath := JoinPath(folder, fileOrFolder.name);
      assert entries[..i + 1][..i] == entries[..i];
      if fileOrFolder.node.Directory? {
        var below := ListAllMdFiles(fullPath, fileOrFolder.node.entries);
        res := res + below;
      } else if ExtName(fileOrFolder.name) == ".md" {
        res := res + [fullPath];
      }
    }
    assert entries[..|entries|] == entries;
  }
}
