/**
  The folder tree the indexer keeps in memory and in its JSON cache. In the
  source a node is a dict `{"_path": ..., "_files": [...], "<sub-folder>":
  {...}, ...}`; here it is an immutable record whose sub-folders keep the
  dict's insertion order. Paths are lists of separator-split segments.
 */
module FolderTree {
  import opened Wrappers
  import opened Strings
  import opened Vocabulary

  datatype Node = Node(path: seq<string>, files: seq<string>, children: seq<(string, Node)>)

  /** `x` is `n` itself or a node somewhere below it. */
  predicate Within(x: Node, n: Node)
    decreases n
  {
    x == n || exists i :: 0 <= i < |n.children| && Within(x, n.children[i].1)
  }

  /** The number of nodes of the tree. */
  function Size(n: Node): (r: nat)
    ensures r >= 1
    decreases n, 1
  {
    1 + SizeFrom(n, |n.children|)
  }

  /** The number of nodes in the first `i` sub-trees of `n`. */
  function SizeFrom(n: Node, i: nat): nat
    requires i <= |n.children|
    decreases n, 0, i
  {
    if i == 0 then 0 else Size(n.children[i - 1].1) + SizeFrom(n, i - 1)
  }

  /**
    The shape every tree the indexer builds has: a non-empty path, and each
    sub-folder's path is its parent's path with the folder name appended.
   */
  predicate WellFormed(n: Node)
    decreases n
  {
    && |n.path| > 0
    && forall i :: 0 <= i < |n.children| ==>
         n.children[i].1.path == n.path + [n.children[i].0] && WellFormed(n.children[i].1)
  }

  // ---------------------------------------------------------------------------
  // _iterate_all_nodes_with_names
  // ---------------------------------------------------------------------------

  /**
    The order in which the explicit stack of `_iterate_all_nodes_with_names`
    (and of the other stack walks of the index) pops the nodes: the node
    first, then its sub-trees from the last child back to the first, each
    one walked completely before the next.
   */
  function Preorder(n: Node): (r: seq<Node>)
    ensures |r| == Size(n)
    ensures r[0] == n
    ensures forall x :: x in r <==> Within(x, n)
    decreases n, 1
  {
    [n] + PreorderFrom(n, |n.children|)
  }

  /** The walk of the first `i` sub-trees of `n`, the `i`-th one first. */
  function PreorderFrom(n: Node, i: nat): (r: seq<Node>)
    requires i <= |n.children|
    ensures |r| == SizeFrom(n, i)
    ensures forall x :: x in r <==> exists j :: 0 <= j < i && Within(x, n.children[j].1)
    decreases n, 0, i
  {
    if i == 0 then []
    else
      var r := Preorder(n.children[i - 1].1) + PreorderFrom(n, i - 1);
      assert forall x :: x in r <==> x in Preorder(n.children[i - 1].1) || x in PreorderFrom(n, i - 1);
      r
  }

  /** All nodes of the index's tree; none when there is no tree. */
  function AllNodes(tree: Option<Node>): (r: seq<Node>)
    ensures tree.None? ==> r == []
    ensures tree.Some? ==> |r| == Size(tree.value) && r[0] == tree.value
    ensures tree.Some? ==> forall x :: x in r <==> Within(x, tree.value)
  {
    if tree.None? then [] else Preorder(tree.value)
  }

  /** Every node below a well-formed node is well formed and extends its path. */
  lemma {:induction false} WithinWellFormed(x: Node, n: Node)
    requires WellFormed(n) && Within(x, n)
    ensures WellFormed(x)
    ensures |n.path| <= |x.path| && x.path[..|n.path|] == n.path
    ensures x != n ==> |n.path| < |x.path|
    decreases n
  {
    if x != n {
      var i :| 0 <= i < |n.children| && Within(x, n.children[i].1);
      var c := n.children[i].1;
      WithinWellFormed(x, c);
      assert c.path[..|n.path|] == n.path;
      assert x.path[..|n.path|] == x.path[..|c.path|][..|n.path|];
    }
  }

  // ---------------------------------------------------------------------------
  // The file-name filters
  // ---------------------------------------------------------------------------

  /** The normalised name ends with one of the known image extensions (lowered, as the source does). */
  predicate HasImageExt(norm: string) {
    exists k :: 0 <= k < |FileExts| && EndsWith(norm, LowerStr(FileExts[k]))
  }

  /** `name.strip().lower().rstrip('.')` */
  function TrimmedName(name: string): (r: string)
    ensures |r| > 0 ==> r[|r| - 1] != '.'
    ensures AllChars(r, c => !IsUpperLetter(c))
  {
    var l := LowerStr(StripSpace(name));
    var r := StripRight(l, '.');
    assert forall i :: 0 <= i < |r| ==> r[i] == l[i];
    r
  }

  /**
    `build_tree`'s file test: the trimmed name ends with a known extension,
    or the raw name has no `.` at all.
   */
  predicate KeepFileName(name: string) {
    HasImageExt(TrimmedName(name)) || '.' !in name
  }

  /** The zero-width characters `normalize_name` deletes (U+200B, U+200C, U+200D). */
  predicate IsZeroWidth(c: char) { c == '\U{200B}' || c == '\U{200C}' || c == '\U{200D}' }

  predicate NotZeroWidth(c: char) { !IsZeroWidth(c) }

  /**
    `collect_candidate_files`' `normalize_name`: drop the zero-width
    characters, turn NBSP into a space, then trim as `build_tree` does.
   */
  function CandidateNorm(name: string): (r: string)
    ensures AllChars(r, c => !IsUpperLetter(c))
  {
    TrimmedName(ReplaceChar(Filter(name, NotZeroWidth), '\U{A0}', ' '))
  }

  /** `has_valid_ext(basename) or '.' not in basename` */
  predicate CandidateName(name: string) {
    HasImageExt(CandidateNorm(name)) || '.' !in name
  }

  /**
    The two filters agree on names without zero-width characters or NBSP:
    a file the tree keeps is a candidate and the other way round.
   */
  lemma {:induction false} FiltersAgree(name: string)
    requires AllChars(name, NotZeroWidth) && '\U{A0}' !in name
    ensures CandidateName(name) <==> KeepFileName(name)
  {
    FilterIdentity(name, NotZeroWidth);
    assert ReplaceChar(name, '\U{A0}', ' ') == name;
  }

  // ---------------------------------------------------------------------------
  // build_tree over an abstract directory
  // ---------------------------------------------------------------------------

  /**
    One entry of an `os.scandir` listing: a regular file, a directory with
    its own listing (empty when it cannot be read), or anything else.
   */
  datatype Entry = File(name: string) | Folder(name: string, contents: seq<Entry>) | Other(name: string)

  /** Python's `<=` on strings: code-point lexicographic order. */
  predicate NameLe(a: string, b: string)
    decreases |a|
  {
    |a| == 0 || (|b| > 0 && (a[0] < b[0] || (a[0] == b[0] && NameLe(a[1..], b[1..]))))
  }

  lemma {:induction false} NameLeTotal(a: string, b: string)
    ensures NameLe(a, b) || NameLe(b, a)
    decreases |a|
  {
    if |a| > 0 && |b| > 0 && a[0] == b[0] {
      NameLeTotal(a[1..], b[1..]);
    }
  }

  lemma {:induction false} NameLeTrans(a: string, b: string, c: string)
    requires NameLe(a, b) && NameLe(b, c)
    ensures NameLe(a, c)
    decreases |a|
  {
    if |a| > 0 && a[0] == b[0] && b[0] == c[0] {
      NameLeTrans(a[1..], b[1..], c[1..]);
    }
  }

  predicate SortedByName(es: seq<Entry>) {
    forall i, j :: 0 <= i < j < |es| ==> NameLe(es[i].name, es[j].name)
  }

  predicate SortedNames(ns: seq<string>) {
    forall i, j :: 0 <= i < j < |ns| ==> NameLe(ns[i], ns[j])
  }

  /** Puts `e` in front of the first entry whose name is not smaller. */
  function InsertByName(e: Entry, es: seq<Entry>): (r: seq<Entry>)
    ensures multiset(r) == multiset(es) + multiset{e}
    decreases |es|
  {
    if |es| == 0 || NameLe(e.name, es[0].name) then [e] + es
    else
      assert es == [es[0]] + es[1..];
      [es[0]] + InsertByName(e, es[1..])
  }

  /** An entry whose name is not above any name of a sorted list can go in front. */
  lemma ConsSorted(h: Entry, rest: seq<Entry>)
    requires SortedByName(rest)
    requires forall j :: 0 <= j < |rest| ==> NameLe(h.name, rest[j].name)
    ensures SortedByName([h] + rest)
  {
    var r := [h] + rest;
    assert forall j :: 0 < j < |r| ==> r[j] == rest[j - 1];
  }

  /** A lower bound of `e` and of every name of `es` bounds the list after inserting. */
  lemma InsertKeepsLowerBound(e: Entry, es: seq<Entry>, b: string)
    requires NameLe(b, e.name)
    requires forall j :: 0 <= j < |es| ==> NameLe(b, es[j].name)
    ensures forall j :: 0 <= j < |InsertByName(e, es)| ==> NameLe(b, InsertByName(e, es)[j].name)
  {
    var r := InsertByName(e, es);
    forall j | 0 <= j < |r| ensures NameLe(b, r[j].name) {
      assert r[j] in multiset(r);
      if r[j] != e {
        assert r[j] in multiset(es);
        var k :| 0 <= k < |es| && es[k] == r[j];
      }
    }
  }

  /** Inserting into a list sorted by name keeps it sorted. */
  lemma {:induction false} InsertSorted(e: Entry, es: seq<Entry>)
    requires SortedByName(es)
    ensures SortedByName(InsertByName(e, es))
    decreases |es|
  {
    if |es| > 0 {
      if NameLe(e.name, es[0].name) {
        forall j | 0 <= j < |es| ensures NameLe(e.name, es[j].name) {
          if j > 0 { NameLeTrans(e.name, es[0].name, es[j].name); }
        }
        ConsSorted(e, es);
      } else {
        NameLeTotal(e.name, es[0].name);
        var tail := es[1..];
        assert forall j :: 0 <= j < |tail| ==> NameLe(es[0].name, tail[j].name) by {
          forall j | 0 <= j < |tail| ensures NameLe(es[0].name, tail[j].name) {
            assert tail[j] == es[j + 1];
          }
        }
        InsertSorted(e, tail);
        InsertKeepsLowerBound(e, tail, es[0].name);
        ConsSorted(es[0], InsertByName(e, tail));
      }
    }
  }

  /** `sorted(entries, key=lambda e: e.name)`: the same entries, ordered by name. */
  function SortByName(es: seq<Entry>): (r: seq<Entry>)
    ensures SortedByName(r)
    ensures multiset(r) == multiset(es)
    decreases |es|
  {
    if |es| == 0 then []
    else
      var rest := SortByName(es[1..]);
      assert es == [es[0]] + es[1..];
      InsertSorted(es[0], rest);
      InsertByName(es[0], rest)
  }

  /** Sorting neither adds nor drops an entry. */
  lemma SortedMembers(es: seq<Entry>)
    ensures forall x :: x in SortByName(es) <==> x in es
  {
    var r := SortByName(es);
    forall x ensures x in r <==> x in es {
      assert x in r <==> x in multiset(r);
      assert x in es <==> x in multiset(es);
    }
  }

  /** The names of the files of a sorted listing that `build_tree` keeps, in listing order. */
  function KeptFiles(es: seq<Entry>): (r: seq<string>)
    requires SortedByName(es)
    ensures SortedNames(r)
    ensures forall f :: f in r <==> File(f) in es && KeepFileName(f)
    decreases |es|
  {
    if |es| == 0 then []
    else
      var rest := KeptFiles(es[1..]);
      assert es == [es[0]] + es[1..];
      if es[0].File? && KeepFileName(es[0].name) then
        assert forall f :: f in rest ==> NameLe(es[0].name, f) by {
          forall f | f in rest ensures NameLe(es[0].name, f) {
            var j :| 0 <= j < |es[1..]| && es[1..][j] == File(f);
            assert es[j + 1] == File(f);
          }
        }
        assert forall j :: 0 < j < |[es[0].name] + rest| ==> ([es[0].name] + rest)[j] in rest;
        [es[0].name] + rest
      else rest
  }

  /**
    `build_tree`'s `_build(path)` over the listing of `path`: the files it
    keeps and then the sub-folders except `.git`, both in name order.
    `BuildTreeShape` and `BuildTreeWellFormed` state what it guarantees.
   */
  function BuildTree(path: seq<string>, entries: seq<Entry>): (r: Node)
    ensures r.path == path
    ensures SortedNames(r.files)
    ensures forall f :: f in r.files <==> File(f) in entries && KeepFileName(f)
    decreases entries, 1
  {
    var sorted := SortByName(entries);
    SortedMembers(entries);
    Node(path, KeptFiles(sorted), SubFolders(path, entries, sorted))
  }

  /** The sub-folders of a sorted listing, each built from its own listing, `.git` left out. */
  function SubFolders(path: seq<string>, entries: seq<Entry>, sorted: seq<Entry>): (r: seq<(string, Node)>)
    requires forall e :: e in sorted ==> e in entries
    ensures |r| <= |sorted|
    ensures forall i :: 0 <= i < |r| ==> r[i].1.path == path + [r[i].0]
    decreases entries, 0, |sorted|
  {
    if |sorted| == 0 then []
    else
      var e := sorted[0];
      assert e in entries;
      var rest := SubFolders(path, entries, sorted[1..]);
      if e.Folder? && e.name != ".git" then
        var r := [(e.name, BuildTree(path + [e.name], e.contents))] + rest;
        assert forall i :: 0 < i < |r| ==> r[i] == rest[i - 1];
        r
      else rest
  }

  /** Some directory entry of the listing has this name. */
  predicate FromFolderEntry(sorted: seq<Entry>, name: string) {
    exists k :: 0 <= k < |sorted| && sorted[k].Folder? && sorted[k].name == name
  }

  /** Every sub-folder is named after a directory entry of the listing, and none is `.git`. */
  lemma {:induction false} SubFoldersNamed(path: seq<string>, entries: seq<Entry>, sorted: seq<Entry>)
    requires forall e :: e in sorted ==> e in entries
    ensures forall i :: 0 <= i < |SubFolders(path, entries, sorted)| ==>
              SubFolders(path, entries, sorted)[i].0 != ".git" && FromFolderEntry(sorted, SubFolders(path, entries, sorted)[i].0)
    decreases |sorted|
  {
    if |sorted| > 0 {
      var rest := SubFolders(path, entries, sorted[1..]);
      SubFoldersNamed(path, entries, sorted[1..]);
      var r := SubFolders(path, entries, sorted);
      assert sorted[0] in entries;
      assert r == if sorted[0].Folder? && sorted[0].name != ".git"
        then [(sorted[0].name, BuildTree(path + [sorted[0].name], sorted[0].contents))] + rest else rest;
      forall i | 0 <= i < |r|
        ensures r[i].0 != ".git" && FromFolderEntry(sorted, r[i].0)
      {
        if sorted[0].Folder? && sorted[0].name != ".git" && i == 0 {
          assert r[0].0 == sorted[0].name;
        } else {
          var i' := if sorted[0].Folder? && sorted[0].name != ".git" then i - 1 else i;
          assert r[i] == rest[i'];
          assert FromFolderEntry(sorted[1..], rest[i'].0);
          var k :| 0 <= k < |sorted[1..]| && sorted[1..][k].Folder? && sorted[1..][k].name == rest[i'].0;
          assert sorted[k + 1] == sorted[1..][k];
        }
      }
    }
  }

  predicate ChildNamesSorted(children: seq<(string, Node)>) {
    forall i, j :: 0 <= i < j < |children| ==> NameLe(children[i].0, children[j].0)
  }

  /** The sub-folders of a listing sorted by name come out in name order. */
  lemma {:induction false} SubFoldersSorted(path: seq<string>, entries: seq<Entry>, sorted: seq<Entry>)
    requires forall e :: e in sorted ==> e in entries
    requires SortedByName(sorted)
    ensures ChildNamesSorted(SubFolders(path, entries, sorted))
    decreases |sorted|
  {
    if |sorted| > 0 {
      var rest := SubFolders(path, entries, sorted[1..]);
      SubFoldersSorted(path, entries, sorted[1..]);
      var r := SubFolders(path, entries, sorted);
      assert sorted[0] in entries;
      assert r == if sorted[0].Folder? && sorted[0].name != ".git"
        then [(sorted[0].name, BuildTree(path + [sorted[0].name], sorted[0].contents))] + rest else rest;
      if sorted[0].Folder? && sorted[0].name != ".git" {
        HeadBelowRest(path, entries, sorted);
        ChildNamesCons((sorted[0].name, BuildTree(path + [sorted[0].name], sorted[0].contents)), rest);
      }
    }
  }

  /** In a listing sorted by name, the first entry's name is below every later sub-folder's. */
  lemma {:induction false} HeadBelowRest(path: seq<string>, entries: seq<Entry>, sorted: seq<Entry>)
    requires |sorted| > 0
    requires forall e :: e in sorted ==> e in entries
    requires SortedByName(sorted)
    ensures forall i :: 0 <= i < |SubFolders(path, entries, sorted[1..])| ==>
              NameLe(sorted[0].name, SubFolders(path, entries, sorted[1..])[i].0)
  {
    var rest := SubFolders(path, entries, sorted[1..]);
    SubFoldersNamed(path, entries, sorted[1..]);
    forall i | 0 <= i < |rest| ensures NameLe(sorted[0].name, rest[i].0) {
      assert FromFolderEntry(sorted[1..], rest[i].0);
      var k :| 0 <= k < |sorted[1..]| && sorted[1..][k].Folder? && sorted[1..][k].name == rest[i].0;
      assert sorted[k + 1] == sorted[1..][k];
    }
  }

  /** A name below every name of a sorted child list can go in front of it. */
  lemma {:induction false} ChildNamesCons(h: (string, Node), rest: seq<(string, Node)>)
    requires ChildNamesSorted(rest)
    requires forall i :: 0 <= i < |rest| ==> NameLe(h.0, rest[i].0)
    ensures ChildNamesSorted([h] + rest)
  {
    var r := [h] + rest;
    forall i, j | 0 <= i < j < |r| ensures NameLe(r[i].0, r[j].0) {
      assert r[j] == rest[j - 1];
      if i > 0 {
        assert r[i] == rest[i - 1];
      }
    }
  }

  /** Some sub-folder has this name. */
  predicate HasChildNamed(children: seq<(string, Node)>, name: string) {
    exists i :: 0 <= i < |children| && children[i].0 == name
  }

  /** Every directory entry of the listing other than `.git` becomes a sub-folder. */
  lemma {:induction false} SubFoldersComplete(path: seq<string>, entries: seq<Entry>, sorted: seq<Entry>)
    requires forall e :: e in sorted ==> e in entries
    ensures forall k :: 0 <= k < |sorted| && sorted[k].Folder? && sorted[k].name != ".git" ==>
              HasChildNamed(SubFolders(path, entries, sorted), sorted[k].name)
    decreases |sorted|
  {
    if |sorted| > 0 {
      var rest := SubFolders(path, entries, sorted[1..]);
      SubFoldersComplete(path, entries, sorted[1..]);
      var r := SubFolders(path, entries, sorted);
      assert sorted[0] in entries;
      assert r == if sorted[0].Folder? && sorted[0].name != ".git"
        then [(sorted[0].name, BuildTree(path + [sorted[0].name], sorted[0].contents))] + rest else rest;
      var shift := if sorted[0].Folder? && sorted[0].name != ".git" then 1 else 0;
      assert forall i :: 0 <= i < |rest| ==> r[i + shift] == rest[i];
      forall k | 0 <= k < |sorted| && sorted[k].Folder? && sorted[k].name != ".git"
        ensures HasChildNamed(r, sorted[k].name)
      {
        if k == 0 {
          assert r[0].0 == sorted[0].name;
        } else {
          assert sorted[1..][k - 1] == sorted[k];
          assert HasChildNamed(rest, sorted[1..][k - 1].name);
          var i :| 0 <= i < |rest| && rest[i].0 == sorted[1..][k - 1].name;
          assert r[i + shift].0 == sorted[k].name;
        }
      }
    }
  }

  /**
    What `build_tree` makes of one directory: its path, the kept files in
    name order, and one sub-folder per directory entry other than `.git`,
    in name order.
   */
  lemma BuildTreeShape(path: seq<string>, entries: seq<Entry>)
    ensures var r := BuildTree(path, entries);
      && r.path == path
      && SortedNames(r.files)
      && (forall f :: f in r.files <==> File(f) in entries && KeepFileName(f))
      && (forall i :: 0 <= i < |r.children| ==> r.children[i].0 != ".git")
      && (forall i :: 0 <= i < |r.children| ==> FolderNamed(entries, r.children[i].0))
      && ChildNamesSorted(r.children)
      && (forall e :: e in entries && e.Folder? && e.name != ".git" ==> HasChildNamed(r.children, e.name))
  {
    var sorted := SortByName(entries);
    SortedMembers(entries);
    SubFoldersNamed(path, entries, sorted);
    SubFoldersSorted(path, entries, sorted);
    SubFoldersComplete(path, entries, sorted);
    var r := BuildTree(path, entries);
    assert r.children == SubFolders(path, entries, sorted);
    ChildrenFromEntries(entries, sorted, r.children);
    EntriesBecomeChildren(entries, sorted, r.children);
  }

  lemma ChildrenFromEntries(entries: seq<Entry>, sorted: seq<Entry>, children: seq<(string, Node)>)
    requires forall e :: e in sorted ==> e in entries
    requires forall i :: 0 <= i < |children| ==> FromFolderEntry(sorted, children[i].0)
    ensures forall i :: 0 <= i < |children| ==> FolderNamed(entries, children[i].0)
  {
    forall i | 0 <= i < |children|
      ensures FolderNamed(entries, children[i].0)
    {
      var k :| 0 <= k < |sorted| && sorted[k].Folder? && sorted[k].name == children[i].0;
      assert sorted[k] in entries;
    }
  }

  /** The listing holds a directory entry with this name. */
  predicate FolderNamed(entries: seq<Entry>, name: string) {
    exists e :: e in entries && e.Folder? && e.name == name
  }

  lemma EntriesBecomeChildren(entries: seq<Entry>, sorted: seq<Entry>, children: seq<(string, Node)>)
    requires forall e :: e in entries ==> e in sorted
    requires forall k :: 0 <= k < |sorted| && sorted[k].Folder? && sorted[k].name != ".git" ==> HasChildNamed(children, sorted[k].name)
    ensures forall e :: e in entries && e.Folder? && e.name != ".git" ==> HasChildNamed(children, e.name)
  {
    forall e | e in entries && e.Folder? && e.name != ".git"
      ensures HasChildNamed(children, e.name)
    {
      assert e in sorted;
      var k :| 0 <= k < |sorted| && sorted[k] == e;
    }
  }

  /** A tree built from a non-empty root path is well formed. */
  lemma {:induction false} BuildTreeWellFormed(path: seq<string>, entries: seq<Entry>)
    requires |path| > 0
    ensures WellFormed(BuildTree(path, entries))
    decreases entries, 1
  {
    SortedMembers(entries);
    SubFoldersWellFormed(path, entries, SortByName(entries));
  }

  lemma {:induction false} SubFoldersWellFormed(path: seq<string>, entries: seq<Entry>, sorted: seq<Entry>)
    requires |path| > 0
    requires forall e :: e in sorted ==> e in entries
    ensures forall i :: 0 <= i < |SubFolders(path, entries, sorted)| ==> WellFormed(SubFolders(path, entries, sorted)[i].1)
    decreases entries, 0, |sorted|
  {
    if |sorted| > 0 {
      var e := sorted[0];
      assert e in entries;
      SubFoldersWellFormed(path, entries, sorted[1..]);
      if e.Folder? && e.name != ".git" {
        BuildTreeWellFormed(path + [e.name], e.contents);
        var r := SubFolders(path, entries, sorted);
        assert forall i :: 0 < i < |r| ==> r[i] == SubFolders(path, entries, sorted[1..])[i - 1];
      }
    }
  }
}
