/**
  The first version's walks over the dict folder tree: the first-match
  search for a supplier or folder-code folder, and the token filter over
  every file below a folder. Keys that begin with `_` (the `_path` and
  `_files` entries, and any sub-folder so named) are skipped by all three.
 */
module LegacyTree {
  import opened Wrappers
  import opened Strings
  import opened FolderTree

  /** A key starting with `_`: never matched, never entered. */
  predicate Hidden(name: string) { |name| > 0 && name[0] == '_' }

  /** `x` is `n` or lies below it along sub-folders none of whose names is hidden. */
  predicate VisibleWithin(x: Node, n: Node)
    decreases n
  {
    x == n || exists i :: 0 <= i < |n.children| && !Hidden(n.children[i].0) && VisibleWithin(x, n.children[i].1)
  }

  lemma {:induction false} VisibleWithinIsWithin(x: Node, n: Node)
    requires VisibleWithin(x, n)
    ensures Within(x, n)
    decreases n
  {
    if x != n {
      var i :| 0 <= i < |n.children| && !Hidden(n.children[i].0) && VisibleWithin(x, n.children[i].1);
      VisibleWithinIsWithin(x, n.children[i].1);
    }
  }

  // ---------------------------------------------------------------------------
  // find_supplier_folder / find_folder_code
  // ---------------------------------------------------------------------------

  /** `code.lower() in name.lower()` */
  predicate NameHasCode(name: string, code: string) {
    Contains(LowerStr(name), LowerStr(code))
  }

  /**
    The shared body of `find_supplier_folder` and `find_folder_code`: the
    sub-folders in insertion order, hidden names skipped; a name containing
    the code (case-insensitively) returns its sub-tree at once, otherwise
    the sub-tree is searched before the next sibling.
   */
  function FindFirst(n: Node, code: string): Option<Node>
    decreases n, 1
  {
    FindFrom(n, code, 0)
  }

  function FindFrom(n: Node, code: string, i: nat): Option<Node>
    requires i <= |n.children|
    decreases n, 0, |n.children| - i
  {
    if i == |n.children| then None
    else
      var name := n.children[i].0;
      var sub := n.children[i].1;
      if Hidden(name) then FindFrom(n, code, i + 1)
      else if NameHasCode(name, code) then Some(sub)
      else match FindFirst(sub, code)
        case Some(found) => Some(found)
        case None => FindFrom(n, code, i + 1)
  }

  /**
    Reference order: every visible sub-folder with its name, a folder just
    before the folders below it, siblings in insertion order.
   */
  function Named(n: Node): (r: seq<(string, Node)>)
    ensures forall e :: e in r ==> !Hidden(e.0) && VisibleWithin(e.1, n) && e.1 != n
    decreases n, 1
  {
    NamedFrom(n, 0)
  }

  function NamedFrom(n: Node, i: nat): (r: seq<(string, Node)>)
    requires i <= |n.children|
    ensures forall e :: e in r ==> !Hidden(e.0) && VisibleWithin(e.1, n) && e.1 != n
    decreases n, 0, |n.children| - i
  {
    if i == |n.children| then []
    else
      var name := n.children[i].0;
      var sub := n.children[i].1;
      var here := if Hidden(name) then [] else [(name, sub)] + Named(sub);
      var r := here + NamedFrom(n, i + 1);
      assert forall e :: e in here ==> !Hidden(e.0) && VisibleWithin(e.1, n) && e.1 != n by {
        forall e | e in here ensures !Hidden(e.0) && VisibleWithin(e.1, n) && e.1 != n {
          assert !Hidden(name);
          if e != (name, sub) {
            assert e in Named(sub);
            VisibleWithinIsWithin(e.1, sub);
            WithinSmaller(e.1, sub);
          }
          WithinSmaller(sub, sub);
        }
      }
      r
  }

  /** Everything within a sub-tree is smaller than the tree above it. */
  lemma {:induction false} WithinSmaller(x: Node, n: Node)
    requires Within(x, n)
    ensures x < n || x == n
    decreases n
  {
    if x != n {
      var i :| 0 <= i < |n.children| && Within(x, n.children[i].1);
      WithinSmaller(x, n.children[i].1);
    }
  }

  /** The sub-tree of the first entry whose name contains the code. */
  function FirstMatch(es: seq<(string, Node)>, code: string): (r: Option<Node>)
    ensures r.None? <==> forall j :: 0 <= j < |es| ==> !NameHasCode(es[j].0, code)
    ensures r.Some? ==> exists j :: 0 <= j < |es| && es[j].1 == r.value && NameHasCode(es[j].0, code) &&
                                    forall k :: 0 <= k < j ==> !NameHasCode(es[k].0, code)
    decreases |es|
  {
    if |es| == 0 then None
    else if NameHasCode(es[0].0, code) then Some(es[0].1)
    else
      var r := FirstMatch(es[1..], code);
      assert forall j :: 1 <= j < |es| ==> es[j] == es[1..][j - 1];
      if r.Some? then
        var j :| 0 <= j < |es[1..]| && es[1..][j].1 == r.value && NameHasCode(es[1..][j].0, code) &&
                 forall k :: 0 <= k < j ==> !NameHasCode(es[1..][k].0, code);
        assert es[j + 1] == es[1..][j];
        r
      else r
  }

  lemma {:induction false} FirstMatchAppend(a: seq<(string, Node)>, b: seq<(string, Node)>, code: string)
    ensures FirstMatch(a + b, code) == if FirstMatch(a, code).Some? then FirstMatch(a, code) else FirstMatch(b, code)
    decreases |a|
  {
    if |a| == 0 {
      assert a + b == b;
    } else {
      assert (a + b)[0] == a[0];
      assert (a + b)[1..] == a[1..] + b;
      FirstMatchAppend(a[1..], b, code);
    }
  }

  /**
    The recursive search returns the sub-tree of the first visible folder,
    in the reference order, whose name contains the code, and `None` when
    there is none.
   */
  lemma {:induction false} FindFirstMeaning(n: Node, code: string)
    ensures FindFirst(n, code) == FirstMatch(Named(n), code)
    decreases n, 1
  {
    FindFromMeaning(n, code, 0);
  }

  lemma {:induction false} FindFromMeaning(n: Node, code: string, i: nat)
    requires i <= |n.children|
    ensures FindFrom(n, code, i) == FirstMatch(NamedFrom(n, i), code)
    decreases n, 0, |n.children| - i
  {
    if i < |n.children| {
      var name := n.children[i].0;
      var sub := n.children[i].1;
      FindFromMeaning(n, code, i + 1);
      if !Hidden(name) {
        FindFirstMeaning(sub, code);
        var here := [(name, sub)] + Named(sub);
        FirstMatchAppend(here, NamedFrom(n, i + 1), code);
        assert here[1..] == Named(sub);
      } else {
        assert [] + NamedFrom(n, i + 1) == NamedFrom(n, i + 1);
      }
    }
  }

  /**
    `find_supplier_folder`: `None`, or a sub-tree reached through visible
    folders whose own name contains the supplier code, and no earlier
    visible folder's name does.
   */
  function FindSupplierFolder(tree: Node, supplierCode: string): (r: Option<Node>)
    ensures r.None? <==> forall e :: e in Named(tree) ==> !NameHasCode(e.0, supplierCode)
    ensures r.Some? ==> VisibleWithin(r.value, tree) && r.value != tree &&
                        exists e :: e in Named(tree) && e.1 == r.value && NameHasCode(e.0, supplierCode)
  {
    FindFirstMeaning(tree, supplierCode);
    FirstMatchInNamed(tree, supplierCode);
    FindFirst(tree, supplierCode)
  }

  /** `find_folder_code`: the same search, for the folder code. */
  function FindFolderCode(tree: Node, folderCode: string): (r: Option<Node>)
    ensures r.None? <==> forall e :: e in Named(tree) ==> !NameHasCode(e.0, folderCode)
    ensures r.Some? ==> VisibleWithin(r.value, tree) && r.value != tree &&
                        exists e :: e in Named(tree) && e.1 == r.value && NameHasCode(e.0, folderCode)
  {
    FindFirstMeaning(tree, folderCode);
    FirstMatchInNamed(tree, folderCode);
    FindFirst(tree, folderCode)
  }

  lemma FirstMatchInNamed(tree: Node, code: string)
    ensures var r := FirstMatch(Named(tree), code);
      && (r.None? <==> forall e :: e in Named(tree) ==> !NameHasCode(e.0, code))
      && (r.Some? ==> exists e :: e in Named(tree) && e.1 == r.value && NameHasCode(e.0, code))
  {
    var es := Named(tree);
    var r := FirstMatch(es, code);
    if r.Some? {
      var j :| 0 <= j < |es| && es[j].1 == r.value && NameHasCode(es[j].0, code) &&
               forall k :: 0 <= k < j ==> !NameHasCode(es[k].0, code);
      assert es[j] in es;
    } else {
      forall e | e in es ensures !NameHasCode(e.0, code) {
        var j :| 0 <= j < |es| && es[j] == e;
      }
    }
  }

  // ---------------------------------------------------------------------------
  // search_files_in_tree
  // ---------------------------------------------------------------------------

  /**
    The order the explicit stack pops the folders in: the folder, then its
    visible sub-trees from the last child back to the first.
   */
  function VisibleOrder(n: Node): (r: seq<Node>)
    ensures |r| > 0 && r[0] == n
    ensures forall x :: x in r <==> VisibleWithin(x, n)
    decreases n, 1
  {
    [n] + VisibleOrderFrom(n, |n.children|)
  }

  function VisibleOrderFrom(n: Node, i: nat): (r: seq<Node>)
    requires i <= |n.children|
    ensures forall x :: x in r <==> exists j :: 0 <= j < i && !Hidden(n.children[j].0) && VisibleWithin(x, n.children[j].1)
    decreases n, 0, i
  {
    if i == 0 then []
    else
      var here := if Hidden(n.children[i - 1].0) then [] else VisibleOrder(n.children[i - 1].1);
      var r := here + VisibleOrderFrom(n, i - 1);
      assert forall x :: x in r <==> x in here || x in VisibleOrderFrom(n, i - 1);
      r
  }

  /** `s.lower().replace("_", "").replace(" ", "")` */
  function Squash(s: string): (r: string)
    ensures '_' !in r && ' ' !in r
  {
    var once := RemoveChar(LowerStr(s), '_');
    FilterKeeps(once, x => x != ' ', c => c != '_');
    RemoveChar(once, ' ')
  }

  /** Filtering never brings in a character: a class the input avoids, the output avoids too. */
  lemma {:induction false} FilterKeeps(s: string, keep: char -> bool, ok: char -> bool)
    requires AllChars(s, ok)
    ensures AllChars(Filter(s, keep), ok)
    decreases |s|
  {
    if |s| > 0 {
      FilterKeeps(s[1..], keep, ok);
    }
  }

  /** Every token, squashed, occurs in the squashed file name. */
  predicate Accepts(f: string, tokens: seq<string>) {
    forall k :: 0 <= k < |tokens| ==> Contains(Squash(f), Squash(tokens[k]))
  }

  /** The index of the first token that does not occur, from `i` on. */
  function FirstFailing(f: string, tokens: seq<string>, i: nat): (r: Option<nat>)
    requires i <= |tokens|
    ensures r.None? <==> forall k :: i <= k < |tokens| ==> Contains(Squash(f), Squash(tokens[k]))
    ensures r.Some? ==> i <= r.value < |tokens| && !Contains(Squash(f), Squash(tokens[r.value])) &&
                        forall k :: i <= k < r.value ==> Contains(Squash(f), Squash(tokens[k]))
    decreases |tokens| - i
  {
    if i == |tokens| then None
    else if !Contains(Squash(f), Squash(tokens[i])) then Some(i)
    else FirstFailing(f, tokens, i + 1)
  }

  /** The debug line for a file: `File <f> failed on token <t>` at the first failing token. */
  function Rejection(f: string, tokens: seq<string>): (r: Option<string>)
    ensures r.None? <==> Accepts(f, tokens)
  {
    match FirstFailing(f, tokens, 0)
    case None => None
    case Some(k) => Some("File " + f + " failed on token " + tokens[k])
  }

  /** What a scan produces: the joined paths of the matches and the debug lines appended. */
  datatype Scanned = Scanned(matches: seq<seq<string>>, log: seq<string>)

  /** The `j`-th file makes `p` as a match. */
  predicate FileMatch(path: seq<string>, files: seq<string>, p: seq<string>, tokens: seq<string>) {
    exists j :: 0 <= j < |files| && p == path + [files[j]] && Accepts(files[j], tokens)
  }

  /** Some file is rejected with debug line `l`. */
  predicate FileLine(files: seq<string>, l: string, tokens: seq<string>) {
    exists j :: 0 <= j < |files| && Rejection(files[j], tokens) == Some(l)
  }

  lemma FileCons(path: seq<string>, files: seq<string>, tokens: seq<string>)
    requires |files| > 0
    ensures forall p :: FileMatch(path, files, p, tokens) <==>
      (p == path + [files[0]] && Accepts(files[0], tokens)) || FileMatch(path, files[1..], p, tokens)
    ensures forall l :: FileLine(files, l, tokens) <==>
      Rejection(files[0], tokens) == Some(l) || FileLine(files[1..], l, tokens)
  {
    assert forall j :: 1 <= j < |files| ==> files[j] == files[1..][j - 1];
    forall p | FileMatch(path, files[1..], p, tokens) ensures FileMatch(path, files, p, tokens) {
      var j :| 0 <= j < |files[1..]| && p == path + [files[1..][j]] && Accepts(files[1..][j], tokens);
      assert files[j + 1] == files[1..][j];
    }
    forall l | FileLine(files[1..], l, tokens) ensures FileLine(files, l, tokens) {
      var j :| 0 <= j < |files[1..]| && Rejection(files[1..][j], tokens) == Some(l);
      assert files[j + 1] == files[1..][j];
    }
  }

  /** The files of one folder, in order: each is either a match or one debug line. */
  function ScanFiles(path: seq<string>, files: seq<string>, tokens: seq<string>): (r: Scanned)
    ensures |r.matches| + |r.log| == |files|
    ensures forall p :: p in r.matches <==> FileMatch(path, files, p, tokens)
    ensures forall l :: l in r.log <==> FileLine(files, l, tokens)
    decreases |files|
  {
    if |files| == 0 then Scanned([], [])
    else
      var f := files[0];
      var rest := ScanFiles(path, files[1..], tokens);
      FileCons(path, files, tokens);
      var rej := Rejection(f, tokens);
      if rej.None? then Scanned([path + [f]] + rest.matches, rest.log)
      else Scanned(rest.matches, [rej.value] + rest.log)
  }

  function FileCount(nodes: seq<Node>): nat {
    if |nodes| == 0 then 0 else |nodes[0].files| + FileCount(nodes[1..])
  }

  /** Some node of `nodes` holds a file `f` that makes `p` as a match. */
  predicate MatchIn(nodes: seq<Node>, p: seq<string>, tokens: seq<string>) {
    exists i, j :: 0 <= i < |nodes| && 0 <= j < |nodes[i].files| &&
      p == nodes[i].path + [nodes[i].files[j]] && Accepts(nodes[i].files[j], tokens)
  }

  /** Some node of `nodes` holds a file rejected with debug line `l`. */
  predicate LineIn(nodes: seq<Node>, l: string, tokens: seq<string>) {
    exists i, j :: 0 <= i < |nodes| && 0 <= j < |nodes[i].files| && Rejection(nodes[i].files[j], tokens) == Some(l)
  }

  /** The folders in the given order, each folder's files scanned in turn. */
  function ScanNodes(nodes: seq<Node>, tokens: seq<string>): (r: Scanned)
    ensures |r.matches| + |r.log| == FileCount(nodes)
    ensures forall p :: p in r.matches <==> MatchIn(nodes, p, tokens)
    ensures forall l :: l in r.log <==> LineIn(nodes, l, tokens)
    decreases |nodes|
  {
    if |nodes| == 0 then Scanned([], [])
    else
      var here := ScanFiles(nodes[0].path, nodes[0].files, tokens);
      var rest := ScanNodes(nodes[1..], tokens);
      MatchInCons(nodes, tokens);
      Scanned(here.matches + rest.matches, here.log + rest.log)
  }

  lemma MatchInCons(nodes: seq<Node>, tokens: seq<string>)
    requires |nodes| > 0
    ensures forall p :: MatchIn(nodes, p, tokens) <==>
      FileMatch(nodes[0].path, nodes[0].files, p, tokens) || MatchIn(nodes[1..], p, tokens)
    ensures forall l :: LineIn(nodes, l, tokens) <==>
      FileLine(nodes[0].files, l, tokens) || LineIn(nodes[1..], l, tokens)
  {
    assert forall i :: 1 <= i < |nodes| ==> nodes[i] == nodes[1..][i - 1];
    forall p | MatchIn(nodes[1..], p, tokens) ensures MatchIn(nodes, p, tokens) {
      var i, j :| 0 <= i < |nodes[1..]| && 0 <= j < |nodes[1..][i].files| &&
        p == nodes[1..][i].path + [nodes[1..][i].files[j]] && Accepts(nodes[1..][i].files[j], tokens);
      assert nodes[i + 1] == nodes[1..][i];
    }
    forall l | LineIn(nodes[1..], l, tokens) ensures LineIn(nodes, l, tokens) {
      var i, j :| 0 <= i < |nodes[1..]| && 0 <= j < |nodes[1..][i].files| &&
        Rejection(nodes[1..][i].files[j], tokens) == Some(l);
      assert nodes[i + 1] == nodes[1..][i];
    }
  }

  /**
    `search_files_in_tree`: the matches (folder path joined with the file
    name) of every file below the folder, hidden sub-folders skipped, and
    the debug lines appended for the files rejected.
   */
  function SearchFilesInTree(tree: Node, tokens: seq<string>): (r: Scanned)
    ensures |r.matches| + |r.log| == FileCount(VisibleOrder(tree))
  {
    ScanNodes(VisibleOrder(tree), tokens)
  }

  /**
    A path is a match exactly when some folder reached through visible
    sub-folders holds a file, joined onto that folder's path, whose squashed
    name contains every squashed token.
   */
  lemma SearchFilesMatches(tree: Node, tokens: seq<string>, p: seq<string>)
    ensures p in SearchFilesInTree(tree, tokens).matches <==>
      exists x, f :: VisibleWithin(x, tree) && f in x.files && p == x.path + [f] && Accepts(f, tokens)
  {
    if p in SearchFilesInTree(tree, tokens).matches {
      MatchSound(tree, tokens, p);
    }
    if exists x, f :: VisibleWithin(x, tree) && f in x.files && p == x.path + [f] && Accepts(f, tokens) {
      var x, f :| VisibleWithin(x, tree) && f in x.files && p == x.path + [f] && Accepts(f, tokens);
      MatchComplete(tree, tokens, x, f);
    }
  }

  lemma MatchSound(tree: Node, tokens: seq<string>, p: seq<string>)
    requires p in SearchFilesInTree(tree, tokens).matches
    ensures exists x, f :: VisibleWithin(x, tree) && f in x.files && p == x.path + [f] && Accepts(f, tokens)
  {
    var nodes := VisibleOrder(tree);
    var i, j :| 0 <= i < |nodes| && 0 <= j < |nodes[i].files| &&
      p == nodes[i].path + [nodes[i].files[j]] && Accepts(nodes[i].files[j], tokens);
    assert nodes[i] in nodes && nodes[i].files[j] in nodes[i].files;
  }

  lemma MatchComplete(tree: Node, tokens: seq<string>, x: Node, f: string)
    requires VisibleWithin(x, tree) && f in x.files && Accepts(f, tokens)
    ensures x.path + [f] in SearchFilesInTree(tree, tokens).matches
  {
    var nodes := VisibleOrder(tree);
    var i :| 0 <= i < |nodes| && nodes[i] == x;
    var j :| 0 <= j < |x.files| && x.files[j] == f;
    assert MatchIn(nodes, x.path + [f], tokens);
  }

  /** Each debug line belongs to a rejected file of some visible folder and names the first token that file fails on. */
  lemma SearchFilesLogSound(tree: Node, tokens: seq<string>, l: string)
    requires l in SearchFilesInTree(tree, tokens).log
    ensures exists x, f :: (VisibleWithin(x, tree) && f in x.files && !Accepts(f, tokens) &&
                            l == "File " + f + " failed on token " + tokens[FirstFailing(f, tokens, 0).value])
  {
    var nodes := VisibleOrder(tree);
    var i, j :| 0 <= i < |nodes| && 0 <= j < |nodes[i].files| && Rejection(nodes[i].files[j], tokens) == Some(l);
    assert nodes[i] in nodes && nodes[i].files[j] in nodes[i].files;
  }

  /** Every rejected file of a visible folder has its debug line. */
  lemma SearchFilesLogComplete(tree: Node, tokens: seq<string>, x: Node, f: string)
    requires VisibleWithin(x, tree) && f in x.files && !Accepts(f, tokens)
    ensures "File " + f + " failed on token " + tokens[FirstFailing(f, tokens, 0).value] in SearchFilesInTree(tree, tokens).log
  {
    var nodes := VisibleOrder(tree);
    var l := "File " + f + " failed on token " + tokens[FirstFailing(f, tokens, 0).value];
    var i :| 0 <= i < |nodes| && nodes[i] == x;
    var j :| 0 <= j < |x.files| && x.files[j] == f;
    assert Rejection(f, tokens) == Some(l);
    assert LineIn(nodes, l, tokens);
  }

  /** With no tokens nothing is logged. */
  lemma NoTokensNoLog(tree: Node)
    ensures SearchFilesInTree(tree, []).log == []
  {
    NoTokensNoLogNodes(VisibleOrder(tree));
  }

  lemma {:induction false} NoTokensNoLogNodes(nodes: seq<Node>)
    ensures ScanNodes(nodes, []).log == []
    decreases |nodes|
  {
    if |nodes| > 0 {
      NoTokensNoLogFiles(nodes[0].path, nodes[0].files);
      NoTokensNoLogNodes(nodes[1..]);
    }
  }

  lemma {:induction false} NoTokensNoLogFiles(path: seq<string>, files: seq<string>)
    ensures ScanFiles(path, files, []).log == []
    decreases |files|
  {
    if |files| > 0 {
      assert Accepts(files[0], []);
      NoTokensNoLogFiles(path, files[1..]);
    }
  }

  /** With no tokens every file below the folder, hidden sub-folders aside, is a match. */
  lemma NoTokensMatchAll(tree: Node, x: Node, f: string)
    requires VisibleWithin(x, tree) && f in x.files
    ensures x.path + [f] in SearchFilesInTree(tree, []).matches
  {
    SearchFilesMatches(tree, [], x.path + [f]);
  }
}
