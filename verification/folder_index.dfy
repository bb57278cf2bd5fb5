/**
  The folder index: finding the supplier folder and the folder of a code in
  the cached tree, descending to where the images are, collecting the
  candidate files and filtering them against a parsed code or a
  questionnaire selection.

  What the source reads from the disk or from the process arrives as
  parameters: whether a path is a file, whether a directory holds a file,
  and the `id()` order used to break ties between equally scored nodes.
 */
module FolderIndex {
  import opened Wrappers
  import opened Strings
  import opened Normalize
  import opened Parsing
  import opened Matching
  import opened Selections
  import opened FolderTree

  /** The answers the source gets from the file system and from object identities. */
  datatype Oracles = Oracles(
    isFile: seq<string> -> bool,       // os.path.isfile
    dirHasFile: seq<string> -> bool,   // any(entry.is_file() for entry in os.scandir(path)), False on error
    keyBelow: (Node, Node) -> bool)    // id(a) < id(b)

  /** The separator-split segments of a node's `_path` (`"".split(os.sep)` is `[""]`). */
  function Segments(n: Node): (r: seq<string>)
    ensures |r| > 0
  {
    if |n.path| == 0 then [""] else n.path
  }

  /** `os.path.basename` of a node's path. */
  function Basename(n: Node): string {
    Segments(n)[|Segments(n)| - 1]
  }

  // ---------------------------------------------------------------------------
  // SupplierCandidate and pick_best_by_score
  // ---------------------------------------------------------------------------

  datatype SupplierCandidate<T> = SupplierCandidate(score: int, node: T)

  /** `SupplierCandidate.__lt__`: by score, equal scores by the identity key. */
  predicate CandidateLess<T>(a: SupplierCandidate<T>, b: SupplierCandidate<T>, keyBelow: (T, T) -> bool) {
    a.score < b.score || (a.score == b.score && keyBelow(a.node, b.node))
  }

  /** A candidate with a strictly higher score always sorts above one with a lower score. */
  lemma CandidateOrderFollowsScore<T>(a: SupplierCandidate<T>, b: SupplierCandidate<T>, keyBelow: (T, T) -> bool)
    ensures a.score < b.score ==> CandidateLess(a, b, keyBelow) && !CandidateLess(b, a, keyBelow)
    ensures CandidateLess(a, b, keyBelow) ==> a.score <= b.score
  {
  }

  /** The loop of `pick_best_by_score` from the current best on. */
  function PickFrom<T>(best: Option<SupplierCandidate<T>>, items: seq<T>, score: T -> int, keyBelow: (T, T) -> bool)
    : (r: Option<SupplierCandidate<T>>)
    ensures r.None? <==> best.None? && |items| == 0
    ensures r.Some? ==> (best.Some? && r.value == best.value) || (r.value.node in items && r.value.score == score(r.value.node))
    ensures r.Some? && best.Some? ==> best.value.score <= r.value.score
    ensures r.Some? ==> forall x :: x in items ==> score(x) <= r.value.score
    decreases |items|
  {
    if |items| == 0 then best
    else
      var cand := SupplierCandidate(score(items[0]), items[0]);
      var next := if best.None? || CandidateLess(best.value, cand, keyBelow) then Some(cand) else best;
      assert items == [items[0]] + items[1..];
      PickFrom(next, items[1..], score, keyBelow)
  }

  /**
    `pick_best_by_score`: nothing for no items, otherwise one of the items
    whose score no other item exceeds. Which of several equally scored items
    wins depends on `keyBelow`.
   */
  function PickBestByScore<T>(items: seq<T>, score: T -> int, keyBelow: (T, T) -> bool): (r: Option<T>)
    ensures r.None? <==> |items| == 0
    ensures r.Some? ==> r.value in items && forall x :: x in items ==> score(x) <= score(r.value)
  {
    var best := PickFrom(None, items, score, keyBelow);
    if best.None? then None else Some(best.value.node)
  }

  // ---------------------------------------------------------------------------
  // find_supplier_selected_folder
  // ---------------------------------------------------------------------------

  /** `score_supplier_node`: the supplier score of the node's path. */
  function SupplierScore(supplier: Option<string>): Node -> int {
    n => ScoreSupplierSelectedPath(Segments(n), supplier)
  }

  /**
    `find_supplier_selected_folder`: the best-scoring node of the whole tree.
    Every path scores at least 1, so any tree yields a node, even when no
    folder name mentions the supplier.
   */
  function FindSupplierSelectedFolder(tree: Option<Node>, supplier: Option<string>, keyBelow: (Node, Node) -> bool)
    : (r: Option<Node>)
    ensures r.Some? <==> tree.Some?
    ensures r.Some? ==> Within(r.value, tree.value)
    ensures r.Some? ==> forall x :: Within(x, tree.value) ==> SupplierScore(supplier)(x) <= SupplierScore(supplier)(r.value)
  {
    PickBestByScore(AllNodes(tree), SupplierScore(supplier), keyBelow)
  }

  /** The chosen supplier folder scores between 1 and 11, and at least 4 when some folder's own name carries the supplier code. */
  lemma SupplierFolderScore(tree: Node, supplier: Option<string>, keyBelow: (Node, Node) -> bool, x: Node)
    requires Within(x, tree) && SupplierSegment(Segments(x), supplier)
    ensures var r := FindSupplierSelectedFolder(Some(tree), supplier, keyBelow).value;
      4 <= SupplierScore(supplier)(r) <= 11
  {
  }

  // ---------------------------------------------------------------------------
  // find_folder_with_code
  // ---------------------------------------------------------------------------

  /** `find_folder_with_code`'s answer: the node, its score and its depth below the parent. */
  datatype FolderHit = FolderHit(node: Option<Node>, score: int, depth: int)

  const NoDepth: int := 1000000000   // 10**9

  const NoHit: FolderHit := FolderHit(None, -1, NoDepth)

  /**
    The score of one node: 5 when the folder code is a whole `_`-segment of
    the normalised folder name, 2 more when the normalised supplier prefix
    occurs in it.
   */
  function CodeScore(n: Node, fc: string, sp: Option<string>): (r: int)
    ensures r == 0 || r == 2 || r == 5 || r == 7
  {
    var base := NormalizeToken(Basename(n));
    (if HasSegment(base, fc) then 5 else 0) + (if sp.Some? && |sp.value| > 0 && Contains(base, sp.value) then 2 else 0)
  }

  /** How many more path segments `n` has than the parent the search started from. */
  function DepthBelow(n: Node, parentDepth: int): int {
    |Segments(n)| - parentDepth
  }

  /** The search loop: a scoring node wins over a lower score, or over an equal score deeper down. */
  function ScanHits(best: FolderHit, nodes: seq<Node>, fc: string, sp: Option<string>, pd: int): (r: FolderHit)
    ensures r == best || (r.node.Some? && r.node.value in nodes && r.score == CodeScore(r.node.value, fc, sp) > 0
                          && r.depth == DepthBelow(r.node.value, pd))
    ensures best.score <= r.score
    ensures r.score == best.score ==> r.depth <= best.depth
    ensures forall x :: x in nodes ==> NoBetter(r, x, fc, sp, pd)
    decreases |nodes|
  {
    if |nodes| == 0 then best
    else
      var n := nodes[0];
      var score := CodeScore(n, fc, sp);
      var depth := DepthBelow(n, pd);
      var next :=
        if score > 0 && (score > best.score || (score == best.score && depth < best.depth))
        then FolderHit(Some(n), score, depth) else best;
      var r := ScanHits(next, nodes[1..], fc, sp, pd);
      assert NoBetter(r, n, fc, sp, pd);
      assert forall x :: x in nodes ==> x == n || x in nodes[1..];
      r
  }

  /** `x` neither scores more than the hit `r` nor, scoring the same, lies nearer the parent. */
  predicate NoBetter(r: FolderHit, x: Node, fc: string, sp: Option<string>, pd: int) {
    var score := CodeScore(x, fc, sp);
    score > 0 ==> score <= r.score && (score == r.score ==> r.depth <= DepthBelow(x, pd))
  }

  /**
    `find_folder_with_code`: among the parent and everything below it, a
    node with the highest non-zero score, and of those one nearest the
    parent; `(None, -1, 10**9)` without a parent, without a code or when no
    node scores.
   */
  function FindFolderWithCode(parent: Option<Node>, folderCode: Option<string>, supplierPrefix: Option<string>)
    : (r: FolderHit)
    ensures parent.None? || !Truthy(folderCode) ==> r == NoHit
    ensures r.node.None? ==> r == NoHit
    ensures r.node.Some? ==> parent.Some? && Truthy(folderCode) && Within(r.node.value, parent.value)
  {
    if parent.None? || !Truthy(folderCode) then NoHit
    else ScanHits(NoHit, Preorder(parent.value), CodeKey(folderCode), PrefixKey(supplierPrefix), |Segments(parent.value)|)
  }

  /** The normalised code and supplier prefix the search compares against. */
  function CodeKey(folderCode: Option<string>): string {
    NormalizeToken(folderCode.GetOr(""))
  }

  function PrefixKey(supplierPrefix: Option<string>): Option<string> {
    if Truthy(supplierPrefix) then Some(NormalizeToken(supplierPrefix.value)) else None
  }

  /**
    What the folder search guarantees: no hit exactly when no node scores;
    otherwise the hit lies under the parent, scores 2, 5 or 7, scores at
    least as much as every node, and no node with that score is nearer the
    parent.
   */
  lemma {:induction false} FolderHitMeaning(parent: Node, folderCode: Option<string>, supplierPrefix: Option<string>)
    requires Truthy(folderCode)
    ensures var r := FindFolderWithCode(Some(parent), folderCode, supplierPrefix);
      var fc := CodeKey(folderCode);
      var sp := PrefixKey(supplierPrefix);
      var pd := |Segments(parent)|;
      && (r.node.None? <==> forall x :: Within(x, parent) ==> CodeScore(x, fc, sp) == 0)
      && (r.node.Some? ==>
            && Within(r.node.value, parent)
            && r.score == CodeScore(r.node.value, fc, sp)
            && (r.score == 2 || r.score == 5 || r.score == 7)
            && r.depth == DepthBelow(r.node.value, pd)
            && (forall x :: Within(x, parent) ==> CodeScore(x, fc, sp) <= r.score)
            && (forall x :: Within(x, parent) && CodeScore(x, fc, sp) == r.score ==> r.depth <= DepthBelow(x, pd)))
  {
    var fc := CodeKey(folderCode);
    var sp := PrefixKey(supplierPrefix);
    var pd := |Segments(parent)|;
    var nodes := Preorder(parent);
    var r := ScanHits(NoHit, nodes, fc, sp, pd);
    assert r == FindFolderWithCode(Some(parent), folderCode, supplierPrefix);
    forall x | Within(x, parent) ensures NoBetter(r, x, fc, sp, pd) {
      assert x in nodes;
    }
    if r.node.Some? {
      assert r != NoHit;
    }
  }


  // ---------------------------------------------------------------------------
  // choose_subdir_matching_code
  // ---------------------------------------------------------------------------

  /** The folder name, normalised, has the normalised code as a whole `_`-segment. */
  predicate NameMatchesCode(name: string, fc: string) {
    HasSegment(NormalizeToken(name), fc)
  }

  function ChildNodes(children: seq<(string, Node)>): (r: seq<Node>)
    ensures |r| == |children| && forall j :: 0 <= j < |children| ==> r[j] == children[j].1
  {
    seq(|children|, j requires 0 <= j < |children| => children[j].1)
  }

  /** Some child named to match `fc` is the sub-tree `x`. */
  predicate ChildMatch(children: seq<(string, Node)>, fc: string, x: Node) {
    exists j :: 0 <= j < |children| && children[j].1 == x && NameMatchesCode(children[j].0, fc)
  }

  lemma ChildMatchCons(children: seq<(string, Node)>, fc: string, x: Node)
    requires |children| > 0
    ensures ChildMatch(children, fc, x) <==>
              (children[0].1 == x && NameMatchesCode(children[0].0, fc)) || ChildMatch(children[1..], fc, x)
  {
    if ChildMatch(children, fc, x) {
      var j :| 0 <= j < |children| && children[j].1 == x && NameMatchesCode(children[j].0, fc);
      if j > 0 {
        assert children[1..][j - 1] == children[j];
      }
    }
    if ChildMatch(children[1..], fc, x) {
      var j :| 0 <= j < |children[1..]| && children[1..][j].1 == x && NameMatchesCode(children[1..][j].0, fc);
      assert children[j + 1] == children[1..][j];
    }
  }

  /** The sub-trees among `children` whose names match, in order. */
  function MatchingChildren(children: seq<(string, Node)>, fc: string): (r: seq<Node>)
    ensures |r| <= |children|
    ensures forall x :: x in r <==> ChildMatch(children, fc, x)
    decreases |children|
  {
    if |children| == 0 then []
    else
      var rest := MatchingChildren(children[1..], fc);
      assert forall x :: ChildMatch(children, fc, x) <==>
               (children[0].1 == x && NameMatchesCode(children[0].0, fc)) || ChildMatch(children[1..], fc, x) by {
        forall x ensures ChildMatch(children, fc, x) <==>
                           (children[0].1 == x && NameMatchesCode(children[0].0, fc)) || ChildMatch(children[1..], fc, x) {
          ChildMatchCons(children, fc, x);
        }
      }
      if NameMatchesCode(children[0].0, fc) then [children[0].1] + rest else rest
  }

  /** The matching children come in child order. */
  lemma {:induction false} MatchingChildrenInOrder(children: seq<(string, Node)>, fc: string)
    ensures IsSubsequence(MatchingChildren(children, fc), ChildNodes(children))
    decreases |children|
  {
    if |children| > 0 {
      var rest := MatchingChildren(children[1..], fc);
      MatchingChildrenInOrder(children[1..], fc);
      var cs := ChildNodes(children);
      assert cs[1..] == ChildNodes(children[1..]);
      if NameMatchesCode(children[0].0, fc) {
        assert ([children[0].1] + rest)[1..] == rest;
      } else {
        SubsequenceSkip(rest, cs);
      }
    }
  }

  /**
    `choose_subdir_matching_code`: the direct sub-folders whose normalised
    name holds the normalised code as a whole segment; none without a code
    or a node.
   */
  function ChooseSubdirMatchingCode(node: Option<Node>, folderCode: Option<string>): (r: seq<Node>)
    ensures !Truthy(folderCode) || node.None? ==> r == []
    ensures node.Some? ==> |r| <= |node.value.children|
    ensures node.Some? && Truthy(folderCode) ==>
              forall x :: x in r <==> ChildMatch(node.value.children, CodeKey(folderCode), x)
  {
    if !Truthy(folderCode) || node.None? then []
    else MatchingChildren(node.value.children, CodeKey(folderCode))
  }

  /** The position of a child among the children (the last one, if it occurs twice). */
  function ChildIndex(children: seq<(string, Node)>, x: Node): (j: nat)
    requires exists j :: 0 <= j < |children| && children[j].1 == x
    ensures j < |children| && children[j].1 == x
    decreases |children|
  {
    var n := |children| - 1;
    if children[n].1 == x then n
    else
      assert forall j :: 0 <= j < n ==> children[..n][j] == children[j];
      ChildIndex(children[..n], x)
  }

  // ---------------------------------------------------------------------------
  // descend_to_images_or_branch
  // ---------------------------------------------------------------------------

  datatype StopReason =
    | InvalidStart
    | ImagesFoundHere
    | NoSubdirs
    | MultipleMatchesStop
    | MultipleSubdirsNoneMatchCode
    | InvalidOrCycle

  /** The reason as the source spells it in its debug output. */
  function ReasonText(r: StopReason): string {
    match r
    case InvalidStart => "invalid_start"
    case ImagesFoundHere => "images_found_here"
    case NoSubdirs => "no_subdirs"
    case MultipleMatchesStop => "multiple_matches_stop"
    case MultipleSubdirsNoneMatchCode => "multiple_subdirs_none_match_code"
    case InvalidOrCycle => "invalid_or_cycle"
  }

  /** The node holds images: files in the tree, or else a file on disk. */
  predicate HasImages(n: Node, disk: Oracles) {
    |n.files| > 0 || disk.dirHasFile(Segments(n))
  }

  /** The stop condition the reason names holds at the node where the descent stopped. */
  predicate StopJustified(n: Node, reason: StopReason, folderCode: Option<string>, allowImages: bool, disk: Oracles) {
    && (reason == ImagesFoundHere <==> allowImages && HasImages(n, disk) && reason != InvalidOrCycle)
    && match reason
       case ImagesFoundHere => true
       case NoSubdirs => |n.children| == 0
       case MultipleMatchesStop => |n.children| >= 2 && |ChooseSubdirMatchingCode(Some(n), folderCode)| >= 2
       case MultipleSubdirsNoneMatchCode => |n.children| >= 2 && |ChooseSubdirMatchingCode(Some(n), folderCode)| == 0
       case InvalidOrCycle => true
       case InvalidStart => false
  }

  /** The loop of `descend_to_images_or_branch` from `current`, with the paths already visited. */
  function Descend(current: Node, visited: set<seq<string>>, folderCode: Option<string>, allowImages: bool, disk: Oracles)
    : (r: (Node, StopReason))
    ensures Within(r.0, current)
    ensures StopJustified(r.0, r.1, folderCode, allowImages, disk)
    decreases current
  {
    var path := Segments(current);
    if path in visited then (current, InvalidOrCycle)
    else
      var seen := visited + {path};
      if allowImages && HasImages(current, disk) then (current, ImagesFoundHere)
      else if |current.children| == 0 then (current, NoSubdirs)
      else if |current.children| > 1 then
        var matches := ChooseSubdirMatchingCode(Some(current), folderCode);
        if |matches| == 1 then
          assert matches[0] in matches;
          var j := ChildIndex(current.children, matches[0]);
          var r := Descend(current.children[j].1, seen, folderCode, allowImages, disk);
          assert Within(r.0, current) by { assert Within(r.0, current.children[j].1); }
          r
        else if |matches| > 1 then (current, MultipleMatchesStop)
        else (current, MultipleSubdirsNoneMatchCode)
      else
        var r := Descend(current.children[0].1, seen, folderCode, allowImages, disk);
        assert Within(r.0, current) by { assert Within(r.0, current.children[0].1); }
        r
  }

  /**
    `descend_to_images_or_branch`: from the start node, enter a sole
    sub-folder or the one sub-folder matching the code, until images (when
    allowed), a leaf or a real branch is reached.
   */
  function DescendToImagesOrBranch(start: Option<Node>, folderCode: Option<string>, allowImages: bool, disk: Oracles)
    : (r: (Option<Node>, StopReason))
    ensures start.None? <==> r == (None, InvalidStart)
    ensures start.Some? ==> r.0.Some? && Within(r.0.value, start.value)
    ensures start.Some? ==> StopJustified(r.0.value, r.1, folderCode, allowImages, disk)
  {
    if start.None? then (None, InvalidStart)
    else
      var d := Descend(start.value, {}, folderCode, allowImages, disk);
      (Some(d.0), d.1)
  }

  /**
    In a well-formed tree every folder's path is longer than its parent's,
    so the visited check never fires: the descent never reports a cycle.
   */
  lemma {:induction false} DescentNeverCycles(current: Node, visited: set<seq<string>>, folderCode: Option<string>,
                                              allowImages: bool, disk: Oracles)
    requires WellFormed(current)
    requires forall p :: p in visited ==> |p| < |current.path|
    ensures Descend(current, visited, folderCode, allowImages, disk).1 != InvalidOrCycle
    decreases current
  {
    var path := Segments(current);
    assert path == current.path;
    var seen := visited + {path};
    if !(allowImages && HasImages(current, disk)) && |current.children| > 0 {
      if |current.children| == 1 {
        var child := current.children[0].1;
        assert child.path == current.path + [current.children[0].0] && WellFormed(child);
        DescendEntersSoleChild(current, visited, folderCode, allowImages, disk);
        DescentNeverCycles(child, seen, folderCode, allowImages, disk);
      } else {
        var matches := ChooseSubdirMatchingCode(Some(current), folderCode);
        if |matches| == 1 {
          var j := MatchIsChild(current, folderCode, matches[0]);
          var child := current.children[j].1;
          assert child.path == current.path + [current.children[j].0] && WellFormed(child);
          DescendEntersUniqueMatch(current, visited, folderCode, allowImages, disk);
          DescentNeverCycles(child, seen, folderCode, allowImages, disk);
        } else {
          DescendStopsHere(current, visited, folderCode, allowImages, disk);
        }
      }
    } else {
      DescendStopsHere(current, visited, folderCode, allowImages, disk);
    }
  }

  /**
    A folder not visited before that the descent does not pass through (it
    has images to stop at, no sub-folders, or several with no unique match)
    is where the descent stops, for a reason other than a cycle.
   */
  lemma DescendStopsHere(current: Node, visited: set<seq<string>>, folderCode: Option<string>,
                         allowImages: bool, disk: Oracles)
    requires Segments(current) !in visited
    requires || (allowImages && HasImages(current, disk))
             || |current.children| == 0
             || (|current.children| >= 2 && |ChooseSubdirMatchingCode(Some(current), folderCode)| != 1)
    ensures Descend(current, visited, folderCode, allowImages, disk).0 == current
    ensures Descend(current, visited, folderCode, allowImages, disk).1 != InvalidOrCycle
  {
  }

  /** A sub-folder chosen for matching the code is one of the node's children. */
  lemma MatchIsChild(current: Node, folderCode: Option<string>, x: Node) returns (j: nat)
    requires x in ChooseSubdirMatchingCode(Some(current), folderCode)
    ensures j < |current.children| && current.children[j].1 == x
  {
    assert ChildMatch(current.children, CodeKey(folderCode), x);
    j :| 0 <= j < |current.children| && current.children[j].1 == x && NameMatchesCode(current.children[j].0, CodeKey(folderCode));
  }

  /**
    A folder not visited before, with no images to stop at and exactly one
    sub-folder, is passed through: the descent goes on in that sub-folder.
   */
  lemma DescendEntersSoleChild(current: Node, visited: set<seq<string>>, folderCode: Option<string>,
                               allowImages: bool, disk: Oracles)
    requires Segments(current) !in visited
    requires !(allowImages && HasImages(current, disk)) && |current.children| == 1
    ensures Descend(current, visited, folderCode, allowImages, disk)
         == Descend(current.children[0].1, visited + {Segments(current)}, folderCode, allowImages, disk)
  {
  }

  /**
    A branching folder not visited before, with no images to stop at and
    exactly one sub-folder matching the code, is passed through: the descent
    goes on in that sub-folder.
   */
  lemma DescendEntersUniqueMatch(current: Node, visited: set<seq<string>>, folderCode: Option<string>,
                                 allowImages: bool, disk: Oracles)
    requires Segments(current) !in visited
    requires !(allowImages && HasImages(current, disk)) && |current.children| >= 2
    requires |ChooseSubdirMatchingCode(Some(current), folderCode)| == 1
    ensures Descend(current, visited, folderCode, allowImages, disk)
         == Descend(ChooseSubdirMatchingCode(Some(current), folderCode)[0], visited + {Segments(current)},
                    folderCode, allowImages, disk)
  {
  }

  /** Where a walk down sole sub-folders ends: at images (when allowed), a leaf or a branch. */
  function SoleChildChainEnd(n: Node, allowImages: bool, disk: Oracles): (r: Node)
    ensures Within(r, n)
    ensures (allowImages && HasImages(r, disk)) || |r.children| != 1
    decreases n
  {
    if (allowImages && HasImages(n, disk)) || |n.children| != 1 then n
    else
      var r := SoleChildChainEnd(n.children[0].1, allowImages, disk);
      assert Within(r, n) by { assert Within(r, n.children[0].1); }
      r
  }

  /** The reason the descent gives when it stops at `n` without a folder code. */
  function NoCodeStop(n: Node, allowImages: bool, disk: Oracles): StopReason {
    if allowImages && HasImages(n, disk) then ImagesFoundHere
    else if |n.children| == 0 then NoSubdirs
    else MultipleSubdirsNoneMatchCode
  }

  /** The loop without a folder code, from a folder deeper than every path visited. */
  lemma {:induction false} NoCodeDescent(current: Node, visited: set<seq<string>>, folderCode: Option<string>,
                                         allowImages: bool, disk: Oracles)
    requires !Truthy(folderCode)
    requires WellFormed(current)
    requires forall p :: p in visited ==> |p| < |current.path|
    ensures var e := SoleChildChainEnd(current, allowImages, disk);
            Descend(current, visited, folderCode, allowImages, disk) == (e, NoCodeStop(e, allowImages, disk))
    decreases current
  {
    assert Segments(current) == current.path;
    if !(allowImages && HasImages(current, disk)) && |current.children| == 1 {
      var child := current.children[0].1;
      assert child.path == current.path + [current.children[0].0] && WellFormed(child);
      DescendEntersSoleChild(current, visited, folderCode, allowImages, disk);
      NoCodeDescent(child, visited + {current.path}, folderCode, allowImages, disk);
    }
  }

  /**
    Without a folder code the descent walks down sole sub-folders and stops
    at the first folder that has images (when allowed), no sub-folders, or
    several: there with `multiple_subdirs_none_match_code`.
   */
  lemma NoCodeFollowsSoleChildren(start: Node, folderCode: Option<string>, allowImages: bool, disk: Oracles)
    requires !Truthy(folderCode)
    requires WellFormed(start)
    ensures var e := SoleChildChainEnd(start, allowImages, disk);
            DescendToImagesOrBranch(Some(start), folderCode, allowImages, disk) == (Some(e), NoCodeStop(e, allowImages, disk))
  {
    NoCodeDescent(start, {}, folderCode, allowImages, disk);
  }

  /** Without a folder code the descent stops at a start folder that already branches. */
  lemma NoCodeStopsAtBranch(start: Node, folderCode: Option<string>, allowImages: bool, disk: Oracles)
    requires !Truthy(folderCode)
    requires !(allowImages && HasImages(start, disk)) && |start.children| >= 2
    ensures DescendToImagesOrBranch(Some(start), folderCode, allowImages, disk) == (Some(start), MultipleSubdirsNoneMatchCode)
  {
  }

  // ---------------------------------------------------------------------------
  // collect_candidate_files
  // ---------------------------------------------------------------------------

  /** `p` is `dir` joined with one of `files` that is a file on disk and has an image extension or none. */
  predicate CandidateIn(dir: seq<string>, files: seq<string>, p: seq<string>, disk: Oracles) {
    && |p| == |dir| + 1
    && p[..|dir|] == dir
    && p[|dir|] in files
    && disk.isFile(p)
    && CandidateName(p[|dir|])
  }

  /** The candidates among the files of one folder, in file order. */
  function NodeCandidates(dir: seq<string>, files: seq<string>, disk: Oracles): (r: seq<seq<string>>)
    ensures forall p :: p in r <==> CandidateIn(dir, files, p, disk)
    decreases |files|
  {
    if |files| == 0 then []
    else
      var full := dir + [files[0]];
      var rest := NodeCandidates(dir, files[1..], disk);
      CandidateInCons(dir, files, disk);
      if disk.isFile(full) && CandidateName(files[0]) then [full] + rest else rest
  }

  lemma CandidateInCons(dir: seq<string>, files: seq<string>, disk: Oracles)
    requires |files| > 0
    ensures forall p :: CandidateIn(dir, files, p, disk) <==>
      (p == dir + [files[0]] && disk.isFile(p) && CandidateName(files[0])) || CandidateIn(dir, files[1..], p, disk)
  {
    var full := dir + [files[0]];
    assert full[..|dir|] == dir && full[|dir|] == files[0];
    forall p | CandidateIn(dir, files, p, disk) && p[|dir|] == files[0] ensures p == full {
      assert p == p[..|dir|] + [p[|dir|]];
    }
    assert files == [files[0]] + files[1..];
  }

  function CandidatesOf(nodes: seq<Node>, disk: Oracles): (r: seq<seq<string>>)
    ensures forall p :: p in r <==> exists x :: x in nodes && CandidateIn(x.path, x.files, p, disk)
    decreases |nodes|
  {
    if |nodes| == 0 then []
    else
      assert nodes == [nodes[0]] + nodes[1..];
      NodeCandidates(nodes[0].path, nodes[0].files, disk) + CandidatesOf(nodes[1..], disk)
  }

  /** A full path that `collect_candidate_files` reports for a start node. */
  ghost predicate IsCandidate(start: Node, p: seq<string>, disk: Oracles) {
    exists x :: Within(x, start) && CandidateIn(x.path, x.files, p, disk)
  }

  /**
    `collect_candidate_files`: in stack order, every file of the start node
    and the nodes below it that is a file on disk and has an image extension
    or no extension at all.
   */
  function CollectCandidateFiles(start: Option<Node>, disk: Oracles): (r: seq<seq<string>>)
    ensures start.None? ==> r == []
    ensures start.Some? ==> forall p :: p in r <==> IsCandidate(start.value, p, disk)
  {
    if start.None? then []
    else
      var nodes := Preorder(start.value);
      var r := CandidatesOf(nodes, disk);
      assert forall p :: p in r <==> IsCandidate(start.value, p, disk) by {
        forall p ensures p in r <==> IsCandidate(start.value, p, disk) {
          if IsCandidate(start.value, p, disk) {
            var x :| Within(x, start.value) && CandidateIn(x.path, x.files, p, disk);
            assert x in nodes;
          }
        }
      }
      r
  }

  /** In a well-formed tree every candidate lies strictly under the start node's path. */
  lemma CandidatesUnderStart(start: Node, p: seq<string>, disk: Oracles)
    requires WellFormed(start) && IsCandidate(start, p, disk)
    ensures |start.path| < |p| && p[..|start.path|] == start.path
  {
    var x :| Within(x, start) && CandidateIn(x.path, x.files, p, disk);
    WithinWellFormed(x, start);
    assert p[..|start.path|] == p[..|x.path|][..|start.path|];
  }

  // ---------------------------------------------------------------------------
  // Choosing where to scan
  // ---------------------------------------------------------------------------

  /** Where a search looks: the folders found on the way and the node whose files are scanned. */
  datatype ScanRoot = ScanRoot(
    supplierNode: Option<Node>,
    codeNode: Option<Node>,
    finalNode: Option<Node>,
    stop: StopReason,
    scanNode: Option<Node>)

  /**
    The shared opening of `search_files`, `debug_search_files` and
    `search_by_selection`: the supplier folder if there is a supplier, then
    the folder of the code below it if there is a code, then the automatic
    descent with images allowed.
   */
  function LocateScanRoot(tree: Option<Node>, supplier: Option<string>, folderCode: Option<string>, env: Oracles)
    : (r: ScanRoot)
    ensures tree.None? ==> r.scanNode.None?
    ensures tree.Some? ==> r.scanNode.Some? && Within(r.scanNode.value, tree.value)
    ensures r.supplierNode.Some? <==> tree.Some? && Truthy(supplier)
    ensures r.codeNode.Some? ==> tree.Some? && Truthy(folderCode) && Within(r.scanNode.value, r.codeNode.value)
    ensures r.scanNode == r.finalNode
  {
    var sup := if Truthy(supplier) then FindSupplierSelectedFolder(tree, supplier, env.keyBelow) else None;
    var search := if sup.Some? then sup else tree;
    var code := if Truthy(folderCode) && search.Some? then FindFolderWithCode(search, folderCode, supplier).node else None;
    var search2 := if code.Some? then code else search;
    var d := DescendToImagesOrBranch(search2, folderCode, true, env);
    if tree.None? then ScanRoot(sup, code, d.0, d.1, search2)
    else
      assert Within(search2.value, tree.value) by {
        if code.Some? { WithinTrans(code.value, search.value, tree.value); }
      }
      WithinTrans(d.0.value, search2.value, tree.value);
      ScanRoot(sup, code, d.0, d.1, d.0)
  }

  /** Every folder the search root passes through is in the tree, so `Within` composes. */
  lemma {:induction false} WithinTrans(x: Node, y: Node, z: Node)
    requires Within(x, y) && Within(y, z)
    ensures Within(x, z)
    decreases z
  {
    if y != z {
      var i :| 0 <= i < |z.children| && Within(y, z.children[i].1);
      WithinTrans(x, y, z.children[i].1);
    }
  }

  /** `os.path.relpath(p, base)` for a path under `base`, joined with `/`. */
  function RelPath(p: seq<string>, base: seq<string>): string {
    if |base| <= |p| && p[..|base|] == base then Join(p[|base|..], '/') else Join(p, '/')
  }

  /** `make_searchable(rel)` of a candidate relative to the scan root. */
  function Searchable(p: seq<string>, base: seq<string>): string {
    NormalizeToken(RelPath(p, base))
  }

  /** The scan a search performs: the base its relative paths start from, and the candidates in order. */
  datatype Scan = Scan(base: seq<string>, candidates: seq<seq<string>>)

  function ScanFor(tree: Option<Node>, supplier: Option<string>, folderCode: Option<string>, env: Oracles): Scan {
    var root := LocateScanRoot(tree, supplier, folderCode, env);
    Scan(if root.scanNode.Some? then root.scanNode.value.path else [], CollectCandidateFiles(root.scanNode, env))
  }

  /** Everything a search scans is a candidate file under the tree. */
  lemma ScanInTree(tree: Node, supplier: Option<string>, folderCode: Option<string>, env: Oracles, p: seq<string>)
    requires p in ScanFor(Some(tree), supplier, folderCode, env).candidates
    ensures IsCandidate(tree, p, env)
  {
    var root := LocateScanRoot(Some(tree), supplier, folderCode, env);
    var s := root.scanNode.value;
    var x :| Within(x, s) && CandidateIn(x.path, x.files, p, env);
    WithinTrans(x, s, tree);
  }

  // ---------------------------------------------------------------------------
  // search_files and debug_search_files
  // ---------------------------------------------------------------------------

  /** The strict criteria `search_files` takes from a parsed code, materials and colours normalised. */
  datatype Criteria = Criteria(materials: seq<string>, colors: seq<string>, sizes: seq<string>, fileToken: Option<string>)

  function CriteriaOf(p: ParsedCode): Criteria {
    Criteria(NormalizeAll(p.material), NormalizeAll(p.color), p.size, p.fileToken)
  }

  /** `any(m in s for m in ms)` */
  predicate AnyIn(s: string, ms: seq<string>) {
    exists k :: 0 <= k < |ms| && Contains(s, ms[k])
  }

  predicate MaterialFails(s: string, c: Criteria) { |c.materials| > 0 && !AnyIn(s, c.materials) }
  predicate ColorFails(s: string, c: Criteria) { |c.colors| > 0 && !ColorMatches(s, c.colors) }
  predicate SizeFails(s: string, c: Criteria) { |c.sizes| > 0 && !MatchesSize(s, c.sizes) }
  predicate TokenFails(s: string, c: Criteria) { !FileTokenMatch(s, c.fileToken) }

  /** The strict filter: no criterion that is given fails. */
  predicate Passes(s: string, c: Criteria) {
    !MaterialFails(s, c) && !ColorFails(s, c) && !SizeFails(s, c) && !TokenFails(s, c)
  }

  /** The names of the criteria in the order the filter checks them. */
  const ReasonNames: seq<string> := ["material", "color", "size", "file_token"]

  /** `name` in front of `rest` when `fails`. */
  function Prepend(fails: bool, name: string, rest: seq<string>): (r: seq<string>)
    ensures forall n :: n in r <==> (fails && n == name) || n in rest
    ensures |r| == 0 <==> !fails && |rest| == 0
  {
    if fails then [name] + rest else rest
  }

  lemma PrependInOrder(fails: bool, names: seq<string>, rest: seq<string>)
    requires |names| > 0 && IsSubsequence(rest, names[1..])
    ensures IsSubsequence(Prepend(fails, names[0], rest), names)
  {
    if fails {
      assert ([names[0]] + rest)[1..] == rest;
    } else {
      SubsequenceSkip(rest, names);
    }
  }

  /** The fail list for the four outcomes: each name present exactly when its criterion fails, in checking order. */
  function Reasons(material: bool, color: bool, size: bool, token: bool): (r: seq<string>)
    ensures |r| == 0 <==> !material && !color && !size && !token
    ensures IsSubsequence(r, ReasonNames)
    ensures "material" in r <==> material
    ensures "color" in r <==> color
    ensures "size" in r <==> size
    ensures "file_token" in r <==> token
  {
    var n := ReasonNames;
    var e := Prepend(token, n[3], []);
    var d := Prepend(size, n[2], e);
    var b := Prepend(color, n[1], d);
    assert n[3..][1..] == [];
    PrependInOrder(token, n[3..], []);
    assert n[2..][1..] == n[3..];
    PrependInOrder(size, n[2..], e);
    assert n[1..][1..] == n[2..];
    PrependInOrder(color, n[1..], d);
    PrependInOrder(material, n, b);
    Prepend(material, n[0], b)
  }

  /** `debug_search_files`' list of the criteria a file fails. */
  function FailReasons(s: string, c: Criteria): (r: seq<string>)
    ensures |r| == 0 <==> Passes(s, c)
    ensures IsSubsequence(r, ReasonNames)
    ensures "material" in r <==> MaterialFails(s, c)
    ensures "color" in r <==> ColorFails(s, c)
    ensures "size" in r <==> SizeFails(s, c)
    ensures "file_token" in r <==> TokenFails(s, c)
  {
    Reasons(MaterialFails(s, c), ColorFails(s, c), SizeFails(s, c), TokenFails(s, c))
  }

  /** The candidates `keep` accepts, in order. */
  function KeepWhere(cands: seq<seq<string>>, keep: seq<string> -> bool): (r: seq<seq<string>>)
    ensures IsSubsequence(r, cands)
    ensures forall p :: p in r <==> p in cands && keep(p)
    decreases |cands|
  {
    if |cands| == 0 then []
    else
      var rest := KeepWhere(cands[1..], keep);
      assert cands == [cands[0]] + cands[1..];
      if keep(cands[0]) then
        assert ([cands[0]] + rest)[1..] == rest;
        [cands[0]] + rest
      else
        SubsequenceSkip(rest, cands);
        rest
  }

  /** Whether `search_files` keeps a candidate: the code's signature is in its relative path, or it passes the strict filter. */
  predicate Accepted(p: seq<string>, base: seq<string>, sigs: set<string>, c: Criteria) {
    PathContainsAnySignature(RelPath(p, base), sigs) || Passes(Searchable(p, base), c)
  }

  function Acceptor(base: seq<string>, sigs: set<string>, c: Criteria): seq<string> -> bool {
    p => Accepted(p, base, sigs, c)
  }

  /** What a code's search works from: the scan, the code's series signatures and its strict criteria. */
  datatype CodeSearch = CodeSearch(scan: Scan, sigs: set<string>, criteria: Criteria)

  function PrepareCodeSearch(tree: Option<Node>, code: string, env: Oracles): CodeSearch {
    var parsed := ParseProductCode(code);
    CodeSearch(ScanFor(tree, parsed.supplier, parsed.folderCode, env), SeriesSignatures(code), CriteriaOf(parsed))
  }

  /**
    `search_files`: the candidate files, in order, that carry the code's
    series signature in their relative path or pass every strict criterion
    of the parsed code.
   */
  function SearchFiles(tree: Option<Node>, code: string, env: Oracles): (r: seq<seq<string>>)
    ensures var s := PrepareCodeSearch(tree, code, env);
      && IsSubsequence(r, s.scan.candidates)
      && forall p :: p in r <==> p in s.scan.candidates && Accepted(p, s.scan.base, s.sigs, s.criteria)
  {
    var s := PrepareCodeSearch(tree, code, env);
    KeepWhere(s.scan.candidates, Acceptor(s.scan.base, s.sigs, s.criteria))
  }

  /** One rejected candidate and the criteria it failed. */
  datatype Rejection = Rejection(path: seq<string>, reasons: seq<string>)

  function RejectedPaths(rs: seq<Rejection>): (r: seq<seq<string>>)
    ensures |r| == |rs| && forall k :: 0 <= k < |rs| ==> r[k] == rs[k].path
  {
    seq(|rs|, k requires 0 <= k < |rs| => rs[k].path)
  }

  /**
    The loop of `debug_search_files`: a candidate carrying a signature
    matches, one with an empty fail list matches, every other one is
    rejected with its fail list.
   */
  function Partition(cands: seq<seq<string>>, sig: seq<string> -> bool, fails: seq<string> -> seq<string>)
    : (r: (seq<seq<string>>, seq<Rejection>))
    ensures |r.0| + |r.1| == |cands|
    ensures forall p :: p in r.0 <==> p in cands && (sig(p) || |fails(p)| == 0)
    ensures forall p :: p in RejectedPaths(r.1) <==> p in cands && !sig(p) && |fails(p)| > 0
    ensures forall k :: 0 <= k < |r.1| ==> r.1[k].reasons == fails(r.1[k].path)
    decreases |cands|
  {
    if |cands| == 0 then ([], [])
    else
      var p := cands[0];
      var rest := Partition(cands[1..], sig, fails);
      assert cands == [p] + cands[1..];
      if sig(p) || |fails(p)| == 0 then ([p] + rest.0, rest.1)
      else
        var rj := [Rejection(p, fails(p))] + rest.1;
        assert RejectedPaths(rj) == [p] + RejectedPaths(rest.1);
        (rest.0, rj)
  }

  /** The matches of the debug loop are the results of the plain filter when both judge a candidate alike. */
  lemma {:induction false} PartitionKeeps(cands: seq<seq<string>>, keep: seq<string> -> bool,
                                          sig: seq<string> -> bool, fails: seq<string> -> seq<string>)
    requires forall p :: keep(p) == (sig(p) || |fails(p)| == 0)
    ensures Partition(cands, sig, fails).0 == KeepWhere(cands, keep)
    decreases |cands|
  {
    if |cands| > 0 {
      PartitionKeeps(cands[1..], keep, sig, fails);
    }
  }

  function SignatureTest(base: seq<string>, sigs: set<string>): seq<string> -> bool {
    p => PathContainsAnySignature(RelPath(p, base), sigs)
  }

  function FailTest(base: seq<string>, c: Criteria): seq<string> -> seq<string> {
    p => FailReasons(Searchable(p, base), c)
  }

  /** The debug loop over a prepared search. */
  function DebugSearch(s: CodeSearch): (r: (seq<seq<string>>, seq<Rejection>))
    ensures r.0 == KeepWhere(s.scan.candidates, Acceptor(s.scan.base, s.sigs, s.criteria))
    ensures |r.0| + |r.1| == |s.scan.candidates|
  {
    var r := Partition(s.scan.candidates, SignatureTest(s.scan.base, s.sigs), FailTest(s.scan.base, s.criteria));
    AcceptorSplits(s.scan.base, s.sigs, s.criteria);
    PartitionKeeps(s.scan.candidates, Acceptor(s.scan.base, s.sigs, s.criteria),
                   SignatureTest(s.scan.base, s.sigs), FailTest(s.scan.base, s.criteria));
    r
  }

  /** The rejections of the debug loop over a prepared search: the dropped candidates, each with its failed criteria. */
  lemma SearchRejections(s: CodeSearch)
    ensures var r := DebugSearch(s);
      && (forall p :: p in RejectedPaths(r.1) <==> p in s.scan.candidates && p !in r.0)
      && (forall k :: 0 <= k < |r.1| ==>
            && r.1[k].reasons == FailReasons(Searchable(r.1[k].path, s.scan.base), s.criteria)
            && |r.1[k].reasons| > 0 && IsSubsequence(r.1[k].reasons, ReasonNames))
  {
    AcceptorSplits(s.scan.base, s.sigs, s.criteria);
  }

  /**
    `debug_search_files`: the same matches as `search_files`, and every
    other candidate as a rejection naming the criteria it failed.
   */
  function DebugSearchFiles(tree: Option<Node>, code: string, env: Oracles): (r: (seq<seq<string>>, seq<Rejection>))
    ensures r.0 == SearchFiles(tree, code, env)
    ensures |r.0| + |r.1| == |PrepareCodeSearch(tree, code, env).scan.candidates|
  {
    DebugSearch(PrepareCodeSearch(tree, code, env))
  }

  /**
    The rejections of `debug_search_files` are exactly the candidates
    `search_files` drops, each with the non-empty list of criteria it fails.
   */
  lemma DebugRejections(tree: Option<Node>, code: string, env: Oracles)
    ensures var s := PrepareCodeSearch(tree, code, env);
      var r := DebugSearchFiles(tree, code, env);
      && (forall p :: p in RejectedPaths(r.1) <==> p in s.scan.candidates && p !in r.0)
      && (forall k :: 0 <= k < |r.1| ==>
            && r.1[k].reasons == FailReasons(Searchable(r.1[k].path, s.scan.base), s.criteria)
            && |r.1[k].reasons| > 0 && IsSubsequence(r.1[k].reasons, ReasonNames))
  {
    SearchRejections(PrepareCodeSearch(tree, code, env));
  }

  lemma AcceptorSplits(base: seq<string>, sigs: set<string>, c: Criteria)
    ensures forall p :: Acceptor(base, sigs, c)(p) == (SignatureTest(base, sigs)(p) || |FailTest(base, c)(p)| == 0)
  {
    forall p ensures Acceptor(base, sigs, c)(p) == (SignatureTest(base, sigs)(p) || |FailTest(base, c)(p)| == 0) {
      var r := FailReasons(Searchable(p, base), c);
    }
  }

  /**
    The strict filter of `search_files` and the scorer agree: a searchable
    string passes every criterion of a parsed code exactly when scoring it
    against the same fields misses nothing.
   */
  lemma StrictMeansNothingMissing(s: string, p: ParsedCode)
    ensures Passes(s, CriteriaOf(p)) <==>
            |ComputeMatchScore(s, Query(p.material, p.color, p.size, [], p.fileToken)).missing| == 0
  {
    var q := Query(p.material, p.color, p.size, [], p.fileToken);
    var c := CriteriaOf(p);
    AllFieldsHold(s, q);
    assert MaterialFails(s, c) <==> Provided(q, 0) && !Holds(s, q, 0) by {
      AnyInNormalized(s, p.material);
    }
    assert ColorFails(s, c) <==> Provided(q, 1) && !Holds(s, q, 1);
    assert SizeFails(s, c) <==> Provided(q, 2) && !Holds(s, q, 2);
    assert !Provided(q, 3);
    assert TokenFails(s, c) <==> Provided(q, 4) && !Holds(s, q, 4);
  }

  /** Normalising the list first and then searching is the scorer's material test. */
  lemma AnyInNormalized(s: string, ms: seq<string>)
    ensures AnyIn(s, NormalizeAll(ms)) <==> AnyContains(s, ms)
  {
    var n := NormalizeAll(ms);
    if AnyContains(s, ms) {
      var k :| 0 <= k < |ms| && Contains(s, NormalizeToken(ms[k]));
      assert Contains(s, n[k]);
    }
  }

  /** Nothing is missing exactly when each of the five fields, if given, holds. */
  lemma AllFieldsHold(s: string, q: Query)
    ensures |ComputeMatchScore(s, q).missing| == 0 <==>
      && (Provided(q, 0) ==> Holds(s, q, 0))
      && (Provided(q, 1) ==> Holds(s, q, 1))
      && (Provided(q, 2) ==> Holds(s, q, 2))
      && (Provided(q, 3) ==> Holds(s, q, 3))
      && (Provided(q, 4) ==> Holds(s, q, 4))
  {
    var m := ComputeMatchScore(s, q);
    if !(forall k :: 0 <= k < 5 && Provided(q, k) ==> Holds(s, q, k)) {
      var k :| 0 <= k < 5 && Provided(q, k) && !Holds(s, q, k);
      assert k == 0 || k == 1 || k == 2 || k == 3 || k == 4;
    }
  }

  // ---------------------------------------------------------------------------
  // search_by_selection
  // ---------------------------------------------------------------------------

  /** The scorer's query for a questionnaire selection, materials and colours normalised first as the source does. */
  function SelectionQuery(sel: Selection): Query {
    Query(NormalizeAll(sel.material), NormalizeAll(sel.color), sel.size, sel.designs, sel.fileToken)
  }

  /** `criteria_provided.get(name, False)` */
  predicate CriterionProvided(q: Query, name: string) {
    || (name == "material" && |q.material| > 0)
    || (name == "color" && |q.color| > 0)
    || (name == "size" && |q.size| > 0)
    || (name == "design" && |q.designs| > 0)
    || (name == "file_token" && Truthy(q.fileToken))
  }

  /** `any(criteria_provided.get(m, False) for m in missing)` */
  predicate AnyMissingProvided(missing: seq<string>, provided: string -> bool) {
    exists k :: 0 <= k < |missing| && provided(missing[k])
  }

  /**
    The classification of `search_by_selection` means what its comment
    promises: a candidate is exact exactly when no criterion is missing,
    which is when every criterion the selection gives holds.
   */
  lemma ExactMeansNothingMissing(s: string, q: Query)
    ensures !AnyMissingProvided(ComputeMatchScore(s, q).missing, name => CriterionProvided(q, name)) <==>
            |ComputeMatchScore(s, q).missing| == 0
  {
    var m := ComputeMatchScore(s, q).missing;
    if |m| > 0 {
      SubsequenceElements(m, FieldNames);
      assert m[0] in FieldNames;
      var k :| 0 <= k < 5 && FieldNames[k] == m[0];
      assert Provided(q, k);
      assert CriterionProvided(q, m[0]);
    }
  }

  /** A candidate with its missing criteria and its score. */
  datatype Suggestion = Suggestion(path: seq<string>, missing: seq<string>, score: int)

  function SuggestedPaths(sg: seq<Suggestion>): (r: seq<seq<string>>)
    ensures |r| == |sg| && forall k :: 0 <= k < |sg| ==> r[k] == sg[k].path
  {
    seq(|sg|, k requires 0 <= k < |sg| => sg[k].path)
  }

  /**
    The loop of `search_by_selection`: a candidate missing no provided
    criterion is exact; any other that scores above zero is a suggestion
    carrying its missing criteria and its score.
   */
  function ClassifyCandidates(cands: seq<seq<string>>, score: seq<string> -> MatchScore, provided: string -> bool)
    : (r: (seq<seq<string>>, seq<Suggestion>))
    ensures IsSubsequence(r.0, cands)
    ensures forall p :: p in r.0 <==> p in cands && !AnyMissingProvided(score(p).missing, provided)
    ensures forall p :: p in SuggestedPaths(r.1) <==>
              p in cands && AnyMissingProvided(score(p).missing, provided) && score(p).score > 0
    ensures forall k :: 0 <= k < |r.1| ==> r.1[k] == Suggestion(r.1[k].path, score(r.1[k].path).missing, score(r.1[k].path).score)
    decreases |cands|
  {
    if |cands| == 0 then ([], [])
    else
      var p := cands[0];
      var rest := ClassifyCandidates(cands[1..], score, provided);
      var m := score(p);
      assert cands == [p] + cands[1..];
      if !AnyMissingProvided(m.missing, provided) then
        assert ([p] + rest.0)[1..] == rest.0;
        ([p] + rest.0, rest.1)
      else
        SubsequenceSkip(rest.0, cands);
        if m.score > 0 then
          var sg := [Suggestion(p, m.missing, m.score)] + rest.1;
          assert SuggestedPaths(sg) == [p] + SuggestedPaths(rest.1);
          (rest.0, sg)
        else (rest.0, rest.1)
  }

  function Scorer(base: seq<string>, q: Query): seq<string> -> MatchScore {
    p => ComputeMatchScore(Searchable(p, base), q)
  }

  /**
    `search_by_selection`, with `compute_match_score` in scope, before its
    ranking: the candidates whose every given criterion holds, and the
    other candidates scoring above zero as suggestions.
   */
  function SearchBySelection(tree: Option<Node>, sel: Selection, env: Oracles): (r: (seq<seq<string>>, seq<Suggestion>))
    ensures var sc := ScanFor(tree, sel.supplier, sel.folderCode, env);
      && IsSubsequence(r.0, sc.candidates)
      && (forall p :: p in r.0 <==> p in sc.candidates && |Scorer(sc.base, SelectionQuery(sel))(p).missing| == 0)
  {
    var sc := ScanFor(tree, sel.supplier, sel.folderCode, env);
    var q := SelectionQuery(sel);
    ExactIffNothingMissing(sc.base, q);
    ClassifyCandidates(sc.candidates, Scorer(sc.base, q), Provider(q))
  }

  function Provider(q: Query): string -> bool {
    name => CriterionProvided(q, name)
  }

  lemma ExactIffNothingMissing(base: seq<string>, q: Query)
    ensures forall p :: !AnyMissingProvided(Scorer(base, q)(p).missing, Provider(q)) <==> |Scorer(base, q)(p).missing| == 0
  {
    forall p ensures !AnyMissingProvided(Scorer(base, q)(p).missing, Provider(q)) <==> |Scorer(base, q)(p).missing| == 0 {
      ExactMeansNothingMissing(Searchable(p, base), q);
    }
  }

  /** The suggestions are the other candidates, those scoring above zero, each with what it misses. */
  lemma SelectionSuggestions(tree: Option<Node>, sel: Selection, env: Oracles)
    ensures var sc := ScanFor(tree, sel.supplier, sel.folderCode, env);
      var r := SearchBySelection(tree, sel, env);
      var score := Scorer(sc.base, SelectionQuery(sel));
      && (forall p :: p in SuggestedPaths(r.1) <==> p in sc.candidates && p !in r.0 && score(p).score > 0)
      && (forall k :: 0 <= k < |r.1| ==> r.1[k].missing == score(r.1[k].path).missing && |r.1[k].missing| > 0)
  {
    var sc := ScanFor(tree, sel.supplier, sel.folderCode, env);
    var q := SelectionQuery(sel);
    ExactIffNothingMissing(sc.base, q);
    ClassifiedSuggestions(sc.candidates, Scorer(sc.base, q), Provider(q));
  }

  /** When "misses no provided criterion" means "misses nothing", a suggestion is a non-exact candidate scoring above zero. */
  lemma ClassifiedSuggestions(cands: seq<seq<string>>, score: seq<string> -> MatchScore, provided: string -> bool)
    requires forall p :: !AnyMissingProvided(score(p).missing, provided) <==> |score(p).missing| == 0
    ensures var r := ClassifyCandidates(cands, score, provided);
      && (forall p :: p in SuggestedPaths(r.1) <==> p in cands && p !in r.0 && score(p).score > 0)
      && (forall k :: 0 <= k < |r.1| ==> r.1[k].missing == score(r.1[k].path).missing && |r.1[k].missing| > 0)
  {
    var r := ClassifyCandidates(cands, score, provided);
    forall k | 0 <= k < |r.1| ensures |r.1[k].missing| > 0 {
      assert SuggestedPaths(r.1)[k] in SuggestedPaths(r.1);
    }
  }

  /** What `search_by_selection` as written does: the first candidate raises `NameError`. */
  datatype SelectionOutcome = NameErrorRaised | Finished(exact: seq<seq<string>>, suggestions: seq<Suggestion>)

  /**
    `search_by_selection` as written: `compute_match_score` is not imported
    into the module, so the loop raises `NameError` at its first candidate;
    only a search without candidates returns.
   */
  function SearchBySelectionAsWritten(tree: Option<Node>, sel: Selection, env: Oracles): (r: SelectionOutcome)
    ensures r.NameErrorRaised? <==> |ScanFor(tree, sel.supplier, sel.folderCode, env).candidates| > 0
    ensures r.Finished? ==> r == Finished([], [])
  {
    if |ScanFor(tree, sel.supplier, sel.folderCode, env).candidates| > 0 then NameErrorRaised else Finished([], [])
  }

  /** The empty questionnaire selection. */
  const NoSelection: Selection := Selection([], [], [], [], None, None, None)

  /**
    A one-folder index holding one extension-less file that exists on disk:
    the search as written fails, while the intended search returns that
    file as an exact match.
   */
  lemma SelectionSearchFails(env: Oracles)
    requires env.isFile(["root", "a"])
    ensures SearchBySelectionAsWritten(Some(Node(["root"], ["a"], [])), NoSelection, env) == NameErrorRaised
    ensures ["root", "a"] in SearchBySelection(Some(Node(["root"], ["a"], [])), NoSelection, env).0
  {
    var t := Node(["root"], ["a"], []);
    var p := ["root", "a"];
    assert Within(t, t);
    assert CandidateName("a") by { ExtensionlessIsCandidate("a"); }
    assert p[..1] == ["root"];
    assert CandidateIn(t.path, t.files, p, env);
    var sc := ScanFor(Some(t), None, None, env);
    assert p in sc.candidates;
    var q := SelectionQuery(NoSelection);
    var m := ComputeMatchScore(Searchable(p, sc.base), q).missing;
    assert |m| == 0;
  }

  /** A plain name without a dot or invisible characters passes the file-name filter. */
  lemma ExtensionlessIsCandidate(name: string)
    requires '.' !in name && AllChars(name, NotZeroWidth) && '\U{A0}' !in name
    ensures CandidateName(name)
  {
    FiltersAgree(name);
  }

  // ---------------------------------------------------------------------------
  // load_or_build
  // ---------------------------------------------------------------------------

  /** The cache file's JSON: its `hash` and its `root`, each possibly absent. */
  datatype Cache = Cache(hash: Option<string>, root: Option<Node>)

  /** The index's state: the tree, the hash it was built for, and the cache file (absent or unreadable: `None`). */
  datatype IndexState = IndexState(tree: Option<Node>, hash: Option<string>, cacheFile: Option<Cache>)

  /** The cached tree can be adopted for the current hash. */
  predicate CacheFits(cache: Option<Cache>, currentHash: string) {
    cache.Some? && cache.value.hash == Some(currentHash) && cache.value.root.Some?
  }

  /**
    `load_or_build`: no tree when the root is not a directory; the cached
    tree when the call is not forced and the cache fits the current hash;
    otherwise a tree built from the root's listing, recorded in the cache
    when saving succeeds.
   */
  function LoadOrBuild(s: IndexState, rootIsDir: bool, force: bool, currentHash: string,
                       root: seq<string>, listing: seq<Entry>, saveOk: bool): (r: IndexState)
    ensures !rootIsDir ==> r == s.(tree := None)
    ensures rootIsDir ==> r.hash == Some(currentHash)
    ensures rootIsDir && !force && CacheFits(s.cacheFile, currentHash) ==>
              r.tree == s.cacheFile.value.root && r.cacheFile == s.cacheFile
    ensures rootIsDir && (force || !CacheFits(s.cacheFile, currentHash)) ==>
              && r.tree.Some? && r.tree.value.path == root
              && (forall f :: f in r.tree.value.files <==> File(f) in listing && KeepFileName(f))
              && r.cacheFile == (if saveOk then Some(Cache(Some(currentHash), r.tree)) else s.cacheFile)
  {
    if !rootIsDir then s.(tree := None)
    else
      var cached := if force then None else s.cacheFile;
      if CacheFits(cached, currentHash) then IndexState(cached.value.root, Some(currentHash), s.cacheFile)
      else
        var t := BuildTree(root, listing);
        IndexState(Some(t), Some(currentHash), if saveOk then Some(Cache(Some(currentHash), Some(t))) else s.cacheFile)
  }

  /**
    A rebuild that was saved is picked up again: loading once more for the
    same hash, unforced, adopts the same tree and leaves the cache as it is,
    whatever the listing would now give.
   */
  lemma RebuildThenReload(s: IndexState, force: bool, h: string, root: seq<string>, listing: seq<Entry>,
                          listing2: seq<Entry>, saveOk2: bool)
    requires !CacheFits(s.cacheFile, h) || force
    ensures var r1 := LoadOrBuild(s, true, force, h, root, listing, true);
      LoadOrBuild(r1, true, false, h, root, listing2, saveOk2) == r1
  {
  }

  /** `rebuild` ignores the cache: a forced load always builds the tree from the listing. */
  lemma ForcedLoadRebuilds(s: IndexState, h: string, root: seq<string>, listing: seq<Entry>, saveOk: bool)
    ensures LoadOrBuild(s, true, true, h, root, listing, saveOk).tree == Some(BuildTree(root, listing))
  {
  }
}
