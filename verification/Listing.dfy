/** The command that lists namespace trees (cmd/kubectl-accurate/sub/list.go). */
module Listing {
  import opened Meta
  import opened Chains
  import opened NamespaceForest

  /** The order of strings. */
  predicate Less(a: string, b: string) {
    b != [] && (a == [] || a[0] < b[0] || (a[0] == b[0] && Less(a[1..], b[1..])))
  }

  lemma {:induction false} NotLessThanItself(a: string)
    ensures !Less(a, a)
  {
    if a != [] { NotLessThanItself(a[1..]); }
  }

  /** It is a strict total order in which the first difference decides. */
  lemma {:induction false} LessIsTotal(a: string, b: string)
    ensures Less(a, b) || a == b || Less(b, a)
    ensures !(Less(a, b) && Less(b, a))
  {
    if a == [] || b == [] || a[0] != b[0] {
      NotLessThanItself(a);
    } else {
      LessIsTotal(a[1..], b[1..]);
      assert a == [a[0]] + a[1..] && b == [b[0]] + b[1..];
    }
  }

  lemma {:induction false} FirstDifferenceDecides(common: string, a: string, b: string)
    requires b != [] && (a == [] || a[0] < b[0])
    ensures Less(common + a, common + b) && !Less(common + b, common + a)
  {
    if common == [] {
      assert common + a == a && common + b == b;
    } else {
      FirstDifferenceDecides(common[1..], a, b);
      assert (common + a)[1..] == common[1..] + a && (common + b)[1..] == common[1..] + b;
    }
  }

  ghost predicate Sorted(ns: seq<Name>) {
    forall i, j | 0 <= i < j < |ns| :: Less(ns[i], ns[j])
  }

  /** An output line: a name, whether it is the last of its siblings, and the same for each of
      its ancestors in the tree, which is what the indentation shows. */
  datatype Line = Line(indent: seq<bool>, last: bool, name: Name)

  /** The sorted list of all namespaces. */
  ghost predicate IsListing(store: Store, names: seq<Name>) {
    Sorted(names) && forall n :: n in names <==> n in store
  }

  /** The children of p in the order of names. */
  ghost predicate IsKidList(store: Store, kids: seq<Name>, p: Name) {
    Sorted(kids) && forall n :: n in kids <==> n in store && ParentOf(store[n]) == p
  }

  ghost predicate IsRootList(store: Store, roots: seq<Name>) {
    Sorted(roots) && forall n :: n in roots <==> n in store && IsRoot(store[n])
  }

  type ChildMap = map<Name, seq<Name>>

  function Lookup(childMap: ChildMap, p: Name): seq<Name> {
    if p in childMap then childMap[p] else []
  }

  ghost predicate IsChildMap(store: Store, childMap: ChildMap) {
    forall p | p in store :: IsKidList(store, Lookup(childMap, p), p)
  }

  /** The same for the names of a prefix of the list. */
  ghost predicate IsKidListOf(store: Store, prefix: seq<Name>, kids: seq<Name>, p: Name) {
    Sorted(kids) && forall n :: n in kids <==> n in prefix && n in store && ParentOf(store[n]) == p
  }

  lemma OneMoreKid(store: Store, names: seq<Name>, i: nat, kids: seq<Name>, p: Name)
    requires IsListing(store, names) && i < |names| && IsKidListOf(store, names[..i], kids, p)
    ensures names[i] in store
    ensures IsKidListOf(store, names[..i + 1], if ParentOf(store[names[i]]) == p then kids + [names[i]] else kids, p)
  {
    assert names[..i + 1] == names[..i] + [names[i]];
    assert names[i] in store;
    SortedAppend(kids, names, i);
  }

  /** The loop that fills the child map. */
  method FillChildMap(store: Store, names: seq<Name>) returns (childMap: ChildMap)
    requires IsListing(store, names) && "" !in store
    ensures IsChildMap(store, childMap)
  {
    childMap := map[];
    for i := 0 to |names|
      invariant forall p | p in store :: IsKidListOf(store, names[..i], Lookup(childMap, p), p)
    {
      var ns := names[i];
      ghost var before := childMap;
      assert ns in store;
      if Parent in store[ns] {
        var parent := store[ns][Parent];
        childMap := childMap[parent := Lookup(childMap, parent) + [ns]];
      }
      forall p | p in store ensures IsKidListOf(store, names[..i + 1], Lookup(childMap, p), p) {
        OneMoreKid(store, names, i, Lookup(before, p), p);
      }
    }
    assert names[..|names|] == names;
    forall p | p in store ensures IsKidList(store, Lookup(childMap, p), p) {
      assert IsKidListOf(store, names, Lookup(childMap, p), p);
    }
  }

  lemma SortedAppend(kids: seq<Name>, names: seq<Name>, i: nat)
    requires Sorted(kids) && Sorted(names) && i < |names| && forall n | n in kids :: n in names[..i]
    ensures Sorted(kids + [names[i]])
  {
    forall k | 0 <= k < |kids| ensures Less(kids[k], names[i]) {
      assert kids[k] in kids;
    }
  }

  /** The loop that collects the roots. */
  method CollectRoots(store: Store, names: seq<Name>) returns (roots: seq<Name>)
    requires IsListing(store, names)
    ensures IsRootList(store, roots)
  {
    roots := [];
    for i := 0 to |names|
      invariant Sorted(roots)
      invariant forall n :: n in roots <==> n in names[..i] && n in store && IsRoot(store[n])
    {
      assert names[..i + 1] == names[..i] + [names[i]];
      assert names[i] in store;
      if IsRoot(store[names[i]]) {
        SortedAppend(roots, names, i);
        roots := roots + [names[i]];
      }
    }
    assert names[..|names|] == names;
  }

  /** n has d - 1 ancestors. */
  ghost predicate AtDepth(store: Store, n: Name, d: nat) {
    n in store && d > 0 && Up(ParentLinks(store), n, d) == "" && Up(ParentLinks(store), n, d - 1) != ""
  }

  ghost predicate AllAtDepth(store: Store, ns: seq<Name>, d: nat) {
    forall n | n in ns :: AtDepth(store, n, d)
  }

  /** The deepest namespace is no deeper than there are namespaces. */
  lemma DepthBound(store: Store, p: Name, d: nat)
    requires ParentForest(store) && AtDepth(store, p, d)
    ensures d <= |store|
  {
    var links := ParentLinks(store);
    assert Ends(links, p);
    EndsSoon(links, p);
    assert links.Keys == store.Keys && |links| == |links.Keys|;
    if d > |store| { UpStays(links, p, |store|, d - 1); }
  }

  lemma KidsAreDeeper(store: Store, kids: seq<Name>, p: Name, d: nat)
    requires ParentForest(store) && AtDepth(store, p, d) && IsKidList(store, kids, p)
    ensures AllAtDepth(store, kids, d + 1)
  {
    var links := ParentLinks(store);
    forall n | n in kids ensures AtDepth(store, n, d + 1) {
      assert Up(links, n, d + 1) == Up(links, p, d);
      assert Up(links, n, d) == Up(links, p, d - 1);
    }
  }

  /** showNSRecursive, and its loop over the children. */
  function Show(store: Store, childMap: ChildMap, n: Name, indent: seq<bool>, last: bool, ghost d: nat): seq<Line>
    requires ParentForest(store) && IsChildMap(store, childMap) && AtDepth(store, n, d)
    decreases |store| + 1 - d, 0
  {
    DepthBound(store, n, d);
    KidsAreDeeper(store, Lookup(childMap, n), n, d);
    [Line(indent, last, n)] + ShowAll(store, childMap, Lookup(childMap, n), indent + [last], d + 1)
  }

  function ShowAll(store: Store, childMap: ChildMap, ns: seq<Name>, indent: seq<bool>, ghost d: nat): seq<Line>
    requires ParentForest(store) && IsChildMap(store, childMap) && AllAtDepth(store, ns, d) && d <= |store| + 1
    decreases |store| + 1 - d, 1, |ns|
  {
    if ns == [] then []
    else
      Show(store, childMap, ns[0], indent, |ns| == 1, d) + ShowAll(store, childMap, ns[1..], indent, d)
  }

  lemma RootsAreTop(store: Store, roots: seq<Name>)
    requires ParentForest(store) && IsRootList(store, roots)
    ensures AllAtDepth(store, roots, 1)
  {
    forall n | n in roots ensures AtDepth(store, n, 1) {
      assert BareSub(store[n]);
      assert Up(ParentLinks(store), n, 1) == Up(ParentLinks(store), "", 0);
    }
  }

  /** What `list` prints when no root is given. */
  ghost function Output(store: Store, childMap: ChildMap, roots: seq<Name>): seq<Line>
    requires ParentForest(store) && IsChildMap(store, childMap) && IsRootList(store, roots)
  {
    RootsAreTop(store, roots);
    ShowAll(store, childMap, roots, [], 1)
  }

  /** How many lines show the name m. */
  ghost function Count(lines: seq<Line>, m: Name): nat {
    if lines == [] then 0 else (if lines[0].name == m then 1 else 0) + Count(lines[1..], m)
  }

  lemma {:induction false} CountAdds(a: seq<Line>, b: seq<Line>, m: Name)
    ensures Count(a + b, m) == Count(a, m) + Count(b, m)
  {
    if a == [] {
      assert a + b == b;
    } else {
      assert (a + b)[1..] == a[1..] + b;
      CountAdds(a[1..], b, m);
    }
  }

  /** The ancestor of m at depth d is n; dm is the depth of m. */
  ghost predicate Under(store: Store, n: Name, d: nat, m: Name, dm: nat) {
    dm >= d && Up(ParentLinks(store), m, dm - d) == n
  }

  ghost predicate UnderSome(store: Store, ns: seq<Name>, d: nat, m: Name, dm: nat) {
    dm >= d && Up(ParentLinks(store), m, dm - d) in ns
  }

  lemma UnderSomeSplits(store: Store, ns: seq<Name>, d: nat, m: Name, dm: nat)
    requires ns != [] && Sorted(ns)
    ensures UnderSome(store, ns, d, m, dm) <==> Under(store, ns[0], d, m, dm) || UnderSome(store, ns[1..], d, m, dm)
    ensures !(Under(store, ns[0], d, m, dm) && UnderSome(store, ns[1..], d, m, dm))
  {
    NotLessThanItself(ns[0]);
    assert ns == [ns[0]] + ns[1..];
  }

  lemma UnderKids(store: Store, kids: seq<Name>, n: Name, d: nat, m: Name, dm: nat)
    requires ParentForest(store) && IsKidList(store, kids, n) && AtDepth(store, n, d) && AtDepth(store, m, dm)
    ensures Under(store, n, d, m, dm) <==> n == m || UnderSome(store, kids, d + 1, m, dm)
    ensures !(n == m && UnderSome(store, kids, d + 1, m, dm))
  {
    SameNameSameDepth(store, n, d, m, dm);
    if dm > d { AncestorIsKid(store, kids, n, m, dm, d); }
  }

  lemma CountOfShow(store: Store, childMap: ChildMap, n: Name, indent: seq<bool>, last: bool, d: nat, m: Name)
    requires ParentForest(store) && IsChildMap(store, childMap) && AtDepth(store, n, d)
    ensures AllAtDepth(store, Lookup(childMap, n), d + 1) && d <= |store|
    ensures Count(Show(store, childMap, n, indent, last, d), m) ==
            (if n == m then 1 else 0) +
            Count(ShowAll(store, childMap, Lookup(childMap, n), indent + [last], d + 1), m)
  {
    DepthBound(store, n, d);
    KidsAreDeeper(store, Lookup(childMap, n), n, d);
    var rest := ShowAll(store, childMap, Lookup(childMap, n), indent + [last], d + 1);
    CountAdds([Line(indent, last, n)], rest, m);
    assert [Line(indent, last, n)][1..] == [];
  }

  lemma CountOfShowAll(store: Store, childMap: ChildMap, ns: seq<Name>, indent: seq<bool>, d: nat, m: Name)
    requires ParentForest(store) && IsChildMap(store, childMap) && AllAtDepth(store, ns, d) && d <= |store| + 1
    requires ns != []
    ensures Count(ShowAll(store, childMap, ns, indent, d), m) ==
            Count(Show(store, childMap, ns[0], indent, |ns| == 1, d), m) +
            Count(ShowAll(store, childMap, ns[1..], indent, d), m)
  {
    CountAdds(Show(store, childMap, ns[0], indent, |ns| == 1, d), ShowAll(store, childMap, ns[1..], indent, d), m);
  }

  /** The tree of n shows m once if n is the ancestor of m at its depth, and else not at all. */
  lemma {:induction false} ShowCounts(store: Store, childMap: ChildMap, n: Name, indent: seq<bool>, last: bool, d: nat,
                                      m: Name, dm: nat)
    requires ParentForest(store) && IsChildMap(store, childMap) && AtDepth(store, n, d) && AtDepth(store, m, dm)
    ensures Count(Show(store, childMap, n, indent, last, d), m) == if Under(store, n, d, m, dm) then 1 else 0
    decreases |store| + 1 - d, 0
  {
    CountOfShow(store, childMap, n, indent, last, d, m);
    UnderKids(store, Lookup(childMap, n), n, d, m, dm);
    ShowAllCounts(store, childMap, Lookup(childMap, n), indent + [last], d + 1, m, dm);
  }

  lemma SameNameSameDepth(store: Store, n: Name, d: nat, m: Name, dm: nat)
    requires AtDepth(store, n, d) && AtDepth(store, m, dm) && "" !in store
    ensures n == m ==> d == dm
  {
    if n == m && d < dm { UpStays(ParentLinks(store), n, d, dm - 1); }
    if n == m && dm < d { UpStays(ParentLinks(store), n, dm, d - 1); }
  }

  /** The ancestor at depth d + 1 is a child of n if and only if the one at depth d is n. */
  lemma AncestorIsKid(store: Store, kids: seq<Name>, n: Name, m: Name, dm: nat, d: nat)
    requires ParentForest(store) && IsKidList(store, kids, n) && n in store && AtDepth(store, m, dm) && 0 < d < dm
    ensures Up(ParentLinks(store), m, dm - d - 1) in kids <==> Up(ParentLinks(store), m, dm - d) == n
  {
    var links := ParentLinks(store);
    var c := Up(links, m, dm - d - 1);
    assert c in links by {
      if c !in links { UpStays(links, m, dm - d - 1, dm); UpStays(links, m, dm - d - 1, dm - 1); }
    }
    UpStep(links, m, dm - d - 1);
  }

  lemma {:induction false} ShowAllCounts(store: Store, childMap: ChildMap, ns: seq<Name>, indent: seq<bool>, d: nat,
                                         m: Name, dm: nat)
    requires ParentForest(store) && IsChildMap(store, childMap) && AtDepth(store, m, dm)
    requires AllAtDepth(store, ns, d) && d <= |store| + 1 && Sorted(ns)
    ensures Count(ShowAll(store, childMap, ns, indent, d), m) == if UnderSome(store, ns, d, m, dm) then 1 else 0
    decreases |store| + 1 - d, 1, |ns|
  {
    if ns != [] {
      CountOfShowAll(store, childMap, ns, indent, d, m);
      ShowCounts(store, childMap, ns[0], indent, |ns| == 1, d, m, dm);
      ShowAllCounts(store, childMap, ns[1..], indent, d, m, dm);
      UnderSomeSplits(store, ns, d, m, dm);
    }
  }

  lemma {:induction false} DepthOf(store: Store, m: Name, k: nat) returns (d: nat)
    requires ParentForest(store) && m in store && Up(ParentLinks(store), m, k) == ""
    ensures AtDepth(store, m, d)
    decreases k
  {
    if IsSub(store[m]) {
      assert HasParent(store, m);
      d := DepthOf(store, ParentOf(store[m]), k - 1);
      d := d + 1;
    } else {
      d := 1;
      assert Up(ParentLinks(store), m, 1) == Up(ParentLinks(store), "", 0);
    }
  }

  /** The topmost ancestor is a root exactly for roots and sub-namespaces. */
  lemma {:induction false} TopIsRoot(store: Store, roots: seq<Name>, m: Name, dm: nat)
    requires ParentForest(store) && IsRootList(store, roots) && AtDepth(store, m, dm)
    ensures UnderSome(store, roots, 1, m, dm) <==> CanHaveSubs(store[m])
    decreases dm
  {
    var links := ParentLinks(store);
    if IsSub(store[m]) {
      var p := ParentOf(store[m]);
      assert HasParent(store, m);
      assert Up(links, m, 1) == Up(links, p, 0);
      assert AtDepth(store, p, dm - 1);
      TopIsRoot(store, roots, p, dm - 1);
      assert Up(links, m, dm - 1) == Up(links, p, dm - 2);
    } else {
      assert Up(links, m, 1) == "";
      if dm > 1 { UpStays(links, m, 1, dm - 1); }
    }
  }

  lemma {:induction false} ShowsExisting(store: Store, childMap: ChildMap, n: Name, indent: seq<bool>, last: bool,
                                         d: nat, m: Name)
    requires ParentForest(store) && IsChildMap(store, childMap) && AtDepth(store, n, d) && m !in store
    ensures Count(Show(store, childMap, n, indent, last, d), m) == 0
    decreases |store| + 1 - d, 0
  {
    CountOfShow(store, childMap, n, indent, last, d, m);
    ShowsAllExisting(store, childMap, Lookup(childMap, n), indent + [last], d + 1, m);
  }

  lemma {:induction false} ShowsAllExisting(store: Store, childMap: ChildMap, ns: seq<Name>, indent: seq<bool>, d: nat,
                                            m: Name)
    requires ParentForest(store) && IsChildMap(store, childMap) && AllAtDepth(store, ns, d)
    requires d <= |store| + 1 && m !in store
    ensures Count(ShowAll(store, childMap, ns, indent, d), m) == 0
    decreases |store| + 1 - d, 1, |ns|
  {
    if ns != [] {
      CountOfShowAll(store, childMap, ns, indent, d, m);
      ShowsExisting(store, childMap, ns[0], indent, |ns| == 1, d, m);
      ShowsAllExisting(store, childMap, ns[1..], indent, d, m);
    }
  }

  /** Every root and every sub-namespace is printed exactly once, and nothing else is. */
  lemma PrintedOnce(store: Store, childMap: ChildMap, roots: seq<Name>, m: Name)
    requires ParentForest(store) && IsChildMap(store, childMap) && IsRootList(store, roots)
    ensures Count(Output(store, childMap, roots), m) == if m in store && CanHaveSubs(store[m]) then 1 else 0
  {
    RootsAreTop(store, roots);
    if m in store {
      assert Ends(ParentLinks(store), m);
      var k: nat :| Up(ParentLinks(store), m, k) == "";
      var dm := DepthOf(store, m, k);
      ShowAllCounts(store, childMap, roots, [], 1, m, dm);
      TopIsRoot(store, roots, m, dm);
    } else {
      ShowsAllExisting(store, childMap, roots, [], 1, m);
    }
  }

  /** Line j is the closest line above line i that is indented less; it shows the parent, and
      the indentation of i is that of j and a column for j. */
  ghost predicate IsParentLine(store: Store, lines: seq<Line>, j: int, i: int)
    requires 0 <= j < i < |lines|
  {
    && lines[i].name in store && ParentOf(store[lines[i].name]) == lines[j].name
    && lines[i].indent == lines[j].indent + [lines[j].last]
    && forall t | j < t < i :: |lines[t].indent| > |lines[j].indent|
  }

  /** Lines i and j belong to the same parent. */
  ghost predicate AreSiblings(lines: seq<Line>, i: int, j: int)
    requires 0 <= i < j < |lines|
  {
    |lines[i].indent| == |lines[j].indent| && forall t | i < t < j :: |lines[t].indent| >= |lines[i].indent|
  }

  /** The least indented lines are at `indent`, and show names of ns; the first line is one. */
  ghost predicate StartsAt(lines: seq<Line>, indent: seq<bool>, ns: seq<Name>) {
    && (lines != [] ==> |lines[0].indent| == |indent|)
    && (forall i | 0 <= i < |lines| :: |lines[i].indent| >= |indent|)
    && (forall i | 0 <= i < |lines| && |lines[i].indent| == |indent| ::
          lines[i].indent == indent && lines[i].name in ns)
  }

  ghost predicate HasParentLine(store: Store, lines: seq<Line>, i: int)
    requires 0 <= i < |lines|
  {
    exists j | 0 <= j < i :: IsParentLine(store, lines, j, i)
  }

  /** Every further indented line is printed below its parent. */
  ghost predicate Nested(store: Store, lines: seq<Line>, indent: seq<bool>) {
    forall i | 0 <= i < |lines| && |lines[i].indent| > |indent| :: HasParentLine(store, lines, i)
  }

  /** Siblings are in the order of names. */
  ghost predicate Ordered(lines: seq<Line>) {
    forall i, j | 0 <= i < j < |lines| && AreSiblings(lines, i, j) :: Less(lines[i].name, lines[j].name)
  }

  ghost predicate Tidy(store: Store, lines: seq<Line>, indent: seq<bool>, ns: seq<Name>) {
    StartsAt(lines, indent, ns) && Nested(store, lines, indent) && Ordered(lines)
  }

  /** Lines keep their relations when other lines are put before and after them. */
  lemma Embedded(store: Store, before: seq<Line>, lines: seq<Line>, after: seq<Line>, i: int)
    requires 0 <= i < |lines|
    ensures HasParentLine(store, lines, i) ==> HasParentLine(store, before + lines + after, |before| + i)
  {
    var all := before + lines + after;
    if HasParentLine(store, lines, i) {
      var j :| 0 <= j < i && IsParentLine(store, lines, j, i);
      assert forall t | |before| + j <= t <= |before| + i :: all[t] == lines[t - |before|];
      assert IsParentLine(store, all, |before| + j, |before| + i);
    }
  }

  lemma SiblingsEmbedded(before: seq<Line>, lines: seq<Line>, after: seq<Line>, i: int, j: int)
    requires 0 <= i < j < |lines|
    requires AreSiblings(before + lines + after, |before| + i, |before| + j)
    ensures AreSiblings(lines, i, j)
  {
    var all := before + lines + after;
    forall t | i < t < j ensures |lines[t].indent| >= |lines[i].indent| {
      assert lines[t] == all[|before| + t];
    }
  }

  lemma OrderedEmbedded(before: seq<Line>, lines: seq<Line>, after: seq<Line>, i: int, j: int)
    requires Ordered(lines) && |before| <= i < j < |before| + |lines|
    requires AreSiblings(before + lines + after, i, j)
    ensures Less((before + lines + after)[i].name, (before + lines + after)[j].name)
  {
    SiblingsEmbedded(before, lines, after, i - |before|, j - |before|);
  }

  lemma TopIsParent(store: Store, line: Line, rest: seq<Line>, kids: seq<Name>, i: nat)
    requires StartsAt(rest, line.indent + [line.last], kids) && i < |rest|
    requires |rest[i].indent| == |line.indent| + 1
    requires forall n | n in kids :: n in store && ParentOf(store[n]) == line.name
    ensures HasParentLine(store, [line] + rest, i + 1)
  {
    var all := [line] + rest;
    assert forall t | 0 < t <= i + 1 :: all[t] == rest[t - 1];
    assert IsParentLine(store, all, 0, i + 1);
  }

  lemma BelowKeepsParent(store: Store, line: Line, rest: seq<Line>, i: nat)
    requires i < |rest| && HasParentLine(store, rest, i)
    ensures HasParentLine(store, [line] + rest, i + 1)
  {
    Embedded(store, [line], rest, [], i);
    assert [line] + rest + [] == [line] + rest;
  }

  lemma TreeIsNested(store: Store, line: Line, rest: seq<Line>, kids: seq<Name>)
    requires StartsAt(rest, line.indent + [line.last], kids) && Nested(store, rest, line.indent + [line.last])
    requires forall n | n in kids :: n in store && ParentOf(store[n]) == line.name
    ensures Nested(store, [line] + rest, line.indent)
  {
    forall i | 0 < i < |[line] + rest| ensures HasParentLine(store, [line] + rest, i) {
      if |rest[i - 1].indent| == |line.indent| + 1 {
        TopIsParent(store, line, rest, kids, i - 1);
      } else {
        BelowKeepsParent(store, line, rest, i - 1);
      }
    }
  }

  lemma TopHasNoSibling(line: Line, rest: seq<Line>, j: int)
    requires 0 < j <= |rest| && |rest[j - 1].indent| > |line.indent|
    ensures !AreSiblings([line] + rest, 0, j)
  {
  }

  /** A line on top of tidy lines for the children is tidy. */
  lemma TidyTree(store: Store, line: Line, rest: seq<Line>, kids: seq<Name>)
    requires Tidy(store, rest, line.indent + [line.last], kids)
    requires forall n | n in kids :: n in store && ParentOf(store[n]) == line.name
    ensures TidyTreeOf(store, [line] + rest, line.indent, line.name)
  {
    var all := [line] + rest;
    TreeIsNested(store, line, rest, kids);
    assert [line] + rest + [] == all;
    forall i, j | 0 <= i < j < |all| && AreSiblings(all, i, j) ensures Less(all[i].name, all[j].name) {
      if i == 0 {
        TopHasNoSibling(line, rest, j);
      } else {
        OrderedEmbedded([line], rest, [], i, j);
      }
    }
  }

  lemma AppendIsNested(store: Store, a: seq<Line>, b: seq<Line>, indent: seq<bool>)
    requires Nested(store, a, indent) && Nested(store, b, indent)
    ensures Nested(store, a + b, indent)
  {
    var all := a + b;
    assert [] + a + b == all && a + b + [] == all;
    forall i | 0 <= i < |all| && |all[i].indent| > |indent| ensures HasParentLine(store, all, i) {
      if i < |a| {
        assert HasParentLine(store, a, i);
        Embedded(store, [], a, b, i);
      } else {
        assert HasParentLine(store, b, i - |a|);
        Embedded(store, a, b, [], i - |a|);
      }
    }
  }

  lemma AppendIsOrdered(a: seq<Line>, b: seq<Line>, indent: seq<bool>, n: Name, ns: seq<Name>)
    requires StartsAt(a, indent, [n]) && StartsAt(b, indent, ns) && Ordered(a) && Ordered(b)
    requires a != [] && forall i | 0 < i < |a| :: |a[i].indent| > |indent|
    requires forall x | x in ns :: Less(n, x)
    ensures Ordered(a + b)
  {
    var all := a + b;
    assert [] + a + b == all && a + b + [] == all;
    forall i, j | 0 <= i < j < |all| && AreSiblings(all, i, j) ensures Less(all[i].name, all[j].name) {
      if j < |a| {
        OrderedEmbedded([], a, b, i, j);
      } else if i >= |a| {
        OrderedEmbedded(a, b, [], i, j);
      } else {
        assert all[|a|] == b[0] && all[j] == b[j - |a|] && all[i] == a[i];
      }
    }
  }

  /** Tidy lines of which only the first, for n, is at the least indentation. */
  ghost predicate TidyTreeOf(store: Store, lines: seq<Line>, indent: seq<bool>, n: Name) {
    lines != [] && Tidy(store, lines, indent, [n]) && forall i | 0 < i < |lines| :: |lines[i].indent| > |indent|
  }

  /** Tidy lines for the first name, and tidy lines for the others, are tidy together. */
  lemma TidyAppend(store: Store, a: seq<Line>, b: seq<Line>, indent: seq<bool>, ns: seq<Name>)
    requires ns != [] && Sorted(ns)
    requires TidyTreeOf(store, a, indent, ns[0]) && Tidy(store, b, indent, ns[1..])
    ensures Tidy(store, a + b, indent, ns)
  {
    AppendIsNested(store, a, b, indent);
    AppendIsOrdered(a, b, indent, ns[0], ns[1..]);
  }

  lemma {:induction false} ShowIsTidy(store: Store, childMap: ChildMap, n: Name, indent: seq<bool>, last: bool, d: nat)
    requires ParentForest(store) && IsChildMap(store, childMap) && AtDepth(store, n, d)
    ensures TidyTreeOf(store, Show(store, childMap, n, indent, last, d), indent, n)
    decreases |store| + 1 - d, 0
  {
    var kids := Lookup(childMap, n);
    DepthBound(store, n, d);
    KidsAreDeeper(store, kids, n, d);
    ShowAllIsTidy(store, childMap, kids, indent + [last], d + 1);
    TidyTree(store, Line(indent, last, n), ShowAll(store, childMap, kids, indent + [last], d + 1), kids);
  }

  lemma {:induction false} ShowAllIsTidy(store: Store, childMap: ChildMap, ns: seq<Name>, indent: seq<bool>, d: nat)
    requires ParentForest(store) && IsChildMap(store, childMap)
    requires AllAtDepth(store, ns, d) && d <= |store| + 1 && Sorted(ns)
    ensures Tidy(store, ShowAll(store, childMap, ns, indent, d), indent, ns)
    decreases |store| + 1 - d, 1, |ns|
  {
    if ns == [] {
      NothingIsTidy(store, indent);
    } else {
      ShowIsTidy(store, childMap, ns[0], indent, |ns| == 1, d);
      ShowAllIsTidy(store, childMap, ns[1..], indent, d);
      TidyAppend(store, Show(store, childMap, ns[0], indent, |ns| == 1, d),
                 ShowAll(store, childMap, ns[1..], indent, d), indent, ns);
    }
  }

  lemma NothingIsTidy(store: Store, indent: seq<bool>)
    ensures Tidy(store, [], indent, [])
  {
  }

  /** The output is tidy: not indented are the roots, every other line is below that of its
      parent, and siblings are in the order of their names. */
  lemma OutputIsTidy(store: Store, childMap: ChildMap, roots: seq<Name>)
    requires ParentForest(store) && IsChildMap(store, childMap) && IsRootList(store, roots)
    ensures Tidy(store, Output(store, childMap, roots), [], roots)
  {
    RootsAreTop(store, roots);
    ShowAllIsTidy(store, childMap, roots, [], 1);
  }

  ghost predicate HasLaterSibling(lines: seq<Line>, i: int)
    requires 0 <= i < |lines|
  {
    exists j | i < j < |lines| :: AreSiblings(lines, i, j)
  }

  /** A line is marked as the last of its siblings exactly if it is. */
  ghost predicate LastIsRight(lines: seq<Line>, i: int)
    requires 0 <= i < |lines|
  {
    lines[i].last <==> !HasLaterSibling(lines, i)
  }

  ghost predicate LastsAreRight(lines: seq<Line>, i: nat) {
    forall k {:trigger LastIsRight(lines, k)} | i <= k < |lines| :: LastIsRight(lines, k)
  }

  /** Lines that are less indented keep those before and after them apart. */
  lemma LastEmbedded(before: seq<Line>, lines: seq<Line>, after: seq<Line>, i: nat)
    requires i < |lines| && LastIsRight(lines, i)
    requires after == [] || |after[0].indent| < |lines[i].indent|
    ensures LastIsRight(before + lines + after, |before| + i)
  {
    var all, i' := before + lines + after, |before| + i;
    assert all[i'] == lines[i];
    if j :| i < j < |lines| && AreSiblings(lines, i, j) {
      assert forall t | i' < t <= |before| + j :: all[t] == lines[t - |before|];
      assert AreSiblings(all, i', |before| + j);
    }
    if j :| i' < j < |all| && AreSiblings(all, i', j) {
      if j < |before| + |lines| {
        SiblingsEmbedded(before, lines, after, i, j - |before|);
      } else {
        assert all[|before| + |lines|] == after[0];
      }
    }
  }

  lemma TreeLasts(line: Line, rest: seq<Line>)
    requires LastsAreRight(rest, 0)
    ensures LastsAreRight([line] + rest, 1)
  {
    var all := [line] + rest;
    assert [line] + rest + [] == all;
    forall k | 1 <= k < |all| ensures LastIsRight(all, k) {
      assert LastIsRight(rest, k - 1);
      LastEmbedded([line], rest, [], k - 1);
    }
  }

  lemma FirstLast(a: seq<Line>, b: seq<Line>)
    requires a != [] && forall i | 0 < i < |a| :: |a[i].indent| > |a[0].indent|
    requires b == [] || |b[0].indent| == |a[0].indent|
    ensures HasLaterSibling(a + b, 0) <==> b != []
  {
    if b != [] {
      assert (a + b)[|a|] == b[0];
      assert AreSiblings(a + b, 0, |a|);
    }
  }

  lemma AppendLasts(a: seq<Line>, b: seq<Line>)
    requires LastsAreRight(a, 1) && LastsAreRight(b, 0)
    requires a != [] && forall i | 0 < i < |a| :: |a[i].indent| > |a[0].indent|
    requires b == [] || |b[0].indent| == |a[0].indent|
    requires a[0].last <==> b == []
    ensures LastsAreRight(a + b, 0)
  {
    var all := a + b;
    assert [] + a + b == all && a + b + [] == all;
    forall k | 0 <= k < |all| ensures LastIsRight(all, k) {
      if k == 0 {
        FirstLast(a, b);
      } else if k < |a| {
        assert LastIsRight(a, k);
        LastEmbedded([], a, b, k);
      } else {
        assert LastIsRight(b, k - |a|);
        LastEmbedded(a, b, [], k - |a|);
      }
    }
  }

  lemma {:induction false} ShowLasts(store: Store, childMap: ChildMap, n: Name, indent: seq<bool>, last: bool, d: nat)
    requires ParentForest(store) && IsChildMap(store, childMap) && AtDepth(store, n, d)
    ensures var lines := Show(store, childMap, n, indent, last, d);
            LastsAreRight(lines, 1) && lines != [] && lines[0] == Line(indent, last, n)
    decreases |store| + 1 - d, 0
  {
    var kids := Lookup(childMap, n);
    DepthBound(store, n, d);
    KidsAreDeeper(store, kids, n, d);
    ShowAllLasts(store, childMap, kids, indent + [last], d + 1);
    TreeLasts(Line(indent, last, n), ShowAll(store, childMap, kids, indent + [last], d + 1));
  }

  lemma {:induction false} ShowAllLasts(store: Store, childMap: ChildMap, ns: seq<Name>, indent: seq<bool>, d: nat)
    requires ParentForest(store) && IsChildMap(store, childMap)
    requires AllAtDepth(store, ns, d) && d <= |store| + 1 && Sorted(ns)
    ensures var lines := ShowAll(store, childMap, ns, indent, d);
            LastsAreRight(lines, 0) && (lines == [] <==> ns == []) && (lines != [] ==> lines[0].indent == indent)
    decreases |store| + 1 - d, 1, |ns|
  {
    if ns != [] {
      var a := Show(store, childMap, ns[0], indent, |ns| == 1, d);
      var b := ShowAll(store, childMap, ns[1..], indent, d);
      ShowLasts(store, childMap, ns[0], indent, |ns| == 1, d);
      ShowIsTidy(store, childMap, ns[0], indent, |ns| == 1, d);
      ShowAllLasts(store, childMap, ns[1..], indent, d);
      AppendLasts(a, b);
    }
  }

  /** In the output the last of all siblings are marked as such, and no others. */
  lemma LastsAreMarked(store: Store, childMap: ChildMap, roots: seq<Name>)
    requires ParentForest(store) && IsChildMap(store, childMap) && IsRootList(store, roots)
    ensures LastsAreRight(Output(store, childMap, roots), 0)
  {
    RootsAreTop(store, roots);
    ShowAllLasts(store, childMap, roots, [], 1);
  }

  /** The command without a root argument, on the sorted list of all namespaces. */
  method Run(store: Store, names: seq<Name>) returns (lines: seq<Line>)
    requires ParentForest(store) && IsListing(store, names)
    ensures forall m :: Count(lines, m) == if m in store && CanHaveSubs(store[m]) then 1 else 0
    ensures exists roots :: IsRootList(store, roots) && Tidy(store, lines, [], roots)
    ensures LastsAreRight(lines, 0)
  {
    var childMap := FillChildMap(store, names);
    var roots := CollectRoots(store, names);
    RootsAreTop(store, roots);
    lines := ShowAll(store, childMap, roots, [], 1);
    forall m ensures Count(lines, m) == if m in store && CanHaveSubs(store[m]) then 1 else 0 {
      PrintedOnce(store, childMap, roots, m);
    }
    OutputIsTidy(store, childMap, roots);
    LastsAreMarked(store, childMap, roots);
  }
}
