/** Walking upwards through a finite map of links.  The empty name means "no link". */
module Chains {
  import opened Meta

  type Links = map<Name, Name>

  /** The name reached after k steps; a name without an entry is never left. */
  ghost function Up(links: Links, n: Name, k: nat): Name
    decreases k
  {
    if k == 0 || n !in links then n else Up(links, links[n], k - 1)
  }

  /** The walk runs out of links at the empty name. */
  ghost predicate Ends(links: Links, n: Name) {
    exists k: nat :: Up(links, n, k) == ""
  }

  ghost predicate AllWalksEnd(links: Links) {
    forall n {:trigger Ends(links, n)} | n in links :: Ends(links, n)
  }

  /** The walk arrives at a name that is not in the map. */
  ghost predicate Leaves(links: Links, n: Name) {
    exists k: nat :: Up(links, n, k) != "" && Up(links, n, k) !in links
  }

  /** The walk visits a name twice. */
  ghost predicate Repeats(links: Links, n: Name) {
    exists i: nat, j: nat :: Revisits(links, n, i, j)
  }

  ghost predicate Revisits(links: Links, n: Name, i: nat, j: nat) {
    i < j && Up(links, n, i) in links && Up(links, n, i) == Up(links, n, j)
  }

  lemma {:induction false} UpStep(links: Links, n: Name, k: nat)
    ensures Up(links, n, k) in links ==> Up(links, n, k + 1) == links[Up(links, n, k)]
    ensures Up(links, n, k) !in links ==> Up(links, n, k + 1) == Up(links, n, k)
    decreases k
  {
    if k > 0 && n in links {
      UpStep(links, links[n], k - 1);
    }
  }

  /** Once outside the map, always at the same name. */
  lemma {:induction false} UpStays(links: Links, n: Name, i: nat, j: nat)
    requires i <= j && Up(links, n, i) !in links
    ensures Up(links, n, j) == Up(links, n, i)
  {
    if i < j {
      UpStays(links, n, i, j - 1);
      UpStep(links, n, j - 1);
    }
  }

  /** A visited name determines everything that follows it. */
  lemma {:induction false} UpShift(links: Links, n: Name, i: nat, j: nat, d: nat)
    requires Up(links, n, i) == Up(links, n, j)
    ensures Up(links, n, i + d) == Up(links, n, j + d)
  {
    if d > 0 {
      UpShift(links, n, i, j, d - 1);
      UpStep(links, n, i + d - 1);
      UpStep(links, n, j + d - 1);
    }
  }

  /** A walk that visits a name twice never gets out of the map. */
  lemma {:induction false} RepeatsNeverStops(links: Links, n: Name, i: nat, j: nat, k: nat)
    requires Revisits(links, n, i, j)
    ensures Up(links, n, k) in links
    decreases k
  {
    if Up(links, n, k) !in links {
      if k <= j {
        UpStays(links, n, k, j);
      } else {
        UpShift(links, n, i, j, k - j);
        RepeatsNeverStops(links, n, i, j, i + (k - j));
      }
    }
  }

  /** The three outcomes of a walk exclude each other. */
  lemma OutcomesExclusive(links: Links, n: Name)
    requires "" !in links
    ensures !(Ends(links, n) && Leaves(links, n))
    ensures !(Ends(links, n) && Repeats(links, n))
    ensures !(Leaves(links, n) && Repeats(links, n))
  {
    if i: nat, j: nat :| Up(links, n, i) == "" && Up(links, n, j) != "" && Up(links, n, j) !in links {
      if i <= j { UpStays(links, n, i, j); } else { UpStays(links, n, j, i); }
    }
    if i: nat, j: nat :| Revisits(links, n, i, j) {
      forall k: nat ensures Up(links, n, k) in links { RepeatsNeverStops(links, n, i, j, k); }
    }
  }

  /** The first k names of a walk. */
  ghost function Visited(links: Links, n: Name, k: nat): set<Name> {
    if k == 0 then {} else Visited(links, n, k - 1) + {Up(links, n, k - 1)}
  }

  lemma {:induction false} VisitedHas(links: Links, n: Name, k: nat, i: nat)
    requires i < k
    ensures Up(links, n, i) in Visited(links, n, k)
  {
    if i < k - 1 { VisitedHas(links, n, k - 1, i); }
  }

  lemma {:induction false} VisitedPosition(links: Links, n: Name, k: nat, x: Name) returns (i: nat)
    requires x in Visited(links, n, k)
    ensures i < k && Up(links, n, i) == x
  {
    if x == Up(links, n, k - 1) { i := k - 1; } else { i := VisitedPosition(links, n, k - 1, x); }
  }

  /** The walk is somewhere new at position j. */
  ghost predicate NewAt(links: Links, n: Name, j: nat) {
    Up(links, n, j) !in Visited(links, n, j)
  }

  /** Without a repetition k names are visited in the first k positions. */
  lemma {:induction false} VisitedSize(links: Links, n: Name, k: nat)
    requires forall j: nat | j < k :: NewAt(links, n, j)
    ensures |Visited(links, n, k)| == k
  {
    if k > 0 {
      VisitedSize(links, n, k - 1);
      assert NewAt(links, n, k - 1);
    }
  }

  lemma {:induction false} SubsetSize<T>(a: set<T>, b: set<T>)
    requires a <= b
    ensures |a| <= |b|
  {
    assert b == a + (b - a);
  }

  lemma NotNewRepeats(links: Links, n: Name, j: nat)
    requires !NewAt(links, n, j) && Up(links, n, j) in links
    ensures Repeats(links, n)
  {
    var i := VisitedPosition(links, n, j, Up(links, n, j));
    assert Revisits(links, n, i, j);
  }

  /** Within as many steps as there are names a walk has left the map or met itself. */
  lemma StopsOrRepeats(links: Links, n: Name)
    ensures Up(links, n, |links|) !in links || Repeats(links, n)
  {
    if Up(links, n, |links|) in links && !Repeats(links, n) {
      forall i: nat | i <= |links| ensures Up(links, n, i) in links {
        if Up(links, n, i) !in links { UpStays(links, n, i, |links|); }
      }
      forall j: nat | j <= |links| ensures NewAt(links, n, j) {
        if !NewAt(links, n, j) { NotNewRepeats(links, n, j); }
      }
      VisitedSize(links, n, |links| + 1);
      forall x | x in Visited(links, n, |links| + 1) ensures x in links {
        var i := VisitedPosition(links, n, |links| + 1, x);
      }
      SubsetSize(Visited(links, n, |links| + 1), links.Keys);
    }
  }

  lemma OutcomesExhaustive(links: Links, n: Name)
    ensures Ends(links, n) || Leaves(links, n) || Repeats(links, n)
  {
    StopsOrRepeats(links, n);
  }

  /** A walk that ends does so within as many steps as there are names. */
  lemma EndsSoon(links: Links, n: Name)
    requires "" !in links && Ends(links, n)
    ensures Up(links, n, |links|) == ""
  {
    OutcomesExclusive(links, n);
    StopsOrRepeats(links, n);
  }

  /** Ending is inherited from the next name, and passed on to it. */
  lemma EndsNext(links: Links, n: Name)
    requires n in links && n != ""
    ensures Ends(links, n) <==> Ends(links, links[n])
  {
    if k: nat :| Up(links, n, k) == "" { assert Up(links, links[n], k - 1) == ""; }
    if k: nat :| Up(links, links[n], k) == "" { assert Up(links, n, k + 1) == ""; }
  }

  lemma EndsAtTop(links: Links)
    ensures Ends(links, "")
  {
    assert Up(links, "", 0) == "";
  }

  /** Re-linking one name keeps every walk finite when the new walk from that name is. */
  lemma {:induction false} RelinkEnds(links: Links, links': Links, n: Name, m: Name, k: nat)
    requires "" !in links && "" !in links'
    requires links.Keys <= links'.Keys
    requires forall x | x in links && x != n :: links'[x] == links[x]
    requires n in links ==> Ends(links', n)
    requires Up(links, m, k) == ""
    ensures Ends(links', m)
    decreases k
  {
    if m == "" {
      EndsAtTop(links');
    } else if m != n {
      RelinkEnds(links, links', n, links[m], k - 1);
      EndsNext(links', m);
    }
  }

  /** Removing a name that nothing links to keeps every other walk finite. */
  lemma {:induction false} UnlinkEnds(links: Links, n: Name, m: Name, k: nat)
    requires "" !in links && m != n
    requires forall x | x in links && x != n :: links[x] != n
    requires Up(links, m, k) == ""
    ensures Ends(links - {n}, m)
    decreases k
  {
    if m == "" {
      EndsAtTop(links - {n});
    } else {
      UnlinkEnds(links, n, links[m], k - 1);
      EndsNext(links - {n}, m);
    }
  }

  /** A walk along links that stop earlier, but agree until then, ends too. */
  lemma {:induction false} PrefixEnds(links: Links, shorter: Links, m: Name, k: nat)
    requires "" !in links && links.Keys == shorter.Keys
    requires forall x | x in links :: shorter[x] == links[x] || shorter[x] == ""
    requires Up(links, m, k) == ""
    ensures Up(shorter, m, k) == ""
    decreases k
  {
    if m != "" && shorter[m] != "" {
      PrefixEnds(links, shorter, links[m], k - 1);
    } else if m != "" {
      UpStays(shorter, m, 1, k);
    }
  }

  lemma NoSelfLink(links: Links, n: Name)
    requires "" !in links && n in links && Ends(links, n)
    ensures links[n] != n
  {
    if links[n] == n {
      assert Up(links, n, 1) == Up(links, n, 0);
      assert Revisits(links, n, 0, 1);
      OutcomesExclusive(links, n);
    }
  }
}
