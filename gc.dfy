/** Mark-and-sweep garbage collection of the cache mount: colour every key
    reachable from the pin roots, then delete the uncoloured keys of mount 0. */
module GarbageCollector {
  import opened Base
  import opened MultiStore

  /** The offline link service: the links of every node available locally,
      and the keys whose links cannot be read, with the error.  A key in
      neither map is NotFound. */
  datatype LinkService = LinkService(links: map<Key, seq<Key>>, faults: map<Key, Error>)

  function GetLinks(ls: LinkService, k: Key): (r: Result<seq<Key>, Error>)
    ensures r.Ok? ==> k in ls.links && r.value == ls.links[k]
  {
    if k in ls.faults then Err(ls.faults[k])
    else if k in ls.links then Ok(ls.links[k])
    else Err(NotFound)
  }

  /** The children a walk can see from k: its links when they can be read. */
  function Children(ls: LinkService, k: Key): seq<Key>
  {
    match GetLinks(ls, k)
    case Ok(cs) => cs
    case Err(_) => []
  }

  /** A walk may pass over k: its links are readable, or, in a best-effort
      walk, k is merely absent. */
  predicate Walkable(ls: LinkService, k: Key, bestEffort: bool)
  {
    GetLinks(ls, k).Ok? || (bestEffort && GetLinks(ls, k) == Err(NotFound))
  }

  /** Every key that is some node's child. */
  ghost function Universe(ls: LinkService): set<Key>
  {
    set k, c | k in ls.links && c in ls.links[k] :: c
  }

  /** All of k's visible children are in s. */
  ghost predicate ClosedAt(ls: LinkService, s: set<Key>, k: Key)
  {
    forall c :: c in Children(ls, k) ==> c in s
  }

  /** Every key of s outside x has all its visible children in s. */
  ghost predicate ClosedExcept(ls: LinkService, s: set<Key>, x: set<Key>)
  {
    forall k :: k in s && k !in x ==> ClosedAt(ls, s, k)
  }

  /** A chain of keys, each a visible child of the one before. */
  ghost predicate IsPath(ls: LinkService, p: seq<Key>)
  {
    |p| > 0 && forall i :: 0 <= i < |p| - 1 ==> p[i + 1] in Children(ls, p[i])
  }

  /** A set closed at every key it meets holds the end of every path that
      starts inside it and does not pass through an unclosed key. */
  lemma {:induction false} PathStaysInside(ls: LinkService, s: set<Key>, x: set<Key>, p: seq<Key>)
    requires ClosedExcept(ls, s, x)
    requires IsPath(ls, p) && p[0] in s
    requires forall i :: 0 <= i < |p| - 1 ==> p[i] !in x
    ensures p[|p| - 1] in s
  {
    if |p| > 1 {
      var q := p[..|p| - 1];
      assert IsPath(ls, q) by {
        forall i | 0 <= i < |q| - 1 ensures q[i + 1] in Children(ls, q[i]) {
          assert q[i] == p[i] && q[i + 1] == p[i + 1];
        }
      }
      PathStaysInside(ls, s, x, q);
      assert p[|p| - 1] in Children(ls, p[|p| - 2]);
    }
  }

  lemma ChildInUniverse(ls: LinkService, k: Key, c: Key)
    requires c in Children(ls, k)
    ensures c in Universe(ls)
  {
    assert k in ls.links && c in ls.links[k];
  }

  lemma UnvisitedShrinks(u: set<Key>, a: set<Key>, b: set<Key>, c: Key)
    requires a <= b && c in u && c in b && c !in a
    ensures |u - b| < |u - a|
  {
    assert u - b <= (u - a) - {c};
    assert |(u - a) - {c}| == |u - a| - 1;
    SubsetCard(u - b, (u - a) - {c});
  }

  lemma {:induction false} SubsetCard(x: set<Key>, y: set<Key>)
    requires x <= y
    ensures |x| <= |y|
    decreases |y|
  {
    if x != {} {
      var e :| e in x;
      SubsetCard(x - {e}, y - {e});
    }
  }

  /** p leads from a to k, and every key on it after a lies outside s: the
      shape of a walk from a that never enters a key already in s. */
  ghost predicate PathOutside(ls: LinkService, p: seq<Key>, a: Key, k: Key, s: set<Key>)
  {
    IsPath(ls, p) && p[0] == a && p[|p| - 1] == k && forall i :: 0 < i < |p| ==> p[i] !in s
  }

  ghost predicate ReachedOutside(ls: LinkService, a: Key, k: Key, s: set<Key>)
  {
    exists p :: PathOutside(ls, p, a, k, s)
  }

  /** k is one of the roots, or a walk from one of them reaches k without
      entering s. */
  ghost predicate ReachedFrom(ls: LinkService, roots: seq<Key>, k: Key, s: set<Key>)
  {
    k in roots || exists r :: r in roots && ReachedOutside(ls, r, k, s)
  }

  lemma ChildReached(ls: LinkService, a: Key, c: Key, s: set<Key>)
    requires c in Children(ls, a) && c !in s
    ensures ReachedOutside(ls, a, c, s)
  {
    assert PathOutside(ls, [a, c], a, c, s);
  }

  /** A walk from a child c that avoids s1 extends, through c, to a walk
      from a that avoids any s below s1 that c is outside of. */
  lemma ReachedThrough(ls: LinkService, a: Key, c: Key, k: Key, s: set<Key>, s1: set<Key>)
    requires c in Children(ls, a) && c !in s && s <= s1
    requires ReachedOutside(ls, c, k, s1)
    ensures ReachedOutside(ls, a, k, s)
  {
    var p :| PathOutside(ls, p, c, k, s1);
    var q := [a] + p;
    forall i | 0 <= i < |q| - 1 ensures q[i + 1] in Children(ls, q[i]) {
      if i > 0 {
        assert q[i] == p[i - 1] && q[i + 1] == p[i];
      }
    }
    forall i | 0 < i < |q| ensures q[i] !in s {
      assert q[i] == p[i - 1];
    }
    assert PathOutside(ls, q, a, k, s);
  }

  lemma ReachedWider(ls: LinkService, a: Key, k: Key, s: set<Key>, s1: set<Key>)
    requires s <= s1 && ReachedOutside(ls, a, k, s1)
    ensures ReachedOutside(ls, a, k, s)
  {
    var p :| PathOutside(ls, p, a, k, s1);
    assert PathOutside(ls, p, a, k, s);
  }

  /** A key set updated in place. */
  class KeySet {
    var elems: set<Key>

    constructor ()
      ensures elems == {}
    {
      elems := {};
    }

    function Has(k: Key): (b: bool)
      reads this
      ensures b <==> k in elems
    {
      k in elems
    }

    method Add(k: Key)
      modifies this
      ensures elems == old(elems) + {k}
    {
      elems := elems + {k};
    }
  }

  /** The visit callback of Descendants: descend into k only when it was not
      yet in the set, and put it there. */
  method Visit(set_: KeySet, k: Key) returns (descend: bool)
    modifies set_
    ensures set_.elems == old(set_.elems) + {k}
    ensures descend <==> k !in old(set_.elems)
  {
    var seen := set_.Has(k);
    if seen {
      return false;
    }
    set_.Add(k);
    return true;
  }

  /** The depth-first walk below root: each child is visited, and walked
      only when the visit reports it new.  A child already in the set is not
      walked again, so the walk ends on cyclic graphs.  In a best-effort walk
      a node that is not available locally is skipped. */
  method EnumerateChildren(ls: LinkService, root: Key, set_: KeySet, bestEffort: bool)
    returns (err: Option<Error>)
    modifies set_
    decreases |Universe(ls) - set_.elems|
    ensures old(set_.elems) <= set_.elems
    ensures err.None? ==> Walkable(ls, root, bestEffort) && ClosedAt(ls, set_.elems, root)
    ensures err.None? ==> forall k :: k in set_.elems - old(set_.elems) ==>
      Walkable(ls, k, bestEffort) && ClosedAt(ls, set_.elems, k)
    ensures err.Some? ==>
      exists k :: (k == root || k in set_.elems - old(set_.elems))
                  && !Walkable(ls, k, bestEffort) && GetLinks(ls, k) == Err(err.value)
    ensures forall k :: k in set_.elems - old(set_.elems) ==> ReachedOutside(ls, root, k, old(set_.elems))
  {
    var links := GetLinks(ls, root);
    if bestEffort && links == Err(NotFound) {
      return None;
    } else if links.Err? {
      assert !Walkable(ls, root, bestEffort);
      return Some(links.error);
    }
    ghost var s0 := set_.elems;
    var cs := links.value;
    var i := 0;
    while i < |cs|
      invariant 0 <= i <= |cs|
      invariant s0 <= set_.elems
      invariant forall j :: 0 <= j < i ==> cs[j] in set_.elems
      invariant forall k :: k in set_.elems - s0 ==> Walkable(ls, k, bestEffort) && ClosedAt(ls, set_.elems, k)
      invariant forall k :: k in set_.elems - s0 ==> ReachedOutside(ls, root, k, s0)
    {
      var c := cs[i];
      assert c in Children(ls, root);
      var descend := Visit(set_, c);
      if descend {
        ChildInUniverse(ls, root, c);
        ChildReached(ls, root, c, s0);
        UnvisitedShrinks(Universe(ls), s0, set_.elems, c);
        ghost var s1 := set_.elems;
        err := EnumerateChildren(ls, c, set_, bestEffort);
        forall k | k in set_.elems - s1 ensures ReachedOutside(ls, root, k, s0) {
          ReachedThrough(ls, root, c, k, s0, s1);
        }
        if err.Some? {
          ghost var k :| (k == c || k in set_.elems - s1) && !Walkable(ls, k, bestEffort) && GetLinks(ls, k) == Err(err.value);
          assert k in set_.elems - s0;
          return;
        }
        assert forall k :: k in s1 - s0 ==> k == c || k in set_.elems - s0;
      }
      i := i + 1;
    }
    err := None;
  }

  /** Adds the roots and everything the walk reaches from them. */
  method Descendants(ls: LinkService, set_: KeySet, roots: seq<Key>, bestEffort: bool)
    returns (err: Option<Error>)
    modifies set_
    ensures old(set_.elems) <= set_.elems
    ensures err.None? ==> forall r :: r in roots ==>
      r in set_.elems && Walkable(ls, r, bestEffort) && ClosedAt(ls, set_.elems, r)
    ensures err.None? ==> forall k :: k in set_.elems - old(set_.elems) ==>
      Walkable(ls, k, bestEffort) && ClosedAt(ls, set_.elems, k)
    ensures err.Some? ==>
      exists k :: ReachedFrom(ls, roots, k, old(set_.elems))
                  && !Walkable(ls, k, bestEffort) && GetLinks(ls, k) == Err(err.value)
    ensures forall k :: k in set_.elems - old(set_.elems) ==> ReachedFrom(ls, roots, k, old(set_.elems))
    ensures err.None? ==> Phase(ls, roots, bestEffort, old(set_.elems), set_.elems)
  {
    var i := 0;
    while i < |roots|
      invariant 0 <= i <= |roots|
      invariant old(set_.elems) <= set_.elems
      invariant forall j :: 0 <= j < i ==>
        roots[j] in set_.elems && Walkable(ls, roots[j], bestEffort) && ClosedAt(ls, set_.elems, roots[j])
      invariant forall k :: k in set_.elems - old(set_.elems) ==>
        Walkable(ls, k, bestEffort) && ClosedAt(ls, set_.elems, k)
      invariant forall k :: k in set_.elems - old(set_.elems) ==> ReachedFrom(ls, roots, k, old(set_.elems))
    {
      var c := roots[i];
      set_.Add(c);
      ghost var s1 := set_.elems;
      err := EnumerateChildren(ls, c, set_, bestEffort);
      forall k | k in set_.elems - s1 ensures ReachedFrom(ls, roots, k, old(set_.elems)) {
        ReachedWider(ls, c, k, old(set_.elems), s1);
      }
      if err.Some? {
        ghost var k :| (k == c || k in set_.elems - s1) && !Walkable(ls, k, bestEffort) && GetLinks(ls, k) == Err(err.value);
        assert ReachedFrom(ls, roots, k, old(set_.elems));
        return;
      }
      assert forall k :: k in s1 - old(set_.elems) ==> k == c || k in set_.elems - old(set_.elems);
      i := i + 1;
    }
    err := None;
  }

  /** The pinner's root collections. */
  datatype Pinner = Pinner(recursive: seq<Key>, direct: seq<Key>, internal: seq<Key>)

  /** The colouring a successful ColoredSet produces: every root is in it;
      every path from a recursive or best-effort root ends in it; every path
      from an internal root ends in it unless it passes through a direct pin
      (direct pins are coloured before the internal walk, which therefore
      does not descend below them). */
  ghost predicate Colored(ls: LinkService, pn: Pinner, bestEffortRoots: seq<Key>, c: set<Key>)
  {
    && (forall k :: k in pn.recursive ==> k in c)
    && (forall k :: k in bestEffortRoots ==> k in c)
    && (forall k :: k in pn.direct ==> k in c)
    && (forall k :: k in pn.internal ==> k in c)
    && (forall p :: IsPath(ls, p) && (p[0] in pn.recursive || p[0] in bestEffortRoots) ==> p[|p| - 1] in c)
    && (forall p :: IsPath(ls, p) && p[0] in pn.internal && (forall i :: 0 < i < |p| - 1 ==> p[i] !in pn.direct)
          ==> p[|p| - 1] in c)
  }

  /** The keys GC keeps: the pins and best-effort roots, the ends of paths
      from recursive and best-effort roots, and the ends of paths from
      internal roots that do not pass through a direct pin. */
  ghost predicate Marked(ls: LinkService, pn: Pinner, bestEffortRoots: seq<Key>, k: Key)
  {
    || k in pn.recursive || k in bestEffortRoots || k in pn.direct || k in pn.internal
    || (exists p :: IsPath(ls, p) && (p[0] in pn.recursive || p[0] in bestEffortRoots) && p[|p| - 1] == k)
    || (exists p :: IsPath(ls, p) && p[0] in pn.internal && (forall i :: 0 < i < |p| - 1 ==> p[i] !in pn.direct)
          && p[|p| - 1] == k)
  }

  /** The path by which a key is reached from the roots; a root is reached
      by the path that is just itself. */
  lemma PathFrom(ls: LinkService, roots: seq<Key>, k: Key, s: set<Key>) returns (p: seq<Key>)
    requires ReachedFrom(ls, roots, k, s)
    ensures |p| > 0 && PathOutside(ls, p, p[0], k, s) && p[0] in roots
  {
    if k in roots {
      p := [k];
    } else {
      var r :| r in roots && ReachedOutside(ls, r, k, s);
      p :| PathOutside(ls, p, r, k, s);
    }
  }

  /** k is the end of a path from one of the roots. */
  ghost predicate FromRoots(ls: LinkService, roots: seq<Key>, k: Key)
  {
    exists p :: IsPath(ls, p) && p[0] in roots && p[|p| - 1] == k
  }

  /** The keys coloured before the internal walk starts: the direct pins and
      every key reached from a recursive or best-effort root. */
  ghost predicate EarlyMarked(ls: LinkService, pn: Pinner, bestEffortRoots: seq<Key>, k: Key)
  {
    k in pn.direct || FromRoots(ls, pn.recursive, k) || FromRoots(ls, bestEffortRoots, k)
  }

  /** A path the internal walk follows: from an internal root, through keys
      that were not coloured before the internal walk started. */
  ghost predicate InternalWalk(ls: LinkService, pn: Pinner, bestEffortRoots: seq<Key>, p: seq<Key>)
  {
    IsPath(ls, p) && p[0] in pn.internal && forall i :: 0 < i < |p| ==> !EarlyMarked(ls, pn, bestEffortRoots, p[i])
  }

  /** Every key a strict walk of ColoredSet enters has readable links, and
      every key the best-effort walk enters has readable links or is absent. */
  ghost predicate WalksSucceed(ls: LinkService, pn: Pinner, bestEffortRoots: seq<Key>)
  {
    && (forall p :: IsPath(ls, p) && p[0] in pn.recursive ==> GetLinks(ls, p[|p| - 1]).Ok?)
    && (forall p :: IsPath(ls, p) && p[0] in bestEffortRoots ==> Walkable(ls, p[|p| - 1], true))
    && (forall p :: InternalWalk(ls, pn, bestEffortRoots, p) ==> GetLinks(ls, p[|p| - 1]).Ok?)
  }

  /** e is the links error of the key at the end of p, a key that one of
      ColoredSet's walks enters and cannot pass: any error in a strict walk,
      any error but absence in the best-effort walk. */
  ghost predicate WalkFailsAt(ls: LinkService, pn: Pinner, bestEffortRoots: seq<Key>, p: seq<Key>, e: Error)
  {
    && IsPath(ls, p) && GetLinks(ls, p[|p| - 1]) == Err(e)
    && (p[0] in pn.recursive || (p[0] in bestEffortRoots && e != NotFound) || InternalWalk(ls, pn, bestEffortRoots, p))
  }

  /** A walk that fails at some key is not a walk that succeeds. */
  lemma FailureBreaksWalks(ls: LinkService, pn: Pinner, bestEffortRoots: seq<Key>, p: seq<Key>, e: Error)
    requires WalkFailsAt(ls, pn, bestEffortRoots, p, e)
    ensures !WalksSucceed(ls, pn, bestEffortRoots)
  {
    if p[0] in bestEffortRoots && e != NotFound {
      assert !Walkable(ls, p[|p| - 1], true);
    }
  }

  /** A key a walk from the roots fails at, reached outside s, is the end of
      a path from a root through keys outside s. */
  lemma FailingPath(ls: LinkService, roots: seq<Key>, k: Key, s: set<Key>, e: Error) returns (p: seq<Key>)
    requires ReachedFrom(ls, roots, k, s) && GetLinks(ls, k) == Err(e)
    ensures IsPath(ls, p) && p[0] in roots && p[|p| - 1] == k && GetLinks(ls, p[|p| - 1]) == Err(e)
    ensures forall i :: 0 < i < |p| ==> p[i] !in s
  {
    p := PathFrom(ls, roots, k, s);
  }

  /** A strict walk, of the recursive roots from nothing or of the internal
      roots from the early colouring, that fails at a key it reached fails
      ColoredSet at that key. */
  lemma StrictWalkFails(ls: LinkService, pn: Pinner, bestEffortRoots: seq<Key>, roots: seq<Key>, s: set<Key>, e: Error)
    requires (roots == pn.recursive && s == {})
          || (roots == pn.internal && forall k :: EarlyMarked(ls, pn, bestEffortRoots, k) ==> k in s)
    requires exists k :: ReachedFrom(ls, roots, k, s) && !Walkable(ls, k, false) && GetLinks(ls, k) == Err(e)
    ensures exists p :: WalkFailsAt(ls, pn, bestEffortRoots, p, e)
    ensures !WalksSucceed(ls, pn, bestEffortRoots)
  {
    var k :| ReachedFrom(ls, roots, k, s) && !Walkable(ls, k, false) && GetLinks(ls, k) == Err(e);
    var p := FailingPath(ls, roots, k, s, e);
    if roots != pn.recursive {
      assert InternalWalk(ls, pn, bestEffortRoots, p);
    }
    assert WalkFailsAt(ls, pn, bestEffortRoots, p, e);
    FailureBreaksWalks(ls, pn, bestEffortRoots, p, e);
  }

  /** The best-effort walk failing at a key it reached fails ColoredSet at
      that key; absence is never such a failure. */
  lemma BestEffortWalkFails(ls: LinkService, pn: Pinner, bestEffortRoots: seq<Key>, s: set<Key>, e: Error)
    requires exists k :: ReachedFrom(ls, bestEffortRoots, k, s) && !Walkable(ls, k, true) && GetLinks(ls, k) == Err(e)
    ensures exists p :: WalkFailsAt(ls, pn, bestEffortRoots, p, e)
    ensures !WalksSucceed(ls, pn, bestEffortRoots)
  {
    var k :| ReachedFrom(ls, bestEffortRoots, k, s) && !Walkable(ls, k, true) && GetLinks(ls, k) == Err(e);
    var p := FailingPath(ls, bestEffortRoots, k, s, e);
    assert WalkFailsAt(ls, pn, bestEffortRoots, p, e);
    FailureBreaksWalks(ls, pn, bestEffortRoots, p, e);
  }

  /** Every key coloured before the internal walk is early marked. */
  lemma EarlyColoured(ls: LinkService, pn: Pinner, bestEffortRoots: seq<Key>, s1: set<Key>, s2: set<Key>, s3: set<Key>)
    requires forall k :: k in s1 ==> ReachedFrom(ls, pn.recursive, k, {})
    requires forall k :: k in s2 - s1 ==> ReachedFrom(ls, bestEffortRoots, k, s1)
    requires s3 == s2 + Elems(pn.direct)
    ensures forall k :: k in s3 ==> EarlyMarked(ls, pn, bestEffortRoots, k)
  {
    forall k | k in s3 ensures EarlyMarked(ls, pn, bestEffortRoots, k) {
      if k in s1 {
        var p := PathFrom(ls, pn.recursive, k, {});
        assert IsPath(ls, p) && p[0] in pn.recursive && p[|p| - 1] == k;
      } else if k in s2 {
        var p := PathFrom(ls, bestEffortRoots, k, s1);
        assert IsPath(ls, p) && p[0] in bestEffortRoots && p[|p| - 1] == k;
      }
    }
  }

  /** Every early-marked key is coloured before the internal walk. */
  lemma EarlyInside(ls: LinkService, pn: Pinner, bestEffortRoots: seq<Key>, s2: set<Key>, s3: set<Key>)
    requires ClosedExcept(ls, s2, {})
    requires forall r :: r in pn.recursive ==> r in s2
    requires forall r :: r in bestEffortRoots ==> r in s2
    requires s3 == s2 + Elems(pn.direct)
    ensures forall k :: EarlyMarked(ls, pn, bestEffortRoots, k) ==> k in s3
  {
    forall k | EarlyMarked(ls, pn, bestEffortRoots, k) ensures k in s3 {
      if FromRoots(ls, pn.recursive, k) {
        var p :| IsPath(ls, p) && p[0] in pn.recursive && p[|p| - 1] == k;
        PathStaysInside(ls, s2, {}, p);
      } else if FromRoots(ls, bestEffortRoots, k) {
        var p :| IsPath(ls, p) && p[0] in bestEffortRoots && p[|p| - 1] == k;
        PathStaysInside(ls, s2, {}, p);
      }
    }
  }

  /** When all four phases succeed, every key they enter was passable. */
  lemma PhasesSucceed(ls: LinkService, pn: Pinner, bestEffortRoots: seq<Key>,
                      s1: set<Key>, s2: set<Key>, s3: set<Key>, c: set<Key>)
    requires ClosedExcept(ls, s1, {}) && ClosedExcept(ls, s2, {})
    requires ClosedExcept(ls, c, Elems(pn.direct) - Elems(pn.internal))
    requires forall r :: r in pn.recursive ==> r in s1
    requires forall r :: r in bestEffortRoots ==> r in s2
    requires forall r :: r in pn.internal ==> r in c && GetLinks(ls, r).Ok?
    requires s1 <= s2 && s3 == s2 + Elems(pn.direct) && s3 <= c
    requires forall k :: k in s1 ==> GetLinks(ls, k).Ok?
    requires forall k :: k in s2 - s1 ==> Walkable(ls, k, true)
    requires forall k :: k in c - s3 ==> GetLinks(ls, k).Ok?
    requires forall k :: k in s3 ==> EarlyMarked(ls, pn, bestEffortRoots, k)
    ensures WalksSucceed(ls, pn, bestEffortRoots)
  {
    forall p | IsPath(ls, p) && p[0] in pn.recursive ensures GetLinks(ls, p[|p| - 1]).Ok? {
      PathStaysInside(ls, s1, {}, p);
    }
    forall p | IsPath(ls, p) && p[0] in bestEffortRoots ensures Walkable(ls, p[|p| - 1], true) {
      PathStaysInside(ls, s2, {}, p);
    }
    forall p | InternalWalk(ls, pn, bestEffortRoots, p) ensures GetLinks(ls, p[|p| - 1]).Ok? {
      if |p| > 1 {
        var x := Elems(pn.direct) - Elems(pn.internal);
        forall i | 0 <= i < |p| - 1 ensures p[i] !in x {
          if i > 0 {
            assert !EarlyMarked(ls, pn, bestEffortRoots, p[i]);
          }
        }
        PathStaysInside(ls, c, x, p);
        assert !EarlyMarked(ls, pn, bestEffortRoots, p[|p| - 1]);
      }
    }
  }

  /** Colored bounds the colouring from below by the marked keys, so a
      colouring that holds marked keys only is exactly the marked keys. */
  lemma ColoredExactly(ls: LinkService, pn: Pinner, bestEffortRoots: seq<Key>, c: set<Key>)
    requires Colored(ls, pn, bestEffortRoots, c)
    requires forall k :: k in c ==> Marked(ls, pn, bestEffortRoots, k)
    ensures forall k :: k in c <==> Marked(ls, pn, bestEffortRoots, k)
  {
  }

  /** The four phases of ColoredSet add only marked keys: the recursive walk
      from the empty set, the best-effort walk, the direct pins, and the
      internal walk, which never enters a key coloured before it, direct
      pins included. */
  lemma PhasesMarked(ls: LinkService, pn: Pinner, bestEffortRoots: seq<Key>,
                     s1: set<Key>, s2: set<Key>, s3: set<Key>, c: set<Key>)
    requires forall k :: k in s1 ==> ReachedFrom(ls, pn.recursive, k, {})
    requires forall k :: k in s2 - s1 ==> ReachedFrom(ls, bestEffortRoots, k, s1)
    requires s1 <= s2 && s3 == s2 + Elems(pn.direct) && s3 <= c
    requires forall k :: k in c - s3 ==> ReachedFrom(ls, pn.internal, k, s3)
    ensures forall k :: k in c ==> Marked(ls, pn, bestEffortRoots, k)
  {
    forall k | k in c ensures Marked(ls, pn, bestEffortRoots, k) {
      if k in s1 {
        if k !in pn.recursive {
          var p := PathFrom(ls, pn.recursive, k, {});
          assert IsPath(ls, p) && p[0] in pn.recursive && p[|p| - 1] == k;
        }
      } else if k in s2 {
        if k !in bestEffortRoots {
          var p := PathFrom(ls, bestEffortRoots, k, s1);
          assert IsPath(ls, p) && p[0] in bestEffortRoots && p[|p| - 1] == k;
        }
      } else if k in s3 {
        assert k in pn.direct;
      } else if k !in pn.internal {
        var p := PathFrom(ls, pn.internal, k, s3);
        forall i | 0 < i < |p| - 1 ensures p[i] !in pn.direct {
          assert p[i] !in s3;
        }
        assert IsPath(ls, p) && p[0] in pn.internal && p[|p| - 1] == k;
      }
    }
  }

  /** What a successful Descendants walk of the roots did to the set: it
      went from `before` to `after`, every root is in it, and every root and
      every key added is passable and has its children in the set; every key
      added was reached from a root outside `before`. */
  ghost predicate Phase(ls: LinkService, roots: seq<Key>, bestEffort: bool, before: set<Key>, after: set<Key>)
  {
    && before <= after
    && (forall r :: r in roots ==> r in after && Walkable(ls, r, bestEffort) && ClosedAt(ls, after, r))
    && (forall k :: k in after - before ==> Walkable(ls, k, bestEffort) && ClosedAt(ls, after, k))
    && (forall k :: k in after - before ==> ReachedFrom(ls, roots, k, before))
  }

  /** After the recursive walk, the best-effort walk and the direct pins,
      the set is closed and holds exactly the early-marked keys. */
  lemma EarlyExact(ls: LinkService, pn: Pinner, bestEffortRoots: seq<Key>,
                   s1: set<Key>, s2: set<Key>, s3: set<Key>)
    requires Phase(ls, pn.recursive, false, {}, s1)
    requires Phase(ls, bestEffortRoots, true, s1, s2)
    requires s3 == s2 + Elems(pn.direct)
    ensures ClosedExcept(ls, s1, {}) && ClosedExcept(ls, s2, {})
    ensures forall k :: k in s3 <==> EarlyMarked(ls, pn, bestEffortRoots, k)
  {
    assert ClosedExcept(ls, s1, {}) by {
      forall k | k in s1 ensures ClosedAt(ls, s1, k) {
        assert k in s1 - {};
      }
    }
    assert ClosedExcept(ls, s2, {}) by {
      forall k | k in s2 ensures ClosedAt(ls, s2, k) {
        if k in s1 {
          assert ClosedAt(ls, s1, k);
        }
      }
    }
    forall k | k in s1 ensures ReachedFrom(ls, pn.recursive, k, {}) {
      assert k in s1 - {};
    }
    EarlyInside(ls, pn, bestEffortRoots, s2, s3);
    EarlyColoured(ls, pn, bestEffortRoots, s1, s2, s3);
  }

  /** The colouring after all four phases meets the lower bound. */
  lemma ColouringBelow(ls: LinkService, pn: Pinner, bestEffortRoots: seq<Key>,
                       s2: set<Key>, s3: set<Key>, c: set<Key>)
    requires ClosedExcept(ls, s2, {})
    requires forall r :: r in pn.recursive || r in bestEffortRoots ==> r in s2
    requires s3 == s2 + Elems(pn.direct)
    requires Phase(ls, pn.internal, false, s3, c)
    ensures ClosedExcept(ls, c, Elems(pn.direct) - Elems(pn.internal))
    ensures Colored(ls, pn, bestEffortRoots, c)
  {
    var x := Elems(pn.direct) - Elems(pn.internal);
    assert ClosedExcept(ls, c, x) by {
      forall k | k in c && k !in x ensures ClosedAt(ls, c, k) {
        if k in s2 {
          assert ClosedAt(ls, s2, k);
        }
      }
    }
    forall p | IsPath(ls, p) && (p[0] in pn.recursive || p[0] in bestEffortRoots)
      ensures p[|p| - 1] in c
    {
      PathStaysInside(ls, s2, {}, p);
    }
    forall p | IsPath(ls, p) && p[0] in pn.internal && (forall i :: 0 < i < |p| - 1 ==> p[i] !in pn.direct)
      ensures p[|p| - 1] in c
    {
      PathStaysInside(ls, c, x, p);
    }
  }

  /** All four phases succeeded: the colouring is exactly the marked keys,
      and every key the walks entered was passable. */
  lemma ColouringDone(ls: LinkService, pn: Pinner, bestEffortRoots: seq<Key>,
                      s1: set<Key>, s2: set<Key>, s3: set<Key>, c: set<Key>)
    requires Phase(ls, pn.recursive, false, {}, s1)
    requires Phase(ls, bestEffortRoots, true, s1, s2)
    requires s3 == s2 + Elems(pn.direct)
    requires Phase(ls, pn.internal, false, s3, c)
    ensures Colored(ls, pn, bestEffortRoots, c)
    ensures forall k :: k in c <==> Marked(ls, pn, bestEffortRoots, k)
    ensures WalksSucceed(ls, pn, bestEffortRoots)
  {
    EarlyExact(ls, pn, bestEffortRoots, s1, s2, s3);
    ColouringBelow(ls, pn, bestEffortRoots, s2, s3, c);
    forall k | k in s1 ensures ReachedFrom(ls, pn.recursive, k, {}) && GetLinks(ls, k).Ok? {
      assert k in s1 - {};
    }
    PhasesMarked(ls, pn, bestEffortRoots, s1, s2, s3, c);
    ColoredExactly(ls, pn, bestEffortRoots, c);
    PhasesSucceed(ls, pn, bestEffortRoots, s1, s2, s3, c);
  }

  method ColoredSet(pn: Pinner, ls: LinkService, bestEffortRoots: seq<Key>)
    returns (gcs: KeySet, err: Option<Error>)
    ensures fresh(gcs)
    ensures err.None? ==> Colored(ls, pn, bestEffortRoots, gcs.elems)
    ensures err.None? ==> forall k :: k in gcs.elems <==> Marked(ls, pn, bestEffortRoots, k)
    ensures err.None? ==> forall k :: k in pn.recursive || k in pn.internal ==> GetLinks(ls, k).Ok?
    ensures err.None? <==> WalksSucceed(ls, pn, bestEffortRoots)
    ensures err.Some? ==> exists p :: WalkFailsAt(ls, pn, bestEffortRoots, p, err.value)
  {
    gcs := new KeySet();
    err := Descendants(ls, gcs, pn.recursive, false);
    if err.Some? {
      StrictWalkFails(ls, pn, bestEffortRoots, pn.recursive, {}, err.value);
      return;
    }
    ghost var s1 := gcs.elems;
    err := Descendants(ls, gcs, bestEffortRoots, true);
    if err.Some? {
      BestEffortWalkFails(ls, pn, bestEffortRoots, s1, err.value);
      return;
    }
    ghost var s2 := gcs.elems;
    var i := 0;
    while i < |pn.direct|
      invariant 0 <= i <= |pn.direct|
      invariant gcs.elems == s2 + Elems(pn.direct[..i])
    {
      gcs.Add(pn.direct[i]);
      assert pn.direct[..i + 1] == pn.direct[..i] + [pn.direct[i]];
      i := i + 1;
    }
    assert pn.direct[..i] == pn.direct;
    ghost var s3 := gcs.elems;
    EarlyExact(ls, pn, bestEffortRoots, s1, s2, s3);
    err := Descendants(ls, gcs, pn.internal, false);
    if err.Some? {
      StrictWalkFails(ls, pn, bestEffortRoots, pn.internal, s3, err.value);
      return;
    }
    ColouringDone(ls, pn, bestEffortRoots, s1, s2, s3, gcs.elems);
  }

  /** The sweep's output: the keys outside the colouring, in enumeration
      order, up to the first one whose delete fails. */
  ghost predicate SweptUpTo(keys: seq<Key>, colored: set<Key>, output: seq<Key>, faults: map<Key, Error>)
  {
    var swept := Without(keys, colored);
    && |output| <= |swept| && output == swept[..|output|]
    && (forall k :: k in output ==> k !in faults)
    && (|output| < |swept| ==> swept[|output|] in faults)
  }

  /** The sweep's output is determined: it runs up to the first uncoloured
      key whose delete fails. */
  lemma SweptUnique(keys: seq<Key>, colored: set<Key>, o1: seq<Key>, o2: seq<Key>, faults: map<Key, Error>)
    requires SweptUpTo(keys, colored, o1, faults) && SweptUpTo(keys, colored, o2, faults)
    ensures o1 == o2
  {
  }

  /** A sweep that stops at the uncoloured key keys[i], whose delete fails,
      has emitted the sweep up to that key. */
  lemma SweptPrefix(keys: seq<Key>, i: nat, colored: set<Key>, faults: map<Key, Error>)
    requires i < |keys| && keys[i] !in colored && keys[i] in faults
    requires forall k :: k in Without(keys[..i], colored) ==> k !in faults
    ensures SweptUpTo(keys, colored, Without(keys[..i], colored), faults)
  {
    assert keys == keys[..i] + ([keys[i]] + keys[i + 1..]);
    WithoutConcat(keys[..i], [keys[i]] + keys[i + 1..], colored);
    WithoutConcat([keys[i]], keys[i + 1..], colored);
    assert Without([keys[i]], colored) == [keys[i]];
  }

  /** A sweep that reaches the end has emitted every uncoloured key. */
  lemma SweptAll(keys: seq<Key>, colored: set<Key>, faults: map<Key, Error>)
    requires forall k :: k in Without(keys, colored) ==> k !in faults
    ensures SweptUpTo(keys, colored, Without(keys, colored), faults)
  {
    var swept := Without(keys, colored);
    assert swept[..|swept|] == swept;
  }

  /** One key of the sweep: a coloured key leaves the output as it was; an
      uncoloured one joins it. */
  lemma SweepStep(keys: seq<Key>, i: nat, colored: set<Key>, output: seq<Key>)
    requires i < |keys| && output == Without(keys[..i], colored)
    ensures Without(keys[..i + 1], colored) == output + (if keys[i] in colored then [] else [keys[i]])
  {
    assert keys[..i + 1] == keys[..i] + [keys[i]];
    WithoutSnoc(keys[..i], keys[i], colored);
  }

  /** A successful delete of the next uncoloured key leaves mount 0 as if
      the output so far and that key had been deleted at once. */
  lemma DeleteNext(m0: Mount, output: seq<Key>, k: Key)
    requires k !in m0.writeFaults
    ensures DeleteAt(DeleteMany(m0, Elems(output)), k) == (DeleteMany(m0, Elems(output + [k])), None)
  {
    DeleteManyStep(m0, Elems(output), k);
    assert Elems(output + [k]) == Elems(output) + {k};
  }

  /** The sweep that GC runs once the colouring is known: walk mount 0's
      key enumeration and delete and emit every key outside the colouring,
      stopping at the first failed delete. */
  method Sweep(bs: MultiBlockstore, gcs: KeySet, keys: seq<Key>) returns (output: seq<Key>)
    requires bs.Valid() && |bs.mounts| > 0
    modifies bs
    ensures bs.Valid()
    ensures |bs.mounts| == |old(bs.mounts)| && bs.mounts[1..] == old(bs.mounts)[1..]
    ensures bs.mounts[0] == DeleteMany(old(bs.mounts)[0], Elems(output))
    ensures SweptUpTo(keys, gcs.elems, output, old(bs.mounts)[0].writeFaults)
  {
    ghost var m0 := bs.mounts[0];
    ghost var colored := gcs.elems;
    output := [];
    DeleteManyNone(m0);
    assert Elems(output) == {};
    var i := 0;
    while i < |keys|
      invariant 0 <= i <= |keys|
      invariant bs.Valid() && gcs.elems == colored
      invariant output == Without(keys[..i], colored)
      invariant |bs.mounts| == |old(bs.mounts)| && bs.mounts[1..] == old(bs.mounts)[1..]
      invariant bs.mounts[0] == DeleteMany(m0, Elems(output))
      invariant forall k :: k in output ==> k !in m0.writeFaults
    {
      var k := keys[i];
      SweepStep(keys, i, colored, output);
      if !gcs.Has(k) {
        var e := bs.DeleteBlock(k);
        if e.Some? {
          SweptPrefix(keys, i, colored, m0.writeFaults);
          return;
        }
        DeleteNext(m0, output, k);
        output := output + [k];
      }
      i := i + 1;
    }
    assert keys[..i] == keys;
    SweptAll(keys, colored, m0.writeFaults);
  }

  /** GC: colour, then delete from mount 0 (only) every key of mount 0's
      enumeration that is not coloured, emitting each deleted key.  A failed
      colouring or enumeration deletes nothing; the first failed delete ends
      the sweep. */
  method GC(bs: MultiBlockstore, ls: LinkService, pn: Pinner, bestEffortRoots: seq<Key>)
    returns (r: Result<seq<Key>, Error>, ghost colored: set<Key>)
    requires bs.Valid() && |bs.mounts| > 0
    modifies bs
    ensures bs.Valid()
    ensures r.Err? ==> bs.mounts == old(bs.mounts)
    ensures r.Ok? <==> WalksSucceed(ls, pn, bestEffortRoots) && KeysAt(old(bs.mounts)[0]).Ok?
    ensures r.Err? && !WalksSucceed(ls, pn, bestEffortRoots) ==>
      exists p :: WalkFailsAt(ls, pn, bestEffortRoots, p, r.error)
    ensures r.Err? && WalksSucceed(ls, pn, bestEffortRoots) ==> KeysAt(old(bs.mounts)[0]) == Err(r.error)
    ensures r.Ok? ==> Colored(ls, pn, bestEffortRoots, colored)
    ensures r.Ok? ==> forall k :: k in colored <==> Marked(ls, pn, bestEffortRoots, k)
    ensures r.Ok? ==> forall k :: k in r.value ==> k !in colored && !Marked(ls, pn, bestEffortRoots, k)
    ensures r.Ok? ==>
      var m0 := old(bs.mounts)[0];
      && SweptUpTo(m0.keys, colored, r.value, m0.writeFaults)
      && |bs.mounts| == |old(bs.mounts)| && bs.mounts[1..] == old(bs.mounts)[1..]
      && bs.mounts[0] == DeleteMany(m0, Elems(r.value))
  {
    var gcs, err := ColoredSet(pn, ls, bestEffortRoots);
    colored := gcs.elems;
    if err.Some? {
      return Err(err.value), colored;
    }
    // the sweep works on the cache mount alone
    var keychan := KeysAt(bs.FirstMount());
    if keychan.Err? {
      return Err(keychan.error), colored;
    }
    var output := Sweep(bs, gcs, keychan.value);
    r := Ok(output);
  }
}
