/**
 The mergeset of a block: what it adds to the past of its selected parent, found by a
 search over parents. The search relies on the ancestor test of the block provider,
 which is a parameter here.
 */
module Mergeset {
  import opened Dag

  const MAX_MERGESET_SIZE := 1000

  ghost predicate Known(g: Graph, parents: seq<Hash>) {
    forall i :: 0 <= i < |parents| ==> parents[i] in g
  }

  /** In the past of a block with the given parents. */
  ghost predicate InPast(g: Graph, parents: seq<Hash>, x: Hash) {
    exists i :: 0 <= i < |parents| && Reaches(g, x, parents[i])
  }

  /** The mergeset as documented: in the past of the block but not of the selected parent. */
  ghost predicate Merged(g: Graph, parents: seq<Hash>, sp: Hash, x: Hash) {
    InPast(g, parents, x) && !Reaches(g, x, sp)
  }

  /** A way that avoids the selected parent and passes no block the test puts behind it, except perhaps at its end. */
  ghost predicate Open(g: Graph, anc: Ancestry, sp: Hash, s: seq<Hash>) {
    && Path(g, s) && (forall i :: 0 <= i < |s| ==> s[i] != sp)
    && (forall i :: 0 <= i < |s| - 1 ==> !anc(g, s[i], sp))
  }

  ghost predicate Leads(g: Graph, anc: Ancestry, parents: seq<Hash>, sp: Hash, x: Hash, s: seq<Hash>) {
    Open(g, anc, sp, s) && s[0] in parents && s[|s| - 1] == x
  }

  /** What the search comes across. */
  ghost predicate Met(g: Graph, anc: Ancestry, parents: seq<Hash>, sp: Hash, x: Hash) {
    exists s :: Leads(g, anc, parents, sp, x, s)
  }

  /**
   What the search collects: all it meets but what the test puts behind the selected parent, though
   every other parent.
   */
  ghost predicate Collected(g: Graph, anc: Ancestry, parents: seq<Hash>, sp: Hash, x: Hash) {
    Met(g, anc, parents, sp, x) && (x in parents || !anc(g, x, sp))
  }

  lemma MetParent(g: Graph, anc: Ancestry, parents: seq<Hash>, sp: Hash, x: Hash)
    requires x in parents && x in g && x != sp
    ensures Met(g, anc, parents, sp, x)
  {
    assert Leads(g, anc, parents, sp, x, [x]);
  }

  lemma MetNext(g: Graph, anc: Ancestry, parents: seq<Hash>, sp: Hash, x: Hash, p: Hash)
    requires Met(g, anc, parents, sp, x) && !anc(g, x, sp) && IsParent(g, p, x) && p != sp
    ensures Met(g, anc, parents, sp, p)
  {
    var s :| Leads(g, anc, parents, sp, x, s);
    var t := s + [p];
    forall i | 0 <= i < |t| - 1
      ensures IsParent(g, t[i + 1], t[i]) && !anc(g, t[i], sp)
    {
      assert i < |s| - 1 ==> IsParent(g, s[i + 1], s[i]) && !anc(g, s[i], sp);
    }
    assert Leads(g, anc, parents, sp, p, t);
  }

  lemma MetInPast(g: Graph, anc: Ancestry, parents: seq<Hash>, sp: Hash, x: Hash)
    requires Met(g, anc, parents, sp, x)
    ensures x in g && x != sp && InPast(g, parents, x)
  {
    var s :| Leads(g, anc, parents, sp, x, s);
    assert Joins(g, s, s[0], x);
    var i :| 0 <= i < |parents| && parents[i] == s[0];
    assert Reaches(g, x, parents[i]);
  }

  /** A test that never claims too much makes the search find the whole documented mergeset. */
  lemma MergedIsMet(g: Graph, anc: Ancestry, parents: seq<Hash>, sp: Hash, x: Hash)
    requires sp in g && Safe(anc, g) && Merged(g, parents, sp, x)
    ensures Met(g, anc, parents, sp, x) && !anc(g, x, sp)
  {
    var i :| 0 <= i < |parents| && Reaches(g, x, parents[i]);
    var s :| Joins(g, s, parents[i], x);
    forall j | 0 <= j < |s|
      ensures s[j] != sp && !anc(g, s[j], sp)
    {
      OnTheWay(g, s, parents[i], x, j);
      if Reaches(g, s[j], sp) {
        ReachesThrough(g, x, s[j], sp);
      } else if s[j] == sp {
        SelfReached(g, sp);
      }
    }
    assert Leads(g, anc, parents, sp, x, s);
  }

  /** No parent but the selected one is in the past of the selected one. */
  ghost predicate Independent(g: Graph, parents: seq<Hash>, sp: Hash) {
    forall x :: x in parents && x != sp ==> !Reaches(g, x, sp)
  }

  /** Wherever the search runs into the past of the selected parent, the test says so. */
  ghost predicate Recognised(g: Graph, anc: Ancestry, parents: seq<Hash>, sp: Hash) {
    forall x :: Met(g, anc, parents, sp, x) && Reaches(g, x, sp) ==> anc(g, x, sp)
  }

  /**
   The search collects the documented mergeset exactly when no other parent is behind the
   selected one and the test recognises every block behind it that the search meets.
   */
  lemma DocumentedIff(g: Graph, anc: Ancestry, parents: seq<Hash>, sp: Hash)
    requires Known(g, parents) && sp in g && Safe(anc, g)
    ensures (forall x :: Collected(g, anc, parents, sp, x) <==> Merged(g, parents, sp, x))
       <==> Independent(g, parents, sp) && Recognised(g, anc, parents, sp)
  {
    if Independent(g, parents, sp) && Recognised(g, anc, parents, sp) {
      forall x
        ensures Collected(g, anc, parents, sp, x) <==> Merged(g, parents, sp, x)
      {
        if Collected(g, anc, parents, sp, x) {
          MetInPast(g, anc, parents, sp, x);
        } else if Merged(g, parents, sp, x) {
          MergedIsMet(g, anc, parents, sp, x);
        }
      }
    }
    if x :| x in parents && x != sp && Reaches(g, x, sp) {
      MetParent(g, anc, parents, sp, x);
      assert Collected(g, anc, parents, sp, x) && !Merged(g, parents, sp, x);
    } else if x :| Met(g, anc, parents, sp, x) && Reaches(g, x, sp) && !anc(g, x, sp) {
      assert Collected(g, anc, parents, sp, x) && !Merged(g, parents, sp, x);
    }
  }

  /** With the test exact, the search collects the documented mergeset and every other parent. */
  lemma CollectedExact(g: Graph, anc: Ancestry, parents: seq<Hash>, sp: Hash, x: Hash)
    requires Known(g, parents) && sp in g && Safe(anc, g) && ExactAt(anc, g, sp)
    ensures Collected(g, anc, parents, sp, x) <==> Merged(g, parents, sp, x) || (x in parents && x != sp)
  {
    if Collected(g, anc, parents, sp, x) {
      MetInPast(g, anc, parents, sp, x);
    } else if Merged(g, parents, sp, x) {
      MergedIsMet(g, anc, parents, sp, x);
    } else if x in parents && x != sp {
      MetParent(g, anc, parents, sp, x);
    }
  }

  // ---------- the search ----------

  /**
   Every visited block that the test does not put behind the selected parent has its parents
   visited, unless it is still open.
   */
  ghost predicate Closed(g: Graph, anc: Ancestry, sp: Hash, visited: set<Hash>, open: seq<Hash>) {
    forall x, p :: x in visited && x != sp && x !in open && IsParent(g, p, x) ==> anc(g, x, sp) || p in visited
  }

  ghost predicate Search(
    g: Graph, anc: Ancestry, parents: seq<Hash>, sp: Hash, visited: set<Hash>, out: seq<Hash>, open: seq<Hash>)
  {
    && sp in visited && visited <= g.Keys
    && (forall x :: x in visited && x != sp ==> Met(g, anc, parents, sp, x))
    && (forall x :: x in out <==> x in visited && x != sp && (x in parents || !anc(g, x, sp)))
    && NoRepeats(out)
    && (forall x :: x in open ==> x in visited && x != sp)
    && Closed(g, anc, sp, visited, open)
  }

  lemma VisitOne(
    g: Graph, anc: Ancestry, parents: seq<Hash>, sp: Hash, visited: set<Hash>, out: seq<Hash>, open: seq<Hash>, p: Hash)
    requires Search(g, anc, parents, sp, visited, out, open)
    requires p in g && p !in visited && Met(g, anc, parents, sp, p)
    ensures Search(g, anc, parents, sp, visited + {p},
      if p !in parents && anc(g, p, sp) then out else out + [p],
      open + [p])
  {
    hide Met;
    var out' := if p !in parents && anc(g, p, sp) then out else out + [p];
    assert p !in out;
    assert forall x :: x in out' <==> x in out || (x == p && (p in parents || !anc(g, p, sp)));
    assert forall x :: x in open + [p] <==> x in open || x == p;
  }

  /** Looking at a parent of an open block that has not been visited. */
  lemma Visit(
    g: Graph, anc: Ancestry, parents: seq<Hash>, sp: Hash, visited: set<Hash>, out: seq<Hash>, open: seq<Hash>,
    cur: Hash, p: Hash)
    requires Search(g, anc, parents, sp, visited, out, open) && cur in open && !anc(g, cur, sp)
    requires IsParent(g, p, cur) && p !in visited && forall j :: 0 <= j < |parents| ==> parents[j] in visited
    ensures Search(g, anc, parents, sp, visited + {p}, if anc(g, p, sp) then out else out + [p], open + [p])
  {
    MetNext(g, anc, parents, sp, cur, p);
    hide Met, Search;
    assert p !in parents;
    VisitOne(g, anc, parents, sp, visited, out, open, p);
  }

  /** Everything on an open way from a parent has been visited when nothing is open any more. */
  lemma {:induction false} NothingMissed(
    g: Graph, anc: Ancestry, parents: seq<Hash>, sp: Hash, visited: set<Hash>, out: seq<Hash>, s: seq<Hash>, i: nat)
    requires Search(g, anc, parents, sp, visited, out, []) && forall j :: 0 <= j < |parents| ==> parents[j] in visited
    requires Open(g, anc, sp, s) && s[0] in parents && i < |s|
    ensures s[i] in visited
  {
    if i > 0 {
      NothingMissed(g, anc, parents, sp, visited, out, s, i - 1);
      assert IsParent(g, s[i - 1 + 1], s[i - 1]);
    }
  }

  lemma SearchDone(g: Graph, anc: Ancestry, parents: seq<Hash>, sp: Hash, visited: set<Hash>, out: seq<Hash>)
    requires Search(g, anc, parents, sp, visited, out, []) && forall j :: 0 <= j < |parents| ==> parents[j] in visited
    ensures forall x :: x in out <==> Collected(g, anc, parents, sp, x)
  {
    forall x
      ensures x in out <==> Collected(g, anc, parents, sp, x)
    {
      if Collected(g, anc, parents, sp, x) {
        var s :| Leads(g, anc, parents, sp, x, s);
        NothingMissed(g, anc, parents, sp, visited, out, s, |s| - 1);
      }
    }
  }

  /** A block whose parents are all visited, or that the test puts behind the selected parent, need not stay open. */
  lemma CloseFirst(
    g: Graph, anc: Ancestry, parents: seq<Hash>, sp: Hash, visited: set<Hash>, out: seq<Hash>, open: seq<Hash>)
    requires open != [] && Search(g, anc, parents, sp, visited, out, open)
    requires anc(g, open[0], sp) || forall p :: IsParent(g, p, open[0]) ==> p in visited
    ensures Search(g, anc, parents, sp, visited, out, open[1..])
  {
    hide Met;
    assert forall x :: x in open <==> x == open[0] || x in open[1..];
  }

  /** Puts every parent but the selected one on the queue. */
  method StartSearch(
    g: Graph, anc: Ancestry, parents: seq<Hash>, sp: Hash) returns (visited: set<Hash>, out: seq<Hash>, q: seq<Hash>)
    requires Known(g, parents) && sp in parents
    ensures sp in g && Search(g, anc, parents, sp, visited, out, q)
    ensures forall j :: 0 <= j < |parents| ==> parents[j] in visited
    ensures forall x :: x in visited ==> x == sp || (x in q && x in parents)
  {
    visited, out, q := {sp}, [], [];
    hide Met;
    for i := 0 to |parents|
      invariant sp in g && Search(g, anc, parents, sp, visited, out, q)
      invariant forall j :: 0 <= j < i ==> parents[j] in visited
      invariant forall x :: x in visited ==> x == sp || (x in q && x in parents)
    {
      var p := parents[i];
      if p != sp && p !in visited {
        MetParent(g, anc, parents, sp, p);
        VisitOne(g, anc, parents, sp, visited, out, q, p);
        visited, out, q := visited + {p}, out + [p], q + [p];
      }
    }
  }

  /** Looks at all parents of the first block on the queue. */
  method Expand(g: Graph, anc: Ancestry, parents: seq<Hash>, sp: Hash, visited: set<Hash>, out: seq<Hash>, q: seq<Hash>)
    returns (visited': set<Hash>, out': seq<Hash>, q': seq<Hash>)
    requires Linked(g) && q != [] && Search(g, anc, parents, sp, visited, out, q) && q[0] in g && !anc(g, q[0], sp)
    requires forall j :: 0 <= j < |parents| ==> parents[j] in visited
    ensures Search(g, anc, parents, sp, visited', out', q') && visited <= visited'
    ensures visited' == visited ==> q' == q[1..]
  {
    hide Linked, Search;
    visited', out', q' := visited, out, q;
    var cur := q[0];
    var pars := g[cur].Parents();
    for i := 0 to |pars|
      invariant Search(g, anc, parents, sp, visited', out', q') && visited <= visited' && q <= q'
      invariant forall j :: 0 <= j < i ==> pars[j] in visited'
      invariant visited' == visited ==> q' == q
    {
      var p := pars[i];
      ParentKnown(g, cur, i);
      if p !in visited' && p != NULL {
        Visit(g, anc, parents, sp, visited', out', q', cur, p);
        if !anc(g, p, sp) {
          out' := out' + [p];
        }
        visited', q' := visited' + {p}, q' + [p];
      }
    }
    CloseFirst(g, anc, parents, sp, visited', out', q');
    q' := q'[1..];
  }

  lemma QueueFacts(
    g: Graph, anc: Ancestry, parents: seq<Hash>, sp: Hash, visited: set<Hash>, out: seq<Hash>, open: seq<Hash>)
    requires Search(g, anc, parents, sp, visited, out, open)
    ensures visited <= g.Keys && NoRepeats(out) && forall x :: x in open ==> x in g
    ensures forall x :: x in out ==> Collected(g, anc, parents, sp, x)
  {
  }

  /** The test puts all parents behind the selected one. */
  ghost predicate AllBehind(g: Graph, anc: Ancestry, parents: seq<Hash>, sp: Hash) {
    forall x :: x in parents && x != sp ==> anc(g, x, sp)
  }

  ghost predicate Overfull(g: Graph, anc: Ancestry, parents: seq<Hash>, sp: Hash, s: seq<Hash>) {
    |s| >= MAX_MERGESET_SIZE && NoRepeats(s) && forall x :: x in s ==> Collected(g, anc, parents, sp, x)
  }

  /** Too many blocks to collect, and a parent not behind the selected one to find them from. */
  ghost predicate TooMany(g: Graph, anc: Ancestry, parents: seq<Hash>, sp: Hash) {
    !AllBehind(g, anc, parents, sp) && exists s :: Overfull(g, anc, parents, sp, s)
  }

  /** A list without repeats is no longer than a list that holds its elements. */
  lemma {:induction false} Pigeonhole(s: seq<Hash>, t: seq<Hash>)
    requires NoRepeats(s) && forall x :: x in s ==> x in t
    ensures |s| <= |t|
    decreases |s|
  {
    if s != [] {
      var n := |s| - 1;
      assert s[n] in t;
      var i :| 0 <= i < |t| && t[i] == s[n];
      forall x | x in s[..n]
        ensures x in t[..i] + t[i + 1..]
      {
        assert x in t && x != s[n];
      }
      Pigeonhole(s[..n], t[..i] + t[i + 1..]);
    }
  }

  lemma NotTooMany(g: Graph, anc: Ancestry, parents: seq<Hash>, sp: Hash, out: seq<Hash>)
    requires forall x :: x in out <==> Collected(g, anc, parents, sp, x)
    requires |out| < MAX_MERGESET_SIZE || AllBehind(g, anc, parents, sp)
    ensures !TooMany(g, anc, parents, sp)
  {
    hide Collected;
    forall s | Overfull(g, anc, parents, sp, s)
      ensures |s| <= |out|
    {
      Pigeonhole(s, out);
    }
  }

  /** A block the search meets and the test does not put behind the selected parent is met from such a parent. */
  lemma ParentBeyond(g: Graph, anc: Ancestry, parents: seq<Hash>, sp: Hash, cur: Hash)
    requires Met(g, anc, parents, sp, cur) && !anc(g, cur, sp)
    ensures !AllBehind(g, anc, parents, sp)
  {
    var s :| Leads(g, anc, parents, sp, cur, s);
    assert s[0] != sp && !anc(g, s[0], sp);
  }

  /** All visited blocks are still open or put behind the selected parent. */
  ghost predicate NoneOpened(g: Graph, anc: Ancestry, sp: Hash, visited: set<Hash>, open: seq<Hash>) {
    forall x :: x in visited ==> x == sp || x in open || anc(g, x, sp)
  }

  lemma NoneOpenedPop(g: Graph, anc: Ancestry, sp: Hash, visited: set<Hash>, open: seq<Hash>)
    requires NoneOpened(g, anc, sp, visited, open) && open != [] && anc(g, open[0], sp)
    ensures NoneOpened(g, anc, sp, visited, open[1..])
  {
    assert open == [open[0]] + open[1..];
  }

  /** Searches until nothing is open, or until too much is collected. */
  method SearchAll(
    g: Graph, anc: Ancestry, parents: seq<Hash>, sp: Hash) returns (ok: bool, ghost visited: set<Hash>, out: seq<Hash>)
    requires Linked(g) && Known(g, parents) && sp in parents
    ensures sp in g
    ensures ok ==>
      Search(g, anc, parents, sp, visited, out, []) && forall j :: 0 <= j < |parents| ==> parents[j] in visited
    ensures ok ==> |out| < MAX_MERGESET_SIZE || NoneOpened(g, anc, sp, visited, [])
    ensures !ok ==> TooMany(g, anc, parents, sp)
  {
    hide Linked, Search, Known, Collected, Met, NoneOpened, AllBehind;
    var seen, q;
    seen, out, q := StartSearch(g, anc, parents, sp);
    assert NoneOpened(g, anc, sp, seen, q) by {
      StartsUnopened(g, anc, sp, seen, q);
    }
    while q != []
      invariant Search(g, anc, parents, sp, seen, out, q) && forall j :: 0 <= j < |parents| ==> parents[j] in seen
      invariant |out| < MAX_MERGESET_SIZE || NoneOpened(g, anc, sp, seen, q)
      decreases g.Keys - seen, |q|
    {
      QueueFacts(g, anc, parents, sp, seen, out, q);
      var cur := q[0];
      if anc(g, cur, sp) {
        CloseFirst(g, anc, parents, sp, seen, out, q);
        if |out| >= MAX_MERGESET_SIZE {
          NoneOpenedPop(g, anc, sp, seen, q);
        }
        q := q[1..];
        continue;
      }
      OpenIsMet(g, anc, parents, sp, seen, out, q);
      ParentBeyond(g, anc, parents, sp, cur);
      seen, out, q := Expand(g, anc, parents, sp, seen, out, q);
      QueueFacts(g, anc, parents, sp, seen, out, q);
      if |out| >= MAX_MERGESET_SIZE {
        assert Overfull(g, anc, parents, sp, out);
        return false, seen, out;
      }
    }
    ok, visited := true, seen;
  }

  lemma StartsUnopened(g: Graph, anc: Ancestry, sp: Hash, visited: set<Hash>, open: seq<Hash>)
    requires forall x :: x in visited ==> x == sp || (x in open)
    ensures NoneOpened(g, anc, sp, visited, open)
  {
  }

  /**
   Collects and sorts. It gives up exactly when there are too many blocks to collect, where
   parents behind the selected one alone are never too many.
   */
  method ComputeMergeset(g: Graph, anc: Ancestry, parents: seq<Hash>, sp: Hash) returns (ok: bool, out: seq<Hash>)
    requires Linked(g) && Known(g, parents) && sp in parents
    ensures sp in g
    ensures ok ==> Ascending(g, out) && forall x :: x in out <==> Collected(g, anc, parents, sp, x)
    ensures ok <==> !TooMany(g, anc, parents, sp)
  {
    hide Linked, Known, Collected, Met, TooMany;
    ghost var visited;
    ok, visited, out := SearchAll(g, anc, parents, sp);
    if ok {
      SearchDone(g, anc, parents, sp, visited, out);
      QueueFacts(g, anc, parents, sp, visited, out, []);
      out := Sort(g, out);
      NotTooMany(g, anc, parents, sp, out);
    }
  }

  lemma OpenIsMet(
    g: Graph, anc: Ancestry, parents: seq<Hash>, sp: Hash, visited: set<Hash>, out: seq<Hash>, open: seq<Hash>)
    requires Search(g, anc, parents, sp, visited, out, open)
    ensures forall x :: x in open ==> Met(g, anc, parents, sp, x)
  {
    hide Met;
  }
}
