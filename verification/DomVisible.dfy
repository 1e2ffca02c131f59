/**
 The part of a document that its indexes cover: everything that can be reached from a node without
 descending into a template element or into an embedded document.
 */
module DomVisible {
  import opened DomForest
  import opened DomMoves

  const MAX_DEPTH := 512

  /** `n` is `r`, or is reached from `r` through nodes that are not templates, and neither `n` nor a node
      on the way is a nested document. */
  ghost predicate Visible(f: Forest, r: Node, n: Node)
    requires Wf(f) && n in f.kids
    decreases f.rank[n]
  {
    n == r ||
    (n in f.up && n.kind != Document && (assert UpOk(f, n); !f.up[n].IsTemplate() && Visible(f, r, f.up[n])))
  }

  ghost function VisibleSet(f: Forest, r: Node): set<Node>
    requires Wf(f)
  {
    set n | n in f.kids && Visible(f, r, n)
  }

  /** What a walk that starts at a child of some node covers: nested documents are skipped. */
  ghost function VisibleFromKid(f: Forest, c: Node): (r: set<Node>)
    requires Wf(f)
    ensures r <= f.kids.Keys
  {
    if c.kind == Document then {} else VisibleSet(f, c)
  }

  ghost function VisibleKids(f: Forest, n: Node, i: nat): (r: set<Node>)
    requires Wf(f) && n in f.kids && i <= |f.kids[n]|
    ensures r <= f.kids.Keys
  {
    if i == 0 then {} else VisibleKids(f, n, i - 1) + VisibleFromKid(f, f.kids[n][i - 1])
  }

  lemma {:induction false} VisibleUnder(f: Forest, r: Node, n: Node)
    requires Wf(f) && n in f.kids && Visible(f, r, n)
    ensures Under(f, r, n)
    decreases f.rank[n]
  {
    UnderStep(f, r, n);
    if n != r {
      assert UpOk(f, n);
      VisibleUnder(f, r, f.up[n]);
    }
  }

  /** A visible node other than the root is visible from exactly one child of the root. */
  lemma {:induction false} VisibleThroughKid(f: Forest, r: Node, n: Node) returns (j: nat)
    requires Wf(f) && n in f.kids && r in f.kids && Visible(f, r, n) && n != r
    ensures !r.IsTemplate() && j < |f.kids[r]| && f.kids[r][j].kind != Document
    ensures Visible(f, f.kids[r][j], n)
    decreases f.rank[n]
  {
    assert UpOk(f, n);
    if f.up[n] == r {
      j :| 0 <= j < |f.kids[r]| && f.kids[r][j] == n;
    } else {
      j := VisibleThroughKid(f, r, f.up[n]);
    }
  }

  lemma {:induction false} VisibleFromParent(f: Forest, r: Node, c: Node, n: Node)
    requires Wf(f) && n in f.kids && c in f.up && f.up[c] == r && r in f.kids
    requires !r.IsTemplate() && c.kind != Document && Visible(f, c, n)
    ensures Visible(f, r, n)
    decreases f.rank[n]
  {
    if n != c {
      assert UpOk(f, n);
      VisibleFromParent(f, r, c, f.up[n]);
    }
  }

  lemma {:induction false} VisibleKidsMember(f: Forest, n: Node, i: nat, m: Node)
    requires Wf(f) && n in f.kids && i <= |f.kids[n]|
    ensures m in VisibleKids(f, n, i) <==> exists j :: 0 <= j < i && m in VisibleFromKid(f, f.kids[n][j])
  {
    if i > 0 { VisibleKidsMember(f, n, i - 1, m); }
  }

  /** The recursion of the index walks. */
  lemma VisibleUnfolds(f: Forest, n: Node)
    requires Wf(f) && n in f.kids
    ensures VisibleSet(f, n) == {n} + if n.IsTemplate() then {} else VisibleKids(f, n, |f.kids[n]|)
  {
    assert KidsOk(f, n);
    var s := if n.IsTemplate() then {} else VisibleKids(f, n, |f.kids[n]|);
    forall m ensures m in VisibleSet(f, n) <==> m in {n} + s {
      if m != n { VisibleUnfoldsAt(f, n, m); }
      assert Visible(f, n, n);
    }
    assert VisibleSet(f, n) == {n} + s;
  }

  lemma VisibleUnfoldsAt(f: Forest, n: Node, m: Node)
    requires Wf(f) && n in f.kids && m != n
    ensures m in VisibleSet(f, n) <==> !n.IsTemplate() && m in VisibleKids(f, n, |f.kids[n]|)
  {
    assert KidsOk(f, n);
    VisibleKidsMember(f, n, |f.kids[n]|, m);
    if m in VisibleSet(f, n) {
      var j := VisibleThroughKid(f, n, m);
      assert m in VisibleFromKid(f, f.kids[n][j]);
    }
    if !n.IsTemplate() && m in VisibleKids(f, n, |f.kids[n]|) {
      var j :| 0 <= j < |f.kids[n]| && m in VisibleFromKid(f, f.kids[n][j]);
      VisibleFromParent(f, n, f.kids[n][j], m);
    }
  }

  /** What an index walk of `doc` covers when it is called on `n`. */
  ghost function Walked(f: Forest, doc: Node, n: Node): set<Node>
    requires Wf(f)
  {
    if n != doc && n.kind == Document && n in f.up then {} else VisibleSet(f, n)
  }


  lemma WalkUnfolds(f: Forest, doc: Node, n: Node)
    requires Wf(f) && n in f.kids && (n == doc || n.kind != Document || n !in f.up)
    ensures n.IsTemplate() ==> Walked(f, doc, n) == {n}
    ensures !n.IsTemplate() ==> Walked(f, doc, n) == {n} + VisibleKids(f, n, |f.kids[n]|)
  {
    VisibleUnfolds(f, n);
  }


  // ---------- moving a subtree ----------

  /** Outside the moved subtree nothing becomes visible or hidden. */
  lemma {:induction false} VisibleKept(f: Forest, g: Forest, c: Node, r: Node, n: Node)
    requires Grafted(f, g, c) && n in f.kids && !Under(f, c, n)
    ensures Visible(f, r, n) <==> Visible(g, r, n)
    decreases f.rank[n]
  {
    MovedSubtreeKept(f, g, c, n);
    if n in f.up {
      assert UpOk(f, n) && UpOk(g, n);
      UnderStep(f, c, n);
      VisibleKept(f, g, c, r, f.up[n]);
    }
  }

  /** Inside it, visibility from the moved root stays, ... */
  lemma {:induction false} VisibleFromMoved(f: Forest, g: Forest, c: Node, n: Node)
    requires Grafted(f, g, c) && n in f.kids && Under(f, c, n)
    ensures Visible(f, c, n) <==> Visible(g, c, n)
    decreases f.rank[n]
  {
    if n != c {
      UnderStep(f, c, n);
      assert UpOk(f, n) && UpOk(g, n);
      VisibleFromMoved(f, g, c, f.up[n]);
    }
  }

  /** ... and visibility from a node above goes through the moved root. */
  lemma {:induction false} VisibleThrough(g: Forest, c: Node, r: Node, n: Node)
    requires Wf(g) && n in g.kids && c in g.kids && r in g.kids && Under(g, c, n) && !Under(g, c, r)
    ensures Visible(g, r, n) <==> Visible(g, r, c) && Visible(g, c, n)
    decreases g.rank[n]
  {
    UnderStep(g, c, n);
    if n != c {
      assert UpOk(g, n);
      VisibleThrough(g, c, r, g.up[n]);
    }
  }

  /** The covered part of a document before and after a subtree is linked. */
  lemma VisibleAfterGraft(f: Forest, g: Forest, c: Node, doc: Node)
    requires Grafted(f, g, c) && doc in f.kids && !Under(f, c, doc)
    ensures VisibleSet(f, doc) == set n | n in VisibleSet(g, doc) && !Under(f, c, n)
    ensures Visible(g, doc, c) ==> VisibleSet(g, doc) == VisibleSet(f, doc) + VisibleSet(g, c)
    ensures !Visible(g, doc, c) ==> VisibleSet(g, doc) == VisibleSet(f, doc)
    ensures VisibleSet(f, c) == VisibleSet(g, c)
    ensures VisibleSet(f, doc) !! VisibleSet(f, c)
  {
    MovedSubtreeKept(f, g, c, doc);
    forall n | n in f.kids
      ensures Under(f, c, n) ==> !Visible(f, doc, n) && (Visible(f, c, n) <==> Visible(g, c, n))
      ensures Under(f, c, n) ==> (Visible(g, doc, n) <==> Visible(g, doc, c) && Visible(g, c, n))
      ensures !Under(f, c, n) ==> (Visible(f, doc, n) <==> Visible(g, doc, n))
      ensures !Under(f, c, n) ==> !Visible(f, c, n) && !Visible(g, c, n)
    {
      VisibleAfterGraftAt(f, g, c, doc, n);
    }
    assert f.kids.Keys == g.kids.Keys;
  }

  lemma VisibleAfterGraftAt(f: Forest, g: Forest, c: Node, doc: Node, n: Node)
    requires Grafted(f, g, c) && doc in f.kids && !Under(f, c, doc) && n in f.kids
    ensures Under(f, c, n) ==> !Visible(f, doc, n) && (Visible(f, c, n) <==> Visible(g, c, n))
    ensures Under(f, c, n) ==> (Visible(g, doc, n) <==> Visible(g, doc, c) && Visible(g, c, n))
    ensures !Under(f, c, n) ==> (Visible(f, doc, n) <==> Visible(g, doc, n))
    ensures !Under(f, c, n) ==> !Visible(f, c, n) && !Visible(g, c, n)
  {
    MovedSubtreeKept(f, g, c, n);
    MovedSubtreeKept(f, g, c, doc);
    if Under(f, c, n) {
      VisibleFromMoved(f, g, c, n);
      VisibleThrough(g, c, doc, n);
      if Visible(f, doc, n) { AboveTheRoot(f, c, doc, n); }
    } else {
      VisibleKept(f, g, c, doc, n);
      if Visible(f, c, n) { VisibleUnder(f, c, n); }
      if Visible(g, c, n) { VisibleUnder(g, c, n); }
    }
  }

  lemma AboveTheRoot(f: Forest, c: Node, doc: Node, n: Node)
    requires Wf(f) && c in f.kids && c !in f.up && doc in f.kids && n in f.kids
    requires Under(f, c, n) && !Under(f, c, doc)
    ensures !Visible(f, doc, n)
  {
    if Visible(f, doc, n) {
      VisibleUnder(f, doc, n);
      var i :| 0 <= i < |Chain(f, n)| && Chain(f, n)[i] == c;
      ChainPosition(f, n, i);
      var j :| 0 <= j < |Chain(f, n)| && Chain(f, n)[j] == doc;
      ChainPrefix(f, n, j);
    }
  }

  // ---------- depth ----------

  /** A walk that enters `n` at depth `depth` never meets the depth limit. */
  ghost predicate Fits(f: Forest, n: Node, depth: nat)
    requires Wf(f) && n in f.kids
  {
    forall m {:trigger Under(f, n, m)} :: m in f.kids && Under(f, n, m) ==> depth + |Chain(f, m)| - |Chain(f, n)| < MAX_DEPTH
  }

  lemma FitsKid(f: Forest, n: Node, depth: nat, i: nat)
    requires Wf(f) && n in f.kids && Fits(f, n, depth) && i < |f.kids[n]|
    ensures f.kids[n][i] in f.kids && Fits(f, f.kids[n][i], depth + 1)
  {
    assert KidsOk(f, n);
    var c := f.kids[n][i];
    assert UpOk(f, c);
    UnderStep(f, n, c);
    forall m | m in f.kids && Under(f, c, m)
      ensures depth + 1 + |Chain(f, m)| - |Chain(f, c)| < MAX_DEPTH {
      UnderTransitive(f, n, c, m);
    }
  }

  lemma DepthLeft(f: Forest, n: Node, depth: nat)
    requires Wf(f) && n in f.kids && Fits(f, n, depth)
    ensures depth < MAX_DEPTH
  {
    assert Under(f, n, n);
  }
}
