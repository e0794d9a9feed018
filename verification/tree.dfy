/**
 * Structural facts about the view arena: ancestors, the child of a view on
 * the way down to one of its descendants, where a view's context component
 * lies, and which views a gated walk from v reaches.
 */
module Tree {
  import opened ViewModel

  /** a is v or one of its ancestors, following parent links up to the root. */
  ghost predicate AncestorOrSelf(L: Layout, a: ViewId, v: ViewId)
    requires WellFormed(L) && v < |L.views|
    decreases v
  {
    a == v || (v > 0 && ShapeOk(L, v) && AncestorOrSelf(L, a, L.views[v].parent))
  }

  /** The ancestors of v (and v itself) are exactly the views whose subtree
      contains v. */
  lemma {:induction false} AncestorIffContains(L: Layout, a: ViewId, v: ViewId)
    requires WellFormed(L) && a < |L.views| && v < |L.views|
    ensures AncestorOrSelf(L, a, v) <==> a <= v < L.views[a].end
    decreases v
  {
    assert ShapeOk(L, v);
    assert ShapeOk(L, a);
    if a != v && v > 0 {
      var p := L.views[v].parent;
      AncestorIffContains(L, a, p);
      if a < p { assert Nested(L, a, p); }
      if a < v { assert Nested(L, a, v); }
    }
  }

  /** The child of v whose subtree holds the descendant w. */
  function ChildToward(L: Layout, v: ViewId, w: ViewId): (c: ViewId)
    requires WellFormed(L) && v < w < |L.views| && w < L.views[v].end
    ensures c < |L.views| && ChildOk(L, v, c, L.views[c].isComponent) && c <= w < L.views[c].end
    ensures c in L.views[v].embedded || c in L.views[v].components
    decreases w
  {
    assert ShapeOk(L, w);
    assert Nested(L, v, w);
    assert Listed(L, w);
    var p := L.views[w].parent;
    if p == v then w
    else
      var c := ChildToward(L, v, p);
      assert ShapeOk(L, c);
      assert c < p ==> Nested(L, c, p);
      c
  }

  /** The context component of a view inside the subtree of v lies inside
      that subtree too, or is v's own context component. */
  lemma {:induction false} ContextInside(L: Layout, v: ViewId, w: ViewId)
    requires WellFormed(L) && v <= w < |L.views| && w < L.views[v].end
    ensures var x := L.views[w].context;
            (v <= x < L.views[v].end) || x == L.views[v].context
    decreases w
  {
    assert ShapeOk(L, w);
    assert ShapeOk(L, v);
    if w > v && !L.views[w].isComponent {
      var p := L.views[w].parent;
      assert Nested(L, v, w);
      ContextInside(L, v, p);
    }
  }

  /** A walk from v reaches w: every component view on the way down from v
      (exclusive) to w (inclusive) passes the gate. Embedded views are always
      walked into. */
  ghost predicate Reached(L: Layout, s: State, v: ViewId, w: ViewId)
    requires WellFormed(L) && Valid(L, s) && v <= w < |L.views|
  {
    forall u | v < u <= w && w < L.views[u].end && L.views[u].isComponent :: Gate(L, s, u)
  }

  /** Every view a gated walk from v reaches is in sync. */
  ghost predicate Settled(L: Layout, s: State, v: ViewId)
    requires WellFormed(L) && Valid(L, s) && v < |L.views|
  {
    forall w | v <= w < L.views[v].end && w < |L.views| && Reached(L, s, v, w) :: InSync(L, s, w)
  }

  /** The first i embedded views of v are settled. */
  ghost predicate EmbeddedSettled(L: Layout, s: State, v: ViewId, i: nat)
    requires WellFormed(L) && Valid(L, s) && v < |L.views|
  {
    forall k | 0 <= k < i && k < |L.views[v].embedded| ::
      L.views[v].embedded[k] < |L.views| && Settled(L, s, L.views[v].embedded[k])
  }

  /** Each of the first i child component views of v that passes the gate is settled. */
  ghost predicate ComponentsSettled(L: Layout, s: State, v: ViewId, i: nat)
    requires WellFormed(L) && Valid(L, s) && v < |L.views|
  {
    forall k | 0 <= k < i && k < |L.views[v].components| ::
      L.views[v].components[k] < |L.views| &&
      (Gate(L, s, L.views[v].components[k]) ==> Settled(L, s, L.views[v].components[k]))
  }

  /** A walk from v reaches a descendant w of its child c exactly when the
      walk from c does and c itself passes the gate (if it is a component). */
  lemma ReachedThrough(L: Layout, s: State, v: ViewId, c: ViewId, w: ViewId)
    requires WellFormed(L) && Valid(L, s) && v < |L.views|
    requires c < |L.views| && ChildOk(L, v, c, L.views[c].isComponent)
    requires v < c <= w < L.views[c].end <= |L.views|
    ensures Reached(L, s, v, w) <==>
              Reached(L, s, c, w) && (L.views[c].isComponent ==> Gate(L, s, c))
  {
    ChildNested(L, v, c, L.views[c].isComponent);
    assert ShapeOk(L, c);
    forall u | v < u < c ensures L.views[u].end <= c {
      assert Nested(L, u, c);
    }
  }

  /** Settledness splits over the children: v is in sync, its embedded views
      are settled, and so is each child component view that passes the gate. */
  lemma SettledSplit(L: Layout, s: State, v: ViewId)
    requires WellFormed(L) && Valid(L, s) && v < |L.views|
    ensures Settled(L, s, v) <==>
              && InSync(L, s, v)
              && EmbeddedSettled(L, s, v, |L.views[v].embedded|)
              && ComponentsSettled(L, s, v, |L.views[v].components|)
  {
    assert ShapeOk(L, v);
    var sh := L.views[v];
    if Settled(L, s, v) {
      assert Reached(L, s, v, v);
      forall k | 0 <= k < |sh.embedded|
        ensures Settled(L, s, sh.embedded[k])
      {
        var e := sh.embedded[k];
        ChildNested(L, v, e, false);
        forall w | e <= w < L.views[e].end && Reached(L, s, e, w) ensures InSync(L, s, w) {
          ReachedThrough(L, s, v, e, w);
        }
      }
      forall k | 0 <= k < |sh.components| && Gate(L, s, sh.components[k])
        ensures Settled(L, s, sh.components[k])
      {
        var c := sh.components[k];
        ChildNested(L, v, c, true);
        forall w | c <= w < L.views[c].end && Reached(L, s, c, w) ensures InSync(L, s, w) {
          ReachedThrough(L, s, v, c, w);
        }
      }
    }
    if && InSync(L, s, v)
       && EmbeddedSettled(L, s, v, |sh.embedded|)
       && ComponentsSettled(L, s, v, |sh.components|)
    {
      forall w | v <= w < sh.end && Reached(L, s, v, w) ensures InSync(L, s, w) {
        if w > v {
          var c := ChildToward(L, v, w);
          ChildNested(L, v, c, L.views[c].isComponent);
          ReachedThrough(L, s, v, c, w);
          if c in sh.embedded {
            var k :| 0 <= k < |sh.embedded| && sh.embedded[k] == c;
            assert Settled(L, s, c);
          } else {
            var k :| 0 <= k < |sh.components| && sh.components[k] == c;
            assert Gate(L, s, c);
            assert Settled(L, s, c);
          }
        }
      }
    }
  }

  /** Settledness of v depends only on the views of its subtree and on the
      object of v's context component. */
  lemma SettledFrame(L: Layout, s: State, t: State, v: ViewId)
    requires WellFormed(L) && Valid(L, s) && Valid(L, t) && v < |L.views|
    requires forall w | v <= w < L.views[v].end && w < |L.views| :: t.views[w] == s.views[w]
    requires SameObject(s, t, L.views[v].context)
    ensures Settled(L, s, v) <==> Settled(L, t, v)
  {
    assert ShapeOk(L, v);
    forall w | v <= w < L.views[v].end
      ensures Reached(L, s, v, w) <==> Reached(L, t, v, w)
      ensures InSync(L, s, w) <==> InSync(L, t, w)
    {
      ContextInside(L, v, w);
      if InSync(L, s, w) { SyncKept(L, s, t, w); }
      if InSync(L, t, w) { SyncKept(L, t, s, w); }
    }
  }
}
