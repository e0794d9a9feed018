/**
 * What the change-detection tests rely on, stated over the functional model:
 * the creation pass checks every view, marking and scheduling coalesce, a
 * flush runs exactly one tick, a parent always runs a child component's
 * ngDoCheck but refreshes the child's view only through the gate, and a
 * refresh leaves nothing for checkNoChanges to report.
 */
module Behaviour {
  import opened Base
  import opened ViewModel
  import opened Traversal
  import opened Tree
  import opened Gating
  import opened Settling
  import opened Reaching
  import opened NoChangesCheck

  /** No component's hooks call `detectChanges()`. */
  ghost predicate AllQuiet(L: Layout)
    requires WellFormed(L)
  {
    forall u | 0 <= u < |L.views| && L.views[u].isComponent :: L.views[u].hooks.Quiet()
  }

  /** Quiet root hooks change nothing but the root component object. */
  lemma RootHooksFlags(L: Layout, s: State, creation: bool)
    requires WellFormed(L) && Valid(L, s) && L.views[0].hooks.Quiet()
    ensures var r := RootHooks(L, s, creation);
            forall u | 0 <= u < |L.views| ::
              && r.views[u].dirty == s.views[u].dirty
              && r.views[u].attached == s.views[u].attached
              && r.views[u].committed == s.views[u].committed
    ensures var r := RootHooks(L, s, creation);
            forall u | 0 < u < |L.views| :: r.views[u] == s.views[u]
  {
    assert ShapeOk(L, 0);
  }

  /** `renderComponent` checks every view, OnPush ones included: each one
      shows current values and is clean afterwards. */
  lemma RenderChecksAll(L: Layout)
    requires WellFormed(L) && AllQuiet(L)
    ensures var r := RenderComponent(L);
            forall w | 0 <= w < |L.views| :: InSync(L, r, w) && !r.views[w].dirty
  {
    var s0 := RootHooks(L, Initial(L), true);
    assert L.views[0].hooks.Quiet();
    RootHooksFlags(L, Initial(L), true);
    forall w | 0 <= w < |L.views|
      ensures InSync(L, RenderComponent(L), w) && !RenderComponent(L).views[w].dirty
    {
      assert ShapeOk(L, 0);
      RefreshReaches(L, s0, 0, w);
    }
  }

  /** `markDirty` and `markForCheck` mark v and exactly its ancestors. */
  lemma MarkDirtyAncestors(L: Layout, s: State, v: ViewId)
    requires WellFormed(L) && Valid(L, s) && v < |L.views|
    ensures forall w | 0 <= w < |L.views| ::
              MarkDirty(L, s, v).views[w].dirty <==> s.views[w].dirty || AncestorOrSelf(L, w, v)
  {
    forall w | 0 <= w < |L.views|
      ensures MarkDirty(L, s, v).views[w].dirty <==> s.views[w].dirty || AncestorOrSelf(L, w, v)
    {
      AncestorIffContains(L, w, v);
    }
  }

  /** Marking twice is marking once, in either order: several `markDirty`
      calls before a frame leave one scheduled tick and one set of marks. */
  lemma MarkDirtyCoalesces(L: Layout, s: State, v: ViewId, w: ViewId)
    requires WellFormed(L) && Valid(L, s) && v < |L.views| && w < |L.views|
    ensures MarkDirty(L, MarkDirty(L, s, v), v) == MarkDirty(L, s, v)
    ensures MarkDirty(L, MarkDirty(L, s, v), w) == MarkDirty(L, MarkDirty(L, s, w), v)
  {
    var a := MarkDirty(L, MarkDirty(L, s, v), v);
    var b := MarkDirty(L, s, v);
    assert a.views == b.views;
    var c := MarkDirty(L, MarkDirty(L, s, v), w);
    var d := MarkDirty(L, MarkDirty(L, s, w), v);
    assert c.views == d.views;
  }

  /** A flush with a tick scheduled runs the root ngDoCheck exactly once
      (when the root has lifecycle hooks); without one it changes nothing,
      so a second flush does nothing. */
  lemma FlushCountsOnce(L: Layout, s: State)
    requires WellFormed(L) && Valid(L, s)
    ensures Flush(L, s).views[0].doCheckCount ==
              s.views[0].doCheckCount + (if s.frameScheduled && L.rootHooks then 1 else 0)
    ensures Flush(L, Flush(L, s)) == Flush(L, s)
  {
    if s.frameScheduled {
      var s1 := RootHooks(L, s.(frameScheduled := false), false);
      if Gate(L, s1, 0) {
        assert SameObject(s1, Refresh(L, s1, 0), 0);
      }
    }
  }

  /** `markForCheck()` on a child component of the root, any number of
      times, then one flush: the root is refreshed (it is marked, so its
      gate passes whatever its strategy), and the child's ngDoCheck runs
      exactly once. */
  lemma FlushChildDoCheckOnce(L: Layout, s: State, k: nat, c: ViewId)
    requires WellFormed(L) && Valid(L, s) && ComponentAt(L, 0, k, c)
    requires s.views[0].attached && (!L.rootHooks || L.views[0].hooks.Quiet())
    ensures Flush(L, MarkDirty(L, s, c)).views[c].doCheckCount == s.views[c].doCheckCount + 1
    ensures Flush(L, MarkDirty(L, MarkDirty(L, s, c), c)) == Flush(L, MarkDirty(L, s, c))
  {
    var m := MarkDirty(L, s, c);
    var s0 := m.(frameScheduled := false);
    var s1 := RootHooks(L, s0, false);
    if L.rootHooks {
      RootHooksFlags(L, s0, false);
    }
    ComponentInside(L, 0, k, c);
    assert ShapeOk(L, 0);
    assert Gate(L, s1, 0);
    ChildDoCheckOnce(L, s1, 0, k, c);
    MarkDirtyCoalesces(L, s, c, c);
  }

  /** After `markForCheck()` on v and a flush, v and every ancestor of v is
      refreshed, OnPush ones and those across embedded views included,
      provided none of them is detached. */
  lemma FlushRefreshesMarked(L: Layout, s: State, v: ViewId)
    requires WellFormed(L) && Valid(L, s) && v < |L.views| && AllQuiet(L)
    requires forall u | 0 <= u <= v && v < L.views[u].end :: s.views[u].attached
    ensures var r := Flush(L, MarkDirty(L, s, v));
            forall u | 0 <= u <= v && v < L.views[u].end :: InSync(L, r, u) && !r.views[u].dirty
  {
    var m := MarkDirty(L, s, v);
    var s0 := m.(frameScheduled := false);
    var s1 := RootHooks(L, s0, false);
    assert L.views[0].hooks.Quiet();
    RootHooksFlags(L, s0, false);
    assert ShapeOk(L, 0) && ShapeOk(L, v);
    assert Gate(L, s1, 0);
    assert Flush(L, m) == Refresh(L, s1, 0);
    forall u | 0 <= u <= v && v < L.views[u].end
      ensures InSync(L, Flush(L, m), u) && !Flush(L, m).views[u].dirty
    {
      assert ShapeOk(L, u);
      forall a | 0 < a <= u && u < L.views[a].end
        ensures Gate(L, s1, a)
      {
        if a < u { assert Nested(L, a, u); }
      }
      RefreshReaches(L, s1, 0, u);
    }
  }

  /** A parent's refresh runs the ngDoCheck of each child component exactly
      once, whether the child's view is then refreshed or not (a clean
      OnPush child, a detached child). */
  lemma ChildDoCheckOnce(L: Layout, s: State, v: ViewId, k: nat, c: ViewId)
    requires WellFormed(L) && Valid(L, s) && v < |L.views| && ComponentAt(L, v, k, c)
    ensures Refresh(L, s, v).views[c].doCheckCount == s.views[c].doCheckCount + 1
  {
    var nc := |L.views[v].components|;
    var s1 := BindAll(L, s, v, |L.views[v].bindings|);
    var s2 := RefreshEmbedded(L, s1, v, |L.views[v].embedded|);
    var s3 := DoChecks(L, s2, v, nc);
    RefreshSteps(L, s, v);
    ComponentInside(L, v, k, c);
    InsideComponent(L, v, k, c, c);
    RefreshEmbeddedFrame(L, s1, v, |L.views[v].embedded|, c);
    DoChecksCount(L, s2, v, nc, k, c);
    RefreshComponentsCount(L, s3, v, nc, k, c);
  }

  /** The state in which the gated refresh of v's child component views
      starts: after v's bindings, embedded views and child hooks. */
  function BeforeGates(L: Layout, s: State, v: ViewId): (r: State)
    requires WellFormed(L) && Valid(L, s) && v < |L.views|
    ensures Valid(L, r)
    ensures Settle(L, RefreshComponents(L, r, v, |L.views[v].components|), v) == Refresh(L, s, v)
  {
    RefreshSteps(L, s, v);
    DoChecks(L, RefreshEmbedded(L, BindAll(L, s, v, |L.views[v].bindings|), v, |L.views[v].embedded|),
             v, |L.views[v].components|)
  }

  /** Up to the gates, a child component with quiet hooks whose inputs
      are in sync keeps its view entry but for its object, and everything
      below it. */
  lemma UpToGates(L: Layout, s: State, v: ViewId, k: nat, c: ViewId, w: ViewId)
    requires WellFormed(L) && Valid(L, s) && v < |L.views| && ComponentAt(L, v, k, c)
    requires L.views[c].hooks.Quiet() && InSubtree(L, c, w)
    ensures var p := BeforeGates(L, s, v);
            && p.views[c].committed == s.views[c].committed
            && p.views[c].attached == s.views[c].attached
            && (s.views[c].dirty ==> p.views[c].dirty)
            && (InputsInSync(L, s, v, c, |L.views[v].bindings|) ==> p.views[c].dirty == s.views[c].dirty)
            && (L.views[c].mode == OnPush && !InputsInSync(L, s, v, c, |L.views[v].bindings|) ==> p.views[c].dirty)
            && (w != c ==> p.views[w] == s.views[w])
  {
    var nb := |L.views[v].bindings|;
    var ne := |L.views[v].embedded|;
    var nc := |L.views[v].components|;
    var s1 := BindAll(L, s, v, nb);
    var s2 := RefreshEmbedded(L, s1, v, ne);
    ComponentInside(L, v, k, c);
    BindAllChild(L, s, v, nb, c);
    if L.views[c].mode == OnPush && !InputsInSync(L, s, v, c, nb) {
      var j :| 0 <= j < nb && L.views[v].bindings[j].InputBinding? && L.views[v].bindings[j].target == c
               && !BindingInSync(L, s, v, j);
      BindAllMarks(L, s, v, nb, c, j);
    }
    InsideComponent(L, v, k, c, c);
    RefreshEmbeddedFrame(L, s1, v, ne, c);
    DoChecksQuiet(L, s2, v, nc, k, c);
    if w != c {
      InsideComponent(L, v, k, c, w);
      RefreshEmbeddedFrame(L, s1, v, ne, w);
      DoChecksBelow(L, s2, v, nc, k, c, w);
    }
  }

  /** A child component whose view fails the gate is left alone by its
      parent's refresh: a detached child, or a clean OnPush child whose
      inputs did not change, keeps what it rendered, and nothing below it
      changes (the grandchildren's doCheck counters included). A skipped
      child stays dirty, and an OnPush child whose input changed becomes
      dirty, so what it missed is shown once it is reattached
      (ReattachShowsMissed). */
  lemma ChildSkipped(L: Layout, s: State, v: ViewId, k: nat, c: ViewId, w: ViewId)
    requires WellFormed(L) && Valid(L, s) && v < |L.views| && ComponentAt(L, v, k, c)
    requires L.views[c].hooks.Quiet() && InSubtree(L, c, w)
    requires || !s.views[c].attached
             || (L.views[c].mode == OnPush && !s.views[c].dirty
                 && InputsInSync(L, s, v, c, |L.views[v].bindings|))
    ensures var r := Refresh(L, s, v);
            && r.views[c].committed == s.views[c].committed
            && (s.views[c].dirty ==> r.views[c].dirty)
            && (InputsInSync(L, s, v, c, |L.views[v].bindings|) ==> r.views[c].dirty == s.views[c].dirty)
            && (L.views[c].mode == OnPush && !InputsInSync(L, s, v, c, |L.views[v].bindings|) ==> r.views[c].dirty)
            && (w != c ==> r.views[w] == s.views[w])
  {
    var p := BeforeGates(L, s, v);
    var q := RefreshComponents(L, p, v, |L.views[v].components|);
    var r := Refresh(L, s, v);
    ComponentInside(L, v, k, c);
    UpToGates(L, s, v, k, c, w);
    assert !Gate(L, p, c);
    RefreshComponentsSkip(L, p, v, |L.views[v].components|, k, c, c);
    RefreshComponentsSkip(L, p, v, |L.views[v].components|, k, c, w);
    assert r == Settle(L, q, v);
    assert r.views[c] == q.views[c] && r.views[w] == q.views[w];
  }

  /** An attached child component whose view passes the gate, because it
      is CheckAlways, or dirty, or OnPush with an input that changed, is
      refreshed by its parent's refresh: it shows current values and is
      clean afterwards. */
  lemma ChildRefreshed(L: Layout, s: State, v: ViewId, k: nat, c: ViewId)
    requires WellFormed(L) && Valid(L, s) && v < |L.views| && ComponentAt(L, v, k, c)
    requires L.views[c].hooks.Quiet() && s.views[c].attached
    requires || L.views[c].mode == Default
             || s.views[c].dirty
             || !InputsInSync(L, s, v, c, |L.views[v].bindings|)
    ensures var r := Refresh(L, s, v);
            InSync(L, r, c) && !r.views[c].dirty
  {
    var p := BeforeGates(L, s, v);
    var q := RefreshComponents(L, p, v, |L.views[v].components|);
    ComponentInside(L, v, k, c);
    UpToGates(L, s, v, k, c, c);
    assert Gate(L, p, c);
    RefreshComponentsRefresh(L, p, v, |L.views[v].components|, k, c);
    ComponentSyncKept(L, q, Refresh(L, s, v), c);
  }

  /** Detach, change, reattach: a detached child component with something
      to show (it is CheckAlways, or dirty, or OnPush with an input that
      changed) keeps what it rendered through its parent's refresh, and once
      it is reattached the parent's next refresh shows current values and
      leaves it clean. */
  lemma ReattachShowsMissed(L: Layout, s: State, v: ViewId, k: nat, c: ViewId)
    requires WellFormed(L) && Valid(L, s) && v < |L.views| && ComponentAt(L, v, k, c)
    requires L.views[c].hooks.Quiet() && !s.views[c].attached
    requires || L.views[c].mode == Default
             || s.views[c].dirty
             || !InputsInSync(L, s, v, c, |L.views[v].bindings|)
    ensures var r := Refresh(L, s, v);
            && r.views[c].committed == s.views[c].committed
            && var t := Refresh(L, SetAttached(L, r, c, true), v);
               InSync(L, t, c) && !t.views[c].dirty
  {
    var r := Refresh(L, s, v);
    ComponentInside(L, v, k, c);
    ChildSkipped(L, s, v, k, c, c);
    assert L.views[c].mode == Default || r.views[c].dirty;
    var a := SetAttached(L, r, c, true);
    assert a.views[c].attached && a.views[c].dirty == r.views[c].dirty;
    ChildRefreshed(L, a, v, k, c);
  }

  /** Straight after `detectChanges()` on v, `checkNoChanges()` on v
      passes. */
  lemma NoChangesAfterRefresh(L: Layout, s: State, v: ViewId)
    requires WellFormed(L) && Valid(L, s) && v < |L.views|
    ensures NoChanges(L, Refresh(L, s, v), v) == Pass
  {
    RefreshSettles(L, s, v);
  }
}
