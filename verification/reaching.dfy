/**
 * Which views a refresh actually refreshes. A refresh of v refreshes every
 * view w below v that the walk reaches when it starts, that is when every
 * component view on the way down from v to w passes the gate (attached, and
 * CheckAlways or dirty): afterwards w shows current values and is clean.
 * Gates are read before the walk, so this is what a caller can rely on:
 * after `renderComponent` every view is checked, OnPush ones included, and
 * after `markForCheck()` and a flush every dirty ancestor is refreshed.
 */
module Reaching {
  import opened Base
  import opened ViewModel
  import opened Traversal
  import opened Tree
  import opened Gating
  import opened Settling

  /** Every component view on the way down from v (exclusive) to w
      (inclusive) has hooks that do not call `detectChanges()`. */
  ghost predicate QuietPath(L: Layout, v: ViewId, w: ViewId)
    requires WellFormed(L) && v <= w < |L.views|
  {
    forall u | v < u <= w && w < L.views[u].end && L.views[u].isComponent :: L.views[u].hooks.Quiet()
  }

  /** The views strictly below c are the same in s and t. */
  ghost predicate SameBelow(L: Layout, s: State, t: State, c: ViewId)
    requires c < |L.views|
  {
    forall u | c < u < L.views[c].end && u < |L.views| :: u < |s.views| && u < |t.views| && t.views[u] == s.views[u]
  }

  /** w lies in the subtree of none of cs[j], ..., cs[i - 1]. */
  ghost predicate OutsideRange(L: Layout, cs: seq<ViewId>, j: nat, i: nat, w: ViewId)
  {
    forall k | j <= k < i && k < |cs| :: cs[k] < |L.views| ==> !(cs[k] <= w < L.views[cs[k]].end)
  }

  /** Whether the walk from c reaches w depends only on the views below c. */
  lemma ReachedFrame(L: Layout, s: State, t: State, c: ViewId, w: ViewId)
    requires WellFormed(L) && Valid(L, s) && Valid(L, t) && c <= w < |L.views| && w < L.views[c].end
    requires SameBelow(L, s, t, c)
    ensures Reached(L, s, c, w) <==> Reached(L, t, c, w)
  {
    forall u | c < u <= w && w < L.views[u].end
      ensures Gate(L, s, u) <==> Gate(L, t, u)
    {
      assert t.views[u] == s.views[u];
    }
  }

  /** The bindings of v touch neither v's embedded views nor any view
      further down: only v and its child component views. */
  lemma {:induction false} BindAllOther(L: Layout, s: State, v: ViewId, i: nat, u: ViewId)
    requires WellFormed(L) && Valid(L, s) && v < |L.views| && i <= |L.views[v].bindings|
    requires u < |L.views| && u != v && !(L.views[u].isComponent && L.views[u].parent == v)
    ensures BindAll(L, s, v, i).views[u] == s.views[u]
    decreases i
  {
    if i > 0 {
      BindAllOther(L, s, v, i - 1, u);
      assert ShapeOk(L, v);
      assert BindingOk(L, v, L.views[v].bindings[i - 1]);
    }
  }

  /** Refreshing embedded views j, ..., i - 1 of v leaves a view outside
      their subtrees as it was. */
  lemma {:induction false} EmbeddedFrom(L: Layout, s: State, v: ViewId, j: nat, i: nat, u: ViewId)
    requires WellFormed(L) && Valid(L, s) && v < |L.views| && j <= i <= |L.views[v].embedded|
    requires u < |L.views| && OutsideRange(L, L.views[v].embedded, j, i, u)
    ensures RefreshEmbedded(L, s, v, i).views[u] == RefreshEmbedded(L, s, v, j).views[u]
    decreases i
  {
    if i > j {
      EmbeddedChild(L, v, i - 1);
      EmbeddedFrom(L, s, v, j, i - 1, u);
      var e := L.views[v].embedded[i - 1];
      var p := RefreshEmbedded(L, s, v, i - 1);
      assert RefreshEmbedded(L, s, v, i) == Refresh(L, p, e);
      assert !(e <= u < L.views[e].end);
    }
  }

  /** Walking child component views j, ..., i - 1 of v leaves a view
      outside their subtrees as it was. */
  lemma {:induction false} ComponentsFrom(L: Layout, s: State, v: ViewId, j: nat, i: nat, u: ViewId)
    requires WellFormed(L) && Valid(L, s) && v < |L.views| && j <= i <= |L.views[v].components|
    requires u < |L.views| && OutsideRange(L, L.views[v].components, j, i, u)
    ensures RefreshComponents(L, s, v, i).views[u] == RefreshComponents(L, s, v, j).views[u]
    decreases i
  {
    if i > j {
      ComponentChild(L, v, i - 1);
      ComponentsFrom(L, s, v, j, i - 1, u);
      var c := L.views[v].components[i - 1];
      var p := RefreshComponents(L, s, v, i - 1);
      assert RefreshComponents(L, s, v, i) == if Gate(L, p, c) then Refresh(L, p, c) else p;
      assert !(c <= u < L.views[c].end);
    }
  }

  /** A view in the subtree of embedded view j of v lies outside the
      subtrees of the other children of v. */
  lemma EmbeddedApart(L: Layout, v: ViewId, j: nat, u: ViewId)
    requires WellFormed(L) && v < |L.views| && j < |L.views[v].embedded|
    requires var e := L.views[v].embedded[j]; e < |L.views| && e <= u < L.views[e].end && u < |L.views|
    ensures OutsideRange(L, L.views[v].embedded, 0, j, u)
    ensures OutsideRange(L, L.views[v].embedded, j + 1, |L.views[v].embedded|, u)
    ensures OutsideFirst(L, L.views[v].components, |L.views[v].components|, u)
  {
    assert ShapeOk(L, v);
    var e := L.views[v].embedded[j];
    EmbeddedChild(L, v, j);
    forall k | 0 <= k < |L.views[v].embedded| && k != j
      ensures !(L.views[v].embedded[k] <= u < L.views[L.views[v].embedded[k]].end)
    {
      SiblingsDisjoint(L, v, e, false, L.views[v].embedded[k], false);
    }
    EmbeddedOutsideComponents(L, v, e, u);
  }

  /** The steps of a refresh of v, spelled out. */
  lemma RefreshSteps(L: Layout, s: State, v: ViewId)
    requires WellFormed(L) && Valid(L, s) && v < |L.views|
    ensures var nc := |L.views[v].components|;
            Refresh(L, s, v) ==
              Settle(L, RefreshComponents(L, DoChecks(L, RefreshEmbedded(L, BindAll(L, s, v, |L.views[v].bindings|),
                                                                       v, |L.views[v].embedded|), v, nc), v, nc), v)
  {
    var s1 := BindAll(L, s, v, |L.views[v].bindings|);
    var s2 := RefreshEmbedded(L, s1, v, |L.views[v].embedded|);
    assert RefreshChildren(L, s1, v) == ComponentsPass(L, s2, v);
  }

  /** A refresh of v refreshes every view w of its subtree that the walk
      from v reaches at the start: w ends up in sync and clean. */
  lemma {:induction false} RefreshReaches(L: Layout, s: State, v: ViewId, w: ViewId)
    requires WellFormed(L) && Valid(L, s) && v <= w < |L.views| && w < L.views[v].end
    requires Reached(L, s, v, w) && QuietPath(L, v, w)
    ensures InSync(L, Refresh(L, s, v), w) && !Refresh(L, s, v).views[w].dirty
    decreases w - v, 1
  {
    if w > v {
      var c := ChildToward(L, v, w);
      assert ShapeOk(L, c);
      ReachedThrough(L, s, v, c, w);
      assert QuietPath(L, c, w);
      if c in L.views[v].embedded {
        var j :| 0 <= j < |L.views[v].embedded| && L.views[v].embedded[j] == c;
        ReachEmbedded(L, s, v, j, w);
      } else {
        var j :| 0 <= j < |L.views[v].components| && L.views[v].components[j] == c;
        assert ShapeOk(L, v) && ChildOk(L, v, L.views[v].components[j], true);
        assert v < c <= w < L.views[c].end && L.views[c].isComponent;
        ReachComponent(L, s, v, j, w);
      }
    }
  }

  /** Before embedded view j of v is refreshed, nothing below it has
      changed. */
  lemma EmbeddedBefore(L: Layout, s: State, v: ViewId, j: nat)
    requires WellFormed(L) && Valid(L, s) && v < |L.views| && j < |L.views[v].embedded|
    ensures L.views[v].embedded[j] < |L.views|
    ensures SameBelow(L, s, RefreshEmbedded(L, BindAll(L, s, v, |L.views[v].bindings|), v, j), L.views[v].embedded[j])
  {
    EmbeddedChild(L, v, j);
    var e := L.views[v].embedded[j];
    var s1 := BindAll(L, s, v, |L.views[v].bindings|);
    var p := RefreshEmbedded(L, s1, v, j);
    assert RefreshEmbedded(L, s1, v, 0) == s1;
    forall u | e < u < L.views[e].end && u < |L.views|
      ensures p.views[u] == s.views[u]
    {
      assert ShapeOk(L, u);
      assert Nested(L, e, u);
      BindAllOther(L, s, v, |L.views[v].bindings|, u);
      EmbeddedApart(L, v, j, u);
      EmbeddedFrom(L, s1, v, 0, j, u);
    }
  }

  /** After embedded view j of v is refreshed, the rest of the refresh of
      v leaves the subtree of that view and every view outside the subtree
      of v (v's context component among them) as they were, and changes
      no component object. */
  lemma EmbeddedAfter(L: Layout, s: State, v: ViewId, j: nat, u: ViewId)
    requires WellFormed(L) && Valid(L, s) && v < |L.views| && j < |L.views[v].embedded| && u < |L.views|
    requires var e := L.views[v].embedded[j];
             e < |L.views| && ((e <= u < L.views[e].end) || u <= v || L.views[v].end <= u)
    ensures var q := RefreshEmbedded(L, BindAll(L, s, v, |L.views[v].bindings|), v, j + 1);
            var r := Refresh(L, s, v);
            SameObject(q, r, u) && (u != v ==> r.views[u] == q.views[u])
  {
    var e := L.views[v].embedded[j];
    var ne := |L.views[v].embedded|;
    var nc := |L.views[v].components|;
    var s1 := BindAll(L, s, v, |L.views[v].bindings|);
    var s2 := RefreshEmbedded(L, s1, v, ne);
    var s3 := DoChecks(L, s2, v, nc);
    RefreshSteps(L, s, v);
    if e <= u < L.views[e].end {
      EmbeddedApart(L, v, j, u);
    } else {
      OutsideChildren(L, v, u);
    }
    EmbeddedFrom(L, s1, v, j + 1, ne, u);
    DoChecksFrame(L, s2, v, nc, u);
    RefreshComponentsFrame(L, s3, v, nc, u);
  }

  /** The case of RefreshReaches where w lies under embedded view j of v. */
  lemma {:induction false} ReachEmbedded(L: Layout, s: State, v: ViewId, j: nat, w: ViewId)
    requires WellFormed(L) && Valid(L, s) && v < |L.views| && j < |L.views[v].embedded|
    requires var e := L.views[v].embedded[j];
             e < |L.views| && e <= w < L.views[e].end && w < |L.views| && Reached(L, s, e, w) && QuietPath(L, e, w)
    ensures InSync(L, Refresh(L, s, v), w) && !Refresh(L, s, v).views[w].dirty
    decreases w - v, 0
  {
    EmbeddedChild(L, v, j);
    assert ShapeOk(L, v);
    var e := L.views[v].embedded[j];
    assert ShapeOk(L, e);
    var s1 := BindAll(L, s, v, |L.views[v].bindings|);
    var p := RefreshEmbedded(L, s1, v, j);
    var q := RefreshEmbedded(L, s1, v, j + 1);
    var r := Refresh(L, s, v);
    EmbeddedBefore(L, s, v, j);
    ReachedFrame(L, s, p, e, w);
    RefreshReaches(L, p, e, w);
    assert q == Refresh(L, p, e);
    var x := L.views[w].context;
    ContextInside(L, e, w);
    EmbeddedAfter(L, s, v, j, w);
    EmbeddedAfter(L, s, v, j, x);
    SyncKept(L, q, r, w);
  }

  /** Before child component view j of v is walked, nothing below it has
      changed, and it still passes the gate if it did at the start (its
      hooks, being quiet, change only its object). */
  lemma ComponentBefore(L: Layout, s: State, v: ViewId, j: nat)
    requires WellFormed(L) && Valid(L, s) && v < |L.views| && j < |L.views[v].components|
    requires L.views[v].components[j] < |L.views| && L.views[L.views[v].components[j]].hooks.Quiet()
    ensures var c := L.views[v].components[j];
            var nc := |L.views[v].components|;
            var p := RefreshComponents(L, DoChecks(L, RefreshEmbedded(L, BindAll(L, s, v, |L.views[v].bindings|),
                                                                      v, |L.views[v].embedded|), v, nc), v, j);
            && c < |L.views| && SameBelow(L, s, p, c)
            && (Gate(L, s, c) ==> Gate(L, p, c))
  {
    ComponentChild(L, v, j);
    var c := L.views[v].components[j];
    ComponentInside(L, v, j, c);
    var ne := |L.views[v].embedded|;
    var nc := |L.views[v].components|;
    var s1 := BindAll(L, s, v, |L.views[v].bindings|);
    var s2 := RefreshEmbedded(L, s1, v, ne);
    var s3 := DoChecks(L, s2, v, nc);
    var p := RefreshComponents(L, s3, v, j);
    forall u | c < u < L.views[c].end && u < |L.views|
      ensures p.views[u] == s.views[u]
    {
      assert ShapeOk(L, u);
      assert Nested(L, c, u);
      BindAllOther(L, s, v, |L.views[v].bindings|, u);
      InsideComponent(L, v, j, c, u);
      RefreshEmbeddedFrame(L, s1, v, ne, u);
      DoChecksBelow(L, s2, v, nc, j, c, u);
      RefreshComponentsFrame(L, s3, v, j, u);
    }
    InsideComponent(L, v, j, c, c);
    RefreshEmbeddedFrame(L, s1, v, ne, c);
    DoChecksQuiet(L, s2, v, nc, j, c);
    RefreshComponentsFrame(L, s3, v, j, c);
  }

  /** After child component view j of v is walked, the rest of the refresh
      of v leaves its subtree as it was. */
  lemma ComponentAfter(L: Layout, s: State, v: ViewId, j: nat, u: ViewId)
    requires WellFormed(L) && Valid(L, s) && v < |L.views| && j < |L.views[v].components| && u < |L.views|
    requires var c := L.views[v].components[j]; c < |L.views| && c <= u < L.views[c].end
    ensures var nc := |L.views[v].components|;
            var s3 := DoChecks(L, RefreshEmbedded(L, BindAll(L, s, v, |L.views[v].bindings|),
                                                  v, |L.views[v].embedded|), v, nc);
            Refresh(L, s, v).views[u] == RefreshComponents(L, s3, v, j + 1).views[u]
  {
    ComponentChild(L, v, j);
    var c := L.views[v].components[j];
    ComponentInside(L, v, j, c);
    var nc := |L.views[v].components|;
    var s3 := DoChecks(L, RefreshEmbedded(L, BindAll(L, s, v, |L.views[v].bindings|), v, |L.views[v].embedded|), v, nc);
    RefreshSteps(L, s, v);
    InsideComponent(L, v, j, c, u);
    ComponentsFrom(L, s3, v, j + 1, nc, u);
  }

  /** The case of RefreshReaches where w lies under child component view j
      of v, which passes the gate. */
  lemma {:induction false} ReachComponent(L: Layout, s: State, v: ViewId, j: nat, w: ViewId)
    requires WellFormed(L) && Valid(L, s) && v < |L.views| && j < |L.views[v].components|
    requires var c := L.views[v].components[j];
             && c < |L.views| && c <= w < L.views[c].end && w < |L.views|
             && Gate(L, s, c) && L.views[c].hooks.Quiet() && Reached(L, s, c, w) && QuietPath(L, c, w)
    ensures InSync(L, Refresh(L, s, v), w) && !Refresh(L, s, v).views[w].dirty
    decreases w - v, 0
  {
    ComponentChild(L, v, j);
    var c := L.views[v].components[j];
    assert ShapeOk(L, c);
    var nc := |L.views[v].components|;
    var s3 := DoChecks(L, RefreshEmbedded(L, BindAll(L, s, v, |L.views[v].bindings|), v, |L.views[v].embedded|), v, nc);
    var p := RefreshComponents(L, s3, v, j);
    var q := RefreshComponents(L, s3, v, j + 1);
    var r := Refresh(L, s, v);
    ComponentBefore(L, s, v, j);
    ReachedFrame(L, s, p, c, w);
    RefreshReaches(L, p, c, w);
    assert q == Refresh(L, p, c);
    var x := L.views[w].context;
    ContextInside(L, c, w);
    ComponentAfter(L, s, v, j, w);
    ComponentAfter(L, s, v, j, x);
    SyncKept(L, q, r, w);
  }
}
