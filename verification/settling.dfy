/**
 * A refresh leaves the walked part of the tree settled: straight after
 * `detectChanges()` (or the creation pass, or a tick that refreshes the
 * root), `checkNoChanges()` from the same view passes. This holds whatever
 * the lifecycle hooks do, because every later step of a refresh only touches
 * subtrees that are disjoint from the ones already refreshed.
 */
module Settling {
  import opened Base
  import opened ViewModel
  import opened Traversal
  import opened Tree
  import opened NoChangesCheck

  /** w lies in the subtree of none of the first i views of cs. */
  ghost predicate OutsideFirst(L: Layout, cs: seq<ViewId>, i: nat, w: ViewId)
  {
    forall k | 0 <= k < i && k < |cs| :: cs[k] < |L.views| ==> !(cs[k] <= w < L.views[cs[k]].end)
  }

  lemma {:induction false} RefreshEmbeddedFrame(L: Layout, s: State, v: ViewId, i: nat, w: ViewId)
    requires WellFormed(L) && Valid(L, s) && v < |L.views| && i <= |L.views[v].embedded|
    requires w < |L.views| && OutsideFirst(L, L.views[v].embedded, i, w)
    ensures RefreshEmbedded(L, s, v, i).views[w] == s.views[w]
    decreases i
  {
    if i > 0 {
      EmbeddedChild(L, v, i - 1);
      RefreshEmbeddedFrame(L, s, v, i - 1, w);
    }
  }

  lemma {:induction false} DoChecksFrame(L: Layout, s: State, v: ViewId, i: nat, w: ViewId)
    requires WellFormed(L) && Valid(L, s) && v < |L.views| && i <= |L.views[v].components|
    requires w < |L.views| && OutsideFirst(L, L.views[v].components, i, w)
    ensures DoChecks(L, s, v, i).views[w] == s.views[w]
    decreases i
  {
    if i > 0 {
      ComponentChild(L, v, i - 1);
      DoChecksFrame(L, s, v, i - 1, w);
    }
  }

  lemma {:induction false} RefreshComponentsFrame(L: Layout, s: State, v: ViewId, i: nat, w: ViewId)
    requires WellFormed(L) && Valid(L, s) && v < |L.views| && i <= |L.views[v].components|
    requires w < |L.views| && OutsideFirst(L, L.views[v].components, i, w)
    ensures RefreshComponents(L, s, v, i).views[w] == s.views[w]
    decreases i
  {
    if i > 0 {
      ComponentChild(L, v, i - 1);
      RefreshComponentsFrame(L, s, v, i - 1, w);
    }
  }

  /** The hooks and refreshes of v's child components touch nothing outside
      their subtrees. */
  lemma ComponentsPassFrame(L: Layout, s: State, v: ViewId, w: ViewId)
    requires WellFormed(L) && Valid(L, s) && v < |L.views|
    requires w < |L.views| && OutsideFirst(L, L.views[v].components, |L.views[v].components|, w)
    ensures ComponentsPass(L, s, v).views[w] == s.views[w]
  {
    var n := |L.views[v].components|;
    DoChecksFrame(L, s, v, n, w);
    RefreshComponentsFrame(L, DoChecks(L, s, v, n), v, n, w);
  }

  /** v itself, the views outside v's subtree and v's context component lie
      outside the subtree of every child of v. */
  lemma OutsideChildren(L: Layout, v: ViewId, w: ViewId)
    requires WellFormed(L) && v < |L.views| && w < |L.views|
    requires w <= v || L.views[v].end <= w
    ensures OutsideFirst(L, L.views[v].embedded, |L.views[v].embedded|, w)
    ensures OutsideFirst(L, L.views[v].components, |L.views[v].components|, w)
  {
    assert ShapeOk(L, v);
    forall k | 0 <= k < |L.views[v].embedded|
      ensures !(L.views[v].embedded[k] <= w < L.views[L.views[v].embedded[k]].end)
    {
      ChildNested(L, v, L.views[v].embedded[k], false);
    }
    forall k | 0 <= k < |L.views[v].components|
      ensures !(L.views[v].components[k] <= w < L.views[L.views[v].components[k]].end)
    {
      ChildNested(L, v, L.views[v].components[k], true);
    }
  }

  /** A view in the subtree of an embedded view of v lies outside the
      subtree of every child component view of v. */
  lemma EmbeddedOutsideComponents(L: Layout, v: ViewId, e: ViewId, w: ViewId)
    requires WellFormed(L) && v < |L.views|
    requires ChildOk(L, v, e, false) && e <= w < L.views[e].end
    ensures OutsideFirst(L, L.views[v].components, |L.views[v].components|, w)
  {
    assert ShapeOk(L, v);
    forall k | 0 <= k < |L.views[v].components|
      ensures !(L.views[v].components[k] <= w < L.views[L.views[v].components[k]].end)
    {
      SiblingsDisjoint(L, v, e, false, L.views[v].components[k], true);
    }
  }

  /** The component pass of v keeps v's embedded views settled. */
  lemma ComponentsPassKeepsEmbedded(L: Layout, s: State, v: ViewId)
    requires WellFormed(L) && Valid(L, s) && v < |L.views|
    requires EmbeddedSettled(L, s, v, |L.views[v].embedded|)
    ensures EmbeddedSettled(L, ComponentsPass(L, s, v), v, |L.views[v].embedded|)
  {
    assert ShapeOk(L, v);
    var t := ComponentsPass(L, s, v);
    var x := L.views[v].context;
    OutsideChildren(L, v, x);
    ComponentsPassFrame(L, s, v, x);
    forall k | 0 <= k < |L.views[v].embedded| ensures Settled(L, t, L.views[v].embedded[k]) {
      var e := L.views[v].embedded[k];
      assert Settled(L, s, e);
      ChildNested(L, v, e, false);
      assert ShapeOk(L, e);
      forall w | e <= w < L.views[e].end ensures t.views[w] == s.views[w] {
        EmbeddedOutsideComponents(L, v, e, w);
        ComponentsPassFrame(L, s, v, w);
      }
      SettledFrame(L, s, t, e);
    }
  }

  /** Leaving creation mode and clearing the dirty flag of v keeps its
      children settled. */
  lemma SettleKeepsChildren(L: Layout, s: State, v: ViewId)
    requires WellFormed(L) && Valid(L, s) && v < |L.views|
    requires EmbeddedSettled(L, s, v, |L.views[v].embedded|)
    requires ComponentsSettled(L, s, v, |L.views[v].components|)
    ensures EmbeddedSettled(L, Settle(L, s, v), v, |L.views[v].embedded|)
    ensures ComponentsSettled(L, Settle(L, s, v), v, |L.views[v].components|)
  {
    assert ShapeOk(L, v);
    var t := Settle(L, s, v);
    forall k | 0 <= k < |L.views[v].embedded| ensures Settled(L, t, L.views[v].embedded[k]) {
      var e := L.views[v].embedded[k];
      ChildNested(L, v, e, false);
      assert ShapeOk(L, e);
      SettledFrame(L, s, t, e);
    }
    forall k | 0 <= k < |L.views[v].components|
      ensures Gate(L, t, L.views[v].components[k]) ==> Settled(L, t, L.views[v].components[k])
    {
      var c := L.views[v].components[k];
      ChildNested(L, v, c, true);
      assert ShapeOk(L, c);
      SettledFrame(L, s, t, c);
    }
  }

  /** A refresh of v settles v. */
  lemma {:induction false} RefreshSettles(L: Layout, s: State, v: ViewId)
    requires WellFormed(L) && Valid(L, s) && v < |L.views|
    ensures Settled(L, Refresh(L, s, v), v)
    decreases |L.views| - v, 4, 0
  {
    var s1 := BindAll(L, s, v, |L.views[v].bindings|);
    var s2 := RefreshEmbedded(L, s1, v, |L.views[v].embedded|);
    var s3 := ComponentsPass(L, s2, v);
    EmbeddedSettle(L, s1, v, |L.views[v].embedded|);
    ComponentsPassKeepsEmbedded(L, s2, v);
    ComponentsSettle(L, DoChecks(L, s2, v, |L.views[v].components|), v, |L.views[v].components|);
    SettleKeepsChildren(L, s3, v);
    SettledSplit(L, Refresh(L, s, v), v);
  }

  /** Refreshing the first i embedded views of v settles each of them. */
  lemma {:induction false} EmbeddedSettle(L: Layout, s: State, v: ViewId, i: nat)
    requires WellFormed(L) && Valid(L, s) && v < |L.views| && i <= |L.views[v].embedded|
    ensures EmbeddedSettled(L, RefreshEmbedded(L, s, v, i), v, i)
    decreases |L.views| - v, 2, i
  {
    if i > 0 {
      EmbeddedSettle(L, s, v, i - 1);
      EmbeddedStep(L, RefreshEmbedded(L, s, v, i - 1), v, i - 1);
    }
  }

  /** Refreshing embedded view j of v settles it and keeps the earlier ones settled. */
  lemma {:induction false} EmbeddedStep(L: Layout, p: State, v: ViewId, j: nat)
    requires WellFormed(L) && Valid(L, p) && v < |L.views| && j < |L.views[v].embedded|
    requires EmbeddedSettled(L, p, v, j)
    ensures L.views[v].embedded[j] < |L.views|
    ensures EmbeddedSettled(L, Refresh(L, p, L.views[v].embedded[j]), v, j + 1)
    decreases |L.views| - v, 1, j
  {
    EmbeddedChild(L, v, j);
    var e := L.views[v].embedded[j];
    RefreshSettles(L, p, e);
    EmbeddedKept(L, p, Refresh(L, p, e), v, j, e);
  }

  /** Refreshing a later embedded view e of v keeps the first i settled. */
  lemma EmbeddedKept(L: Layout, p: State, r: State, v: ViewId, i: nat, e: ViewId)
    requires WellFormed(L) && Valid(L, p) && Valid(L, r) && v < |L.views| && i < |L.views[v].embedded|
    requires e == L.views[v].embedded[i] && ChildOk(L, v, e, false)
    requires SameOutside(p, r, e, L.views[e].end)
    requires EmbeddedSettled(L, p, v, i)
    ensures EmbeddedSettled(L, r, v, i)
  {
    assert ShapeOk(L, v);
    ChildNested(L, v, e, false);
    forall k | 0 <= k < i ensures Settled(L, r, L.views[v].embedded[k]) {
      var f := L.views[v].embedded[k];
      ChildNested(L, v, f, false);
      assert ShapeOk(L, f);
      SiblingsDisjoint(L, v, f, false, e, false);
      SettledFrame(L, p, r, f);
    }
  }

  /** Walking the first i child component views of v settles each one that
      passes the gate afterwards. */
  lemma {:induction false} ComponentsSettle(L: Layout, s: State, v: ViewId, i: nat)
    requires WellFormed(L) && Valid(L, s) && v < |L.views| && i <= |L.views[v].components|
    ensures ComponentsSettled(L, RefreshComponents(L, s, v, i), v, i)
    decreases |L.views| - v, 0, i
  {
    if i > 0 {
      ComponentsSettle(L, s, v, i - 1);
      ComponentsStep(L, RefreshComponents(L, s, v, i - 1), v, i - 1);
    }
  }

  /** Walking child component view j of v (refreshing it if it passes the
      gate) settles it if it passes the gate afterwards, and keeps the
      earlier ones as they were. */
  lemma {:induction false} ComponentsStep(L: Layout, p: State, v: ViewId, j: nat)
    requires WellFormed(L) && Valid(L, p) && v < |L.views| && j < |L.views[v].components|
    requires ComponentsSettled(L, p, v, j)
    ensures L.views[v].components[j] < |L.views|
    ensures var c := L.views[v].components[j];
            ComponentsSettled(L, if Gate(L, p, c) then Refresh(L, p, c) else p, v, j + 1)
    decreases |L.views| - v, 0, j
  {
    ComponentChild(L, v, j);
    var c := L.views[v].components[j];
    if Gate(L, p, c) {
      RefreshSettles(L, p, c);
      ComponentsKept(L, p, Refresh(L, p, c), v, j, c);
    }
  }

  /** Refreshing a later child component view c of v keeps the first i settled. */
  lemma ComponentsKept(L: Layout, p: State, r: State, v: ViewId, i: nat, c: ViewId)
    requires WellFormed(L) && Valid(L, p) && Valid(L, r) && v < |L.views| && i < |L.views[v].components|
    requires c == L.views[v].components[i] && ChildOk(L, v, c, true)
    requires SameOutside(p, r, c, L.views[c].end)
    requires ComponentsSettled(L, p, v, i)
    ensures ComponentsSettled(L, r, v, i)
  {
    assert ShapeOk(L, v);
    ChildNested(L, v, c, true);
    forall k | 0 <= k < i
      ensures Gate(L, r, L.views[v].components[k]) ==> Settled(L, r, L.views[v].components[k])
    {
      var d := L.views[v].components[k];
      ChildNested(L, v, d, true);
      assert ShapeOk(L, d);
      SiblingsDisjoint(L, v, d, true, c, true);
      SettledFrame(L, p, r, d);
    }
  }
}
