/**
 * What the gate does to one child component view c of v during the refresh
 * of v. The parent always runs c's lifecycle hooks (so c's doCheck counter
 * goes up by exactly one), writes changed inputs into c's object and marks an
 * OnPush c dirty; c's own view is refreshed only when c is attached and is
 * either CheckAlways or dirty. A c that fails the gate keeps what it rendered
 * and its whole subtree is left alone.
 */
module Gating {
  import opened Base
  import opened ViewModel
  import opened Traversal
  import opened Settling

  /** Every input binding among the first i bindings of v that targets the
      child component c shows its current value: refreshing v writes nothing
      into c. */
  ghost predicate InputsInSync(L: Layout, s: State, v: ViewId, c: ViewId, i: nat)
    requires WellFormed(L) && Valid(L, s) && v < |L.views|
  {
    forall j | 0 <= j < i && j < |L.views[v].bindings| ::
      L.views[v].bindings[j].InputBinding? && L.views[v].bindings[j].target == c ==> BindingInSync(L, s, v, j)
  }

  /** c is child component k of v. */
  ghost predicate ComponentAt(L: Layout, v: ViewId, k: nat, c: ViewId)
    requires v < |L.views|
  {
    k < |L.views[v].components| && L.views[v].components[k] == c && ChildOk(L, v, c, true)
  }

  /** w lies in the subtree of view a. */
  ghost predicate InSubtree(L: Layout, a: ViewId, w: ViewId)
  {
    a < |L.views| && a <= w < L.views[a].end && w < |L.views|
  }

  /** A view in the subtree of child component k of v lies outside the
      subtrees of v's embedded views and of v's other child components. */
  lemma InsideComponent(L: Layout, v: ViewId, k: nat, c: ViewId, w: ViewId)
    requires WellFormed(L) && v < |L.views| && ComponentAt(L, v, k, c) && InSubtree(L, c, w)
    ensures OutsideFirst(L, L.views[v].embedded, |L.views[v].embedded|, w)
    ensures forall j | 0 <= j < |L.views[v].components| && j != k :: !InSubtree(L, L.views[v].components[j], w)
    ensures OutsideFirst(L, L.views[v].components, k, w)
  {
    assert ShapeOk(L, v);
    forall j | 0 <= j < |L.views[v].embedded|
      ensures !(L.views[v].embedded[j] <= w < L.views[L.views[v].embedded[j]].end)
    {
      SiblingsDisjoint(L, v, c, true, L.views[v].embedded[j], false);
    }
    forall j | 0 <= j < |L.views[v].components| && j != k
      ensures !InSubtree(L, L.views[v].components[j], w)
    {
      SiblingsDisjoint(L, v, c, true, L.views[v].components[j], true);
    }
  }

  /** A view in the subtree of child component k of v lies outside the
      subtree of child component j. */
  lemma OtherComponent(L: Layout, v: ViewId, k: nat, c: ViewId, j: nat, w: ViewId)
    requires WellFormed(L) && v < |L.views| && ComponentAt(L, v, k, c) && InSubtree(L, c, w)
    requires j < |L.views[v].components| && j != k
    ensures !InSubtree(L, L.views[v].components[j], w)
  {
    assert ShapeOk(L, v);
    SiblingsDisjoint(L, v, c, true, L.views[v].components[j], true);
  }

  /** One binding of v, seen from child component c: c's committed values
      and its descendants are untouched, c is untouched unless the binding is
      a changed input of c, and a changed input marks an OnPush c dirty. */
  lemma BindOneChild(L: Layout, s: State, v: ViewId, j: nat, c: ViewId)
    requires WellFormed(L) && Valid(L, s) && v < |L.views| && j < |L.views[v].bindings|
    requires ChildOk(L, v, c, true)
    ensures var r := BindOne(L, s, v, j);
            var b := L.views[v].bindings[j];
            && r.views[c].committed == s.views[c].committed
            && ((b.InputBinding? && b.target == c ==> BindingInSync(L, s, v, j)) ==> r.views[c] == s.views[c])
            && (b.InputBinding? && b.target == c && !BindingInSync(L, s, v, j) && L.views[c].mode == OnPush ==>
                  r.views[c].dirty)
            && forall w | c < w < L.views[c].end && w < |L.views| :: r.views[w] == s.views[w]
  {
    ChildNested(L, v, c, true);
    assert ShapeOk(L, v);
    var b := L.views[v].bindings[j];
    assert BindingOk(L, v, b);
    forall w | c < w < L.views[c].end ensures L.views[w].parent != v {
      assert ShapeOk(L, w);
      assert Nested(L, c, w);
    }
  }

  /** Evaluating the first i bindings of v leaves whether a later binding is
      in sync as it was. */
  lemma LaterBindingsKept(L: Layout, s: State, v: ViewId, i: nat, j: nat)
    requires WellFormed(L) && Valid(L, s) && v < |L.views| && i <= j < |L.views[v].bindings|
    ensures BindingInSync(L, BindAll(L, s, v, i), v, j) <==> BindingInSync(L, s, v, j)
  {
    var p := BindAll(L, s, v, i);
    assert ShapeOk(L, v);
    assert SameObject(s, p, L.views[v].context);
    if BindingInSync(L, s, v, j) { BindingKept(L, s, p, v, j); }
    if BindingInSync(L, p, v, j) { BindingKept(L, p, s, v, j); }
  }

  /** The first i bindings of v leave child component c's committed values
      and its descendants alone, and c altogether when none of them is a
      changed input of c. */
  lemma {:induction false} BindAllChild(L: Layout, s: State, v: ViewId, i: nat, c: ViewId)
    requires WellFormed(L) && Valid(L, s) && v < |L.views| && i <= |L.views[v].bindings|
    requires ChildOk(L, v, c, true)
    ensures var r := BindAll(L, s, v, i);
            && r.views[c].committed == s.views[c].committed
            && (InputsInSync(L, s, v, c, i) ==> r.views[c] == s.views[c])
            && forall w | c < w < L.views[c].end && w < |L.views| :: r.views[w] == s.views[w]
    decreases i
  {
    ChildNested(L, v, c, true);
    if i > 0 {
      var p := BindAll(L, s, v, i - 1);
      BindAllChild(L, s, v, i - 1, c);
      BindOneChild(L, p, v, i - 1, c);
      LaterBindingsKept(L, s, v, i - 1, i - 1);
    }
  }

  /** A changed input j of an OnPush child component c, among the first i
      bindings of v, leaves c dirty. */
  lemma {:induction false} BindAllMarks(L: Layout, s: State, v: ViewId, i: nat, c: ViewId, j: nat)
    requires WellFormed(L) && Valid(L, s) && v < |L.views| && j < i <= |L.views[v].bindings|
    requires ChildOk(L, v, c, true) && L.views[c].mode == OnPush
    requires L.views[v].bindings[j].InputBinding? && L.views[v].bindings[j].target == c
    requires !BindingInSync(L, s, v, j)
    ensures BindAll(L, s, v, i).views[c].dirty
    decreases i
  {
    var p := BindAll(L, s, v, i - 1);
    if i - 1 == j {
      LaterBindingsKept(L, s, v, j, j);
      BindOneChild(L, p, v, j, c);
    } else {
      BindAllMarks(L, s, v, i - 1, c, j);
    }
  }

  /** The hooks of a child component c that never calls detectChanges change
      only c's object: its fields (ngOnInit) and its doCheck counter, which
      goes up by one. */
  lemma QuietDoCheck(L: Layout, s: State, c: ViewId)
    requires WellFormed(L) && Valid(L, s) && 0 < c < |L.views| && L.views[c].hooks.Quiet()
    ensures var r := DoCheck(L, s, c);
            && SameOutside(s, r, c, c + 1)
            && r.views[c] == s.views[c].(fields := r.views[c].fields, doCheckCount := s.views[c].doCheckCount + 1)
  {
    assert ShapeOk(L, c);
  }

  /** The hooks of v's first i child components change nothing of child
      component k with quiet hooks but its object. */
  lemma {:induction false} DoChecksQuiet(L: Layout, s: State, v: ViewId, i: nat, k: nat, c: ViewId)
    requires WellFormed(L) && Valid(L, s) && v < |L.views| && i <= |L.views[v].components|
    requires ComponentAt(L, v, k, c) && L.views[c].hooks.Quiet()
    ensures var r := DoChecks(L, s, v, i);
            r.views[c] == s.views[c].(fields := r.views[c].fields, doCheckCount := r.views[c].doCheckCount)
    decreases i
  {
    if i > 0 {
      DoChecksQuiet(L, s, v, i - 1, k, c);
      ComponentInside(L, v, k, c);
      if i - 1 == k {
        QuietDoCheck(L, DoChecks(L, s, v, i - 1), c);
      } else {
        OtherComponent(L, v, k, c, i - 1, c);
        var d := L.views[v].components[i - 1];
        assert !(d <= c < L.views[d].end);
      }
    }
  }

  /** The hooks of v's first i child components leave the descendants of
      child component k with quiet hooks untouched. */
  lemma {:induction false} DoChecksBelow(L: Layout, s: State, v: ViewId, i: nat, k: nat, c: ViewId, w: ViewId)
    requires WellFormed(L) && Valid(L, s) && v < |L.views| && i <= |L.views[v].components|
    requires ComponentAt(L, v, k, c) && L.views[c].hooks.Quiet() && InSubtree(L, c, w) && w != c
    ensures DoChecks(L, s, v, i).views[w] == s.views[w]
    decreases i
  {
    if i > 0 {
      DoChecksBelow(L, s, v, i - 1, k, c, w);
      if i - 1 == k {
        ComponentInside(L, v, k, c);
        QuietDoCheck(L, DoChecks(L, s, v, i - 1), c);
      } else {
        OtherComponent(L, v, k, c, i - 1, w);
        var d := L.views[v].components[i - 1];
        assert !(d <= w < L.views[d].end);
      }
    }
  }

  /** The hooks of v's first i child components raise the doCheck counter of
      each of those components by exactly one. */
  lemma {:induction false} DoChecksCount(L: Layout, s: State, v: ViewId, i: nat, k: nat, c: ViewId)
    requires WellFormed(L) && Valid(L, s) && v < |L.views| && i <= |L.views[v].components|
    requires ComponentAt(L, v, k, c)
    ensures DoChecks(L, s, v, i).views[c].doCheckCount == s.views[c].doCheckCount + (if k < i then 1 else 0)
    decreases i
  {
    if i > 0 {
      ComponentInside(L, v, k, c);
      if i - 1 == k {
        InsideComponent(L, v, k, c, c);
        DoChecksFrame(L, s, v, k, c);
      } else {
        DoChecksCount(L, s, v, i - 1, k, c);
        OtherComponent(L, v, k, c, i - 1, c);
        var d := L.views[v].components[i - 1];
        assert !(d <= c < L.views[d].end);
      }
    }
  }

  /** Child component k of v lies strictly inside v's subtree. */
  lemma ComponentInside(L: Layout, v: ViewId, k: nat, c: ViewId)
    requires WellFormed(L) && v < |L.views| && ComponentAt(L, v, k, c)
    ensures InSubtree(L, c, c) && v < c && L.views[c].end <= L.views[v].end <= |L.views|
  {
    ChildNested(L, v, c, true);
    assert ShapeOk(L, v);
  }

  /** The gated refresh of child component view i - 1 of v leaves the
      subtree of every other child component untouched. */
  lemma RefreshComponentsOther(L: Layout, s: State, v: ViewId, i: nat, k: nat, c: ViewId, w: ViewId)
    requires WellFormed(L) && Valid(L, s) && v < |L.views| && 0 < i <= |L.views[v].components|
    requires ComponentAt(L, v, k, c) && k != i - 1 && InSubtree(L, c, w)
    ensures RefreshComponents(L, s, v, i).views[w] == RefreshComponents(L, s, v, i - 1).views[w]
  {
    OtherComponent(L, v, k, c, i - 1, w);
    var d := L.views[v].components[i - 1];
    assert !(d <= w < L.views[d].end);
  }

  /** The gated refreshes of v's first i child component views leave the
      doCheck counter of every child component unchanged: a view's refresh
      never runs its own component's ngDoCheck. */
  lemma {:induction false} RefreshComponentsCount(L: Layout, s: State, v: ViewId, i: nat, k: nat, c: ViewId)
    requires WellFormed(L) && Valid(L, s) && v < |L.views| && i <= |L.views[v].components|
    requires ComponentAt(L, v, k, c)
    ensures RefreshComponents(L, s, v, i).views[c].doCheckCount == s.views[c].doCheckCount
    decreases i
  {
    if i > 0 {
      RefreshComponentsCount(L, s, v, i - 1, k, c);
      if i - 1 != k {
        ComponentInside(L, v, k, c);
        RefreshComponentsOther(L, s, v, i, k, c, c);
      }
    }
  }

  /** A child component view that fails the gate when the gated refreshes
      of v's child component views begin is skipped: its whole subtree is
      left as it was. */
  lemma {:induction false} RefreshComponentsSkip(L: Layout, s: State, v: ViewId, i: nat, k: nat, c: ViewId, w: ViewId)
    requires WellFormed(L) && Valid(L, s) && v < |L.views| && i <= |L.views[v].components|
    requires ComponentAt(L, v, k, c) && !Gate(L, s, c) && InSubtree(L, c, w)
    ensures RefreshComponents(L, s, v, i).views[w] == s.views[w]
    decreases i
  {
    if i > 0 {
      RefreshComponentsSkip(L, s, v, i - 1, k, c, w);
      if i - 1 == k {
        ComponentInside(L, v, k, c);
        RefreshComponentsSkip(L, s, v, i - 1, k, c, c);
      } else {
        RefreshComponentsOther(L, s, v, i, k, c, w);
      }
    }
  }

  /** A child component view that passes the gate when the gated refreshes
      of v's child component views begin is refreshed: afterwards it is in
      sync, clean and out of creation mode. */
  lemma {:induction false} RefreshComponentsRefresh(L: Layout, s: State, v: ViewId, i: nat, k: nat, c: ViewId)
    requires WellFormed(L) && Valid(L, s) && v < |L.views| && k < i <= |L.views[v].components|
    requires ComponentAt(L, v, k, c) && Gate(L, s, c)
    ensures var r := RefreshComponents(L, s, v, i);
            InSync(L, r, c) && !r.views[c].dirty && r.views[c].created
    decreases i
  {
    ComponentInside(L, v, k, c);
    if i - 1 == k {
      InsideComponent(L, v, k, c, c);
      RefreshComponentsFrame(L, s, v, k, c);
    } else {
      RefreshComponentsRefresh(L, s, v, i - 1, k, c);
      RefreshComponentsOther(L, s, v, i, k, c, c);
      ComponentSyncKept(L, RefreshComponents(L, s, v, i - 1), RefreshComponents(L, s, v, i), c);
    }
  }
}
