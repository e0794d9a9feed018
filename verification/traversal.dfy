/**
 * Change detection as functions of the state: the refresh of one view
 * (detectChangesInternal followed by refreshView), the gated refresh of child
 * component views, the doCheck hooks run by a parent, the root tick, the
 * creation-mode first render, dirty marking and the frame scheduler, and the
 * read-only no-changes verification.
 *
 * Order of one refresh of view v:
 *   1. v's bindings in declaration order (an input binding writes the child
 *      component and marks an OnPush child dirty when its value changed);
 *   2. v's embedded views, each refreshed unconditionally;
 *   3. the lifecycle hooks of v's child components (ngOnInit while v is in
 *      creation mode, then ngDoCheck), in order;
 *   4. each child component view that passes the gate, in order;
 *   5. v becomes clean and leaves creation mode.
 * A component's own ngDoCheck is never run by the refresh of its own view.
 */
module Traversal {
  import opened Base
  import opened ViewModel

  /** `value++` on a numeric component property. Incrementing a text
      property is not modelled: it is left as it is. */
  function Increment(x: Value): (r: Value)
    ensures x.Number? ==> r == Number(x.n + 1)
    ensures x.Text? ==> r == x
  {
    match x
    case Number(k) => Number(k + 1)
    case Text(_) => x
  }

  /** Only dirty flags were raised: attachment and creation mode are
      unchanged, and no view became clean. */
  ghost predicate OnlyMarked(s: State, t: State)
  {
    && |t.views| == |s.views|
    && (forall w {:trigger t.views[w].attached} | 0 <= w < |s.views| :: t.views[w].attached == s.views[w].attached)
    && (forall w {:trigger t.views[w].created} | 0 <= w < |s.views| :: t.views[w].created == s.views[w].created)
    && (forall w {:trigger t.views[w].doCheckCount} | 0 <= w < |s.views| :: t.views[w].doCheckCount == s.views[w].doCheckCount)
    && (forall w {:trigger t.views[w].dirty} | 0 <= w < |s.views| :: s.views[w].dirty ==> t.views[w].dirty)
  }

  /** Commit value x as the last value of binding i of view v. */
  function Commit(L: Layout, s: State, v: ViewId, i: nat, x: Value): (r: State)
    requires Valid(L, s) && v < |L.views| && i < |L.views[v].bindings|
    ensures Valid(L, r) && r.frameScheduled == s.frameScheduled
    ensures SameOutside(s, r, v, v + 1)
    ensures r.views[v] == s.views[v].(committed := s.views[v].committed[i := Some(x)])
  {
    var x0 := s.views[v];
    s.(views := s.views[v := x0.(committed := x0.committed[i := Some(x)])])
  }

  /** Write value x into input f of child component c, marking c dirty when
      it is OnPush (markDirtyIfOnPush). */
  function WriteInput(L: Layout, s: State, c: ViewId, f: nat, x: Value): (r: State)
    requires Valid(L, s) && c < |L.views| && f < |L.views[c].initialFields|
    ensures Valid(L, r) && r.frameScheduled == s.frameScheduled
    ensures SameOutside(s, r, c, c + 1)
    ensures r.views[c] == s.views[c].(fields := s.views[c].fields[f := x],
                                      dirty := s.views[c].dirty || L.views[c].mode == OnPush)
  {
    var x0 := s.views[c];
    s.(views := s.views[c := x0.(fields := x0.fields[f := x], dirty := x0.dirty || L.views[c].mode == OnPush)])
  }

  /** Evaluate binding i of view v and commit it when it changed; a changed
      input is written into the child component object and marks an OnPush
      child dirty. */
  function BindOne(L: Layout, s: State, v: ViewId, i: nat): (r: State)
    requires WellFormed(L) && Valid(L, s) && v < |L.views| && i < |L.views[v].bindings|
    ensures Valid(L, r) && r.frameScheduled == s.frameScheduled
    ensures BindingInSync(L, r, v, i)
    ensures SameOutside(s, r, v, L.views[v].end) && OnlyMarked(s, r)
    ensures r.views[v] == s.views[v].(committed := r.views[v].committed)
    ensures forall j | 0 <= j < |L.views[v].bindings| && j != i ::
              r.views[v].committed[j] == s.views[v].committed[j]
  {
    assert ShapeOk(L, v);
    var b := L.views[v].bindings[i];
    assert BindingOk(L, v, b);
    var x := Eval(L, s, v, b.expr);
    if s.views[v].committed[i] == Some(x) then s
    else if b.TextBinding? then Commit(L, s, v, i, x)
    else BindInput(L, s, v, i, x)
  }

  /** A changed input binding: commit the value and write it into the child. */
  function BindInput(L: Layout, s: State, v: ViewId, i: nat, x: Value): (r: State)
    requires WellFormed(L) && Valid(L, s) && v < |L.views| && i < |L.views[v].bindings|
    requires L.views[v].bindings[i].InputBinding?
    ensures Valid(L, r) && r.frameScheduled == s.frameScheduled
    ensures r.views[v].committed[i] == Some(x) && SameObject(s, r, L.views[v].context)
    ensures SameOutside(s, r, v, L.views[v].end) && OnlyMarked(s, r)
    ensures r.views[v] == s.views[v].(committed := s.views[v].committed[i := Some(x)])
  {
    assert ShapeOk(L, v);
    var b := L.views[v].bindings[i];
    assert BindingOk(L, v, b);
    ChildNested(L, v, b.target, true);
    WriteInput(L, Commit(L, s, v, i, x), b.target, b.input, x)
  }

  /** The first i bindings of view v, in declaration order. */
  function BindAll(L: Layout, s: State, v: ViewId, i: nat): (r: State)
    requires WellFormed(L) && Valid(L, s) && v < |L.views| && i <= |L.views[v].bindings|
    ensures Valid(L, r) && r.frameScheduled == s.frameScheduled
    ensures forall j | 0 <= j < i :: BindingInSync(L, r, v, j)
    ensures SameOutside(s, r, v, L.views[v].end) && OnlyMarked(s, r)
    ensures r.views[v] == s.views[v].(committed := r.views[v].committed)
    ensures forall j | i <= j < |L.views[v].bindings| :: r.views[v].committed[j] == s.views[v].committed[j]
    decreases i
  {
    if i == 0 then s
    else
      var p := BindAll(L, s, v, i - 1);
      var r := BindOne(L, p, v, i - 1);
      assert ShapeOk(L, v);
      assert forall j | 0 <= j < i - 1 :: BindingInSync(L, r, v, j) by {
        forall j | 0 <= j < i - 1 ensures BindingInSync(L, r, v, j) {
          assert BindingInSync(L, p, v, j);
          BindingKept(L, p, r, v, j);
        }
      }
      r
  }

  /** Whether the hooks of child component c run with ngOnInit: its parent
      view is still in creation mode. */
  predicate InCreation(L: Layout, s: State, c: ViewId)
    requires c < |L.views| && L.views[c].parent < |s.views|
  {
    !s.views[L.views[c].parent].created
  }

  /** The end of refreshView: v leaves creation mode and becomes clean. */
  function Settle(L: Layout, s: State, v: ViewId): (r: State)
    requires Valid(L, s) && v < |L.views|
    ensures Valid(L, r) && r.frameScheduled == s.frameScheduled
    ensures SameOutside(s, r, v, v + 1)
    ensures r.views[v] == s.views[v].(dirty := false, created := true)
  {
    s.(views := s.views[v := s.views[v].(dirty := false, created := true)])
  }

  /** Refresh view v: detectChangesInternal on v followed by refreshView.
      This is what `ChangeDetectorRef.detectChanges()` does on a component
      view, and what a parent does to an embedded view or to a child
      component view that passes the gate. */
  function Refresh(L: Layout, s: State, v: ViewId): (r: State)
    requires WellFormed(L) && Valid(L, s) && v < |L.views|
    ensures Valid(L, r) && r.frameScheduled == s.frameScheduled
    ensures SameOutside(s, r, v, L.views[v].end) && SameAttachment(s, r)
    ensures SameObject(s, r, v)
    ensures InSync(L, r, v)
    ensures !r.views[v].dirty && r.views[v].created
    decreases |L.views| - v, 4, 0
  {
    var s1 := BindAll(L, s, v, |L.views[v].bindings|);
    var r := Settle(L, RefreshChildren(L, s1, v), v);
    assert ShapeOk(L, v);
    SyncKept(L, s1, r, v);
    r
  }

  /** Steps 2 to 4 of the refresh of v: its embedded views, the hooks of its
      child components, and its gated child component views. */
  function RefreshChildren(L: Layout, s: State, v: ViewId): (r: State)
    requires WellFormed(L) && Valid(L, s) && v < |L.views|
    ensures Valid(L, r) && r.frameScheduled == s.frameScheduled
    ensures SameOutside(s, r, v + 1, L.views[v].end) && SameAttachment(s, r)
    decreases |L.views| - v, 3, 0
  {
    ComponentsPass(L, RefreshEmbedded(L, s, v, |L.views[v].embedded|), v)
  }

  /** Steps 3 and 4 of the refresh of v: the hooks of its child components,
      then its gated child component views. */
  function ComponentsPass(L: Layout, s: State, v: ViewId): (r: State)
    requires WellFormed(L) && Valid(L, s) && v < |L.views|
    ensures Valid(L, r) && r.frameScheduled == s.frameScheduled
    ensures SameOutside(s, r, v + 1, L.views[v].end) && SameAttachment(s, r)
    decreases |L.views| - v, 2, 0
  {
    var n := |L.views[v].components|;
    RefreshComponents(L, DoChecks(L, s, v, n), v, n)
  }

  /** The first i embedded views of v, each refreshed. */
  function RefreshEmbedded(L: Layout, s: State, v: ViewId, i: nat): (r: State)
    requires WellFormed(L) && Valid(L, s) && v < |L.views| && i <= |L.views[v].embedded|
    ensures Valid(L, r) && r.frameScheduled == s.frameScheduled
    ensures SameOutside(s, r, v + 1, L.views[v].end) && SameAttachment(s, r)
    decreases |L.views| - v, 2, i
  {
    if i == 0 then s
    else
      assert ShapeOk(L, v);
      var e := L.views[v].embedded[i - 1];
      ChildNested(L, v, e, false);
      Refresh(L, RefreshEmbedded(L, s, v, i - 1), e)
  }

  /** ngOnInit of component c: optionally `field++`, optionally `cdr.detectChanges()`. */
  function OnInit(L: Layout, s: State, c: ViewId): (r: State)
    requires WellFormed(L) && Valid(L, s) && c < |L.views|
    ensures Valid(L, r) && r.frameScheduled == s.frameScheduled
    ensures SameOutside(s, r, c, L.views[c].end) && SameAttachment(s, r)
    ensures r.views[c].doCheckCount == s.views[c].doCheckCount
    decreases |L.views| - c, 5, 0
  {
    assert ShapeOk(L, c);
    var h := L.views[c].hooks;
    var s1 := match h.onInitIncrement
      case None => s
      case Some(f) => SetField(L, s, c, f, Increment(s.views[c].fields[f]));
    if h.onInitDetects then Refresh(L, s1, c) else s1
  }

  /** Assign value x to property f of the component object of view c. */
  function SetField(L: Layout, s: State, c: ViewId, f: nat, x: Value): (r: State)
    requires Valid(L, s) && c < |L.views| && f < |L.views[c].initialFields|
    ensures Valid(L, r) && r.frameScheduled == s.frameScheduled
    ensures SameOutside(s, r, c, c + 1)
    ensures r.views[c] == s.views[c].(fields := s.views[c].fields[f := x])
  {
    s.(views := s.views[c := s.views[c].(fields := s.views[c].fields[f := x])])
  }

  /** Count one ngDoCheck call of component c. */
  function CountDoCheck(L: Layout, s: State, c: ViewId): (r: State)
    requires Valid(L, s) && c < |L.views|
    ensures Valid(L, r) && r.frameScheduled == s.frameScheduled
    ensures SameOutside(s, r, c, c + 1)
    ensures r.views[c] == s.views[c].(doCheckCount := s.views[c].doCheckCount + 1)
  {
    s.(views := s.views[c := s.views[c].(doCheckCount := s.views[c].doCheckCount + 1)])
  }

  /** The hooks of child component c run by its parent's refresh: ngOnInit
      while the parent is in creation mode, then ngDoCheck. */
  function DoCheck(L: Layout, s: State, c: ViewId): (r: State)
    requires WellFormed(L) && Valid(L, s) && 0 < c < |L.views|
    ensures Valid(L, r) && r.frameScheduled == s.frameScheduled
    ensures SameOutside(s, r, c, L.views[c].end) && SameAttachment(s, r)
    ensures r.views[c].doCheckCount == s.views[c].doCheckCount + 1
    decreases |L.views| - c, 7, 0
  {
    assert ShapeOk(L, c);
    NgDoCheck(L, if InCreation(L, s, c) then OnInit(L, s, c) else s, c)
  }

  /** ngDoCheck of component c: counts itself and optionally calls
      `cdr.detectChanges()`. */
  function NgDoCheck(L: Layout, s: State, c: ViewId): (r: State)
    requires WellFormed(L) && Valid(L, s) && c < |L.views|
    ensures Valid(L, r) && r.frameScheduled == s.frameScheduled
    ensures SameOutside(s, r, c, L.views[c].end) && SameAttachment(s, r)
    ensures r.views[c].doCheckCount == s.views[c].doCheckCount + 1
    decreases |L.views| - c, 6, 0
  {
    assert ShapeOk(L, c);
    var s1 := CountDoCheck(L, s, c);
    if L.views[c].hooks.doCheckDetects then Refresh(L, s1, c) else s1
  }

  /** The hooks of the first i child components of v. */
  function DoChecks(L: Layout, s: State, v: ViewId, i: nat): (r: State)
    requires WellFormed(L) && Valid(L, s) && v < |L.views| && i <= |L.views[v].components|
    ensures Valid(L, r) && r.frameScheduled == s.frameScheduled
    ensures SameOutside(s, r, v + 1, L.views[v].end) && SameAttachment(s, r)
    decreases |L.views| - v, 1, i
  {
    if i == 0 then s
    else
      assert ShapeOk(L, v);
      var c := L.views[v].components[i - 1];
      ChildNested(L, v, c, true);
      DoCheck(L, DoChecks(L, s, v, i - 1), c)
  }

  /** The first i child component views of v, each refreshed if it passes the gate. */
  function RefreshComponents(L: Layout, s: State, v: ViewId, i: nat): (r: State)
    requires WellFormed(L) && Valid(L, s) && v < |L.views| && i <= |L.views[v].components|
    ensures Valid(L, r) && r.frameScheduled == s.frameScheduled
    ensures SameOutside(s, r, v + 1, L.views[v].end) && SameAttachment(s, r)
    decreases |L.views| - v, 0, i
  {
    if i == 0 then s
    else
      assert ShapeOk(L, v);
      var c := L.views[v].components[i - 1];
      ChildNested(L, v, c, true);
      var p := RefreshComponents(L, s, v, i - 1);
      if Gate(L, p, c) then Refresh(L, p, c) else p
  }

  /** The root component's hooks, run by the host view when the root was
      rendered with LifecycleHooksFeature: ngOnInit in the creation pass,
      then ngDoCheck. Without the feature the host view runs no hooks. */
  function RootHooks(L: Layout, s: State, creation: bool): (r: State)
    requires WellFormed(L) && Valid(L, s)
    ensures Valid(L, r) && r.frameScheduled == s.frameScheduled
    ensures SameAttachment(s, r)
    ensures !L.rootHooks ==> r == s
    ensures L.rootHooks ==> r.views[0].doCheckCount == s.views[0].doCheckCount + 1
  {
    if !L.rootHooks then s
    else NgDoCheck(L, if creation then OnInit(L, s, 0) else s, 0)
  }

  /** `renderComponent`: the creation-mode check. The root hooks run, then
      the root component view is refreshed whatever its strategy. */
  function RenderComponent(L: Layout): (r: State)
    requires WellFormed(L)
    ensures Valid(L, r) && !r.frameScheduled
    ensures InSync(L, r, 0) && !r.views[0].dirty && r.views[0].created
    ensures forall v | 0 <= v < |L.views| :: r.views[v].attached
  {
    Refresh(L, RootHooks(L, Initial(L), true), 0)
  }

  /** `tick(root)`: the host view runs the root hooks, then refreshes the root
      component view if it passes the gate. */
  function Tick(L: Layout, s: State): (r: State)
    requires WellFormed(L) && Valid(L, s)
    ensures Valid(L, r) && r.frameScheduled == s.frameScheduled
    ensures SameAttachment(s, r)
  {
    var s1 := RootHooks(L, s, false);
    if Gate(L, s1, 0) then Refresh(L, s1, 0) else s1
  }

  /** markViewDirty: view v and every view whose subtree contains it, up to
      the root, become dirty. */
  function MarkAncestors(L: Layout, s: State, v: ViewId): (r: State)
    requires WellFormed(L) && Valid(L, s) && v < |L.views|
    ensures Valid(L, r) && r.frameScheduled == s.frameScheduled
    ensures forall w | 0 <= w < |L.views| ::
              r.views[w] == s.views[w].(dirty := s.views[w].dirty || w <= v < L.views[w].end)
    decreases v
  {
    assert ShapeOk(L, v);
    var s1 := s.(views := s.views[v := s.views[v].(dirty := true)]);
    if v == 0 then s1
    else
      var p := L.views[v].parent;
      var r := MarkAncestors(L, s1, p);
      assert forall w | 0 <= w < v :: (w <= v < L.views[w].end <==> w <= p < L.views[w].end) by {
        forall w | 0 <= w < v ensures (w <= v < L.views[w].end <==> w <= p < L.views[w].end) {
          if w < p { assert Nested(L, w, p); }
          if w < v { assert Nested(L, w, v); }
        }
      }
      r
  }

  /** `markDirty(component)`, `ChangeDetectorRef.markForCheck()` and a fired
      listener: mark view v and its ancestors dirty, and schedule a tick for
      the next animation frame. */
  function MarkDirty(L: Layout, s: State, v: ViewId): (r: State)
    requires WellFormed(L) && Valid(L, s) && v < |L.views|
    ensures Valid(L, r) && r.frameScheduled
    ensures forall w | 0 <= w < |L.views| ::
              r.views[w] == s.views[w].(dirty := s.views[w].dirty || w <= v < L.views[w].end)
  {
    MarkAncestors(L, s, v).(frameScheduled := true)
  }

  /** `requestAnimationFrame.flush()`: run the scheduled tick, if any. */
  function Flush(L: Layout, s: State): (r: State)
    requires WellFormed(L) && Valid(L, s)
    ensures Valid(L, r) && !r.frameScheduled
    ensures !s.frameScheduled ==> r == s
  {
    if s.frameScheduled then Tick(L, s.(frameScheduled := false)) else s
  }

  /** `ChangeDetectorRef.detach()` / `reattach()` on view c: the
      ChangeDetectorRef a component injects is that of its own view, so c is
      a component view. */
  function SetAttached(L: Layout, s: State, c: ViewId, attached: bool): (r: State)
    requires Valid(L, s) && c < |L.views| && L.views[c].isComponent
    ensures Valid(L, r) && r.frameScheduled == s.frameScheduled
    ensures SameOutside(s, r, c, c + 1)
    ensures r.views[c] == s.views[c].(attached := attached)
  {
    s.(views := s.views[c := s.views[c].(attached := attached)])
  }
}
