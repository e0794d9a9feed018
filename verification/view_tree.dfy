/**
 * The change-detection engine as the tests drive it: one object holding the
 * state of every view of a rendered application and the frame-scheduled
 * flag, updated in place by `renderComponent`, `tick`, `detectChanges`,
 * `markDirty` / `markForCheck`, the frame flush, `detach` / `reattach` and
 * the writes the tests make to component properties. Every method is proved
 * to leave exactly the state the functional model of the Traversal module
 * describes, so everything proved about that model holds of the engine.
 */
module Engine {
  import opened Base
  import opened ViewModel
  import Traversal
  import opened NoChangesCheck
  import Reaching

  /** Binding i of view v reads the object of a component view and, if it
      is an input binding, writes a property of a child component view. */
  lemma BindingShape(L: Layout, v: ViewId, i: nat)
    requires WellFormed(L) && v < |L.views| && i < |L.views[v].bindings|
    ensures BindingOk(L, v, L.views[v].bindings[i]) && L.views[v].context < |L.views|
  {
    assert ShapeOk(L, v);
  }

  /** Every view but the root has its parent before it. */
  lemma ParentShape(L: Layout, c: ViewId)
    requires WellFormed(L) && 0 < c < |L.views|
    ensures L.views[c].parent < c
  {
    assert ShapeOk(L, c);
  }

  /** The property an ngOnInit increments exists. */
  lemma HooksShape(L: Layout, c: ViewId)
    requires WellFormed(L) && c < |L.views|
    ensures L.views[c].hooks.onInitIncrement.Some? ==>
              L.views[c].hooks.onInitIncrement.value < |L.views[c].initialFields|
  {
    assert ShapeOk(L, c);
  }

  class ViewTree {
    /** The shape of the rendered application; it never changes. */
    const layout: Layout
    /** The change-detection state of each view, by view index. */
    var views: seq<ViewState>
    /** A tick is waiting for the next animation frame. */
    var frameScheduled: bool

    /** The state as a value of the functional model. */
    function Snapshot(): State
      reads this
    {
      State(views, frameScheduled)
    }

    ghost predicate Inv()
      reads this
    {
      WellFormed(layout) && Valid(layout, Snapshot())
    }

    /** `renderComponent`: creates every view and runs the creation-mode
        check from the root. */
    constructor (L: Layout)
      requires WellFormed(L)
      ensures Inv() && layout == L
      ensures Snapshot() == Traversal.RenderComponent(L)
    {
      layout := L;
      views := Initial(L).views;
      frameScheduled := false;
      new;
      RunRootHooks(true);
      DetectChanges(0);
    }

    /** Binding i of view v: evaluate it and, when it changed, commit it and
        write a changed input into the child component, marking an OnPush
        child dirty. */
    method Bind(v: ViewId, i: nat)
      requires Inv() && v < |layout.views| && i < |layout.views[v].bindings|
      modifies this
      ensures Inv() && Snapshot() == Traversal.BindOne(layout, old(Snapshot()), v, i)
    {
      BindingShape(layout, v, i);
      var b := layout.views[v].bindings[i];
      var ctx := layout.views[v].context;
      var x := match b.expr
        case Field(f) => views[ctx].fields[f]
        case DoCheckCounter => Number(views[ctx].doCheckCount);
      if views[v].committed[i] != Some(x) {
        views := views[v := views[v].(committed := views[v].committed[i := Some(x)])];
        if b.InputBinding? {
          var t := b.target;
          views := views[t := views[t].(fields := views[t].fields[b.input := x],
                                        dirty := views[t].dirty || layout.views[t].mode == OnPush)];
        }
      }
    }

    /** `detectChanges()` on view v (and the refresh a parent applies to an
        embedded view or to a child component view that passes the gate):
        bindings, embedded views, child hooks, gated child component views,
        then v is clean and out of creation mode. */
    method DetectChanges(v: ViewId)
      requires Inv() && v < |layout.views|
      modifies this
      ensures Inv() && Snapshot() == Traversal.Refresh(layout, old(Snapshot()), v)
      decreases |layout.views| - v, 4
    {
      ghost var s0 := Snapshot();
      Reaching.RefreshSteps(layout, s0, v);
      BindAll(v);
      RefreshEmbedded(v);
      DoChecks(v);
      RefreshComponents(v);
      views := views[v := views[v].(dirty := false, created := true)];
    }

    /** Step 1 of a refresh: the bindings of v in declaration order. */
    method BindAll(v: ViewId)
      requires Inv() && v < |layout.views|
      modifies this
      ensures Inv() && Snapshot() == Traversal.BindAll(layout, old(Snapshot()), v, |layout.views[v].bindings|)
    {
      ghost var s0 := Snapshot();
      var i := 0;
      while i < |layout.views[v].bindings|
        invariant i <= |layout.views[v].bindings| && Inv()
        invariant Snapshot() == Traversal.BindAll(layout, s0, v, i)
      {
        Bind(v, i);
        i := i + 1;
      }
    }

    /** Step 2 of a refresh: every embedded view of v, in order. */
    method RefreshEmbedded(v: ViewId)
      requires Inv() && v < |layout.views|
      modifies this
      ensures Inv() && Snapshot() == Traversal.RefreshEmbedded(layout, old(Snapshot()), v, |layout.views[v].embedded|)
      decreases |layout.views| - v, 2
    {
      ghost var s0 := Snapshot();
      var k := 0;
      while k < |layout.views[v].embedded|
        invariant k <= |layout.views[v].embedded|
        invariant Snapshot() == Traversal.RefreshEmbedded(layout, s0, v, k)
      {
        EmbeddedChild(layout, v, k);
        var e := layout.views[v].embedded[k];
        DetectChanges(e);
        k := k + 1;
      }
    }

    /** Step 3 of a refresh: the hooks of the child components of v. */
    method DoChecks(v: ViewId)
      requires Inv() && v < |layout.views|
      modifies this
      ensures Inv() && Snapshot() == Traversal.DoChecks(layout, old(Snapshot()), v, |layout.views[v].components|)
      decreases |layout.views| - v, 1
    {
      ghost var s0 := Snapshot();
      var k := 0;
      while k < |layout.views[v].components|
        invariant k <= |layout.views[v].components| && Inv()
        invariant Snapshot() == Traversal.DoChecks(layout, s0, v, k)
      {
        ComponentChild(layout, v, k);
        var c := layout.views[v].components[k];
        RunHooks(c);
        k := k + 1;
      }
    }

    /** Step 4 of a refresh: each child component view of v that passes the
        gate (attached, and CheckAlways or dirty). */
    method RefreshComponents(v: ViewId)
      requires Inv() && v < |layout.views|
      modifies this
      ensures Inv() && Snapshot() == Traversal.RefreshComponents(layout, old(Snapshot()), v, |layout.views[v].components|)
      decreases |layout.views| - v, 0
    {
      ghost var s0 := Snapshot();
      var k := 0;
      while k < |layout.views[v].components|
        invariant k <= |layout.views[v].components| && Inv()
        invariant Snapshot() == Traversal.RefreshComponents(layout, s0, v, k)
      {
        ComponentChild(layout, v, k);
        var c := layout.views[v].components[k];
        if views[c].attached && (layout.views[c].mode == Default || views[c].dirty) {
          DetectChanges(c);
        }
        k := k + 1;
      }
    }

    /** The hooks a parent runs for child component c: ngOnInit while the
        parent is in creation mode, then ngDoCheck. */
    method RunHooks(c: ViewId)
      requires Inv() && 0 < c < |layout.views|
      modifies this
      ensures Inv() && Snapshot() == Traversal.DoCheck(layout, old(Snapshot()), c)
      decreases |layout.views| - c, 7
    {
      ParentShape(layout, c);
      if !views[layout.views[c].parent].created {
        RunOnInit(c);
      }
      RunNgDoCheck(c);
    }

    /** ngOnInit of component c. */
    method RunOnInit(c: ViewId)
      requires Inv() && c < |layout.views|
      modifies this
      ensures Inv() && Snapshot() == Traversal.OnInit(layout, old(Snapshot()), c)
      decreases |layout.views| - c, 5
    {
      HooksShape(layout, c);
      var h := layout.views[c].hooks;
      if h.onInitIncrement.Some? {
        var f := h.onInitIncrement.value;
        views := views[c := views[c].(fields := views[c].fields[f := Traversal.Increment(views[c].fields[f])])];
      }
      if h.onInitDetects {
        DetectChanges(c);
      }
    }

    /** ngDoCheck of component c. */
    method RunNgDoCheck(c: ViewId)
      requires Inv() && c < |layout.views|
      modifies this
      ensures Inv() && Snapshot() == Traversal.NgDoCheck(layout, old(Snapshot()), c)
      decreases |layout.views| - c, 6
    {
      views := views[c := views[c].(doCheckCount := views[c].doCheckCount + 1)];
      if layout.views[c].hooks.doCheckDetects {
        DetectChanges(c);
      }
    }

    /** The root component's hooks, run by the host view. */
    method RunRootHooks(creation: bool)
      requires Inv()
      modifies this
      ensures Inv() && Snapshot() == Traversal.RootHooks(layout, old(Snapshot()), creation)
    {
      if layout.rootHooks {
        if creation {
          RunOnInit(0);
        }
        RunNgDoCheck(0);
      }
    }

    /** `tick(root)`. */
    method Tick()
      requires Inv()
      modifies this
      ensures Inv() && Snapshot() == Traversal.Tick(layout, old(Snapshot()))
    {
      RunRootHooks(false);
      if views[0].attached && (layout.views[0].mode == Default || views[0].dirty) {
        DetectChanges(0);
      }
    }

    /** `markDirty(component)`, `markForCheck()` and a fired listener: walk
        from v up the parent links to the root marking every view dirty,
        then schedule a tick. */
    method MarkDirty(v: ViewId)
      requires Inv() && v < |layout.views|
      modifies this
      ensures Inv() && Snapshot() == Traversal.MarkDirty(layout, old(Snapshot()), v)
    {
      ghost var s0 := Snapshot();
      var u: ViewId := v;
      while true
        invariant u < |layout.views| && Inv()
        invariant Traversal.MarkAncestors(layout, Snapshot(), u) == Traversal.MarkAncestors(layout, s0, v)
        decreases u
      {
        views := views[u := views[u].(dirty := true)];
        if u == 0 {
          break;
        }
        ParentShape(layout, u);
        u := layout.views[u].parent;
      }
      frameScheduled := true;
    }

    /** `requestAnimationFrame.flush()`: run the scheduled tick, if any. */
    method Flush()
      requires Inv()
      modifies this
      ensures Inv() && Snapshot() == Traversal.Flush(layout, old(Snapshot()))
    {
      if frameScheduled {
        frameScheduled := false;
        Tick();
      }
    }

    /** `ChangeDetectorRef.detach()` on the component view c whose
        ChangeDetectorRef was injected. */
    method Detach(c: ViewId)
      requires Inv() && c < |layout.views| && layout.views[c].isComponent
      modifies this
      ensures Inv() && Snapshot() == Traversal.SetAttached(layout, old(Snapshot()), c, false)
    {
      views := views[c := views[c].(attached := false)];
    }

    /** `ChangeDetectorRef.reattach()` on the component view c. */
    method Reattach(c: ViewId)
      requires Inv() && c < |layout.views| && layout.views[c].isComponent
      modifies this
      ensures Inv() && Snapshot() == Traversal.SetAttached(layout, old(Snapshot()), c, true)
    {
      views := views[c := views[c].(attached := true)];
    }

    /** A test assigns value x to property f of the component of view c. */
    method SetField(c: ViewId, f: nat, x: Value)
      requires Inv() && c < |layout.views| && f < |layout.views[c].initialFields|
      modifies this
      ensures Inv() && Snapshot() == Traversal.SetField(layout, old(Snapshot()), c, f, x)
    {
      views := views[c := views[c].(fields := views[c].fields[f := x])];
    }

    /** `checkNoChanges()` on view v: the walk of a refresh, reading only.
        The first binding whose value changed since the last check is
        reported with its previous and current value. */
    method CheckNoChanges(v: ViewId) returns (r: Outcome<Mismatch>)
      requires Inv() && v < |layout.views|
      ensures r == NoChanges(layout, Snapshot(), v)
      decreases |layout.views| - v, 2
    {
      r := CheckBindingsOf(v);
      if r.Pass? {
        r := CheckEmbedded(v);
        if r.Pass? {
          r := CheckComponents(v);
        }
      }
    }

    /** The bindings of v in order, stopping at the first changed one. */
    method CheckBindingsOf(v: ViewId) returns (r: Outcome<Mismatch>)
      requires Inv() && v < |layout.views|
      ensures r == CheckBindings(layout, Snapshot(), v, 0)
    {
      var i := 0;
      while i < |layout.views[v].bindings|
        invariant i <= |layout.views[v].bindings|
        invariant CheckBindings(layout, Snapshot(), v, 0) == CheckBindings(layout, Snapshot(), v, i)
      {
        BindingShape(layout, v, i);
        var b := layout.views[v].bindings[i];
        var ctx := layout.views[v].context;
        var x := match b.expr
          case Field(f) => views[ctx].fields[f]
          case DoCheckCounter => Number(views[ctx].doCheckCount);
        if views[v].committed[i] != Some(x) {
          return Fail(ExpressionChanged(v, i, views[v].committed[i], x));
        }
        i := i + 1;
      }
      r := Pass;
    }

    /** The embedded views of v in order; after the first failure the
        remaining ones are skipped. */
    method CheckEmbedded(v: ViewId) returns (r: Outcome<Mismatch>)
      requires Inv() && v < |layout.views|
      ensures r == NoChangesEmbedded(layout, Snapshot(), v, |layout.views[v].embedded|)
      decreases |layout.views| - v, 1
    {
      r := Pass;
      var k := 0;
      while k < |layout.views[v].embedded|
        invariant k <= |layout.views[v].embedded|
        invariant r == NoChangesEmbedded(layout, Snapshot(), v, k)
      {
        EmbeddedChild(layout, v, k);
        if r.Pass? {
          r := CheckNoChanges(layout.views[v].embedded[k]);
        }
        k := k + 1;
      }
    }

    /** The child component views of v that pass the gate, in order; after
        the first failure the remaining ones are skipped. */
    method CheckComponents(v: ViewId) returns (r: Outcome<Mismatch>)
      requires Inv() && v < |layout.views|
      ensures r == NoChangesComponents(layout, Snapshot(), v, |layout.views[v].components|)
      decreases |layout.views| - v, 0
    {
      r := Pass;
      var k := 0;
      while k < |layout.views[v].components|
        invariant k <= |layout.views[v].components|
        invariant r == NoChangesComponents(layout, Snapshot(), v, k)
      {
        ComponentChild(layout, v, k);
        var c := layout.views[v].components[k];
        if r.Pass? && views[c].attached && (layout.views[c].mode == Default || views[c].dirty) {
          r := CheckNoChanges(c);
        }
        k := k + 1;
      }
    }
  }
}
