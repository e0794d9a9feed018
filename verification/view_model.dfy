/**
 * The data model of the view tree: the static shape of every view (what its
 * template binds, which embedded and component views it holds, its check
 * strategy, its user lifecycle hooks) and the mutable state that change
 * detection reads and writes (view flags, committed binding values,
 * component fields and doCheck counters, the frame-scheduled flag).
 *
 * Views live in an arena indexed 0 .. N-1 in depth-first preorder: view 0 is
 * the root component view, every other view has a parent with a smaller
 * index, and the views of the subtree rooted at v are exactly the indices in
 * [v, end(v)).
 */
module ViewModel {
  import opened Base

  type ViewId = nat

  /** ChangeDetectionStrategy: Default views are checked whenever their parent
      is; OnPush views only when dirty. */
  datatype Mode = Default | OnPush

  /** A bound value: the tests bind strings and numbers. */
  datatype Value = Text(s: string) | Number(n: int)

  /** What a binding reads from its context component. */
  datatype Expr =
    | Field(index: nat)      // a property of the component object, e.g. `ctx.name`
    | DoCheckCounter         // the component's `doCheckCount`

  /** One binding of a view's template, in declaration order. */
  datatype Binding =
    | TextBinding(expr: Expr)                               // textBinding(i, bind(..)), one interpolated value
    | InputBinding(expr: Expr, target: ViewId, input: nat)  // elementProperty on a child component's input

  /** User lifecycle code of a component: `ngOnInit` may increment a numeric
      field and may call `cdr.detectChanges()`; `ngDoCheck` increments
      `doCheckCount` and may call `cdr.detectChanges()`. */
  datatype Hooks = Hooks(onInitIncrement: Option<nat>, onInitDetects: bool, doCheckDetects: bool)
  {
    /** Neither hook calls `cdr.detectChanges()`. */
    predicate Quiet()
    {
      !onInitDetects && !doCheckDetects
    }
  }

  datatype ViewShape = ViewShape(
    isComponent: bool,          // a component's view, or an embedded view of a container
    mode: Mode,                 // check strategy (only consulted for component views)
    parent: ViewId,             // owning view (unused for the root)
    end: nat,                   // the subtree of this view is [this, end)
    context: ViewId,            // the component whose object the bindings read
    bindings: seq<Binding>,
    embedded: seq<ViewId>,      // embedded views of this view's containers, in order
    components: seq<ViewId>,    // child component views, in declaration order
    initialFields: seq<Value>,  // initial property values of the component object
    hooks: Hooks)

  /** A rendered application: its views and whether the root component's
      lifecycle hooks run (renderComponent's LifecycleHooksFeature). */
  datatype Layout = Layout(views: seq<ViewShape>, rootHooks: bool)

  ghost predicate ExprOk(L: Layout, v: ViewId, e: Expr)
    requires v < |L.views|
  {
    && L.views[v].context < |L.views|
    && (e.Field? ==> e.index < |L.views[L.views[v].context].initialFields|)
  }

  ghost predicate BindingOk(L: Layout, v: ViewId, b: Binding)
    requires v < |L.views|
  {
    && ExprOk(L, v, b.expr)
    && (b.InputBinding? ==>
          && 0 < b.target < |L.views|
          && L.views[b.target].parent == v
          && L.views[b.target].isComponent
          && b.input < |L.views[b.target].initialFields|)
  }

  ghost predicate Distinct(s: seq<ViewId>)
  {
    forall i, j | 0 <= i < j < |s| :: s[i] != s[j]
  }

  /** A child view c listed by view v: a component view or an embedded view. */
  ghost predicate ChildOk(L: Layout, v: ViewId, c: ViewId, component: bool)
  {
    0 < c < |L.views| && L.views[c].parent == v && L.views[c].isComponent == component
  }

  /** The local well-formedness of view v. */
  ghost predicate ShapeOk(L: Layout, v: ViewId)
    requires v < |L.views|
  {
    var n := |L.views|;
    var sh := L.views[v];
    && v < sh.end <= n
    && (v > 0 ==> sh.parent < v < L.views[sh.parent].end)
    && sh.context <= v
    && L.views[sh.context].isComponent
    && (sh.isComponent ==> sh.context == v)
    && (!sh.isComponent ==> v > 0 && sh.context == L.views[sh.parent].context)
    && (forall i | 0 <= i < |sh.embedded| :: ChildOk(L, v, sh.embedded[i], false))
    && (forall i | 0 <= i < |sh.components| :: ChildOk(L, v, sh.components[i], true))
    && Distinct(sh.embedded)
    && Distinct(sh.components)
    && (forall i | 0 <= i < |sh.bindings| :: BindingOk(L, v, sh.bindings[i]))
    && (sh.hooks.onInitIncrement.Some? ==> sh.hooks.onInitIncrement.value < |sh.initialFields|)
  }

  /** A layout the engine can render. It is stated through Arranged so
      that a caller establishes it as one fact. */
  ghost predicate WellFormed(L: Layout)
  {
    Arranged(L)
  }

  /** The root is a component view spanning every view, each view is
      locally well formed, subtrees nest, and every view but the root is
      listed by its parent. */
  ghost predicate Arranged(L: Layout)
  {
    var n := |L.views|;
    && n > 0
    && L.views[0].isComponent
    && L.views[0].end == n
    && (forall v | 0 <= v < n :: ShapeOk(L, v))
    && (forall v, w | 0 <= v < w < n :: Nested(L, v, w))
    && (forall w | 0 < w < n :: Listed(L, w))
  }

  /** Subtrees nest: a view inside [v, end(v)) has its parent and its own
      subtree inside it as well. */
  ghost predicate Nested(L: Layout, v: ViewId, w: ViewId)
    requires v < w < |L.views|
  {
    w < L.views[v].end ==> v <= L.views[w].parent && L.views[w].end <= L.views[v].end
  }

  /** View w is one of the children its parent lists. */
  ghost predicate Listed(L: Layout, w: ViewId)
    requires w < |L.views|
  {
    var p := L.views[w].parent;
    p < |L.views| && (w in L.views[p].embedded || w in L.views[p].components)
  }

  /** The change-detection state of one view and, for a component view, of
      its component object. */
  datatype ViewState = ViewState(
    dirty: bool,                     // LViewFlags.Dirty
    attached: bool,                  // cleared by ChangeDetectorRef.detach()
    created: bool,                   // the creation-mode check has run
    committed: seq<Option<Value>>,   // last value committed per binding (None: not yet bound)
    fields: seq<Value>,              // properties of the component object
    doCheckCount: nat)               // ngDoCheck invocations of the component

  /** The whole state: one entry per view, and whether a tick is waiting for
      the next animation frame. */
  datatype State = State(views: seq<ViewState>, frameScheduled: bool)

  ghost predicate ViewStateOk(L: Layout, v: ViewId, x: ViewState)
    requires v < |L.views|
  {
    |x.committed| == |L.views[v].bindings| && |x.fields| == |L.views[v].initialFields|
  }

  ghost predicate Valid(L: Layout, s: State)
  {
    && |s.views| == |L.views|
    && (forall v | 0 <= v < |L.views| :: ViewStateOk(L, v, s.views[v]))
  }

  /** The state right after every view has been created and before the first
      check: views start dirty (a new view is always checked), attached and
      in creation mode, with nothing bound yet. */
  function Initial(L: Layout): (s: State)
    ensures Valid(L, s)
    ensures forall v | 0 <= v < |L.views| ::
              && s.views[v].dirty && s.views[v].attached && !s.views[v].created
              && s.views[v].doCheckCount == 0
              && s.views[v].fields == L.views[v].initialFields
              && (forall i | 0 <= i < |s.views[v].committed| :: s.views[v].committed[i] == None)
    ensures !s.frameScheduled
  {
    var n := |L.views|;
    State(seq(n, v requires 0 <= v < n =>
                ViewState(true, true, false, seq(|L.views[v].bindings|, _ => None), L.views[v].initialFields, 0)),
          false)
  }

  /** The current value of a binding expression of view v. */
  function Eval(L: Layout, s: State, v: ViewId, e: Expr): Value
    requires Valid(L, s) && v < |L.views|
    requires ExprOk(L, v, e)
  {
    var c := s.views[L.views[v].context];
    match e
    case Field(f) => c.fields[f]
    case DoCheckCounter => Number(c.doCheckCount)
  }

  /** Binding i of view v shows the value its expression has now. */
  ghost predicate BindingInSync(L: Layout, s: State, v: ViewId, i: nat)
    requires WellFormed(L) && Valid(L, s) && v < |L.views| && i < |L.views[v].bindings|
  {
    assert ShapeOk(L, v);
    s.views[v].committed[i] == Some(Eval(L, s, v, L.views[v].bindings[i].expr))
  }

  /** Every binding of view v shows the value its expression has now: what is
      rendered for v is up to date. */
  ghost predicate InSync(L: Layout, s: State, v: ViewId)
    requires WellFormed(L) && Valid(L, s) && v < |L.views|
  {
    forall i | 0 <= i < |L.views[v].bindings| :: BindingInSync(L, s, v, i)
  }

  /** The gate a parent applies before refreshing a child component view
      (only attached CheckAlways views or attached dirty OnPush views). */
  predicate Gate(L: Layout, s: State, c: ViewId)
    requires c < |L.views| && c < |s.views|
  {
    s.views[c].attached && (L.views[c].mode == Default || s.views[c].dirty)
  }

  /** Frame: every view outside [lo, hi) is unchanged. */
  ghost predicate SameOutside(s: State, t: State, lo: nat, hi: nat)
  {
    && |t.views| == |s.views|
    && forall w {:trigger t.views[w]} | 0 <= w < |s.views| && !(lo <= w < hi) :: t.views[w] == s.views[w]
  }

  /** Frame: the component object of view v is unchanged. */
  ghost predicate SameObject(s: State, t: State, v: ViewId)
  {
    && v < |s.views| && v < |t.views|
    && t.views[v].fields == s.views[v].fields 
    && t.views[v].doCheckCount == s.views[v].doCheckCount
  }

  /** No view was detached or reattached. */
  ghost predicate SameAttachment(s: State, t: State)
  {
    && |t.views| == |s.views|
    && forall w {:trigger t.views[w].attached} | 0 <= w < |s.views| :: t.views[w].attached == s.views[w].attached
  }

  /** A child listed by v lies strictly inside v's subtree, and so does its own subtree. */
  lemma ChildNested(L: Layout, v: ViewId, c: ViewId, component: bool)
    requires WellFormed(L) && v < |L.views| && ChildOk(L, v, c, component)
    ensures v < c < L.views[c].end <= L.views[v].end
  {
    assert ShapeOk(L, c);
    assert Nested(L, v, c);
  }

  /** Two different children of one view have disjoint subtrees. */
  lemma SiblingsDisjoint(L: Layout, v: ViewId, a: ViewId, ka: bool, b: ViewId, kb: bool)
    requires WellFormed(L) && v < |L.views| && ChildOk(L, v, a, ka) && ChildOk(L, v, b, kb) && a != b
    ensures L.views[a].end <= b || L.views[b].end <= a
  {
    ChildNested(L, v, a, ka);
    ChildNested(L, v, b, kb);
    if a < b { assert Nested(L, a, b); } else { assert Nested(L, b, a); }
  }

  /** A binding stays in sync while its view's committed values and its
      context object are unchanged. */
  lemma BindingKept(L: Layout, s: State, t: State, v: ViewId, i: nat)
    requires WellFormed(L) && Valid(L, s) && Valid(L, t) && v < |L.views| && i < |L.views[v].bindings|
    requires BindingInSync(L, s, v, i)
    requires t.views[v].committed[i] == s.views[v].committed[i]
    requires SameObject(s, t, L.views[v].context)
    ensures BindingInSync(L, t, v, i)
  {
    assert ShapeOk(L, v);
  }

  /** A view stays in sync while its committed values and its context object
      are unchanged. */
  lemma SyncKept(L: Layout, s: State, t: State, v: ViewId)
    requires WellFormed(L) && Valid(L, s) && Valid(L, t) && v < |L.views|
    requires InSync(L, s, v)
    requires t.views[v].committed == s.views[v].committed
    requires SameObject(s, t, L.views[v].context)
    ensures InSync(L, t, v)
  {
    forall i | 0 <= i < |L.views[v].bindings| ensures BindingInSync(L, t, v, i) {
      assert BindingInSync(L, s, v, i);
      BindingKept(L, s, t, v, i);
    }
  }

  /** A component view stays in sync while its own entry is unchanged (its
      bindings read its own component object). */
  lemma ComponentSyncKept(L: Layout, s: State, t: State, c: ViewId)
    requires WellFormed(L) && Valid(L, s) && Valid(L, t) && c < |L.views| && L.views[c].isComponent
    requires InSync(L, s, c) && t.views[c] == s.views[c]
    ensures InSync(L, t, c)
  {
    assert ShapeOk(L, c);
    SyncKept(L, s, t, c);
  }

  /** Embedded view k of v is a child of v nested inside its subtree. */
  lemma EmbeddedChild(L: Layout, v: ViewId, k: nat)
    requires WellFormed(L) && v < |L.views| && k < |L.views[v].embedded|
    ensures var e := L.views[v].embedded[k];
            ChildOk(L, v, e, false) && v < e < L.views[e].end <= L.views[v].end
  {
    assert ShapeOk(L, v);
    ChildNested(L, v, L.views[v].embedded[k], false);
  }

  /** Child component view k of v is a child of v nested inside its subtree. */
  lemma ComponentChild(L: Layout, v: ViewId, k: nat)
    requires WellFormed(L) && v < |L.views| && k < |L.views[v].components|
    ensures var c := L.views[v].components[k];
            ChildOk(L, v, c, true) && v < c < L.views[c].end <= L.views[v].end
  {
    assert ShapeOk(L, v);
    ChildNested(L, v, L.views[v].components[k], true);
  }
}
