/**
 * `ChangeDetectorRef.checkNoChanges()`: the same walk as a refresh, in
 * check-no-changes mode. Every binding is evaluated again and compared with
 * the value committed by the last check; the first difference throws
 * ExpressionChangedAfterItHasBeenCheckedError with the previous and the
 * current value. Nothing is committed, no input is written and no lifecycle
 * hook runs, so the walk is a function of the state that changes nothing.
 */
module NoChangesCheck {
  import opened Base
  import opened ViewModel
  import opened Tree

  /** ExpressionChangedAfterItHasBeenCheckedError for binding `binding` of
      view `view`. */
  datatype Mismatch = ExpressionChanged(view: ViewId, binding: nat, previous: Option<Value>, current: Value)

  /** m names a binding whose committed value differs from the value its
      expression has now, and carries both. */
  ghost predicate Reported(L: Layout, s: State, m: Mismatch)
    requires WellFormed(L) && Valid(L, s)
  {
    && m.view < |L.views|
    && m.binding < |L.views[m.view].bindings|
    && ShapeOk(L, m.view)
    && m.previous == s.views[m.view].committed[m.binding]
    && m.current == Eval(L, s, m.view, L.views[m.view].bindings[m.binding].expr)
    && m.previous != Some(m.current)
  }

  /** Bindings i.. of view v, in order; the first changed one fails. */
  function CheckBindings(L: Layout, s: State, v: ViewId, i: nat): (r: Outcome<Mismatch>)
    requires WellFormed(L) && Valid(L, s) && v < |L.views| && i <= |L.views[v].bindings|
    ensures r.Pass? <==> forall j | i <= j < |L.views[v].bindings| :: BindingInSync(L, s, v, j)
    ensures r.Fail? ==>
              && r.error.view == v && i <= r.error.binding && Reported(L, s, r.error)
              && forall j | i <= j < r.error.binding :: BindingInSync(L, s, v, j)
    decreases |L.views[v].bindings| - i
  {
    assert ShapeOk(L, v);
    if i == |L.views[v].bindings| then Pass
    else
      var x := Eval(L, s, v, L.views[v].bindings[i].expr);
      var prev := s.views[v].committed[i];
      if prev == Some(x) then CheckBindings(L, s, v, i + 1)
      else
        assert !BindingInSync(L, s, v, i);
        Fail(ExpressionChanged(v, i, prev, x))
  }

  /** checkNoChanges from view v: its bindings, then its embedded views, then
      the child component views that pass the gate. It passes exactly when
      every view the walk reaches is in sync, and a failure names a binding
      in v's subtree with its previous and current value. */
  function NoChanges(L: Layout, s: State, v: ViewId): (r: Outcome<Mismatch>)
    requires WellFormed(L) && Valid(L, s) && v < |L.views|
    ensures r.Pass? <==> Settled(L, s, v)
    ensures r.Fail? ==> v <= r.error.view < L.views[v].end && Reported(L, s, r.error)
    decreases |L.views| - v, 2, 0
  {
    assert ShapeOk(L, v);
    SettledSplit(L, s, v);
    Then(CheckBindings(L, s, v, 0),
         Then(NoChangesEmbedded(L, s, v, |L.views[v].embedded|),
              NoChangesComponents(L, s, v, |L.views[v].components|)))
  }

  /** The first i embedded views of v, in order. */
  function NoChangesEmbedded(L: Layout, s: State, v: ViewId, i: nat): (r: Outcome<Mismatch>)
    requires WellFormed(L) && Valid(L, s) && v < |L.views| && i <= |L.views[v].embedded|
    ensures r.Pass? <==> EmbeddedSettled(L, s, v, i)
    ensures r.Fail? ==> v < r.error.view < L.views[v].end && Reported(L, s, r.error)
    decreases |L.views| - v, 1, i
  {
    assert ShapeOk(L, v);
    if i == 0 then Pass
    else
      var e := L.views[v].embedded[i - 1];
      ChildNested(L, v, e, false);
      Then(NoChangesEmbedded(L, s, v, i - 1), NoChanges(L, s, e))
  }

  /** The first i child component views of v, in order, each walked into if
      it passes the gate. */
  function NoChangesComponents(L: Layout, s: State, v: ViewId, i: nat): (r: Outcome<Mismatch>)
    requires WellFormed(L) && Valid(L, s) && v < |L.views| && i <= |L.views[v].components|
    ensures r.Pass? <==> ComponentsSettled(L, s, v, i)
    ensures r.Fail? ==> v < r.error.view < L.views[v].end && Reported(L, s, r.error)
    decreases |L.views| - v, 0, i
  {
    assert ShapeOk(L, v);
    if i == 0 then Pass
    else
      var c := L.views[v].components[i - 1];
      ChildNested(L, v, c, true);
      var first := NoChangesComponents(L, s, v, i - 1);
      if Gate(L, s, c) then Then(first, NoChanges(L, s, c)) else first
  }
}
