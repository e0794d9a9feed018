# Change detection of the render3 view engine, and the expected-output matcher of the compiler tests

This project models two pieces of the Angular repository and proves properties of them.

**The render3 change-detection engine, as its tests pin it down.** The model covers:

- `renderComponent`, `tick`, `detectChanges` and `ChangeDetectorRef.detectChanges()`;
- `markDirty`, `markForCheck()` and `requestAnimationFrame.flush()`;
- `detach()` / `reattach()` and `checkNoChanges()`;
- writes a test makes to component properties.

A rendered application is a `Layout`: its views in preorder, where each view's subtree is the index range `[v, end)`. Each view has:

- its bindings, in declaration order;
- its embedded views (the contents of its containers) and its child component views;
- for a component view, its check strategy (`Default` or `OnPush`), its component's properties and its lifecycle hooks.

The state of each view is its dirty, attached and creation-mode flags, the last values its bindings committed, and its component's properties and `ngDoCheck` counter. A flag records whether a tick is scheduled for the next animation frame.

The model has two layers:

- **Functional specification** (module `Traversal`): a refresh of view `v` runs four steps:
  1. its bindings;
  2. its embedded views;
  3. the hooks of its child components;
  4. each child component view that passes the gate: attached, and `Default` or dirty.

  Then `v` is clean and leaves creation mode.
- **Imperative engine** (class `Engine.ViewTree`): holds that state in fields and updates it in place. Each of its methods is proved to leave exactly the state the functional specification describes. So everything proved about the specification holds of the engine.

The properties proved are the ones the tests rely on (modules `Behaviour`, `Gating`, `Reaching`, `Settling`). For example:

- the creation pass checks every view, OnPush ones included;
- marks coalesce, and a flush runs one tick;
- a parent always runs a child's `ngDoCheck`, but refreshes the child's view only through the gate;
- `checkNoChanges` reports a binding exactly when its value changed, and passes straight after a refresh.

**Three functions of the compiler's test helper `mock_compile.ts`:**

- `tokenize`, which splits an expected output into tokens (module `Tokenizer`, on the TOKEN recogniser of `TokenRecogniser` as it is written; the corrected recogniser of the finding below is modelled beside it);
- `r`, which builds the regular expression that matches the pieces (module `PatternBuilder`);
- `getBackPatchFunctionName`, which names a back-patch function after the file path and the type name (module `BackPatch`).

The regular expressions these functions use are written out as functions over strings:

- greedy runs and leftmost-first alternation;
- `.` stopping at line terminators;
- `\w`, `\W` and `\s` as JavaScript defines them.

`tokenize` and `r` are loops over mutable locals, so they are methods with loop invariants. Each is proved equal to a recursive definition, and the properties are proved about that definition.

**Modelling choices of the engine, as its tests pin them down:**

- A refresh passes every child component view through the same gate, a `detectChanges()` on the parent included. The test at `change_detection_spec.ts:379-390` shows a clean OnPush child left unrefreshed by its parent's `detectChanges()`.
- Marking a view marks every ancestor dirty, and each marked ancestor is then refreshed in full, across embedded views too (`change_detection_spec.ts:814-883`).
- Lifecycle hooks run only when a parent view runs them for its child components, and for the root when the host view runs them. The test at `change_detection_spec.ts:358-367` shows that `detectChanges()` on a component does not run that component's own `ngDoCheck`.

## Model

| member | source | states |
|---|---|---|
| Text.RunSpec | packages/compiler/test/render3/mock_compile.ts:34 | a greedy `[...]*`/`\s+` run takes every character that satisfies the class and stops at the first one that does not |
| Text.Decimal | packages/compiler/test/render3/mock_compile.ts:117 | the group number written in a back-reference is a non-empty string of digits with no leading zero |
| Text.DecimalRoundTrip | packages/compiler/test/render3/mock_compile.ts:113-117 | reading the digits back gives the number, so distinct groups get distinct back-references |
| TokenRecogniser.OperatorsStartPunctuation | packages/compiler/test/render3/mock_compile.ts:27-28 | every alternative of OPERATOR is non-empty and starts with printable ASCII punctuation |
| TokenRecogniser.FirstPrefixSpec | packages/compiler/test/render3/mock_compile.ts:27-28 | the alternation of literals finds one of the listed operators, and finds none only when no listed operator starts the text |
| TokenRecogniser.IdentifierSound | packages/compiler/test/render3/mock_compile.ts:26 | what IDENTIFIER matches is a whole identifier: a start character, then identifier characters |
| TokenRecogniser.OperatorSound | packages/compiler/test/render3/mock_compile.ts:27-28 | what OPERATOR matches is one of its listed operators |
| TokenRecogniser.StringSound | packages/compiler/test/render3/mock_compile.ts:29 | what the corrected STRING matches is a whole quoted literal closed by its own quote |
| TokenRecogniser.NumberSound | packages/compiler/test/render3/mock_compile.ts:30 | what NUMBER matches is a non-empty run of digits |
| TokenRecogniser.QuotedComplete | packages/compiler/test/render3/mock_compile.ts:29 | a quoted alternative (the single-quoted and backtick ones as written, the double-quoted one as corrected) matches every such literal at the start of the text, with exactly its length |
| TokenRecogniser.NextTokenChoice | packages/compiler/test/render3/mock_compile.ts:32-33 | TOKEN tries identifier, operator, string, number and ellipsis in that order and takes the first that matches |
| TokenRecogniser.TokenStart | packages/compiler/test/render3/mock_compile.ts:32-34 | no token starts with white space, so the white space skipped after a token never belongs to the next one |
| TokenRecogniser.TokenAvailable | packages/compiler/test/render3/mock_compile.ts:32-33 | whenever some prefix of the text is a whole token, the corrected TOKEN matches |
| TokenRecogniser.NextTokenSpec | packages/compiler/test/render3/mock_compile.ts:32-33 | the corrected TOKEN against its reference: it matches only whole tokens, and fails exactly when no prefix of the text is a token |
| TokenRecogniser.StopAsWritten | packages/compiler/test/render3/mock_compile.ts:29 | the greedy class `[^'\n]*` after an opening `"` runs up to the first apostrophe or line feed, or to the end of the text |
| TokenRecogniser.StringMatchAsWritten | packages/compiler/test/render3/mock_compile.ts:29 | STRING as written: a match ends with the quote it began with; a double-quoted one backs off to the last `"` before the first apostrophe or line feed, and there is none when no `"` lies before it; other quotes match as corrected |
| TokenRecogniser.StringAsWrittenSound | packages/compiler/test/render3/mock_compile.ts:29 | what STRING as written matches is a whole literal of its language: a double-quoted one may hold `"` but neither an apostrophe nor a line feed |
| TokenRecogniser.StringAsWrittenLongest | packages/compiler/test/render3/mock_compile.ts:29 | STRING as written takes the longest double-quoted literal of that language at the start of the text |
| TokenRecogniser.NoOperatorAtQuote | packages/compiler/test/render3/mock_compile.ts:27-28 | no operator starts with a quote, so OPERATOR never matches at one |
| TokenRecogniser.AtQuote | packages/compiler/test/render3/mock_compile.ts:32-33 | at an opening quote TOKEN is STRING, as written and corrected |
| TokenRecogniser.NextTokenAsWrittenChoice | packages/compiler/test/render3/mock_compile.ts:32-33 | TOKEN as written tries identifier, operator, string as written, number and ellipsis in that order and takes the first that matches |
| TokenRecogniser.NextTokenAsWritten | packages/compiler/test/render3/mock_compile.ts:32-33 | TOKEN as written, the first alternative that matches at the start of the text: a match takes at least one character and no more than the text holds |
| TokenRecogniser.TokenAsWrittenAvailable | packages/compiler/test/render3/mock_compile.ts:26-33 | whenever some prefix of the text is a whole word of the language of TOKEN as written, TOKEN as written matches |
| TokenRecogniser.NextTokenAsWrittenSpec | packages/compiler/test/render3/mock_compile.ts:26-33 | TOKEN as written against its language: it matches only whole words of it, and fails exactly when no prefix of the text is one |
| TokenRecogniser.TwoStringsAsWritten | packages/compiler/test/render3/mock_compile.ts:29 | on `"a" + "b"` TOKEN as written takes all nine characters as one token |
| TokenRecogniser.TwoStringsCorrected | packages/compiler/test/render3/mock_compile.ts:29 | on `"a" + "b"` the corrected TOKEN takes `"a"` only |
| TokenRecogniser.ApostropheAsWritten | packages/compiler/test/render3/mock_compile.ts:29 | `"it's"` is a double-quoted literal, yet STRING as written does not match it |
| TokenRecogniser.ApostropheCorrected | packages/compiler/test/render3/mock_compile.ts:29 | the corrected STRING matches `"it's"` in full |
| Tokenizer.NextTokenAsWrittenRecogniser | packages/compiler/test/render3/mock_compile.ts:49-56 | the token step of `tokenize` consumes at least one character, and only a whole word of the language of TOKEN as written |
| Tokenizer.NextTokenRecogniser | packages/compiler/test/render3/mock_compile.ts:49-56 | with the corrected TOKEN the token step consumes at least one character, and only a whole token |
| Tokenizer.LexConsumes | packages/compiler/test/render3/mock_compile.ts:58-70 | a run that succeeds consumes the whole text: its tokens and the white space after each spell the text again |
| Tokenizer.LexTokens | packages/compiler/test/render3/mock_compile.ts:49-56 | every lexeme of a successful run is a whole token followed by nothing but white space |
| Tokenizer.LexError | packages/compiler/test/render3/mock_compile.ts:50-53 | a failing run throws for some remainder of the text where no token matches, quoting that remainder's first 30 characters |
| Tokenizer.PiecesOf | packages/compiler/test/render3/mock_compile.ts:61-68 | one piece per token, in order: `IDENT` becomes the identifier pattern, the ellipsis the skip pattern, anything else stays literal |
| Tokenizer.Classify | packages/compiler/test/render3/mock_compile.ts:61-68 | reference definition, no contract of its own: the piece one token becomes; PiecesOf states what it gives for each token |
| Tokenizer.Lex | packages/compiler/test/render3/mock_compile.ts:49-70 | reference definition, no contract of its own: take a token with the recogniser or fail with the message of :52, skip the white space after it, go on; LexConsumes, LexTokens and LexError state its properties |
| Tokenizer.Tokens | packages/compiler/test/render3/mock_compile.ts:42-71 | reference definition of `tokenize`, no contract of its own: the leading white space skipped, then the pieces of the lexemes of TOKEN as written; Tokenize is proved equal to it for every input |
| Tokenizer.Tokenize | packages/compiler/test/render3/mock_compile.ts:42-71 | the loop, with TOKEN as written, returns the pieces of the lexemes of the text after its leading white space, or the error of the first place without a token |
| Tokenizer.ApostropheTokens | packages/compiler/test/render3/mock_compile.ts:29 | `tokenize('"it\'s"')` throws "no token found" |
| Tokenizer.ApostropheTokensIntended | packages/compiler/test/render3/mock_compile.ts:29 | with the corrected TOKEN, `"it's"` is one literal piece |
| Tokenizer.TwoStringsTokens | packages/compiler/test/render3/mock_compile.ts:29 | `tokenize('"a" + "b"')` gives one literal piece holding the whole text, so the pattern requires exactly that spacing |
| PatternBuilder.EscapeRoundTrip | packages/compiler/test/render3/mock_compile.ts:120 | escaping a literal piece loses nothing: unescaping gives the literal back |
| PatternBuilder.NamesSpec | packages/compiler/test/render3/mock_compile.ts:104-118 | the placeholders numbered by `r` are exactly those in the pieces, each once, and one group is opened per placeholder |
| PatternBuilder.GroupNumbering | packages/compiler/test/render3/mock_compile.ts:110-118 | the first occurrence of a placeholder opens a group around IDENT; each later one back-references the number of that group |
| PatternBuilder.BuildPattern | packages/compiler/test/render3/mock_compile.ts:99-127 | the loop with its `first` flag, group counter and map builds exactly the joined pattern of the pieces |
| PatternBuilder.PieceBody | packages/compiler/test/render3/mock_compile.ts:109-125 | what one iteration pushes after the separator is the body the pattern gives that piece, and afterwards the map and the counter number every placeholder seen so far, one group each, in order of first appearance |
| PatternBuilder.EmittedJoined | packages/compiler/test/render3/mock_compile.ts:100-126 | joining the parts the loop has pushed for the first n pieces gives the pattern of those pieces: a separator before every piece but the first, then its body |
| PatternBuilder.Pattern | packages/compiler/test/render3/mock_compile.ts:99-127 | reference definition of `r`, no contract of its own: the fragments of the pieces joined in order; BuildPattern, GroupNumbering and NamesSpec state its properties |
| PatternBuilder.Separator | packages/compiler/test/render3/mock_compile.ts:106-107 | reference definition, no contract of its own: `\s+` before a literal piece that starts lower-case then upper-case, `\s*` before any other piece |
| PatternBuilder.Body | packages/compiler/test/render3/mock_compile.ts:109-125 | reference definition, no contract of its own: a regular expression piece wrapped in `(?:…)`, a placeholder as a new group or a back-reference, any other literal escaped; GroupNumbering and EscapeRoundTrip state its properties |
| PatternBuilder.Escape | packages/compiler/test/render3/mock_compile.ts:120 | escaping a non-empty literal gives a non-empty text that does not start with a special character; EscapeAt states where every character goes, EscapeRoundTrip that nothing is lost |
| PatternBuilder.EscapeAppend | packages/compiler/test/render3/mock_compile.ts:98-120 | the global replace works character by character: escaping a concatenation escapes each part |
| PatternBuilder.EscapeChar | packages/compiler/test/render3/mock_compile.ts:98-120 | one character gets a backslash in front exactly when it is one of `/ ( ) \| * + [ ] { } $`, and is otherwise copied |
| PatternBuilder.EscapeAt | packages/compiler/test/render3/mock_compile.ts:98-120 | every character of the literal, at any position, appears in its place in the pattern, preceded by a backslash exactly when it is special, with nothing else added |
| BackPatch.ExtFrom | packages/compiler/test/render3/mock_compile.ts:285 | the leftmost position from which a chain of extensions runs to the end of the path |
| BackPatch.StripExt | packages/compiler/test/render3/mock_compile.ts:291 | the path without its trailing extensions: a prefix of the path, with what was removed a chain of extensions and no earlier position starting one |
| BackPatch.StripExtIdempotent | packages/compiler/test/render3/mock_compile.ts:291 | stripping extensions twice strips nothing more |
| BackPatch.ModulesEnd | packages/compiler/test/render3/mock_compile.ts:287 | the greedy match of `^.*\/node_modules\/` ends at the last possible position |
| BackPatch.StripNodeModules | packages/compiler/test/render3/mock_compile.ts:292 | the path after its longest `…/node_modules/` prefix on the first line, or the path unchanged |
| BackPatch.StripNodeModulesIdempotent | packages/compiler/test/render3/mock_compile.ts:292 | what is left holds no further `node_modules/` prefix |
| BackPatch.Identifierize | packages/compiler/test/render3/mock_compile.ts:293 | the result is made of word characters only and is at least as long as the path; IdentifierizeInPlace and IdentifierizeAppend state where each unit goes |
| BackPatch.IdentifierizeAppend | packages/compiler/test/render3/mock_compile.ts:293 | the global replacement works unit by unit: replacing in a concatenation is replacing in each part |
| BackPatch.IdentifierizeInPlace | packages/compiler/test/render3/mock_compile.ts:293 | for text inside the Basic Multilingual Plane, the result has the same length, each word character stays in place and each other character becomes `_` |
| BackPatch.IdentifierizeWords | packages/compiler/test/render3/mock_compile.ts:293 | text made of word characters is left unchanged |
| BackPatch.Split | packages/compiler/test/render3/mock_compile.ts:294 | `split('/')` yields at least one part, and no part holds a slash |
| BackPatch.NonEmpty | packages/compiler/test/render3/mock_compile.ts:294 | `filter(s => !!s)` keeps exactly the non-empty parts: a string is in the result if and only if it is a non-empty part |
| BackPatch.NonEmptyAppend | packages/compiler/test/render3/mock_compile.ts:294 | the filter keeps order: filtering two lists one after the other gives the kept parts of the first, then those of the second |
| BackPatch.Join | packages/compiler/test/render3/mock_compile.ts:294 | reference definition of `join`, no contract of its own: the parts with the separator between each two; SplitJoin and SlashFree state its properties |
| BackPatch.SplitJoin | packages/compiler/test/render3/mock_compile.ts:294 | joining the parts of a split with the separator gives the string back |
| BackPatch.SlashFree | packages/compiler/test/render3/mock_compile.ts:294 | without a slash, split-filter-join leaves the string as it is |
| BackPatch.PathIdentifier | packages/compiler/test/render3/mock_compile.ts:290-294 | reference definition, no contract of its own: the four steps in the order of the source; PathIdentifierWords states what they give |
| BackPatch.PathIdentifierWords | packages/compiler/test/render3/mock_compile.ts:290-294 | after `\W` has replaced every slash, split-filter-join changes nothing: the identifier is the stripped path with non-word code units replaced |
| BackPatch.BackPatchName | packages/compiler/test/render3/mock_compile.ts:289-295 | the name is `ngBackPatch_`, the identifier of the path (word characters only), `_` and the type name, and the identifier is found again at its position |
| ViewModel.Initial | packages/core/test/render3/change_detection_spec.ts:139-142 | a newly created view is dirty, attached and in creation mode, with nothing bound and its component's initial properties |
| Traversal.Increment | packages/core/test/render3/change_detection_spec.ts:508-511 | `value++` on a numeric component property adds one to it |
| Traversal.WriteInput | packages/core/test/render3/change_detection_spec.ts:166-179 | writing an input sets the child's property and marks the child dirty exactly when it is OnPush |
| Traversal.BindOne | packages/core/test/render3/change_detection_spec.ts:166-179 | after a binding is evaluated it shows the current value; only this view's commits and its child components change, and only by raising dirty flags |
| Traversal.BindAll | packages/core/test/render3/change_detection_spec.ts:166-179 | every binding evaluated so far shows its current value and later ones are untouched; nothing outside the view's subtree changes |
| Traversal.Refresh | packages/core/test/render3/change_detection_spec.ts:348-356 | a refresh changes nothing outside the view's subtree, attaches and detaches nothing, leaves the view's own component untouched, and leaves the view in sync, clean and out of creation mode |
| Traversal.RefreshEmbedded | packages/core/test/render3/change_detection_spec.ts:828-883 | refreshing embedded views changes nothing outside the subtree and detaches nothing |
| Traversal.OnInit | packages/core/test/render3/change_detection_spec.ts:502-529 | ngOnInit stays inside the component's subtree and does not count an ngDoCheck |
| Traversal.DoCheck | packages/core/test/render3/change_detection_spec.ts:144-152 | the hooks a parent runs for a child count exactly one ngDoCheck of that child |
| Traversal.DoChecks | packages/core/test/render3/change_detection_spec.ts:144-152 | the parent's hook pass over its child components changes only views strictly below the parent inside its subtree, and attaches or detaches nothing; DoChecksCount counts one ngDoCheck per child |
| Traversal.RefreshComponents | packages/core/test/render3/change_detection_spec.ts:154-179 | the gated pass over the child component views changes only views strictly below the parent inside its subtree, and attaches or detaches nothing; RefreshComponentsSkip and RefreshComponentsRefresh state the gate |
| Traversal.NgDoCheck | packages/core/test/render3/change_detection_spec.ts:531-558 | ngDoCheck counts itself once, even when it calls detectChanges, and stays inside the component's subtree |
| Traversal.RootHooks | packages/core/test/render3/change_detection_spec.ts:59-72 | the root's hooks count one ngDoCheck of the root when lifecycle hooks are on, and change nothing otherwise |
| Traversal.RenderComponent | packages/core/test/render3/change_detection_spec.ts:139-142 | after rendering, every view is attached, the root is in sync, clean and out of creation mode, and no tick is scheduled |
| Traversal.Tick | packages/core/test/render3/change_detection_spec.ts:144-152 | a tick attaches and detaches nothing and leaves the scheduled flag as it was |
| Traversal.MarkAncestors | packages/core/test/render3/change_detection_spec.ts:814-826 | marking raises the dirty flag of the view and of every view whose subtree contains it, and changes nothing else |
| Traversal.MarkDirty | packages/core/test/render3/change_detection_spec.ts:41-49 | `markDirty` marks the view and its ancestors and schedules a tick, and does not check anything |
| Traversal.Flush | packages/core/test/render3/change_detection_spec.ts:41-49 | a flush leaves no tick scheduled, and does nothing when none was scheduled |
| Traversal.SetAttached | packages/core/test/render3/change_detection_spec.ts:604-625 | `detach()` / `reattach()` on a component's view change only the attached flag of that view |
| Traversal.SetField | packages/core/test/render3/change_detection_spec.ts:44-49 | a test's property write changes only that property of that component |
| NoChangesCheck.CheckBindings | packages/core/test/render3/change_detection_spec.ts:942-951 | the bindings pass exactly when each shows its current value; a failure names the first changed binding with its previous and current value |
| NoChangesCheck.NoChanges | packages/core/test/render3/change_detection_spec.ts:942-1018 | checkNoChanges passes exactly when every view the walk reaches is in sync; a failure names a changed binding inside the subtree |
| NoChangesCheck.NoChangesEmbedded | packages/core/test/render3/change_detection_spec.ts:975-1018 | the embedded views pass exactly when each is settled; a failure lies strictly inside the subtree |
| NoChangesCheck.NoChangesComponents | packages/core/test/render3/change_detection_spec.ts:964-973 | the child component views pass exactly when each one that passes the gate is settled |
| Tree.AncestorIffContains | packages/core/test/render3/change_detection_spec.ts:814-826 | following parent links from v reaches exactly the views whose subtree contains v |
| Tree.SettledFrame | packages/core/test/render3/change_detection_spec.ts:1033-1038 | whether the check from v passes depends only on the views of v's subtree and the object of v's context component, so changes elsewhere in ancestors never make it fail |
| Tree.SettledSplit | packages/core/test/render3/change_detection_spec.ts:964-1018 | a view is settled exactly when it is in sync, its embedded views are settled, and so is each child component view that passes the gate |
| Gating.BindAllMarks | packages/core/test/render3/change_detection_spec.ts:166-179 | a changed input of an OnPush child marks that child dirty |
| Gating.DoChecksCount | packages/core/test/render3/change_detection_spec.ts:144-152 | the parent's hook pass counts exactly one ngDoCheck of each child component it has reached |
| Gating.RefreshComponentsSkip | packages/core/test/render3/change_detection_spec.ts:154-164 | a child component view that fails the gate is left untouched, subtree included |
| Gating.RefreshComponentsRefresh | packages/core/test/render3/change_detection_spec.ts:166-179 | a child component view that passes the gate is refreshed |
| Reaching.RefreshReaches | packages/core/test/render3/change_detection_spec.ts:379-390 | a refresh of v leaves in sync and clean every view of its subtree that the gated walk reaches |
| Settling.RefreshSettles | packages/core/test/render3/change_detection_spec.ts:942-946 | a refresh of v leaves v settled: every view the walk reaches is in sync |
| Behaviour.RenderChecksAll | packages/core/test/render3/change_detection_spec.ts:139-142 | rendering checks every view, OnPush ones included: each one shows current values and is clean |
| Behaviour.MarkDirtyAncestors | packages/core/test/render3/change_detection_spec.ts:814-826 | `markForCheck()` marks a view dirty exactly when it was dirty already or is the view or one of its ancestors |
| Behaviour.MarkDirtyCoalesces | packages/core/test/render3/change_detection_spec.ts:59-72 | marking twice is marking once, and marks commute, so several calls before a frame leave one set of marks and one scheduled tick |
| Behaviour.FlushCountsOnce | packages/core/test/render3/change_detection_spec.ts:59-72 | a flush runs the root's ngDoCheck exactly once when a tick was scheduled, never otherwise, and a second flush does nothing |
| Behaviour.FlushChildDoCheckOnce | packages/core/test/render3/change_detection_spec.ts:800-812 | `markForCheck()` on a child component of the attached root, once or repeatedly, then one flush: the child's ngDoCheck runs exactly once, OnPush root or not |
| Behaviour.FlushRefreshesMarked | packages/core/test/render3/change_detection_spec.ts:787-798 | after `markForCheck()` and a flush, the marked view and every ancestor of it are in sync and clean, as long as they are attached |
| Behaviour.ChildDoCheckOnce | packages/core/test/render3/change_detection_spec.ts:392-399 | each refresh of a parent runs its child component's ngDoCheck exactly once, gate or no gate |
| Behaviour.ChildSkipped | packages/core/test/render3/change_detection_spec.ts:604-613 | a child component view that is detached, or OnPush, clean and with unchanged inputs, is not refreshed: its committed values stay as they were, a raised dirty flag stays raised, an OnPush child whose input changed is left dirty, and every view below it is unchanged |
| Behaviour.ReattachShowsMissed | packages/core/test/render3/change_detection_spec.ts:677-733 | detach, change, reattach: a detached child that is Default, dirty or whose input changed keeps what it rendered through its parent's refresh, and after `reattach()` the parent's next refresh leaves it in sync (showing the new input) and clean |
| Behaviour.ChildRefreshed | packages/core/test/render3/change_detection_spec.ts:166-179 | an attached child component view that is Default, dirty or receives a changed input is refreshed: it ends in sync and clean |
| Behaviour.NoChangesAfterRefresh | packages/core/test/render3/change_detection_spec.ts:942-946 | `checkNoChanges()` straight after `detectChanges()` on the same view passes |
| Engine.ViewTree.constructor | packages/core/test/render3/change_detection_spec.ts:139-142 | `renderComponent` creates the views, runs the root hooks in creation mode and refreshes the root, leaving the state of the specification |
| Engine.ViewTree.Bind | packages/core/test/render3/change_detection_spec.ts:134-135 | evaluating one binding in place leaves the state of BindOne |
| Engine.ViewTree.DetectChanges | packages/core/test/render3/change_detection_spec.ts:348-356 | `detectChanges()` in place leaves the state of Refresh, including the recursive refreshes and the hooks that call back into it |
| Engine.ViewTree.BindAll | packages/core/test/render3/change_detection_spec.ts:166-179 | the binding loop leaves the state of BindAll |
| Engine.ViewTree.RefreshEmbedded | packages/core/test/render3/change_detection_spec.ts:828-883 | the loop over embedded views leaves the state of RefreshEmbedded |
| Engine.ViewTree.DoChecks | packages/core/test/render3/change_detection_spec.ts:144-152 | the loop over the hooks of child components leaves the state of DoChecks |
| Engine.ViewTree.RefreshComponents | packages/core/test/render3/change_detection_spec.ts:154-179 | the loop over child component views, refreshing those that pass the gate, leaves the state of RefreshComponents |
| Engine.ViewTree.RunHooks | packages/core/test/render3/change_detection_spec.ts:502-558 | ngOnInit while the parent is in creation mode, then ngDoCheck, as DoCheck describes |
| Engine.ViewTree.RunOnInit | packages/core/test/render3/change_detection_spec.ts:502-529 | ngOnInit in place leaves the state of OnInit |
| Engine.ViewTree.RunNgDoCheck | packages/core/test/render3/change_detection_spec.ts:531-558 | ngDoCheck in place leaves the state of NgDoCheck |
| Engine.ViewTree.RunRootHooks | packages/core/test/render3/change_detection_spec.ts:59-72 | the root hooks in place leave the state of RootHooks |
| Engine.ViewTree.Tick | packages/core/test/render3/change_detection_spec.ts:144-152 | `tick` in place leaves the state of Tick |
| Engine.ViewTree.MarkDirty | packages/core/test/render3/change_detection_spec.ts:41-49 | the walk up the parent links leaves the state of MarkDirty: the view and its ancestors marked, a tick scheduled |
| Engine.ViewTree.Flush | packages/core/test/render3/change_detection_spec.ts:59-72 | the flush in place leaves the state of Flush |
| Engine.ViewTree.Detach | packages/core/test/render3/change_detection_spec.ts:604-613 | `detach()` leaves the state of SetAttached with false |
| Engine.ViewTree.Reattach | packages/core/test/render3/change_detection_spec.ts:615-625 | `reattach()` leaves the state of SetAttached with true |
| Engine.ViewTree.SetField | packages/core/test/render3/change_detection_spec.ts:44-49 | a property write in place leaves the state of SetField |
| Engine.ViewTree.CheckNoChanges | packages/core/test/render3/change_detection_spec.ts:1020-1031 | `checkNoChanges()` changes no state, running no lifecycle hooks, and returns the outcome of NoChanges |
| Engine.ViewTree.CheckBindingsOf | packages/core/test/render3/change_detection_spec.ts:942-962 | the binding loop returns the first changed binding with its previous and current value, or passes |
| Engine.ViewTree.CheckEmbedded | packages/core/test/render3/change_detection_spec.ts:975-1018 | the loop over embedded views returns the outcome of NoChangesEmbedded |
| Engine.ViewTree.CheckComponents | packages/core/test/render3/change_detection_spec.ts:964-973 | the loop over child component views that pass the gate returns the outcome of NoChangesComponents |

## Left out

- Reaching.RefreshReaches: proved only when every component on the way down from v has hooks that do not call `detectChanges()`. A hook that does call it refreshes its own view again in the middle of the parent's pass; the model runs that refresh, but no property is proved about it.
- Behaviour.ChildSkipped: proved only for a child whose hooks do not call `detectChanges()`, for the same reason.
- Behaviour.ReattachShowsMissed: proved only for a child whose hooks do not call `detectChanges()`, for the same reason. It is stated for the parent's refresh; the root-level `tick` adds the root's hooks and gate, which Behaviour.FlushRefreshesMarked and Traversal.Tick cover.
- Behaviour.ChildRefreshed: proved only for a child whose hooks do not call `detectChanges()`, for the same reason.
- Behaviour.RenderChecksAll: proved only when no component's hooks call `detectChanges()`, for the same reason.
- Behaviour.FlushRefreshesMarked: proved only when no component's hooks call `detectChanges()`, for the same reason.
- Behaviour.FlushChildDoCheckOnce: proved only when the root's own hooks do not call `detectChanges()` (or do not run); such a call would refresh the root, and run the child's ngDoCheck, once more.
- TokenRecogniser.StringSound: states the corrected STRING; the STRING the tokenizer uses is covered by TokenRecogniser.StringAsWrittenSound.
- TokenRecogniser.QuotedComplete: for the double quote it states the corrected alternative; the alternative as written is covered by TokenRecogniser.StringAsWrittenLongest.
- TokenRecogniser.TokenAvailable: states the corrected TOKEN; TOKEN as written is covered by TokenRecogniser.TokenAsWrittenAvailable.
- TokenRecogniser.NextTokenSpec: states the corrected TOKEN; TOKEN as written is covered by TokenRecogniser.NextTokenAsWrittenSpec.
- Tokenizer.NextTokenRecogniser: states the corrected TOKEN; TOKEN as written is covered by Tokenizer.NextTokenAsWrittenRecogniser.
- Traversal.Increment: `++` on a non-numeric property (JavaScript turns `'1'` into 2 and `'one'` into NaN) is not modelled; the tests increment only a number, and the model leaves a text property as it is.
- Traversal.SetAttached: only a component's view is detached or reattached, through the ChangeDetectorRef the component injects, as in the tests; `detach()` on an embedded view's own reference is not modelled, and embedded views are always walked into.
- The DOM is not modelled: the rendered text is the list of values each view's bindings last committed (`getRenderedText`, `containerEl`, elements and text nodes).
- Listeners are not modelled. A fired listener marks its component's view, as `markDirty` does.
- The `requestAnimationFrame` scheduler is a flag, and `whenRendered` is not modelled: these are asynchronous callbacks.
- `ngAfterContentChecked` and `ngAfterViewChecked` are not modelled. They run with the rest of a refresh, and their only observable effect in the tests is a counter.
- `detectChanges()` called from a directive goes to the component whose object the view's bindings read; the directive object itself is not modelled.
- Containers are fixed: each view lists its embedded views, in order. Creating and removing embedded views (`showing` toggles, `containerRefreshStart/End` diffing) is not modelled.
- A binding reads one property or the `ngDoCheck` counter of its component. Interpolation of several values is modelled as a single value, because the tests only compare one rendered value at a time.
- The wording of the `ExpressionChangedAfterItHasBeenCheckedError` text is not modelled. The error carries the view, the binding, and the previous and current values.
- Tokenizer.LexError: the error quotes the first 30 characters of the remainder. JavaScript's `substr` counts UTF-16 code units, and characters outside the Basic Multilingual Plane are one character each here.
- TokenRecogniser: IDENTIFIER is modelled on single characters. A character outside the Basic Multilingual Plane, which the expression would see as two code units, is simply not an identifier character.
- `expectEmit`, `doCompile`, `compile` and the mock compiler host are not part of this model. They drive the TypeScript compiler and Jasmine; the model keeps only the pure string functions they use.
- `getBackPatchReference` only wraps the name in an output-AST variable and is not modelled.

## Findings

| source | as written | input that shows it | evidently intended | confidence | as-written member | corrected member |
|---|---|---|---|---|---|---|
| packages/compiler/test/render3/mock_compile.ts:29 | the double-quoted alternative of STRING is `"[^'\n]*"`: it excludes the apostrophe, not the double quote | the expected output `"it's"`: no alternative of TOKEN matches at the `"`, so `tokenize` throws "no token found" | `"[^"\n]*"`, mirroring the single-quoted alternative | not executed | Tokenizer.ApostropheTokens | Tokenizer.ApostropheTokensIntended |
| packages/compiler/test/render3/mock_compile.ts:29 | the same alternative lets a double-quoted literal run past its closing `"` to the last `"` before an apostrophe or line feed | the expected output `"a" + "b"`: one literal piece `"a" + "b"` instead of three tokens, so the pattern demands exactly that spacing | each double-quoted literal a token of its own | not executed | TokenRecogniser.TwoStringsAsWritten | TokenRecogniser.TwoStringsCorrected |
