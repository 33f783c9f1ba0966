# Three React lint rules, modelled in Dafny

This project models three ESLint rules of a React plugin and proves what each
rule reports:

- `require-jsdoc-on-complex-components` (module `RequireJsDoc`,
  `require_jsdoc.dfy`). A function declaration, a variable declarator bound
  to a function or arrow function, or a class declaration is a component
  when its name starts with an ASCII capital. Such a component must have a
  JSDoc comment once its line span (end line minus start line) exceeds
  `lineLimit`, which defaults to 50.
- `prefer-typed-hooks` (module `PreferTypedHooks`,
  `prefer_typed_hooks.dfy`). In a `.ts` or `.tsx` file, a bare-name call of
  a tracked hook with neither `typeParameters` nor `typeArguments` is
  reported. The tracked hooks default to `useState`, `useRef` and
  `useContext`.
- `no-console-in-components` (module `NoConsoleInComponents`,
  `no_console.dfy`). A `console.log(...)` call is reported while the rule's
  `inComponent` flag is set. Entering a function declaration, function
  expression, arrow function or class declaration sets the flag. Leaving
  any of them clears it.

`syntax.dfy` (module `Syntax`) holds the shared vocabulary. It has the parts
of an ESTree node that the rules read, and the `Finding` a rule reports.
`report(context, message, key, {node, data})` is modelled as producing
`Finding(key, data, node)`.

The first two rules keep no state. They are modelled as functions. Each
visitor returns the findings of one node: at most one. `Lint` runs the
visitor over the nodes of one file in visit order.

The console rule changes state. It is modelled as the class `ConsoleRule`,
with the `inComponent` flag and the findings reported so far. Its methods
are `EnterComponent`, `ExitComponent`, the `console.log` visitor, a
per-event dispatcher `Handle` and a loop `Run` over an event sequence. They
are proved against the pure functions `StepFlag`, `StepReport`, `FlagAfter`
and `Reported`, and the properties are lemmas about those functions.

Two consequences of the code are worth stating outright:

- **Console flag.** The rule keeps one boolean, not a nesting counter, so
  leaving an inner function clears the flag while the outer function is
  still open. The model keeps the boolean. `NestedExitHidesOuterCall` and
  `DepthCounterReportsNested` exhibit an event sequence on which the boolean
  and a depth counter disagree. `FlagNeverReportsMoreThanDepth` proves that
  the multiset of the boolean's findings is contained in the counter's: the
  boolean only ever misses findings.
- **JSDoc line span.** The comparison is strict,
  `end.line - start.line > lineLimit`, so under limit 50 a definition must
  touch at least 52 lines to be reported.
  `ReportedLinesOneLessThanTouched` and `DefaultLimitIsFifty` state this.

## Model

| member | source | states |
|---|---|---|
| RequireJsDoc.EffectiveLineLimit | lib/rules/require-jsdoc-on-complex-components.js:44-45 | The limit is never 0. It is 50 when there are no options, no `lineLimit`, or the falsy `lineLimit: 0`. Otherwise it is the supplied number, negatives included. |
| RequireJsDoc.StartsWithCapital | lib/rules/require-jsdoc-on-complex-components.js:66 | `/^[A-Z]/` holds exactly when the name is non-empty and its first character is one of the 26 ASCII capitals. |
| RequireJsDoc.IsComponentId | lib/rules/require-jsdoc-on-complex-components.js:66-77 | The name gate holds exactly when the `id` is present, is an identifier, and its name starts with an ASCII capital. A missing or non-identifier `id` fails it. |
| RequireJsDoc.IsFunctionInit | lib/rules/require-jsdoc-on-complex-components.js:72 | The `init` gate holds exactly when `init` is present and is an arrow function or a function expression. |
| RequireJsDoc.CheckJsDoc | lib/rules/require-jsdoc-on-complex-components.js:48-62 | At most one finding. There is one exactly when `end - start > lineLimit` and no JSDoc is attached. It is keyed `requireJsDoc`, carries `{name, lines: end - start}` and is attached to the checked node. |
| RequireJsDoc.Visit | lib/rules/require-jsdoc-on-complex-components.js:64-81 | At most one finding per visited node. A finding implies the id passes the name gate, the span exceeds the limit, there is no JSDoc, and the data is `{name, lines}`. Kinds other than the three visited ones yield nothing. |
| RequireJsDoc.Lint | lib/rules/require-jsdoc-on-complex-components.js:43-81 | Over a file, there are no more findings than visited nodes. Every finding is keyed `requireJsDoc`, is undocumented, and exceeds the effective limit. |
| RequireJsDoc.DeclarationOneFinding | lib/rules/require-jsdoc-on-complex-components.js:48-79 | A capitalised, undocumented function or class declaration over the limit yields exactly one finding, on itself, with `{name, lines}`. |
| RequireJsDoc.StrictBoundary | lib/rules/require-jsdoc-on-complex-components.js:50 | A span equal to the limit yields nothing. A span one line longer yields one finding when undocumented. |
| RequireJsDoc.ReportedLinesOneLessThanTouched | lib/rules/require-jsdoc-on-complex-components.js:49-57 | For every finding, the reported `lines` is one less than the number of lines the reported node touches. That node is the declaration itself, or a declarator's `init`. |
| RequireJsDoc.NameAndDocGates | lib/rules/require-jsdoc-on-complex-components.js:51-79 | A missing id, a non-identifier id, or a name not starting with `A`-`Z` yields nothing. So does an attached JSDoc comment. |
| RequireJsDoc.DeclaratorUsesInit | lib/rules/require-jsdoc-on-complex-components.js:70-75 | A declarator whose `init` is not a function or arrow function yields nothing. Otherwise the result is `checkJsDoc` on `init`, independent of the declarator's own location and JSDoc. |
| RequireJsDoc.DefaultLimitIsFifty | lib/rules/require-jsdoc-on-complex-components.js:44-50 | Under a defaulted limit, a component spanning 50 is not reported. One spanning 51 is reported exactly when undocumented. |
| RequireJsDoc.LowerCaseNameNeverReported | lib/rules/require-jsdoc-on-complex-components.js:65-69 | A function named `widget` is never reported, whatever its span or documentation. |
| RequireJsDoc.LintAppend | lib/rules/require-jsdoc-on-complex-components.js:64-81 | The findings of a concatenation of node lists are the concatenated findings. No state passes between nodes. |
| PreferTypedHooks.HooksToTrack | lib/rules/prefer-typed-hooks.js:45-46 | Without options or without `hooks`, the list is exactly `useState`, `useRef`, `useContext`. A supplied list, even an empty one, replaces it. |
| PreferTypedHooks.EndsWithIffConcat | lib/rules/prefer-typed-hooks.js:56 | `endsWith(suffix)` holds exactly when the string is some prefix followed by `suffix`. |
| PreferTypedHooks.IsTypeScriptFile | lib/rules/prefer-typed-hooks.js:56 | The filename gate holds exactly when the name is some stem followed by `.ts` or by `.tsx`. |
| PreferTypedHooks.Visit | lib/rules/prefer-typed-hooks.js:49-70 | At most one finding. There is one exactly when the callee is an `Identifier` named in the list, the file ends with `.ts` or `.tsx`, and both type-argument children are absent. Its data is `{name: callee name}`. |
| PreferTypedHooks.Lint | lib/rules/prefer-typed-hooks.js:44-72 | Over a file, there are no more findings than nodes. A non-TypeScript filename yields none. Every finding names a tracked bare-identifier callee. |
| PreferTypedHooks.TypeArgumentsSuppress | lib/rules/prefer-typed-hooks.js:61 | Either `typeParameters` or `typeArguments` suppresses the finding. |
| PreferTypedHooks.MemberCalleeNeverFlagged | lib/rules/prefer-typed-hooks.js:50 | A member-expression callee such as `React.useState` is never flagged. |
| PreferTypedHooks.EmptyListTracksNothing | lib/rules/prefer-typed-hooks.js:45-50 | With `hooks: []`, no file yields a finding. |
| PreferTypedHooks.TypeScriptOnly | lib/rules/prefer-typed-hooks.js:56-67 | An unannotated `useState()` under the defaults is reported in `a.ts` and not in `a.js`. |
| PreferTypedHooks.SuppliedListReplacesDefaults | lib/rules/prefer-typed-hooks.js:46-50 | With `hooks: ["useFoo"]`, `useState()` is not reported and `useFoo()` is. |
| PreferTypedHooks.LintAppend | lib/rules/prefer-typed-hooks.js:48-70 | The rule is stateless: the findings of concatenated node lists are the concatenated findings. |
| NoConsoleInComponents.IsConsoleLogCall | lib/rules/no-console-in-components.js:53 | The selector matches exactly a call whose callee is a member expression with object the identifier `console` and property the identifier `log`. A matching call is never one of the four component kinds. |
| NoConsoleInComponents.StepFlag | lib/rules/no-console-in-components.js:35-51 | Entering one of the four bound kinds sets the flag. Leaving one clears it. Every other event keeps it. |
| NoConsoleInComponents.StepReport | lib/rules/no-console-in-components.js:53-59 | At most one finding. There is one exactly when the flag is set and a `console.log` call is entered. It is keyed `noConsoleInComponent` with no data. |
| NoConsoleInComponents.Reported | lib/rules/no-console-in-components.js:53-59 | Over an event sequence, there are no more findings than events. Each finding is keyed `noConsoleInComponent`, has no data and is on a `console.log` call. |
| NoConsoleInComponents.ConsoleRule.constructor | lib/rules/no-console-in-components.js:33 | The flag starts `false` and nothing is reported. |
| NoConsoleInComponents.ConsoleRule.EnterComponent | lib/rules/no-console-in-components.js:35-37 | The flag becomes `true` whatever it was. The findings are unchanged. |
| NoConsoleInComponents.ConsoleRule.ExitComponent | lib/rules/no-console-in-components.js:39-41 | The flag becomes `false` whatever it was. The findings are unchanged. |
| NoConsoleInComponents.ConsoleRule.ConsoleLogCall | lib/rules/no-console-in-components.js:53-59 | The flag is unchanged. One finding is appended exactly when the flag is set. |
| NoConsoleInComponents.ConsoleRule.Handle | lib/rules/no-console-in-components.js:43-60 | One event moves the flag by `StepFlag` and appends `StepReport`. |
| NoConsoleInComponents.ConsoleRule.Run | lib/rules/no-console-in-components.js:43-60 | After a sequence of events, the flag is `FlagAfter` and the findings gained are `Reported`. |
| NoConsoleInComponents.LintFile | lib/rules/no-console-in-components.js:32-61 | A fresh rule instance over a file reports exactly `Reported(false, events)`. |
| NoConsoleInComponents.FlagAfter | lib/rules/no-console-in-components.js:35-51 | The flag after any sequence is set exactly when the last enter/exit event of a bound kind is an enter. With no such event, it keeps its start value. |
| NoConsoleInComponents.FinalStateAfterExit | lib/rules/no-console-in-components.js:39-41 | After a sequence whose last scope event is an exit, the flag is `false`, however deep the nesting was. |
| NoConsoleInComponents.NothingBeforeFirstEnter | lib/rules/no-console-in-components.js:33-54 | Before any scope event the flag stays `false` and nothing is reported. |
| NoConsoleInComponents.UnrelatedEventsChangeNothing | lib/rules/no-console-in-components.js:43-60 | Appending events that are neither enter/exit of a bound kind nor entries of a `console.log` call changes neither the flag nor the findings. |
| NoConsoleInComponents.CallInsideComponentReported | lib/rules/no-console-in-components.js:35-59 | From a fresh state, entering a component and then a `console.log` call reports exactly one finding, on that call. |
| NoConsoleInComponents.OneFindingPerCall | lib/rules/no-console-in-components.js:53-59 | A matching call reports exactly one finding when the flag is set, and none when it is clear. Call events never change the flag. |
| NoConsoleInComponents.UnboundKindsKeepFlag | lib/rules/no-console-in-components.js:44-51 | Entering or leaving `ClassExpression`, or any kind not bound, keeps the flag. |
| NoConsoleInComponents.OnlyConsoleLogMatches | lib/rules/no-console-in-components.js:53 | `console.warn()` and a bare `log()` do not match the selector. |
| NoConsoleInComponents.FlagNeverReportsMoreThanDepth | lib/rules/no-console-in-components.js:33-41 | Whenever the flag is set, a depth counter is positive. So the multiset of the flag's findings is contained in the counter's, and there are never more of them. |
| NoConsoleInComponents.NestedExitHidesOuterCall | lib/rules/no-console-in-components.js:35-51 | In `function Outer() { const inner = () => {}; console.log(); }`, the arrow function's exit clears the flag. The call is not reported. |
| NoConsoleInComponents.DepthCounterReportsNested | lib/rules/no-console-in-components.js:35-51 | On the same events, a depth counter reports the call and ends at zero. The two readings disagree. |

## Left out

- `report`, `docsUrl` and the `meta` objects are not part of this model. A finding records the message key, the data map and the node. Message templates are not rendered.
- The host is left out: the ESLint runner, the parser, tree traversal order and the esquery selector engine. The pure rules take the visited nodes as a sequence. The console rule takes the sequence of enter/exit events.
- `sourceCode.getJSDocComment` is an oracle boolean, `hasJsDoc`, attached to every node.
- `context.getFilename()` is a parameter of the hooks rule. The unused `getSourceCode()` call in that rule has no effect and is not modelled.
- JSON-schema enforcement is done by the host before `create` runs: `additionalProperties: false`, `uniqueItems: true` and the `number` / `string` types. Only the `||` defaulting inside `create` is modelled.
- RequireJsDoc.EffectiveLineLimit: `lineLimit` is modelled as an integer. A fractional limit or `NaN` (also falsy, hence 50) is not modelled.
- Locations keep only start and end lines. Columns are never read.
- NoConsoleInComponents.IsConsoleLogCall: only `Identifier` carries a `name`. A class-private `console.#log`, whose `PrivateIdentifier` also has the name `log`, is not represented.
