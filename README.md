# A verified model of jantar's hooks, validation and template manager

This project models three parts of the jantar web framework in Dafny. It proves
properties of each part.

- **Hooks** (`hooks.go`). A registry maps hook ids to a function signature and
  a list of handlers, in the order they were attached. Registering a hook
  creates the map on first use. It rejects an id already in use and a signature
  that is not a function type. Attaching a handler rejects an unknown id and a
  handler whose type is not assignable to the signature.
- **Validation** (`validation.go`). A `Validation` collects, per field name,
  the messages of the checks that failed. Each check (`Required`, `Min`, `Max`,
  `MinMax`) returns a `ValidationResult`. Its `Message` replaces the message
  that check recorded.
- **Template manager** (`template.go`).
  - Creating it normalises the template directory and declares the
    before-parse and before-render hooks.
  - `loadTemplates` walks the directory and skips hidden directories and
    `_static`. Every `*.html` file below `static/` is parsed into a set of
    static templates. A static template is written to `<dir>/_<name>` unless
    its name or one of its directories starts with `_`. Every other `*.html`
    file first goes through the before-parse handlers, then is parsed into
    the normal set.
  - The normal set is installed only if the whole walk succeeded.
  - `getTemplate` looks a name up in lower case.
  - `RenderTemplate` runs the before-render handlers on the arguments, then
    executes the template.
  - The helper functions templates can call are modelled too: `since`,
    `paginate`, `array` and `set`.

Modules:

- text.dfy (`Text`): `Option`, ASCII lower-casing, character replacement, prefix/suffix/substring tests, Go's `%d` formatting.
- hooks.dfy (`HookRegistry`): Go types as far as assignability needs them; the pure registry functions; the `Hooks` class.
- validation.dfy (`Validator`): the checked values; the pure check outcomes; the `Validation` and `ValidationResult` classes.
- template_funcs.dfy (`TemplateFuncs`): `since`, `paginate`, `array` and `set`.
- template_paths.dfy (`TemplatePaths`): path normalisation, skipped directories, template names, static templates and where they are written.
- template_manager.dfy (`TemplateManager`): the directory walk, loading, lookup and rendering, and the `TemplateManager` class.

How the model is built:

- Each class method that changes state is proved equal to a pure function of
  the old state and the inputs, for example `(list, err) == Attach(old(list), id, h)`.
  The properties are proved as lemmas about those functions.
- A nil map or nil template set is `None`.
- Firing a hook is `Fire`, a fold over the handlers in attach order. What one
  handler does is a function parameter.
- The directory walk is the sequence of entries `filepath.Walk` reports, in
  order, each with its depth. Every file operation's outcome is a flag on the
  entry: read succeeded; creating the output directory, creating the file and
  executing into it succeeded.
- Template parsing and template execution are function parameters.
- The watcher's creation is a boolean parameter.

## Model

| member | source | states |
|---|---|---|
| Text.ToLower | template.go:166 | lower-casing keeps the length and lower-cases each character on its own |
| Text.ReplaceAll | template.go:166 | replacing `\` by `/` keeps the length and changes exactly the backslashes |
| Text.Contains | template.go:201 | `strings.Contains` holds exactly when the substring occurs at some position |
| Text.NatToString | template.go:65 | `%d` of a natural number is a non-empty run of decimal digits, with a leading `0` only for zero |
| Text.NatToStringRoundTrip | template.go:65 | reading the printed digits back gives the number |
| Text.NatToStringInjective | template.go:65 | different numbers print differently |
| Text.IntToStringRoundTrip | template.go:65 | `%d` of any integer is an optional `-` and digits, and reading it back with its sign gives the number |
| Text.IntToStringInjective | template.go:65 | different integers print differently |
| HookRegistry.Underlying | hooks.go:59 | the underlying type is never a named type, and an unnamed type is its own underlying type |
| HookRegistry.ErrorTextsDistinct | hooks.go:10-14 | the three hook errors have different texts |
| HookRegistry.Handlers | hooks.go:44-51 | a nil map or an unknown id gives no handlers |
| HookRegistry.DeclaredHookStartsEmpty | hooks.go:39 | a freshly declared hook has no handlers, and every other hook keeps its handlers |
| HookRegistry.Fire | template.go:212-215 | handlers run one after another from the first: no handlers leave the value alone, otherwise the first acts and the rest act on its result |
| HookRegistry.Register | hooks.go:25-42 | the map exists afterwards; a used id gives ErrHookDuplicateID and changes nothing; a non-function signature gives ErrHookInvalidHandler; success exactly when the id is new and the signature is a function type, and then the id maps to the signature with no handlers |
| HookRegistry.Attach | hooks.go:53-65 | an unknown id gives ErrHookUnknownID; a handler not assignable to the signature gives ErrHookInvalidHandler; success exactly when neither applies, and then only that hook changes, by the handler appended at its end |
| HookRegistry.FireConcat | hooks.go:64 | firing a concatenation of handler lists fires the first list and then the second |
| HookRegistry.FireAfterAttach | hooks.go:53-65 | after a successful attach, firing runs the old handlers and then the new one |
| HookRegistry.FiringOrderIsAttachOrder | hooks.go:53-65 | after attaching several handlers to a declared hook, its handlers are the old ones followed by the accepted new ones in the given order; its signature and every other hook are unchanged |
| HookRegistry.HistoryIsAppendOnly | hooks.go:25-65 | under any sequence of registers and attaches, no hook disappears, no signature changes, handler lists only grow at their end, and every handler stays assignable to its signature |
| HookRegistry.AttachBeforeDeclareFails | hooks.go:53-57 | attaching to an undeclared id fails with ErrHookUnknownID, including on a registry never used |
| HookRegistry.Hooks.constructor | hooks.go:21-23 | a new registry has a nil map |
| HookRegistry.Hooks.RegisterHook | hooks.go:25-42 | the new map and the error are those of `Register` |
| HookRegistry.Hooks.GetHooks | hooks.go:44-51 | an unknown id (or a nil map) gives no handlers; a known id gives its handlers |
| HookRegistry.Hooks.AddHook | hooks.go:53-65 | the new map and the error are those of `Attach` |
| Validator.Add | validation.go:21-31 | a passing check changes nothing and stores index -1; a failing one sets HasErrors, appends its message under its name, stores the index of that message and leaves every other name alone; messages only grow |
| Validator.Overwrite | validation.go:38-40 | replacing a message changes exactly the addressed slot or, for index -1, nothing |
| Validator.AddAllKeepsMessages | validation.go:26 | later checks never move or change a recorded message |
| Validator.HasErrorsStaysSet | validation.go:21-31 | after any run of checks, HasErrors is set exactly when it was set before or some check failed: it is never reset |
| Validator.ResultAddressesOwnMessage | validation.go:21-40 | after any later checks, a failed check's index still addresses its own message, so `Message` replaces that message |
| Validator.RequiredAsWritten | validation.go:64-65 | as written, `Required` on a time passes exactly when it is the zero time |
| Validator.RequiredAsWrittenInvertsTime | validation.go:64-65 | as written, a set time is rejected and the zero time accepted |
| Validator.RequiredCheck | validation.go:49-74 | the corrected rule (the code differs only in the time case, see Findings): nil gives a failure; the kinds int, string, time and slice give an outcome; any other kind gives none; the check passes exactly when the value is not empty (zero, "", the zero time, an empty slice) |
| Validator.MinCheck | validation.go:76-97 | nil fails; an int, string length or slice length passes exactly when at least `min`; other kinds give no outcome |
| Validator.MaxCheck | validation.go:99-120 | nil fails; an int, string length or slice length passes exactly when at most `max`; other kinds give no outcome |
| Validator.MinMaxCheck | validation.go:122-143 | nil fails; an int, string length or slice length passes exactly when within `min..max`; other kinds give no outcome |
| Validator.MinMaxIsMinAndMax | validation.go:76-143 | `MinMax` applies to the same kinds as `Min` and `Max` and passes exactly when both pass |
| Validator.MinMessage | validation.go:77 | the message is "Must be larger than " followed by `min` printed with `%d` |
| Validator.MaxMessage | validation.go:100 | the message is "Must be smaller than " followed by `max` printed with `%d` |
| Validator.MinMessageNamesBound | validation.go:77 | different bounds give different `Min` messages |
| Validator.MaxMessageNamesBound | validation.go:100 | different bounds give different `Max` messages |
| Validator.MinMaxMessageNamesBounds | validation.go:123 | the `MinMax` message determines both bounds |
| Validator.Validation.constructor | validation.go:9-12 | a new validation has no errors |
| Validator.Validation.AddValidationResult | validation.go:21-31 | the new fields and the stored index are those of `Add`; the result names this validation and the check; its index addresses its message |
| Validator.Validation.Check | validation.go:49-143 | a kind with no outcome returns nil and changes nothing; otherwise it returns `AddValidationResult`'s result |
| Validator.Validation.Required | validation.go:49-74 | the result and the new fields follow `RequiredAsWritten` with message "Required": as in the code, the zero time passes and a set time fails |
| Validator.Validation.Min | validation.go:76-97 | the result and the new fields follow `MinCheck` with message "Must be larger than <min>" |
| Validator.Validation.Max | validation.go:99-120 | the result and the new fields follow `MaxCheck` with message "Must be smaller than <max>" |
| Validator.Validation.MinMax | validation.go:122-143 | the result and the new fields follow `MinMaxCheck` with message "Must be larger <min> and smaller <max>" |
| Validator.ValidationResult.constructor | validation.go:22 | the result holds the validation, outcome, name and index it is given |
| Validator.ValidationResult.Message | validation.go:33-43 | returns the same result; the validation's fields become `Overwrite` of them |
| Validator.ValidationResult.IsValid | validation.go:45-47 | for a well-formed result, valid exactly when it recorded no message |
| Validator.ValidateSignup | validation.go:33-143 | two checks and a replaced message: HasErrors exactly when a check failed, and the user message is the replacement |
| TemplateFuncs.AgeOf | template.go:58-80 | the reference reading of an elapsed time: "under a minute" exactly below 60 s, "over a year" exactly from 12 × 30 days; otherwise a count of 1 up to the unit's span, with count × unit ≤ seconds < (count + 1) × unit |
| TemplateFuncs.AgeOfIsUnique | template.go:58-80 | any age with those bounds is the reference reading, so unit and count are forced |
| TemplateFuncs.Since | template.go:58-80 | below a minute (including a time ahead) it prints "< 1 minute ago"; from twelve 30-day months it prints "> 1 year ago" |
| TemplateFuncs.SinceReadsAge | template.go:58-80 | `since` prints the reference reading: the largest unit that fits, the count truncated, singular for one |
| TemplateFuncs.SinceExamples | template.go:58-80 | 45 s and -5 s give "< 1 minute ago"; 10800 s gives "3 hours ago" |
| TemplateFuncs.PaginationHtml | template.go:81-116 | fewer than two pages give ""; otherwise the HTML is wrapped in `<ul class='pagination'>` … `</ul>` |
| TemplateFuncs.EmitBefore | template.go:86-95 | the opening tag, then first/previous (if there is an earlier page), then the leading ellipsis |
| TemplateFuncs.EmitPages | template.go:97-105 | the loop appends the links of the pages in the window that exist |
| TemplateFuncs.EmitAfter | template.go:107-114 | the trailing ellipsis, then next/last unless this is the last page |
| TemplateFuncs.Paginate | template.go:81-116 | the string built item by item is `PaginationHtml` |
| TemplateFuncs.PageItemsExact | template.go:97-105 | the numbered links are exactly the existing pages in the window, in ascending order, active exactly for the current page |
| TemplateFuncs.PaginationPages | template.go:97-105 | a numbered link for page p is shown exactly when p is within `offset` of the current page and between 1 and the page count; only the current page is active |
| TemplateFuncs.PaginationAscending | template.go:97-105 | the numbered links appear in ascending page order |
| TemplateFuncs.PaginationNavigation | template.go:88-114 | first/previous appear exactly when there is an earlier page, next/last exactly when this is not the last page, and one ellipsis stands for each side the window does not reach |
| TemplateFuncs.PaginationExample | template.go:81-116 | page 3 of 10 with offset 1 shows first, previous, an ellipsis, pages 2–4 with 3 active, an ellipsis, next and last |
| TemplateFuncs.Array | template.go:44-50 | `array` returns its arguments, in order |
| TemplateFuncs.Set | template.go:38-43 | `set` prints nothing and stores the value under the key, unless the map is nil |
| TemplatePaths.Normalize | template.go:119 | normalising keeps the length and maps each character on its own: lower-cased, a backslash becomes a slash |
| TemplatePaths.NormalizeFacts | template.go:119 | normalising keeps the length, yields a normal path (no upper case, no backslash), and leaves a normal path as it is |
| TemplatePaths.NormalizeIdempotent | template.go:119 | normalising twice is normalising once |
| TemplatePaths.TmplName | template.go:191 | the name is the path with the directory and the slash after it cut off |
| TemplatePaths.TmplNameOfChild | template.go:191 | for `<dir>/<rel>` the name is `rel` |
| TemplatePaths.TmplNameRebuilds | template.go:191 | a path inside the directory is the directory, a slash and the name |
| TemplatePaths.StaticByName | template.go:181-183 | a path inside the directory is static exactly when its name starts with `static/` |
| TemplatePaths.EmitsIffNoPrivateSegment | template.go:201 | a static template is written out exactly when no segment of its name starts with `_` |
| TemplatePaths.StaticTarget | template.go:202 | the output file is the directory, then `/_`, then the template name, which can be cut back out |
| TemplatePaths.StaticParent | template.go:203 | the directory created is a prefix of the target: the target with the slash and the base name cut off |
| TemplatePaths.StaticParentIsDirectory | template.go:202-203 | for a name `sub/<file>` the directory created is `<dir>/_sub` |
| TemplatePaths.StaticOutputIsSkipped | template.go:201-203 | a static template's output lies under `<dir>/_static/`, which the walk skips, and its name can be read back from the file name |
| TemplatePaths.NormalIsLower | template.go:246 | a piece of a normal path is normal and lower-cases to itself |
| TemplateManager.AddTemplate | template.go:218-222 | parsing into a set (created if nil) adds or replaces that name and keeps every other one |
| TemplateManager.StaticStep | template.go:194-228 | a static template never changes the normal set; it aborts exactly when it does not parse or, for a public name, its output cannot be written, with ParseFailed or EmitFailed and the state unchanged; otherwise it is added to the static set, and an output with the exact target and directory is recorded exactly for a public name |
| TemplateManager.Step | template.go:164-231 | an entry is skipped exactly when it is a hidden directory or `_static`; the callback aborts exactly when the entry `Fails`: an unreadable template file gives ReadFailed, a normal template that does not parse after the before-parse handlers gives ParseFailed, and a static one behaves as `StaticStep`; a normal template that parses is added under its name with its hook-rewritten source and the walk goes on; a directory or a failure changes nothing; the normal set changes only for a normal template file and the outputs only for a public static one |
| TemplateManager.Walk | template.go:164-231 | the walk from the first entry with empty sets; a normal set it creates is never empty |
| TemplateManager.WalkStopsAtFailure | template.go:185-188 | a failing entry that the walk reaches, inside no skipped directory, ends the walk with an error |
| TemplateManager.WalkSucceedsWithoutFailure | template.go:164-231 | when no entry in reach fails, the walk succeeds |
| TemplateManager.WalkFailsIffReachedFailure | template.go:225-228 | the whole walk fails exactly when some entry in reach fails |
| TemplateManager.WalkLoadsReachedTemplates | template.go:218-222 | a walk that succeeds holds, under its name, every readable normal template it reached |
| TemplateManager.SuccessfulWalkHoldsReachedTemplates | template.go:233-236 | after a successful walk the normal set exists and holds every readable normal template outside the skipped directories |
| TemplateManager.WalkAppendsOutputs | template.go:164-231 | the walk only appends outputs: those written before stay, in order |
| TemplateManager.WalkKeepsNames | template.go:218-222 | once the normal set exists it stays, and no name is ever removed from it |
| TemplateManager.WalkCreatesNonEmpty | template.go:218-222 | a normal set created during the walk holds at least one template |
| TemplateManager.Installed | template.go:233-236 | a failed walk leaves the installed set as it was; a successful one installs the walk's set, nil included |
| TemplateManager.NotFoundMessage | template.go:260 | the error quotes the lower-cased name between "can't find template '" and "'" |
| TemplateManager.RenderFailedMessage | template.go:270 | the error is "failed to render template. Reason: " followed by the execution error |
| TemplateManager.Scan | template.go:164 | the first entry at or after j that is at most `depth` deep |
| TemplateManager.SubtreeEnd | template.go:170 | the index just past the contents of a directory: every entry before it is deeper |
| TemplateManager.Lookup | template.go:241-247 | a nil set finds nothing; a template is found exactly when the lower-cased name is in the set, and it is that entry |
| TemplateManager.Render | template.go:257-274 | an unknown name gives "can't find template '<name>'" and leaves the arguments alone; otherwise every before-render handler acts on the arguments in order, and there is an error exactly when execution fails, with "failed to render template. Reason: …" |
| TemplateManager.NoNormalTemplateMeansNil | template.go:218-222 | without a normal template file the walk's normal set stays nil |
| TemplateManager.InstalledComeFromEntries | template.go:211-222 | every template in the set comes from a normal template file of the walk, under its name, with its hook-rewritten source |
| TemplateManager.SkippedRootLoadsNothing | template.go:168-171 | when the template directory itself is skipped, the walk succeeds without visiting anything and a nil set is installed |
| TemplateManager.InstalledNamesAreFound | template.go:233-247 | every installed name is found by `getTemplate` under that name; when all files lie inside the directory, no installed name starts with `static/` |
| TemplateManager.WrittenOutputsArePublicStatics | template.go:194-209 | every output written lies under `<dir>/_static/`, for a name none of whose segments starts with `_` |
| TemplateManager.RenderFiresInAttachOrder | template.go:263-267 | handlers attached to the before-render hook run after those already there, in attach order; rejected ones never run |
| TemplateManager.ScanIgnoresRest | template.go:164 | entries after the point where a scan stops do not move it |
| TemplateManager.ErrorIgnoresRest | template.go:225-228 | after an error the walk stops: later entries make no difference |
| TemplateManager.SkippedContentsIgnored | template.go:168-171 | the contents of a skipped directory are never looked at: changing any entry inside it leaves the outcome as it is |
| TemplateManager.TemplateManager.constructor | template.go:118-128 | the directory is normalised, no set is installed, and exactly the two hooks are declared with their signatures and no handlers |
| TemplateManager.TemplateManager.Visit | template.go:164-231 | the walk callback computes `Step`; the handlers' types matter only for a normal template that was read |
| TemplateManager.TemplateManager.VisitStatic | template.go:194-209 | the static branch computes `StaticStep` |
| TemplateManager.TemplateManager.BeforeParse | template.go:211-215 | the source after the before-parse handlers is `Fire` of them, in order |
| TemplateManager.TemplateManager.LoadTemplates | template.go:147-239 | if the watcher cannot be created, it fails and changes nothing; otherwise the error and outputs are those of `Walk`, and the installed set is the walk's set on success and the old one on failure; the handlers' types matter only when a readable normal template exists |
| TemplateManager.TemplateManager.GetTemplate | template.go:241-247 | `getTemplate` is `Lookup` on the installed set |
| TemplateManager.TemplateManager.RenderTemplate | template.go:257-274 | the error and the new arguments are those of `Render`; the handlers' types matter only when the template is found |

## Left out

- The file watcher (template.go:130-145, 152-161, 173-176) is left out: fsnotify, the goroutine and the reload on change. Only whether `NewWatcher` succeeds is kept, as a parameter.
- Reading files, creating directories and files, and executing a static template into a file are flags on each walk entry. The file created at template.go:205 is never closed in the source; that is not modelled.
- The `html/template` engine is left out. Parsing and execution are function parameters, and a set is a map from name to source. `{{define}}` blocks inside a file, template functions in the set, and `Lookup` on the static set at template.go:206 are not modelled.
- `toHtml`, `antiClickjacking` and `url` (template.go:35-37, 51-57) are left out: the first two return constant HTML, and `url` calls the router, which is not part of this model. `AddTmplFunc` (template.go:249-253) is left out because the function map only matters to the parser.
- TemplateFuncs.Since: takes the elapsed time as whole seconds. `time.Since` and the float-to-int truncation at template.go:59 are not modelled.
- The walker's own errors (the `err` and a nil `info` passed to the callback at template.go:164) are left out. The walk is given as the entries it reports, in order, with depths.
- TemplateManager.Step: on a failed parse the model keeps the old state. In Go, a failed parse of a static template sets the static set to nil (template.go:196, 198), and so does a failed parse of the first normal template (template.go:219); a failed parse into an existing normal set discards the result and keeps the set (template.go:221). None of this can be observed: the walk stops and a failed walk installs nothing.
- Handlers are values with a type. Their effect is a parameter: `rewrite` for before-parse, `onRender` for before-render. A handler that changes the manager itself, or uses the request or writer, is not modelled.
- TemplateManager.TemplateManager.Visit, LoadTemplates and RenderTemplate require the hook's handlers to have exactly its signature only where the source's type assertions run (template.go:214, 266): Visit for a normal template that was read, RenderTemplate for a template that is found. LoadTemplates requires it as soon as any entry is a readable normal template, even one inside a skipped directory or after the walk has failed, so it excludes more trees than the panic does. The assertions panic on a named function type, which `AddHook` accepts.
- TemplateManager.TemplateManager.LoadTemplates requires `AllSliceSafe` of every entry: a template file that was read has a path longer than the directory (the slice at template.go:191), and a public static one a base name no longer than its path (the slice at template.go:203). That covers entries the walk never reaches, and the second bound also holds for a static template that fails to parse, before line 203 would run. So it excludes more than the panics do.
- Validator.ValidationResult.Message requires the result's index to address a message, or to be -1. `ResultAddressesOwnMessage` shows that every index a check hands out does. Calling it on a nil result panics in the source after logging (validation.go:34-36); the model has no nil receiver.
- Go's `reflect` is reduced to the kinds the code asks about. A check value is nil, int, string, time (only whether it is zero), slice (only its length) or anything else. A type is basic, named, pointer, slice, map or function, enough for `AssignableTo` between function types.
- Logging (hooks.go:35, 60; template.go:175, 187, 226) is left out.
- Lower-casing is ASCII only, and string lengths count characters rather than UTF-8 bytes. For paths the two agree on ASCII text. The string lengths that `Min`, `Max` and `MinMax` compare with their bounds (validation.go:88, 111, 134) are byte counts in Go and character counts here, so a string outside ASCII is measured differently; `Required` (validation.go:61) only asks whether the length is zero, on which the two agree.
- A static template is written to `<dir>/_<name>`, that is, under `<dir>/_static/` (template.go:202).
- Validator.Validation.constructor: makes the errors map. A zero `Validation{}` has a nil map, and the append at validation.go:26 panics on it; the model assumes the map was made.
- TemplateFuncs.Paginate: uses unbounded integers. Go's `int` is 64 bits wide, so `curPage-1` (template.go:90), `curPage-offset` (template.go:93, 97), `curPage+offset+1` (template.go:97), `curPage+offset` (template.go:107) and `curPage+1` (template.go:113) wrap around at the extremes; that is not modelled.

## Findings

| source | as written | input that shows it | evidently intended | confidence | as-written member | corrected member |
|---|---|---|---|---|---|---|
| validation.go:64-65 | `Required` on a `time.Time` records success when `value.IsZero()` | a set (non-zero) time fails with "Required", and the zero time passes | the check passes when the time is not zero, as for every other kind | high, not executed | Validator.RequiredAsWritten, Validator.RequiredAsWrittenInvertsTime | Validator.RequiredCheck |
