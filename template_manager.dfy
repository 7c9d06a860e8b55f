/** The template manager: it walks the template directory, parses every normal
    template into one set after the before-parse hooks have rewritten its source,
    writes every public static template out once, installs the new set only when
    the whole walk succeeded, and renders a template by name after the
    before-render hooks have seen its arguments.

    The file system, the parser and the renderer are not modelled: the walk is
    given as the sequence of entries it reports, each carrying the outcome of the
    file operations on it, and parsing and rendering are given as functions. */
module TemplateManager {
  import opened Text
  import opened HookRegistry
  import opened TemplatePaths
  import opened TemplateFuncs

  /** The hook ids the manager declares. */
  const TM_BEFORE_PARSE := 0
  const TM_BEFORE_RENDER := 1

  const TEMPLATE_MANAGER_PTR := Pointer(Named("jantar.TemplateManager", Basic("struct")))

  /** `func(*TemplateManager, string, *[]byte)` */
  const BEFORE_PARSE_SIGNATURE := Func([TEMPLATE_MANAGER_PTR, Basic("string"), Pointer(Slice(Basic("uint8")))], [])

  /** `func(*http.Request, *TemplateManager, *template.Template, map[string]interface{})` */
  const BEFORE_RENDER_SIGNATURE :=
    Func([Pointer(Named("http.Request", Basic("struct"))), TEMPLATE_MANAGER_PTR,
          Pointer(Named("template.Template", Basic("struct"))), MapOf(Basic("string"), Basic("interface{}"))], [])

  /** A template's source text, as read from its file. */
  type Source = seq<bv8>

  /** A parsed set of templates, by name. */
  type TemplateSet = map<string, Source>

  /** One template of a set. */
  datatype Template = Template(name: string, source: Source)

  /** One entry the directory walk reports, in the order it reports them (a directory
      before its contents). `depth` is 0 for the template directory itself and one
      more for each level below it; `name` is the entry's base name, not lower-cased;
      `readOk`/`data` are the outcome of reading a file, `emitOk` that of writing a
      static template's output (creating its directory, the file, and executing it). */
  datatype Entry = Entry(depth: nat, path: string, isDir: bool, name: string,
                         readOk: bool, data: Source, emitOk: bool)

  datatype LoadError = WatcherFailed | ReadFailed(path: string) | ParseFailed(tmplName: string) | EmitFailed(filename: string)

  /** A static template written out: the directory created and the file written. */
  datatype Output = Output(parent: string, filename: string)

  /** The variables the walk callback updates: the normal set, the static set and the outputs written. */
  datatype WalkState = WalkState(templates: Option<TemplateSet>, statics: Option<TemplateSet>, written: seq<Output>)

  /** What the callback returns to the walk. */
  datatype Control = Continue | SkipDir | Abort(err: LoadError)

  /** Parsing `source` as the template `name` into a set; a nil set is created first. */
  function AddTemplate(known: Option<TemplateSet>, name: string, source: Source): (r: TemplateSet)
    ensures name in r && r[name] == source
    ensures forall other :: other != name ==> (other in r <==> known.Some? && other in known.value)
    ensures forall other :: other != name && other in r ==> r[other] == known.value[other]
  {
    (if known.None? then map[] else known.value)[name := source]
  }

  /** The slices the callback takes are in range: a template file that was read has a
      path longer than the directory, and a public static one a name no longer than its path. */
  predicate SliceSafe(dir: string, e: Entry)
  {
    || e.isDir || !IsTemplateFile(e.name) || !e.readOk
    || (&& |dir| < |e.path|
        && (IsStatic(dir, Normalize(e.path)) && Emits(TmplName(dir, Normalize(e.path))) ==> |e.name| <= |e.path|))
  }

  /** A normal (non-static) template file that was read. */
  predicate NormalTemplate(dir: string, e: Entry)
  {
    !e.isDir && IsTemplateFile(e.name) && e.readOk && !IsStatic(dir, Normalize(e.path))
  }

  /** A static template file that was read. */
  predicate StaticTemplate(dir: string, e: Entry)
  {
    !e.isDir && IsTemplateFile(e.name) && e.readOk && IsStatic(dir, Normalize(e.path))
  }

  /** The entries on which the callback fails, whatever the walk has seen before: a
      template file that cannot be read, or does not parse (a normal one after the
      before-parse handlers), or is a public static one whose output cannot be written. */
  predicate Fails(dir: string, hs: seq<Handler>, parse: (string, Source) -> bool,
                  rewrite: string -> ((Handler, Source) -> Source), e: Entry)
    requires SliceSafe(dir, e)
  {
    && !e.isDir && IsTemplateFile(e.name)
    && (|| !e.readOk
        || var name := TmplName(dir, Normalize(e.path));
           if IsStatic(dir, Normalize(e.path)) then !parse(name, e.data) || (Emits(name) && !e.emitOk)
           else !parse(name, Fire(hs, rewrite(name), e.data)))
  }

  /** The callback on a static template named `tmplName`: parse it into the static set
      and, unless it is private, write it out. */
  function StaticStep(dir: string, parse: (string, Source) -> bool, st: WalkState, e: Entry, tmplName: string): (r: (WalkState, Control))
    requires Emits(tmplName) ==> |e.name| <= |dir| + 1 + |tmplName|
    ensures r.0.templates == st.templates
    ensures r.1.Continue? || r.1.Abort?
    ensures r.1.Abort? <==> !parse(tmplName, e.data) || (Emits(tmplName) && !e.emitOk)
    ensures r.1.Abort? ==> r.0 == st
    ensures r.1.Abort? ==>
              r.1.err == if !parse(tmplName, e.data) then ParseFailed(tmplName) else EmitFailed(StaticTarget(dir, tmplName))
    ensures r.1.Continue? ==> r.0.statics == Some(AddTemplate(st.statics, tmplName, e.data))
    ensures r.1.Continue? && Emits(tmplName) ==>
              r.0.written == st.written + [Output(StaticParent(StaticTarget(dir, tmplName), e.name), StaticTarget(dir, tmplName))]
    ensures r.0.written != st.written ==> Emits(tmplName)
  {
    if !parse(tmplName, e.data) then (st, Abort(ParseFailed(tmplName)))
    else
      var parsed := st.(statics := Some(AddTemplate(st.statics, tmplName, e.data)));
      if !Emits(tmplName) then (parsed, Continue)
      else
        var filename := StaticTarget(dir, tmplName);
        if !e.emitOk then (st, Abort(EmitFailed(filename)))
        else (parsed.(written := st.written + [Output(StaticParent(filename, e.name), filename)]), Continue)
  }

  /** The walk callback on one entry: `hs` are the before-parse handlers, `parse`
      says whether a source parses, `rewrite(tmplName)` is what one handler does to
      the source of the template `tmplName`. */
  function Step(dir: string, hs: seq<Handler>, parse: (string, Source) -> bool,
                rewrite: string -> ((Handler, Source) -> Source), st: WalkState, e: Entry): (r: (WalkState, Control))
    requires SliceSafe(dir, e)
    ensures r.1.SkipDir? <==> e.isDir && SkipDirectory(e.name)
    ensures r.1.Abort? <==> Fails(dir, hs, parse, rewrite, e)
    ensures e.isDir ==> r.0 == st
    ensures r.1.Abort? ==> r.0 == st
    ensures !e.isDir && IsTemplateFile(e.name) && !e.readOk ==> r.1 == Abort(ReadFailed(Normalize(e.path)))
    ensures NormalTemplate(dir, e) && r.1.Abort? ==> r.1 == Abort(ParseFailed(TmplName(dir, Normalize(e.path))))
    ensures NormalTemplate(dir, e) && !r.1.Abort? ==>
              && r.1.Continue?
              && r.0 == st.(templates := Some(AddTemplate(st.templates, TmplName(dir, Normalize(e.path)),
                                                          Fire(hs, rewrite(TmplName(dir, Normalize(e.path))), e.data))))
    ensures StaticTemplate(dir, e) ==> r == StaticStep(dir, parse, st, e, TmplName(dir, Normalize(e.path)))
    ensures r.0.templates != st.templates ==>
              && NormalTemplate(dir, e)
              && r.0.templates == Some(AddTemplate(st.templates, TmplName(dir, Normalize(e.path)),
                                                   Fire(hs, rewrite(TmplName(dir, Normalize(e.path))), e.data)))
    ensures r.0.written != st.written ==>
              && StaticTemplate(dir, e)
              && Emits(TmplName(dir, Normalize(e.path)))
              && r.0.written == st.written + [Output(StaticParent(StaticTarget(dir, TmplName(dir, Normalize(e.path))), e.name),
                                                     StaticTarget(dir, TmplName(dir, Normalize(e.path))))]
  {
    NormalizeFacts(e.path);
    var path := Normalize(e.path);
    if e.isDir then
      (st, if SkipDirectory(e.name) then SkipDir else Continue)
    else if !IsTemplateFile(e.name) then
      (st, Continue)
    else if !e.readOk then
      (st, Abort(ReadFailed(path)))
    else
      var tmplName := TmplName(dir, path);
      if IsStatic(dir, path) then StaticStep(dir, parse, st, e, tmplName)
      else
        var source := Fire(hs, rewrite(tmplName), e.data);
        if !parse(tmplName, source) then (st, Abort(ParseFailed(tmplName)))
        else (st.(templates := Some(AddTemplate(st.templates, tmplName, source))), Continue)
  }

  /** The first index at or after `j` whose entry is at most `depth` deep. */
  function Scan(entries: seq<Entry>, depth: nat, j: nat): (k: nat)
    requires j <= |entries|
    ensures j <= k <= |entries|
    ensures k < |entries| ==> entries[k].depth <= depth
    ensures forall m :: j <= m < k ==> entries[m].depth > depth
    decreases |entries| - j
  {
    if j == |entries| || entries[j].depth <= depth then j else Scan(entries, depth, j + 1)
  }

  /** The index just past the contents of the directory at `k`. */
  function SubtreeEnd(entries: seq<Entry>, k: nat): (end: nat)
    requires k < |entries|
    ensures k < end <= |entries|
    ensures forall m :: k < m < end ==> entries[m].depth > entries[k].depth
    ensures end < |entries| ==> entries[end].depth <= entries[k].depth
  {
    Scan(entries, entries[k].depth, k + 1)
  }

  predicate AllSliceSafe(dir: string, entries: seq<Entry>)
  {
    forall k :: 0 <= k < |entries| ==> SliceSafe(dir, entries[k])
  }

  /** The walk from entry `from` on: the callback's answer decides whether the walk
      goes on with the next entry, skips a directory's contents, or stops with an error. */
  function WalkFrom(dir: string, hs: seq<Handler>, parse: (string, Source) -> bool,
                    rewrite: string -> ((Handler, Source) -> Source),
                    entries: seq<Entry>, from: nat, st: WalkState): (r: (Option<LoadError>, WalkState))
    requires from <= |entries| && AllSliceSafe(dir, entries)
    decreases |entries| - from
  {
    if from == |entries| then (None, st)
    else
      var r := Step(dir, hs, parse, rewrite, st, entries[from]);
      match r.1
      case Abort(err) => (Some(err), r.0)
      case SkipDir => WalkFrom(dir, hs, parse, rewrite, entries, SubtreeEnd(entries, from), r.0)
      case Continue => WalkFrom(dir, hs, parse, rewrite, entries, from + 1, r.0)
  }

  /** The walk only appends outputs: those written before stay, in order. */
  lemma {:induction false} WalkAppendsOutputs(dir: string, hs: seq<Handler>, parse: (string, Source) -> bool,
                                        rewrite: string -> ((Handler, Source) -> Source),
                                        entries: seq<Entry>, from: nat, st: WalkState)
    requires from <= |entries| && AllSliceSafe(dir, entries)
    ensures var r := WalkFrom(dir, hs, parse, rewrite, entries, from, st);
            st.written <= r.1.written
    decreases |entries| - from
  {
    if from < |entries| {
      var r := Step(dir, hs, parse, rewrite, st, entries[from]);
      assert st.written <= r.0.written;
      var next := if r.1.SkipDir? then SubtreeEnd(entries, from) else from + 1;
      if !r.1.Abort? {
        WalkAppendsOutputs(dir, hs, parse, rewrite, entries, next, r.0);
        PrefixTransitive(st.written, r.0.written, WalkFrom(dir, hs, parse, rewrite, entries, next, r.0).1.written);
      }
    }
  }

  lemma PrefixTransitive<T>(a: seq<T>, b: seq<T>, c: seq<T>)
    requires a <= b && b <= c
    ensures a <= c
  {
    assert c[..|a|] == b[..|a|];
  }

  /** A set once created is never dropped and keeps every name it had. */
  lemma {:induction false} WalkKeepsNames(dir: string, hs: seq<Handler>, parse: (string, Source) -> bool,
                                        rewrite: string -> ((Handler, Source) -> Source),
                                        entries: seq<Entry>, from: nat, st: WalkState)
    requires from <= |entries| && AllSliceSafe(dir, entries)
    ensures var r := WalkFrom(dir, hs, parse, rewrite, entries, from, st);
            st.templates.Some? ==> r.1.templates.Some? && st.templates.value.Keys <= r.1.templates.value.Keys
    decreases |entries| - from
  {
    if from < |entries| {
      var r := Step(dir, hs, parse, rewrite, st, entries[from]);
      match r.1
      case Abort(_) =>
      case SkipDir => WalkKeepsNames(dir, hs, parse, rewrite, entries, SubtreeEnd(entries, from), r.0);
      case Continue => WalkKeepsNames(dir, hs, parse, rewrite, entries, from + 1, r.0);
    }
  }

  /** A set exists only once a template was parsed into it. */
  lemma {:induction false} WalkCreatesNonEmpty(dir: string, hs: seq<Handler>, parse: (string, Source) -> bool,
                                        rewrite: string -> ((Handler, Source) -> Source),
                                        entries: seq<Entry>, from: nat, st: WalkState)
    requires from <= |entries| && AllSliceSafe(dir, entries)
    ensures var r := WalkFrom(dir, hs, parse, rewrite, entries, from, st);
            (st.templates.Some? ==> st.templates.value != map[]) ==> (r.1.templates.Some? ==> r.1.templates.value != map[])
    decreases |entries| - from
  {
    if from < |entries| {
      var r := Step(dir, hs, parse, rewrite, st, entries[from]);
      match r.1
      case Abort(_) =>
      case SkipDir => WalkCreatesNonEmpty(dir, hs, parse, rewrite, entries, SubtreeEnd(entries, from), r.0);
      case Continue => WalkCreatesNonEmpty(dir, hs, parse, rewrite, entries, from + 1, r.0);
    }
  }

  const START := WalkState(None, None, [])

  /** The whole walk, from empty sets. */
  function Walk(dir: string, hs: seq<Handler>, parse: (string, Source) -> bool,
                rewrite: string -> ((Handler, Source) -> Source), entries: seq<Entry>): (r: (Option<LoadError>, WalkState))
    requires AllSliceSafe(dir, entries)
    ensures r.1.templates.Some? ==> r.1.templates.value != map[]
  {
    WalkCreatesNonEmpty(dir, hs, parse, rewrite, entries, 0, START);
    WalkFrom(dir, hs, parse, rewrite, entries, 0, START)
  }

  /** What the manager installs after a walk: the new normal set if the walk succeeded, else the old one. */
  function Installed(old_list: Option<TemplateSet>, result: (Option<LoadError>, WalkState)): (list: Option<TemplateSet>)
    ensures result.0.Some? ==> list == old_list
    ensures result.0.None? ==> list == result.1.templates
  {
    if result.0.None? then result.1.templates else old_list
  }

  /** `getTemplate`: the template named `name`, lower-cased, in the installed set. */
  function Lookup(list: Option<TemplateSet>, name: string): (t: Option<Template>)
    ensures list.None? ==> t.None?
    ensures t.Some? <==> list.Some? && ToLower(name) in list.value
    ensures t.Some? ==> t.value == Template(ToLower(name), list.value[ToLower(name)])
  {
    if list.None? then None
    else if ToLower(name) in list.value then Some(Template(ToLower(name), list.value[ToLower(name)]))
    else None
  }

  /** The error `RenderTemplate` returns for a template it cannot find. */
  function NotFoundMessage(name: string): (r: string)
    ensures HasPrefix(r, "can't find template '") && HasSuffix(r, "'")
    ensures |r| == 22 + |name| && r[21..|r| - 1] == ToLower(name)
  {
    "can't find template '" + ToLower(name) + "'"
  }

  /** The error `RenderTemplate` returns when executing fails with `reason`. */
  function RenderFailedMessage(reason: string): (r: string)
    ensures HasPrefix(r, "failed to render template. Reason: ") && r[35..] == reason
  {
    "failed to render template. Reason: " + reason
  }

  /** `RenderTemplate` on an installed set: the error it returns and the arguments
      after the before-render handlers `hs` have run; `onRender(t)` is what one
      handler does to the arguments of `t`, `execute` the outcome of executing. */
  function Render(list: Option<TemplateSet>, hs: seq<Handler>, name: string, args: map<string, Value>,
                  onRender: Template -> ((Handler, map<string, Value>) -> map<string, Value>),
                  execute: (Template, map<string, Value>) -> Option<string>): (r: (Option<string>, map<string, Value>))
    ensures Lookup(list, name).None? ==> r == (Some(NotFoundMessage(name)), args)
    ensures Lookup(list, name).Some? ==>
              && r.1 == Fire(hs, onRender(Lookup(list, name).value), args)
              && (r.0.None? <==> execute(Lookup(list, name).value, r.1).None?)
              && (r.0.Some? ==> r.0.value == RenderFailedMessage(execute(Lookup(list, name).value, r.1).value))
  {
    match Lookup(list, name)
    case None => (Some(NotFoundMessage(name)), args)
    case Some(t) =>
      var a := Fire(hs, onRender(t), args);
      match execute(t, a)
      case None => (None, a)
      case Some(reason) => (Some(RenderFailedMessage(reason)), a)
  }

  /** Every handler in `hs` has exactly the type `ty`: the condition under which the
      type assertion before each call does not panic. */
  predicate ExactlyTyped(hs: seq<Handler>, ty: TypeDesc)
  {
    forall h :: h in hs ==> h.ty == ty
  }

  // ---------------------------------------------------------------------------
  // Properties of the walk

  /** Without a normal template file the installed set stays nil. */
  lemma {:induction false} NoNormalTemplateMeansNil(dir: string, hs: seq<Handler>, parse: (string, Source) -> bool,
                                                    rewrite: string -> ((Handler, Source) -> Source),
                                                    entries: seq<Entry>, from: nat, st: WalkState)
    requires from <= |entries| && AllSliceSafe(dir, entries)
    requires forall k :: 0 <= k < |entries| ==> !NormalTemplate(dir, entries[k])
    requires st.templates.None?
    ensures WalkFrom(dir, hs, parse, rewrite, entries, from, st).1.templates.None?
    decreases |entries| - from
  {
    if from < |entries| {
      var r := Step(dir, hs, parse, rewrite, st, entries[from]);
      assert !NormalTemplate(dir, entries[from]);
      match r.1
      case Abort(_) =>
      case SkipDir => NoNormalTemplateMeansNil(dir, hs, parse, rewrite, entries, SubtreeEnd(entries, from), r.0);
      case Continue => NoNormalTemplateMeansNil(dir, hs, parse, rewrite, entries, from + 1, r.0);
    }
  }

  /** Entry `k` lies inside no directory that a walk started at `from` skips before reaching `k`. */
  predicate Unskipped(entries: seq<Entry>, from: nat, k: nat)
    requires k < |entries|
  {
    !exists j :: from <= j < k && entries[j].isDir && SkipDirectory(entries[j].name) && k < SubtreeEnd(entries, j)
  }

  /** A failing entry the walk reaches makes the walk fail: an entry that cannot be
      read, parsed or written out ends the walk with an error. */
  lemma {:induction false} WalkStopsAtFailure(dir: string, hs: seq<Handler>, parse: (string, Source) -> bool,
                                              rewrite: string -> ((Handler, Source) -> Source),
                                              entries: seq<Entry>, from: nat, st: WalkState, k: nat)
    requires from <= k < |entries| && AllSliceSafe(dir, entries)
    requires Unskipped(entries, from, k) && Fails(dir, hs, parse, rewrite, entries[k])
    ensures WalkFrom(dir, hs, parse, rewrite, entries, from, st).0.Some?
    decreases k - from
  {
    var r := Step(dir, hs, parse, rewrite, st, entries[from]);
    if from < k {
      match r.1
      case Abort(_) =>
      case SkipDir =>
        assert SubtreeEnd(entries, from) <= k;
        WalkStopsAtFailure(dir, hs, parse, rewrite, entries, SubtreeEnd(entries, from), r.0, k);
      case Continue =>
        WalkStopsAtFailure(dir, hs, parse, rewrite, entries, from + 1, r.0, k);
    }
  }

  /** Without a failing entry in reach, the walk succeeds. */
  lemma {:induction false} WalkSucceedsWithoutFailure(dir: string, hs: seq<Handler>, parse: (string, Source) -> bool,
                                                      rewrite: string -> ((Handler, Source) -> Source),
                                                      entries: seq<Entry>, from: nat, st: WalkState)
    requires from <= |entries| && AllSliceSafe(dir, entries)
    requires forall k :: from <= k < |entries| && Unskipped(entries, from, k) ==> !Fails(dir, hs, parse, rewrite, entries[k])
    ensures WalkFrom(dir, hs, parse, rewrite, entries, from, st).0.None?
    decreases |entries| - from
  {
    if from < |entries| {
      assert Unskipped(entries, from, from);
      var r := Step(dir, hs, parse, rewrite, st, entries[from]);
      if r.1.SkipDir? {
        var next := SubtreeEnd(entries, from);
        forall k | next <= k < |entries| && Unskipped(entries, next, k)
          ensures Unskipped(entries, from, k)
        {
          forall j | from < j < next && entries[j].isDir && SkipDirectory(entries[j].name)
            ensures SubtreeEnd(entries, j) <= k
          {
            SkipCoversNested(entries, from, j);
          }
        }
        WalkSucceedsWithoutFailure(dir, hs, parse, rewrite, entries, next, r.0);
      } else if r.1.Continue? {
        forall k | from + 1 <= k < |entries| && Unskipped(entries, from + 1, k)
          ensures Unskipped(entries, from, k)
        {
        }
        WalkSucceedsWithoutFailure(dir, hs, parse, rewrite, entries, from + 1, r.0);
      }
    }
  }

  /** A successful walk holds every normal template it reached, under its name. */
  lemma {:induction false} WalkLoadsReachedTemplates(dir: string, hs: seq<Handler>, parse: (string, Source) -> bool,
                                                     rewrite: string -> ((Handler, Source) -> Source),
                                                     entries: seq<Entry>, from: nat, st: WalkState, k: nat)
    requires from <= k < |entries| && AllSliceSafe(dir, entries)
    requires Unskipped(entries, from, k) && NormalTemplate(dir, entries[k])
    ensures var r := WalkFrom(dir, hs, parse, rewrite, entries, from, st);
            r.0.None? ==> r.1.templates.Some? && TmplName(dir, Normalize(entries[k].path)) in r.1.templates.value
    decreases k - from
  {
    var r := Step(dir, hs, parse, rewrite, st, entries[from]);
    if from == k {
      if r.1.Continue? {
        WalkKeepsNames(dir, hs, parse, rewrite, entries, from + 1, r.0);
      }
    } else {
      match r.1
      case Abort(_) =>
      case SkipDir =>
        assert SubtreeEnd(entries, from) <= k;
        WalkLoadsReachedTemplates(dir, hs, parse, rewrite, entries, SubtreeEnd(entries, from), r.0, k);
      case Continue =>
        WalkLoadsReachedTemplates(dir, hs, parse, rewrite, entries, from + 1, r.0, k);
    }
  }

  /** The walk fails exactly when it reaches an entry that fails. */
  lemma WalkFailsIffReachedFailure(dir: string, hs: seq<Handler>, parse: (string, Source) -> bool,
                                   rewrite: string -> ((Handler, Source) -> Source), entries: seq<Entry>)
    requires AllSliceSafe(dir, entries)
    ensures Walk(dir, hs, parse, rewrite, entries).0.Some? <==>
              exists k :: 0 <= k < |entries| && Unskipped(entries, 0, k) && Fails(dir, hs, parse, rewrite, entries[k])
  {
    if k :| 0 <= k < |entries| && Unskipped(entries, 0, k) && Fails(dir, hs, parse, rewrite, entries[k]) {
      WalkStopsAtFailure(dir, hs, parse, rewrite, entries, 0, START, k);
    } else {
      WalkSucceedsWithoutFailure(dir, hs, parse, rewrite, entries, 0, START);
    }
  }

  /** After a successful walk the set is there and holds every normal template reached. */
  lemma SuccessfulWalkHoldsReachedTemplates(dir: string, hs: seq<Handler>, parse: (string, Source) -> bool,
                                            rewrite: string -> ((Handler, Source) -> Source), entries: seq<Entry>)
    requires AllSliceSafe(dir, entries)
    ensures var r := Walk(dir, hs, parse, rewrite, entries);
            forall k :: 0 <= k < |entries| && Unskipped(entries, 0, k) && NormalTemplate(dir, entries[k]) && r.0.None? ==>
              r.1.templates.Some? && TmplName(dir, Normalize(entries[k].path)) in r.1.templates.value
  {
    forall k | 0 <= k < |entries| && Unskipped(entries, 0, k) && NormalTemplate(dir, entries[k])
      ensures var r := Walk(dir, hs, parse, rewrite, entries);
              r.0.None? ==> r.1.templates.Some? && TmplName(dir, Normalize(entries[k].path)) in r.1.templates.value
    {
      WalkLoadsReachedTemplates(dir, hs, parse, rewrite, entries, 0, START, k);
    }
  }

  /** Every template in a set is the hook-rewritten source of a normal template file of the walk. */
  ghost predicate FromEntries(dir: string, hs: seq<Handler>, rewrite: string -> ((Handler, Source) -> Source),
                              entries: seq<Entry>, templates: Option<TemplateSet>)
    requires AllSliceSafe(dir, entries)
  {
    templates.Some? ==>
      forall name :: name in templates.value ==>
        exists k :: 0 <= k < |entries| && NormalTemplate(dir, entries[k])
                    && (NormalizeFacts(entries[k].path);
                        name == TmplName(dir, Normalize(entries[k].path))
                        && templates.value[name] == Fire(hs, rewrite(name), entries[k].data))
  }

  lemma {:induction false} InstalledComeFromEntries(dir: string, hs: seq<Handler>, parse: (string, Source) -> bool,
                                                    rewrite: string -> ((Handler, Source) -> Source),
                                                    entries: seq<Entry>, from: nat, st: WalkState)
    requires from <= |entries| && AllSliceSafe(dir, entries)
    requires FromEntries(dir, hs, rewrite, entries, st.templates)
    ensures FromEntries(dir, hs, rewrite, entries, WalkFrom(dir, hs, parse, rewrite, entries, from, st).1.templates)
    decreases |entries| - from
  {
    if from < |entries| {
      var e := entries[from];
      var r := Step(dir, hs, parse, rewrite, st, e);
      assert FromEntries(dir, hs, rewrite, entries, r.0.templates) by {
        if r.0.templates != st.templates {
          NormalizeFacts(e.path);
          var added := TmplName(dir, Normalize(e.path));
          forall name | name in r.0.templates.value
            ensures exists k :: 0 <= k < |entries| && NormalTemplate(dir, entries[k])
                      && (NormalizeFacts(entries[k].path);
                          name == TmplName(dir, Normalize(entries[k].path))
                          && r.0.templates.value[name] == Fire(hs, rewrite(name), entries[k].data))
          {
            if name == added {
              assert NormalTemplate(dir, entries[from]);
            }
          }
        }
      }
      match r.1
      case Abort(_) =>
      case SkipDir => InstalledComeFromEntries(dir, hs, parse, rewrite, entries, SubtreeEnd(entries, from), r.0);
      case Continue => InstalledComeFromEntries(dir, hs, parse, rewrite, entries, from + 1, r.0);
    }
  }

  /** When the template directory itself is skipped (its name starts with `.`, as
      `.` itself does), the walk succeeds without visiting anything and the manager
      installs a nil set. */
  lemma SkippedRootLoadsNothing(dir: string, hs: seq<Handler>, parse: (string, Source) -> bool,
                                rewrite: string -> ((Handler, Source) -> Source), entries: seq<Entry>,
                                old_list: Option<TemplateSet>)
    requires AllSliceSafe(dir, entries)
    requires |entries| > 0 && entries[0].depth == 0 && entries[0].isDir && SkipDirectory(entries[0].name)
    requires forall k :: 0 < k < |entries| ==> entries[k].depth > 0
    ensures Walk(dir, hs, parse, rewrite, entries) == (None, START)
    ensures Installed(old_list, Walk(dir, hs, parse, rewrite, entries)) == None
  {
    var end := SubtreeEnd(entries, 0);
    assert end == |entries|;
    var r := Step(dir, hs, parse, rewrite, START, entries[0]);
    assert r == (START, SkipDir);
    assert WalkFrom(dir, hs, parse, rewrite, entries, 0, START) == WalkFrom(dir, hs, parse, rewrite, entries, end, START);
  }

  /** Every installed name is found again by `getTemplate` under that very name (the
      names are already lower-case), and when every template file lies inside the
      directory no installed name starts with `static/`. */
  lemma InstalledNamesAreFound(dir: string, hs: seq<Handler>, parse: (string, Source) -> bool,
                               rewrite: string -> ((Handler, Source) -> Source), entries: seq<Entry>)
    requires AllSliceSafe(dir, entries)
    ensures var t := Walk(dir, hs, parse, rewrite, entries).1.templates;
            t.Some? ==> forall name :: name in t.value ==> Lookup(t, name) == Some(Template(name, t.value[name]))
    ensures var t := Walk(dir, hs, parse, rewrite, entries).1.templates;
            Rooted(dir, entries) && t.Some? ==> forall name :: name in t.value ==> !HasPrefix(name, "static/")
  {
    var t := Walk(dir, hs, parse, rewrite, entries).1.templates;
    InstalledComeFromEntries(dir, hs, parse, rewrite, entries, 0, START);
    if t.Some? {
      forall name | name in t.value
        ensures ToLower(name) == name
        ensures Rooted(dir, entries) ==> !HasPrefix(name, "static/")
      {
        var k :| 0 <= k < |entries| && NormalTemplate(dir, entries[k])
                 && (NormalizeFacts(entries[k].path);
                     name == TmplName(dir, Normalize(entries[k].path))
                     && t.value[name] == Fire(hs, rewrite(name), entries[k].data));
        var path := Normalize(entries[k].path);
        NormalizeFacts(entries[k].path);
        NormalIsLower(path, |dir| + 1);
        assert name == path[|dir| + 1..];
        if Rooted(dir, entries) {
          assert HasPrefix(path, dir + "/");
          TmplNameRebuilds(dir, path);
          StaticByName(dir, name);
        }
      }
    }
  }

  /** Every template file of the walk lies inside the template directory. */
  predicate Rooted(dir: string, entries: seq<Entry>)
  {
    forall k :: 0 <= k < |entries| && !entries[k].isDir && IsTemplateFile(entries[k].name) ==>
      HasPrefix(Normalize(entries[k].path), dir + "/")
  }

  /** The outputs written: each inside `<dir>/_static/`, and each for a public template. */
  predicate UnderStaticOutput(dir: string, written: seq<Output>)
  {
    forall o :: o in written ==> HasPrefix(o.filename, dir + "/_static/") && Emits(o.filename[|dir| + 2..])
  }

  lemma {:induction false} WrittenFrom(dir: string, hs: seq<Handler>, parse: (string, Source) -> bool,
                                       rewrite: string -> ((Handler, Source) -> Source),
                                       entries: seq<Entry>, from: nat, st: WalkState)
    requires from <= |entries| && AllSliceSafe(dir, entries)
    requires UnderStaticOutput(dir, st.written)
    ensures UnderStaticOutput(dir, WalkFrom(dir, hs, parse, rewrite, entries, from, st).1.written)
    decreases |entries| - from
  {
    if from < |entries| {
      var e := entries[from];
      var r := Step(dir, hs, parse, rewrite, st, e);
      if r.0.written != st.written {
        StaticOutputIsSkipped(dir, Normalize(e.path));
      }
      match r.1
      case Abort(_) =>
      case SkipDir => WrittenFrom(dir, hs, parse, rewrite, entries, SubtreeEnd(entries, from), r.0);
      case Continue => WrittenFrom(dir, hs, parse, rewrite, entries, from + 1, r.0);
    }
  }

  /** Static output only ever goes below `<dir>/_static/` (which the walk skips), and
      only for templates no segment of whose name starts with `_`. */
  lemma WrittenOutputsArePublicStatics(dir: string, hs: seq<Handler>, parse: (string, Source) -> bool,
                                       rewrite: string -> ((Handler, Source) -> Source), entries: seq<Entry>)
    requires AllSliceSafe(dir, entries)
    ensures forall o :: o in Walk(dir, hs, parse, rewrite, entries).1.written ==>
              && HasPrefix(o.filename, dir + "/_static/")
              && NoSegmentStartsWithUnderscore(o.filename[|dir| + 2..])
  {
    WrittenFrom(dir, hs, parse, rewrite, entries, 0, START);
    forall o | o in Walk(dir, hs, parse, rewrite, entries).1.written
      ensures NoSegmentStartsWithUnderscore(o.filename[|dir| + 2..])
    {
      EmitsIffNoPrivateSegment(o.filename[|dir| + 2..]);
    }
  }

  /** Handlers attached to the before-render hook run, when a template is rendered,
      after those already there and in the order they were attached; the rejected ones never run. */
  lemma RenderFiresInAttachOrder(t: Table, hs: seq<Handler>, list: Option<TemplateSet>, name: string,
                                 args: map<string, Value>,
                                 onRender: Template -> ((Handler, map<string, Value>) -> map<string, Value>),
                                 execute: (Template, map<string, Value>) -> Option<string>)
    requires TM_BEFORE_RENDER in Entries(t) && Lookup(list, name).Some?
    ensures var tmpl := Lookup(list, name).value;
            Render(list, Handlers(AttachAll(t, TM_BEFORE_RENDER, hs), TM_BEFORE_RENDER), name, args, onRender, execute).1
              == Fire(Accepted(Entries(t)[TM_BEFORE_RENDER].signature, hs), onRender(tmpl),
                      Fire(Handlers(t, TM_BEFORE_RENDER), onRender(tmpl), args))
  {
    FiringOrderIsAttachOrder(t, TM_BEFORE_RENDER, hs);
    FireConcat(Handlers(t, TM_BEFORE_RENDER), Accepted(Entries(t)[TM_BEFORE_RENDER].signature, hs),
               onRender(Lookup(list, name).value), args);
  }

  /** Entries appended after the end do not move a scan that stopped before it. */
  lemma {:induction false} ScanIgnoresRest(entries: seq<Entry>, more: seq<Entry>, depth: nat, j: nat)
    requires j <= |entries| && Scan(entries, depth, j) < |entries|
    ensures Scan(entries + more, depth, j) == Scan(entries, depth, j)
    decreases |entries| - j
  {
    assert (entries + more)[j] == entries[j];
    if entries[j].depth > depth {
      ScanIgnoresRest(entries, more, depth, j + 1);
    }
  }

  /** An error ends the walk: the entries after those it has seen make no difference. */
  lemma {:induction false} ErrorIgnoresRest(dir: string, hs: seq<Handler>, parse: (string, Source) -> bool,
                                            rewrite: string -> ((Handler, Source) -> Source),
                                            entries: seq<Entry>, more: seq<Entry>, from: nat, st: WalkState)
    requires from <= |entries| && AllSliceSafe(dir, entries + more)
    requires AllSliceSafe(dir, entries) && WalkFrom(dir, hs, parse, rewrite, entries, from, st).0.Some?
    ensures WalkFrom(dir, hs, parse, rewrite, entries + more, from, st) == WalkFrom(dir, hs, parse, rewrite, entries, from, st)
    decreases |entries| - from
  {
    var all := entries + more;
    assert all[from] == entries[from];
    var r := Step(dir, hs, parse, rewrite, st, entries[from]);
    match r.1
    case Abort(_) =>
    case SkipDir =>
      ScanIgnoresRest(entries, more, entries[from].depth, from + 1);
      ErrorIgnoresRest(dir, hs, parse, rewrite, entries, more, SubtreeEnd(entries, from), r.0);
    case Continue =>
      ErrorIgnoresRest(dir, hs, parse, rewrite, entries, more, from + 1, r.0);
  }

  /** A scan reads only the depths of the entries. */
  lemma {:induction false} ScanSameDepths(a: seq<Entry>, b: seq<Entry>, depth: nat, j: nat)
    requires |a| == |b| && j <= |a|
    requires forall m :: 0 <= m < |a| ==> a[m].depth == b[m].depth
    ensures Scan(a, depth, j) == Scan(b, depth, j)
    decreases |a| - j
  {
    if j < |a| && a[j].depth > depth {
      ScanSameDepths(a, b, depth, j + 1);
    }
  }

  /** Skipping a directory that contains the directory at `k` skips all of `k`'s contents too. */
  lemma SkipCoversNested(entries: seq<Entry>, p: nat, k: nat)
    requires p < k < |entries| && k < SubtreeEnd(entries, p)
    ensures SubtreeEnd(entries, k) <= SubtreeEnd(entries, p)
  {
    assert entries[k].depth > entries[p].depth;
  }

  lemma ReplaceKeepsSafe(dir: string, entries: seq<Entry>, j: nat, e: Entry)
    requires AllSliceSafe(dir, entries) && SliceSafe(dir, e) && j < |entries|
    ensures AllSliceSafe(dir, entries[j := e])
  {
    var alt := entries[j := e];
    forall m | 0 <= m < |alt|
      ensures SliceSafe(dir, alt[m])
    {
      if m != j {
        assert alt[m] == entries[m];
      }
    }
  }

  /** `alt` differs from `entries` at most at index `j`, and not in depth. */
  predicate SameBut(entries: seq<Entry>, alt: seq<Entry>, j: nat)
  {
    && |alt| == |entries|
    && (forall m :: 0 <= m < |entries| ==> alt[m].depth == entries[m].depth)
    && (forall m :: 0 <= m < |entries| && m != j ==> alt[m] == entries[m])
  }

  lemma {:induction false} SkippedFrom(dir: string, hs: seq<Handler>, parse: (string, Source) -> bool,
                                       rewrite: string -> ((Handler, Source) -> Source),
                                       entries: seq<Entry>, alt: seq<Entry>, k: nat, j: nat, from: nat, st: WalkState)
    requires AllSliceSafe(dir, entries) && AllSliceSafe(dir, alt) && SameBut(entries, alt, j)
    requires k < |entries| && entries[k].isDir && SkipDirectory(entries[k].name)
    requires k < j < SubtreeEnd(entries, k)
    requires from <= |entries| && (from <= k || from >= SubtreeEnd(entries, k))
    ensures WalkFrom(dir, hs, parse, rewrite, alt, from, st) == WalkFrom(dir, hs, parse, rewrite, entries, from, st)
    decreases |entries| - from
  {
    if from < |entries| {
      assert alt[from] == entries[from];
      var r := Step(dir, hs, parse, rewrite, st, entries[from]);
      match r.1
      case Abort(_) =>
      case SkipDir =>
        ScanSameDepths(alt, entries, entries[from].depth, from + 1);
        if from < k && SubtreeEnd(entries, from) > k {
          SkipCoversNested(entries, from, k);
        }
        SkippedFrom(dir, hs, parse, rewrite, entries, alt, k, j, SubtreeEnd(entries, from), r.0);
      case Continue =>
        SkippedFrom(dir, hs, parse, rewrite, entries, alt, k, j, from + 1, r.0);
    }
  }

  /** The contents of a skipped directory are never looked at: replacing any entry inside
      it (keeping its depth) leaves the walk's outcome as it was. */
  lemma SkippedContentsIgnored(dir: string, hs: seq<Handler>, parse: (string, Source) -> bool,
                               rewrite: string -> ((Handler, Source) -> Source),
                               entries: seq<Entry>, k: nat, j: nat, e: Entry)
    requires AllSliceSafe(dir, entries) && SliceSafe(dir, e)
    requires k < |entries| && entries[k].isDir && SkipDirectory(entries[k].name)
    requires k < j < SubtreeEnd(entries, k) && e.depth == entries[j].depth
    ensures AllSliceSafe(dir, entries[j := e])
    ensures Walk(dir, hs, parse, rewrite, entries[j := e]) == Walk(dir, hs, parse, rewrite, entries)
  {
    ReplaceKeepsSafe(dir, entries, j, e);
    SkippedFrom(dir, hs, parse, rewrite, entries, entries[j := e], k, j, 0, START);
  }

  class TemplateManager {
    const directory: string
    const hooks: Hooks
    var tmplList: Option<TemplateSet>

    /** `newTemplateManager`: normalises the directory and declares the two hooks. */
    constructor (directory: string)
      ensures this.directory == Normalize(directory)
      ensures tmplList == None
      ensures fresh(hooks)
      ensures hooks.list == Some(map[TM_BEFORE_PARSE := Hook(BEFORE_PARSE_SIGNATURE, []),
                                     TM_BEFORE_RENDER := Hook(BEFORE_RENDER_SIGNATURE, [])])
    {
      var h := new Hooks();
      var _ := h.RegisterHook(TM_BEFORE_PARSE, BEFORE_PARSE_SIGNATURE);
      var _ := h.RegisterHook(TM_BEFORE_RENDER, BEFORE_RENDER_SIGNATURE);
      this.directory := Normalize(directory);
      hooks := h;
      tmplList := None;
    }

    /** The walk callback on one entry. */
    method Visit(e: Entry, st: WalkState, parse: (string, Source) -> bool,
                 rewrite: string -> ((Handler, Source) -> Source)) returns (next: WalkState, control: Control)
      requires SliceSafe(directory, e)
      requires NormalTemplate(directory, e) ==> ExactlyTyped(hooks.GetHooks(TM_BEFORE_PARSE), BEFORE_PARSE_SIGNATURE)
      ensures (next, control) == Step(directory, hooks.GetHooks(TM_BEFORE_PARSE), parse, rewrite, st, e)
    {
      var isStatic := false;
      NormalizeFacts(e.path);
      var path := Normalize(e.path);
      next := st;
      if e.isDir {
        if HasPrefix(e.name, ".") || e.name == "_static" {
          return st, SkipDir;
        }
        return st, Continue;
      }
      if HasSuffix(e.name, ".html") {
        if HasPrefix(path, directory + "/static/") {
          isStatic := true;
        }
        if !e.readOk {
          return st, Abort(ReadFailed(path));
        }
        var tmplName := path[|directory| + 1..];
        if isStatic {
          next, control := VisitStatic(e, st, parse, tmplName);
          return;
        } else {
          var fdata := BeforeParse(tmplName, e.data, rewrite);
          if !parse(tmplName, fdata) {
            return st, Abort(ParseFailed(tmplName));
          }
          next := st.(templates := Some(AddTemplate(st.templates, tmplName, fdata)));
        }
      }
      return next, Continue;
    }

    /** The static branch of the walk callback. */
    method VisitStatic(e: Entry, st: WalkState, parse: (string, Source) -> bool, tmplName: string)
      returns (next: WalkState, control: Control)
      requires Emits(tmplName) ==> |e.name| <= |directory| + 1 + |tmplName|
      ensures (next, control) == StaticStep(directory, parse, st, e, tmplName)
    {
      if !parse(tmplName, e.data) {
        return st, Abort(ParseFailed(tmplName));
      }
      next := st.(statics := Some(AddTemplate(st.statics, tmplName, e.data)));
      if !HasPrefix(tmplName, "_") && !Contains(tmplName, "/_") {
        var filename := directory + "/_" + tmplName;
        if !e.emitOk {
          return st, Abort(EmitFailed(filename));
        }
        next := next.(written := st.written + [Output(filename[..|filename| - |e.name| - 1], filename)]);
      }
      return next, Continue;
    }

    /** The before-parse hooks of `loadTemplates`: every handler, in order, rewrites the source. */
    method BeforeParse(tmplName: string, data: Source, rewrite: string -> ((Handler, Source) -> Source))
      returns (fdata: Source)
      requires ExactlyTyped(hooks.GetHooks(TM_BEFORE_PARSE), BEFORE_PARSE_SIGNATURE)
      ensures fdata == Fire(hooks.GetHooks(TM_BEFORE_PARSE), rewrite(tmplName), data)
    {
      var hs := hooks.GetHooks(TM_BEFORE_PARSE);
      fdata := data;
      for k := 0 to |hs|
        invariant fdata == Fire(hs[..k], rewrite(tmplName), data)
      {
        assert hs[k] in hs;
        assert hs[k].ty == BEFORE_PARSE_SIGNATURE;
        assert hs[..k + 1][..k] == hs[..k];
        fdata := rewrite(tmplName)(hs[k], fdata);
      }
      assert hs[..|hs|] == hs;
    }

    /** `loadTemplates`: walks the directory and installs the parsed set if nothing failed. */
    method LoadTemplates(entries: seq<Entry>, watcherOk: bool, parse: (string, Source) -> bool,
                         rewrite: string -> ((Handler, Source) -> Source))
      returns (err: Option<LoadError>, written: seq<Output>)
      modifies this
      requires AllSliceSafe(directory, entries)
      requires || ExactlyTyped(hooks.GetHooks(TM_BEFORE_PARSE), BEFORE_PARSE_SIGNATURE)
               || forall k :: 0 <= k < |entries| ==> !NormalTemplate(directory, entries[k])
      ensures !watcherOk ==> err == Some(WatcherFailed) && written == [] && tmplList == old(tmplList)
      ensures watcherOk ==>
                var r := Walk(directory, hooks.GetHooks(TM_BEFORE_PARSE), parse, rewrite, entries);
                && err == r.0 && written == r.1.written
                && tmplList == Installed(old(tmplList), r)
    {
      if !watcherOk {
        return Some(WatcherFailed), [];
      }
      ghost var hs := hooks.GetHooks(TM_BEFORE_PARSE);
      ghost var result := Walk(directory, hs, parse, rewrite, entries);
      var st := START;
      var i := 0;
      err := None;
      while i < |entries| && err.None?
        invariant i <= |entries|
        invariant err.None? ==> result == WalkFrom(directory, hs, parse, rewrite, entries, i, st)
        invariant err.Some? ==> result == (err, st)
        invariant tmplList == old(tmplList)
        decreases |entries| - i, if err.None? then 1 else 0
      {
        ghost var before := st;
        var control;
        st, control := Visit(entries[i], st, parse, rewrite);
        assert WalkFrom(directory, hs, parse, rewrite, entries, i, before) ==
               match control
               case Abort(e) => (Some(e), st)
               case SkipDir => WalkFrom(directory, hs, parse, rewrite, entries, SubtreeEnd(entries, i), st)
               case Continue => WalkFrom(directory, hs, parse, rewrite, entries, i + 1, st);
        match control
        case Abort(e) => err := Some(e);
        case SkipDir => i := SubtreeEnd(entries, i);
        case Continue => i := i + 1;
      }
      assert result == (err, st);
      written := st.written;
      if err.None? {
        tmplList := st.templates;
      }
    }

    /** `getTemplate`. */
    function GetTemplate(name: string): (t: Option<Template>)
      reads this
      ensures t == Lookup(tmplList, name)
    {
      Lookup(tmplList, name)
    }

    /** `RenderTemplate`: looks the template up, lets every before-render handler see
        (and change) the arguments, in order, then executes the template. */
    method RenderTemplate(name: string, args: ArgMap,
                          onRender: Template -> ((Handler, map<string, Value>) -> map<string, Value>),
                          execute: (Template, map<string, Value>) -> Option<string>)
      returns (err: Option<string>)
      modifies args
      requires Lookup(tmplList, name).Some? ==> ExactlyTyped(hooks.GetHooks(TM_BEFORE_RENDER), BEFORE_RENDER_SIGNATURE)
      ensures (err, args.entries) == Render(tmplList, hooks.GetHooks(TM_BEFORE_RENDER), name, old(args.entries), onRender, execute)
    {
      var tmpl := GetTemplate(name);
      if tmpl.None? {
        return Some("can't find template '" + ToLower(name) + "'");
      }
      var hs := hooks.GetHooks(TM_BEFORE_RENDER);
      ghost var start := args.entries;
      for k := 0 to |hs|
        invariant args.entries == Fire(hs[..k], onRender(tmpl.value), start)
      {
        assert hs[k] in hs;
        assert hs[k].ty == BEFORE_RENDER_SIGNATURE;
        assert hs[..k + 1][..k] == hs[..k];
        args.entries := onRender(tmpl.value)(hs[k], args.entries);
      }
      assert hs[..|hs|] == hs;
      var outcome := execute(tmpl.value, args.entries);
      if outcome.Some? {
        return Some("failed to render template. Reason: " + outcome.value);
      }
      return None;
    }
  }
}
