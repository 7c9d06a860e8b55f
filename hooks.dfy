/** The hook registry: a table from an integer hook id to the callback
    signature the hook was declared with and the handlers attached to it, in
    the order they were attached. */
module HookRegistry {
  import opened Text

  /** A Go type, as far as `reflect` inspects it here: its kind and whether it is named. */
  datatype TypeDesc =
    | Basic(name: string)
    | Named(name: string, underlying: TypeDesc)
    | Pointer(elem: TypeDesc)
    | Slice(elem: TypeDesc)
    | MapOf(key: TypeDesc, value: TypeDesc)
    | Func(params: seq<TypeDesc>, results: seq<TypeDesc>)

  /** The underlying type: a named type's definition, followed to the first unnamed type. */
  function Underlying(t: TypeDesc): (u: TypeDesc)
    ensures !u.Named?
    ensures !t.Named? ==> u == t
  {
    if t.Named? then Underlying(t.underlying) else t
  }

  /** `t.Kind() == reflect.Func`. */
  predicate IsFunc(t: TypeDesc)
  {
    Underlying(t).Func?
  }

  /** `v.AssignableTo(t)` for the non-interface types used here: the types are
      identical, or their underlying types are and at least one is unnamed. */
  predicate AssignableTo(v: TypeDesc, t: TypeDesc)
  {
    v == t || (Underlying(v) == Underlying(t) && (!v.Named? || !t.Named?))
  }

  /** A handler is an opaque value; `ty` is its dynamic type (`reflect.TypeOf`). */
  datatype Handler = Handler(id: nat, ty: TypeDesc)

  /** One declared hook: `hook` in the source. */
  datatype Hook = Hook(signature: TypeDesc, handlers: seq<Handler>)

  datatype HookError = ErrHookDuplicateID | ErrHookUnknownID | ErrHookInvalidHandler

  /** The text of each error value. */
  function ErrorText(e: HookError): string
  {
    match e
    case ErrHookDuplicateID => "id already in use"
    case ErrHookUnknownID => "unknown hook Id"
    case ErrHookInvalidHandler => "handler is not a function"
  }

  /** The three errors are told apart by their text. */
  lemma ErrorTextsDistinct(a: HookError, b: HookError)
    ensures ErrorText(a) == ErrorText(b) ==> a == b
  {
    assert ErrorText(ErrHookDuplicateID)[0] == 'i' && ErrorText(ErrHookUnknownID)[0] == 'u';
    assert ErrorText(ErrHookInvalidHandler)[0] == 'h';
  }

  /** The `list` field: `None` is the nil map the registry starts with. */
  type Table = Option<map<int, Hook>>

  /** The entries of the table; a nil map reads as empty. */
  function Entries(t: Table): map<int, Hook>
  {
    if t.None? then map[] else t.value
  }

  /** `registerHook`: the new table and the error it returns. */
  function Register(t: Table, id: int, signature: TypeDesc): (r: (Table, Option<HookError>))
    ensures r.0.Some?
    ensures id in Entries(t) ==> r == (Some(Entries(t)), Some(ErrHookDuplicateID))
    ensures id !in Entries(t) && !IsFunc(signature) ==>
              r.1 == Some(ErrHookInvalidHandler) && Entries(r.0) == Entries(t)
    ensures r.1.None? <==> id !in Entries(t) && IsFunc(signature)
    ensures r.1.None? ==> Entries(r.0) == Entries(t)[id := Hook(signature, [])]
  {
    var entries := Entries(t);
    if id in entries then (Some(entries), Some(ErrHookDuplicateID))
    else if !IsFunc(signature) then (Some(entries), Some(ErrHookInvalidHandler))
    else (Some(entries[id := Hook(signature, [])]), None)
  }

  /** `getHooks`: the handlers of a hook, or none for an id never declared. */
  function Handlers(t: Table, id: int): (hs: seq<Handler>)
    ensures t.None? ==> hs == []
    ensures id !in Entries(t) ==> hs == []
  {
    if id in Entries(t) then Entries(t)[id].handlers else []
  }

  /** `AddHook`: the new table and the error it returns. */
  function Attach(t: Table, id: int, h: Handler): (r: (Table, Option<HookError>))
    ensures id !in Entries(t) ==> r == (t, Some(ErrHookUnknownID))
    ensures id in Entries(t) && !AssignableTo(h.ty, Entries(t)[id].signature) ==>
              r == (t, Some(ErrHookInvalidHandler))
    ensures r.1.None? <==> id in Entries(t) && AssignableTo(h.ty, Entries(t)[id].signature)
    ensures r.1.None? ==>
              Entries(r.0).Keys == Entries(t).Keys
              && Entries(r.0)[id].signature == Entries(t)[id].signature
              && Handlers(r.0, id) == Handlers(t, id) + [h]
              && forall other :: other in Entries(t) && other != id ==> Entries(r.0)[other] == Entries(t)[other]
  {
    if id !in Entries(t) then (t, Some(ErrHookUnknownID))
    else
      var hook := Entries(t)[id];
      if !AssignableTo(h.ty, hook.signature) then (t, Some(ErrHookInvalidHandler))
      else (Some(Entries(t)[id := Hook(hook.signature, hook.handlers + [h])]), None)
  }

  /** Firing a hook: each handler acts on the state in turn, first attached first,
      as a `for _, hook := range hooks` loop does. */
  function Fire<S>(hs: seq<Handler>, effect: (Handler, S) -> S, s: S): (r: S)
    ensures hs == [] ==> r == s
    ensures hs != [] ==> r == Fire(hs[1..], effect, effect(hs[0], s))
    decreases |hs|
  {
    if hs == [] then s
    else
      var init := hs[..|hs| - 1];
      assert init != [] ==> init[1..] == hs[1..][..|hs| - 2];
      effect(hs[|hs| - 1], Fire(init, effect, s))
  }

  /** Firing a list of handlers is firing its first part and then the rest. */
  lemma {:induction false} FireConcat<S>(hs: seq<Handler>, more: seq<Handler>, effect: (Handler, S) -> S, s: S)
    ensures Fire(hs + more, effect, s) == Fire(more, effect, Fire(hs, effect, s))
  {
    if more == [] {
      assert hs + more == hs;
    } else {
      var init := more[..|more| - 1];
      assert (hs + more)[..|hs + more| - 1] == hs + init;
      FireConcat(hs, init, effect, s);
    }
  }

  /** After a successful attach, firing the hook runs the old handlers and then the new one. */
  lemma FireAfterAttach<S>(t: Table, id: int, h: Handler, effect: (Handler, S) -> S, s: S)
    requires Attach(t, id, h).1.None?
    ensures Fire(Handlers(Attach(t, id, h).0, id), effect, s) == effect(h, Fire(Handlers(t, id), effect, s))
  {
    FireConcat(Handlers(t, id), [h], effect, s);
    assert Fire([h], effect, Fire(Handlers(t, id), effect, s)) == effect(h, Fire(Handlers(t, id), effect, s));
  }

  /** A newly declared hook has no handlers, and declaring it changes no other hook's handlers. */
  lemma DeclaredHookStartsEmpty(t: Table, id: int, signature: TypeDesc)
    requires Register(t, id, signature).1.None?
    ensures Handlers(Register(t, id, signature).0, id) == []
    ensures forall other :: other != id ==> Handlers(Register(t, id, signature).0, other) == Handlers(t, other)
  {
  }

  /** Attaching several handlers to one hook, ignoring the errors. */
  function AttachAll(t: Table, id: int, hs: seq<Handler>): Table
  {
    if hs == [] then t else Attach(AttachAll(t, id, hs[..|hs| - 1]), id, hs[|hs| - 1]).0
  }

  /** The handlers whose type is assignable to `signature`, in their order. */
  function Accepted(signature: TypeDesc, hs: seq<Handler>): seq<Handler>
  {
    if hs == [] then []
    else Accepted(signature, hs[..|hs| - 1]) + (if AssignableTo(hs[|hs| - 1].ty, signature) then [hs[|hs| - 1]] else [])
  }

  /** Firing order is attach order: after a run of attaches to a declared hook, its
      handlers are the old ones followed by every accepted new one, in the order
      given; the signature and every other hook are unchanged. */
  lemma {:induction false} FiringOrderIsAttachOrder(t: Table, id: int, hs: seq<Handler>)
    requires id in Entries(t)
    ensures id in Entries(AttachAll(t, id, hs))
    ensures Entries(AttachAll(t, id, hs))[id].signature == Entries(t)[id].signature
    ensures Handlers(AttachAll(t, id, hs), id) == Handlers(t, id) + Accepted(Entries(t)[id].signature, hs)
    ensures forall other :: other in Entries(t) && other != id ==>
              other in Entries(AttachAll(t, id, hs)) && Entries(AttachAll(t, id, hs))[other] == Entries(t)[other]
  {
    if hs != [] {
      var init := hs[..|hs| - 1];
      FiringOrderIsAttachOrder(t, id, init);
      assert Handlers(t, id) + Accepted(Entries(t)[id].signature, init) + [hs[|hs| - 1]]
          == Handlers(t, id) + (Accepted(Entries(t)[id].signature, init) + [hs[|hs| - 1]]);
    }
  }

  /** An operation on the registry. */
  datatype Op = Declare(id: int, signature: TypeDesc) | Add(id: int, handler: Handler)

  function Apply(t: Table, op: Op): Table
  {
    match op
    case Declare(id, signature) => Register(t, id, signature).0
    case Add(id, h) => Attach(t, id, h).0
  }

  /** The table after a sequence of operations, whatever each one returned. */
  function Run(t: Table, ops: seq<Op>): Table
  {
    if ops == [] then t else Apply(Run(t, ops[..|ops| - 1]), ops[|ops| - 1])
  }

  /** Every signature is a function type and every handler is assignable to its hook's signature. */
  ghost predicate WellTyped(t: Table)
  {
    forall id :: id in Entries(t) ==>
      IsFunc(Entries(t)[id].signature)
      && forall h :: h in Entries(t)[id].handlers ==> AssignableTo(h.ty, Entries(t)[id].signature)
  }

  /** `later` extends `earlier`: no hook disappears, no signature changes and
      handler lists only grow at their end. */
  ghost predicate Extends(earlier: Table, later: Table)
  {
    forall id :: id in Entries(earlier) ==>
      id in Entries(later)
      && Entries(later)[id].signature == Entries(earlier)[id].signature
      && Entries(earlier)[id].handlers <= Entries(later)[id].handlers
  }

  /** Whatever operations run, a declared hook keeps its signature and its handlers,
      attached handlers are never removed or reordered, and the table stays well typed. */
  lemma {:induction false} HistoryIsAppendOnly(t: Table, ops: seq<Op>)
    requires WellTyped(t)
    ensures WellTyped(Run(t, ops))
    ensures Extends(t, Run(t, ops))
  {
    if ops != [] {
      var mid := Run(t, ops[..|ops| - 1]);
      HistoryIsAppendOnly(t, ops[..|ops| - 1]);
      var last := Apply(mid, ops[|ops| - 1]);
      assert Extends(mid, last);
      forall id | id in Entries(t)
        ensures id in Entries(last)
        ensures Entries(last)[id].signature == Entries(t)[id].signature
        ensures Entries(t)[id].handlers <= Entries(last)[id].handlers
      {
        assert Entries(t)[id].handlers <= Entries(mid)[id].handlers;
      }
    }
  }

  /** Attaching to an id that no declaration has introduced fails: in particular
      on a registry that was never used. */
  lemma AttachBeforeDeclareFails(id: int, h: Handler, signature: TypeDesc, other: int)
    requires other != id
    ensures Attach(None, id, h).1 == Some(ErrHookUnknownID)
    ensures Attach(Register(None, other, signature).0, id, h).1 == Some(ErrHookUnknownID)
  {
  }

  /** The registry: `hooks` in the source, a lazily created map from id to hook. */
  class Hooks {
    var list: Table

    constructor ()
      ensures list == None
    {
      list := None;
    }

    method RegisterHook(hookID: int, signature: TypeDesc) returns (err: Option<HookError>)
      modifies this
      ensures (list, err) == Register(old(list), hookID, signature)
    {
      if list.None? {
        list := Some(map[]);
      }
      if hookID in list.value {
        return Some(ErrHookDuplicateID);
      }
      if !IsFunc(signature) {
        return Some(ErrHookInvalidHandler);
      }
      list := Some(list.value[hookID := Hook(signature, [])]);
      return None;
    }

    function GetHooks(hookID: int): (hs: seq<Handler>)
      reads this
      ensures hookID !in Entries(list) ==> hs == []
      ensures hookID in Entries(list) ==> hs == list.value[hookID].handlers
    {
      Handlers(list, hookID)
    }

    method AddHook(hookID: int, handler: Handler) returns (err: Option<HookError>)
      modifies this
      ensures (list, err) == Attach(old(list), hookID, handler)
    {
      if list.None? || hookID !in list.value {
        return Some(ErrHookUnknownID);
      }
      var hook := list.value[hookID];
      if !AssignableTo(handler.ty, hook.signature) {
        return Some(ErrHookInvalidHandler);
      }
      list := Some(list.value[hookID := Hook(hook.signature, hook.handlers + [handler])]);
      return None;
    }
  }
}
