/** The browser stand-in for Node's `async_hooks`: a storage that keeps one
    value in a Map under the key `'current'`, resources numbered by a
    module-level counter, and hooks that only remember whether they are
    enabled. There is no asynchronous context: every call sees the same
    Map. */
module AsyncHooks {
  import opened Wrappers

  /** A JavaScript value, as far as the stubs tell values apart. Numbers
      are integers here; `ErrorValue` is a thrown error, by its name. */
  datatype JsValue =
    | Undefined
    | Null
    | Boolean(b: bool)
    | Number(n: int)
    | Str(s: string)
    | Object(id: nat)
    | ErrorValue(name: string)

  /** JavaScript truthiness. */
  predicate Truthy(v: JsValue) {
    match v
    case Undefined => false
    case Null => false
    case Boolean(b) => b
    case Number(n) => n != 0
    case Str(s) => s != ""
    case Object(_) => true
    case ErrorValue(_) => true
  }

  /** How a call settles: it returns a value or throws one. */
  datatype Completion = Returned(value: JsValue) | Threw(exception: JsValue)

  const TypeError := ErrorValue("TypeError")

  /** The `'current'` entry of a storage's Map: absent, or present with a
      value (which may itself be `undefined`). */
  type Slot = Option<JsValue>

  /** `map.get('current')`: `undefined` for an absent entry. */
  function Get(slot: Slot): JsValue {
    if slot.Some? then slot.value else Undefined
  }

  /** A callback handed to `run` or `exit`, with its arguments bound: from
      the entry it starts with, the entry it leaves behind (it may call
      `enterWith` or `disable` on the same storage) and how it settles. */
  type Callback = Slot -> (Slot, Completion)

  // ---------------------------------------------------------------------
  // AsyncLocalStorage

  /** `map.get('current') || undefined`, the answer of `getStore` and
      `getSnapshot`: never a falsy value other than `undefined`, only ever
      the stored value, and the stored value whenever it is truthy. */
  function StoreOf(slot: Slot): (v: JsValue)
    ensures v == Undefined || Truthy(v)
    ensures v != Undefined ==> slot == Some(v)
    ensures Truthy(Get(slot)) ==> v != Undefined
  {
    if Truthy(Get(slot)) then Get(slot) else Undefined
  }

  /** The entry `run`'s `finally` leaves: the value read before the call,
      or no entry when that read gave `undefined`. Either way a read after
      `run` sees what a read before it saw. */
  function AfterRun(before: Slot): (after: Slot)
    ensures Get(after) == Get(before)
    ensures after.Some? <==> Get(before) != Undefined
  {
    if Get(before) != Undefined then Some(Get(before)) else None
  }

  /** The entry `exit`'s `finally` leaves: the value read before the call
      when there was one, and otherwise whatever the callback left. */
  function AfterExit(before: Slot, leftByCallback: Slot): (after: Slot)
    ensures Get(before) != Undefined ==> Get(after) == Get(before)
    ensures Get(before) == Undefined ==> after == leftByCallback
  {
    if Get(before) != Undefined then Some(Get(before)) else leftByCallback
  }

  class AsyncLocalStorage {
    /** The `'current'` entry of `this.store`, the only key ever used. */
    var current: Slot

    constructor()
      ensures current == None
    {
      current := None;
    }

    method GetStore() returns (v: JsValue)
      ensures v == StoreOf(current)
    {
      v := if Truthy(Get(current)) then Get(current) else Undefined;
    }

    /** The same read as `getStore`. */
    method GetSnapshot() returns (v: JsValue)
      ensures v == StoreOf(current)
    {
      v := GetStore();
    }

    /** The callback runs with `store` in the entry and settles `run` as it
      settles; whether it returns or throws, the entry read before the
      call is put back, and an `undefined` one is deleted. */
    method Run(store: JsValue, callback: Callback) returns (c: Completion)
      modifies this
      ensures c == callback(Some(store)).1
      ensures current == AfterRun(old(current))
    {
      var previous := Get(current);
      current := Some(store);
      var (left, completion) := callback(current);
      current := left;
      if previous != Undefined {
        current := Some(previous);
      } else {
        current := None;
      }
      c := completion;
    }

    /** `this.store.clear()`. */
    method Disable()
      modifies this
      ensures current == None
    {
      current := None;
    }

    method EnterWith(store: JsValue)
      modifies this
      ensures current == Some(store)
    {
      current := Some(store);
    }

    /** The callback runs with no entry; afterwards a value read before
      the call is put back, but when there was none the entry the callback
      left stays. */
    method Exit(callback: Callback) returns (c: Completion)
      modifies this
      ensures c == callback(None).1
      ensures current == AfterExit(old(current), callback(None).0)
    {
      var previous := Get(current);
      current := None;
      var (left, completion) := callback(current);
      current := left;
      if previous != Undefined {
        current := Some(previous);
      }
      c := completion;
    }
  }

  /** Inside `run(store, ...)` the callback's `getStore()` answers `store`
      when it is truthy; after the call `getStore()` answers what it did
      before, whatever the callback did to the entry. */
  lemma RunScopesStore(before: Slot, store: JsValue)
    ensures Truthy(store) ==> StoreOf(Some(store)) == store
    ensures StoreOf(AfterRun(before)) == StoreOf(before)
  {
  }

  /** Inside `exit` the callback's `getStore()` answers `undefined`; after
      it, a store set by `enterWith` inside the callback survives exactly
      when nothing was stored before. */
  lemma ExitScopesStore(before: Slot, store: JsValue)
    ensures StoreOf(None) == Undefined
    ensures Get(before) == Undefined ==> AfterExit(before, Some(store)) == Some(store)
    ensures Get(before) != Undefined ==> StoreOf(AfterExit(before, Some(store))) == StoreOf(before)
  {
  }

  /** A falsy store reads back as `undefined`: after `enterWith(0)`,
      `enterWith('')` or `enterWith(false)`, `getStore()` is `undefined`. */
  lemma FalsyStoreReadsUndefined(v: JsValue)
    ensures StoreOf(Some(v)) == v <==> Truthy(v) || v == Undefined
  {
  }

  // ---------------------------------------------------------------------
  // Resources, the counter and hooks

  /** The stub object together with the module's `currentAsyncId`. */
  class AsyncHooksStub {
    /** The last id handed out; 0 before any resource exists. */
    var currentAsyncId: nat
    /** The resources constructed so far. */
    ghost var issued: set<AsyncResource>

    /** The counter is the number of resources, and their ids are distinct
      and between 1 and the counter. */
    ghost predicate Valid()
      reads this
    {
      && currentAsyncId == |issued|
      && (forall r | r in issued :: 1 <= r.asyncId <= currentAsyncId)
      && (forall r1, r2 | r1 in issued && r2 in issued && r1 != r2 :: r1.asyncId != r2.asyncId)
    }

    constructor()
      ensures Valid() && currentAsyncId == 0 && issued == {}
    {
      currentAsyncId := 0;
      issued := {};
    }

    /** `currentAsyncId || 0`: the id of the latest resource, 0 before the
      first one, and never below an id already handed out. */
    method ExecutionAsyncId() returns (id: nat)
      requires Valid()
      ensures id == currentAsyncId
      ensures id == 0 <==> issued == {}
      ensures forall r | r in issued :: r.asyncId <= id
    {
      id := currentAsyncId;
    }

    method TriggerAsyncId() returns (id: int)
      ensures id == 0
    {
      id := 0;
    }

    /** The callbacks are ignored; the hook starts disabled. */
    method CreateHook(callbacks: JsValue) returns (hook: AsyncHook)
      ensures fresh(hook) && !hook.enabled
    {
      hook := new AsyncHook();
    }
  }

  class AsyncResource {
    const resourceType: JsValue
    const asyncId: nat
    const triggerAsyncId: int := 0

    /** `++currentAsyncId`: each resource takes the next id, above every
      id handed out before, and the trigger id is always 0. */
    constructor(hooks: AsyncHooksStub, resourceType: JsValue, opts: JsValue)
      requires hooks.Valid()
      modifies hooks
      ensures hooks.Valid()
      ensures asyncId == old(hooks.currentAsyncId) + 1 == hooks.currentAsyncId
      ensures forall r | r in old(hooks.issued) :: r.asyncId < asyncId
      ensures hooks.issued == old(hooks.issued) + {this}
      ensures this.resourceType == resourceType && triggerAsyncId == 0
    {
      this.resourceType := resourceType;
      asyncId := hooks.currentAsyncId + 1;
      new;
      hooks.currentAsyncId := hooks.currentAsyncId + 1;
      hooks.issued := hooks.issued + {this};
    }

    /** `fn.apply(thisArg, args)`: no scope is entered, and the counter and
      every storage are left as they are. */
    method RunInAsyncScope(fn: (JsValue, seq<JsValue>) -> Completion, thisArg: JsValue, args: seq<JsValue>)
      returns (c: Completion)
      ensures c == fn(thisArg, args)
    {
      c := fn(thisArg, args);
    }

    method EmitBefore() {
    }

    method EmitAfter() {
    }

    method EmitDestroy() {
    }

    /** The own properties the constructor creates, as written: the ids
      are stored under the names of the accessor methods. */
    function OwnProperties(): (own: map<string, JsValue>)
      ensures own.Keys == {"type", "asyncId", "triggerAsyncId"}
      ensures own["asyncId"] == Number(asyncId)
    {
      map["type" := resourceType, "asyncId" := Number(asyncId), "triggerAsyncId" := Number(triggerAsyncId)]
    }

    /** The own properties with the ids kept apart from the accessor
      names, so that the prototype's `asyncId()` and `triggerAsyncId()`
      stay reachable. */
    function IntendedOwnProperties(): (own: map<string, JsValue>)
      ensures own.Keys == {"type", "asyncIdField", "triggerAsyncIdField"}
      ensures own["asyncIdField"] == Number(asyncId)
    {
      map["type" := resourceType, "asyncIdField" := Number(asyncId), "triggerAsyncIdField" := Number(triggerAsyncId)]
    }
  }

  /** `resource[accessor]()` for an accessor method of the prototype that
      returns the own property `field`: property lookup finds an own
      property before the prototype, and calling a value that is not a
      function throws a TypeError. */
  function CallAccessor(own: map<string, JsValue>, accessor: string, field: string): (c: Completion)
    ensures accessor in own ==> c == Threw(TypeError)
    ensures accessor !in own && field in own ==> c == Returned(own[field])
  {
    if accessor in own then Threw(TypeError)
    else if field in own then Returned(own[field])
    else Returned(Undefined)
  }

  /** As written, `asyncId()` and `triggerAsyncId()` throw on every
      resource: the constructor's own numbers hide the methods. */
  lemma AccessorsShadowed(r: AsyncResource)
    ensures CallAccessor(r.OwnProperties(), "asyncId", "asyncId") == Threw(TypeError)
    ensures CallAccessor(r.OwnProperties(), "triggerAsyncId", "triggerAsyncId") == Threw(TypeError)
  {
  }

  /** With the ids kept under other names the accessors answer them. */
  lemma AccessorsAnswer(r: AsyncResource)
    ensures CallAccessor(r.IntendedOwnProperties(), "asyncId", "asyncIdField") == Returned(Number(r.asyncId))
    ensures CallAccessor(r.IntendedOwnProperties(), "triggerAsyncId", "triggerAsyncIdField") == Returned(Number(0))
  {
  }

  /** The object `createHook` returns. */
  class AsyncHook {
    var enabled: bool

    constructor()
      ensures !enabled
    {
      enabled := false;
    }

    method Enable()
      modifies this
      ensures enabled
    {
      enabled := true;
    }

    method Disable()
      modifies this
      ensures !enabled
    {
      enabled := false;
    }
  }
}
