/**
 The per-method asynchronous-callback descriptor: three optional
 (instance, method) pairs fired when a call is invoked, returns, or throws.

 The source class is a mutable Java object shared by reference. Its state is
 modelled as an immutable record whose setters return the updated record, and
 its identity as an `InfoRef` into a `Store` of live instances; a Java call
 `info.setX(v)` on the instance at `r` is `Put(s, r, s[r].SetX(v))`.
 */
module AsyncMethodInfos {
  import opened Values

  datatype AsyncMethodInfo = AsyncMethodInfo(
    oninvokeInstance: Nullable<ObjectRef>,
    oninvokeMethod: Nullable<MethodRef>,
    onreturnInstance: Nullable<ObjectRef>,
    onreturnMethod: Nullable<MethodRef>,
    onthrowInstance: Nullable<ObjectRef>,
    onthrowMethod: Nullable<MethodRef>)
  {
    /** True when no callback hook is configured at all. */
    predicate NoCallbacks() {
      && oninvokeInstance.Null? && oninvokeMethod.Null?
      && onreturnInstance.Null? && onreturnMethod.Null?
      && onthrowInstance.Null? && onthrowMethod.Null?
    }

    // Each setter overwrites exactly its own field: reading it back gives the
    // value just set, and restoring the old value gives back the original record.

    function SetOninvokeInstance(v: Nullable<ObjectRef>): (r: AsyncMethodInfo)
      ensures r.oninvokeInstance == v
      ensures r.(oninvokeInstance := oninvokeInstance) == this
    {
      this.(oninvokeInstance := v)
    }

    function SetOninvokeMethod(v: Nullable<MethodRef>): (r: AsyncMethodInfo)
      ensures r.oninvokeMethod == v
      ensures r.(oninvokeMethod := oninvokeMethod) == this
    {
      this.(oninvokeMethod := v)
    }

    function SetOnreturnInstance(v: Nullable<ObjectRef>): (r: AsyncMethodInfo)
      ensures r.onreturnInstance == v
      ensures r.(onreturnInstance := onreturnInstance) == this
    {
      this.(onreturnInstance := v)
    }

    function SetOnreturnMethod(v: Nullable<MethodRef>): (r: AsyncMethodInfo)
      ensures r.onreturnMethod == v
      ensures r.(onreturnMethod := onreturnMethod) == this
    {
      this.(onreturnMethod := v)
    }

    function SetOnthrowInstance(v: Nullable<ObjectRef>): (r: AsyncMethodInfo)
      ensures r.onthrowInstance == v
      ensures r.(onthrowInstance := onthrowInstance) == this
    {
      this.(onthrowInstance := v)
    }

    function SetOnthrowMethod(v: Nullable<MethodRef>): (r: AsyncMethodInfo)
      ensures r.onthrowMethod == v
      ensures r.(onthrowMethod := onthrowMethod) == this
    {
      this.(onthrowMethod := v)
    }
  }

  /** A freshly constructed descriptor: every field is null. */
  function Fresh(): (r: AsyncMethodInfo)
    ensures r.NoCallbacks()
    ensures forall info: AsyncMethodInfo :: info.NoCallbacks() ==> info == r
  {
    AsyncMethodInfo(Null, Null, Null, Null, Null, Null)
  }

  /** The identity of one descriptor instance. */
  datatype InfoRef = InfoRef(address: nat)

  /** The live descriptor instances, by identity. */
  type Store = map<InfoRef, AsyncMethodInfo>

  /** `new AsyncMethodInfo()`: the runtime picks an unused identity `r`. */
  function Allocate(s: Store, r: InfoRef): (s': Store)
    requires r !in s
    ensures s'.Keys == s.Keys + {r}
    ensures s'[r].NoCallbacks()
    ensures forall q :: q in s ==> s'[q] == s[q]
  {
    s[r := Fresh()]
  }

  /** Replaces the state of the live instance `r`; every other instance keeps its state. */
  function Put(s: Store, r: InfoRef, info: AsyncMethodInfo): (s': Store)
    requires r in s
    ensures s'.Keys == s.Keys
    ensures s'[r] == info
    ensures forall q :: q in s && q != r ==> s'[q] == s[q]
  {
    s[r := info]
  }
}
