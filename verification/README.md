# Consumer model of the Dubbo RPC client

A Dafny model of Dubbo's `ConsumerModel`. This object binds one client reference's
service key, its generated proxy stub and its shared `ServiceModel` to a table. The
table maps each method name to an `AsyncMethodInfo`: a descriptor of the callbacks to
fire when an asynchronous call is invoked, returns, or throws.

Modules:

- `Values` (values.dfy) defines `Nullable<T>` for a Java reference that may be `null`.
  It also defines `Result<T, E>` for an operation that may throw, the `Error` kinds
  (`IllegalArgument(message)`, `ClassCast`, `NullPointer`), and opaque identity tokens
  for proxy and callback objects, `Class<?>`, `java.lang.reflect.Method` and `MethodModel`.
- `AsyncMethodInfos` (async_method_info.dfy) models the six-field descriptor as an
  immutable record. Each setter returns the updated record. Instance identity is an
  `InfoRef` into a `Store` of live instances, so a Java call `info.setX(v)` on the
  instance at `r` is `Put(s, r, s[r].SetX(v))`.
- `ConsumerModels` (consumer_model.dfy) models these members of the Java class:
  - the constructor, as `Create`, which returns the model or the exception thrown;
  - the checked cast of each attribute value, as `Cast`;
  - the copy of the attribute map, both as a declarative table (`CastConfigs`) and as
    the entry-by-entry loop (`CopyMethodConfigs`);
  - `getMethodConfig`, `getAllMethods` and `getServiceInterfaceClass`.

  The source's fields are `final`, so the model is a datatype. The getters
  `getServiceKey`, `getProxyObject` and `getServiceModel` are its fields
  `serviceKey`, `proxyObject` and `serviceModel`.
- `ConsumerModelProperties` (consumer_model_properties.dfy) holds the lemmas that relate
  construction, lookup, delegation and shared descriptor instances.

An attribute value is `AsyncInfo(ref)`, `Other(obj)` (an object of any other class) or
`NullValue`. The external `ServiceModel` is a record of whatever its two getters return.

Two behaviours of the code that the model keeps as written:

- `getAllMethods` and `getServiceInterfaceClass` use `serviceModel` without a null check
  (ConsumerModel.java:80 and :84). The constructor accepts a null service model, so with
  one these getters fail with `NullPointer`.
- `getMethodConfig` returns `null` for a missing name, and a `null` stored under a name
  reads back the same way.

## Model

| member | source | states |
|---|---|---|
| AsyncMethodInfos.Fresh | dubbo-common/src/main/java/org/apache/dubbo/common/model/ConsumerModel.java:99-116 | a newly constructed descriptor has all six callback fields null, and it is the only record with no callbacks |
| AsyncMethodInfos.AsyncMethodInfo.SetOninvokeInstance | dubbo-common/src/main/java/org/apache/dubbo/common/model/ConsumerModel.java:118-124 | reading the on-invoke instance back gives the value just set; the other five fields are unchanged |
| AsyncMethodInfos.AsyncMethodInfo.SetOninvokeMethod | dubbo-common/src/main/java/org/apache/dubbo/common/model/ConsumerModel.java:126-132 | reading the on-invoke method back gives the value just set; the other five fields are unchanged |
| AsyncMethodInfos.AsyncMethodInfo.SetOnreturnInstance | dubbo-common/src/main/java/org/apache/dubbo/common/model/ConsumerModel.java:134-140 | reading the on-return instance back gives the value just set; the other five fields are unchanged |
| AsyncMethodInfos.AsyncMethodInfo.SetOnreturnMethod | dubbo-common/src/main/java/org/apache/dubbo/common/model/ConsumerModel.java:142-148 | reading the on-return method back gives the value just set; the other five fields are unchanged |
| AsyncMethodInfos.AsyncMethodInfo.SetOnthrowInstance | dubbo-common/src/main/java/org/apache/dubbo/common/model/ConsumerModel.java:150-156 | reading the on-throw instance back gives the value just set; the other five fields are unchanged |
| AsyncMethodInfos.AsyncMethodInfo.SetOnthrowMethod | dubbo-common/src/main/java/org/apache/dubbo/common/model/ConsumerModel.java:158-164 | reading the on-throw method back gives the value just set; the other five fields are unchanged |
| AsyncMethodInfos.Allocate | dubbo-common/src/main/java/org/apache/dubbo/common/model/ConsumerModel.java:99-116 | a new instance gets an unused identity and starts with no callbacks; every existing instance keeps its state |
| AsyncMethodInfos.Put | dubbo-common/src/main/java/org/apache/dubbo/common/model/ConsumerModel.java:118-164 | a setter call changes only the instance it is called on; no other instance changes and none appears or disappears |
| ConsumerModels.Cast | dubbo-common/src/main/java/org/apache/dubbo/common/model/ConsumerModel.java:61-61 | the cast throws exactly for a value of another class; null passes as null, and a descriptor passes as the same reference |
| ConsumerModels.CastConfigs | dubbo-common/src/main/java/org/apache/dubbo/common/model/ConsumerModel.java:59-63 | the copy succeeds exactly when every value casts; the table then has the same names as the attribute map, each holding its cast value; otherwise it is a cast error |
| ConsumerModels.CopyMethodConfigs | dubbo-common/src/main/java/org/apache/dubbo/common/model/ConsumerModel.java:60-62 | copying the entries one at a time, in any order, and stopping at the first failed cast gives the same outcome as the declarative table |
| ConsumerModels.Create | dubbo-common/src/main/java/org/apache/dubbo/common/model/ConsumerModel.java:45-64 | construction succeeds exactly when the key is non-null and non-empty, the interface class and proxy are non-null, and every attribute casts; the first failing check, in source order, decides the invalid-argument message; with valid arguments the only other failure is a cast error; on success the key, proxy and service model read back as given |
| ConsumerModels.GetMethodConfig | dubbo-common/src/main/java/org/apache/dubbo/common/model/ConsumerModel.java:91-93 | a non-null result is the entry stored under the name; a name with no entry reads null; a name with an entry reads exactly that entry |
| ConsumerModels.Resolve | dubbo-common/src/main/java/org/apache/dubbo/common/model/ConsumerModel.java:91-93 | following the looked-up reference into the live instances: null exactly when the lookup is null, otherwise the current state of the referenced instance |
| ConsumerModels.GetAllMethods | dubbo-common/src/main/java/org/apache/dubbo/common/model/ConsumerModel.java:79-81 | returns exactly the service model's method set; it throws a null-pointer error exactly when the service model is null |
| ConsumerModels.GetServiceInterfaceClass | dubbo-common/src/main/java/org/apache/dubbo/common/model/ConsumerModel.java:83-85 | returns exactly the service model's interface class; it throws a null-pointer error exactly when the service model is null |
| ConsumerModelProperties.LookupAfterCreate | dubbo-common/src/main/java/org/apache/dubbo/common/model/ConsumerModel.java:91-93 | after construction, every name in the attribute map reads back the reference stored under it (null for a null value), and every other name reads null |
| ConsumerModelProperties.AbsentAttributesGiveEmptyTable | dubbo-common/src/main/java/org/apache/dubbo/common/model/ConsumerModel.java:59-63 | with a null or empty attribute map and valid arguments, construction succeeds with an empty table, and every lookup reads null |
| ConsumerModelProperties.NullValueReadsAsAbsent | dubbo-common/src/main/java/org/apache/dubbo/common/model/ConsumerModel.java:60-61 | a null attribute value is accepted; the model cannot be told apart, by its three getters or by any lookup, from one built without that entry |
| ConsumerModelProperties.ForeignValueAbortsConstruction | dubbo-common/src/main/java/org/apache/dubbo/common/model/ConsumerModel.java:60-61 | with valid arguments, a single attribute value of another class makes construction fail with a cast error |
| ConsumerModelProperties.ValidationPrecedesCasts | dubbo-common/src/main/java/org/apache/dubbo/common/model/ConsumerModel.java:51-59 | with an invalid argument, construction fails with an invalid-argument error, and the error is the same whatever the attribute map holds |
| ConsumerModelProperties.InterfaceClassNotStored | dubbo-common/src/main/java/org/apache/dubbo/common/model/ConsumerModel.java:51-57 | the interface class is only checked for null; two different non-null classes give the same outcome |
| ConsumerModelProperties.DelegationPassesThrough | dubbo-common/src/main/java/org/apache/dubbo/common/model/ConsumerModel.java:79-85 | the service model is not validated, so construction succeeds with a null one and both delegating getters then throw; with a non-null one they return its answers unchanged |
| ConsumerModelProperties.UnsharedInstanceIsIndependent | dubbo-common/src/main/java/org/apache/dubbo/common/model/ConsumerModel.java:91-93 | changing a descriptor instance that a model does not refer to changes nothing the model resolves, under any method name |
| ConsumerModelProperties.SharedInstanceIsVisible | dubbo-common/src/main/java/org/apache/dubbo/common/model/ConsumerModel.java:91-93 | a descriptor instance held by two models is shared by reference; a change to it is seen through both |
| ConsumerModelProperties.SingleEntryLookup | dubbo-common/src/main/java/org/apache/dubbo/common/model/ConsumerModel.java:59-63 | with valid arguments and the map `{"foo": info}`, lookup of "foo" gives that same instance and lookup of "bar" gives null |

## Left out

- Blank keys. `Assert.notEmptyString` is modelled as rejecting only a null or empty key. Whether it also rejects a whitespace-only key is not modelled, because `Assert` is not part of this model. The same applies to `CollectionUtils.isNotEmptyMap`, modelled as "null or empty map is skipped".
- Null method names. `HashMap` accepts a `null` key, but the model uses `string` keys, so a null method name cannot be stored or looked up.
- Iteration order. `HashMap` iteration order and `forEach` become an arbitrary choice of the next key in `CopyMethodConfigs`. All orders give the same outcome, because the only error is the cast error.
- `ServiceModel` and `MethodModel` internals. The service model is a record of its two getters' answers, and method models are opaque tokens. Both classes are external and not part of this model.
- Reflection and proxy objects. Proxy objects, callback instances, `Class<?>` and `java.lang.reflect.Method` are identity tokens, and nothing is ever invoked through them.
- Concurrency. Safe publication of the model and concurrent mutation of shared descriptor instances are not modelled, because every operation here is sequential.
- Object allocation. The runtime chooses the identity of a new descriptor, so `Allocate` takes it as a parameter and requires only that it be unused.
- Dangling references. Java has no dangling references, so `Resolve` requires every reference in the table to name a live instance (`Allocated`). A reference outside the store is not modelled.
