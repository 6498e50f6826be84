/**
 The consumer-reference model: a service key, the client proxy, the shared
 service model, and the method-name to callback-descriptor table consulted
 at invocation time.

 The source object is immutable once constructed (its fields are final and
 the table is filled only by the constructor), so it is a datatype here and
 its getters `getServiceKey`, `getProxyObject` and `getServiceModel` are the
 datatype's fields.
 */
module ConsumerModels {
  import opened Values
  import opened AsyncMethodInfos

  /** The external service model, seen only through its two getters. */
  datatype ServiceModel = ServiceModel(
    allMethods: set<MethodModel>,
    serviceInterfaceClass: Nullable<ClassRef>)

  /** A value of the untyped attribute map handed to the constructor. */
  datatype AttributeValue =
    | AsyncInfo(info: InfoRef)  // a reference to an AsyncMethodInfo instance
    | Other(obj: ObjectRef)     // a reference to an object of any other class
    | NullValue                 // the null reference

  datatype ConsumerModel = ConsumerModel(
    serviceKey: string,
    proxyObject: ObjectRef,
    serviceModel: Nullable<ServiceModel>,
    methodConfigs: map<string, Nullable<InfoRef>>)

  const ServiceKeyMessage := "Service name can't be null or blank"
  const InterfaceClassMessage := "Service interface class can't null"
  const ProxyObjectMessage := "Proxy object can't be null"

  /** The three required constructor arguments are present (the key also non-empty). */
  predicate RequiredPresent(serviceKey: Nullable<string>, serviceInterfaceClass: Nullable<ClassRef>,
                            proxyObject: Nullable<ObjectRef>)
  {
    serviceKey.NonNull? && serviceKey.value != [] && serviceInterfaceClass.NonNull? && proxyObject.NonNull?
  }

  /** Every value of the attribute map can be cast to AsyncMethodInfo. */
  predicate AllCastable(attributes: Nullable<map<string, AttributeValue>>) {
    attributes.NonNull? ==> forall k :: k in attributes.value ==> !attributes.value[k].Other?
  }

  /** The checked cast `(AsyncMethodInfo) object`: null and descriptors pass, anything else throws. */
  function Cast(v: AttributeValue): (r: Result<Nullable<InfoRef>, Error>)
    ensures r.Failure? <==> v.Other?
    ensures r.Failure? ==> r.error == ClassCast
    ensures r.Success? ==> (r.value.Null? <==> v.NullValue?)
    ensures r.Success? && r.value.NonNull? ==> v == AsyncInfo(r.value.value)
  {
    match v
    case AsyncInfo(info) => Success(NonNull(info))
    case Other(_) => Failure(ClassCast)
    case NullValue => Success(Null)
  }

  /**
   The table the constructor builds from a non-null attribute map: the cast of
   every entry, or the cast error if any entry fails.
   */
  function CastConfigs(attributes: map<string, AttributeValue>): (r: Result<map<string, Nullable<InfoRef>>, Error>)
    ensures r.Success? <==> forall k :: k in attributes ==> Cast(attributes[k]).Success?
    ensures r.Failure? ==> r.error == ClassCast
    ensures r.Success? ==> r.value.Keys == attributes.Keys
    ensures r.Success? ==> forall k :: k in attributes ==> Cast(attributes[k]) == Success(r.value[k])
  {
    if exists k :: k in attributes && attributes[k].Other? then Failure(ClassCast)
    else Success(map k | k in attributes :: Cast(attributes[k]).value)
  }

  /**
   The `forEach` over the attribute map: casts and inserts one entry at a time
   in whatever order the map yields them, stopping at the first failing cast.
   */
  method CopyMethodConfigs(attributes: map<string, AttributeValue>)
    returns (r: Result<map<string, Nullable<InfoRef>>, Error>)
    ensures r == CastConfigs(attributes)
  {
    var configs: map<string, Nullable<InfoRef>> := map[];
    var pending := attributes.Keys;
    while pending != {}
      invariant pending <= attributes.Keys
      invariant configs.Keys == attributes.Keys - pending
      invariant forall k :: k in configs ==> Cast(attributes[k]) == Success(configs[k])
      decreases pending
    {
      var k :| k in pending;
      var c := Cast(attributes[k]);
      if c.Failure? {
        assert attributes[k].Other?;  // the witness that the whole copy fails
        return Failure(c.error);
      }
      configs := configs[k := c.value];
      pending := pending - {k};
    }
    assert configs == map k | k in attributes :: Cast(attributes[k]).value;
    r := Success(configs);
  }

  /**
   The constructor: the three argument checks in source order, then the field
   assignments, then the table copy when the attribute map is non-null and
   non-empty. The interface class is checked but not kept.
   */
  function Create(serviceKey: Nullable<string>, serviceInterfaceClass: Nullable<ClassRef>,
                  proxyObject: Nullable<ObjectRef>, serviceModel: Nullable<ServiceModel>,
                  attributes: Nullable<map<string, AttributeValue>>): (r: Result<ConsumerModel, Error>)
    ensures r.Success? <==> RequiredPresent(serviceKey, serviceInterfaceClass, proxyObject) && AllCastable(attributes)
    ensures serviceKey.Null? || serviceKey.value == [] ==> r == Failure(IllegalArgument(ServiceKeyMessage))
    ensures serviceKey.NonNull? && serviceKey.value != [] && serviceInterfaceClass.Null? ==>
              r == Failure(IllegalArgument(InterfaceClassMessage))
    ensures serviceKey.NonNull? && serviceKey.value != [] && serviceInterfaceClass.NonNull? && proxyObject.Null? ==>
              r == Failure(IllegalArgument(ProxyObjectMessage))
    ensures RequiredPresent(serviceKey, serviceInterfaceClass, proxyObject) && r.Failure? ==> r.error == ClassCast
    ensures r.Success? ==>
              && r.value.serviceKey == serviceKey.value
              && r.value.proxyObject == proxyObject.value
              && r.value.serviceModel == serviceModel
  {
    if serviceKey.Null? || serviceKey.value == [] then Failure(IllegalArgument(ServiceKeyMessage))
    else if serviceInterfaceClass.Null? then Failure(IllegalArgument(InterfaceClassMessage))
    else if proxyObject.Null? then Failure(IllegalArgument(ProxyObjectMessage))
    else if attributes.Null? || attributes.value == map[] then
      Success(ConsumerModel(serviceKey.value, proxyObject.value, serviceModel, map[]))
    else
      match CastConfigs(attributes.value)
      case Failure(e) => Failure(e)
      case Success(configs) => Success(ConsumerModel(serviceKey.value, proxyObject.value, serviceModel, configs))
  }

  /** `getMethodConfig`: the stored descriptor, or null for a name with no entry. */
  function GetMethodConfig(m: ConsumerModel, methodName: string): (r: Nullable<InfoRef>)
    ensures r.NonNull? ==> methodName in m.methodConfigs && m.methodConfigs[methodName] == r
    ensures methodName !in m.methodConfigs ==> r == Null
    ensures methodName in m.methodConfigs ==> r == m.methodConfigs[methodName]
  {
    if methodName in m.methodConfigs then m.methodConfigs[methodName] else Null
  }

  /** `getAllMethods`: passes the service model's answer through; a null service model throws. */
  function GetAllMethods(m: ConsumerModel): (r: Result<set<MethodModel>, Error>)
    ensures m.serviceModel.Null? <==> r == Failure(NullPointer)
    ensures m.serviceModel.NonNull? ==> r == Success(m.serviceModel.value.allMethods)
  {
    match m.serviceModel
    case Null => Failure(NullPointer)
    case NonNull(sm) => Success(sm.allMethods)
  }

  /** `getServiceInterfaceClass`: passes the service model's answer through; a null service model throws. */
  function GetServiceInterfaceClass(m: ConsumerModel): (r: Result<Nullable<ClassRef>, Error>)
    ensures m.serviceModel.Null? <==> r == Failure(NullPointer)
    ensures m.serviceModel.NonNull? ==> r == Success(m.serviceModel.value.serviceInterfaceClass)
  {
    match m.serviceModel
    case Null => Failure(NullPointer)
    case NonNull(sm) => Success(sm.serviceInterfaceClass)
  }

  /** Every descriptor reference the table holds names a live instance: Java has no dangling references. */
  predicate Allocated(s: Store, m: ConsumerModel) {
    forall name :: name in m.methodConfigs && m.methodConfigs[name].NonNull? ==> m.methodConfigs[name].value in s
  }

  /** The descriptor state the invocation layer sees for `methodName`, following the reference. */
  function Resolve(s: Store, m: ConsumerModel, methodName: string): (r: Nullable<AsyncMethodInfo>)
    requires Allocated(s, m)
    ensures r.Null? <==> GetMethodConfig(m, methodName).Null?
    ensures r.NonNull? ==> r.value == s[GetMethodConfig(m, methodName).value]
  {
    match GetMethodConfig(m, methodName)
    case Null => Null
    case NonNull(ref) => NonNull(s[ref])
  }
}
