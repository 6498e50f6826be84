/**
 Properties relating construction, lookup and delegation of the consumer
 model, and the reference semantics of the shared callback descriptors.
 */
module ConsumerModelProperties {
  import opened Values
  import opened AsyncMethodInfos
  import opened ConsumerModels

  /**
   After construction from a non-null attribute map, every name in the map
   reads back the descriptor reference stored under it (null for a null
   value) and every other name reads back null.
   */
  lemma LookupAfterCreate(serviceKey: Nullable<string>, serviceInterfaceClass: Nullable<ClassRef>,
                          proxyObject: Nullable<ObjectRef>, serviceModel: Nullable<ServiceModel>,
                          attributes: map<string, AttributeValue>, m: ConsumerModel)
    requires Create(serviceKey, serviceInterfaceClass, proxyObject, serviceModel, NonNull(attributes)) == Success(m)
    ensures forall k :: k in attributes && attributes[k].AsyncInfo? ==>
              GetMethodConfig(m, k) == NonNull(attributes[k].info)
    ensures forall k :: k in attributes && attributes[k].NullValue? ==> GetMethodConfig(m, k) == Null
    ensures forall k :: k !in attributes ==> GetMethodConfig(m, k) == Null
  {
  }

  /** A null or empty attribute map leaves the table empty: every lookup reads null. */
  lemma AbsentAttributesGiveEmptyTable(serviceKey: Nullable<string>, serviceInterfaceClass: Nullable<ClassRef>,
                                       proxyObject: Nullable<ObjectRef>, serviceModel: Nullable<ServiceModel>,
                                       attributes: Nullable<map<string, AttributeValue>>)
    requires attributes.Null? || attributes.value == map[]
    requires RequiredPresent(serviceKey, serviceInterfaceClass, proxyObject)
    ensures Create(serviceKey, serviceInterfaceClass, proxyObject, serviceModel, attributes).Success?
    ensures Create(serviceKey, serviceInterfaceClass, proxyObject, serviceModel, attributes).value.methodConfigs == map[]
    ensures forall name :: GetMethodConfig(Create(serviceKey, serviceInterfaceClass, proxyObject, serviceModel, attributes).value, name) == Null
  {
  }

  /**
   A null attribute value passes the cast, and the model it yields cannot be
   told apart through lookups from the one built without that entry.
   */
  lemma NullValueReadsAsAbsent(serviceKey: Nullable<string>, serviceInterfaceClass: Nullable<ClassRef>,
                               proxyObject: Nullable<ObjectRef>, serviceModel: Nullable<ServiceModel>,
                               attributes: map<string, AttributeValue>, k: string)
    requires k in attributes && attributes[k].NullValue?
    ensures var with := Create(serviceKey, serviceInterfaceClass, proxyObject, serviceModel, NonNull(attributes));
            var without := Create(serviceKey, serviceInterfaceClass, proxyObject, serviceModel, NonNull(attributes - {k}));
            && (with.Success? <==> without.Success?)
            && (with.Success? ==>
                  && with.value.serviceKey == without.value.serviceKey
                  && with.value.proxyObject == without.value.proxyObject
                  && with.value.serviceModel == without.value.serviceModel
                  && forall name :: GetMethodConfig(with.value, name) == GetMethodConfig(without.value, name))
  {
    var with := Create(serviceKey, serviceInterfaceClass, proxyObject, serviceModel, NonNull(attributes));
    var without := Create(serviceKey, serviceInterfaceClass, proxyObject, serviceModel, NonNull(attributes - {k}));
    // the removed entry is a null, which always casts
    assert forall j :: j in attributes && j != k ==> j in attributes - {k} && (attributes - {k})[j] == attributes[j];
    assert AllCastable(NonNull(attributes)) <==> AllCastable(NonNull(attributes - {k}));
    if with.Success? {
      LookupAfterCreate(serviceKey, serviceInterfaceClass, proxyObject, serviceModel, attributes, with.value);
      LookupAfterCreate(serviceKey, serviceInterfaceClass, proxyObject, serviceModel, attributes - {k}, without.value);
    }
  }

  /** Once the arguments are valid, one value of another class aborts construction with a cast error. */
  lemma ForeignValueAbortsConstruction(serviceKey: Nullable<string>, serviceInterfaceClass: Nullable<ClassRef>,
                                       proxyObject: Nullable<ObjectRef>, serviceModel: Nullable<ServiceModel>,
                                       attributes: map<string, AttributeValue>, k: string)
    requires RequiredPresent(serviceKey, serviceInterfaceClass, proxyObject)
    requires k in attributes && attributes[k].Other?
    ensures Create(serviceKey, serviceInterfaceClass, proxyObject, serviceModel, NonNull(attributes)) == Failure(ClassCast)
  {
  }

  /**
   Argument validation runs before the attribute map is looked at: with an
   invalid argument the outcome is the same invalid-argument error whatever
   the attributes hold.
   */
  lemma ValidationPrecedesCasts(serviceKey: Nullable<string>, serviceInterfaceClass: Nullable<ClassRef>,
                                proxyObject: Nullable<ObjectRef>, serviceModel: Nullable<ServiceModel>,
                                attributes1: Nullable<map<string, AttributeValue>>,
                                attributes2: Nullable<map<string, AttributeValue>>)
    requires !RequiredPresent(serviceKey, serviceInterfaceClass, proxyObject)
    ensures Create(serviceKey, serviceInterfaceClass, proxyObject, serviceModel, attributes1)
         == Create(serviceKey, serviceInterfaceClass, proxyObject, serviceModel, attributes2)
    ensures Create(serviceKey, serviceInterfaceClass, proxyObject, serviceModel, attributes1).Failure?
    ensures Create(serviceKey, serviceInterfaceClass, proxyObject, serviceModel, attributes1).error.IllegalArgument?
  {
  }

  /** The interface class is only checked for null: which class is passed does not affect the model. */
  lemma InterfaceClassNotStored(serviceKey: Nullable<string>, class1: ClassRef, class2: ClassRef,
                                proxyObject: Nullable<ObjectRef>, serviceModel: Nullable<ServiceModel>,
                                attributes: Nullable<map<string, AttributeValue>>)
    ensures Create(serviceKey, NonNull(class1), proxyObject, serviceModel, attributes)
         == Create(serviceKey, NonNull(class2), proxyObject, serviceModel, attributes)
  {
  }

  /**
   The service model is not validated: construction succeeds with a null one,
   and the delegating getters then throw; with a non-null one they return
   exactly its answers, whatever interface class the constructor was given.
   */
  lemma DelegationPassesThrough(serviceKey: Nullable<string>, serviceInterfaceClass: Nullable<ClassRef>,
                                proxyObject: Nullable<ObjectRef>, serviceModel: Nullable<ServiceModel>,
                                attributes: Nullable<map<string, AttributeValue>>)
    requires RequiredPresent(serviceKey, serviceInterfaceClass, proxyObject) && AllCastable(attributes)
    ensures var r := Create(serviceKey, serviceInterfaceClass, proxyObject, serviceModel, attributes);
            && r.Success?
            && (serviceModel.Null? ==>
                  GetAllMethods(r.value) == Failure(NullPointer) && GetServiceInterfaceClass(r.value) == Failure(NullPointer))
            && (serviceModel.NonNull? ==>
                  && GetAllMethods(r.value) == Success(serviceModel.value.allMethods)
                  && GetServiceInterfaceClass(r.value) == Success(serviceModel.value.serviceInterfaceClass))
  {
  }

  /**
   Models hold descriptors by reference: changing an instance that a model
   does not refer to leaves everything that model resolves unchanged.
   */
  lemma UnsharedInstanceIsIndependent(s: Store, m: ConsumerModel, r: InfoRef, info: AsyncMethodInfo)
    requires r in s && Allocated(s, m)
    requires forall name :: GetMethodConfig(m, name) != NonNull(r)
    ensures Allocated(Put(s, r, info), m)
    ensures forall name :: Resolve(Put(s, r, info), m, name) == Resolve(s, m, name)
  {
  }

  /**
   A descriptor instance placed in two models is shared: a change to it is seen
   through both, under whichever method names refer to it.
   */
  lemma SharedInstanceIsVisible(s: Store, m1: ConsumerModel, name1: string, m2: ConsumerModel, name2: string,
                                r: InfoRef, info: AsyncMethodInfo)
    requires Allocated(s, m1) && Allocated(s, m2)
    requires GetMethodConfig(m1, name1) == NonNull(r) && GetMethodConfig(m2, name2) == NonNull(r)
    ensures Resolve(Put(s, r, info), m1, name1) == NonNull(info)
    ensures Resolve(Put(s, r, info), m2, name2) == NonNull(info)
  {
  }

  /** A single-entry table: the named method reads back the very instance given, any other name reads null. */
  lemma SingleEntryLookup(serviceKey: string, serviceInterfaceClass: ClassRef, proxyObject: ObjectRef,
                          serviceModel: Nullable<ServiceModel>, info: InfoRef)
    requires serviceKey != []
    ensures var r := Create(NonNull(serviceKey), NonNull(serviceInterfaceClass), NonNull(proxyObject), serviceModel,
                            NonNull(map["foo" := AsyncInfo(info)]));
            && r.Success?
            && GetMethodConfig(r.value, "foo") == NonNull(info)
            && GetMethodConfig(r.value, "bar") == Null
  {
    var attributes := map["foo" := AsyncInfo(info)];
    LookupAfterCreate(NonNull(serviceKey), NonNull(serviceInterfaceClass), NonNull(proxyObject), serviceModel, attributes,
                      Create(NonNull(serviceKey), NonNull(serviceInterfaceClass), NonNull(proxyObject), serviceModel,
                             NonNull(attributes)).value);
  }
}
