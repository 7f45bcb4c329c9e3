/**
  The serializer registry that recognises persistence-layer proxy types and
  answers them with a proxy serializer carrying the registry's settings.
 */
module ProxySerializers {
  import opened JacksonTypes

  /** The registry's four settings. */
  datatype Registry = Registry(
    forceLoading: bool,
    serializeIdentifiers: bool,
    mapping: Option<Mapping>,
    forceLoadingForElementCollection: bool)

  /** The proxy serializer, whose internals are not part of this model: only
      the arguments it is built from, in its constructor's order. */
  datatype ProxySerializer = ProxySerializer(
    forceLoading: bool,
    forceLoadingForElementCollection: bool,
    serializeIdentifiers: bool,
    mapping: Option<Mapping>)

  /** The four-argument constructor: each argument goes to its own setting. */
  function NewRegistry(forceLoading: bool, forceLoadingElementCollection: bool,
                       serializeIdentifiers: bool, mapping: Option<Mapping>): (r: Registry)
    ensures r.forceLoading == forceLoading
    ensures r.forceLoadingForElementCollection == forceLoadingElementCollection
    ensures r.serializeIdentifiers == serializeIdentifiers
    ensures r.mapping == mapping
  {
    Registry(forceLoading, serializeIdentifiers, mapping, forceLoadingElementCollection)
  }

  /** The one-argument constructor, delegating positionally to the
      four-argument one with (forceLoading, false, forceLoading, null). */
  function NewRegistryForceLoading(forceLoading: bool): (r: Registry)
    ensures r == Registry(forceLoading, forceLoading, None, false)
  {
    NewRegistry(forceLoading, false, forceLoading, None)
  }

  /** The two-argument constructor, delegating positionally to the
      four-argument one with (forceLoading, serializeIdentifiers, forceLoading,
      null): its second argument lands in the element-collection setting and
      forceLoading in the identifier setting. */
  function NewRegistryWithIdentifiers(forceLoading: bool, serializeIdentifiers: bool): (r: Registry)
    ensures r == Registry(forceLoading, forceLoading, None, serializeIdentifiers)
  {
    NewRegistry(forceLoading, serializeIdentifiers, forceLoading, None)
  }

  /** Whether a class is assignable to the persistence layer's proxy marker
      type; Java subtyping is not modelled and is given as this relation. */
  type ProxyAssignable = RawClass -> bool

  /** The serializer the registry offers for a type: a proxy serializer for
      proxy types, no opinion (null) otherwise. */
  function FindSerializer(r: Registry, config: SerializationConfig, t: JavaType, beanDesc: BeanDescription,
                          isProxy: ProxyAssignable): (s: Option<ProxySerializer>)
    ensures s.Some? <==> isProxy(t.rawClass)
    ensures s.Some? ==> s.value == ProxySerializer(r.forceLoading, r.forceLoadingForElementCollection,
                                                   r.serializeIdentifiers, r.mapping)
  {
    var raw := t.rawClass;
    if isProxy(raw) then
      Some(ProxySerializer(r.forceLoading, r.forceLoadingForElementCollection, r.serializeIdentifiers, r.mapping))
    else
      None
  }

  /** A registry built with the four-argument constructor hands a proxy type
      a serializer built from exactly those four arguments. */
  lemma FindSerializerPassesConstructorArguments(forceLoading: bool, forceLoadingElementCollection: bool,
                                                 serializeIdentifiers: bool, mapping: Option<Mapping>,
                                                 config: SerializationConfig, t: JavaType,
                                                 beanDesc: BeanDescription, isProxy: ProxyAssignable)
    requires isProxy(t.rawClass)
    ensures FindSerializer(NewRegistry(forceLoading, forceLoadingElementCollection, serializeIdentifiers, mapping),
                           config, t, beanDesc, isProxy)
            == Some(ProxySerializer(forceLoading, forceLoadingElementCollection, serializeIdentifiers, mapping))
  {
  }

  /** Through the two-argument constructor, the identifier argument never
      reaches the proxy serializer's identifier setting: that setting always
      equals forceLoading, and the argument shows up as the element-collection
      setting instead. */
  lemma TwoArgumentIdentifiersMisplaced(forceLoading: bool, serializeIdentifiers: bool,
                                        config: SerializationConfig, t: JavaType,
                                        beanDesc: BeanDescription, isProxy: ProxyAssignable)
    requires isProxy(t.rawClass)
    ensures FindSerializer(NewRegistryWithIdentifiers(forceLoading, serializeIdentifiers), config, t, beanDesc, isProxy)
            == Some(ProxySerializer(forceLoading, serializeIdentifiers, forceLoading, None))
  {
  }

  /** The registry's answer depends on the type only through proxy
      assignability: the configuration and the bean description are not
      consulted. */
  lemma FindSerializerDependsOnlyOnAssignability(r: Registry, c1: SerializationConfig, c2: SerializationConfig,
                                                 t1: JavaType, t2: JavaType,
                                                 b1: BeanDescription, b2: BeanDescription, isProxy: ProxyAssignable)
    requires isProxy(t1.rawClass) == isProxy(t2.rawClass)
    ensures FindSerializer(r, c1, t1, b1, isProxy) == FindSerializer(r, c2, t2, b2, isProxy)
  {
  }
}
