/**
  The bean-serializer modifier that replaces every collection and map
  serializer the JSON library builds with the lazy-aware wrapper, handing the
  wrapper the modifier's own two flags.
 */
module SerializerModifier {
  import opened JacksonTypes
  import opened Annotations
  import opened CollectionSerializer

  /** The modifier's configuration; the Java constructor stores both flags
      unchanged, which is this datatype's constructor. */
  datatype Modifier = Modifier(forceLoading: bool, forceLoadingElementCollection: bool)

  /** Replaces the serializer of a collection-typed property. The schema
      context does not influence the result, and the call cannot fail. */
  function ModifyCollectionSerializer(m: Modifier, config: SerializationConfig, valueType: CollectionType,
                                      beanDesc: BeanDescription, serializer: Option<HostSerializer>): (w: Wrapper)
    ensures w.forceLazyLoading == m.forceLoading
    ensures w.forceLoadingElementCollection == m.forceLoadingElementCollection
    ensures w.serializer == serializer
  {
    Wrapper(m.forceLoading, m.forceLoadingElementCollection, serializer)
  }

  /** Replaces the serializer of a map-typed property, exactly as for
      collections. */
  function ModifyMapSerializer(m: Modifier, config: SerializationConfig, valueType: MapType,
                               beanDesc: BeanDescription, serializer: Option<HostSerializer>): (w: Wrapper)
    ensures w.forceLazyLoading == m.forceLoading
    ensures w.forceLoadingElementCollection == m.forceLoadingElementCollection
    ensures w.serializer == serializer
  {
    Wrapper(m.forceLoading, m.forceLoadingElementCollection, serializer)
  }

  /** Collection and map serializers are wrapped identically, and neither
      depends on the configuration, the declared type or the bean
      description. */
  lemma CollectionAndMapWrapAlike(m: Modifier, serializer: Option<HostSerializer>,
                                  c1: SerializationConfig, t1: CollectionType, b1: BeanDescription,
                                  c2: SerializationConfig, t2: MapType, b2: BeanDescription)
    ensures ModifyCollectionSerializer(m, c1, t1, b1, serializer) == ModifyMapSerializer(m, c2, t2, b2, serializer)
  {
  }

  /** Wrapping and then resolving against a property that is not lazily
      loaded gives back the original serializer, specialised for the property
      when it supports that: the wrapper vanishes. */
  lemma WrapThenResolveEager(m: Modifier, config: SerializationConfig, valueType: CollectionType,
                             beanDesc: BeanDescription, serializer: Option<HostSerializer>,
                             provider: SerializerProvider, property: Option<BeanProperty>,
                             contextualize: HostContextualize)
    requires !UsesLazyLoading(property)
    ensures var r := CreateContextual(ModifyCollectionSerializer(m, config, valueType, beanDesc, serializer),
                                      provider, property, contextualize);
      r == (if serializer.Some? && serializer.value.contextual
            then DelegateContextual(contextualize(serializer.value, provider, property))
            else Delegate(serializer))
  {
    EagerPropertyGetsDelegate(ModifyCollectionSerializer(m, config, valueType, beanDesc, serializer),
                              provider, property, contextualize);
  }
}
