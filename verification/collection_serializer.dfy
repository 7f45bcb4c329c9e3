/**
  The lazy-aware wrapper the Hibernate datatype module puts around the JSON
  library's collection and map serializers. It is resolved once per property
  (contextualization) and then asked to serialize values, some of which are
  persistence-layer lazy collection handles.
 */
module CollectionSerializer {
  import opened JacksonTypes
  import opened Annotations

  /** The wrapper's immutable state: the general force-loading flag, the flag
      that forces loading of element-collection properties, and the delegate
      (a Java reference, so possibly null). The Java constructor stores its
      three arguments unchanged, which is this datatype's constructor. */
  datatype Wrapper = Wrapper(
    forceLazyLoading: bool,
    forceLoadingElementCollection: bool,
    serializer: Option<HostSerializer>)

  /** What contextualization hands back to the JSON library: the wrapper
      itself, the delegate as it is, or the delegate's own contextualized
      form. */
  datatype Contextualized =
    | Itself(wrapper: Wrapper)
    | Delegate(serializer: Option<HostSerializer>)
    | DelegateContextual(contextualized: HostSerializer)

  /** The delegate's own contextualization, which this module does not see;
      it is an argument of `CreateContextual`. */
  type HostContextualize = (HostSerializer, SerializerProvider, Option<BeanProperty>) -> HostSerializer

  /** Whether the property's annotations ask for lazy fetching: the first of
      OneToMany, OneToOne, ManyToOne, ManyToMany and ElementCollection that is
      present decides; no property or no such annotation means eager. */
  predicate UsesLazyLoading(property: Option<BeanProperty>)
    ensures UsesLazyLoading(property) <==>
      property.Some? && FirstDeclared(property.value.annotations, LookupOrder) == Some(Lazy)
  {
    if property.Some? then
      var a := property.value.annotations;
      FirstDeclaredInLookupOrder(a);
      if a.oneToMany.Some? then a.oneToMany == Some(Lazy)
      else if a.oneToOne.Some? then a.oneToOne == Some(Lazy)
      else if a.manyToOne.Some? then a.manyToOne == Some(Lazy)
      else if a.manyToMany.Some? then a.manyToMany == Some(Lazy)
      else if a.elementCollection.Some? then a.elementCollection == Some(Lazy)
      else false
    else false
  }

  /** Whether the property carries an ElementCollection annotation. */
  predicate IsElementCollection(property: Option<BeanProperty>)
    ensures IsElementCollection(property) <==>
      property.Some? && property.value.annotations.Get(ElementCollection).Some?
  {
    if property.None? then false
    else property.value.annotations.elementCollection.Some?
  }

  /** Resolves the wrapper against one property. The wrapper stays in charge
      only when nothing forces loading for this property and its metadata
      asks for lazy fetching; otherwise the delegate takes over, specialised
      for the property when it supports that. */
  function CreateContextual(w: Wrapper, provider: SerializerProvider, property: Option<BeanProperty>,
                            contextualize: HostContextualize): (r: Contextualized)
    ensures r.Itself? <==>
      && !w.forceLazyLoading
      && property.Some?
      && FirstDeclared(property.value.annotations, LookupOrder) == Some(Lazy)
      && !(w.forceLoadingElementCollection && property.value.annotations.Get(ElementCollection).Some?)
    ensures r.Itself? ==> r.wrapper == w
    ensures r.DelegateContextual? <==> !r.Itself? && w.serializer.Some? && w.serializer.value.contextual
    ensures r.DelegateContextual? ==> r.contextualized == contextualize(w.serializer.value, provider, property)
    ensures r.Delegate? ==> r.serializer == w.serializer
  {
    var forceThisElementCollection := w.forceLoadingElementCollection && IsElementCollection(property);
    if w.forceLazyLoading || forceThisElementCollection || !UsesLazyLoading(property) then
      if w.serializer.Some? && w.serializer.value.contextual then
        DelegateContextual(contextualize(w.serializer.value, provider, property))
      else
        Delegate(w.serializer)
    else
      Itself(w)
  }

  /** A persistence-layer lazy collection handle: whether it was loaded, and
      the value it unwraps to (a Java reference, so possibly null). */
  datatype PersistentCollection<V> = PersistentCollection(wasInitialized: bool, contents: Option<V>)

  /** A value handed to the wrapper: either an ordinary value or a handle. */
  datatype Value<V> = Plain(value: V) | Handle(handle: PersistentCollection<V>)

  /** What one serialize call emits: the JSON library's null, a call of the
      delegate on a value (with the type serializer in the polymorphic
      variant), or a mapping error. */
  datatype Emission<V> =
    | WriteNull
    | Delegated(serializer: HostSerializer, value: V, typeSerializer: Option<TypeSerializer>)
    | MappingError(message: string)

  /** An emission together with whether the handle was unwrapped, which is
      the call that makes the persistence layer load it. */
  datatype Outcome<V> = Outcome(unwrapped: bool, emission: Emission<V>)

  const NoSerializerMessage: string := "PersistentCollection does not have serializer set"

  /** Either flag set: every handle is unwrapped, loaded or not. */
  predicate ForcesLoading(w: Wrapper) {
    w.forceLazyLoading || w.forceLoadingElementCollection
  }

  /** Serializes one value. */
  function Serialize<V>(w: Wrapper, value: Value<V>): (r: Outcome<V>)
    ensures r.unwrapped <==> value.Handle? && (ForcesLoading(w) || value.handle.wasInitialized)
    ensures r.emission.WriteNull? <==> value.Handle? && !(r.unwrapped && value.handle.contents.Some?)
    ensures r.emission.MappingError? <==> !r.emission.WriteNull? && w.serializer.None?
    ensures r.emission.Delegated? ==>
      && Some(r.emission.serializer) == w.serializer
      && r.emission.typeSerializer.None?
      && (value.Plain? ==> r.emission.value == value.value)
      && (value.Handle? ==> value.handle.contents == Some(r.emission.value))
  {
    if value.Handle? && !w.forceLazyLoading && !w.forceLoadingElementCollection && !value.handle.wasInitialized then
      Outcome(false, WriteNull)
    else
      var unwrapped := value.Handle?;
      if unwrapped && value.handle.contents.None? then
        Outcome(true, WriteNull)
      else
        var v := if unwrapped then value.handle.contents.value else value.value;
        if w.serializer.None? then
          Outcome(unwrapped, MappingError(NoSerializerMessage))
        else
          Outcome(unwrapped, Delegated(w.serializer.value, v, None))
  }

  /** Serializes one value with type information for polymorphic output. */
  function SerializeWithType<V>(w: Wrapper, value: Value<V>, typeSer: TypeSerializer): (r: Outcome<V>)
    ensures r.emission.Delegated? ==> r.emission.typeSerializer == Some(typeSer)
  {
    if value.Handle? && !w.forceLazyLoading && !w.forceLoadingElementCollection && !value.handle.wasInitialized then
      Outcome(false, WriteNull)
    else
      var unwrapped := value.Handle?;
      if unwrapped && value.handle.contents.None? then
        Outcome(true, WriteNull)
      else
        var v := if unwrapped then value.handle.contents.value else value.value;
        if w.serializer.None? then
          Outcome(unwrapped, MappingError(NoSerializerMessage))
        else
          Outcome(unwrapped, Delegated(w.serializer.value, v, Some(typeSer)))
  }

  /** The same emission with any type serializer dropped. */
  function WithoutTypeInfo<V>(o: Outcome<V>): Outcome<V> {
    match o.emission
    case Delegated(s, v, _) => Outcome(o.unwrapped, Delegated(s, v, None))
    case _ => o
  }

  // ----- Annotation lookup -----

  /** The first annotation present in lookup order decides alone: LAZY gives
      true, EAGER gives false. */
  lemma UsesLazyLoadingDecidedByFirst(p: BeanProperty, i: int)
    requires FirstPresentAt(p.annotations, LookupOrder, i)
    ensures UsesLazyLoading(Some(p)) <==> p.annotations.Get(LookupOrder[i]) == Some(Lazy)
  {
    FirstDeclaredAt(p.annotations, LookupOrder, i);
  }

  /** Annotations after the first present one are ignored. */
  lemma UsesLazyLoadingIgnoresLater(p: BeanProperty, q: BeanProperty, i: int)
    requires FirstPresentAt(p.annotations, LookupOrder, i)
    requires forall j :: 0 <= j <= i ==> p.annotations.Get(LookupOrder[j]) == q.annotations.Get(LookupOrder[j])
    ensures UsesLazyLoading(Some(p)) == UsesLazyLoading(Some(q))
  {
    FirstDeclaredIgnoresLater(p.annotations, q.annotations, LookupOrder, i);
  }

  /** No property, or a property with none of the five annotations, is not
      lazily loaded. */
  lemma UsesLazyLoadingNeedsAnnotation(property: Option<BeanProperty>)
    requires property.Some? ==> forall k: AnnotationKind :: property.value.annotations.Get(k).None?
    ensures !UsesLazyLoading(property)
  {
    if property.Some? {
      assert property.value.annotations.Get(OneToMany).None?;
      assert property.value.annotations.Get(OneToOne).None?;
      assert property.value.annotations.Get(ManyToOne).None?;
      assert property.value.annotations.Get(ManyToMany).None?;
      assert property.value.annotations.Get(ElementCollection).None?;
    }
  }

  /** Element-collection detection looks at presence only: it is true exactly
      for a present property with an ElementCollection annotation, EAGER or
      LAZY alike. */
  lemma IsElementCollectionIgnoresFetchMode(property: Option<BeanProperty>)
    ensures IsElementCollection(property) <==>
      exists f: FetchType :: property.Some? && property.value.annotations.Get(ElementCollection) == Some(f)
  {
    if property.Some? && property.value.annotations.elementCollection.Some? {
      var f := property.value.annotations.elementCollection.value;
      assert property.value.annotations.Get(ElementCollection) == Some(f);
    }
  }

  // ----- Contextualization -----

  /** A property that is not lazily loaded (no property, no annotation, or
      an EAGER first annotation) never keeps the wrapper: it gets the delegate
      or the delegate's contextualization. */
  lemma EagerPropertyGetsDelegate(w: Wrapper, provider: SerializerProvider, property: Option<BeanProperty>,
                                  contextualize: HostContextualize)
    requires !UsesLazyLoading(property)
    ensures var r := CreateContextual(w, provider, property, contextualize);
      r == (if w.serializer.Some? && w.serializer.value.contextual
            then DelegateContextual(contextualize(w.serializer.value, provider, property))
            else Delegate(w.serializer))
  {
  }

  /** A lazily loaded property keeps the wrapper exactly when loading is not
      forced for it. */
  lemma LazyPropertyKeepsWrapper(w: Wrapper, provider: SerializerProvider, property: Option<BeanProperty>,
                                 contextualize: HostContextualize)
    requires UsesLazyLoading(property)
    ensures CreateContextual(w, provider, property, contextualize) == Itself(w) <==>
      !w.forceLazyLoading && !(w.forceLoadingElementCollection && IsElementCollection(property))
  {
  }

  /** When the wrapper is kept, the property exists and carries some LAZY
      annotation, and general force-loading is off. */
  lemma KeptWrapperHasLazyAnnotation(w: Wrapper, provider: SerializerProvider, property: Option<BeanProperty>,
                                     contextualize: HostContextualize)
    requires CreateContextual(w, provider, property, contextualize).Itself?
    ensures !w.forceLazyLoading
    ensures property.Some? && exists k: AnnotationKind :: property.value.annotations.Get(k) == Some(Lazy)
  {
    var a := property.value.annotations;
    var r := FirstDeclared(a, LookupOrder);
    var i :| FirstPresentAt(a, LookupOrder, i) && r == a.Get(LookupOrder[i]);
    assert a.Get(LookupOrder[i]) == Some(Lazy);
  }

  /** The element-collection flag forces loading of every handle the wrapper
      serializes, not only those of element collections: when the wrapper is
      kept for a property while that flag is on, the property is not an
      element collection, yet an unloaded handle is still unwrapped. */
  lemma ElementCollectionFlagForcesOtherProperties<V>(w: Wrapper, provider: SerializerProvider,
                                                     property: Option<BeanProperty>,
                                                     contextualize: HostContextualize,
                                                     h: PersistentCollection<V>)
    requires w.forceLoadingElementCollection
    requires CreateContextual(w, provider, property, contextualize).Itself?
    ensures !IsElementCollection(property)
    ensures Serialize(w, Handle(h)).unwrapped
  {
  }

  // ----- Serialization -----

  /** With neither flag set, an unloaded handle is written as null and never
      unwrapped, whatever it would unwrap to and whatever the delegate. */
  lemma UnloadedHandleWritesNull<V>(w: Wrapper, c: Option<V>)
    requires !w.forceLazyLoading && !w.forceLoadingElementCollection
    ensures Serialize(w, Handle(PersistentCollection(false, c))) == Outcome(false, WriteNull)
  {
  }

  /** With either flag set, every handle is unwrapped, loaded or not. */
  lemma ForcedHandleIsUnwrapped<V>(w: Wrapper, h: PersistentCollection<V>)
    requires w.forceLazyLoading || w.forceLoadingElementCollection
    ensures Serialize(w, Handle(h)).unwrapped
  {
  }

  /** A handle that unwraps to null is written as null and never reaches the
      delegate, even when there is none. */
  lemma NullContentsWritesNull<V>(w: Wrapper, h: PersistentCollection<V>)
    requires ForcesLoading(w) || h.wasInitialized
    requires h.contents.None?
    ensures Serialize(w, Handle(h)) == Outcome(true, WriteNull)
  {
  }

  /** An ordinary value goes to the delegate unchanged, or is a mapping error
      when there is no delegate. */
  lemma PlainValueGoesToDelegate<V>(w: Wrapper, v: V)
    ensures Serialize(w, Plain(v)) ==
      if w.serializer.Some? then Outcome(false, Delegated(w.serializer.value, v, None))
      else Outcome(false, MappingError(NoSerializerMessage))
  {
  }

  /** A loaded handle serializes exactly as the value it holds would: the
      delegate receives that value, and only the unwrap marker differs. */
  lemma LoadedHandleIsTransparent<V>(w: Wrapper, v: V)
    ensures Serialize(w, Handle(PersistentCollection(true, Some(v)))) ==
      Outcome(true, Serialize(w, Plain(v)).emission)
  {
  }

  /** The polymorphic variant behaves as the plain one in every case, and
      differs only by passing the type serializer on to the delegate. */
  lemma SerializeWithTypeMatchesSerialize<V>(w: Wrapper, value: Value<V>, typeSer: TypeSerializer)
    ensures WithoutTypeInfo(SerializeWithType(w, value, typeSer)) == Serialize(w, value)
  {
  }
}
