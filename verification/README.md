# Lazy-collection handling of the Hibernate 4 datatype module for Jackson

This project models the part of `jackson-datatype-hibernate4` that decides what
happens to Hibernate lazy collections and proxies during JSON serialization, and
proves properties of that model in Dafny.

- `PersistentCollectionSerializer` wraps the serializer Jackson built for a
  collection or map property. Contextualization resolves it once per property.
  It keeps the wrapper when the property is lazily fetched and loading is not
  forced. Otherwise it hands back the delegate, or the delegate's own
  contextualized form. At serialize time the wrapper deals with Hibernate
  `PersistentCollection` handles. An unloaded handle is written as null unless
  a force-loading flag is set. A handle that unwraps to null is also written as
  null. Any other value goes to the delegate, and a missing delegate is a
  mapping error.
- `HibernateSerializerModifier` replaces every collection and map serializer
  with such a wrapper. The wrapper carries the modifier's two flags.
- `HibernateSerializers` answers types assignable to `HibernateProxy` with a
  proxy serializer built from its four settings.

Files:

- `jackson_types.dfy` (module `JacksonTypes`): opaque stand-ins for Jackson and
  Hibernate objects, plus `Option` for Java references that may be null.
- `annotations.dfy` (module `Annotations`): property metadata. For each of
  OneToMany, OneToOne, ManyToOne, ManyToMany and ElementCollection it holds
  `None` or the declared fetch mode. It also holds the fixed lookup order.
  `FirstDeclared` is the reference definition "the first annotation present in
  lookup order decides", written recursively over that order.
- `collection_serializer.dfy` (module `CollectionSerializer`): the wrapper,
  `CreateContextual`, `Serialize`, `SerializeWithType`, `UsesLazyLoading` and
  `IsElementCollection`, with their lemmas.
- `serializer_modifier.dfy` (module `SerializerModifier`): the two modifier
  hooks.
- `proxy_serializers.dfy` (module `ProxySerializers`): the registry's three
  constructors and `FindSerializer`.

A serialize call yields an `Outcome`. The outcome records whether the handle
was unwrapped, which is the call that makes Hibernate load it. It also records
what was emitted: `WriteNull`, `Delegated(serializer, value, typeSerializer)`
or `MappingError(message)`.

The two Java constructors that only store their arguments are the datatype
constructors `CollectionSerializer.Wrapper` and `SerializerModifier.Modifier`.

Two behaviours are modelled as the code has them:

- Both serialize variants test `_forceLoadingElementCollection` on its own, not
  together with the property. So with that flag on, every handle is unwrapped,
  even one of a property that is not an element collection.
  `ElementCollectionFlagForcesOtherProperties` states this.
- The one- and two-argument constructors of `HibernateSerializers` call the
  four-argument constructor positionally. Its parameter order is (forceLoading,
  forceLoadingElementCollection, serializeIdentifiers, mapping). So
  `forceLoading` ends up in the identifier setting. The two-argument
  constructor's `serializeIdentifiers` argument ends up in the
  element-collection setting. `TwoArgumentIdentifiersMisplaced` states this.

It is not enough for some annotation to be LAZY. The first annotation present
in the order OneToMany, OneToOne, ManyToOne, ManyToMany, ElementCollection
decides alone. So an EAGER OneToMany next to a LAZY ElementCollection is not
lazy.

## Model

| member | source | states |
|---|---|---|
| Annotations.FirstDeclared | hibernate4/src/main/java/com/fasterxml/jackson/datatype/hibernate4/PersistentCollectionSerializer.java:144-169 | the lookup gives no fetch mode iff none of the annotations in the order is present, and otherwise the fetch mode of the first one present (its index, with every earlier one absent) |
| Annotations.FirstDeclaredAt | hibernate4/src/main/java/com/fasterxml/jackson/datatype/hibernate4/PersistentCollectionSerializer.java:146-166 | once an annotation is present and all earlier ones are absent, the lookup returns exactly that annotation's fetch mode |
| Annotations.FirstDeclaredIgnoresLater | hibernate4/src/main/java/com/fasterxml/jackson/datatype/hibernate4/PersistentCollectionSerializer.java:146-166 | two properties that agree on the annotations up to the first present one get the same lookup result, whatever comes after |
| Annotations.FirstDeclaredInLookupOrder | hibernate4/src/main/java/com/fasterxml/jackson/datatype/hibernate4/PersistentCollectionSerializer.java:146-166 | over the fixed lookup order, the recursive first-present lookup equals the cascade that tests the five annotations in turn and stops at the first one present |
| CollectionSerializer.UsesLazyLoading | hibernate4/src/main/java/com/fasterxml/jackson/datatype/hibernate4/PersistentCollectionSerializer.java:144-169 | usesLazyLoading holds iff the property is non-null and the first annotation present in the order OneToMany, OneToOne, ManyToOne, ManyToMany, ElementCollection is LAZY |
| CollectionSerializer.UsesLazyLoadingDecidedByFirst | hibernate4/src/main/java/com/fasterxml/jackson/datatype/hibernate4/PersistentCollectionSerializer.java:146-166 | the first present annotation decides alone: LAZY gives true, EAGER gives false |
| CollectionSerializer.UsesLazyLoadingIgnoresLater | hibernate4/src/main/java/com/fasterxml/jackson/datatype/hibernate4/PersistentCollectionSerializer.java:146-166 | annotations after the first present one do not change usesLazyLoading |
| CollectionSerializer.UsesLazyLoadingNeedsAnnotation | hibernate4/src/main/java/com/fasterxml/jackson/datatype/hibernate4/PersistentCollectionSerializer.java:144-169 | a null property, or one with none of the five annotations, is not lazily loaded |
| CollectionSerializer.IsElementCollection | hibernate4/src/main/java/com/fasterxml/jackson/datatype/hibernate4/PersistentCollectionSerializer.java:171-177 | isElementCollection holds iff the property is non-null and carries an ElementCollection annotation |
| CollectionSerializer.IsElementCollectionIgnoresFetchMode | hibernate4/src/main/java/com/fasterxml/jackson/datatype/hibernate4/PersistentCollectionSerializer.java:171-177 | isElementCollection holds iff the property is non-null and has an ElementCollection annotation, with either fetch mode |
| CollectionSerializer.CreateContextual | hibernate4/src/main/java/com/fasterxml/jackson/datatype/hibernate4/PersistentCollectionSerializer.java:64-80 | the wrapper itself is returned iff loading is not forced, the property's first present annotation is LAZY, and the element-collection flag does not apply to an ElementCollection property; otherwise the delegate's contextualization if it is contextual, else the delegate (possibly null) |
| CollectionSerializer.EagerPropertyGetsDelegate | hibernate4/src/main/java/com/fasterxml/jackson/datatype/hibernate4/PersistentCollectionSerializer.java:69-76 | a property that is not lazily loaded never keeps the wrapper: it gets the contextualized delegate or the delegate unchanged |
| CollectionSerializer.LazyPropertyKeepsWrapper | hibernate4/src/main/java/com/fasterxml/jackson/datatype/hibernate4/PersistentCollectionSerializer.java:71-79 | for a lazily loaded property the wrapper is kept iff neither general force-loading nor forced element-collection loading applies |
| CollectionSerializer.KeptWrapperHasLazyAnnotation | hibernate4/src/main/java/com/fasterxml/jackson/datatype/hibernate4/PersistentCollectionSerializer.java:71-79 | a kept wrapper implies general force-loading is off and the property exists with some LAZY annotation |
| CollectionSerializer.ElementCollectionFlagForcesOtherProperties | hibernate4/src/main/java/com/fasterxml/jackson/datatype/hibernate4/PersistentCollectionSerializer.java:92-99 | with the element-collection flag on, a kept wrapper belongs to a property that is not an element collection, yet it still unwraps every handle |
| CollectionSerializer.Serialize | hibernate4/src/main/java/com/fasterxml/jackson/datatype/hibernate4/PersistentCollectionSerializer.java:88-109 | a handle is unwrapped iff a flag is set or it was loaded; null is written iff the value is a handle that is not unwrapped or unwraps to null; a mapping error occurs iff nothing else happened and there is no delegate; the delegate receives the plain value or the handle's contents, without type information |
| CollectionSerializer.SerializeWithType | hibernate4/src/main/java/com/fasterxml/jackson/datatype/hibernate4/PersistentCollectionSerializer.java:111-132 | whenever the delegate is called, it receives the given type serializer |
| CollectionSerializer.SerializeWithTypeMatchesSerialize | hibernate4/src/main/java/com/fasterxml/jackson/datatype/hibernate4/PersistentCollectionSerializer.java:112-132 | the polymorphic variant gives the same outcome as the plain one for every wrapper and value, apart from the forwarded type serializer |
| CollectionSerializer.UnloadedHandleWritesNull | hibernate4/src/main/java/com/fasterxml/jackson/datatype/hibernate4/PersistentCollectionSerializer.java:92-98 | with both flags off, an unloaded handle is written as null without being unwrapped, whatever its contents and the delegate |
| CollectionSerializer.ForcedHandleIsUnwrapped | hibernate4/src/main/java/com/fasterxml/jackson/datatype/hibernate4/PersistentCollectionSerializer.java:95-99 | with either flag on, every handle is unwrapped, loaded or not |
| CollectionSerializer.NullContentsWritesNull | hibernate4/src/main/java/com/fasterxml/jackson/datatype/hibernate4/PersistentCollectionSerializer.java:99-103 | a handle unwrapped to null is written as null and never reaches the delegate, even a missing one |
| CollectionSerializer.PlainValueGoesToDelegate | hibernate4/src/main/java/com/fasterxml/jackson/datatype/hibernate4/PersistentCollectionSerializer.java:105-108 | a non-handle value goes to the delegate unchanged, or is a mapping error with the source's message when there is no delegate |
| CollectionSerializer.LoadedHandleIsTransparent | hibernate4/src/main/java/com/fasterxml/jackson/datatype/hibernate4/PersistentCollectionSerializer.java:92-108 | a loaded handle holding v emits exactly what v itself would |
| SerializerModifier.ModifyCollectionSerializer | hibernate4/src/main/java/com/fasterxml/jackson/datatype/hibernate4/HibernateSerializerModifier.java:28-32 | the result is a wrapper with the modifier's two flags around the given serializer |
| SerializerModifier.ModifyMapSerializer | hibernate4/src/main/java/com/fasterxml/jackson/datatype/hibernate4/HibernateSerializerModifier.java:34-38 | the result is a wrapper with the modifier's two flags around the given serializer |
| SerializerModifier.CollectionAndMapWrapAlike | hibernate4/src/main/java/com/fasterxml/jackson/datatype/hibernate4/HibernateSerializerModifier.java:29-38 | the collection and map hooks give equal wrappers for the same serializer, independent of config, declared type and bean description |
| SerializerModifier.WrapThenResolveEager | hibernate4/src/main/java/com/fasterxml/jackson/datatype/hibernate4/HibernateSerializerModifier.java:29-32 | wrapping a serializer and resolving it against a property that is not lazily loaded gives back that serializer, or its contextualization |
| ProxySerializers.NewRegistry | hibernate4/src/main/java/com/fasterxml/jackson/datatype/hibernate4/HibernateSerializers.java:26-32 | each of the four arguments is stored in its own same-named setting |
| ProxySerializers.NewRegistryForceLoading | hibernate4/src/main/java/com/fasterxml/jackson/datatype/hibernate4/HibernateSerializers.java:16-19 | settings are force=f, element-collection=false, identifiers=f, mapping=null |
| ProxySerializers.NewRegistryWithIdentifiers | hibernate4/src/main/java/com/fasterxml/jackson/datatype/hibernate4/HibernateSerializers.java:21-24 | settings are force=f, element-collection=s, identifiers=f, mapping=null |
| ProxySerializers.FindSerializer | hibernate4/src/main/java/com/fasterxml/jackson/datatype/hibernate4/HibernateSerializers.java:34-43 | a proxy serializer is returned iff the raw class is assignable to the proxy marker, built from (force, element-collection, identifiers, mapping) in that order; otherwise no serializer |
| ProxySerializers.FindSerializerPassesConstructorArguments | hibernate4/src/main/java/com/fasterxml/jackson/datatype/hibernate4/HibernateSerializers.java:26-40 | a registry from the four-argument constructor gives proxy types a serializer built from exactly those four arguments |
| ProxySerializers.TwoArgumentIdentifiersMisplaced | hibernate4/src/main/java/com/fasterxml/jackson/datatype/hibernate4/HibernateSerializers.java:21-24 | through the two-argument constructor, the proxy serializer's identifier setting is forceLoading, and the identifiers argument becomes its element-collection setting |
| ProxySerializers.FindSerializerDependsOnlyOnAssignability | hibernate4/src/main/java/com/fasterxml/jackson/datatype/hibernate4/HibernateSerializers.java:35-42 | the answer depends on the type only through proxy assignability; config and bean description are not consulted |

## Left out

- JSON output: `JsonGenerator` and the bytes of Jackson's null are not modelled. The outcome says what is emitted, not how it is encoded.
- Hibernate loading: sessions, transactions and the fetch that `getValue()` triggers are not modelled. The fetch appears only as the `unwrapped` marker. A failing fetch is propagated by the source and is not modelled.
- `HibernateProxySerializer` internals: that class is not part of this model. Only the four arguments it is constructed from are recorded.
- The delegate's serializers and its own `createContextual` are not modelled. Contextualization is a function argument of `CreateContextual` that returns a host serializer. Its ability to return something else, or to throw `JsonMappingException`, is not modelled.
- Reflection: annotation lookup is replaced by the `AnnotationSet` record. `isAssignableFrom` against `HibernateProxy` is a predicate argument of `FindSerializer`.
- Java casts: the unchecked cast of the delegate is not modelled. A handle whose unwrapped value is itself a handle is treated as an ordinary value, as the source does.
- The commented-out `modifySerializer` override in `HibernateSerializerModifier.java` is not modelled, because it is not compiled.
- Serializer provider and `JsonGenerator` in serialization: the provider and generator that the source forwards to the delegate's `serialize`/`serializeWithType`, and uses to write Jackson's null, are not modelled. `Serialize` and `SerializeWithType` take neither, and `Delegated` does not record them. Only contextualization receives the provider, because the source passes it on to the delegate's `createContextual`.
