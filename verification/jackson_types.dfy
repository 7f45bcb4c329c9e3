/**
  Opaque stand-ins for the collaborators the Hibernate datatype module talks to:
  the JSON library's serializers, providers and type descriptors, and the
  persistence layer's mapping context. Nothing here has behaviour of its own;
  each value only carries an identity so that the model can say which object
  was passed where.
 */
module JacksonTypes {

  /** A Java reference that may be null. */
  datatype Option<+T> = None | Some(value: T)

  /** A serializer supplied by the JSON library (the delegate of the wrapper).
      `contextual` records whether it implements the library's contextual
      capability, i.e. whether it can be specialised for one property. */
  datatype HostSerializer = HostSerializer(id: nat, contextual: bool)

  /** The per-call serializer provider of the JSON library. */
  datatype SerializerProvider = SerializerProvider(id: nat)

  /** Type metadata handed to the polymorphic serialize variant. */
  datatype TypeSerializer = TypeSerializer(id: nat)

  /** Schema-build-time context objects the registration hooks receive. */
  datatype SerializationConfig = SerializationConfig(id: nat)
  datatype BeanDescription = BeanDescription(id: nat)
  datatype CollectionType = CollectionType(id: nat)
  datatype MapType = MapType(id: nat)

  /** A Java class, identified by name; subtyping between classes is not
      modelled here but passed to the operations that need it. */
  datatype RawClass = RawClass(name: string)

  /** A resolved Java type; only its raw class is consulted. */
  datatype JavaType = JavaType(rawClass: RawClass)

  /** The persistence layer's type-mapping context. */
  datatype Mapping = Mapping(id: nat)
}
