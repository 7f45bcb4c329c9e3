/**
  Property metadata as the lazy-collection wrapper sees it: for each of the
  five persistence annotations it consults, either absent or present with a
  fetch mode. Reflection is replaced by this record.
 */
module Annotations {
  import opened JacksonTypes

  datatype FetchType = Eager | Lazy

  /** The five annotation kinds the wrapper looks up. */
  datatype AnnotationKind = OneToMany | OneToOne | ManyToOne | ManyToMany | ElementCollection

  /** What the annotation lookup of one property returns for each kind:
      `None` when the annotation is absent, else its declared fetch mode. */
  datatype AnnotationSet = AnnotationSet(
    oneToMany: Option<FetchType>,
    oneToOne: Option<FetchType>,
    manyToOne: Option<FetchType>,
    manyToMany: Option<FetchType>,
    elementCollection: Option<FetchType>)
  {
    /** The annotation of kind `k` on the property, if any. */
    function Get(k: AnnotationKind): Option<FetchType> {
      match k
      case OneToMany => oneToMany
      case OneToOne => oneToOne
      case ManyToOne => manyToOne
      case ManyToMany => manyToMany
      case ElementCollection => elementCollection
    }
  }

  /** The property being serialized; a missing property (a top-level value
      with no enclosing bean) is `None` wherever a property is expected. */
  datatype BeanProperty = BeanProperty(annotations: AnnotationSet)

  /** The order in which the wrapper consults the annotations. */
  const LookupOrder: seq<AnnotationKind> := [OneToMany, OneToOne, ManyToOne, ManyToMany, ElementCollection]

  /** Index `i` holds the first annotation of `order` present on `a`. */
  ghost predicate FirstPresentAt(a: AnnotationSet, order: seq<AnnotationKind>, i: int) {
    && 0 <= i < |order|
    && a.Get(order[i]).Some?
    && forall j :: 0 <= j < i ==> a.Get(order[j]).None?
  }

  /** The fetch mode of the first annotation of `order` present on `a`, or
      `None` when none of them is present. This is the order-driven reading of
      the wrapper's annotation cascade. */
  function FirstDeclared(a: AnnotationSet, order: seq<AnnotationKind>): (r: Option<FetchType>)
    ensures r.None? <==> forall i :: 0 <= i < |order| ==> a.Get(order[i]).None?
    ensures r.Some? ==> exists i :: FirstPresentAt(a, order, i) && r == a.Get(order[i])
    decreases |order|
  {
    if |order| == 0 then None
    else if a.Get(order[0]).Some? then
      assert FirstPresentAt(a, order, 0);
      a.Get(order[0])
    else
      var r := FirstDeclared(a, order[1..]);
      FirstPresentShift(a, order);
      r
  }

  /** Behind an absent head annotation, the first present annotation of the
      tail is the first present annotation of the whole order, one index on. */
  lemma FirstPresentShift(a: AnnotationSet, order: seq<AnnotationKind>)
    requires |order| > 0 && a.Get(order[0]).None?
    ensures forall i :: FirstPresentAt(a, order[1..], i) ==> FirstPresentAt(a, order, i + 1)
  {
    forall i | FirstPresentAt(a, order[1..], i)
      ensures FirstPresentAt(a, order, i + 1)
    {
      assert order[1..][i] == order[i + 1];
      forall j | 0 <= j < i + 1
        ensures a.Get(order[j]).None?
      {
        if j > 0 {
          assert order[j] == order[1..][j - 1];
        }
      }
    }
  }

  /** The first present annotation is unique: at most one index satisfies
      `FirstPresentAt`. */
  lemma FirstPresentUnique(a: AnnotationSet, order: seq<AnnotationKind>, i: int, k: int)
    requires FirstPresentAt(a, order, i) && FirstPresentAt(a, order, k)
    ensures i == k
  {
  }

  /** Once an annotation is present, the lookup is decided there: it returns
      exactly that annotation's fetch mode whatever follows it. */
  lemma FirstDeclaredAt(a: AnnotationSet, order: seq<AnnotationKind>, i: int)
    requires FirstPresentAt(a, order, i)
    ensures FirstDeclared(a, order) == a.Get(order[i])
  {
    var r := FirstDeclared(a, order);
    assert r.Some?;
    var k :| FirstPresentAt(a, order, k) && r == a.Get(order[k]);
    FirstPresentUnique(a, order, i, k);
  }

  /** Over the fixed lookup order, the recursive lookup is the cascade that
      tests OneToMany, OneToOne, ManyToOne, ManyToMany and ElementCollection
      in turn and stops at the first one present. */
  lemma FirstDeclaredInLookupOrder(a: AnnotationSet)
    ensures FirstDeclared(a, LookupOrder) ==
      if a.oneToMany.Some? then a.oneToMany
      else if a.oneToOne.Some? then a.oneToOne
      else if a.manyToOne.Some? then a.manyToOne
      else if a.manyToMany.Some? then a.manyToMany
      else a.elementCollection
  {
    if a.oneToMany.Some? {
      FirstDeclaredAt(a, LookupOrder, 0);
    } else if a.oneToOne.Some? {
      FirstDeclaredAt(a, LookupOrder, 1);
    } else if a.manyToOne.Some? {
      FirstDeclaredAt(a, LookupOrder, 2);
    } else if a.manyToMany.Some? {
      FirstDeclaredAt(a, LookupOrder, 3);
    } else if a.elementCollection.Some? {
      FirstDeclaredAt(a, LookupOrder, 4);
    } else {
      assert forall i :: 0 <= i < |LookupOrder| ==> a.Get(LookupOrder[i]).None?;
    }
  }

  /** Two properties that agree on every annotation up to and including the
      first one present get the same lookup result: annotations after the
      deciding one are ignored. */
  lemma FirstDeclaredIgnoresLater(a: AnnotationSet, b: AnnotationSet, order: seq<AnnotationKind>, i: int)
    requires FirstPresentAt(a, order, i)
    requires forall j :: 0 <= j <= i ==> a.Get(order[j]) == b.Get(order[j])
    ensures FirstDeclared(a, order) == FirstDeclared(b, order)
  {
    assert FirstPresentAt(b, order, i);
    FirstDeclaredAt(a, order, i);
    FirstDeclaredAt(b, order, i);
  }
}
