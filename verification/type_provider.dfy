/**
 * `TypeProvider`: an immutable association between a versioned resource type
 * and the bundle that provides it. Its equality and hash code decide
 * de-duplication in the resolver's `LinkedHashSet` of providers.
 */
module TypeProviders {
  import opened ResourceTypeParser
  import opened Bundles

  datatype TypeProvider = TypeProvider(resourceType: ResourceType, bundle: Bundle)

  /** A Java object that `equals` may be handed: another provider, or anything else. */
  datatype JavaObject = ProviderObject(provider: TypeProvider) | OtherObject(id: nat)

  /** `getResourceType()`. */
  function GetResourceType(p: TypeProvider): (r: ResourceType)
    ensures forall rt, b :: p == TypeProvider(rt, b) ==> r == rt
  {
    p.resourceType
  }

  /** `getBundle()`. */
  function GetBundle(p: TypeProvider): (r: Bundle)
    ensures forall rt, b :: p == TypeProvider(rt, b) ==> r == b
  {
    p.bundle
  }

  /**
   * `equals`: the same object, or another provider with an equal bundle and an
   * equal resource type. Reference identity is modelled by value identity.
   */
  function Equals(p: TypeProvider, obj: JavaObject): (r: bool)
    ensures r <==> obj.ProviderObject? && obj.provider == p
  {
    if obj == ProviderObject(p) then true
    else
      match obj
      case ProviderObject(other) => p.bundle == other.bundle && p.resourceType == other.resourceType
      case OtherObject(_) => false
  }

  const TwoTo32: int := 0x1_0000_0000
  const TwoTo31: int := 0x8000_0000

  /** Java `int` arithmetic: reduces a mathematical integer to 32-bit two's complement. */
  function WrapInt32(x: int): (r: int)
    ensures -TwoTo31 <= r < TwoTo31
    ensures (x - r) % TwoTo32 == 0
  {
    var m := x % TwoTo32;
    if m >= TwoTo31 then m - TwoTo32 else m
  }

  /**
   * `Objects.hash(bundle, resourceType)`, i.e. `31 * (31 * 1 + h(bundle)) + h(resourceType)`
   * in 32-bit arithmetic; the element hash codes are parameters.
   */
  function HashCode(p: TypeProvider, bundleHash: Bundle -> int, typeHash: ResourceType -> int): (r: int)
    ensures -TwoTo31 <= r < TwoTo31
  {
    WrapInt32(31 * WrapInt32(31 * 1 + bundleHash(p.bundle)) + typeHash(p.resourceType))
  }

  lemma EqualsReflexive(p: TypeProvider)
    ensures Equals(p, ProviderObject(p))
  {
  }

  lemma EqualsSymmetric(p: TypeProvider, q: TypeProvider)
    ensures Equals(p, ProviderObject(q)) <==> Equals(q, ProviderObject(p))
  {
  }

  /** Two providers are equal exactly when their bundles and their resource types are. */
  lemma EqualsIffFieldsEqual(p: TypeProvider, q: TypeProvider)
    ensures Equals(p, ProviderObject(q)) <==> p.bundle == q.bundle && p.resourceType == q.resourceType
  {
  }

  lemma NeverEqualsOtherObject(p: TypeProvider, id: nat)
    ensures !Equals(p, OtherObject(id))
  {
  }

  /** Equal providers have equal hash codes, whatever the element hash functions. */
  lemma HashConsistentWithEquals(p: TypeProvider, q: TypeProvider, bundleHash: Bundle -> int, typeHash: ResourceType -> int)
    requires Equals(p, ProviderObject(q))
    ensures HashCode(p, bundleHash, typeHash) == HashCode(q, bundleHash, typeHash)
  {
  }
}
