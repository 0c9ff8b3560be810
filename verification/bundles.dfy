/**
 * An OSGi bundle as the resolver sees it: a handle, the paths of the entries it
 * stores, and what happens when a class is loaded from it and instantiated.
 * Real class loading and reflection are replaced by the `classes` oracle.
 */
module Bundles {

  /** An instantiated precompiled script object; only its identity matters here. */
  type Instance = nat

  /**
   * The outcome of `loadClass(name)` followed by `getDeclaredConstructor().newInstance()`:
   * `ClassNotFoundException` from `loadClass`, or an instance, or any other
   * `Exception` thrown by either call (a bundle that is not installed, no default
   * constructor, a constructor that throws, ...). A `java.lang.Error` is not an
   * outcome here: the source does not catch it.
   */
  datatype ClassLookup = ClassNotFound | Instantiated(instance: Instance) | NotInstantiable

  datatype Bundle = Bundle(id: nat, entries: set<string>, classes: map<string, ClassLookup>)

  /** `getEntry(path) != null`. */
  predicate HasEntry(b: Bundle, path: string)
  {
    path in b.entries
  }

  /** Loads and instantiates a class; a name the bundle does not know is not found. */
  function LoadClass(b: Bundle, className: string): (r: ClassLookup)
    ensures className !in b.classes ==> r == ClassNotFound
    ensures className in b.classes ==> r == b.classes[className]
  {
    if className in b.classes then b.classes[className] else ClassNotFound
  }
}
