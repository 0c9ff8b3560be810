# Bundled script resolution (Apache Sling scripting bundle tracker) in Dafny

This project models the request-path core of the Sling bundle tracker's script resolver:

- **Resource type parsing** (`ResourceTypeParser`). It turns a string such as `a/b/c`,
  `a/b/c/1.0.0`, `a.b.c` or `a.b.c/1.0.0` into a type, an optional normalized version and a label.
- **Candidate generation** (`ScriptMatches`, i.e. `BundledScriptFinder.buildScriptMatches`).
  It builds the ordered list of script names to try for a request's method, selectors and
  extension against one provider's type string.
- **The first-match search** (`BundledScriptFinder.getScript`). It walks providers, then
  candidates, then script-engine extensions in reverse registration order. It has two modes:
  - source mode probes the bundle entry `javax.script/<candidate>.<extension>`;
  - precompiled mode loads a class. A missing class continues the search, and a class that
    cannot be instantiated aborts the whole search.
- **`TypeProvider`**: an immutable pair of a resource type and a bundle, with equality and a
  hash code.

Everything is pure functions over `string` and `seq`. External collaborators become data or
parameters:

- the bundle is a set of entry paths plus a map from class names to a three-way class outcome
  (`Bundles.ClassLookup`);
- the script engine manager is a list of per-factory extension lists plus an
  extension-to-engine map;
- OSGi `Version.parseVersion(..).toString()` is a parameter `string -> Option<string>`;
- `JavaEscapeHelper.makeJavaPackage` is a field `string -> string` of the finder's
  `Environment`.

A few behaviours of the code are worth knowing:

- The finder does not use `ResourceTypeParser`. It splits a type string into type and version
  only when the string has exactly one `/`.
- The zero-selector no-method name uses the type's segment after its last `.`, even when the
  type contains `/`.
- A type such as `a/` has the empty label.
- Source scripts live under `javax.script/`.
- Splitting off a version never changes the prefix the candidates share. The base is the
  provider type followed by `/`. The one exception is a type `t/` with a single `/`, which is
  its own base.

The search is stated two ways:

- as the source's nested short-circuiting loops (`SearchProviders`, `SearchCandidates`,
  `SearchExtensions`);
- as a reference definition: the first decisive outcome (`FirstDecisive`) over the flat,
  ordered sequence of all probe sites (`ProbeSites`).

`GetScriptIsFirstDecisive` proves the two agree. The candidate list is likewise related to a
closed form: candidate `t` of the level using `level` selectors sits at position
`(k - level) * L + t`. Each level is exactly the enabled forms in priority order.

## Model

| member | source | states |
|---|---|---|
| Strings.LastIndexOf | src/main/java/org/apache/sling/scripting/bundle/tracker/internal/ResourceTypeParser.java:117 | the result is -1 exactly when the character is absent; otherwise it is a position holding it with none after it |
| Strings.IndexOf | src/main/java/org/apache/sling/scripting/bundle/tracker/internal/BundledScriptFinder.java:89 | the result is -1 exactly when the character is absent; otherwise it is a position holding it with none before it |
| Strings.CountOf | src/main/java/org/apache/sling/scripting/bundle/tracker/internal/BundledScriptFinder.java:88 | `countMatches` equals the character's multiplicity in the string |
| Strings.AfterLast | src/main/java/org/apache/sling/scripting/bundle/tracker/internal/BundledScriptFinder.java:113-114 | the result is a suffix free of the character, and is preceded by it when the string contains it; otherwise it is the whole string |
| Strings.SingleOccurrence | src/main/java/org/apache/sling/scripting/bundle/tracker/internal/BundledScriptFinder.java:88 | a character occurs exactly once in `a + [c] + b` iff neither `a` nor `b` contains it |
| Strings.AfterLastSplit | src/main/java/org/apache/sling/scripting/bundle/tracker/internal/BundledScriptFinder.java:113-114 | what follows the last `c` of `a + [c] + b` is `b` when `b` has no `c` |
| Strings.Join | src/main/java/org/apache/sling/scripting/bundle/tracker/internal/BundledScriptFinder.java:96-99 | `String.join`: a non-empty join starts with its first part, and a single part joins to itself |
| Strings.JoinSnoc | src/main/java/org/apache/sling/scripting/bundle/tracker/internal/BundledScriptFinder.java:96-99 | joining one more part appends the separator and that part, for any non-empty list of parts |
| ResourceTypeParser.LabelOf | src/main/java/org/apache/sling/scripting/bundle/tracker/internal/ResourceTypeParser.java:51-61 | the label is a suffix of the type. With a `/` in the type it is the `/`-free part after the last `/`. Otherwise, with a `.`, it is the part after the last `.`. Otherwise it is the whole type |
| ResourceTypeParser.ParseResourceType | src/main/java/org/apache/sling/scripting/bundle/tracker/internal/ResourceTypeParser.java:113-133 | empty input fails, and every failure carries the input. A success has a non-empty type that is a prefix of the input. Input without `/`, or ending in `/`, gives type = input and no version. A version appears only if the input has a `/` and does not end in `/`. No version means type = input |
| ResourceTypeParser.ParseVersioned | src/main/java/org/apache/sling/scripting/bundle/tracker/internal/ResourceTypeParser.java:117-131 | when the segment after the last `/` parses as a version, the type is the prefix before that `/` and the version is the normalized form; an empty prefix (`/1.0.0`) fails |
| ResourceTypeParser.ParseUnversionedFallback | src/main/java/org/apache/sling/scripting/bundle/tracker/internal/ResourceTypeParser.java:117-123 | a final segment that does not parse as a version is never an error: type = whole input, no version |
| ResourceTypeParser.LabelOfParsed | src/main/java/org/apache/sling/scripting/bundle/tracker/internal/ResourceTypeParser.java:54-73 | `getResourceLabel()` of any parsed type is a suffix of the type, with no `/` when the type contains `/` |
| ResourceTypeParser.EmptyLabel | src/main/java/org/apache/sling/scripting/bundle/tracker/internal/ResourceTypeParser.java:54-55 | `a/` parses to type `a/`, no version, with the empty label |
| TypeProviders.GetResourceType | src/main/java/org/apache/sling/scripting/bundle/tracker/internal/TypeProvider.java:39-51 | returns exactly the resource type the provider was built with |
| TypeProviders.GetBundle | src/main/java/org/apache/sling/scripting/bundle/tracker/internal/TypeProvider.java:39-60 | returns exactly the bundle the provider was built with |
| TypeProviders.Equals | src/main/java/org/apache/sling/scripting/bundle/tracker/internal/TypeProvider.java:68-77 | a provider equals an object iff that object is a provider with the same bundle and resource type |
| TypeProviders.WrapInt32 | src/main/java/org/apache/sling/scripting/bundle/tracker/internal/TypeProvider.java:64 | the result is a 32-bit two's-complement value congruent to the input modulo 2^32 |
| TypeProviders.HashCode | src/main/java/org/apache/sling/scripting/bundle/tracker/internal/TypeProvider.java:63-65 | `Objects.hash(bundle, resourceType)` is a Java `int` |
| TypeProviders.EqualsReflexive | src/main/java/org/apache/sling/scripting/bundle/tracker/internal/TypeProvider.java:69-70 | every provider equals itself |
| TypeProviders.EqualsSymmetric | src/main/java/org/apache/sling/scripting/bundle/tracker/internal/TypeProvider.java:74 | `p.equals(q)` iff `q.equals(p)` |
| TypeProviders.EqualsIffFieldsEqual | src/main/java/org/apache/sling/scripting/bundle/tracker/internal/TypeProvider.java:72-75 | two providers are equal iff their bundles are equal and their resource types are equal |
| TypeProviders.NeverEqualsOtherObject | src/main/java/org/apache/sling/scripting/bundle/tracker/internal/TypeProvider.java:72-76 | an object that is not a provider is never equal to a provider |
| TypeProviders.HashConsistentWithEquals | src/main/java/org/apache/sling/scripting/bundle/tracker/internal/TypeProvider.java:63-64 | equal providers have equal hash codes, whatever the element hash functions |
| ScriptMatches.SplitProviderType | src/main/java/org/apache/sling/scripting/bundle/tracker/internal/BundledScriptFinder.java:88-91 | with exactly one `/`, type + "/" + version = the input and neither part has `/`; otherwise the whole input is the type and there is no version |
| ScriptMatches.SplitAtSingleSlash | src/main/java/org/apache/sling/scripting/bundle/tracker/internal/BundledScriptFinder.java:88-91 | `t/v` with no `/` in `t` or `v` splits into type `t` and version `v` |
| ScriptMatches.Base | src/main/java/org/apache/sling/scripting/bundle/tracker/internal/BundledScriptFinder.java:96-99 | the base starts with the type and `/` and ends with `/`. It is longer than `type/` exactly when the version is present and not empty (`isNotEmpty(version)`) |
| ScriptMatches.BaseOfProviderType | src/main/java/org/apache/sling/scripting/bundle/tracker/internal/BundledScriptFinder.java:88-99 | for every provider type, the base is the provider type followed by `/`, except for a type with one `/` that ends in it, which is its own base |
| ScriptMatches.ForMethodName | src/main/java/org/apache/sling/scripting/bundle/tracker/internal/BundledScriptFinder.java:96-97 | the method-qualified name starts with base + method. With selectors, a `.` follows the method |
| ScriptMatches.NoMethodName | src/main/java/org/apache/sling/scripting/bundle/tracker/internal/BundledScriptFinder.java:98-114 | the no-method name starts with the base. At level 0 the rest is the type's segment after its last `.` |
| ScriptMatches.NextSelectorLevel | src/main/java/org/apache/sling/scripting/bundle/tracker/internal/BundledScriptFinder.java:94-99 | the first selector level appends the first selector alone (after `method.` in the method-qualified name). Each further level extends both names by `/` and the next selector (`Arrays.copyOf(selectors, i + 1)`) |
| ScriptMatches.EnabledForms | src/main/java/org/apache/sling/scripting/bundle/tracker/internal/BundledScriptFinder.java:100-109 | a form is emitted iff it is enabled: no-method forms only for default methods, extension forms only with an extension. Forms come in strict priority order, the per-level count is (ext ? 2 : 1) × (default ? 2 : 1), and the method form is last |
| ScriptMatches.Level | src/main/java/org/apache/sling/scripting/bundle/tracker/internal/BundledScriptFinder.java:100-109 | a level has one candidate per enabled form |
| ScriptMatches.LevelRendersEnabledForms | src/main/java/org/apache/sling/scripting/bundle/tracker/internal/BundledScriptFinder.java:100-125 | the source's if-chain for a level equals the enabled forms in priority order, each rendered: no-method+ext, method+ext, no-method, method |
| ScriptMatches.SelectorCandidates | src/main/java/org/apache/sling/scripting/bundle/tracker/internal/BundledScriptFinder.java:94-111 | the selector loop yields `n` levels' worth of candidates |
| ScriptMatches.BuildScriptMatches | src/main/java/org/apache/sling/scripting/bundle/tracker/internal/BundledScriptFinder.java:82-127 | every candidate starts with the base `type/version/` (or `type/`); the list has `k+1` levels |
| ScriptMatches.CandidateCount | src/main/java/org/apache/sling/scripting/bundle/tracker/internal/BundledScriptFinder.java:94-125 | the list has length (k+1) × (extension non-empty ? 2 : 1) × (GET or HEAD ? 2 : 1) |
| ScriptMatches.MatchAt | src/main/java/org/apache/sling/scripting/bundle/tracker/internal/BundledScriptFinder.java:94-125 | closed form: candidate `t` of the level using `level` selectors is at position `(k - level) * L + t` |
| ScriptMatches.MoreSelectorsFirst | src/main/java/org/apache/sling/scripting/bundle/tracker/internal/BundledScriptFinder.java:95-125 | for any two levels, candidate `t1` of the level with more selectors comes before candidate `t2` of the level with fewer, zero-selector level included. Both positions are in the list and hold those levels' candidates |
| ScriptMatches.LastIsMethodName | src/main/java/org/apache/sling/scripting/bundle/tracker/internal/BundledScriptFinder.java:112-125 | the last candidate is always `base + method` |
| ScriptMatches.NonDefaultMethodQualified | src/main/java/org/apache/sling/scripting/bundle/tracker/internal/BundledScriptFinder.java:87-125 | for a method other than GET/HEAD every candidate is its level's method-qualified name, with or without the extension |
| ScriptMatches.DefaultMethodNoMethodName | src/main/java/org/apache/sling/scripting/bundle/tracker/internal/BundledScriptFinder.java:113-124 | for GET/HEAD every level's no-method name is a candidate, and at level 0 that is the base plus the type's segment after its last `.` |
| BundledScriptFinder.Flatten | src/main/java/org/apache/sling/scripting/bundle/tracker/internal/BundledScriptFinder.java:131-133 | an extension is in the concatenation iff some factory lists it |
| BundledScriptFinder.Reverse | src/main/java/org/apache/sling/scripting/bundle/tracker/internal/BundledScriptFinder.java:134 | the reverse puts element `|s|-1-i` at position `i` |
| BundledScriptFinder.EngineExtensions | src/main/java/org/apache/sling/scripting/bundle/tracker/internal/BundledScriptFinder.java:129-136 | the extension list is the reverse of the concatenation of every factory's extensions, and holds exactly the extensions some factory lists |
| BundledScriptFinder.LaterFactoryFirst | src/main/java/org/apache/sling/scripting/bundle/tracker/internal/BundledScriptFinder.java:129-136 | the last-registered factory's extensions come first (reversed), ahead of all earlier ones |
| Bundles.LoadClass | src/main/java/org/apache/sling/scripting/bundle/tracker/internal/BundledScriptFinder.java:61-65 | a class name the bundle does not define is not found (`ClassNotFoundException`). Any other name yields the bundle's recorded outcome |
| BundledScriptFinder.EngineFor | src/main/java/org/apache/sling/scripting/bundle/tracker/internal/BundledScriptFinder.java:63-73 | `getEngineByExtension` yields no engine exactly when none is registered for the extension, and otherwise the registered one |
| BundledScriptFinder.EntryPath | src/main/java/org/apache/sling/scripting/bundle/tracker/internal/BundledScriptFinder.java:71 | the probed entry is `javax.script/`, then the candidate, then `.` and the extension. A dot-free extension is what follows the path's last `.` |
| BundledScriptFinder.Probe | src/main/java/org/apache/sling/scripting/bundle/tracker/internal/BundledScriptFinder.java:57-75 | source mode hits iff entry `javax.script/<candidate>.<ext>` exists, returns that script, and is never fatal. Precompiled mode: a missing class means not found. An uninstantiable class is fatal and the error names it. A hit is `PrecompiledScript(bundle, engine, instance)` of the class named by `makeJavaPackage(candidate)`. Every hit carries the bundle and the extension's engine |
| BundledScriptFinder.FirstDecisive | src/main/java/org/apache/sling/scripting/bundle/tracker/internal/BundledScriptFinder.java:54-79 | not-found iff every outcome is not-found; otherwise the result is the outcome at the first position that is not not-found |
| BundledScriptFinder.SearchExtensionsIsFirstDecisive | src/main/java/org/apache/sling/scripting/bundle/tracker/internal/BundledScriptFinder.java:57-76 | the extension loop for one candidate equals the first decisive probe over that candidate's sites, in extension order |
| BundledScriptFinder.SearchCandidatesIsFirstDecisive | src/main/java/org/apache/sling/scripting/bundle/tracker/internal/BundledScriptFinder.java:56-77 | the candidate loop for one provider equals the first decisive probe over that provider's sites, candidates outer and extensions inner |
| BundledScriptFinder.SearchProvidersIsFirstDecisive | src/main/java/org/apache/sling/scripting/bundle/tracker/internal/BundledScriptFinder.java:54-79 | the nested provider/candidate/extension loops with early return equal the first decisive probe over the flat ordered probe sites |
| BundledScriptFinder.GetScriptIsFirstDecisive | src/main/java/org/apache/sling/scripting/bundle/tracker/internal/BundledScriptFinder.java:52-80 | `getScript` is the first decisive probe over all (provider, candidate, extension) triples in order |
| BundledScriptFinder.GetScriptFirstHit | src/main/java/org/apache/sling/scripting/bundle/tracker/internal/BundledScriptFinder.java:54-77 | a returned script is the hit of some probe site, and every earlier site found nothing |
| BundledScriptFinder.GetScriptNotFound | src/main/java/org/apache/sling/scripting/bundle/tracker/internal/BundledScriptFinder.java:79 | `null` is returned iff no probe site finds anything |
| BundledScriptFinder.SourceModeHit | src/main/java/org/apache/sling/scripting/bundle/tracker/internal/BundledScriptFinder.java:70-74 | source mode never fails. A hit is the script at `javax.script/<candidate>.<ext>` of the first site whose entry exists, and no earlier site has an entry |
| BundledScriptFinder.PrecompiledModeHit | src/main/java/org/apache/sling/scripting/bundle/tracker/internal/BundledScriptFinder.java:59-64 | a precompiled hit is `PrecompiledScript(bundle, engine, instance)` for the first site whose class loads and instantiates, and every earlier site's class was not found |
| BundledScriptFinder.PrecompiledModeAbort | src/main/java/org/apache/sling/scripting/bundle/tracker/internal/BundledScriptFinder.java:59-69 | an instantiation error names the class of a site whose class is uninstantiable, and every earlier site's class was not found |
| BundledScriptFinder.FirstDecisiveIgnoresLater | src/main/java/org/apache/sling/scripting/bundle/tracker/internal/BundledScriptFinder.java:63-68 | once a probe is decisive (a hit or a fatal class), later probes cannot change the outcome |

## Left out

- `ScriptContextProvider.java`: script bindings, request readers, response writers, loggers and OSGi wiring are framework plumbing. It is not part of this model.
- OSGi `Version.parseVersion` and `Version.toString`: a parameter that yields the normalized version, or `None` where the parser throws.
- `JavaEscapeHelper.makeJavaPackage`: a foreign call, kept as an uninterpreted `string -> string` field of the environment.
- Class loading and reflection: `loadClass` and `getDeclaredConstructor().newInstance()` are one three-outcome lookup per class name. The instance is an opaque number.
- Bundles.ClassLookup: `NotInstantiable` stands for every `Exception` other than `ClassNotFoundException`, whether `loadClass` or `newInstance` throws it (an uninstalled bundle's `IllegalStateException` included). A `java.lang.Error` such as `ExceptionInInitializerError` or `NoClassDefFoundError` is not caught at BundledScriptFinder.java:67. It escapes `getScript` unchanged, without the class name, and is not modelled. `PrecompiledModeAbort` covers only the caught exceptions.
- `ScriptEngineManager`, `ScriptEngineFactory` and the engines: plain data. `getEngineByExtension` returning `null` is `None`.
- `Script` and `PrecompiledScript` objects: the `Executable` datatype. The entry `URL` is the entry path string.
- `LinkedHashSet<TypeProvider>`: the finder takes providers as an ordered sequence. De-duplication is not modelled; the equality it relies on is, in `TypeProviders`.
- `provider.getType()` is called by `getScript` but not declared by the `TypeProvider` class shown. The finder's `Provider` is therefore a type string plus a bundle.
- Java `null`: a `null` request extension and an empty one are both `""`, and `StringUtils.isNotEmpty` treats them alike. A `null` version is `None`.
- Reference identity: `this == obj`, `Bundle` equality and `ResourceType` equality are value equality. The parser's `ResourceTypeParser.ResourceType` datatype stands in for the `ResourceType` that `TypeProvider.java` stores, and it is compared by value. That class's own `equals` and `hashCode` are not part of this model.
- `hashCode` of the bundle and the resource type: they are parameters. Only the `Objects.hash` combination and its consistency with `equals` are modelled.
- `getScriptEngineExtensions()` is re-evaluated in every candidate iteration in the source. The model computes it once per call. It is a pure function of the manager's state, so the outcome is the same.
- Thread safety and concurrent mutation of the engine registry: the model takes one immutable snapshot per call.
