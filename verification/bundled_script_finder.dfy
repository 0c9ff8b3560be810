/**
 * `BundledScriptFinder.getScript`: for each provider, for each of its candidate
 * script names, for each script-engine extension (in reverse registration
 * order), probe the provider's bundle and return the first hit.
 *
 * In source mode a probe looks up the bundle entry
 * `javax.script/<candidate>.<extension>`. In precompiled mode it loads the class
 * named after the candidate: a missing class means "keep searching", a class
 * that cannot be instantiated aborts the whole search.
 *
 * The script engine manager is the `Environment`: the extensions of each engine
 * factory in registration order, the engine chosen for an extension, and
 * `JavaEscapeHelper.makeJavaPackage`, which is not modelled beyond being a
 * function from script names to class names.
 */
module BundledScriptFinder {
  import opened Optional
  import opened Bundles
  import opened ScriptMatches
  import opened Strings

  /** The bundle directory that holds source scripts. */
  const NsJavaxScriptCapability: string := "javax.script"

  /** A script engine, as returned by `getEngineByExtension`. */
  type EngineId = nat

  /** A provider as the finder uses it: its type string (`provider.getType()`) and its bundle. */
  datatype Provider = Provider(typeString: string, bundle: Bundle)

  datatype Environment = Environment(
    factoryExtensions: seq<seq<string>>,
    engineByExtension: map<string, EngineId>,
    makeJavaPackage: string -> string)

  /** What `getScript` returns on success: a source script or an instantiated precompiled script. */
  datatype Executable =
    | Script(bundle: Bundle, url: string, engine: Option<EngineId>)
    | PrecompiledScript(bundle: Bundle, engine: Option<EngineId>, instance: Instance)

  /**
   * The outcome of one probe, and of a whole search: a hit, nothing here
   * (`null` in the source), or the `RuntimeException` raised for a class that
   * cannot be instantiated.
   */
  datatype Lookup = Found(executable: Executable) | NotFound | CannotInstantiate(className: string)

  /** `getEngineByExtension(extension)`; `None` where the manager returns `null`. */
  function EngineFor(env: Environment, extension: string): (r: Option<EngineId>)
    ensures r.None? <==> extension !in env.engineByExtension
    ensures r.Some? ==> env.engineByExtension[extension] == r.value
  {
    if extension in env.engineByExtension then Some(env.engineByExtension[extension]) else None
  }

  /** The concatenation of a sequence of sequences. */
  function Flatten(xss: seq<seq<string>>): (r: seq<string>)
    ensures forall x :: x in r <==> exists i :: 0 <= i < |xss| && x in xss[i]
  {
    if xss == [] then []
    else
      assert forall i :: 1 <= i < |xss| ==> xss[i] == xss[1..][i - 1];
      xss[0] + Flatten(xss[1..])
  }

  function Reverse<T>(s: seq<T>): (r: seq<T>)
    ensures |r| == |s|
    ensures forall i :: 0 <= i < |s| ==> r[i] == s[|s| - 1 - i]
  {
    if s == [] then [] else Reverse(s[1..]) + [s[0]]
  }

  /**
   * `getScriptEngineExtensions`: every factory's extensions, concatenated in
   * registration order, then reversed, so later factories are tried first.
   */
  function EngineExtensions(factoryExtensions: seq<seq<string>>): (r: seq<string>)
    ensures |r| == |Flatten(factoryExtensions)|
    ensures forall i :: 0 <= i < |r| ==> r[i] == Flatten(factoryExtensions)[|r| - 1 - i]
    ensures forall e :: e in r <==> exists k :: 0 <= k < |factoryExtensions| && e in factoryExtensions[k]
  {
    var flat := Flatten(factoryExtensions);
    var r := Reverse(flat);
    assert forall e :: e in r ==> e in flat by {
      forall e | e in r ensures e in flat {
        var i :| 0 <= i < |r| && r[i] == e;
        assert flat[|r| - 1 - i] == e;
      }
    }
    assert forall e :: e in flat ==> e in r by {
      forall e | e in flat ensures e in r {
        var i :| 0 <= i < |flat| && flat[i] == e;
        assert r[|r| - 1 - i] == e;
      }
    }
    r
  }

  /**
   * The bundle entry path probed in source mode: the candidate under the
   * `javax.script` directory, followed by a dot and the extension, which can be
   * read back off the path when it has no dot of its own.
   */
  function EntryPath(candidate: string, extension: string): (r: string)
    ensures |r| == |"javax.script/"| + |candidate| + 1 + |extension|
    ensures r[..|"javax.script/"|] == "javax.script/"
    ensures r[|"javax.script/"|..|"javax.script/"| + |candidate|] == candidate
    ensures '.' !in extension ==> AfterLast(r, '.') == extension
  {
    var dir, rest := NsJavaxScriptCapability + "/", candidate + "." + extension;
    assert dir == "javax.script/";
    assert (dir + rest)[..|dir|] == dir && (dir + rest)[|dir|..|dir| + |candidate|] == rest[..|candidate|];
    assert rest[..|candidate|] == candidate;
    assert '.' !in extension ==> AfterLast(dir + candidate + "." + extension, '.') == extension by {
      if '.' !in extension {
        AfterLastSplit(dir + candidate, '.', extension);
      }
    }
    assert dir + rest == dir + candidate + "." + extension;
    dir + rest
  }

  /** One iteration of the innermost loop of `getScript`. */
  function Probe(env: Environment, provider: Provider, candidate: string, extension: string, precompiled: bool): (r: Lookup)
    ensures !precompiled ==> !r.CannotInstantiate?
    ensures !precompiled ==> (r.Found? <==> HasEntry(provider.bundle, EntryPath(candidate, extension)))
    ensures !precompiled && r.Found? ==>
      r.executable == Script(provider.bundle, "javax.script/" + candidate + "." + extension, EngineFor(env, extension))
    ensures precompiled ==> (r.NotFound? <==> LoadClass(provider.bundle, env.makeJavaPackage(candidate)) == ClassNotFound)
    ensures precompiled ==> (r.CannotInstantiate? <==> LoadClass(provider.bundle, env.makeJavaPackage(candidate)) == NotInstantiable)
    ensures r.CannotInstantiate? ==> r.className == env.makeJavaPackage(candidate)
    ensures precompiled && r.Found? ==>
      && LoadClass(provider.bundle, env.makeJavaPackage(candidate)).Instantiated?
      && r.executable == PrecompiledScript(provider.bundle, EngineFor(env, extension),
                                           LoadClass(provider.bundle, env.makeJavaPackage(candidate)).instance)
    ensures r.Found? ==> r.executable.bundle == provider.bundle && r.executable.engine == EngineFor(env, extension)
  {
    if precompiled then
      var className := env.makeJavaPackage(candidate);
      match LoadClass(provider.bundle, className)
      case ClassNotFound => NotFound
      case Instantiated(instance) => Found(PrecompiledScript(provider.bundle, EngineFor(env, extension), instance))
      case NotInstantiable => CannotInstantiate(className)
    else
      var path := EntryPath(candidate, extension);
      assert path == "javax.script/" + candidate + "." + extension by {
        assert NsJavaxScriptCapability + "/" == "javax.script/";
      }
      if HasEntry(provider.bundle, path) then Found(Script(provider.bundle, path, EngineFor(env, extension)))
      else NotFound
  }

  /** The extension loop for one candidate: the first probe that is not `NotFound` ends it. */
  function SearchExtensions(env: Environment, provider: Provider, candidate: string, extensions: seq<string>, precompiled: bool): Lookup
  {
    if extensions == [] then NotFound
    else
      var r := Probe(env, provider, candidate, extensions[0], precompiled);
      if r.NotFound? then SearchExtensions(env, provider, candidate, extensions[1..], precompiled) else r
  }

  /** The candidate loop for one provider. */
  function SearchCandidates(env: Environment, provider: Provider, candidates: seq<string>, extensions: seq<string>, precompiled: bool): Lookup
  {
    if candidates == [] then NotFound
    else
      var r := SearchExtensions(env, provider, candidates[0], extensions, precompiled);
      if r.NotFound? then SearchCandidates(env, provider, candidates[1..], extensions, precompiled) else r
  }

  /** The provider loop. */
  function SearchProviders(env: Environment, req: Request, providers: seq<Provider>, extensions: seq<string>, precompiled: bool): Lookup
  {
    if providers == [] then NotFound
    else
      var candidates := BuildScriptMatches(req, providers[0].typeString);
      var r := SearchCandidates(env, providers[0], candidates, extensions, precompiled);
      if r.NotFound? then SearchProviders(env, req, providers[1..], extensions, precompiled) else r
  }

  /** `getScript(request, typeProviders, precompiledScripts)`. */
  function GetScript(env: Environment, req: Request, providers: seq<Provider>, precompiled: bool): Lookup
  {
    SearchProviders(env, req, providers, EngineExtensions(env.factoryExtensions), precompiled)
  }

  // ---------------------------------------------------------------------------
  // Reference definition: the flat sequence of probes, in search order.
  // ---------------------------------------------------------------------------

  /** One point of the search space: which bundle, which candidate, which extension. */
  datatype ProbeSite = ProbeSite(provider: Provider, candidate: string, extension: string)

  function SitesForCandidate(provider: Provider, candidate: string, extensions: seq<string>): (r: seq<ProbeSite>)
    ensures |r| == |extensions|
    ensures forall i :: 0 <= i < |r| ==> r[i] == ProbeSite(provider, candidate, extensions[i])
  {
    seq(|extensions|, i requires 0 <= i < |extensions| => ProbeSite(provider, candidate, extensions[i]))
  }

  function SitesForProvider(provider: Provider, candidates: seq<string>, extensions: seq<string>): seq<ProbeSite>
  {
    if candidates == [] then []
    else SitesForCandidate(provider, candidates[0], extensions) + SitesForProvider(provider, candidates[1..], extensions)
  }

  /** Every (provider, candidate, extension) triple, providers outermost, extensions innermost. */
  function ProbeSites(req: Request, providers: seq<Provider>, extensions: seq<string>): seq<ProbeSite>
  {
    if providers == [] then []
    else
      SitesForProvider(providers[0], BuildScriptMatches(req, providers[0].typeString), extensions)
      + ProbeSites(req, providers[1..], extensions)
  }

  function ProbeAll(env: Environment, sites: seq<ProbeSite>, precompiled: bool): (r: seq<Lookup>)
    ensures |r| == |sites|
    ensures forall i :: 0 <= i < |r| ==> r[i] == Probe(env, sites[i].provider, sites[i].candidate, sites[i].extension, precompiled)
  {
    seq(|sites|, i requires 0 <= i < |sites| => Probe(env, sites[i].provider, sites[i].candidate, sites[i].extension, precompiled))
  }

  /**
   * The first outcome that is not `NotFound`, or `NotFound` when there is none:
   * the meaning of a short-circuiting search.
   */
  function FirstDecisive(rs: seq<Lookup>): (r: Lookup)
    ensures r.NotFound? <==> forall i :: 0 <= i < |rs| ==> rs[i].NotFound?
    ensures !r.NotFound? ==> exists i :: 0 <= i < |rs| && rs[i] == r && forall j :: 0 <= j < i ==> rs[j].NotFound?
  {
    if rs == [] then NotFound
    else if !rs[0].NotFound? then rs[0]
    else
      var r := FirstDecisive(rs[1..]);
      assert forall i :: 1 <= i < |rs| ==> rs[i] == rs[1..][i - 1];
      assert !r.NotFound? ==> exists i :: 0 <= i < |rs| && rs[i] == r && forall j :: 0 <= j < i ==> rs[j].NotFound? by {
        if !r.NotFound? {
          var i :| 0 <= i < |rs[1..]| && rs[1..][i] == r && forall j :: 0 <= j < i ==> rs[1..][j].NotFound?;
          assert rs[i + 1] == r && forall j :: 0 <= j < i + 1 ==> rs[j].NotFound?;
        }
      }
      r
  }

  lemma {:induction false} FirstDecisiveAppend(a: seq<Lookup>, b: seq<Lookup>)
    ensures FirstDecisive(a + b) == if FirstDecisive(a).NotFound? then FirstDecisive(b) else FirstDecisive(a)
  {
    if a != [] {
      assert (a + b)[0] == a[0];
      assert (a + b)[1..] == a[1..] + b;
      FirstDecisiveAppend(a[1..], b);
    } else {
      assert a + b == b;
    }
  }

  lemma ProbeAllAppend(env: Environment, s: seq<ProbeSite>, t: seq<ProbeSite>, precompiled: bool)
    ensures ProbeAll(env, s + t, precompiled) == ProbeAll(env, s, precompiled) + ProbeAll(env, t, precompiled)
  {
  }

  lemma {:induction false} SearchExtensionsIsFirstDecisive(env: Environment, provider: Provider, candidate: string, extensions: seq<string>, precompiled: bool)
    ensures SearchExtensions(env, provider, candidate, extensions, precompiled)
         == FirstDecisive(ProbeAll(env, SitesForCandidate(provider, candidate, extensions), precompiled))
  {
    if extensions != [] {
      var site := ProbeSite(provider, candidate, extensions[0]);
      var rest := SitesForCandidate(provider, candidate, extensions[1..]);
      SearchExtensionsIsFirstDecisive(env, provider, candidate, extensions[1..], precompiled);
      SitesForCandidateCons(provider, candidate, extensions);
      ProbeAllAppend(env, [site], rest, precompiled);
      FirstDecisiveAppend(ProbeAll(env, [site], precompiled), ProbeAll(env, rest, precompiled));
    }
  }

  lemma SitesForCandidateCons(provider: Provider, candidate: string, extensions: seq<string>)
    requires extensions != []
    ensures SitesForCandidate(provider, candidate, extensions)
         == [ProbeSite(provider, candidate, extensions[0])] + SitesForCandidate(provider, candidate, extensions[1..])
  {
  }

  lemma {:induction false} SearchCandidatesIsFirstDecisive(env: Environment, provider: Provider, candidates: seq<string>, extensions: seq<string>, precompiled: bool)
    ensures SearchCandidates(env, provider, candidates, extensions, precompiled)
         == FirstDecisive(ProbeAll(env, SitesForProvider(provider, candidates, extensions), precompiled))
  {
    if candidates != [] {
      var head := SitesForCandidate(provider, candidates[0], extensions);
      var tail := SitesForProvider(provider, candidates[1..], extensions);
      SearchExtensionsIsFirstDecisive(env, provider, candidates[0], extensions, precompiled);
      SearchCandidatesIsFirstDecisive(env, provider, candidates[1..], extensions, precompiled);
      ProbeAllAppend(env, head, tail, precompiled);
      FirstDecisiveAppend(ProbeAll(env, head, precompiled), ProbeAll(env, tail, precompiled));
    }
  }

  lemma {:induction false} SearchProvidersIsFirstDecisive(env: Environment, req: Request, providers: seq<Provider>, extensions: seq<string>, precompiled: bool)
    ensures SearchProviders(env, req, providers, extensions, precompiled)
         == FirstDecisive(ProbeAll(env, ProbeSites(req, providers, extensions), precompiled))
  {
    if providers != [] {
      var candidates := BuildScriptMatches(req, providers[0].typeString);
      var head := SitesForProvider(providers[0], candidates, extensions);
      var tail := ProbeSites(req, providers[1..], extensions);
      SearchCandidatesIsFirstDecisive(env, providers[0], candidates, extensions, precompiled);
      SearchProvidersIsFirstDecisive(env, req, providers[1..], extensions, precompiled);
      ProbeAllAppend(env, head, tail, precompiled);
      FirstDecisiveAppend(ProbeAll(env, head, precompiled), ProbeAll(env, tail, precompiled));
    }
  }

  /**
   * `getScript` is the first decisive probe over all (provider, candidate,
   * extension) triples in order: it returns a hit only if every earlier probe
   * found nothing, and `null` only if every probe found nothing.
   */
  lemma GetScriptIsFirstDecisive(env: Environment, req: Request, providers: seq<Provider>, precompiled: bool)
    ensures var rs := ProbeAll(env, ProbeSites(req, providers, EngineExtensions(env.factoryExtensions)), precompiled);
      GetScript(env, req, providers, precompiled) == FirstDecisive(rs)
  {
    SearchProvidersIsFirstDecisive(env, req, providers, EngineExtensions(env.factoryExtensions), precompiled);
  }

  /** The probe sites `getScript` walks through, in order. */
  function SearchSpace(env: Environment, req: Request, providers: seq<Provider>): seq<ProbeSite>
  {
    ProbeSites(req, providers, EngineExtensions(env.factoryExtensions))
  }

  /** A hit is returned only when it is the first probe, in search order, that found anything. */
  lemma GetScriptFirstHit(env: Environment, req: Request, providers: seq<Provider>, precompiled: bool)
    ensures var sites, r := SearchSpace(env, req, providers), GetScript(env, req, providers, precompiled);
      r.Found? ==>
        exists i :: 0 <= i < |sites|
          && Probe(env, sites[i].provider, sites[i].candidate, sites[i].extension, precompiled) == r
          && forall j :: 0 <= j < i ==> Probe(env, sites[j].provider, sites[j].candidate, sites[j].extension, precompiled).NotFound?
  {
    GetScriptIsFirstDecisive(env, req, providers, precompiled);
    var sites, r := SearchSpace(env, req, providers), GetScript(env, req, providers, precompiled);
    var rs := ProbeAll(env, sites, precompiled);
    if r.Found? {
      var i :| 0 <= i < |rs| && rs[i] == r && forall j :: 0 <= j < i ==> rs[j].NotFound?;
      assert Probe(env, sites[i].provider, sites[i].candidate, sites[i].extension, precompiled) == r;
    }
  }

  /** `getScript` returns `null` exactly when no (provider, candidate, extension) probe finds anything. */
  lemma GetScriptNotFound(env: Environment, req: Request, providers: seq<Provider>, precompiled: bool)
    ensures var sites := SearchSpace(env, req, providers);
      GetScript(env, req, providers, precompiled).NotFound?
      <==> forall i :: 0 <= i < |sites| ==> Probe(env, sites[i].provider, sites[i].candidate, sites[i].extension, precompiled).NotFound?
  {
    GetScriptIsFirstDecisive(env, req, providers, precompiled);
    var sites := SearchSpace(env, req, providers);
    var rs := ProbeAll(env, sites, precompiled);
    if GetScript(env, req, providers, precompiled).NotFound? {
      forall i | 0 <= i < |sites|
        ensures Probe(env, sites[i].provider, sites[i].candidate, sites[i].extension, precompiled).NotFound?
      {
        assert rs[i].NotFound?;
      }
    } else {
      var i :| 0 <= i < |rs| && !rs[i].NotFound?;
      assert !Probe(env, sites[i].provider, sites[i].candidate, sites[i].extension, precompiled).NotFound?;
    }
  }

  /**
   * In source mode nothing is fatal, and a hit is the script stored at
   * `javax.script/<candidate>.<extension>` in the bundle of the first site
   * whose entry exists.
   */
  lemma SourceModeHit(env: Environment, req: Request, providers: seq<Provider>)
    ensures !GetScript(env, req, providers, false).CannotInstantiate?
    ensures var sites := SearchSpace(env, req, providers);
      GetScript(env, req, providers, false).Found? ==>
        exists i :: 0 <= i < |sites|
          && HasEntry(sites[i].provider.bundle, "javax.script/" + sites[i].candidate + "." + sites[i].extension)
          && GetScript(env, req, providers, false).executable
             == Script(sites[i].provider.bundle, "javax.script/" + sites[i].candidate + "." + sites[i].extension,
                       EngineFor(env, sites[i].extension))
          && forall j :: 0 <= j < i ==> !HasEntry(sites[j].provider.bundle, EntryPath(sites[j].candidate, sites[j].extension))
  {
    GetScriptIsFirstDecisive(env, req, providers, false);
    var sites := SearchSpace(env, req, providers);
    var rs := ProbeAll(env, sites, false);
    var r := GetScript(env, req, providers, false);
    if r.Found? {
      var i :| 0 <= i < |rs| && rs[i] == r && forall j :: 0 <= j < i ==> rs[j].NotFound?;
      SourceProbeHit(env, sites[i], r);
      forall j | 0 <= j < i
        ensures !HasEntry(sites[j].provider.bundle, EntryPath(sites[j].candidate, sites[j].extension))
      {
        SourceProbeMiss(env, sites[j]);
      }
    }
  }

  /**
   * In precompiled mode the search aborts at the first class that is found but
   * cannot be instantiated, provided every earlier probe found no class; the
   * error names that class.
   */
  lemma PrecompiledModeAbort(env: Environment, req: Request, providers: seq<Provider>)
    ensures var sites, r := SearchSpace(env, req, providers), GetScript(env, req, providers, true);
      r.CannotInstantiate? ==>
        exists i :: 0 <= i < |sites|
          && r.className == env.makeJavaPackage(sites[i].candidate)
          && LoadClass(sites[i].provider.bundle, r.className) == NotInstantiable
          && forall j :: 0 <= j < i ==> LoadClass(sites[j].provider.bundle, env.makeJavaPackage(sites[j].candidate)) == ClassNotFound
  {
    GetScriptIsFirstDecisive(env, req, providers, true);
    var sites, r := SearchSpace(env, req, providers), GetScript(env, req, providers, true);
    var rs := ProbeAll(env, sites, true);
    if r.CannotInstantiate? {
      var i :| 0 <= i < |rs| && rs[i] == r && forall j :: 0 <= j < i ==> rs[j].NotFound?;
      PrecompiledProbeAbort(env, sites[i], r);
      forall j | 0 <= j < i
        ensures LoadClass(sites[j].provider.bundle, env.makeJavaPackage(sites[j].candidate)) == ClassNotFound
      {
        PrecompiledProbeMiss(env, sites[j]);
      }
    }
  }

  /**
   * In precompiled mode a hit is the instance of the class named after the
   * candidate of the first site whose class loads and instantiates, with the
   * site's bundle and the engine for its extension; every earlier site's class
   * was not found.
   */
  lemma PrecompiledModeHit(env: Environment, req: Request, providers: seq<Provider>)
    ensures var sites, r := SearchSpace(env, req, providers), GetScript(env, req, providers, true);
      r.Found? ==>
        exists i :: 0 <= i < |sites|
          && LoadClass(sites[i].provider.bundle, env.makeJavaPackage(sites[i].candidate)).Instantiated?
          && r.executable == PrecompiledScript(sites[i].provider.bundle, EngineFor(env, sites[i].extension),
                                               LoadClass(sites[i].provider.bundle, env.makeJavaPackage(sites[i].candidate)).instance)
          && forall j :: 0 <= j < i ==> LoadClass(sites[j].provider.bundle, env.makeJavaPackage(sites[j].candidate)) == ClassNotFound
  {
    GetScriptIsFirstDecisive(env, req, providers, true);
    var sites, r := SearchSpace(env, req, providers), GetScript(env, req, providers, true);
    var rs := ProbeAll(env, sites, true);
    if r.Found? {
      var i :| 0 <= i < |rs| && rs[i] == r && forall j :: 0 <= j < i ==> rs[j].NotFound?;
      PrecompiledProbeHit(env, sites[i], r);
      forall j | 0 <= j < i
        ensures LoadClass(sites[j].provider.bundle, env.makeJavaPackage(sites[j].candidate)) == ClassNotFound
      {
        PrecompiledProbeMiss(env, sites[j]);
      }
    }
  }

  // Per-site consequences of `Probe`'s contract, one fact at a time.

  lemma SourceProbeHit(env: Environment, site: ProbeSite, r: Lookup)
    requires r == Probe(env, site.provider, site.candidate, site.extension, false) && r.Found?
    ensures HasEntry(site.provider.bundle, "javax.script/" + site.candidate + "." + site.extension)
    ensures r.executable == Script(site.provider.bundle, "javax.script/" + site.candidate + "." + site.extension,
                                   EngineFor(env, site.extension))
  {
    assert EntryPath(site.candidate, site.extension) == "javax.script/" + site.candidate + "." + site.extension;
  }

  lemma SourceProbeMiss(env: Environment, site: ProbeSite)
    requires Probe(env, site.provider, site.candidate, site.extension, false).NotFound?
    ensures !HasEntry(site.provider.bundle, EntryPath(site.candidate, site.extension))
  {
  }

  lemma PrecompiledProbeMiss(env: Environment, site: ProbeSite)
    requires Probe(env, site.provider, site.candidate, site.extension, true).NotFound?
    ensures LoadClass(site.provider.bundle, env.makeJavaPackage(site.candidate)) == ClassNotFound
  {
  }

  lemma PrecompiledProbeAbort(env: Environment, site: ProbeSite, r: Lookup)
    requires r == Probe(env, site.provider, site.candidate, site.extension, true) && r.CannotInstantiate?
    ensures r.className == env.makeJavaPackage(site.candidate)
    ensures LoadClass(site.provider.bundle, r.className) == NotInstantiable
  {
  }

  /** A precompiled probe that hits returns the instance of the class its candidate names. */
  lemma PrecompiledProbeHit(env: Environment, site: ProbeSite, r: Lookup)
    requires r == Probe(env, site.provider, site.candidate, site.extension, true) && r.Found?
    ensures var lookup := LoadClass(site.provider.bundle, env.makeJavaPackage(site.candidate));
      lookup.Instantiated? && r.executable == PrecompiledScript(site.provider.bundle, EngineFor(env, site.extension), lookup.instance)
  {
  }

  /**
   * Short-circuit: once a probe is decisive (a hit or a fatal class), whatever
   * the later probes would answer does not change the outcome.
   */
  lemma FirstDecisiveIgnoresLater(rs: seq<Lookup>, i: nat, later: seq<Lookup>)
    requires i < |rs| && !rs[i].NotFound?
    requires forall j :: 0 <= j < i ==> rs[j].NotFound?
    ensures FirstDecisive(rs) == rs[i]
    ensures FirstDecisive(rs[..i + 1] + later) == rs[i]
  {
    var p := rs[..i + 1];
    FirstDecisiveAppend(p, later);
    var r := FirstDecisive(p);
    assert p[i] == rs[i];
    var k :| 0 <= k < |p| && p[k] == r && forall j :: 0 <= j < k ==> p[j].NotFound?;
    assert k == i;
    var s := FirstDecisive(rs);
    var k' :| 0 <= k' < |rs| && rs[k'] == s && forall j :: 0 <= j < k' ==> rs[j].NotFound?;
    assert k' == i;
  }

  lemma {:induction false} FlattenAppend(xss: seq<seq<string>>, ys: seq<string>)
    ensures Flatten(xss + [ys]) == Flatten(xss) + ys
  {
    if xss == [] {
      assert [] + [ys] == [ys];
      assert [ys][1..] == [];
    } else {
      assert (xss + [ys])[0] == xss[0];
      assert (xss + [ys])[1..] == xss[1..] + [ys];
      FlattenAppend(xss[1..], ys);
    }
  }

  lemma ReverseAppend<T>(a: seq<T>, b: seq<T>)
    ensures Reverse(a + b) == Reverse(b) + Reverse(a)
  {
  }

  /**
   * The extensions of a factory registered last come first, in reverse of
   * that factory's own order, ahead of every earlier factory's extensions.
   */
  lemma LaterFactoryFirst(factoryExtensions: seq<seq<string>>, last: seq<string>)
    ensures EngineExtensions(factoryExtensions + [last]) == Reverse(last) + EngineExtensions(factoryExtensions)
  {
    FlattenAppend(factoryExtensions, last);
    ReverseAppend(Flatten(factoryExtensions), last);
  }
}
