/**
 * `BundledScriptFinder.buildScriptMatches`: the ordered list of script names
 * tried for a request against one provider's type string, most specific first.
 *
 * The list is made of levels: one per number of selectors used, from all of
 * them down to one, then the zero-selector level. Within a level the names
 * come in a fixed priority of forms (see `Form`); the no-method forms appear
 * only for the default methods `GET` and `HEAD`, the extension forms only when
 * the request has an extension.
 */
module ScriptMatches {
  import opened Optional
  import opened Strings

  /** Methods whose scripts may omit the method name. */
  const DefaultMethods: set<string> := {"GET", "HEAD"}

  /**
   * What the finder reads from the request: its method, its selectors and its
   * extension (`""` stands for both an absent and an empty extension, which the
   * source treats alike).
   */
  datatype Request = Request(httpMethod: string, selectors: seq<string>, extension: string)

  predicate IsDefaultMethod(httpMethod: string)
  {
    httpMethod in DefaultMethods
  }

  /** A provider's type string split into a resource type and an optional version. */
  datatype TypeAndVersion = TypeAndVersion(resourceType: string, version: Option<string>)

  /**
   * The finder's own version split (independent of `ResourceTypeParser`): a type
   * string with exactly one `/` is `type/version`; any other is all type.
   */
  function SplitProviderType(providerType: string): (r: TypeAndVersion)
    ensures CountOf(providerType, '/') == 1 ==>
      && r.version.Some?
      && r.resourceType + "/" + r.version.value == providerType
      && '/' !in r.resourceType && '/' !in r.version.value
    ensures CountOf(providerType, '/') != 1 ==> r == TypeAndVersion(providerType, None)
  {
    if '/' in providerType && CountOf(providerType, '/') == 1 then
      var i := IndexOf(providerType, '/');
      var version := providerType[i + 1..];
      assert providerType == providerType[..i] + [providerType[i]] + version;
      assert multiset(providerType) == multiset(providerType[..i]) + multiset{'/'} + multiset(version);
      TypeAndVersion(providerType[..|providerType| - |version| - 1], Some(version))
    else
      TypeAndVersion(providerType, None)
  }

  /** A type string with one `/` splits at it: what precedes is the type, what follows the version. */
  lemma SplitAtSingleSlash(t: string, v: string)
    requires '/' !in t && '/' !in v
    ensures SplitProviderType(t + "/" + v) == TypeAndVersion(t, Some(v))
  {
    var s := t + "/" + v;
    SingleOccurrence(t, '/', v);
    assert s[|t|] == '/' && s[..|t|] == t;
    assert IndexOf(s, '/') == |t|;
    assert s[|t| + 1..] == v;
    assert s[..|s| - |v| - 1] == t;
  }

  /** The common prefix of every candidate: `type/version/`, or `type/` when the version is absent or empty. */
  function Base(tv: TypeAndVersion): (r: string)
    ensures tv.resourceType + "/" <= r
    ensures r[|r| - 1] == '/'
    ensures |r| == |tv.resourceType| + 1 <==> tv.version.None? || tv.version.value == []
  {
    tv.resourceType + (if tv.version.Some? && tv.version.value != [] then "/" + tv.version.value + "/" else "/")
  }

  /**
   * Splitting off a version never changes the prefix the candidates share: it
   * is the provider type followed by `/`, unless the type is `t/` with a single
   * `/`, which is its own base.
   */
  lemma BaseOfProviderType(providerType: string)
    ensures var single := CountOf(providerType, '/') == 1 && providerType[|providerType| - 1] == '/';
      Base(SplitProviderType(providerType)) == if single then providerType else providerType + "/"
  {
    var tv := SplitProviderType(providerType);
    if CountOf(providerType, '/') == 1 {
      BaseOfSplit(providerType, tv.resourceType, tv.version.value);
    }
  }

  lemma BaseOfSplit(providerType: string, t: string, v: string)
    requires providerType == t + "/" + v && '/' !in v
    ensures Base(TypeAndVersion(t, Some(v)))
         == if providerType[|providerType| - 1] == '/' then providerType else providerType + "/"
  {
    if v != [] {
      assert providerType[|providerType| - 1] == v[|v| - 1];
      assert v[|v| - 1] in v;
      assert t + "/" + v + "/" == providerType + "/";
    }
  }

  /** The four shapes a candidate can take within one level, in priority order. */
  datatype Form = NoMethodWithExtension | MethodWithExtension | NoMethod | WithMethod

  const FormsByPriority: seq<Form> := [NoMethodWithExtension, MethodWithExtension, NoMethod, WithMethod]

  /** The rank of a form in `FormsByPriority`. */
  function Priority(f: Form): nat
  {
    match f
    case NoMethodWithExtension => 0
    case MethodWithExtension => 1
    case NoMethod => 2
    case WithMethod => 3
  }

  /** `FormsByPriority` lists every form, at the index its priority names. */
  lemma EveryFormListed()
    ensures forall f :: f in FormsByPriority
  {
    forall f: Form ensures f in FormsByPriority {
      assert FormsByPriority[Priority(f)] == f;
    }
  }

  /** No-method forms need a default method; extension forms need an extension. */
  predicate Enabled(f: Form, defaultMethod: bool, hasExtension: bool)
  {
    match f
    case NoMethodWithExtension => defaultMethod && hasExtension
    case MethodWithExtension => hasExtension
    case NoMethod => defaultMethod
    case WithMethod => true
  }

  /** The enabled forms among `fs`, in their order. */
  function EnabledAmong(fs: seq<Form>, defaultMethod: bool, hasExtension: bool): seq<Form>
  {
    if fs == [] then []
    else (if Enabled(fs[0], defaultMethod, hasExtension) then [fs[0]] else []) + EnabledAmong(fs[1..], defaultMethod, hasExtension)
  }

  /** The filter keeps exactly the enabled members of `fs`. */
  lemma {:induction false} EnabledAmongMembers(fs: seq<Form>, defaultMethod: bool, hasExtension: bool)
    ensures forall f :: f in EnabledAmong(fs, defaultMethod, hasExtension) <==> f in fs && Enabled(f, defaultMethod, hasExtension)
  {
    if fs != [] {
      EnabledAmongMembers(fs[1..], defaultMethod, hasExtension);
      assert fs == [fs[0]] + fs[1..];
    }
  }

  /** Filtering a non-empty sequence keeps its head exactly when the head is enabled. */
  lemma EnabledAmongCons(f: Form, fs: seq<Form>, defaultMethod: bool, hasExtension: bool)
    ensures EnabledAmong([f] + fs, defaultMethod, hasExtension)
         == (if Enabled(f, defaultMethod, hasExtension) then [f] else []) + EnabledAmong(fs, defaultMethod, hasExtension)
  {
    assert ([f] + fs)[1..] == fs;
  }

  /** Filtering the four forms, spelled out case by case. */
  lemma EnabledAmongAllForms(defaultMethod: bool, hasExtension: bool)
    ensures var r := EnabledAmong(FormsByPriority, defaultMethod, hasExtension);
      && (defaultMethod && hasExtension ==> r == [NoMethodWithExtension, MethodWithExtension, NoMethod, WithMethod])
      && (!defaultMethod && hasExtension ==> r == [MethodWithExtension, WithMethod])
      && (defaultMethod && !hasExtension ==> r == [NoMethod, WithMethod])
      && (!defaultMethod && !hasExtension ==> r == [WithMethod])
  {
    var d, e := defaultMethod, hasExtension;
    var t1, t2, t3 := [WithMethod], [NoMethod, WithMethod], [MethodWithExtension, NoMethod, WithMethod];
    assert FormsByPriority == [NoMethodWithExtension] + t3;
    EnabledAmongCons(WithMethod, [], d, e);
    assert EnabledAmong(t1, d, e) == [WithMethod];
    EnabledAmongCons(NoMethod, t1, d, e);
    var r2 := EnabledAmong(t2, d, e);
    assert r2 == if d then [NoMethod, WithMethod] else [WithMethod];
    EnabledAmongCons(MethodWithExtension, t2, d, e);
    var r3 := EnabledAmong(t3, d, e);
    assert r3 == if e then [MethodWithExtension] + r2 else r2;
    EnabledAmongCons(NoMethodWithExtension, t3, d, e);
  }

  /** The forms present in every level, in the order they are emitted. */
  function EnabledForms(defaultMethod: bool, extension: string): (r: seq<Form>)
    ensures forall f :: f in r <==> Enabled(f, defaultMethod, extension != [])
    ensures forall i, j :: 0 <= i < j < |r| ==> Priority(r[i]) < Priority(r[j])
    ensures |r| == (if extension != [] then 2 else 1) + (if extension != [] && defaultMethod then 2 else if defaultMethod then 1 else 0)
    ensures r[|r| - 1] == WithMethod
  {
    EnabledAmongAllForms(defaultMethod, extension != []);
    EnabledAmongMembers(FormsByPriority, defaultMethod, extension != []);
    EveryFormListed();
    EnabledAmong(FormsByPriority, defaultMethod, extension != [])
  }

  /** The candidate a form denotes, given the level's no-method and method-qualified names. */
  function Render(f: Form, noMethod: string, forMethod: string, extension: string): string
  {
    match f
    case NoMethodWithExtension => noMethod + "." + extension
    case MethodWithExtension => forMethod + "." + extension
    case NoMethod => noMethod
    case WithMethod => forMethod
  }

  /** The candidates of one level, as the source emits them. */
  function Level(noMethod: string, forMethod: string, defaultMethod: bool, extension: string): (r: seq<string>)
    ensures |r| == |EnabledForms(defaultMethod, extension)|
  {
    EnabledAmongAllForms(defaultMethod, extension != []);
    (if extension != [] then
       (if defaultMethod then [noMethod + "." + extension] else []) + [forMethod + "." + extension]
     else [])
    + (if defaultMethod then [noMethod] else [])
    + [forMethod]
  }

  /** A level is exactly the enabled forms in priority order, each rendered. */
  lemma LevelRendersEnabledForms(noMethod: string, forMethod: string, defaultMethod: bool, extension: string)
    ensures var r, fs := Level(noMethod, forMethod, defaultMethod, extension), EnabledForms(defaultMethod, extension);
      forall i :: 0 <= i < |r| ==> r[i] == Render(fs[i], noMethod, forMethod, extension)
  {
    EnabledAmongAllForms(defaultMethod, extension != []);
  }

  /** The method-qualified name using the first `level` selectors (`base + method` at level 0). */
  function ForMethodName(base: string, httpMethod: string, selectors: seq<string>, level: nat): (r: string)
    requires level <= |selectors|
    ensures base + httpMethod <= r
    ensures level > 0 ==> |r| > |base + httpMethod| && r[|base + httpMethod|] == '.'
  {
    if level == 0 then base + httpMethod
    else base + httpMethod + "." + Join("/", selectors[..level])
  }

  /**
   * The no-method name using the first `level` selectors; at level 0 the type's
   * segment after its last `.` stands in for the selectors.
   */
  function NoMethodName(base: string, lastSegment: string, selectors: seq<string>, level: nat): (r: string)
    requires level <= |selectors|
    ensures base <= r
    ensures level == 0 ==> r[|base|..] == lastSegment
  {
    if level == 0 then base + lastSegment
    else base + Join("/", selectors[..level])
  }

  /**
   * One more selector extends both names of a level by `/` and that selector;
   * the first selector level appends the first selector alone.
   */
  lemma {:induction false} NextSelectorLevel(base: string, lastSegment: string, httpMethod: string, selectors: seq<string>, level: nat)
    requires level < |selectors|
    ensures level == 0 ==>
      && ForMethodName(base, httpMethod, selectors, 1) == base + httpMethod + "." + selectors[0]
      && NoMethodName(base, lastSegment, selectors, 1) == base + selectors[0]
    ensures level > 0 ==>
      && ForMethodName(base, httpMethod, selectors, level + 1) == ForMethodName(base, httpMethod, selectors, level) + "/" + selectors[level]
      && NoMethodName(base, lastSegment, selectors, level + 1) == NoMethodName(base, lastSegment, selectors, level) + "/" + selectors[level]
  {
    assert selectors[..1] == [selectors[0]];
    if level > 0 {
      assert selectors[..level + 1] == selectors[..level] + [selectors[level]];
      JoinSnoc("/", selectors[..level], selectors[level]);
    }
  }

  function LevelAt(base: string, lastSegment: string, req: Request, level: nat): seq<string>
    requires level <= |req.selectors|
  {
    Level(NoMethodName(base, lastSegment, req.selectors, level),
          ForMethodName(base, req.httpMethod, req.selectors, level),
          IsDefaultMethod(req.httpMethod), req.extension)
  }

  /** The number of candidates per level. */
  function LevelSize(req: Request): nat
  {
    |EnabledForms(IsDefaultMethod(req.httpMethod), req.extension)|
  }

  lemma PrefixOfAppend(base: string, t: string, u: string)
    ensures base <= base + t + u
  {
    assert (base + t + u)[..|base|] == base;
  }

  /** A prefix of a string is a prefix of every extension of it. */
  lemma PrefixExtends(base: string, s: string, u: string)
    requires base <= s
    ensures base <= s + u
  {
    assert (s + u)[..|base|] == s[..|base|];
  }

  /** Every name of a level extends a prefix its two names share. */
  lemma LevelExtendsPrefix(base: string, noMethod: string, forMethod: string, defaultMethod: bool, extension: string)
    requires base <= noMethod && base <= forMethod
    ensures forall c :: c in Level(noMethod, forMethod, defaultMethod, extension) ==> base <= c
  {
    PrefixExtends(base, noMethod, "." + extension);
    PrefixExtends(base, forMethod, "." + extension);
    assert noMethod + "." + extension == noMethod + ("." + extension);
    assert forMethod + "." + extension == forMethod + ("." + extension);
  }

  /** Every candidate of a level extends `base`. */
  lemma LevelAtExtendsBase(base: string, lastSegment: string, req: Request, level: nat)
    requires level <= |req.selectors|
    ensures forall c :: c in LevelAt(base, lastSegment, req, level) ==> base <= c
  {
    var forMethod := ForMethodName(base, req.httpMethod, req.selectors, level);
    assert base <= forMethod by {
      assert forMethod[..|base|] == (base + req.httpMethod)[..|base|];
    }
    LevelExtendsPrefix(base, NoMethodName(base, lastSegment, req.selectors, level), forMethod,
                       IsDefaultMethod(req.httpMethod), req.extension);
  }

  /** `a * b` by repeated addition, which keeps index arithmetic linear for the solver. */
  function Mul(a: nat, b: nat): nat
  {
    if a == 0 then 0 else b + Mul(a - 1, b)
  }

  lemma {:induction false} MulIsProduct(a: nat, b: nat)
    ensures Mul(a, b) == a * b
  {
    if a > 0 {
      MulIsProduct(a - 1, b);
    }
  }

  /** Block `a` of size `m` ends before block `b` begins when `a < b`. */
  lemma {:induction false} BlockBefore(a: nat, b: nat, m: nat, t: nat)
    requires a < b && t < m
    ensures Mul(a, m) + t < Mul(b, m)
  {
    if a + 1 < b {
      BlockBefore(a, b - 1, m, t);
    }
  }

  /** The selector loop: levels `n` down to 1. */
  function SelectorCandidates(base: string, lastSegment: string, req: Request, n: nat): (r: seq<string>)
    requires n <= |req.selectors|
    ensures |r| == Mul(n, LevelSize(req))
  {
    if n == 0 then []
    else
      LevelAt(base, lastSegment, req, n) + SelectorCandidates(base, lastSegment, req, n - 1)
  }

  /** All levels for a given base: the selector loop, then the zero-selector level. */
  function Candidates(base: string, lastSegment: string, req: Request): (r: seq<string>)
    ensures |r| == Mul(|req.selectors| + 1, LevelSize(req))
  {
    MulSucc(|req.selectors|, LevelSize(req));
    SelectorCandidates(base, lastSegment, req, |req.selectors|) + LevelAt(base, lastSegment, req, 0)
  }

  /** `buildScriptMatches(request, providerType)`. */
  function BuildScriptMatches(req: Request, providerType: string): (r: seq<string>)
    ensures |r| == Mul(|req.selectors| + 1, LevelSize(req))
    ensures forall c :: c in r ==> Base(SplitProviderType(providerType)) <= c
  {
    var tv := SplitProviderType(providerType);
    CandidatesExtendBase(Base(tv), AfterLast(tv.resourceType, '.'), req);
    Candidates(Base(tv), AfterLast(tv.resourceType, '.'), req)
  }

  lemma {:induction false} SelectorCandidatesExtendBase(base: string, lastSegment: string, req: Request, n: nat)
    requires n <= |req.selectors|
    ensures forall c :: c in SelectorCandidates(base, lastSegment, req, n) ==> base <= c
  {
    if n > 0 {
      LevelAtExtendsBase(base, lastSegment, req, n);
      SelectorCandidatesExtendBase(base, lastSegment, req, n - 1);
    }
  }

  lemma CandidatesExtendBase(base: string, lastSegment: string, req: Request)
    ensures forall c :: c in Candidates(base, lastSegment, req) ==> base <= c
  {
    LevelAtExtendsBase(base, lastSegment, req, 0);
    SelectorCandidatesExtendBase(base, lastSegment, req, |req.selectors|);
  }

  lemma {:induction false} MulSucc(a: nat, b: nat)
    ensures Mul(a + 1, b) == Mul(a, b) + b
  {
  }

  /**
   * With `k` selectors there are `k + 1` levels, each doubled by an extension
   * and doubled again by a default method.
   */
  lemma CandidateCount(req: Request, providerType: string)
    ensures |BuildScriptMatches(req, providerType)|
         == (|req.selectors| + 1) * (if req.extension != [] then 2 else 1) * (if IsDefaultMethod(req.httpMethod) then 2 else 1)
  {
    var k, a, b := |req.selectors|, (if req.extension != [] then 2 else 1), (if IsDefaultMethod(req.httpMethod) then 2 else 1);
    MulIsProduct(k + 1, a * b);
    assert (k + 1) * (a * b) == (k + 1) * a * b;
  }

  /** Where candidate `t` of the level using `level` selectors sits in the candidate list. */
  function Position(req: Request, level: nat, t: nat): nat
    requires level <= |req.selectors|
  {
    Mul(|req.selectors| - level, LevelSize(req)) + t
  }

  /** The selector loop's newest level comes first. */
  lemma SelectorCandidatesHead(base: string, lastSegment: string, req: Request, n: nat, t: nat)
    requires 1 <= n <= |req.selectors| && t < LevelSize(req)
    ensures t < |SelectorCandidates(base, lastSegment, req, n)|
    ensures SelectorCandidates(base, lastSegment, req, n)[t] == LevelAt(base, lastSegment, req, n)[t]
  {
    var head := LevelAt(base, lastSegment, req, n);
    var rest := SelectorCandidates(base, lastSegment, req, n - 1);
    assert |head| == LevelSize(req);
    assert (head + rest)[t] == head[t];
  }

  /** Behind the newest level, the selector loop continues with the levels below it. */
  lemma SelectorCandidatesTail(base: string, lastSegment: string, req: Request, n: nat, j: nat)
    requires 1 <= n <= |req.selectors| && j < Mul(n - 1, LevelSize(req))
    ensures LevelSize(req) + j < |SelectorCandidates(base, lastSegment, req, n)|
    ensures SelectorCandidates(base, lastSegment, req, n)[LevelSize(req) + j]
         == SelectorCandidates(base, lastSegment, req, n - 1)[j]
  {
    var head := LevelAt(base, lastSegment, req, n);
    var rest := SelectorCandidates(base, lastSegment, req, n - 1);
    assert |head| == LevelSize(req);
    assert (head + rest)[|head| + j] == rest[j];
  }

  lemma {:induction false} SelectorCandidatesAt(base: string, lastSegment: string, req: Request, n: nat, level: nat, t: nat)
    requires 1 <= level <= n <= |req.selectors|
    requires t < LevelSize(req)
    ensures Mul(n - level, LevelSize(req)) + t < |SelectorCandidates(base, lastSegment, req, n)|
    ensures SelectorCandidates(base, lastSegment, req, n)[Mul(n - level, LevelSize(req)) + t]
         == LevelAt(base, lastSegment, req, level)[t]
  {
    var m := LevelSize(req);
    if level < n {
      SelectorCandidatesAt(base, lastSegment, req, n - 1, level, t);
      var j := Mul(n - 1 - level, m) + t;
      SelectorCandidatesTail(base, lastSegment, req, n, j);
      MulSucc(n - 1 - level, m);
      assert Mul(n - level, m) + t == m + j;
    } else {
      SelectorCandidatesHead(base, lastSegment, req, n, t);
    }
  }

  lemma {:induction false} CandidatesAt(base: string, lastSegment: string, req: Request, level: nat, t: nat)
    requires level <= |req.selectors| && t < LevelSize(req)
    ensures Position(req, level, t) < |Candidates(base, lastSegment, req)|
    ensures Candidates(base, lastSegment, req)[Position(req, level, t)] == LevelAt(base, lastSegment, req, level)[t]
  {
    var k, m := |req.selectors|, LevelSize(req);
    var sel := SelectorCandidates(base, lastSegment, req, k);
    var zero := LevelAt(base, lastSegment, req, 0);
    assert Candidates(base, lastSegment, req) == sel + zero;
    if level > 0 {
      SelectorCandidatesAt(base, lastSegment, req, k, level, t);
      assert Position(req, level, t) == Mul(k - level, m) + t;
      assert (sel + zero)[Position(req, level, t)] == sel[Position(req, level, t)];
    } else {
      assert Position(req, level, t) == |sel| + t;
      assert (sel + zero)[|sel| + t] == zero[t];
    }
  }

  /**
   * Closed form of the candidate list: the levels follow one another from all
   * `k` selectors down to none, each a contiguous block of `L` candidates, so
   * candidate `t` of level `level` sits at `(k - level) * L + t`.
   */
  lemma MatchAt(req: Request, providerType: string, level: nat, t: nat)
    requires level <= |req.selectors| && t < LevelSize(req)
    ensures Position(req, level, t) < |BuildScriptMatches(req, providerType)|
    ensures var tv := SplitProviderType(providerType);
      BuildScriptMatches(req, providerType)[Position(req, level, t)]
      == LevelAt(Base(tv), AfterLast(tv.resourceType, '.'), req, level)[t]
  {
    var tv := SplitProviderType(providerType);
    CandidatesAt(Base(tv), AfterLast(tv.resourceType, '.'), req, level, t);
  }

  /** The last candidate is always the method-qualified zero-selector name, `base + method`. */
  lemma LastIsMethodName(req: Request, providerType: string)
    ensures var r := BuildScriptMatches(req, providerType);
      |r| > 0 && r[|r| - 1] == Base(SplitProviderType(providerType)) + req.httpMethod
  {
    var tv := SplitProviderType(providerType);
    var r, m := BuildScriptMatches(req, providerType), LevelSize(req);
    MatchAt(req, providerType, 0, m - 1);
    MulSucc(|req.selectors|, m);
    assert Position(req, 0, m - 1) == |r| - 1;
    LevelEndsWithMethodName(Base(tv), AfterLast(tv.resourceType, '.'), req, 0);
    assert ForMethodName(Base(tv), req.httpMethod, req.selectors, 0) == Base(tv) + req.httpMethod;
  }

  /** Every level ends with its method-qualified name. */
  lemma LevelEndsWithMethodName(base: string, lastSegment: string, req: Request, level: nat)
    requires level <= |req.selectors|
    ensures var r := LevelAt(base, lastSegment, req, level);
      |r| == LevelSize(req) && r[|r| - 1] == ForMethodName(base, req.httpMethod, req.selectors, level)
  {
    var d := IsDefaultMethod(req.httpMethod);
    LevelRendersEnabledForms(NoMethodName(base, lastSegment, req.selectors, level),
                             ForMethodName(base, req.httpMethod, req.selectors, level), d, req.extension);
  }

  /**
   * The list is ordered by level, most selectors first, and within a level by
   * form priority: a candidate using more selectors always precedes one using
   * fewer, including every zero-selector candidate.
   */
  lemma MoreSelectorsFirst(req: Request, providerType: string, level1: nat, t1: nat, level2: nat, t2: nat)
    requires level2 < level1 <= |req.selectors|
    requires t1 < LevelSize(req) && t2 < LevelSize(req)
    ensures Position(req, level1, t1) < Position(req, level2, t2) < |BuildScriptMatches(req, providerType)|
    ensures var tv, r := SplitProviderType(providerType), BuildScriptMatches(req, providerType);
      && r[Position(req, level1, t1)] == LevelAt(Base(tv), AfterLast(tv.resourceType, '.'), req, level1)[t1]
      && r[Position(req, level2, t2)] == LevelAt(Base(tv), AfterLast(tv.resourceType, '.'), req, level2)[t2]
  {
    PositionsByLevel(req, level1, t1, level2, t2);
    MatchAt(req, providerType, level1, t1);
    MatchAt(req, providerType, level2, t2);
  }

  lemma PositionsByLevel(req: Request, level1: nat, t1: nat, level2: nat, t2: nat)
    requires level2 < level1 <= |req.selectors|
    requires t1 < LevelSize(req) && t2 < LevelSize(req)
    ensures Position(req, level1, t1) < Position(req, level2, t2)
  {
    BlockBefore(|req.selectors| - level1, |req.selectors| - level2, LevelSize(req), t1);
  }

  /**
   * Only `GET` and `HEAD` yield no-method candidates: for any other method each
   * candidate is the method-qualified name of its level, with or without the
   * extension.
   */
  lemma NonDefaultMethodQualified(req: Request, providerType: string, level: nat, t: nat)
    requires !IsDefaultMethod(req.httpMethod)
    requires level <= |req.selectors| && t < LevelSize(req)
    ensures Position(req, level, t) < |BuildScriptMatches(req, providerType)|
    ensures var tv := SplitProviderType(providerType);
      var forMethod := ForMethodName(Base(tv), req.httpMethod, req.selectors, level);
      var c := BuildScriptMatches(req, providerType)[Position(req, level, t)];
      c == forMethod || (req.extension != [] && c == forMethod + "." + req.extension)
  {
    var tv := SplitProviderType(providerType);
    MatchAt(req, providerType, level, t);
    NonDefaultLevel(Base(tv), AfterLast(tv.resourceType, '.'), req, level, t);
  }

  /** Without a default method a level holds only its method-qualified name, bare or with the extension. */
  lemma NonDefaultLevel(base: string, lastSegment: string, req: Request, level: nat, t: nat)
    requires !IsDefaultMethod(req.httpMethod)
    requires level <= |req.selectors| && t < LevelSize(req)
    ensures var forMethod := ForMethodName(base, req.httpMethod, req.selectors, level);
      var c := LevelAt(base, lastSegment, req, level)[t];
      c == forMethod || (req.extension != [] && c == forMethod + "." + req.extension)
  {
    var noMethod := NoMethodName(base, lastSegment, req.selectors, level);
    var forMethod := ForMethodName(base, req.httpMethod, req.selectors, level);
    LevelRendersEnabledForms(noMethod, forMethod, false, req.extension);
    EnabledAmongAllForms(false, req.extension != []);
  }

  /**
   * For `GET` and `HEAD` every level has its no-method candidate; at level 0 it
   * is the base followed by the type's segment after its last `.`.
   */
  lemma DefaultMethodNoMethodName(req: Request, providerType: string, level: nat)
    requires IsDefaultMethod(req.httpMethod)
    requires level <= |req.selectors|
    ensures var tv := SplitProviderType(providerType);
      NoMethodName(Base(tv), AfterLast(tv.resourceType, '.'), req.selectors, level) in BuildScriptMatches(req, providerType)
    ensures var tv := SplitProviderType(providerType);
      Base(tv) + AfterLast(tv.resourceType, '.') in BuildScriptMatches(req, providerType)
  {
    var tv := SplitProviderType(providerType);
    var base, lastSegment := Base(tv), AfterLast(tv.resourceType, '.');
    var fs := EnabledForms(true, req.extension);
    assert NoMethod in fs;
    var t :| 0 <= t < |fs| && fs[t] == NoMethod;
    NoMethodAt(req, providerType, level, t);
    NoMethodAt(req, providerType, 0, t);
  }

  lemma NoMethodAt(req: Request, providerType: string, level: nat, t: nat)
    requires IsDefaultMethod(req.httpMethod)
    requires level <= |req.selectors| && t < LevelSize(req)
    requires EnabledForms(true, req.extension)[t] == NoMethod
    ensures var tv := SplitProviderType(providerType);
      NoMethodName(Base(tv), AfterLast(tv.resourceType, '.'), req.selectors, level) in BuildScriptMatches(req, providerType)
  {
    var tv := SplitProviderType(providerType);
    var base, lastSegment := Base(tv), AfterLast(tv.resourceType, '.');
    var noMethod := NoMethodName(base, lastSegment, req.selectors, level);
    var forMethod := ForMethodName(base, req.httpMethod, req.selectors, level);
    MatchAt(req, providerType, level, t);
    LevelRendersEnabledForms(noMethod, forMethod, true, req.extension);
    assert BuildScriptMatches(req, providerType)[Position(req, level, t)] == noMethod;
  }
}
