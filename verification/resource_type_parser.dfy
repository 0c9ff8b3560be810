/**
 * Parsing of resource type strings such as `a/b/c`, `a/b/c/1.0.0`, `a.b.c`,
 * `a.b.c/1.0.0` or `a` into a type, an optional version and a label.
 *
 * OSGi's `Version.parseVersion(..).toString()` is not modelled: it is the
 * parameter `parseVersion`, a partial function that yields the normalized
 * version string, or `None` where the OSGi parser throws.
 */
module ResourceTypeParser {
  import opened Optional
  import opened Strings

  /** A parsed resource type: the type without version information, and the version if there was one. */
  datatype ResourceType = ResourceType(typeName: string, version: Option<string>) {

    /** The resource label, which names the main script of the type. */
    function Label(): string
    {
      LabelOf(typeName)
    }
  }

  /** Raised (as `IllegalArgumentException`) when no type can be extracted. */
  datatype ParseError = CannotExtractType(resourceTypeString: string)

  /**
   * The label of a type: what follows its last `/`; failing that, what follows
   * its last `.`; failing that, the whole type. It may be empty (type `a/`).
   */
  function LabelOf(t: string): (r: string)
    ensures |r| <= |t| && r == t[|t| - |r|..]
    ensures '/' in t ==> '/' !in r && |r| < |t| && t[|t| - |r| - 1] == '/'
    ensures '/' !in t && '.' in t ==> '.' !in r && |r| < |t| && t[|t| - |r| - 1] == '.'
    ensures '/' !in t && '.' !in t ==> r == t
  {
    if '/' in t then AfterLast(t, '/') else AfterLast(t, '.')
  }

  /**
   * `parseResourceType`: the segment after the last `/` is taken as a version
   * when the string does not end in `/` and the segment parses; otherwise the
   * whole string is the type. An empty string, or an empty type left after
   * removing the version, is an error.
   */
  function ParseResourceType(s: string, parseVersion: string -> Option<string>): (r: Result<ResourceType, ParseError>)
    ensures s == [] ==> r.Err?
    ensures r.Err? ==> r.error == CannotExtractType(s)
    ensures r.Ok? ==> r.value.typeName != [] && r.value.typeName <= s
    ensures s != [] && '/' !in s ==> r == Ok(ResourceType(s, None))
    ensures s != [] && s[|s| - 1] == '/' ==> r == Ok(ResourceType(s, None))
    ensures r.Ok? && r.value.version.Some? ==> '/' in s && s[|s| - 1] != '/'
    ensures r.Ok? && r.value.version.None? ==> r.value.typeName == s
  {
    var (typeName, version) :=
      if s == [] then ([], None)
      else
        var lastSlash := LastIndexOf(s, '/');
        if lastSlash != -1 && s[|s| - 1] != '/' then
          match parseVersion(s[lastSlash + 1..])
          case Some(v) => (s[..lastSlash], Some(v))
          case None => (s, None)
        else (s, None);
    if typeName == [] then Err(CannotExtractType(s))
    else Ok(ResourceType(typeName, version))
  }

  /** The last `/` of `t + "/" + v` is the one between them when `v` has no `/`. */
  lemma LastSlashOfSplit(t: string, v: string)
    requires '/' !in v
    ensures LastIndexOf(t + "/" + v, '/') == |t|
  {
    var s := t + "/" + v;
    assert s[|t|] == '/';
    assert s[|t| + 1..] == v;
  }

  /**
   * A final segment that parses as a version is split off and normalized; the
   * prefix before the `/` is the type, and an empty prefix is an error.
   */
  lemma ParseVersioned(t: string, v: string, parseVersion: string -> Option<string>)
    requires v != [] && '/' !in v && parseVersion(v).Some?
    ensures ParseResourceType(t + "/" + v, parseVersion)
         == if t == [] then Err(CannotExtractType(t + "/" + v))
            else Ok(ResourceType(t, parseVersion(v)))
  {
    var s := t + "/" + v;
    LastSlashOfSplit(t, v);
    assert s[|t| + 1..] == v;
    assert s[..|t|] == t;
  }

  /**
   * A final segment that does not parse as a version is never an error: the
   * whole string is the type and there is no version.
   */
  lemma ParseUnversionedFallback(t: string, v: string, parseVersion: string -> Option<string>)
    requires v != [] && '/' !in v && parseVersion(v).None?
    ensures ParseResourceType(t + "/" + v, parseVersion) == Ok(ResourceType(t + "/" + v, None))
  {
    var s := t + "/" + v;
    LastSlashOfSplit(t, v);
    assert s[|t| + 1..] == v;
  }

  /** The label of a parsed type is a suffix of it, free of `/` whenever the type holds one. */
  lemma LabelOfParsed(s: string, parseVersion: string -> Option<string>)
    requires ParseResourceType(s, parseVersion).Ok?
    ensures var rt := ParseResourceType(s, parseVersion).value;
      && rt.Label() == rt.typeName[|rt.typeName| - |rt.Label()|..]
      && ('/' in rt.typeName ==> '/' !in rt.Label())
  {
  }

  /** The label can be empty: `a/` parses to the type `a/` with label "". */
  lemma EmptyLabel(parseVersion: string -> Option<string>)
    ensures ParseResourceType("a/", parseVersion) == Ok(ResourceType("a/", None))
    ensures ParseResourceType("a/", parseVersion).value.Label() == ""
  {
  }
}
