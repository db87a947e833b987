/** `transform_openapi`: the published document, what it keeps, and when repeating it changes nothing. */
module OpenApiTransform {
  import opened Outcomes
  import opened OpenApi
  import opened Text

  /** The parts of a document the transformation reads; the rest of its output is constant. */
  datatype Spec = Spec(
    openapi: Option<Json>,
    version: Option<Json>,
    paths: map<string, map<string, Json>>,
    schemas: Schemas)

  const PUBLIC_TAG := "public"

  const BEARER := Arr([Obj(map["BearerAuth" := Arr([])])])

  predicate OccursAt(text: string, part: string, i: nat) {
    i + |part| <= |text| && text[i..i + |part|] == part
  }

  predicate Contains(text: string, part: string) {
    exists i: nat :: i <= |text| && OccursAt(text, part, i)
  }

  /** `PUBLIC_TAG in method_data.get("tags", [])` on a dictionary; other values are skipped. */
  predicate IsPublic(endpoint: Json) {
    && endpoint.Obj?
    && "tags" in endpoint.fields
    && match endpoint.fields["tags"]
       case Arr(items) => Str(PUBLIC_TAG) in items
       case Str(text) => Contains(text, PUBLIC_TAG)
       case Obj(fields) => PUBLIC_TAG in fields
       case _ => false
  }

  predicate IsInternalParameter(p: Json) {
    p.Obj? && "name" in p.fields && IsInternal(p.fields["name"])
  }

  function PublicParameters(items: seq<Json>): (r: seq<Json>)
    ensures forall x | x in r :: x in items && !IsInternalParameter(x)
    ensures (forall x | x in items :: !IsInternalParameter(x)) ==> r == items
  {
    if items == [] then []
    else
      var last := |items| - 1;
      assert items[last] in items && forall x | x in items[..last] :: x in items;
      PublicParameters(items[..last]) + (if IsInternalParameter(items[last]) then [] else [items[last]])
  }

  function Secured(fields: map<string, Json>): map<string, Json> {
    if "security" in fields then fields["security" := BEARER] else fields
  }

  function WithoutParameters(fields: map<string, Json>): map<string, Json> {
    if "parameters" in fields && fields["parameters"].Arr? then
      var kept := PublicParameters(fields["parameters"].items);
      if kept == [] then fields - {"parameters"} else fields["parameters" := Arr(kept)]
    else fields
  }

  function CleanEndpoint(endpoint: Json): Json {
    if endpoint.Obj? then Obj(WithoutParameters(Secured(endpoint.fields))) else endpoint
  }

  ghost predicate RefersFromEndpoint(s: Spec, path: string, verb: string, name: string) {
    path in s.paths && verb in s.paths[path] && IsPublic(s.paths[path][verb]) && name in Refs(s.paths[path][verb])
  }

  /** The schema names the public endpoints mention. */
  ghost function InitialRefs(s: Spec): set<string> {
    set path, verb, name | path in s.paths.Keys && verb in s.paths[path].Keys && IsPublic(s.paths[path][verb])
                           && name in Refs(s.paths[path][verb]) :: name
  }

  lemma {:induction false} InitialRefsMember(s: Spec, name: string)
    ensures name in InitialRefs(s) <==> exists path, verb :: RefersFromEndpoint(s, path, verb, name)
  {
    if name in InitialRefs(s) {
      var path, verb :| path in s.paths.Keys && verb in s.paths[path].Keys && IsPublic(s.paths[path][verb])
                        && name in Refs(s.paths[path][verb]);
      assert RefersFromEndpoint(s, path, verb, name);
    }
  }

  function PublicVerbs(endpoints: map<string, Json>): set<string> {
    set verb | verb in endpoints.Keys && IsPublic(endpoints[verb])
  }

  function CleanPath(endpoints: map<string, Json>): map<string, Json> {
    map verb | verb in PublicVerbs(endpoints) :: CleanEndpoint(endpoints[verb])
  }

  function CleanPaths(paths: map<string, map<string, Json>>): map<string, map<string, Json>> {
    map path | path in paths.Keys && PublicVerbs(paths[path]) != {} :: CleanPath(paths[path])
  }

  /** The published document. */
  ghost function Transformed(s: Spec): Spec {
    Spec(
      if s.openapi.Some? then s.openapi else Some(Str("3.1.0")),
      if s.version.Some? then s.version else Some(Str("1.0.0")),
      CleanPaths(s.paths),
      map name | name in s.schemas.Keys && Reachable(s.schemas, InitialRefs(s), name) :: CleanSchema(s.schemas[name]))
  }

  // ---------------------------------------------------------------- the imperative transformation

  /** The walk only ever meets string references. */
  ghost predicate Walkable(s: Spec) {
    && (forall path, verb | path in s.paths && verb in s.paths[path] && IsPublic(s.paths[path][verb]) ::
          RefsAreStrings(s.paths[path][verb]))
    && (forall n | n in s.schemas && Reachable(s.schemas, InitialRefs(s), n) :: RefsAreStrings(s.schemas[n]))
  }

  ghost predicate UnderVerbs(endpoints: map<string, Json>, verbs: set<string>, name: string) {
    exists verb :: verb in verbs && verb in endpoints && IsPublic(endpoints[verb]) && name in Refs(endpoints[verb])
  }

  /** The verbs of `done` that are public have been copied and cleaned. */
  ghost predicate VerbsCopied(endpoints: map<string, Json>, done: set<string>, out: map<string, Json>) {
    && (forall verb :: verb in out <==> verb in done && verb in endpoints && IsPublic(endpoints[verb]))
    && (forall verb | verb in out && verb in endpoints :: out[verb] == CleanEndpoint(endpoints[verb]))
  }

  ghost predicate VerbRefs(endpoints: map<string, Json>, done: set<string>, before: set<string>, refs: set<string>) {
    forall name :: name in refs <==> name in before || UnderVerbs(endpoints, done, name)
  }

  lemma {:induction false} OneVerbMore(endpoints: map<string, Json>, done: set<string>, verb: string,
                                       before: set<string>, refs: set<string>)
    requires verb in endpoints && VerbRefs(endpoints, done, before, refs)
    ensures VerbRefs(endpoints, done + {verb}, before, if IsPublic(endpoints[verb]) then refs + Refs(endpoints[verb])
                else refs)
  {
    forall name
      ensures UnderVerbs(endpoints, done + {verb}, name)
          <==> UnderVerbs(endpoints, done, name) || (IsPublic(endpoints[verb]) && name in Refs(endpoints[verb]))
    {
      if UnderVerbs(endpoints, done, name) {
        var v :| v in done && v in endpoints && IsPublic(endpoints[v]) && name in Refs(endpoints[v]);
        assert v in done + {verb};
      }
      if IsPublic(endpoints[verb]) && name in Refs(endpoints[verb]) {
        assert verb in done + {verb};
      }
    }
  }

  lemma {:induction false} VerbsAllCopied(endpoints: map<string, Json>, out: map<string, Json>)
    requires VerbsCopied(endpoints, endpoints.Keys, out)
    ensures out == CleanPath(endpoints)
  {
  }

  method CopyPath(endpoints: map<string, Json>, refs: set<string>) returns (out: map<string, Json>, refs': set<string>)
    requires forall verb | verb in endpoints && IsPublic(endpoints[verb]) :: RefsAreStrings(endpoints[verb])
    ensures out == CleanPath(endpoints)
    ensures forall name :: name in refs' <==> name in refs || UnderVerbs(endpoints, endpoints.Keys, name)
  {
    out, refs' := map[], refs;
    var verbs := endpoints.Keys;
    ghost var done: set<string> := {};
    while verbs != {}
      invariant verbs + done == endpoints.Keys
      invariant VerbsCopied(endpoints, done, out)
      invariant VerbRefs(endpoints, done, refs, refs')
      decreases verbs
    {
      var verb :| verb in verbs;
      OneVerbMore(endpoints, done, verb, refs, refs');
      if IsPublic(endpoints[verb]) {
        out := out[verb := CleanEndpoint(endpoints[verb])];
        refs' := CollectSchemaRefs(endpoints[verb], refs');
      }
      verbs, done := verbs - {verb}, done + {verb};
    }
    VerbsAllCopied(endpoints, out);
  }

  ghost predicate UnderPaths(s: Spec, paths: set<string>, name: string) {
    exists path, verb :: path in paths && RefersFromEndpoint(s, path, verb, name)
  }

  /** The paths of `done` with a public endpoint have been copied. */
  ghost predicate PathsCopied(paths: map<string, map<string, Json>>, done: set<string>,
                              out: map<string, map<string, Json>>) {
    && (forall path :: path in out <==> path in done && path in paths && PublicVerbs(paths[path]) != {})
    && (forall path | path in out && path in paths :: out[path] == CleanPath(paths[path]))
  }

  lemma {:induction false} OnePathCopied(paths: map<string, map<string, Json>>, done: set<string>,
                                         out: map<string, map<string, Json>>,
                      path: string, copied: map<string, Json>)
    requires PathsCopied(paths, done, out) && path in paths && copied == CleanPath(paths[path])
    ensures PathsCopied(paths, done + {path}, if copied != map[] then out[path := copied] else out)
  {
    CopiedIsEmpty(paths[path]);
  }

  lemma {:induction false} PathsAllCopied(paths: map<string, map<string, Json>>, out: map<string, map<string, Json>>)
    requires PathsCopied(paths, paths.Keys, out)
    ensures out == CleanPaths(paths)
  {
  }

  ghost predicate PathRefs(s: Spec, done: set<string>, refs: set<string>) {
    forall name :: name in refs <==> UnderPaths(s, done, name)
  }

  lemma {:induction false} AllPathRefs(s: Spec, refs: set<string>)
    requires PathRefs(s, s.paths.Keys, refs)
    ensures refs == InitialRefs(s)
  {
    forall name ensures name in refs <==> name in InitialRefs(s) {
      InitialRefsMember(s, name);
    }
  }

  method CopyPaths(s: Spec) returns (out: map<string, map<string, Json>>, refs: set<string>)
    requires Walkable(s)
    ensures out == CleanPaths(s.paths)
    ensures refs == InitialRefs(s)
  {
    out, refs := map[], {};
    var paths := s.paths.Keys;
    ghost var done: set<string> := {};
    while paths != {}
      invariant paths + done == s.paths.Keys
      invariant PathsCopied(s.paths, done, out)
      invariant PathRefs(s, done, refs)
      decreases paths
    {
      var path :| path in paths;
      var copied, found := CopyPath(s.paths[path], refs);
      RefsAfterPath(s, done, path, refs, found);
      refs := found;
      OnePathCopied(s.paths, done, out, path, copied);
      if copied != map[] {
        out := out[path := copied];
      }
      paths, done := paths - {path}, done + {path};
    }
    PathsAllCopied(s.paths, out);
    AllPathRefs(s, refs);
  }

  lemma {:induction false} CopiedIsEmpty(endpoints: map<string, Json>)
    ensures CleanPath(endpoints) == map[] <==> PublicVerbs(endpoints) == {}
  {
    assert CleanPath(endpoints).Keys == PublicVerbs(endpoints);
  }

  lemma {:induction false} RefsAfterPath(s: Spec, done: set<string>, path: string, refs: set<string>,
                                         found: set<string>)
    requires path in s.paths
    requires PathRefs(s, done, refs)
    requires forall name :: name in found <==> name in refs || UnderVerbs(s.paths[path], s.paths[path].Keys, name)
    ensures PathRefs(s, done + {path}, found)
  {
    forall name ensures name in found <==> UnderPaths(s, done + {path}, name) {
      OnePathMore(s, done, path, name);
    }
  }

  lemma {:induction false} OnePathMore(s: Spec, paths: set<string>, path: string, name: string)
    requires path in s.paths
    ensures UnderPaths(s, paths + {path}, name)
        <==> UnderPaths(s, paths, name) || UnderVerbs(s.paths[path], s.paths[path].Keys, name)
  {
    if UnderVerbs(s.paths[path], s.paths[path].Keys, name) {
      var verb :| verb in s.paths[path] && IsPublic(s.paths[path][verb]) && name in Refs(s.paths[path][verb]);
      assert RefersFromEndpoint(s, path, verb, name);
    }
  }

  method TransformOpenApi(s: Spec) returns (out: Spec)
    requires Walkable(s)
    ensures out == Transformed(s)
  {
    var paths, refs := CopyPaths(s);
    var all := GetAllReferencedSchemas(s.schemas, refs);
    var schemas: Schemas := map[];
    var names := all;
    while names != {}
      invariant names <= all
      invariant schemas.Keys == (all - names) * s.schemas.Keys
      invariant forall n | n in schemas :: schemas[n] == CleanSchema(s.schemas[n])
      decreases names
    {
      var name :| name in names;
      if name in s.schemas {
        var cleaned := RemoveInternalProperties(s.schemas[name]);
        schemas := schemas[name := cleaned];
      }
      names := names - {name};
    }
    assert schemas == Transformed(s).schemas;
    out := Spec(
      if s.openapi.Some? then s.openapi else Some(Str("3.1.0")),
      if s.version.Some? then s.version else Some(Str("1.0.0")),
      paths, schemas);
  }

  // ---------------------------------------------------------------- what is kept

  lemma {:induction false} ParametersOnlyRemoveRefs(fields: map<string, Json>, r: string)
    requires r in Refs(Obj(WithoutParameters(fields)))
    ensures r in Refs(Obj(fields))
  {
    var after := WithoutParameters(fields);
    RefsOfObject(fields, r);
    RefsOfObject(after, r);
    if r !in OwnRef(after) {
      var k :| k in after.Keys && r in Refs(after[k]);
      if after[k] != fields[k] {
        RefsOfArray(fields[k].items, r);
        RefsOfArray(after[k].items, r);
        var i :| 0 <= i < |after[k].items| && r in Refs(after[k].items[i]);
        assert after[k].items[i] in fields[k].items;
      }
      assert UnderKeys(fields, fields.Keys, r);
    } else {
      assert REF != "parameters" by { assert |REF| == 4; }
    }
  }

  lemma {:induction false} BearerHasNoRefs(r: string)
    ensures r !in Refs(BEARER)
  {
    var holder := map["BearerAuth" := Arr([])];
    RefsOfArray([Obj(holder)], r);
    RefsOfObject(holder, r);
    RefsOfArray([], r);
    assert REF != "BearerAuth" by { assert |REF| == 4; }
  }

  lemma {:induction false} SecurityOnlyRemovesRefs(fields: map<string, Json>, r: string)
    requires r in Refs(Obj(Secured(fields)))
    ensures r in Refs(Obj(fields))
  {
    var after := Secured(fields);
    RefsOfObject(fields, r);
    RefsOfObject(after, r);
    BearerHasNoRefs(r);
    assert REF != "security" by { assert |REF| == 4; }
    if r !in OwnRef(after) {
      var k :| k in after.Keys && r in Refs(after[k]);
      assert UnderKeys(fields, fields.Keys, r);
    }
  }

  lemma {:induction false} EndpointOnlyRemovesRefs(endpoint: Json, r: string)
    requires r in Refs(CleanEndpoint(endpoint))
    ensures r in Refs(endpoint)
  {
    if endpoint.Obj? {
      ParametersOnlyRemoveRefs(Secured(endpoint.fields), r);
      SecurityOnlyRemovesRefs(endpoint.fields, r);
    }
  }

  /** A reference that occurs somewhere in a published document. */
  ghost predicate Mentions(s: Spec, r: string) {
    || (exists path, verb :: path in s.paths && verb in s.paths[path] && r in Refs(s.paths[path][verb]))
    || (exists n :: n in s.schemas && r in Refs(s.schemas[n]))
  }

  /** Every reference left in the output that the input defined is still defined. */
  lemma {:induction false} RefsStillResolve(s: Spec, r: string)
    ensures Mentions(Transformed(s), r) && r in s.schemas ==> r in Transformed(s).schemas
  {
    var out := Transformed(s);
    if n :| n in out.schemas && r in Refs(out.schemas[n]) {
      CleaningOnlyRemovesRefs(s.schemas[n], r);
      ReachableStep(s.schemas, InitialRefs(s), n, r);
    } else if path, verb :| path in out.paths && verb in out.paths[path] && r in Refs(out.paths[path][verb]) {
      EndpointOnlyRemovesRefs(s.paths[path][verb], r);
      assert RefersFromEndpoint(s, path, verb, r);
      InitialRefsMember(s, r);
      ReachableStart(s.schemas, InitialRefs(s), r);
    }
  }

  /** What is kept is exactly what a public endpoint leads to and the input defines. */
  lemma {:induction false} KeptIsReachable(s: Spec, name: string)
    ensures name in Transformed(s).schemas <==> name in s.schemas && Reachable(s.schemas, InitialRefs(s), name)
    ensures forall path, verb :: path in Transformed(s).paths && verb in Transformed(s).paths[path]
              <==> path in s.paths && verb in s.paths[path] && IsPublic(s.paths[path][verb])
    ensures forall path :: path in Transformed(s).paths
              <==> path in s.paths && exists verb :: verb in s.paths[path] && IsPublic(s.paths[path][verb])
    ensures Transformed(s).openapi == if s.openapi.Some? then s.openapi else Some(Str("3.1.0"))
    ensures Transformed(s).version == if s.version.Some? then s.version else Some(Str("1.0.0"))
  {
    forall path, verb
      ensures path in Transformed(s).paths && verb in Transformed(s).paths[path]
         <==> path in s.paths && verb in s.paths[path] && IsPublic(s.paths[path][verb])
    {
      if path in s.paths && verb in s.paths[path] && IsPublic(s.paths[path][verb]) {
        assert verb in PublicVerbs(s.paths[path]);
      }
    }
    forall path
      ensures path in Transformed(s).paths
         <==> path in s.paths && exists verb :: verb in s.paths[path] && IsPublic(s.paths[path][verb])
    {
      if path in s.paths && exists verb :: verb in s.paths[path] && IsPublic(s.paths[path][verb]) {
        var verb :| verb in s.paths[path] && IsPublic(s.paths[path][verb]);
        assert verb in PublicVerbs(s.paths[path]);
      }
    }
  }

  // ---------------------------------------------------------------- repeating it

  lemma {:induction false} KeysDiffer()
    ensures "tags" != "security" && "tags" != "parameters" && "security" != "parameters"
  {
    assert |"tags"| == 4 && |"security"| == 8 && |"parameters"| == 10;
  }

  lemma {:induction false} ParametersAreStable(fields: map<string, Json>)
    ensures WithoutParameters(WithoutParameters(fields)) == WithoutParameters(fields)
    ensures forall k | k != "parameters" ::
              (k in WithoutParameters(fields) <==> k in fields)
                  && (k in fields ==> WithoutParameters(fields)[k] == fields[k])
  {}

  lemma {:induction false} EndpointStaysPublic(endpoint: Json)
    requires IsPublic(endpoint)
    ensures IsPublic(CleanEndpoint(endpoint))
    ensures CleanEndpoint(CleanEndpoint(endpoint)) == CleanEndpoint(endpoint)
  {
    KeysDiffer();
    var secured := Secured(endpoint.fields);
    ParametersAreStable(secured);
    var once := WithoutParameters(secured);
    assert once["tags"] == endpoint.fields["tags"];
    assert Secured(once) == once by {
      if "security" in once { assert once["security"] == BEARER; }
    }
  }

  lemma {:induction false} PathIsStable(endpoints: map<string, Json>)
    ensures PublicVerbs(CleanPath(endpoints)) == PublicVerbs(endpoints)
    ensures CleanPath(CleanPath(endpoints)) == CleanPath(endpoints)
  {
    var once := CleanPath(endpoints);
    forall verb | verb in once
      ensures IsPublic(once[verb]) && CleanEndpoint(once[verb]) == once[verb]
    {
      EndpointStaysPublic(endpoints[verb]);
    }
    assert PublicVerbs(once) == once.Keys;
  }

  /** The paths of a published document are a fixed point. */
  lemma {:induction false} PathsAreStable(paths: map<string, map<string, Json>>)
    ensures CleanPaths(CleanPaths(paths)) == CleanPaths(paths)
  {
    var once := CleanPaths(paths);
    forall path | path in once
      ensures PublicVerbs(once[path]) != {} && CleanPath(once[path]) == once[path]
    {
      PathIsStable(paths[path]);
    }
    StablePathsStay(once);
  }

  lemma {:induction false} StablePathsStay(once: map<string, map<string, Json>>)
    requires forall path | path in once :: PublicVerbs(once[path]) != {} && CleanPath(once[path]) == once[path]
    ensures CleanPaths(once) == once
  {
  }

  /** Nothing is left in a published document that its own endpoints do not lead to. */
  ghost predicate NoOrphans(t: Spec) {
    forall n | n in t.schemas :: Reachable(t.schemas, InitialRefs(t), n)
  }

  lemma {:induction false} SchemasAreClean(s: Spec, n: string)
    requires n in Transformed(s).schemas
    ensures CleanSchema(Transformed(s).schemas[n]) == Transformed(s).schemas[n]
  {
    CleaningIsIdempotent(s.schemas[n]);
  }

  lemma {:induction false} SecondPassRestricts(s: Spec, n: string)
    ensures n in Transformed(Transformed(s)).schemas
        <==> n in Transformed(s).schemas && Reachable(Transformed(s).schemas, InitialRefs(Transformed(s)), n)
    ensures n in Transformed(Transformed(s)).schemas
            ==> Transformed(Transformed(s)).schemas[n] == Transformed(s).schemas[n]
  {
    if n in Transformed(s).schemas { SchemasAreClean(s, n); }
  }

  lemma {:induction false} RestIsStable(s: Spec)
    ensures Transformed(Transformed(s)).openapi == Transformed(s).openapi
    ensures Transformed(Transformed(s)).version == Transformed(s).version
    ensures Transformed(Transformed(s)).paths == Transformed(s).paths
  {
    PathsAreStable(s.paths);
  }

  lemma {:induction false} NoOrphansKeepsAll(s: Spec)
    requires NoOrphans(Transformed(s))
    ensures Transformed(Transformed(s)).schemas == Transformed(s).schemas
  {
    forall n
      ensures SameEntry(Transformed(s).schemas, Transformed(Transformed(s)).schemas, n)
    {
      SecondPassRestricts(s, n);
      if n in Transformed(s).schemas { assert Reachable(Transformed(s).schemas, InitialRefs(Transformed(s)), n); }
    }
    SameEverywhere(Transformed(s).schemas, Transformed(Transformed(s)).schemas);
  }

  ghost predicate SameEntry(t: Schemas, u: Schemas, n: string) {
    (n in u <==> n in t) && (n in u && n in t ==> u[n] == t[n])
  }

  lemma {:induction false} SameEverywhere(t: Schemas, u: Schemas)
    requires forall n :: SameEntry(t, u, n)
    ensures u == t
  {
    forall n
      ensures n in u <==> n in t
      ensures n in u ==> u[n] == t[n]
    {
      assert SameEntry(t, u, n);
    }
  }

  /** Publishing a published document again changes nothing exactly when it has no orphaned schema. */
  lemma {:induction false} StableIffNoOrphans(s: Spec)
    ensures Transformed(Transformed(s)) == Transformed(s) <==> NoOrphans(Transformed(s))
  {
    RestIsStable(s);
    if NoOrphans(Transformed(s)) {
      NoOrphansKeepsAll(s);
    } else {
      var n :| n in Transformed(s).schemas && !Reachable(Transformed(s).schemas, InitialRefs(Transformed(s)), n);
      SecondPassRestricts(s, n);
    }
  }

  /** All schemas of the document, cleaned. */
  function CleanedSchemas(s: Spec): Schemas { map n | n in s.schemas.Keys :: CleanSchema(s.schemas[n]) }

  ghost predicate RefersCleaned(s: Spec, path: string, verb: string, name: string) {
    && path in s.paths && verb in s.paths[path] && IsPublic(s.paths[path][verb])
    && name in Refs(CleanEndpoint(s.paths[path][verb]))
  }

  /** The schema names the public endpoints still mention once they are cleaned. */
  ghost function CleanedRefs(s: Spec): set<string> {
    set name | name in InitialRefs(s) && exists path, verb :: RefersCleaned(s, path, verb, name)
  }

  /** Those are the names the published document starts from. */
  lemma {:induction false} CleanedRefsStart(s: Spec)
    ensures InitialRefs(Transformed(s)) == CleanedRefs(s)
  {
    var t := Transformed(s);
    forall name
      ensures name in InitialRefs(t) <==> name in CleanedRefs(s)
    {
      InitialRefsMember(s, name);
      InitialRefsMember(t, name);
      KeptIsReachable(s, name);
      if path, verb :| RefersFromEndpoint(t, path, verb, name) {
        EndpointOnlyRemovesRefs(s.paths[path][verb], name);
        assert RefersFromEndpoint(s, path, verb, name) && RefersCleaned(s, path, verb, name);
      }
      if path, verb :| RefersCleaned(s, path, verb, name) {
        EndpointStaysPublic(s.paths[path][verb]);
        EndpointIsCleaned(s, path, verb);
        assert RefersFromEndpoint(t, path, verb, name);
      }
    }
  }

  lemma {:induction false} EndpointIsCleaned(s: Spec, path: string, verb: string)
    requires path in s.paths && verb in s.paths[path] && IsPublic(s.paths[path][verb])
    ensures path in Transformed(s).paths && verb in Transformed(s).paths[path]
    ensures Transformed(s).paths[path][verb] == CleanEndpoint(s.paths[path][verb])
  {
    assert verb in PublicVerbs(s.paths[path]);
  }

  /** Every path among the cleaned schemas is one among the published ones, and leads only to reachable names. */
  lemma {:induction false} CleanedPath(s: Spec, path: seq<string>)
    requires IsPath(CleanedSchemas(s), CleanedRefs(s), path)
    ensures IsPath(Transformed(s).schemas, CleanedRefs(s), path)
    ensures Reachable(s.schemas, InitialRefs(s), path[|path| - 1])
  {
    var last := |path| - 1;
    if last == 0 {
      ReachableStart(s.schemas, InitialRefs(s), path[0]);
    } else {
      var shorter := path[..last];
      CleanedPath(s, shorter);
      assert Edge(CleanedSchemas(s), path[last - 1], path[last]);
      KeptIsReachable(s, path[last - 1]);
      CleaningOnlyRemovesRefs(s.schemas[path[last - 1]], path[last]);
      ReachableStep(s.schemas, InitialRefs(s), path[last - 1], path[last]);
      forall i | 0 <= i < last
        ensures Edge(Transformed(s).schemas, path[i], path[i + 1])
      {
        assert i < last - 1 ==> Edge(Transformed(s).schemas, shorter[i], shorter[i + 1]);
      }
    }
  }

  lemma {:induction false} PublishedReach(s: Spec, name: string)
    ensures Reachable(Transformed(s).schemas, CleanedRefs(s), name) <==>
              Reachable(CleanedSchemas(s), CleanedRefs(s), name)
  {
    if path :| PathTo(CleanedSchemas(s), CleanedRefs(s), path, name) {
      CleanedPath(s, path);
      assert PathTo(Transformed(s).schemas, CleanedRefs(s), path, name);
    }
    if path :| PathTo(Transformed(s).schemas, CleanedRefs(s), path, name) {
      forall i | 0 <= i < |path| - 1 ensures Edge(CleanedSchemas(s), path[i], path[i + 1]) {
        assert Edge(Transformed(s).schemas, path[i], path[i + 1]);
      }
      assert PathTo(CleanedSchemas(s), CleanedRefs(s), path, name);
    }
  }

  /**
   Publishing twice is publishing once exactly when every defined schema that the public endpoints
   lead to is still led to after all endpoints and schemas of the input are cleaned.
   */
  lemma {:induction false} StableIff(s: Spec)
    ensures Transformed(Transformed(s)) == Transformed(s) <==>
              forall n | n in s.schemas && Reachable(s.schemas, InitialRefs(s), n) ::
                Reachable(CleanedSchemas(s), CleanedRefs(s), n)
  {
    StableIffNoOrphans(s);
    CleanedRefsStart(s);
    forall n
      ensures n in Transformed(s).schemas <==> n in s.schemas && Reachable(s.schemas, InitialRefs(s), n)
      ensures Reachable(Transformed(s).schemas, CleanedRefs(s), n) <==> Reachable(CleanedSchemas(s), CleanedRefs(s), n)
    {
      KeptIsReachable(s, n);
      PublishedReach(s, n);
    }
  }

  /** Dropping unreachable schemas leaves the reachable ones reachable. */
  lemma {:induction false} PathSurvives(big: Schemas, small: Schemas, start: set<string>, path: seq<string>)
    requires IsPath(big, start, path)
    requires forall n | n in big && Reachable(big, start, n) :: n in small && small[n] == big[n]
    ensures IsPath(small, start, path)
  {
    forall i | 0 <= i < |path| - 1
      ensures Edge(small, path[i], path[i + 1])
    {
      assert Edge(big, path[i], path[i + 1]);
      assert PathTo(big, start, path[..i + 1], path[i]);
    }
  }

  /** The second pass removes every orphan the first one made. */
  lemma {:induction false} SecondPassHasNoOrphans(s: Spec)
    ensures NoOrphans(Transformed(Transformed(s)))
  {
    var t := Transformed(s);
    var u := Transformed(t);
    PathsAreStable(s.paths);
    assert InitialRefs(u) == InitialRefs(t);
    forall n | n in u.schemas
      ensures Reachable(u.schemas, InitialRefs(u), n)
    {
      forall m | m in t.schemas && Reachable(t.schemas, InitialRefs(t), m)
        ensures m in u.schemas && u.schemas[m] == t.schemas[m]
      {
        SecondPassRestricts(s, m);
      }
      var path :| PathTo(t.schemas, InitialRefs(t), path, n);
      PathSurvives(t.schemas, u.schemas, InitialRefs(t), path);
      assert PathTo(u.schemas, InitialRefs(u), path, n);
    }
  }

  /** A third pass changes nothing after the second. */
  lemma {:induction false} ThirdPassChangesNothing(s: Spec)
    ensures Transformed(Transformed(Transformed(s))) == Transformed(Transformed(s))
  {
    SecondPassHasNoOrphans(s);
    StableIffNoOrphans(Transformed(s));
  }

  // ---------------------------------------------------------------- one pass is not enough

  function RefTo(name: string): Json {
    Obj(map[REF := Str(SCHEMA_PREFIX + name)])
  }

  lemma {:induction false} SplitFour(a: string, b: string, c: string, name: string)
    requires '/' !in a && '/' !in b && '/' !in c && '/' !in name
    ensures Split(a + ['/'] + b + ['/'] + c + ['/'] + name, '/') == [a, b, c, name]
  {
    var ref := a + ['/'] + b + ['/'] + c + ['/'] + name;
    assert ref == a + ['/'] + (b + ['/'] + (c + ['/'] + name));
    SplitAfterSeparator(a, '/', b + ['/'] + (c + ['/'] + name));
    SplitAfterSeparator(b, '/', c + ['/'] + name);
    SplitAfterSeparator(c, '/', name);
    SplitPiece(name, '/');
  }

  lemma {:induction false} RefParts(name: string)
    requires '/' !in name
    ensures Split(SCHEMA_PREFIX + name, '/') == ["#", "components", "schemas", name]
  {
    SplitFour("#", "components", "schemas", name);
  }

  lemma {:induction false} RefsOfRefTo(name: string)
    requires '/' !in name
    ensures Refs(RefTo(name)) == {name}
  {
    RefParts(name);
    var fields := map[REF := Str(SCHEMA_PREFIX + name)];
    assert OwnRef(fields) == {name};
    forall r ensures r in Refs(Obj(fields)) <==> r == name { RefsOfObject(fields, r); }
  }

  /** An object with a single entry refers to what the entry refers to. */
  lemma {:induction false} RefsOfOne(k: string, j: Json)
    requires k != REF
    ensures Refs(Obj(map[k := j])) == Refs(j)
  {
    forall r ensures r in Refs(Obj(map[k := j])) <==> r in Refs(j) {
      RefsOfObject(map[k := j], r);
      if r in Refs(j) { assert UnderKeys(map[k := j], {k}, r); }
    }
  }

  /** A schema whose only use of another one is an internal property. */
  const WITH_TENANT := Obj(map["properties" := Obj(map["tenant_id" := RefTo("B")])])

  const WITHOUT_TENANT := Obj(map["properties" := Obj(map[])])

  lemma {:induction false} TenantRefs()
    ensures Refs(WITH_TENANT) == {"B"} && Refs(WITHOUT_TENANT) == {}
  {
    assert REF != "tenant_id" && REF != "properties" by { assert |REF| == 4; }
    RefsOfRefTo("B");
    RefsOfOne("tenant_id", RefTo("B"));
    RefsOfOne("properties", Obj(map["tenant_id" := RefTo("B")]));
    RefsOfOne("properties", Obj(map[]));
    forall r ensures r !in Refs(Obj(map[])) { RefsOfObject(map[], r); }
  }

  lemma {:induction false} TenantCleaned()
    ensures CleanSchema(WITH_TENANT) == WITHOUT_TENANT
  {
    var props := map["tenant_id" := RefTo("B")];
    var fields := map["properties" := Obj(props)];
    CleanFieldIs(fields, "properties");
    assert props - INTERNAL_PARAMETERS == map[];
    var cleaned := CleanSchema(Obj(fields)).fields;
    forall k ensures k in cleaned <==> k == "properties" { CleanFieldIs(fields, k); }
    assert cleaned == map["properties" := Obj(map[])];
  }

  /** A document with one public endpoint, which mentions only schema A. */
  const ENDPOINT := Obj(map["tags" := Arr([Str(PUBLIC_TAG)]), "responses" := RefTo("A")])

  const EXAMPLE := Spec(None, None, map["/chat" := map["get" := ENDPOINT]], map["A" := WITH_TENANT, "B" := Obj(map[])])

  lemma {:induction false} EndpointRefs()
    ensures IsPublic(ENDPOINT) && Refs(ENDPOINT) == {"A"}
  {
    assert "tags" != "responses" && REF != "tags" && REF != "responses" by {
      assert |REF| == 4 && |"tags"| == 4 && |"responses"| == 9 && REF[0] == '$';
    }
    var fields := ENDPOINT.fields;
    RefsOfRefTo("A");
    forall r ensures r in Refs(ENDPOINT) <==> r == "A" {
      RefsOfObject(fields, r);
      RefsOfArray([Str(PUBLIC_TAG)], r);
      if r == "A" { assert UnderKeys(fields, fields.Keys, r) by { assert "responses" in fields.Keys; } }
    }
  }

  lemma {:induction false} ExampleKeepsB()
    ensures "B" in Transformed(EXAMPLE).schemas
  {
    EndpointRefs();
    TenantRefs();
    assert RefersFromEndpoint(EXAMPLE, "/chat", "get", "A");
    InitialRefsMember(EXAMPLE, "A");
    ReachableStart(EXAMPLE.schemas, InitialRefs(EXAMPLE), "A");
    ReachableStep(EXAMPLE.schemas, InitialRefs(EXAMPLE), "A", "B");
  }

  lemma {:induction false} ExampleStart()
    ensures CleanedRefs(EXAMPLE) <= {"A"}
  {
    EndpointRefs();
    OneEndpoint(EXAMPLE, ENDPOINT);
  }

  /** When every public endpoint is the same one, all published references are among its own. */
  lemma {:induction false} OneEndpoint(s: Spec, endpoint: Json)
    requires forall path, verb | path in s.paths && verb in s.paths[path] :: s.paths[path][verb] == endpoint
    ensures CleanedRefs(s) <= Refs(endpoint)
  {
    forall r | r in CleanedRefs(s) ensures r in Refs(endpoint) {
      var path, verb :| RefersCleaned(s, path, verb, r);
      EndpointOnlyRemovesRefs(endpoint, r);
    }
  }

  lemma {:induction false} OnlyAIsReachable(schemas: Schemas, start: set<string>)
    requires "A" in schemas ==> schemas["A"] == WITHOUT_TENANT
    requires start <= {"A"}
    ensures !Reachable(schemas, start, "B")
  {
    TenantRefs();
    assert Closed(schemas, {"A"});
    if Reachable(schemas, start, "B") {
      ReachableIsLeast(schemas, start, {"A"}, "B");
    }
  }

  /** The first pass keeps B for the sake of a property it then deletes from A; the second drops it. */
  lemma {:induction false} FirstPassMayLeaveOrphans()
    ensures "B" in Transformed(EXAMPLE).schemas && "B" !in Transformed(Transformed(EXAMPLE)).schemas
  {
    ExampleKeepsB();
    ExampleStart();
    TenantCleaned();
    CleanedRefsStart(EXAMPLE);
    SecondPassRestricts(EXAMPLE, "B");
    OnlyAIsReachable(Transformed(EXAMPLE).schemas, CleanedRefs(EXAMPLE));
  }
}
