/** What the clean-up of the OpenAPI document achieves, and where an internal name survives it. */
module OpenApiInternal {
  import opened Lists
  import opened OpenApi
  import opened OpenApiTransform

  // ---------------------------------------------------------------- schemas inside a schema

  /** The clean-up goes from `j` into `c`. */
  predicate Enters(j: Json, c: Json) {
    j.Obj? && exists k :: k in j.fields && EntersAt(j.fields, k, c)
  }

  predicate EntersAt(fields: map<string, Json>, k: string, c: Json)
    requires k in fields
  {
    match KeywordOf(k)
    case Combinator => fields[k].Arr? && c in fields[k].items
    case Items => c == fields[k]
    case Additional => c == fields[k] && c.Obj?
    case _ => false
  }

  predicate IsProperty(j: Json, p: string) { j.Obj? && HasProperties(j.fields) && p in j.fields["properties"].fields }

  function PropertyOf(j: Json, p: string): Json
    requires IsProperty(j, p)
  {
    j.fields["properties"].fields[p]
  }

  /** From `j` the clean-up gets to `d` step by step. */
  ghost predicate Walks(j: Json, steps: seq<Json>, d: Json)
    decreases |steps|
  {
    if steps == [] then j == d else Enters(j, steps[0]) && Walks(steps[0], steps[1..], d)
  }

  /** The clean-up visits `d`. */
  ghost predicate Visits(j: Json, d: Json) { exists steps :: Walks(j, steps, d) }

  /** The dictionary has an internal property, or an internal name in the list beside its properties. */
  predicate OwnInternal(j: Json) {
    && j.Obj? && HasProperties(j.fields)
    && ((exists p :: p in INTERNAL_PARAMETERS && IsProperty(j, p))
        || ("required" in j.fields && j.fields["required"].Arr? && exists x ::
            x in j.fields["required"].items && IsInternal(x)))
  }

  /** `c` stands directly in `j`: an element, or a value; what stands under `properties` are its values. */
  ghost predicate Within(j: Json, c: Json) {
    || (j.Arr? && c in j.items)
    || (exists p :: IsProperty(j, p) && c == PropertyOf(j, p))
    || (j.Obj? && exists k :: k in j.fields && !(KeywordOf(k).Properties? && j.fields[k].Obj?) && c == j.fields[k])
  }

  ghost predicate Descends(j: Json, steps: seq<Json>, d: Json)
    decreases |steps|
  {
    if steps == [] then j == d else Within(j, steps[0]) && Descends(steps[0], steps[1..], d)
  }

  /** Some dictionary at any depth of `j` has an internal name among its properties or required ones. */
  ghost predicate HasInternal(j: Json) { exists steps, d :: Descends(j, steps, d) && OwnInternal(d) }

  // ---------------------------------------------------------------- what is gone

  lemma {:induction false} OwnIsClean(j: Json)
    ensures !OwnInternal(CleanSchema(j))
  {
    if j.Obj? {
      KeywordIs("properties");
      KeywordIs("required");
      CleanFieldIs(j.fields, "properties");
      CleanFieldIs(j.fields, "required");
    }
  }

  /** Cleaning goes into the same places of the cleaned schema. */
  lemma {:induction false} EntersCleaned(j: Json, c: Json)
    requires Enters(CleanSchema(j), c)
    ensures exists b :: Enters(j, b) && CleanSchema(b) == c
  {
    var fields, cleaned := j.fields, CleanSchema(j).fields;
    var k :| k in cleaned && EntersAt(cleaned, k, c);
    CleanFieldIs(fields, k);
    if KeywordOf(k).Combinator? {
      var i :| 0 <= i < |cleaned[k].items| && cleaned[k].items[i] == c;
      assert EntersAt(fields, k, fields[k].items[i]);
    } else {
      assert EntersAt(fields, k, fields[k]);
    }
  }

  lemma {:induction false} CleanedWalk(j: Json, steps: seq<Json>, d: Json)
    requires Walks(CleanSchema(j), steps, d)
    ensures !OwnInternal(d)
    decreases |steps|
  {
    if steps == [] {
      OwnIsClean(j);
    } else {
      EntersCleaned(j, steps[0]);
      var b :| Enters(j, b) && CleanSchema(b) == steps[0];
      CleanedWalk(b, steps[1..], d);
    }
  }

  /**
   No schema that the clean-up visits is left with an internal property, nor with an internal name in
   the list of required ones beside its properties.
   */
  lemma {:induction false} NothingInternalVisited(j: Json, d: Json)
    requires Visits(CleanSchema(j), d)
    ensures !OwnInternal(d)
  {
    var steps :| Walks(CleanSchema(j), steps, d);
    CleanedWalk(j, steps, d);
  }

  // ---------------------------------------------------------------- what survives

  /** External properties stay, and with the value they came with. */
  lemma {:induction false} PropertiesKept(j: Json, p: string)
    ensures IsProperty(CleanSchema(j), p) <==> IsProperty(j, p) && p !in INTERNAL_PARAMETERS
    ensures IsProperty(CleanSchema(j), p) && IsProperty(j, p) ==> PropertyOf(CleanSchema(j), p) == PropertyOf(j, p)
  {
    if j.Obj? {
      KeywordIs("properties");
      CleanFieldIs(j.fields, "properties");
    }
  }

  /**
   Of a visited value the clean-up leaves `v` as it is: the value of an external property, an element of
   the required list, whatever stands under any other keyword or in a place of the wrong type, or the
   visited value itself when it is no dictionary.
   */
  ghost predicate Spares(e: Json, v: Json) {
    || (!e.Obj? && v == e)
    || (exists p :: IsProperty(e, p) && p !in INTERNAL_PARAMETERS && v == PropertyOf(e, p))
    || (e.Obj? && exists k :: k in e.fields && SparesAt(e.fields, k, v))
  }

  predicate SparesAt(fields: map<string, Json>, k: string, v: Json)
    requires k in fields
  {
    match KeywordOf(k)
    case Properties => !fields[k].Obj? && v == fields[k]
    case Required =>
      if HasProperties(fields) && fields[k].Arr? then v in fields[k].items && !IsInternal(v) else v == fields[k]
    case Combinator => !fields[k].Arr? && v == fields[k]
    case Items => false
    case Additional => !fields[k].Obj? && v == fields[k]
    case Other => v == fields[k]
  }

  /** The clean-up visits a schema and spares a part of it in which an internal name occurs. */
  ghost predicate Escapes(j: Json) { exists e, v :: Visits(j, e) && Spares(e, v) && HasInternal(v) }

  lemma {:induction false} EscapesHere(j: Json, v: Json)
    requires Spares(j, v) && HasInternal(v)
    ensures Escapes(j)
  {
    assert Walks(j, [], j);
    assert Visits(j, j);
  }

  lemma {:induction false} EscapesBelow(j: Json, b: Json)
    requires Enters(j, b) && Escapes(b)
    ensures Escapes(j)
  {
    var e, v :| Visits(b, e) && Spares(e, v) && HasInternal(v);
    var steps :| Walks(b, steps, e);
    assert ([b] + steps)[1..] == steps;
    assert Walks(j, [b] + steps, e);
  }

  /** A way down into a cleaned schema ends in a spared part or passes through a schema that is visited. */
  lemma {:induction false} SurvivorEscapes(j: Json, steps: seq<Json>, d: Json)
    requires Descends(CleanSchema(j), steps, d) && OwnInternal(d)
    ensures Escapes(j)
    decreases |steps|
  {
    if !j.Obj? {
      assert HasInternal(j);
      EscapesHere(j, j);
    } else if steps == [] {
      OwnIsClean(j);
    } else if p :| IsProperty(CleanSchema(j), p) && steps[0] == PropertyOf(CleanSchema(j), p) {
      PropertiesKept(j, p);
      assert HasInternal(steps[0]);
      EscapesHere(j, steps[0]);
    } else {
      var k :| k in CleanSchema(j).fields && !(KeywordOf(k).Properties? && CleanSchema(j).fields[k].Obj?)
               && steps[0] == CleanSchema(j).fields[k];
      SurvivorUnder(j, k, steps, d);
    }
  }

  lemma {:induction false} SurvivorUnder(j: Json, k: string, steps: seq<Json>, d: Json)
    requires j.Obj? && k in CleanSchema(j).fields && steps != [] && steps[0] == CleanSchema(j).fields[k]
    requires !(KeywordOf(k).Properties? && CleanSchema(j).fields[k].Obj?)
    requires Descends(steps[0], steps[1..], d) && OwnInternal(d)
    ensures Escapes(j)
    decreases |steps|, 0
  {
    var was := j.fields[k];
    CleanFieldIs(j.fields, k);
    assert HasInternal(steps[0]);
    match KeywordOf(k) {
      case Required =>
        if HasProperties(j.fields) && was.Arr? {
          var x := steps[1..][0];
          assert x in External(was.items);
          assert HasInternal(x);
          assert SparesAt(j.fields, k, x);
          EscapesHere(j, x);
        } else {
          assert SparesAt(j.fields, k, was);
          EscapesHere(j, was);
        }
      case Combinator =>
        if was.Arr? {
          var x := steps[1..][0];
          var i :| 0 <= i < |steps[0].items| && steps[0].items[i] == x;
          SurvivorEscapes(was.items[i], steps[1..][1..], d);
          assert EntersAt(j.fields, k, was.items[i]);
          EscapesBelow(j, was.items[i]);
        } else {
          assert SparesAt(j.fields, k, was);
          EscapesHere(j, was);
        }
      case Items =>
        SurvivorEscapes(was, steps[1..], d);
        assert EntersAt(j.fields, k, was);
        EscapesBelow(j, was);
      case Additional =>
        if was.Obj? {
          SurvivorEscapes(was, steps[1..], d);
          assert EntersAt(j.fields, k, was);
          EscapesBelow(j, was);
        } else {
          assert SparesAt(j.fields, k, was);
          EscapesHere(j, was);
        }
      case _ =>
        assert SparesAt(j.fields, k, was);
        EscapesHere(j, was);
    }
  }

  lemma {:induction false} Prepended(j: Json, c: Json)
    requires Within(j, c) && HasInternal(c)
    ensures HasInternal(j)
  {
    var rest, d :| Descends(c, rest, d) && OwnInternal(d);
    assert ([c] + rest)[1..] == rest;
    assert Descends(j, [c] + rest, d);
  }

  /** What is spared of a schema still stands in the cleaned one. */
  lemma {:induction false} SparedStays(e: Json, v: Json)
    requires Spares(e, v) && HasInternal(v)
    ensures HasInternal(CleanSchema(e))
  {
    var cleaned := CleanSchema(e);
    if !e.Obj? {
    } else if p :| IsProperty(e, p) && p !in INTERNAL_PARAMETERS && v == PropertyOf(e, p) {
      PropertiesKept(e, p);
      Prepended(cleaned, v);
    } else {
      var k :| k in e.fields && SparesAt(e.fields, k, v);
      SparedUnder(e, k, v);
    }
  }

  lemma {:induction false} SparedUnder(e: Json, k: string, v: Json)
    requires e.Obj? && k in e.fields && SparesAt(e.fields, k, v) && HasInternal(v)
    ensures HasInternal(CleanSchema(e))
  {
    var cleaned := CleanSchema(e);
    CleanFieldIs(e.fields, k);
    if KeywordOf(k).Required? && HasProperties(e.fields) && e.fields[k].Arr? {
      ExternalKeeps(e.fields[k].items, v);
      Prepended(cleaned.fields[k], v);
      Prepended(cleaned, cleaned.fields[k]);
    } else {
      assert cleaned.fields[k] == v;
      Prepended(cleaned, v);
    }
  }

  lemma {:induction false} ExternalKeeps(items: seq<Json>, v: Json)
    requires v in items && !IsInternal(v)
    ensures v in External(items)
  {
    if v != items[|items| - 1] { ExternalKeeps(items[..|items| - 1], v); }
  }

  /** What an entered schema still holds, the schema around it holds. */
  lemma {:induction false} EnteredStays(j: Json, b: Json)
    requires Enters(j, b) && HasInternal(CleanSchema(b))
    ensures HasInternal(CleanSchema(j))
  {
    var fields, cleaned := j.fields, CleanSchema(j);
    var k :| k in fields && EntersAt(fields, k, b);
    CleanFieldIs(fields, k);
    if KeywordOf(k).Combinator? {
      var i :| 0 <= i < |fields[k].items| && fields[k].items[i] == b;
      assert cleaned.fields[k].items[i] == CleanSchema(b);
      Prepended(cleaned.fields[k], CleanSchema(b));
    }
    Prepended(cleaned, cleaned.fields[k]);
  }

  lemma {:induction false} EscapedSurvives(j: Json, steps: seq<Json>, e: Json, v: Json)
    requires Walks(j, steps, e) && Spares(e, v) && HasInternal(v)
    ensures HasInternal(CleanSchema(j))
    decreases |steps|
  {
    if steps == [] {
      SparedStays(e, v);
    } else {
      EscapedSurvives(steps[0], steps[1..], e, v);
      EnteredStays(j, steps[0]);
    }
  }

  /**
   An internal name survives the clean-up, at whatever depth, exactly when a schema it visits has one in
   a part that it spares: in the value of an external property, or under a keyword it does not look at.
   */
  lemma {:induction false} SurvivesIff(j: Json)
    ensures HasInternal(CleanSchema(j)) <==> Escapes(j)
  {
    if HasInternal(CleanSchema(j)) {
      var steps, d :| Descends(CleanSchema(j), steps, d) && OwnInternal(d);
      SurvivorEscapes(j, steps, d);
    }
    if e, v :| Visits(j, e) && Spares(e, v) && HasInternal(v) {
      var steps :| Walks(j, steps, e);
      EscapedSurvives(j, steps, e, v);
    }
  }

  // ---------------------------------------------------------------- what stays

  predicate SameKey(was: map<string, Json>, after: map<string, Json>, k: string) {
    (k in after <==> k in was) && (k in after && k in was ==> after[k] == was[k])
  }

  predicate IsCombinator(k: string) { k == "allOf" || k == "oneOf" || k == "anyOf" }

  /** Beside properties the list of required names keeps the external ones in order, and goes when none is left. */
  ghost predicate RequiredAs(was: map<string, Json>, now: map<string, Json>) {
    if HasProperties(was) && "required" in was && was["required"].Arr? then
      var kept := if "required" in now && now["required"].Arr? then now["required"].items else [];
      PicksOut(was["required"].items, kept, x => !IsInternal(x)) && ("required" in now <==> kept != [])
    else SameKey(was, now, "required")
  }

  ghost predicate PropertiesAs(was: map<string, Json>, now: map<string, Json>) {
    HasProperties(was) ==>
      && HasProperties(now)
      && var before, after := was["properties"].fields, now["properties"].fields;
         && (forall p :: p in after <==> p in before && p !in INTERNAL_PARAMETERS)
         && forall p | p in after && p in before :: after[p] == before[p]
  }

  /** What cleaning makes of a schema, key by key: whatever is not named here stays with its value. */
  ghost predicate CleanedAs(was: Json, now: Json)
    decreases was
  {
    if !was.Obj? then now == was
    else
      && now.Obj?
      && (forall k | k != "required" :: k in now.fields <==> k in was.fields)
      && RequiredAs(was.fields, now.fields) && PropertiesAs(was.fields, now.fields)
      && forall k | k in was.fields && k in now.fields && k != "required"
                    && !(k == "properties" && was.fields[k].Obj?) ::
           if IsCombinator(k) && was.fields[k].Arr? then
             && now.fields[k].Arr? && |now.fields[k].items| == |was.fields[k].items|
             && forall i | 0 <= i < |was.fields[k].items| :: CleanedAs(was.fields[k].items[i], now.fields[k].items[i])
           else if k == "items" || k == "additionalProperties" then CleanedAs(was.fields[k], now.fields[k])
           else now.fields[k] == was.fields[k]
  }

  lemma {:induction false} KeywordsAre(k: string)
    ensures KeywordOf(k).Combinator? <==> IsCombinator(k)
    ensures KeywordOf(k).Items? <==> k == "items"
    ensures KeywordOf(k).Additional? <==> k == "additionalProperties"
  {
    assert |"properties"| == 10 && |"required"| == 8 && |"items"| == 5 && |"additionalProperties"| == 20;
    assert |"allOf"| == 5 && |"oneOf"| == 5 && |"anyOf"| == 5 && "items"[0] == 'i';
  }

  lemma {:induction false} OwnKeysAs(fields: map<string, Json>)
    ensures var now := CleanSchema(Obj(fields)).fields; RequiredAs(fields, now) && PropertiesAs(fields, now)
    ensures forall k | k != "required" :: k in CleanSchema(Obj(fields)).fields <==> k in fields
  {
    KeywordIs("properties");
    KeywordIs("required");
    CleanFieldIs(fields, "properties");
    CleanFieldIs(fields, "required");
    if "required" in fields && fields["required"].Arr? { ExternalPicks(fields["required"].items); }
    forall k | k != "required" ensures k in CleanSchema(Obj(fields)).fields <==> k in fields {
      KeywordIs(k);
      CleanFieldIs(fields, k);
    }
  }

  lemma {:induction false} OtherKeyAs(fields: map<string, Json>, k: string)
    requires k in fields && k != "required" && !(k == "properties" && fields[k].Obj?)
    requires !IsCombinator(k) && k != "items" && k != "additionalProperties"
    ensures k in CleanSchema(Obj(fields)).fields && CleanSchema(Obj(fields)).fields[k] == fields[k]
  {
    KeywordIs(k);
    KeywordsAre(k);
    CleanFieldIs(fields, k);
  }

  /** Every schema is cleaned so. */
  lemma {:induction false} CleanedKeyByKey(j: Json)
    ensures CleanedAs(j, CleanSchema(j))
    decreases j
  {
    if j.Obj? {
      var was, now := j.fields, CleanSchema(j).fields;
      OwnKeysAs(was);
      forall k | k in was && k in now && k != "required" && !(k == "properties" && was[k].Obj?)
        ensures if IsCombinator(k) && was[k].Arr? then
                  && now[k].Arr? && |now[k].items| == |was[k].items|
                  && forall i | 0 <= i < |was[k].items| :: CleanedAs(was[k].items[i], now[k].items[i])
                else if k == "items" || k == "additionalProperties" then CleanedAs(was[k], now[k])
                else now[k] == was[k]
      {
        KeyByKey(j, k);
      }
    }
  }

  lemma {:induction false} KeyByKey(j: Json, k: string)
    requires j.Obj? && k in j.fields && k in CleanSchema(j).fields && k != "required"
    requires !(k == "properties" && j.fields[k].Obj?)
    ensures var was, now := j.fields[k], CleanSchema(j).fields[k];
            if IsCombinator(k) && was.Arr? then
              && now.Arr? && |now.items| == |was.items|
              && forall i | 0 <= i < |was.items| :: CleanedAs(was.items[i], now.items[i])
            else if k == "items" || k == "additionalProperties" then CleanedAs(was, now)
            else now == was
    decreases j, 0
  {
    var was := j.fields[k];
    KeywordsAre(k);
    CleanFieldIs(j.fields, k);
    if IsCombinator(k) {
      if was.Arr? {
        forall i | 0 <= i < |was.items| ensures CleanedAs(was.items[i], CleanSchema(was.items[i])) {
          CleanedKeyByKey(was.items[i]);
        }
      }
    } else if k == "items" || k == "additionalProperties" {
      CleanedKeyByKey(was);
    } else {
      OtherKeyAs(j.fields, k);
    }
  }

  /** Published schemas are. */
  lemma {:induction false} SchemasAreClean(s: Spec, name: string)
    requires name in Transformed(s).schemas
    ensures name in s.schemas && CleanedAs(s.schemas[name], Transformed(s).schemas[name])
  {
    CleanedKeyByKey(s.schemas[name]);
  }

  function WithProperty(name: string, value: Json): Json {
    Obj(map["properties" := Obj(map[name := value])])
  }

  /** A nested property: `tenant_id` of a property of a schema is published. */
  lemma {:induction false} NestedTenantSurvives(name: string, value: Json)
    requires name !in INTERNAL_PARAMETERS
    ensures var j := WithProperty(name, WithProperty("tenant_id", value));
            CleanSchema(j) == j && HasInternal(j)
  {
    var inner := WithProperty("tenant_id", value);
    var j := WithProperty(name, inner);
    KeywordIs("properties");
    CleanFieldIs(j.fields, "properties");
    forall k ensures k in CleanSchema(j).fields <==> k == "properties" { CleanFieldIs(j.fields, k); }
    assert map[name := inner] - INTERNAL_PARAMETERS == map[name := inner];
    assert CleanSchema(j).fields == j.fields;
    assert IsProperty(inner, "tenant_id") && OwnInternal(inner);
    assert IsProperty(j, name) && PropertyOf(j, name) == inner;
    assert Descends(inner, [], inner);
    Prepended(j, inner);
  }

  /** Under a keyword the clean-up does not look at, such as `prefixItems`, all stays as it is. */
  lemma {:induction false} UnknownKeywordSurvives(keyword: string, value: Json)
    requires KeywordOf(keyword).Other?
    ensures var j := Obj(map[keyword := Arr([WithProperty("tenant_id", value)])]);
            CleanSchema(j) == j && HasInternal(j)
  {
    var inner := WithProperty("tenant_id", value);
    var j := Obj(map[keyword := Arr([inner])]);
    forall k ensures k in CleanSchema(j).fields <==> k == keyword { CleanFieldIs(j.fields, k); }
    CleanFieldIs(j.fields, keyword);
    assert CleanSchema(j).fields == j.fields;
    assert IsProperty(inner, "tenant_id") && OwnInternal(inner);
    assert Descends(inner, [], inner);
    Prepended(Arr([inner]), inner);
    Prepended(j, Arr([inner]));
  }

  /** A tuple schema: `tenant_id` of its first element is published. */
  lemma {:induction false} PrefixItemsSurvive(value: Json)
    ensures var j := Obj(map["prefixItems" := Arr([WithProperty("tenant_id", value)])]);
            CleanSchema(j) == j && HasInternal(j)
  {
    assert KeywordOf("prefixItems").Other? by { assert |"prefixItems"| == 11; }
    UnknownKeywordSurvives("prefixItems", value);
  }

  // ---------------------------------------------------------------- endpoints

  predicate IsExternalParameter(p: Json) { !IsInternalParameter(p) }

  /** The parameters that stay are the external ones, in their order. */
  lemma {:induction false} ParametersPicked(items: seq<Json>)
    ensures PicksOut(items, PublicParameters(items), IsExternalParameter)
  {
    if items != [] {
      var last := |items| - 1;
      ParametersPicked(items[..last]);
      PicksOutSnoc(items[..last], PublicParameters(items[..last]), IsExternalParameter, items[last]);
      assert items == items[..last] + [items[last]];
    }
  }

  predicate HasList(endpoint: Json) {
    endpoint.Obj? && "parameters" in endpoint.fields && endpoint.fields["parameters"].Arr?
  }

  function Listed(endpoint: Json): seq<Json> {
    if HasList(endpoint) then endpoint.fields["parameters"].items else []
  }

  /**
   What publishing makes of an endpoint: a list of parameters keeps the external ones in their order and goes
   when none is left, security of its own becomes the bearer token, and every other key stays with its value.
   */
  ghost predicate PublishedAs(was: Json, e: Json) {
    && was.Obj? && e.Obj?
    && (forall k | k != "parameters" && k != "security" :: SameKey(was.fields, e.fields, k))
    && ("security" in e.fields <==> "security" in was.fields)
    && ("security" in e.fields ==> e.fields["security"] == BEARER)
    && (if HasList(was) then
          && PicksOut(Listed(was), Listed(e), IsExternalParameter)
          && ("parameters" in e.fields <==> Listed(e) != [])
        else SameKey(was.fields, e.fields, "parameters"))
  }

  /** What makes an endpoint public: the tag in a list, as a key, or inside a text. */
  lemma {:induction false} PublicIff(fields: map<string, Json>)
    ensures IsPublic(Obj(fields)) <==>
              "tags" in fields && match fields["tags"]
                                  case Arr(items) => exists i :: 0 <= i < |items| && items[i] == Str("public")
                                  case Obj(tags) => exists k :: k in tags && k == "public"
                                  case Str(text) => exists front, back :: text == front + "public" + back
                                  case _ => false
  {
    if "tags" in fields && fields["tags"].Str? {
      var text := fields["tags"].text;
      if i: nat :| i <= |text| && OccursAt(text, PUBLIC_TAG, i) {
        assert text == text[..i] + "public" + text[i + |PUBLIC_TAG|..];
      }
      if front, back :| text == front + "public" + back {
        assert text[|front|..|front| + |PUBLIC_TAG|] == PUBLIC_TAG;
        assert OccursAt(text, PUBLIC_TAG, |front|);
      }
    }
  }

  /** Every public endpoint is published so. */
  lemma {:induction false} EndpointsAreClean(s: Spec, path: string, verb: string)
    requires path in s.paths && verb in s.paths[path] && IsPublic(s.paths[path][verb])
    ensures path in Transformed(s).paths && verb in Transformed(s).paths[path]
    ensures PublishedAs(s.paths[path][verb], Transformed(s).paths[path][verb])
  {
    EndpointIsCleaned(s, path, verb);
    CleanedIsPublished(s.paths[path][verb]);
  }

  lemma {:induction false} SecuredKeys(fields: map<string, Json>)
    ensures forall k | k != "security" :: SameKey(fields, Secured(fields), k)
    ensures "security" in Secured(fields) <==> "security" in fields
    ensures "security" in fields ==> Secured(fields)["security"] == BEARER
  {}

  lemma {:induction false} ListKept(fields: map<string, Json>)
    ensures forall k | k != "parameters" :: SameKey(fields, WithoutParameters(fields), k)
    ensures HasList(Obj(fields)) ==>
              && PicksOut(Listed(Obj(fields)), Listed(Obj(WithoutParameters(fields))), IsExternalParameter)
              && ("parameters" in WithoutParameters(fields) <==> Listed(Obj(WithoutParameters(fields))) != [])
    ensures !HasList(Obj(fields)) ==> WithoutParameters(fields) == fields
  {
    ParametersAreStable(fields);
    if HasList(Obj(fields)) { ParametersPicked(fields["parameters"].items); }
  }

  lemma {:induction false} CleanedIsPublished(was: Json)
    requires was.Obj?
    ensures PublishedAs(was, CleanEndpoint(was))
  {
    KeysDiffer();
    var secured := Secured(was.fields);
    SecuredKeys(was.fields);
    ListKept(secured);
    assert SameKey(was.fields, secured, "parameters");
    assert CleanEndpoint(was).fields == WithoutParameters(secured);
    forall k | k != "parameters" && k != "security"
      ensures SameKey(was.fields, WithoutParameters(secured), k)
    {
      assert SameKey(was.fields, secured, k) && SameKey(secured, WithoutParameters(secured), k);
    }
    assert SameKey(secured, WithoutParameters(secured), "security");
  }

  /** Every published schema is a cleaned one, so `SurvivesIff` says what it still holds. */
  lemma {:induction false} PublishedSchemas(s: Spec, name: string)
    requires name in Transformed(s).schemas
    ensures HasInternal(Transformed(s).schemas[name]) <==> Escapes(s.schemas[name])
  {
    SurvivesIff(s.schemas[name]);
  }
}
