/** Pruning an OpenAPI document for publication: transform_openapi_for_docs.py. */
module OpenApi {
  import opened Counting
  import opened Lists
  import opened Text

  datatype Json =
    | Null
    | Bool(value: bool)
    | Num(literal: string)
    | Str(text: string)
    | Arr(items: seq<Json>)
    | Obj(fields: map<string, Json>)

  /** `#/components/schemas/` */
  const SCHEMA_PREFIX := "#" + ['/'] + "components" + ['/'] + "schemas" + ['/']

  const REF := "$ref"

  const INTERNAL_PARAMETERS: set<string> := {"tenant_id", "db_session"}

  // ---------------------------------------------------------------- references

  function LastSegment(ref: string): string {
    var pieces := Split(ref, '/');
    pieces[|pieces| - 1]
  }

  /** The schema a dictionary itself refers to. */
  function OwnRef(fields: map<string, Json>): set<string> {
    if REF in fields && fields[REF].Str? && SCHEMA_PREFIX <= fields[REF].text
    then {LastSegment(fields[REF].text)} else {}
  }

  /** Every schema name referred to anywhere inside a value. */
  function Refs(j: Json): set<string> {
    match j
    case Obj(fields) => OwnRef(fields) + set k, r | k in fields.Keys && r in Refs(fields[k]) :: r
    case Arr(items) => set i, r | 0 <= i < |items| && r in Refs(items[i]) :: r
    case _ => {}
  }

  /** The walk calls a string method on every `$ref` it meets. */
  predicate RefsAreStrings(j: Json) {
    match j
    case Obj(fields) =>
      && (REF in fields ==> fields[REF].Str?)
      && forall k | k in fields.Keys :: RefsAreStrings(fields[k])
    case Arr(items) => forall i | 0 <= i < |items| :: RefsAreStrings(items[i])
    case _ => true
  }

  ghost predicate UnderKeys(fields: map<string, Json>, keys: set<string>, r: string) {
    exists k :: k in keys && k in fields.Keys && r in Refs(fields[k])
  }

  lemma {:induction false} RefsOfObject(fields: map<string, Json>, r: string)
    ensures r in Refs(Obj(fields)) <==> r in OwnRef(fields) || UnderKeys(fields, fields.Keys, r)
  {
    var j := Obj(fields);
    assert r in Refs(j) <==> r in OwnRef(j.fields) || exists k :: k in j.fields.Keys && r in Refs(j.fields[k]);
  }

  lemma {:induction false} RefsOfArray(items: seq<Json>, r: string)
    ensures r in Refs(Arr(items)) <==> exists i :: 0 <= i < |items| && r in Refs(items[i])
  {
    var j := Arr(items);
    assert r in Refs(j) <==> exists i :: 0 <= i < |j.items| && r in Refs(j.items[i]);
  }

  /** `c` stands directly in `j`, as an element or under a key. */
  predicate Holds(j: Json, c: Json) {
    || (j.Arr? && c in j.items)
    || (j.Obj? && exists k :: k in j.fields && j.fields[k] == c)
  }

  ghost predicate LeadsDown(j: Json, steps: seq<Json>, d: Json)
    decreases |steps|
  {
    if steps == [] then j == d else Holds(j, steps[0]) && LeadsDown(steps[0], steps[1..], d)
  }

  /** The dictionary has a reference to this schema: the prefix, and the name after the last slash. */
  ghost predicate RefersTo(d: Json, name: string) {
    && d.Obj? && REF in d.fields && d.fields[REF].Str? && SCHEMA_PREFIX <= d.fields[REF].text
    && '/' !in name && exists front :: d.fields[REF].text == front + ['/'] + name
  }

  lemma {:induction false} LastSegmentIs(ref: string, front: string, name: string)
    requires ref == front + ['/'] + name && '/' !in name
    ensures LastSegment(ref) == name
  {
    if front == "" {
      assert ref == "" + ['/'] + name;
      SplitAfterSeparator("", '/', name);
      SplitPiece(name, '/');
    } else {
      assert ref[1..] == front[1..] + ['/'] + name;
      LastSegmentIs(ref[1..], front[1..], name);
      SplitTail(ref);
    }
  }

  lemma {:induction false} SplitTail(ref: string)
    requires ref != "" && '/' in ref[1..]
    ensures LastSegment(ref) == LastSegment(ref[1..])
  {
    SplitMany(ref[1..], '/');
  }

  lemma {:induction false} SplitMany(s: string, sep: char)
    requires sep in s
    ensures |Split(s, sep)| >= 2
  {
    if s[0] != sep { SplitMany(s[1..], sep); }
  }

  lemma {:induction false} HasLastSegment(ref: string)
    requires '/' in ref
    ensures '/' !in LastSegment(ref) && exists front :: ref == front + ['/'] + LastSegment(ref)
  {
    var pieces := Split(ref, '/');
    var last := |pieces| - 1;
    JoinSplit(ref, '/');
    SplitMany(ref, '/');
    SplitPiecesLackSeparator(ref, '/');
    assert pieces[last] in pieces;
    JoinSnoc(pieces[..last], pieces[last], '/');
    assert pieces == pieces[..last] + [pieces[last]];
    assert ref == Join(pieces[..last], '/') + ['/'] + LastSegment(ref);
  }

  lemma {:induction false} OwnRefIff(d: Json, name: string)
    requires d.Obj?
    ensures name in OwnRef(d.fields) <==> RefersTo(d, name)
  {
    if REF in d.fields && d.fields[REF].Str? && SCHEMA_PREFIX <= d.fields[REF].text {
      var text := d.fields[REF].text;
      PrefixHasSlash(text);
      HasLastSegment(text);
      if RefersTo(d, name) {
        var front :| text == front + ['/'] + name;
        LastSegmentIs(text, front, name);
      }
    }
  }

  lemma {:induction false} PrefixHasSlash(text: string)
    requires SCHEMA_PREFIX <= text
    ensures '/' in text
  {
    assert SCHEMA_PREFIX[1] == '/' && text[1] == SCHEMA_PREFIX[1];
  }

  lemma {:induction false} RefIsBelow(j: Json, name: string) returns (steps: seq<Json>, d: Json)
    requires name in Refs(j)
    ensures LeadsDown(j, steps, d) && RefersTo(d, name)
    decreases j
  {
    if j.Obj? {
      RefsOfObject(j.fields, name);
      if name in OwnRef(j.fields) {
        OwnRefIff(j, name);
        steps, d := [], j;
      } else {
        var k :| k in j.fields.Keys && name in Refs(j.fields[k]);
        var rest;
        rest, d := RefIsBelow(j.fields[k], name);
        steps := [j.fields[k]] + rest;
        assert steps[1..] == rest && Holds(j, steps[0]);
      }
    } else {
      RefsOfArray(j.items, name);
      var i :| 0 <= i < |j.items| && name in Refs(j.items[i]);
      var rest;
      rest, d := RefIsBelow(j.items[i], name);
      steps := [j.items[i]] + rest;
      assert steps[1..] == rest;
    }
  }

  lemma {:induction false} BelowIsRef(j: Json, steps: seq<Json>, d: Json, name: string)
    requires LeadsDown(j, steps, d) && RefersTo(d, name)
    ensures name in Refs(j)
    decreases |steps|
  {
    if steps == [] {
      OwnRefIff(j, name);
      RefsOfObject(j.fields, name);
    } else {
      BelowIsRef(steps[0], steps[1..], d, name);
      if j.Obj? {
        RefsOfObject(j.fields, name);
        var k :| k in j.fields && j.fields[k] == steps[0];
        assert UnderKeys(j.fields, j.fields.Keys, name);
      } else {
        RefsOfArray(j.items, name);
      }
    }
  }

  /** Some dictionary inside the value, at any depth, refers to the schema. */
  ghost predicate RefersInside(j: Json, name: string) {
    exists steps, d :: LeadsDown(j, steps, d) && RefersTo(d, name)
  }

  /** The names collected from a value are those of the schemas it refers to at any depth. */
  lemma {:induction false} RefsIff(j: Json, name: string)
    ensures name in Refs(j) <==> RefersInside(j, name)
  {
    if name in Refs(j) {
      var steps, d := RefIsBelow(j, name);
      assert RefersInside(j, name);
    }
    if RefersInside(j, name) {
      var steps, d :| LeadsDown(j, steps, d) && RefersTo(d, name);
      BelowIsRef(j, steps, d, name);
    }
  }

  /** Adds to `refs` exactly the schema names the value refers to. */
  method CollectSchemaRefs(j: Json, refs: set<string>) returns (out: set<string>)
    requires RefsAreStrings(j)
    ensures out == refs + Refs(j)
    decreases j
  {
    out := refs;
    if j.Obj? {
      if REF in j.fields && SCHEMA_PREFIX <= j.fields[REF].text {
        out := out + {LastSegment(j.fields[REF].text)};
      }
      var keys := j.fields.Keys;
      while keys != {}
        invariant keys <= j.fields.Keys
        invariant forall r :: r in out <==>
                  r in refs || r in OwnRef(j.fields) || UnderKeys(j.fields, j.fields.Keys - keys, r)
        decreases keys
      {
        var k :| k in keys;
        out := CollectSchemaRefs(j.fields[k], out);
        keys := keys - {k};
      }
      assert j.fields.Keys - keys == j.fields.Keys;
      forall r ensures r in out <==> r in refs + Refs(j) { RefsOfObject(j.fields, r); }
    } else if j.Arr? {
      for i := 0 to |j.items|
        invariant forall r :: r in out <==> r in refs || exists n :: 0 <= n < i && r in Refs(j.items[n])
      {
        out := CollectSchemaRefs(j.items[i], out);
      }
      forall r ensures r in out <==> r in refs + Refs(j) { RefsOfArray(j.items, r); }
    }
  }

  // ---------------------------------------------------------------- the schema graph

  type Schemas = map<string, Json>

  predicate Edge(schemas: Schemas, from: string, to: string) {
    from in schemas && to in Refs(schemas[from])
  }

  ghost predicate IsPath(schemas: Schemas, start: set<string>, path: seq<string>) {
    && path != [] && path[0] in start
    && forall i | 0 <= i < |path| - 1 :: Edge(schemas, path[i], path[i + 1])
  }

  ghost predicate PathTo(schemas: Schemas, start: set<string>, path: seq<string>, name: string) {
    IsPath(schemas, start, path) && path[|path| - 1] == name
  }

  /** Some chain of references leads from the start to this name, which itself may be undefined. */
  ghost predicate Reachable(schemas: Schemas, start: set<string>, name: string) {
    exists path :: PathTo(schemas, start, path, name)
  }

  ghost predicate Closed(schemas: Schemas, names: set<string>) {
    forall n | n in names && n in schemas :: Refs(schemas[n]) <= names
  }

  lemma {:induction false} ReachableStart(schemas: Schemas, start: set<string>, name: string)
    requires name in start
    ensures Reachable(schemas, start, name)
  {
    assert PathTo(schemas, start, [name], name);
  }

  lemma {:induction false} ReachableStep(schemas: Schemas, start: set<string>, from: string, to: string)
    requires Reachable(schemas, start, from) && Edge(schemas, from, to)
    ensures Reachable(schemas, start, to)
  {
    var path :| PathTo(schemas, start, path, from);
    assert PathTo(schemas, start, path + [to], to);
  }

  lemma {:induction false} PathStaysInside(schemas: Schemas, start: set<string>, path: seq<string>, names: set<string>)
    requires IsPath(schemas, start, path) && start <= names && Closed(schemas, names)
    ensures path[|path| - 1] in names
  {
    if |path| > 1 {
      var shorter := path[..|path| - 1];
      PathStaysInside(schemas, start, shorter, names);
      assert Edge(schemas, path[|path| - 2], path[|path| - 1]);
    }
  }

  /** The reachable names are the least set that holds the start and is closed under references. */
  lemma {:induction false} ReachableIsLeast(schemas: Schemas, start: set<string>, names: set<string>, name: string)
    requires start <= names && Closed(schemas, names) && Reachable(schemas, start, name)
    ensures name in names
  {
    var path :| PathTo(schemas, start, path, name);
    PathStaysInside(schemas, start, path, names);
  }

  function Universe(schemas: Schemas, start: set<string>): set<string> {
    start + set n, r | n in schemas.Keys && r in Refs(schemas[n]) :: r
  }

  function Elements(list: seq<string>): set<string> { set x | x in list }

  lemma {:induction false} ElementsSnoc(list: seq<string>, x: string)
    ensures Elements(list + [x]) == Elements(list) + {x}
  {}

  method ListOf(s: set<string>) returns (list: seq<string>)
    ensures Elements(list) == s
  {
    list := [];
    var rest := s;
    while rest != {}
      invariant rest <= s && Elements(list) == s - rest
      decreases rest
    {
      var x :| x in rest;
      ElementsSnoc(list, x);
      list := list + [x];
      rest := rest - {x};
    }
  }

  /** Adds the names not seen yet to the result and to the worklist. */
  method Enlist(newRefs: set<string>, all: set<string>, toProcess: seq<string>)
    returns (all': set<string>, toProcess': seq<string>)
    ensures all' == all + newRefs
    ensures Elements(toProcess') == Elements(toProcess) + (newRefs - all)
    ensures newRefs <= all ==> toProcess' == toProcess
  {
    all', toProcess' := all, toProcess;
    var rest := newRefs;
    while rest != {}
      invariant rest <= newRefs
      invariant all' == all + (newRefs - rest)
      invariant Elements(toProcess') == Elements(toProcess) + (newRefs - rest - all)
      invariant newRefs <= all ==> toProcess' == toProcess
      decreases rest
    {
      var ref :| ref in rest;
      if ref !in all' {
        ElementsSnoc(toProcess', ref);
        all' := all' + {ref};
        toProcess' := toProcess' + [ref];
      }
      rest := rest - {ref};
    }
  }

  /** What the worklist loop keeps. */
  ghost predicate Sweep(schemas: Schemas, start: set<string>, all: set<string>, pending: set<string>) {
    && start <= all <= Universe(schemas, start)
    && pending <= all
    && (forall n | n in all :: Reachable(schemas, start, n))
    && (forall n | n in all && n in schemas && n !in pending :: Refs(schemas[n]) <= all)
  }

  lemma {:induction false} SweepStart(schemas: Schemas, start: set<string>)
    ensures Sweep(schemas, start, start, start)
  {
    forall n | n in start ensures Reachable(schemas, start, n) { ReachableStart(schemas, start, n); }
  }

  ghost function NewRefs(schemas: Schemas, name: string): set<string> {
    if name in schemas then Refs(schemas[name]) else {}
  }

  lemma {:induction false} SweepCloses(schemas: Schemas, all: set<string>, pending: set<string>, name: string,
                                       refs: set<string>, n: string)
    requires forall m | m in all && m in schemas && m !in pending + {name} :: Refs(schemas[m]) <= all
    requires refs == NewRefs(schemas, name)
    requires n in all + refs && n in schemas && n !in pending + (refs - all)
    ensures Refs(schemas[n]) <= all + refs
  {
    if n != name {
      assert n in all && n !in pending + {name};
    }
  }

  lemma {:induction false} SweepStep(schemas: Schemas, start: set<string>, all: set<string>, pending: set<string>,
                                     name: string, refs: set<string>)
    requires Sweep(schemas, start, all, pending + {name})
    requires refs == NewRefs(schemas, name)
    ensures Sweep(schemas, start, all + refs, pending + (refs - all))
  {
    SweepFinds(schemas, start, all, pending, name);
    forall n | n in all + refs && n in schemas && n !in pending + (refs - all)
      ensures Refs(schemas[n]) <= all + refs
    {
      SweepCloses(schemas, all, pending, name, refs, n);
    }
  }

  lemma {:induction false} SweepFinds(schemas: Schemas, start: set<string>, all: set<string>, pending: set<string>,
                                      name: string)
    requires Sweep(schemas, start, all, pending + {name})
    ensures NewRefs(schemas, name) <= Universe(schemas, start)
    ensures forall n | n in NewRefs(schemas, name) :: Reachable(schemas, start, n)
  {
    assert name in all;
    forall n | n in NewRefs(schemas, name)
      ensures Reachable(schemas, start, n)
    {
      ReachableStep(schemas, start, name, n);
    }
  }

  /** Takes one name off the worklist and enlists the references of its schema, if it is defined. */
  method Round(schemas: Schemas, start: set<string>, all: set<string>, toProcess: seq<string>)
    returns (all': set<string>, toProcess': seq<string>)
    requires forall n | n in schemas && Reachable(schemas, start, n) :: RefsAreStrings(schemas[n])
    requires toProcess != [] && Sweep(schemas, start, all, Elements(toProcess))
    ensures Sweep(schemas, start, all', Elements(toProcess'))
    ensures |Universe(schemas, start) - all'| < |Universe(schemas, start) - all|
         || (all' == all && |toProcess'| < |toProcess|)
  {
    var last := |toProcess| - 1;
    var name, rest := toProcess[last], toProcess[..last];
    ElementsSnoc(rest, name);
    assert toProcess == rest + [name];
    var newRefs := {};
    if name in schemas {
      NameIsReachable(schemas, start, all, Elements(rest), name);
      newRefs := CollectSchemaRefs(schemas[name], {});
    }
    all', toProcess' := Enlist(newRefs, all, rest);
    RoundIsDone(schemas, start, all, Elements(rest), name, newRefs);
  }

  lemma {:induction false} NameIsReachable(schemas: Schemas, start: set<string>, all: set<string>,
                                           pending: set<string>, name: string)
    requires Sweep(schemas, start, all, pending + {name})
    ensures Reachable(schemas, start, name)
  {
    assert name in all;
  }

  lemma {:induction false} RoundIsDone(schemas: Schemas, start: set<string>, all: set<string>, pending: set<string>,
                                       name: string, refs: set<string>)
    requires Sweep(schemas, start, all, pending + {name}) && refs == NewRefs(schemas, name)
    ensures Sweep(schemas, start, all + refs, pending + (refs - all))
    ensures refs <= all ==> all + refs == all && refs - all == {}
    ensures !(refs <= all) ==> |Universe(schemas, start) - (all + refs)| < |Universe(schemas, start) - all|
  {
    SweepStep(schemas, start, all, pending, name, refs);
    if !(refs <= all) {
      FewerLeft(Universe(schemas, start), all, all + refs);
    }
  }

  /** The worklist loop ends on cyclic graphs too, with exactly the reachable names. */
  method GetAllReferencedSchemas(schemas: Schemas, start: set<string>) returns (all: set<string>)
    requires forall n | n in schemas && Reachable(schemas, start, n) :: RefsAreStrings(schemas[n])
    ensures forall n :: n in all <==> Reachable(schemas, start, n)
  {
    all := start;
    var toProcess := ListOf(start);
    SweepStart(schemas, start);
    while toProcess != []
      invariant Sweep(schemas, start, all, Elements(toProcess))
      decreases |Universe(schemas, start) - all|, |toProcess|
    {
      all, toProcess := Round(schemas, start, all, toProcess);
    }
    forall n | Reachable(schemas, start, n) ensures n in all { ReachableIsLeast(schemas, start, all, n); }
  }

  lemma {:induction false} FewerLeft(universe: set<string>, small: set<string>, large: set<string>)
    requires small < large <= universe
    ensures |universe - large| < |universe - small|
  {
    assert universe - large < universe - small;
    SubsetSize(universe - large, universe - small);
  }

  // ---------------------------------------------------------------- cleaning a schema

  /** The keywords the clean-up looks at; it goes into no other value, not even into properties. */
  datatype Keyword = Properties | Required | Combinator | Items | Additional | Other

  function KeywordOf(k: string): Keyword {
    if k == "properties" then Properties
    else if k == "required" then Required
    else if k == "allOf" || k == "oneOf" || k == "anyOf" then Combinator
    else if k == "items" then Items
    else if k == "additionalProperties" then Additional
    else Other
  }

  predicate IsInternal(j: Json) { j.Str? && j.text in INTERNAL_PARAMETERS }

  function External(items: seq<Json>): (r: seq<Json>)
    ensures forall x | x in r :: x in items && !IsInternal(x)
    ensures (forall x | x in items :: !IsInternal(x)) ==> r == items
  {
    if items == [] then []
    else
      var last := |items| - 1;
      External(items[..last]) + (if IsInternal(items[last]) then [] else [items[last]])
  }

  lemma {:induction false} ExternalPicks(items: seq<Json>)
    ensures PicksOut(items, External(items), x => !IsInternal(x))
  {
    if items != [] {
      var last := |items| - 1;
      ExternalPicks(items[..last]);
      PicksOutSnoc(items[..last], External(items[..last]), x => !IsInternal(x), items[last]);
      assert items == items[..last] + [items[last]];
    }
  }

  predicate HasProperties(fields: map<string, Json>) {
    "properties" in fields && fields["properties"].Obj?
  }

  /** `required` goes away when nothing external is left in it. */
  predicate Dropped(fields: map<string, Json>, k: string)
    requires k in fields
  {
    KeywordOf(k).Required? && HasProperties(fields) && fields[k].Arr? && External(fields[k].items) == []
  }

  /** What the in-place clean-up turns a schema into. */
  function CleanSchema(j: Json): Json {
    match j
    case Obj(fields) =>
      Obj(map k | k in fields.Keys && !Dropped(fields, k) ::
        match KeywordOf(k)
        case Properties => if fields[k].Obj? then Obj(fields[k].fields - INTERNAL_PARAMETERS) else fields[k]
        case Required => if HasProperties(fields) && fields[k].Arr? then Arr(External(fields[k].items)) else fields[k]
        case Combinator =>
          (match fields[k]
           case Arr(items) => Arr(seq(|items|, i requires 0 <= i < |items| => CleanSchema(items[i])))
           case _ => fields[k])
        case Items => CleanSchema(fields[k])
        case Additional => if fields[k].Obj? then CleanSchema(fields[k]) else fields[k]
        case Other => fields[k])
    case _ => j
  }

  lemma {:induction false} CleanFieldIs(fields: map<string, Json>, k: string)
    ensures k in CleanSchema(Obj(fields)).fields <==> k in fields && !Dropped(fields, k)
    ensures k in fields && KeywordOf(k).Properties? ==>
              var c := CleanSchema(Obj(fields)).fields[k];
              c == if fields[k].Obj? then Obj(fields[k].fields - INTERNAL_PARAMETERS) else fields[k]
    ensures k in fields && KeywordOf(k).Required? && !Dropped(fields, k) ==>
              var c := CleanSchema(Obj(fields)).fields[k];
              c == if HasProperties(fields) && fields[k].Arr? then Arr(External(fields[k].items)) else fields[k]
    ensures k in fields && KeywordOf(k).Combinator? && fields[k].Arr? ==>
              var c := CleanSchema(Obj(fields)).fields[k];
              c.Arr? && |c.items| == |fields[k].items| && forall i | 0 <= i < |c.items| ::
                  c.items[i] == CleanSchema(fields[k].items[i])
    ensures k in fields && KeywordOf(k).Combinator? && !fields[k].Arr? ==>
              CleanSchema(Obj(fields)).fields[k] == fields[k]
    ensures k in fields && (KeywordOf(k).Items? || KeywordOf(k).Additional?) ==>
              CleanSchema(Obj(fields)).fields[k] == CleanSchema(fields[k])
    ensures k in fields && KeywordOf(k).Other? ==> CleanSchema(Obj(fields)).fields[k] == fields[k]
  {
    var j := Obj(fields);
    if k in j.fields.Keys && KeywordOf(k).Additional? && !j.fields[k].Obj? {
      assert CleanSchema(j.fields[k]) == j.fields[k];
    }
  }

  /** Cleaning removes references but never adds one. */
  lemma {:induction false} CleaningOnlyRemovesRefs(j: Json, r: string)
    requires r in Refs(CleanSchema(j))
    ensures r in Refs(j)
    decreases j
  {
    if j.Obj? {
      var fields, cleaned := j.fields, CleanSchema(j).fields;
      RefsOfObject(fields, r);
      RefsOfObject(cleaned, r);
      CleanFieldIs(fields, REF);
      if r !in OwnRef(cleaned) {
        var k :| k in cleaned.Keys && r in Refs(cleaned[k]);
        CleanFieldIs(fields, k);
        FieldOnlyRemovesRefs(j, k, r);
        assert UnderKeys(fields, fields.Keys, r);
      }
    }
  }

  lemma {:induction false} FieldOnlyRemovesRefs(j: Json, k: string, r: string)
    requires j.Obj? && k in j.fields && k in CleanSchema(j).fields && r in Refs(CleanSchema(j).fields[k])
    ensures r in Refs(j.fields[k])
    decreases j, 0
  {
    var was, cleaned := j.fields[k], CleanSchema(j).fields[k];
    CleanFieldIs(j.fields, k);
    match KeywordOf(k) {
      case Properties =>
        if was.Obj? {
          RefsOfObject(was.fields, r);
          RefsOfObject(cleaned.fields, r);
          if r !in OwnRef(cleaned.fields) {
            var p :| p in cleaned.fields.Keys && r in Refs(cleaned.fields[p]);
            assert UnderKeys(was.fields, was.fields.Keys, r);
          }
        }
      case Required =>
        if was != cleaned {
          RefsOfArray(was.items, r);
          RefsOfArray(cleaned.items, r);
          var i :| 0 <= i < |cleaned.items| && r in Refs(cleaned.items[i]);
          assert cleaned.items[i] in was.items;
        }
      case Combinator =>
        if was.Arr? {
          RefsOfArray(was.items, r);
          RefsOfArray(cleaned.items, r);
          var i :| 0 <= i < |cleaned.items| && r in Refs(cleaned.items[i]);
          CleaningOnlyRemovesRefs(was.items[i], r);
        }
      case Items => CleaningOnlyRemovesRefs(was, r);
      case Additional => CleaningOnlyRemovesRefs(was, r);
      case Other =>
    }
  }

  /** Cleaning a cleaned schema changes nothing. */
  lemma {:induction false} CleaningIsIdempotent(j: Json)
    ensures CleanSchema(CleanSchema(j)) == CleanSchema(j)
    decreases j
  {
    if j.Obj? {
      var fields, once := j.fields, CleanSchema(j).fields;
      var twice := CleanSchema(Obj(once)).fields;
      forall k
        ensures k in twice <==> k in once
        ensures k in once ==> twice[k] == once[k]
      {
        CleanFieldIs(fields, k);
        CleanFieldIs(once, k);
        CleanFieldIs(fields, "properties");
        if k in once {
          match KeywordOf(k) {
            case Combinator =>
              if fields[k].Arr? {
                forall i | 0 <= i < |fields[k].items|
                  ensures CleanSchema(CleanSchema(fields[k].items[i])) == CleanSchema(fields[k].items[i])
                {
                  CleaningIsIdempotent(fields[k].items[i]);
                }
                assert twice[k].items == once[k].items;
              }
            case Items => CleaningIsIdempotent(fields[k]);
            case Additional => CleaningIsIdempotent(fields[k]);
            case _ =>
          }
        }
      }
      assert twice == once;
    }
  }

  // ---------------------------------------------------------------- the in-place clean-up

  /** Deletes the internal entries of a dictionary one by one. */
  method DeleteInternal(props: map<string, Json>) returns (kept: map<string, Json>)
    ensures kept == props - INTERNAL_PARAMETERS
  {
    kept := props;
    var names := props.Keys;
    while names != {}
      invariant names <= props.Keys
      invariant kept == props - ((props.Keys - names) * INTERNAL_PARAMETERS)
      decreases names
    {
      var name :| name in names;
      if name in INTERNAL_PARAMETERS { kept := kept - {name}; }
      names := names - {name};
    }
  }

  method KeepExternal(items: seq<Json>) returns (kept: seq<Json>)
    ensures kept == External(items)
  {
    kept := [];
    for i := 0 to |items|
      invariant kept == External(items[..i])
    {
      assert items[..i + 1][..i] == items[..i];
      if !IsInternal(items[i]) { kept := kept + [items[i]]; }
    }
    assert items[..|items|] == items;
  }

  /** What the first block does to one key. */
  ghost predicate OwnDone(original: map<string, Json>, fields: map<string, Json>, k: string) {
    && (k in fields <==> k in original && !Dropped(original, k))
    && (k in fields && KeywordOf(k).Properties? && original[k].Obj? ==>
         fields[k] == Obj(original[k].fields - INTERNAL_PARAMETERS))
    && (k in fields && KeywordOf(k).Properties? && !original[k].Obj? ==> fields[k] == original[k])
    && (k in fields && KeywordOf(k).Required? && HasProperties(original) && original[k].Arr? ==>
          fields[k] == Arr(External(original[k].items)))
    && (k in fields && KeywordOf(k).Required? && !(HasProperties(original) && original[k].Arr?) ==>
         fields[k] == original[k])
    && (k in fields && !KeywordOf(k).Properties? && !KeywordOf(k).Required? ==> fields[k] == original[k])
  }

  lemma {:induction false} KeywordIs(k: string)
    ensures KeywordOf(k).Properties? <==> k == "properties"
    ensures KeywordOf(k).Required? <==> k == "required"
  {
    assert |"properties"| == 10 && |"required"| == 8;
  }

  /** The first block: properties and required. */
  method CleanOwnProperties(fields: map<string, Json>) returns (out: map<string, Json>)
    ensures forall k :: OwnDone(fields, out, k)
  {
    out := fields;
    if "properties" in out && out["properties"].Obj? {
      var props := DeleteInternal(out["properties"].fields);
      out := out["properties" := Obj(props)];
      KeywordIs("required");
      out := CleanRequired(fields, out);
    } else {
      forall k ensures OwnDone(fields, out, k) {
        KeywordIs(k);
      }
    }
  }

  /** The inner block, once the internal properties are deleted. */
  method CleanRequired(ghost original: map<string, Json>, fields: map<string, Json>) returns (out: map<string, Json>)
    requires HasProperties(original)
    requires fields == original["properties" := Obj(original["properties"].fields - INTERNAL_PARAMETERS)]
    ensures forall k :: OwnDone(original, out, k)
  {
    out := fields;
    KeywordIs("required");
    KeywordIs("properties");
    if "required" in out && out["required"].Arr? {
      var kept := KeepExternal(out["required"].items);
      out := if kept == [] then out - {"required"} else out["required" := Arr(kept)];
    }
    forall k ensures OwnDone(original, out, k) {
      KeywordIs(k);
    }
  }

  /** Between two statements: the keys in `todo` still hold what the schema came with. */
  ghost predicate Partly(original: map<string, Json>, fields: map<string, Json>, todo: set<string>) {
    && fields.Keys == CleanSchema(Obj(original)).fields.Keys <= original.Keys
    && forall k | k in fields :: fields[k] == if k in todo then original[k] else CleanSchema(Obj(original)).fields[k]
  }

  const NESTED: set<string> := {"allOf", "oneOf", "anyOf", "items", "additionalProperties"}

  lemma {:induction false} OwnKeyDone(original: map<string, Json>, fields: map<string, Json>, k: string)
    requires OwnDone(original, fields, k)
    ensures k in fields <==> k in CleanSchema(Obj(original)).fields
    ensures k in fields ==>
              k in original && fields[k] == if k in NESTED then original[k] else CleanSchema(Obj(original)).fields[k]
  {
    CleanFieldIs(original, k);
  }

  lemma {:induction false} OwnPropertiesDone(original: map<string, Json>, fields: map<string, Json>)
    requires forall k :: OwnDone(original, fields, k)
    ensures Partly(original, fields, NESTED)
  {
    var cleaned := CleanSchema(Obj(original)).fields;
    forall k
      ensures k in fields <==> k in cleaned
      ensures k in fields ==> k in original && fields[k] == if k in NESTED then original[k] else cleaned[k]
    {
      OwnKeyDone(original, fields, k);
    }
  }

  method CleanAll(items: seq<Json>) returns (out: seq<Json>)
    ensures |out| == |items| && forall i | 0 <= i < |items| :: out[i] == CleanSchema(items[i])
    decreases items, 0
  {
    out := [];
    for i := 0 to |items|
      invariant |out| == i && forall n | 0 <= n < i :: out[n] == CleanSchema(items[n])
    {
      var cleaned := RemoveInternalProperties(items[i]);
      out := out + [cleaned];
    }
  }

  /** One of allOf, oneOf and anyOf. */
  method CleanCombinator(ghost schema: Json, fields: map<string, Json>, ghost todo: set<string>, key: string)
    returns (out: map<string, Json>)
    requires schema.Obj? && Partly(schema.fields, fields, todo) && key in todo && KeywordOf(key).Combinator?
    ensures Partly(schema.fields, out, todo - {key})
    decreases schema, 0
  {
    out := fields;
    CleanFieldIs(schema.fields, key);
    if key in fields && fields[key].Arr? {
      assert fields[key] == schema.fields[key];
      var items := CleanAll(fields[key].items);
      assert items == CleanSchema(Obj(schema.fields)).fields[key].items;
      out := out[key := Arr(items)];
    }
  }

  /** `items`, or `additionalProperties` when it is a dictionary. */
  method CleanNested(ghost schema: Json, fields: map<string, Json>, ghost todo: set<string>, key: string)
    returns (out: map<string, Json>)
    requires schema.Obj? && Partly(schema.fields, fields, todo) && key in todo
    requires KeywordOf(key).Items? || KeywordOf(key).Additional?
    ensures Partly(schema.fields, out, todo - {key})
    decreases schema, 0
  {
    out := fields;
    CleanFieldIs(schema.fields, key);
    if key in fields && fields[key].Obj? {
      var cleaned := RemoveInternalProperties(fields[key]);
      out := out[key := cleaned];
    }
  }

  /** `remove_internal_properties_from_schema`: dictionary entries are replaced and deleted step by step. */
  method RemoveInternalProperties(schema: Json) returns (out: Json)
    ensures out == CleanSchema(schema)
    decreases schema, 1
  {
    if !schema.Obj? { return schema; }
    var fields := CleanOwnProperties(schema.fields);
    OwnPropertiesDone(schema.fields, fields);
    ghost var todo := NESTED;
    fields := CleanCombinator(schema, fields, todo, "allOf");
    todo := todo - {"allOf"};
    fields := CleanCombinator(schema, fields, todo, "oneOf");
    todo := todo - {"oneOf"};
    fields := CleanCombinator(schema, fields, todo, "anyOf");
    todo := todo - {"anyOf"};
    fields := CleanNested(schema, fields, todo, "items");
    todo := todo - {"items"};
    fields := CleanNested(schema, fields, todo, "additionalProperties");
    todo := todo - {"additionalProperties"};
    PartlyDone(schema.fields, fields, todo);
    out := Obj(fields);
  }

  lemma {:induction false} PartlyDone(original: map<string, Json>, fields: map<string, Json>, todo: set<string>)
    requires Partly(original, fields, todo) && todo == {}
    ensures Obj(fields) == CleanSchema(Obj(original))
  {
    assert fields == CleanSchema(Obj(original)).fields;
  }
}
