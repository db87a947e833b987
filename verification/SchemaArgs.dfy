/**
 How the migration runner hands a batch of schema names to its child process, and how the child's
 alembic/env.py reads them back.
 */
module SchemaArgs {
  import opened Lists
  import opened Outcomes
  import opened Text

  datatype Options = Options(
    createSchema: bool,
    upgradeAllTenants: bool,
    continueOnError: bool,
    rangeStart: Option<int>,
    rangeEnd: Option<int>,
    schemas: Option<seq<string>>)

  type XArgs = map<string, string>

  const SCHEMAS_KEY := "schemas"

  const CONTINUE_KEY := "continue"

  const START_KEY := "tenant_range_start"

  const END_KEY := "tenant_range_end"

  // ---------------------------------------------------------------- the parent's side

  function SchemasArgument(schemas: seq<string>): string {
    SCHEMAS_KEY + "=" + Join(schemas, ',')
  }

  /** The `-x` arguments of the first child, and of the second one that goes on after errors. */
  function ChildArguments(schemas: seq<string>, retry: bool): seq<string> {
    [SchemasArgument(schemas)] + (if retry then [CONTINUE_KEY + "=true"] else [])
  }

  // ---------------------------------------------------------------- the child's side

  /** Splits at the first `=`; None when there is none. */
  function KeyValue(arg: string): Option<(string, string)> {
    if arg == "" then None
    else if arg[0] == '=' then Some(("", arg[1..]))
    else match KeyValue(arg[1..])
      case None => None
      case Some((key, value)) => Some(([arg[0]] + key, value))
  }

  /** The dictionary of the `-x` arguments: later ones win, one without `=` raises. */
  function Collected(raw: seq<string>): Result<XArgs> {
    if raw == [] then Ok(map[])
    else
      var last := |raw| - 1;
      match Collected(raw[..last])
      case Err(message) => Err(message)
      case Ok(x) =>
        match KeyValue(raw[last])
        case None => Err("Invalid argument: " + raw[last])
        case Some((key, value)) => Ok(x[Strip(key) := Strip(value)])
  }

  method ReadXArgs(raw: seq<string>) returns (r: Result<XArgs>)
    ensures r == Collected(raw)
  {
    var x: XArgs := map[];
    for k := 0 to |raw|
      invariant Collected(raw[..k]) == Ok(x)
    {
      assert raw[..k + 1][..k] == raw[..k];
      match KeyValue(raw[k]) {
        case None =>
          r := Err("Invalid argument: " + raw[k]);
          CollectedStaysErr(raw, k + 1);
          return;
        case Some((key, value)) =>
          x := x[Strip(key) := Strip(value)];
      }
    }
    assert raw[..|raw|] == raw;
    r := Ok(x);
  }

  lemma {:induction false} CollectedStaysErr(raw: seq<string>, k: nat)
    requires k <= |raw| && Collected(raw[..k]).Err?
    ensures Collected(raw) == Collected(raw[..k])
  {
    if k == |raw| {
      assert raw[..k] == raw;
    } else {
      assert raw[..|raw| - 1][..k] == raw[..k];
      CollectedStaysErr(raw[..|raw| - 1], k);
    }
  }

  function Get(x: XArgs, key: string, fallback: string): string {
    if key in x then x[key] else fallback
  }

  /** `value.lower() == "true"`. */
  predicate IsTrue(value: string) {
    && |value| == 4
    && value[0] in {'t', 'T'} && value[1] in {'r', 'R'} && value[2] in {'u', 'U'} && value[3] in {'e', 'E'}
  }

  /** Strips every piece and drops the empty ones. */
  function Names(pieces: seq<string>): (r: seq<string>)
    ensures forall name | name in r :: name != "" && Trimmed(name)
  {
    if pieces == [] then []
    else
      var name := Strip(pieces[0]);
      (if name == "" then [] else [name]) + Names(pieces[1..])
  }

  function SchemaNames(x: XArgs): Option<seq<string>> {
    if SCHEMAS_KEY !in x then None
    else
      var listed := Strip(x[SCHEMAS_KEY]);
      if listed == "" then None else Some(Names(Split(listed, ',')))
  }

  /** An integer argument: absent, an integer, or an error. `toInt` stands for Python's `int`. */
  function IntArgument(x: XArgs, key: string, toInt: string -> Option<int>): Result<Option<int>> {
    if key !in x then Ok(None)
    else match toInt(x[key])
      case None => Err("Invalid " + key + " value")
      case Some(n) => Ok(Some(n))
  }

  /** Everything `get_schema_options` decides (messages abridged) once the arguments are in a dictionary. */
  function SchemaOptions(x: XArgs, multiTenant: bool, toInt: string -> Option<int>): Result<Options> {
    var upgradeAll := IsTrue(Get(x, "upgrade_all_tenants", "false"));
    match (IntArgument(x, START_KEY, toInt), IntArgument(x, END_KEY, toInt))
    case (Err(message), _) => Err(message)
    case (Ok(_), Err(message)) => Err(message)
    case (Ok(start), Ok(end)) =>
      if start.Some? && end.Some? && start.value > end.value then
        Err("range")
      else
        var schemas := SchemaNames(x);
        var byRange := start.Some? || end.Some?;
        var byName := schemas.Some? && |schemas.value| > 0;
        if byRange && byName then
          Err("range, names")
        else if upgradeAll && byName then
          Err("all, names")
        else if multiTenant && !(upgradeAll || byRange) && !byName then
          Err("nothing")
        else
          Ok(Options(
            IsTrue(Get(x, "create_schema", "true")),
            upgradeAll || byRange,
            IsTrue(Get(x, CONTINUE_KEY, "false")),
            start, end, schemas))
  }

  /** `get_schema_options`. */
  method GetSchemaOptions(raw: seq<string>, multiTenant: bool, toInt: string -> Option<int>)
    returns (r: Result<Options>)
    ensures r.Err? <==> Collected(raw).Err? || Refused(Collected(raw).value, multiTenant, toInt)
    ensures r.Ok? ==> Decided(Collected(raw).value, toInt, r.value)
    ensures r == ChildOptions(raw, multiTenant, toInt)
  {
    var collected := ReadXArgs(raw);
    if collected.Err? { return Err(collected.message); }
    r := CheckedOptions(collected.value, multiTenant, toInt);
    ErrIffRefused(collected.value, multiTenant, toInt);
    OkIsDecided(collected.value, multiTenant, toInt);
  }

  /** One check after another, each of which may raise. */
  method CheckedOptions(x: XArgs, multiTenant: bool, toInt: string -> Option<int>) returns (r: Result<Options>)
    ensures r == SchemaOptions(x, multiTenant, toInt)
  {
    var upgradeAll := IsTrue(Get(x, "upgrade_all_tenants", "false"));
    var start := IntArgument(x, START_KEY, toInt);
    if start.Err? { return Err(start.message); }
    var end := IntArgument(x, END_KEY, toInt);
    if end.Err? { return Err(end.message); }
    if start.value.Some? && end.value.Some? && start.value.value > end.value.value {
      return Err("range");
    }
    var schemas := SchemaNames(x);
    var byRange := start.value.Some? || end.value.Some?;
    var byName := schemas.Some? && |schemas.value| > 0;
    if byRange && byName { return Err("range, names"); }
    if upgradeAll && byName { return Err("all, names"); }
    if byRange { upgradeAll := true; }
    if multiTenant && !upgradeAll && !byName {
      return Err("nothing");
    }
    r := Ok(Options(IsTrue(Get(x, "create_schema", "true")), upgradeAll, IsTrue(Get(x, CONTINUE_KEY, "false")),
                    start.value, end.value, schemas));
  }

  // ---------------------------------------------------------------- which arguments are refused

  predicate WantsAll(x: XArgs) { IsTrue(Get(x, "upgrade_all_tenants", "false")) }

  predicate GivesRange(x: XArgs) { START_KEY in x || END_KEY in x }

  /** Between the commas stands something other than white space. */
  predicate GivesNames(x: XArgs) {
    SCHEMAS_KEY in x && exists piece :: piece in Split(Strip(x[SCHEMAS_KEY]), ',') && Strip(piece) != ""
  }

  predicate NotANumber(x: XArgs, key: string, toInt: string -> Option<int>) { key in x && toInt(x[key]).None? }

  predicate Crossed(x: XArgs, toInt: string -> Option<int>) {
    START_KEY in x && END_KEY in x
    && match (toInt(x[START_KEY]), toInt(x[END_KEY]))
       case (Some(a), Some(b)) => a > b
       case _ => false
  }

  /** A bound that is no number, crossed bounds, two ways to choose, or none where one is demanded. */
  predicate Refused(x: XArgs, multiTenant: bool, toInt: string -> Option<int>) {
    || NotANumber(x, START_KEY, toInt) || NotANumber(x, END_KEY, toInt) || Crossed(x, toInt)
    || ((GivesRange(x) || WantsAll(x)) && GivesNames(x))
    || (multiTenant && !WantsAll(x) && !GivesRange(x) && !GivesNames(x))
  }

  lemma {:induction false} NamesIff(pieces: seq<string>, name: string)
    ensures name in Names(pieces) <==> name != "" && exists piece :: piece in pieces && Strip(piece) == name
  {
    if pieces != [] {
      NamesIff(pieces[1..], name);
      assert forall piece :: piece in pieces <==> piece == pieces[0] || piece in pieces[1..];
    }
  }

  function Stripped(pieces: seq<string>): (r: seq<string>)
    ensures |r| == |pieces| && forall i | 0 <= i < |r| :: r[i] == Strip(pieces[i])
  {
    seq(|pieces|, i requires 0 <= i < |pieces| => Strip(pieces[i]))
  }

  /** The names are the stripped pieces in their order, the empty ones left out. */
  lemma {:induction false} NamesPick(pieces: seq<string>)
    ensures PicksOut(Stripped(pieces), Names(pieces), name => name != "")
  {
    if pieces != [] {
      NamesPick(pieces[1..]);
      assert Stripped(pieces)[1..] == Stripped(pieces[1..]);
      if Strip(pieces[0]) == "" {
        assert Names(pieces) == [] + Names(pieces[1..]) == Names(pieces[1..]);
      } else {
        assert Names(pieces)[1..] == Names(pieces[1..]);
      }
    }
  }

  /** The names are the non-blank pieces between the commas, stripped. */
  lemma {:induction false} SchemaNamesIff(x: XArgs, name: string)
    ensures SchemaNames(x).Some? && name in SchemaNames(x).value <==>
              && SCHEMAS_KEY in x && name != ""
              && exists piece :: piece in Split(Strip(x[SCHEMAS_KEY]), ',') && Strip(piece) == name
  {
    if SCHEMAS_KEY in x { NamesIff(Split(Strip(x[SCHEMAS_KEY]), ','), name); }
  }

  lemma {:induction false} NamedIff(x: XArgs)
    ensures SchemaNames(x).Some? && |SchemaNames(x).value| > 0 <==> GivesNames(x)
  {
    if SchemaNames(x).Some? && |SchemaNames(x).value| > 0 { SchemaNamesIff(x, SchemaNames(x).value[0]); }
    if GivesNames(x) {
      var piece :| piece in Split(Strip(x[SCHEMAS_KEY]), ',') && Strip(piece) != "";
      SchemaNamesIff(x, Strip(piece));
    }
  }

  /** Exactly which arguments raise. */
  lemma {:induction false} ErrIffRefused(x: XArgs, multiTenant: bool, toInt: string -> Option<int>)
    ensures SchemaOptions(x, multiTenant, toInt).Err? <==> Refused(x, multiTenant, toInt)
  {
    NamedIff(x);
  }

  predicate BoundIs(x: XArgs, key: string, toInt: string -> Option<int>, bound: Option<int>) {
    bound == if key in x then toInt(x[key]) else None
  }

  /**
   Options that make sense together: never tenants and names at once, all tenants when a range is
   given, bounds in order, and only names that survived the trip.
   */
  predicate Decided(x: XArgs, toInt: string -> Option<int>, o: Options) {
    var named := o.schemas.Some? && o.schemas.value != [];
    && BoundIs(x, START_KEY, toInt, o.rangeStart) && BoundIs(x, END_KEY, toInt, o.rangeEnd)
    && (o.rangeStart.Some? && o.rangeEnd.Some? ==> o.rangeStart.value <= o.rangeEnd.value)
    && (o.rangeStart.Some? || o.rangeEnd.Some? ==> o.upgradeAllTenants)
    && (o.upgradeAllTenants <==> WantsAll(x) || GivesRange(x))
    && (o.upgradeAllTenants ==> !named)
    && (named <==> GivesNames(x)) && o.schemas == SchemaNames(x)
    && (o.schemas.Some? ==> forall name | name in o.schemas.value :: GoodName(name))
    && (o.createSchema <==> IsTrue(Get(x, "create_schema", "true")))
    && (o.continueOnError <==> IsTrue(Get(x, CONTINUE_KEY, "false")))
  }

  lemma {:induction false} OkIsDecided(x: XArgs, multiTenant: bool, toInt: string -> Option<int>)
    ensures SchemaOptions(x, multiTenant, toInt).Ok? ==>
              var o := SchemaOptions(x, multiTenant, toInt).value;
              && Decided(x, toInt, o)
              && (multiTenant ==> o.upgradeAllTenants || (o.schemas.Some? && o.schemas.value != []))
  {
    NamedIff(x);
    SchemaNamesAreGood(x);
  }

  /** What the child ends up with for a list of `-x` arguments. */
  function ChildOptions(raw: seq<string>, multiTenant: bool, toInt: string -> Option<int>): Result<Options> {
    match Collected(raw)
    case Err(message) => Err(message)
    case Ok(x) => SchemaOptions(x, multiTenant, toInt)
  }

  // ---------------------------------------------------------------- round trip

  /** A name that survives the trip. */
  predicate GoodName(name: string) {
    name != "" && Trimmed(name) && ',' !in name
  }

  lemma {:induction false} KeyValueAtFirst(key: string, value: string)
    requires '=' !in key
    ensures KeyValue(key + "=" + value) == Some((key, value))
  {
    var arg := key + "=" + value;
    if key == "" {
      assert arg == "=" + value;
    } else {
      assert arg[1..] == key[1..] + "=" + value;
      KeyValueAtFirst(key[1..], value);
      assert [key[0]] + key[1..] == key;
    }
  }

  lemma {:induction false} NamesOfGood(names: seq<string>)
    requires forall name | name in names :: GoodName(name)
    ensures Names(names) == names
  {
    if names != [] {
      assert GoodName(names[0]);
      NamesOfGood(names[1..]);
      assert [names[0]] + names[1..] == names;
    }
  }

  lemma {:induction false} JoinOfGood(names: seq<string>)
    requires names != [] && forall name | name in names :: GoodName(name)
    ensures Join(names, ',') != "" && Trimmed(Join(names, ','))
  {
    assert GoodName(names[0]);
    if |names| > 1 {
      JoinOfGood(names[1..]);
      var rest := Join(names[1..], ',');
      var all := Join(names, ',');
      assert all == names[0] + [','] + rest;
      assert all[0] == names[0][0];
      assert all[|all| - 1] == rest[|rest| - 1];
    }
  }

  lemma {:induction false} LStripKeeps(s: string, c: char)
    ensures c in LStrip(s) ==> c in s
  {
    if s != "" && IsSpace(s[0]) {
      LStripKeeps(s[1..], c);
    }
  }

  lemma {:induction false} NamesLackSeparator(pieces: seq<string>, sep: char)
    requires forall p | p in pieces :: sep !in p
    ensures forall name | name in Names(pieces) :: sep !in name
  {
    if pieces != [] {
      LStripKeeps(pieces[0], sep);
      assert sep !in Strip(pieces[0]);
      NamesLackSeparator(pieces[1..], sep);
    }
  }

  lemma {:induction false} SchemaNamesAreGood(x: XArgs)
    ensures SchemaNames(x).Some? ==> forall name | name in SchemaNames(x).value :: GoodName(name)
  {
    if SchemaNames(x).Some? {
      SplitPiecesLackSeparator(Strip(x[SCHEMAS_KEY]), ',');
      NamesLackSeparator(Split(Strip(x[SCHEMAS_KEY]), ','), ',');
    }
  }

  lemma {:induction false} KeysSurvive()
    ensures Strip(SCHEMAS_KEY) == SCHEMAS_KEY && '=' !in SCHEMAS_KEY
    ensures Strip(CONTINUE_KEY) == CONTINUE_KEY && '=' !in CONTINUE_KEY
    ensures Strip("true") == "true"
    ensures SCHEMAS_KEY != CONTINUE_KEY
  {
    assert SCHEMAS_KEY[0] != CONTINUE_KEY[0];
  }

  lemma {:induction false} CollectedSnoc(raw: seq<string>, key: string, value: string)
    requires Collected(raw).Ok? && '=' !in key
    ensures Collected(raw + [key + "=" + value]) == Ok(Collected(raw).value[Strip(key) := Strip(value)])
  {
    KeyValueAtFirst(key, value);
    assert (raw + [key + "=" + value])[..|raw|] == raw;
  }

  function ChildXArgs(schemas: seq<string>, retry: bool): XArgs {
    var x: XArgs := map[SCHEMAS_KEY := Strip(Join(schemas, ','))];
    if retry then x[CONTINUE_KEY := "true"] else x
  }

  lemma {:induction false} ChildDictionary(schemas: seq<string>, retry: bool)
    ensures Collected(ChildArguments(schemas, retry)) == Ok(ChildXArgs(schemas, retry))
  {
    var first: seq<string> := [SchemasArgument(schemas)];
    KeysSurvive();
    CollectedSnoc([], SCHEMAS_KEY, Join(schemas, ','));
    assert [] + first == first;
    if retry {
      RetryArgument(schemas);
      CollectedSnoc(first, CONTINUE_KEY, "true");
    } else {
      assert ChildArguments(schemas, false) == first;
    }
  }

  lemma {:induction false} RetryArgument(schemas: seq<string>)
    ensures ChildArguments(schemas, true) == [SchemasArgument(schemas)] + [CONTINUE_KEY + "=" + "true"]
  {
    assert CONTINUE_KEY + "=true" == CONTINUE_KEY + "=" + "true";
  }

  lemma {:induction false} OnlyTwoKeys(x: XArgs)
    requires x.Keys <= {SCHEMAS_KEY, CONTINUE_KEY}
    ensures "create_schema" !in x && "upgrade_all_tenants" !in x
    ensures START_KEY !in x && END_KEY !in x
    ensures IsTrue("true") && !IsTrue("false")
  {
    assert |SCHEMAS_KEY| == 7 && |CONTINUE_KEY| == 8;
    assert |"create_schema"| == 13 && |"upgrade_all_tenants"| == 19;
    assert |START_KEY| == 18 && |END_KEY| == 16;
  }

  /** With only these keys the options are the listed names and whether to go on after errors. */
  lemma {:induction false} ChildDecides(schemas: seq<string>, retry: bool, multiTenant: bool,
                                        toInt: string -> Option<int>)
    ensures var x := ChildXArgs(schemas, retry);
            if multiTenant && (SchemaNames(x).None? || SchemaNames(x).value == [])
            then SchemaOptions(x, multiTenant, toInt).Err?
            else SchemaOptions(x, multiTenant, toInt) == Ok(Options(true, false, retry, None, None, SchemaNames(x)))
  {
    KeysSurvive();
    OnlyTwoKeys(ChildXArgs(schemas, retry));
  }

  lemma {:induction false} NamesReadBack(schemas: seq<string>, retry: bool)
    ensures SchemaNames(ChildXArgs(schemas, retry)) == Some(schemas) && schemas != []
       <==> schemas != [] && forall name | name in schemas :: GoodName(name)
  {
    KeysSurvive();
    var x := ChildXArgs(schemas, retry);
    assert x[SCHEMAS_KEY] == Strip(Join(schemas, ','));
    if schemas != [] && forall name | name in schemas :: GoodName(name) {
      JoinOfGood(schemas);
      SplitJoin(schemas, ',');
      NamesOfGood(schemas);
    } else {
      SchemaNamesAreGood(x);
    }
  }

  lemma {:induction false} NothingReadBack(retry: bool)
    ensures SchemaNames(ChildXArgs([], retry)) == None
  {
    KeysSurvive();
    assert Strip("") == "";
  }

  /**
   The child migrates exactly the batch the parent printed, in the same order, if and only if the
   batch is not empty and every name is non-empty, has no comma and no outer white space. Names
   may contain `=`. The retry differs only in going on after errors.
   */
  lemma {:induction false} BatchRoundTrip(schemas: seq<string>, retry: bool, multiTenant: bool,
                                          toInt: string -> Option<int>)
    ensures ChildOptions(ChildArguments(schemas, retry), multiTenant, toInt)
              == Ok(Options(true, false, retry, None, None, Some(schemas)))
        <==> schemas != [] && forall name | name in schemas :: GoodName(name)
  {
    ChildDictionary(schemas, retry);
    ChildDecides(schemas, retry, multiTenant, toInt);
    NamesReadBack(schemas, retry);
    NothingReadBack(retry);
  }
}
