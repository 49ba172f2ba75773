/** Declarative argument namespaces: a class declares attributes, and each
    instance resolves every attribute's value from the parsed command line,
    the constructor keywords, the environment and the configuration, in that
    order, falling back to the attribute's default.  The parsed command line
    already holds the default of an argument left off it.  Reflection and
    the argument parser itself are outside the model: what they would supply
    is taken as input. */
module Namespaces {
  import opened Common

  // ---------------------------------------------------------------------
  // Values and their Python readings
  // ---------------------------------------------------------------------

  /** An attribute value.  `Other` stands for any other object, with the
      text `str()` gives for it and its truthiness. */
  datatype Value =
    | Text(s: string)
    | Int(i: int)
    | Flag(b: bool)
    | ClassMethod(repr: string)
    | Other(repr: string, truthy: bool)

  /** Python truthiness. */
  predicate TruthyValue(v: Value) {
    match v
    case Text(s) => s != ""
    case Int(i) => i != 0
    case Flag(b) => b
    case ClassMethod(_) => true
    case Other(_, t) => t
  }

  /** `str(v)`. */
  function Str(v: Value): string {
    match v
    case Text(s) => s
    case Int(i) => IntToDecimal(i)
    case Flag(b) => if b then "True" else "False"
    case ClassMethod(r) => r
    case Other(r, _) => r
  }

  /** `str(v)` for a value that may be `None`. */
  function StrOpt(v: Option<Value>): string {
    match v
    case None => "None"
    case Some(x) => Str(x)
  }

  // ---------------------------------------------------------------------
  // Argument names
  // ---------------------------------------------------------------------

  /** The command-line name of attribute `name`: prefixed by `prefix` and an
      underscore when the prefix is set and non-empty. */
  function ArgName(prefix: Option<string>, name: string): (a: string)
    ensures !Truthy(prefix) ==> a == name
    ensures Truthy(prefix) ==> |a| == |prefix.value| + 1 + |name| && StartsWith(a, prefix.value + "_")
  {
    if Truthy(prefix) then prefix.value + "_" + name else name
  }

  /** The attribute named by a command-line name (the reading of `ArgName`). */
  function NameOf(prefix: Option<string>, arg: string): Option<string> {
    if !Truthy(prefix) then Some(arg)
    else if StartsWith(arg, prefix.value + "_") then Some(arg[|prefix.value| + 1..])
    else None
  }

  /** Under one prefix, every attribute has its own command-line name. */
  lemma ArgNameRoundTrip(prefix: Option<string>, name: string)
    ensures NameOf(prefix, ArgName(prefix, name)) == Some(name)
  {
    if Truthy(prefix) {
      var a := ArgName(prefix, name);
      assert a == (prefix.value + "_") + name;
      assert a[|prefix.value| + 1..] == name;
    }
  }

  // ---------------------------------------------------------------------
  // Attribute declarations and their command-line arguments
  // ---------------------------------------------------------------------

  /** The origin of a parameterised type. */
  datatype Origin = ListOrigin | SetOrigin | TupleOrigin | OtherOrigin(name: string)

  /** An attribute's declared type: a plain class, the `list` class, a list
      instance, or a parameterised type (`args` empty when it has none). */
  datatype Type =
    | Named(name: string)
    | ListClass
    | ListInstance(items: seq<Type>)
    | Generic(origin: Origin, args: seq<Type>)

  /** An attribute declaration: its type (`str` when none is given), its
      default, whether it is required, its configuration key, its help text,
      and the `nargs` and `action` it asks the parser for. */
  datatype AttrDecl = AttrDecl(name: string, typ: Type, default: Option<Value>, required: bool,
                               key: Option<string>, help: Option<string>, nargs: Option<string>,
                               action: Option<string>)

  /** Python truthiness of a declared type: classes and parameterised types
      are true, a list instance is true exactly when it is not empty. */
  predicate TypeTruthy(t: Type) {
    !t.ListInstance? || t.items != []
  }

  /** The declaration made without a type, or with a falsy one (`type or str`),
      gets `str`. */
  function MakeAttr(name: string, typ: Option<Type>, default: Option<Value>, required: bool,
                    key: Option<string>, help: Option<string>, nargs: Option<string>,
                    action: Option<string>): (a: AttrDecl)
    ensures typ.None? || typ == Some(ListInstance([])) ==> a.typ == Named("str")
    ensures typ.Some? && TypeTruthy(typ.value) ==> a.typ == typ.value
    ensures a.typ.ListInstance? ==> a.typ.items != []
    ensures a.name == name && a.default == default && a.required == required
    ensures a.key == key && a.help == help && a.nargs == nargs && a.action == action
  {
    AttrDecl(name, if typ.Some? && TypeTruthy(typ.value) then typ.value else Named("str"),
             default, required, key, help, nargs, action)
  }

  /** A type that collects several command-line words. */
  predicate IsListLike(t: Type) {
    t == ListClass || t.ListInstance? ||
    (t.Generic? && t.args != [] && t.origin in {ListOrigin, SetOrigin, TupleOrigin})
  }

  /** The `nargs` and the element type given to the parser: a `list` class
      or list instance takes any number of strings; a list, set or tuple
      type with a parameter takes any number of its first parameter; any
      other type is kept with the declared `nargs`. */
  function ArgType(t: Type, nargs: Option<string>): (r: (Option<string>, Type))
    ensures r.0 == Some("*") <==> IsListLike(t) || nargs == Some("*")
    ensures !IsListLike(t) ==> r == (nargs, t)
    ensures t == ListClass || t.ListInstance? ==> r.1 == Named("str")
    ensures t.Generic? && IsListLike(t) ==> r.1 == t.args[0]
  {
    var (n1, t1) := if t == ListClass || t.ListInstance? then (Some("*"), Named("str")) else (nargs, t);
    if t1.Generic? && t1.args != [] && t1.origin in {ListOrigin, SetOrigin, TupleOrigin}
    then (Some("*"), t1.args[0])
    else (n1, t1)
  }

  /** The non-empty strings of `parts`, in order (Python's `filter(None, ...)`). */
  function NonEmpty(parts: seq<string>): (r: seq<string>)
    ensures forall s | s in r :: s != "" && s in parts
    ensures |r| <= |parts|
  {
    if parts == [] then []
    else if parts[0] == "" then NonEmpty(parts[1..])
    else [parts[0]] + NonEmpty(parts[1..])
  }

  /** Whether the attribute is required, as shown in its help. */
  function Tag(a: AttrDecl): (r: string)
    ensures r != ""
  {
    if a.required then "[required]" else "[optional]"
  }

  /** The attribute's own help text, empty when it has none. */
  function HelpText(a: AttrDecl): (r: string)
    ensures r != "" <==> Truthy(a.help)
  {
    if a.help.Some? then a.help.value else ""
  }

  /** The attribute's default, shown only when it is truthy. */
  function DefaultText(a: AttrDecl): (r: string)
    ensures r != "" <==> a.default.Some? && TruthyValue(a.default.value)
    ensures r != "" ==> r == "(default: " + Str(a.default.value) + ")"
  {
    if a.default.Some? && TruthyValue(a.default.value) then "(default: " + Str(a.default.value) + ")" else ""
  }

  /** The help text shown for an attribute: the tag, its help and its
      default, leaving out the empty ones, space separated. */
  function Description(a: AttrDecl): string {
    Join(" ", NonEmpty([Tag(a), HelpText(a), DefaultText(a)]))
  }

  /** The description spelled out: the tag, then each present part after
      one space. */
  lemma DescriptionForm(a: AttrDecl)
    ensures Description(a) ==
      Tag(a) + (if Truthy(a.help) then " " + HelpText(a) else "")
             + (if DefaultText(a) != "" then " " + DefaultText(a) else "")
  {
    var tag, help, dflt := Tag(a), HelpText(a), DefaultText(a);
    var parts := [tag, help, dflt];
    assert parts[1..] == [help, dflt];
    assert [help, dflt][1..] == [dflt];
    assert [dflt][1..] == [];
    assert NonEmpty(parts) == [tag] + NonEmpty([help, dflt]);
    if help == "" {
      if dflt != "" {
        assert NonEmpty(parts) == [tag, dflt];
        assert Join(" ", [tag, dflt]) == tag + " " + dflt by { assert [tag, dflt][1..] == [dflt]; }
      } else {
        assert NonEmpty(parts) == [tag];
      }
    } else if dflt != "" {
      assert NonEmpty(parts) == [tag, help, dflt];
      assert Join(" ", [help, dflt]) == help + " " + dflt;
      assert Join(" ", parts) == tag + " " + (help + " " + dflt);
    } else {
      assert NonEmpty(parts) == [tag, help];
      assert Join(" ", [tag, help]) == tag + " " + help by { assert [tag, help][1..] == [help]; }
    }
  }

  /** The argument the parser is given for one attribute; `typ` is `None`
      when no type is passed. */
  datatype Argument = Argument(flag: string, typ: Option<Type>, nargs: Option<string>, action: Option<string>,
                               help: string, default: Option<Value>)

  /** The parser argument of an attribute: an attribute with an `action` is
      registered without a type, any other with its element type. */
  function ArgumentFor(prefix: Option<string>, a: AttrDecl): (arg: Argument)
    ensures arg.flag == "--" + ArgName(prefix, a.name)
    ensures arg.default == a.default && arg.help == Description(a) && arg.action == a.action
    ensures arg.nargs == ArgType(a.typ, a.nargs).0
    ensures arg.typ.None? <==> a.action.Some?
    ensures arg.typ.Some? ==> arg.typ.value == ArgType(a.typ, a.nargs).1
  {
    var (nargs, typ) := ArgType(a.typ, a.nargs);
    Argument("--" + ArgName(prefix, a.name), if a.action.Some? then None else Some(typ), nargs, a.action,
             Description(a), a.default)
  }

  /** An attribute declared with `type=[]` is a plain string option: the
      declared `nargs` reaches the parser unchanged and the type is `str`. */
  lemma EmptyListTypeIsStr(prefix: Option<string>, name: string, nargs: Option<string>)
    ensures var a := MakeAttr(name, Some(ListInstance([])), None, false, None, None, nargs, None);
            ArgumentFor(prefix, a).nargs == nargs && ArgumentFor(prefix, a).typ == Some(Named("str"))
  {
  }

  // ---------------------------------------------------------------------
  // Resolving one attribute
  // ---------------------------------------------------------------------

  /** What the sources hold: the words given on the command line and the
      environment, by argument name (an argument left off the command line
      is absent from `given`), the constructor keywords and the
      configuration by key.  `useEnv` says whether the environment is
      consulted and `key` is the configuration section the namespace was
      given. */
  datatype Sources = Sources(prefix: Option<string>, given: map<string, Value>, kw: map<string, Option<Value>>,
                             useEnv: bool, env: map<string, Value>, cfg: map<string, Value>, key: Option<string>)

  function Get<K, V>(m: map<K, V>, k: K): Option<V> {
    if k in m then Some(m[k]) else None
  }

  /** `cfg.get(k, default)`. */
  function CfgGet(cfg: map<string, Value>, k: string, default: Option<Value>): Option<Value> {
    if k in cfg then Some(cfg[k]) else default
  }

  /** What the parsed namespace holds for `a`: the word given for its
      argument, or else the default the argument was registered with. */
  function Parsed(a: AttrDecl, src: Sources): Option<Value> {
    var arg := ArgName(src.prefix, a.name);
    if arg in src.given then Some(src.given[arg]) else a.default
  }

  /** The resolution once the first source gave `v1`: the constructor
      keyword, else the environment (when consulted), else the
      configuration at the attribute's key, or at its name when the
      namespace has a configuration section, or else the default. */
  function ResolveAfter(v1: Option<Value>, a: AttrDecl, src: Sources): Option<Value> {
    var arg := ArgName(src.prefix, a.name);
    var v2 := if v1.None? && a.name in src.kw then src.kw[a.name] else v1;
    var v3 := if v2.None? && src.useEnv then Get(src.env, arg) else v2;
    if v3.Some? then v3
    else if Truthy(a.key) then CfgGet(src.cfg, a.key.value, a.default)
    else if Truthy(src.key) then CfgGet(src.cfg, a.name, a.default)
    else a.default
  }

  /** The value of attribute `a` as the constructor computes it: the first
      source is the parsed namespace, which already holds the default of an
      argument left off the command line. */
  function Resolve(a: AttrDecl, src: Sources): Option<Value> {
    ResolveAfter(Parsed(a, src), a, src)
  }

  /** The value of attribute `a` in the documented order: the command line
      (only the words given), the constructor keyword, the environment, the
      configuration, and the default last. */
  function DocumentedResolve(a: AttrDecl, src: Sources): Option<Value> {
    ResolveAfter(Get(src.given, ArgName(src.prefix, a.name)), a, src)
  }

  /** The first present value of a list of candidates. */
  function FirstSome(vs: seq<Option<Value>>): (r: Option<Value>)
    ensures r.Some? <==> exists i | 0 <= i < |vs| :: vs[i].Some?
  {
    if vs == [] then None else if vs[0].Some? then vs[0] else FirstSome(vs[1..])
  }

  /** The fallback once the command line, keywords and environment give
      nothing. */
  function Fallback(a: AttrDecl, src: Sources): Option<Value> {
    if Truthy(a.key) then CfgGet(src.cfg, a.key.value, a.default)
    else if Truthy(src.key) then CfgGet(src.cfg, a.name, a.default)
    else a.default
  }

  /** The candidates after the first one, in their order of precedence. */
  function LaterSources(a: AttrDecl, src: Sources): seq<Option<Value>> {
    [if a.name in src.kw then src.kw[a.name] else None,
     if src.useEnv then Get(src.env, ArgName(src.prefix, a.name)) else None,
     Fallback(a, src)]
  }

  /** Resolving after `v1` is taking the first value present among `v1` and
      the later sources. */
  lemma ResolveAfterFirstSome(v1: Option<Value>, a: AttrDecl, src: Sources)
    ensures ResolveAfter(v1, a, src) == FirstSome([v1] + LaterSources(a, src))
  {
    var later := LaterSources(a, src);
    var v2, v3, v4 := later[0], later[1], later[2];
    var vs := [v1] + later;
    assert vs == [v1, v2, v3, v4];
    assert vs[1..] == [v2, v3, v4];
    assert [v2, v3, v4][1..] == [v3, v4];
    assert [v3, v4][1..] == [v4];
    assert [v4][1..] == [];
    assert FirstSome([v4]) == v4;
    assert FirstSome([v3, v4]) == if v3.Some? then v3 else v4;
    assert FirstSome([v2, v3, v4]) == if v2.Some? then v2 else if v3.Some? then v3 else v4;
    assert FirstSome(vs) == if v1.Some? then v1 else if v2.Some? then v2 else if v3.Some? then v3 else v4;
  }

  /** As the constructor computes it, the value is the first present among
      the parsed namespace (the word given, else the default), the
      constructor keyword, the environment and the configuration. */
  lemma ResolvePrecedence(a: AttrDecl, src: Sources)
    ensures Resolve(a, src) == FirstSome([Parsed(a, src)] + LaterSources(a, src))
  {
    ResolveAfterFirstSome(Parsed(a, src), a, src);
  }

  /** In the documented order, the value is the first present among the
      words given, the constructor keyword, the environment and the
      configuration with the default as its fallback. */
  lemma DocumentedPrecedence(a: AttrDecl, src: Sources)
    ensures DocumentedResolve(a, src) ==
      FirstSome([Get(src.given, ArgName(src.prefix, a.name))] + LaterSources(a, src))
  {
    ResolveAfterFirstSome(Get(src.given, ArgName(src.prefix, a.name)), a, src);
  }

  /** An attribute with a default never reaches the keyword, environment or
      configuration: its value is the word given, or else the default. */
  lemma DefaultShadowsLaterSources(a: AttrDecl, src: Sources)
    requires a.default.Some?
    ensures var arg := ArgName(src.prefix, a.name);
      Resolve(a, src) == if arg in src.given then Some(src.given[arg]) else a.default
  {
  }

  /** The two orders agree except on an attribute with a default whose
      argument is left off the command line, which keeps its default. */
  lemma ResolveAgainstDocumented(a: AttrDecl, src: Sources)
    ensures var arg := ArgName(src.prefix, a.name);
      Resolve(a, src) == DocumentedResolve(a, src) ||
      (a.default.Some? && arg !in src.given && Resolve(a, src) == a.default)
    ensures a.default.None? ==> Resolve(a, src) == DocumentedResolve(a, src)
  {
  }

  /** An attribute `x` of type `int` with default 1, constructed with the
      keyword `x=2` and no `--x` on the command line, resolves to 1, where the
      documented order gives the keyword's 2. */
  lemma KeywordShadowedByDefault()
    ensures var a := AttrDecl("x", Named("int"), Some(Int(1)), false, None, None, None, None);
      var src := Sources(None, map[], map["x" := Some(Int(2))], false, map[], map[], None);
      Resolve(a, src) == Some(Int(1)) && DocumentedResolve(a, src) == Some(Int(2))
  {
  }

  /** What resolving one attribute does: assign its value, or report it as
      missing. */
  datatype Outcome = Assign(name: string, value: Option<Value>) | Missing(message: string)

  /** A required attribute without a value is reported by its flag; any
      other attribute is assigned its value, `None` included. */
  function OutcomeOf(a: AttrDecl, src: Sources): (o: Outcome)
    ensures o.Missing? <==> a.required && Resolve(a, src).None?
    ensures o.Missing? ==> o.message == "MISSING: --" + ArgName(src.prefix, a.name)
    ensures o.Assign? ==> o == Assign(a.name, Resolve(a, src))
  {
    var v := Resolve(a, src);
    if v.None? && a.required then Missing("MISSING: --" + ArgName(src.prefix, a.name))
    else Assign(a.name, v)
  }

  /** The attribute named by a missing-attribute message. */
  lemma MissingNamesAttribute(a: AttrDecl, src: Sources)
    requires OutcomeOf(a, src).Missing?
    ensures var m := OutcomeOf(a, src).message;
      StartsWith(m, "MISSING: --") && NameOf(src.prefix, m[11..]) == Some(a.name)
  {
    var m := OutcomeOf(a, src).message;
    assert m[..11] == "MISSING: --";
    assert m[11..] == ArgName(src.prefix, a.name);
    ArgNameRoundTrip(src.prefix, a.name);
  }

  // ---------------------------------------------------------------------
  // An instance's attributes
  // ---------------------------------------------------------------------

  /** An instance's attributes: names in insertion order and their values. */
  datatype Table = Table(names: seq<string>, vals: map<string, Option<Value>>)

  /** No name occurs twice, and the names are exactly the table's keys. */
  ghost predicate WellFormed(t: Table) {
    (forall i, j | 0 <= i < j < |t.names| :: t.names[i] != t.names[j]) &&
    (forall k :: k in t.names <==> k in t.vals)
  }

  /** `setattr`: a new name goes last, an existing one keeps its place. */
  function Set(t: Table, k: string, v: Option<Value>): (r: Table)
    ensures r.vals == t.vals[k := v]
    ensures k in t.vals ==> r.names == t.names
    ensures k !in t.vals ==> r.names == t.names + [k]
  {
    if k in t.vals then Table(t.names, t.vals[k := v]) else Table(t.names + [k], t.vals[k := v])
  }

  lemma SetWellFormed(t: Table, k: string, v: Option<Value>)
    requires WellFormed(t)
    ensures WellFormed(Set(t, k, v))
  {
  }

  /** `delattr`. */
  function Del(t: Table, k: string): (r: Table)
    ensures r.vals == t.vals - {k}
  {
    Table(Remove(t.names, k), t.vals - {k})
  }

  /** `names` without `k`, in order. */
  function Remove(names: seq<string>, k: string): (r: seq<string>)
    ensures forall x :: x in r <==> x in names && x != k
  {
    if names == [] then [] else if names[0] == k then Remove(names[1..], k) else [names[0]] + Remove(names[1..], k)
  }

  lemma {:induction false} RemoveDistinct(names: seq<string>, k: string)
    requires forall i, j | 0 <= i < j < |names| :: names[i] != names[j]
    ensures var r := Remove(names, k); forall i, j | 0 <= i < j < |r| :: r[i] != r[j]
  {
    if names != [] {
      RemoveDistinct(names[1..], k);
      if names[0] != k {
        var r := Remove(names, k);
        assert r == [names[0]] + Remove(names[1..], k);
        assert names[0] !in names[1..];
        assert names[0] !in Remove(names[1..], k);
      }
    }
  }

  lemma DelWellFormed(t: Table, k: string)
    requires WellFormed(t)
    ensures WellFormed(Del(t, k))
  {
    assert Del(t, k).names == Remove(t.names, k);
    RemoveDistinct(t.names, k);
  }

  /** The table after `setattr` of each pair in turn. */
  function SetAll(t: Table, pairs: seq<(string, Option<Value>)>): (r: Table)
    ensures forall k | k in t.vals :: k in r.vals
  {
    if pairs == [] then t
    else var last := pairs[|pairs| - 1]; Set(SetAll(t, pairs[..|pairs| - 1]), last.0, last.1)
  }

  /** After a run of `setattr`, a name holds the value of its last pair. */
  lemma {:induction false} SetAllLookup(t: Table, pairs: seq<(string, Option<Value>)>, i: nat)
    requires i < |pairs| && forall j | i < j < |pairs| :: pairs[j].0 != pairs[i].0
    ensures pairs[i].0 in SetAll(t, pairs).vals && SetAll(t, pairs).vals[pairs[i].0] == pairs[i].1
  {
    if i < |pairs| - 1 {
      SetAllLookup(t, pairs[..|pairs| - 1], i);
    }
  }

  lemma {:induction false} SetAllWellFormed(t: Table, pairs: seq<(string, Option<Value>)>)
    requires WellFormed(t)
    ensures WellFormed(SetAll(t, pairs))
  {
    if pairs != [] {
      var last := pairs[|pairs| - 1];
      SetAllWellFormed(t, pairs[..|pairs| - 1]);
      SetWellFormed(SetAll(t, pairs[..|pairs| - 1]), last.0, last.1);
    }
  }

  /** The assignments among `outcomes`, in order. */
  function Assignments(outcomes: seq<Outcome>): (r: seq<(string, Option<Value>)>)
    ensures |r| <= |outcomes|
  {
    if outcomes == [] then []
    else
      var o := outcomes[|outcomes| - 1];
      Assignments(outcomes[..|outcomes| - 1]) + (if o.Assign? then [(o.name, o.value)] else [])
  }

  /** The messages among `outcomes`, in order. */
  function Messages(outcomes: seq<Outcome>): (r: seq<string>)
    ensures |r| <= |outcomes|
  {
    if outcomes == [] then []
    else
      var o := outcomes[|outcomes| - 1];
      Messages(outcomes[..|outcomes| - 1]) + (if o.Missing? then [o.message] else [])
  }

  /** Every outcome is either an assignment or a message. */
  lemma {:induction false} OutcomesSplit(outcomes: seq<Outcome>)
    ensures |Assignments(outcomes)| + |Messages(outcomes)| == |outcomes|
  {
    if outcomes != [] {
      OutcomesSplit(outcomes[..|outcomes| - 1]);
    }
  }

  /** The outcome of each attribute, in declaration order. */
  function Outcomes(attrs: seq<AttrDecl>, src: Sources): (r: seq<Outcome>)
    ensures |r| == |attrs|
    ensures forall i | 0 <= i < |attrs| :: r[i] == OutcomeOf(attrs[i], src)
  {
    seq(|attrs|, i requires 0 <= i < |attrs| => OutcomeOf(attrs[i], src))
  }

  /** A namespace is left with no missing messages exactly when every
      required attribute has a value. */
  lemma NoMessagesIff(attrs: seq<AttrDecl>, src: Sources)
    ensures Messages(Outcomes(attrs, src)) == [] <==>
      forall i | 0 <= i < |attrs| :: attrs[i].required ==> Resolve(attrs[i], src).Some?
  {
    MessagesEmpty(Outcomes(attrs, src));
  }

  lemma {:induction false} MessagesEmpty(outcomes: seq<Outcome>)
    ensures Messages(outcomes) == [] <==> forall i | 0 <= i < |outcomes| :: outcomes[i].Assign?
  {
    if outcomes != [] {
      var init := outcomes[..|outcomes| - 1];
      MessagesEmpty(init);
      assert forall i | 0 <= i < |init| :: init[i] == outcomes[i];
    }
  }

  /** The value-resolution steps for one attribute, in the order the
      sources are consulted. */
  method ResolveValue(a: AttrDecl, src: Sources) returns (value: Option<Value>)
    ensures value == Resolve(a, src)
    ensures value == FirstSome([Parsed(a, src)] + LaterSources(a, src))
  {
    var arg := ArgName(src.prefix, a.name);
    value := if arg in src.given then Some(src.given[arg]) else a.default;
    if value.None? && a.name in src.kw {
      value := src.kw[a.name];
    }
    if value.None? && src.useEnv {
      value := Get(src.env, arg);
    }
    if value.None? {
      if Truthy(a.key) {
        value := CfgGet(src.cfg, a.key.value, a.default);
      } else if Truthy(src.key) {
        value := CfgGet(src.cfg, a.name, a.default);
      } else {
        value := a.default;
      }
    }
    ResolvePrecedence(a, src);
  }

  /** One more outcome extends the assignments or the messages. */
  lemma OutcomesStep(outcomes: seq<Outcome>, i: nat, next: nat)
    requires i < |outcomes| && next == i + 1
    ensures Assignments(outcomes[..next]) ==
      Assignments(outcomes[..i]) + (if outcomes[i].Assign? then [(outcomes[i].name, outcomes[i].value)] else [])
    ensures Messages(outcomes[..next]) ==
      Messages(outcomes[..i]) + (if outcomes[i].Missing? then [outcomes[i].message] else [])
  {
    assert outcomes[..next][..i] == outcomes[..i];
  }

  lemma SetAllSnoc(t: Table, pairs: seq<(string, Option<Value>)>, k: string, v: Option<Value>)
    ensures SetAll(t, pairs + [(k, v)]) == Set(SetAll(t, pairs), k, v)
  {
    assert (pairs + [(k, v)])[..|pairs|] == pairs;
  }

  lemma DropAmongStep(t: Table, ks: seq<string>, i: nat)
    requires i < |ks|
    ensures var u := DropAmong(t, ks[..i]);
      DropAmong(t, ks[..i + 1]) == if ks[i] in u.vals && IsClassMethod(u.vals[ks[i]]) then Del(u, ks[i]) else u
  {
    assert ks[..i + 1][..i] == ks[..i];
  }

  // ---------------------------------------------------------------------
  // The instance
  // ---------------------------------------------------------------------

  /** Keyword arguments as a dict: each name holds its last value. */
  function KwMap(kw: seq<(string, Option<Value>)>): map<string, Option<Value>> {
    if kw == [] then map[]
    else KwMap(kw[..|kw| - 1])[kw[|kw| - 1].0 := kw[|kw| - 1].1]
  }

  /** The dict has exactly the keyword names as keys, and each holds the
      value of its last occurrence. */
  lemma {:induction false} KwMapLast(kw: seq<(string, Option<Value>)>, i: nat)
    requires i < |kw|
    ensures kw[i].0 in KwMap(kw)
    ensures (forall j | i < j < |kw| :: kw[j].0 != kw[i].0) ==> KwMap(kw)[kw[i].0] == kw[i].1
  {
    if i < |kw| - 1 {
      var init := kw[..|kw| - 1];
      assert init[i] == kw[i];
      KwMapLast(init, i);
      assert forall j | i < j < |init| :: init[j] == kw[j];
    }
  }

  /** Only keyword names are keys of the dict. */
  lemma {:induction false} KwMapKeys(kw: seq<(string, Option<Value>)>, k: string)
    requires k in KwMap(kw)
    ensures exists i | 0 <= i < |kw| :: kw[i].0 == k
  {
    var init := kw[..|kw| - 1];
    if k != kw[|kw| - 1].0 {
      KwMapKeys(init, k);
      var i :| 0 <= i < |init| && init[i].0 == k;
      assert kw[i] == init[i];
    }
  }

  /** An instance of a namespace class: its attributes, and the messages of
      the required attributes that resolved to nothing (any such message
      ends the program after the help is shown). */
  class Namespace {
    const className: string
    var table: Table
    var messages: seq<string>

    ghost predicate Valid()
      reads this
    {
      WellFormed(table)
    }

    /** Builds the instance: the constructor keywords, then the class's plain
        fields, then the declared attributes in order, and finally drops every
        attribute holding a class method.  The keywords the resolution
        consults are the same keywords, read as a dict. */
    constructor (className: string, kw: seq<(string, Option<Value>)>, fields: seq<(string, Option<Value>)>,
                 attrs: seq<AttrDecl>, src: Sources)
      requires src.kw == KwMap(kw)
      ensures Valid()
      ensures this.className == className
      ensures table == DropClassMethods(SetAll(SetAll(SetAll(Table([], map[]), kw), fields),
                                               Assignments(Outcomes(attrs, src))))
      ensures messages == Messages(Outcomes(attrs, src))
    {
      this.className := className;
      table := Table([], map[]);
      messages := [];
      new;
      SetAttrs(kw);
      SetAttrs(fields);
      ResolveAttrs(attrs, src);
      RemoveClassMethods();
    }

    /** `setattr` of each pair in turn. */
    method SetAttrs(pairs: seq<(string, Option<Value>)>)
      requires Valid()
      modifies this
      ensures Valid()
      ensures table == SetAll(old(table), pairs) && messages == old(messages)
    {
      var i := 0;
      while i < |pairs|
        invariant 0 <= i <= |pairs|
        invariant table == SetAll(old(table), pairs[..i]) && messages == old(messages)
        invariant Valid()
      {
        assert pairs[..i + 1][..i] == pairs[..i];
        SetWellFormed(table, pairs[i].0, pairs[i].1);
        table := Set(table, pairs[i].0, pairs[i].1);
        i := i + 1;
      }
      assert pairs[..i] == pairs;
    }

    /** Resolves each declared attribute in order: a value (even `None`) is
        assigned, a required attribute without one adds a message instead. */
    method ResolveAttrs(attrs: seq<AttrDecl>, src: Sources)
      requires Valid()
      modifies this
      ensures Valid()
      ensures table == SetAll(old(table), Assignments(Outcomes(attrs, src)))
      ensures messages == old(messages) + Messages(Outcomes(attrs, src))
    {
      ghost var outcomes := Outcomes(attrs, src);
      ghost var t0, m0 := table, messages;
      var i := 0;
      while i < |attrs|
        invariant 0 <= i <= |attrs|
        invariant table == SetAll(t0, Assignments(outcomes[..i]))
        invariant messages == m0 + Messages(outcomes[..i])
        invariant Valid()
      {
        var a := attrs[i];
        var value := ResolveValue(a, src);
        var next := i + 1;
        OutcomesStep(outcomes, i, next);
        assert outcomes[i] == OutcomeOf(a, src);
        if value.None? && a.required {
          assert Assignments(outcomes[..next]) == Assignments(outcomes[..i]) + [];
          assert Assignments(outcomes[..i]) + [] == Assignments(outcomes[..i]);
          messages := messages + ["MISSING: --" + ArgName(src.prefix, a.name)];
        } else {
          assert Messages(outcomes[..next]) == Messages(outcomes[..i]) + [];
          assert Messages(outcomes[..i]) + [] == Messages(outcomes[..i]);
          SetAllSnoc(t0, Assignments(outcomes[..i]), a.name, value);
          SetWellFormed(table, a.name, value);
          table := Set(table, a.name, value);
        }
        i := next;
      }
      assert outcomes[..i] == outcomes;
    }

    /** Deletes every attribute whose value is a class method. */
    method RemoveClassMethods()
      requires Valid()
      modifies this
      ensures Valid()
      ensures table == DropClassMethods(old(table)) && messages == old(messages)
    {
      ghost var t0 := table;
      var names := table.names;
      var i := 0;
      while i < |names|
        invariant 0 <= i <= |names|
        invariant table == DropAmong(t0, names[..i]) && messages == old(messages)
        invariant Valid()
      {
        var k := names[i];
        DropAmongStep(t0, names, i);
        if k in table.vals && IsClassMethod(table.vals[k]) {
          DelWellFormed(table, k);
          table := Del(table, k);
        }
        i := i + 1;
      }
      assert names[..i] == names;
    }

    /** The public attributes, as `as_dict` gives them. */
    function AsDict(): (d: Table)
      reads this
      ensures forall k :: k in d.vals <==> k in table.vals && Public(k, table.vals[k])
    {
      PublicOf(table)
    }

    /** The instance's text form. */
    function Prettify(fill: char, align: Align): (s: string)
      requires Valid()
      reads this
      ensures AsDict().names == [] ==> s == "[" + className + "]\t[-]"
    {
      PublicOfWellFormed(table);
      PrettyText(className, AsDict(), fill, align)
    }
  }

  /** Drops the class methods among the names `ks`, one name at a time. */
  function DropAmong(t: Table, ks: seq<string>): Table {
    if ks == [] then t
    else
      var u := DropAmong(t, ks[..|ks| - 1]);
      var k := ks[|ks| - 1];
      if k in u.vals && IsClassMethod(u.vals[k]) then Del(u, k) else u
  }

  /** The table without the attributes holding class methods. */
  function DropClassMethods(t: Table): Table {
    DropAmong(t, t.names)
  }

  predicate IsClassMethod(v: Option<Value>) {
    v.Some? && v.value.ClassMethod?
  }

  /** Dropping among some names removes exactly the class methods among them. */
  lemma {:induction false} DropAmongKeys(t: Table, ks: seq<string>)
    ensures forall k :: k in DropAmong(t, ks).vals <==> k in t.vals && !(k in ks && IsClassMethod(t.vals[k]))
    ensures forall k | k in DropAmong(t, ks).vals :: DropAmong(t, ks).vals[k] == t.vals[k]
  {
    if ks != [] {
      DropAmongKeys(t, ks[..|ks| - 1]);
      assert forall k :: k in ks <==> k in ks[..|ks| - 1] || k == ks[|ks| - 1];
    }
  }

  /** After the class methods are dropped, none is left and every other
      attribute keeps its value. */
  lemma DropClassMethodsKeys(t: Table)
    requires WellFormed(t)
    ensures var d := DropClassMethods(t);
      (forall k :: k in d.vals <==> k in t.vals && !IsClassMethod(t.vals[k])) &&
      (forall k | k in d.vals :: d.vals[k] == t.vals[k])
  {
    DropAmongKeys(t, t.names);
  }

  // ---------------------------------------------------------------------
  // as_dict and prettify
  // ---------------------------------------------------------------------

  /** An attribute `as_dict` shows: its name does not start with an
      underscore and its value is not a class method. */
  predicate Public(k: string, v: Option<Value>) {
    !StartsWith(k, "_") && !IsClassMethod(v)
  }

  /** The names among `names` whose attributes are public, in order. */
  function PublicNames(names: seq<string>, vals: map<string, Option<Value>>): (r: seq<string>)
    requires forall k | k in names :: k in vals
    ensures forall k :: k in r <==> k in names && Public(k, vals[k])
  {
    if names == [] then []
    else
      var rest := PublicNames(names[1..], vals);
      if Public(names[0], vals[names[0]]) then [names[0]] + rest else rest
  }

  /** `as_dict`: the public attributes, in their order. */
  function PublicOf(t: Table): (d: Table)
    ensures forall k :: k in d.vals <==> k in t.vals && Public(k, t.vals[k])
    ensures forall k | k in d.vals :: d.vals[k] == t.vals[k]
  {
    var vals := map k | k in t.vals && Public(k, t.vals[k]) :: t.vals[k];
    if forall k | k in t.names :: k in t.vals then Table(PublicNames(t.names, t.vals), vals)
    else Table([], vals)
  }

  /** On a well-formed table, `as_dict` lists exactly its public names, in
      the table's order. */
  lemma PublicOfWellFormed(t: Table)
    requires WellFormed(t)
    ensures PublicOf(t).names == PublicNames(t.names, t.vals)
    ensures forall k :: k in PublicOf(t).names <==> k in PublicOf(t).vals
  {
  }

  /** Alignment of a name in its column. */
  datatype Align = Left | Right | Center

  function Repeat(c: char, n: nat): (r: string)
    ensures |r| == n && forall i | 0 <= i < n :: r[i] == c
  {
    if n == 0 then [] else [c] + Repeat(c, n - 1)
  }

  /** `f"{k:{fill}{align}{width}}"`: `k` padded with `fill` to `width`
      characters; centring puts the odd fill character on the right. */
  function Pad(k: string, width: nat, fill: char, align: Align): (r: string)
    ensures |k| >= width ==> r == k
    ensures |k| < width ==> |r| == width
    ensures |k| < width && align == Left ==> r[..|k|] == k && forall i | |k| <= i < width :: r[i] == fill
    ensures |k| < width && align == Right ==> r[width - |k|..] == k && forall i | 0 <= i < width - |k| :: r[i] == fill
    ensures |k| < width && align == Center ==>
      var before := (width - |k|) / 2;
      r[before..before + |k|] == k &&
      (forall i | 0 <= i < before :: r[i] == fill) &&
      (forall i | before + |k| <= i < width :: r[i] == fill)
  {
    if |k| >= width then k
    else
      var n := width - |k|;
      match align
      case Left => k + Repeat(fill, n)
      case Right => Repeat(fill, n) + k
      case Center => Repeat(fill, n / 2) + k + Repeat(fill, n - n / 2)
  }

  /** The longest of the names. */
  function MaxLen(names: seq<string>): (m: nat)
    ensures forall k | k in names :: |k| <= m
  {
    if names == [] then 0
    else
      var rest := MaxLen(names[1..]);
      if |names[0]| >= rest then |names[0]| else rest
  }

  /** The width used is that of the longest name. */
  lemma {:induction false} MaxLenAttained(names: seq<string>)
    requires names != []
    ensures exists k | k in names :: |k| == MaxLen(names)
  {
    if |names[0]| < MaxLen(names[1..]) {
      MaxLenAttained(names[1..]);
      var k :| k in names[1..] && |k| == MaxLen(names[1..]);
      assert k in names;
    } else {
      assert names[0] in names;
    }
  }

  /** The line of one attribute: its padded name, a colon and its value. */
  function Line(k: string, v: Option<Value>, width: nat, fill: char, align: Align): string {
    Pad(k, width, fill, align) + ": " + StrOpt(v)
  }

  /** One line per attribute, in order. */
  function Lines(names: seq<string>, vals: map<string, Option<Value>>, width: nat, fill: char, align: Align): (r: seq<string>)
    requires forall k | k in names :: k in vals
    ensures |r| == |names|
    ensures forall i | 0 <= i < |names| :: r[i] == Line(names[i], vals[names[i]], width, fill, align)
  {
    seq(|names|, i requires 0 <= i < |names| => Line(names[i], vals[names[i]], width, fill, align))
  }

  /** `prettify`: the class name in brackets, then `[-]` for no attributes,
      or the attribute lines, on the same line for one attribute and each on
      its own indented line for more. With several attributes, the line of
      each follows the header and a newline and a tab, at its offset in the
      joined lines, with nothing after the last. */
  function PrettyText(className: string, d: Table, fill: char, align: Align): (s: string)
    requires forall k | k in d.names :: k in d.vals
    ensures d.names == [] ==> s == "[" + className + "]\t[-]"
    ensures |d.names| > 1 ==>
      LaidOut(s, "[" + className + "]" + "\n\t", "\n\t", Lines(d.names, d.vals, MaxLen(d.names) + 1, fill, align))
  {
    var header := "[" + className + "]";
    var lines := Lines(d.names, d.vals, MaxLen(d.names) + 1, fill, align);
    var text := Layout(header, lines);
    if |lines| > 1 then LayoutMulti(text, header, lines); text else text
  }

  /** The header, then the lines joined by a newline and a tab: after a tab
      on the header line when there is at most one, on the next line when
      there are more. */
  function Layout(header: string, lines: seq<string>): string {
    if lines == [] then header + "\t[-]"
    else
      var values := Join("\n\t", lines);
      if |lines| <= 1 then header + "\t" + values
      else header + "\n\t" + values
  }

  /** With several lines, the text is the header, then the lines, each
      after a newline and a tab, with nothing after the last. */
  lemma LayoutMulti(text: string, header: string, lines: seq<string>)
    requires |lines| > 1 && text == Layout(header, lines)
    ensures LaidOut(text, header + "\n\t", "\n\t", lines)
  {
    var sep := "\n\t";
    var lead := header + sep;
    assert lead[|lead| - |sep|..] == sep;
    JoinedAfter(text, lead, sep, lines);
  }

  /** A single attribute is printed on the header line, padded to one more
      than its own length. */
  lemma PrettyTextSingle(className: string, d: Table, fill: char, align: Align)
    requires |d.names| == 1 && d.names[0] in d.vals
    ensures PrettyText(className, d, fill, align) ==
      "[" + className + "]\t" + Line(d.names[0], d.vals[d.names[0]], |d.names[0]| + 1, fill, align)
  {
    var k := d.names[0];
    assert MaxLen(d.names) == |k| by { assert d.names[1..] == []; }
    var line := Line(k, d.vals[k], |k| + 1, fill, align);
    assert Lines(d.names, d.vals, |k| + 1, fill, align) == [line];
  }

  /** A line holds the padded name, then the colon. */
  lemma LineColumns(k: string, v: Option<Value>, width: nat, fill: char, align: Align)
    requires |k| < width
    ensures var line := Line(k, v, width, fill, align);
      |line| > width && line[..width] == Pad(k, width, fill, align) && line[width] == ':'
  {
    var p := Pad(k, width, fill, align);
    var rest := ": " + StrOpt(v);
    assert Line(k, v, width, fill, align) == p + rest;
  }

  /** With attributes, every line starts with its name padded to one more
      than the longest name, so the colons line up in one column. */
  lemma LinesAligned(names: seq<string>, vals: map<string, Option<Value>>, fill: char, align: Align)
    requires forall k | k in names :: k in vals
    ensures var width := MaxLen(names) + 1;
      var lines := Lines(names, vals, width, fill, align);
      forall i | 0 <= i < |lines| ::
        |lines[i]| > width && lines[i][..width] == Pad(names[i], width, fill, align) && lines[i][width] == ':'
  {
    var width := MaxLen(names) + 1;
    var lines := Lines(names, vals, width, fill, align);
    forall i | 0 <= i < |lines|
      ensures |lines[i]| > width && lines[i][..width] == Pad(names[i], width, fill, align) && lines[i][width] == ':'
    {
      assert names[i] in names;
      LineColumns(names[i], vals[names[i]], width, fill, align);
    }
  }
}
