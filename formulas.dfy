/** Path formulas (haymaker/formula_manager.py): templates such as
    `|drive|/13_Tech/config` whose `|name|` tokens are expanded from the
    reserved keywords, the caller's keyword arguments and the other formulas
    of a repository. This module gives the meaning of evaluation as
    functions; `FormulaLaws` proves what it promises and `FormulaManager`
    holds the `FormulaRepo` class whose methods follow the source. */
module Formulas {
  import opened Common
  import opened Text

  /** A reserved-keyword enumeration such as `Drive` or `Disk`: the value of
      its `DEFAULT` member, then its other members as (name, value) pairs in
      declaration order. */
  datatype ReservedVariable = ReservedVariable(defaultName: string, members: seq<(string, string)>)

  /** The enumerations in use all have a member after `DEFAULT`, which
      `get_default` returns. */
  type Reserved = rv: ReservedVariable | |rv.members| >= 1 witness ReservedVariable("", [("", "")])

  const Drive: Reserved := ReservedVariable("drive", [("BOX", "~/Box/Capstone_Uploads")])
  const Disk: Reserved := ReservedVariable("disk", [("CONFIG", "|drive|/13_Tech/config"), ("CODE", "|drive|/13_Tech/haymaker")])

  /** `FormulaRepo.RESERVED_KEYWORDS`, in lookup order. */
  const ReservedKeywords: seq<Reserved> := [Drive, Disk]

  /** A keyword argument: a plain string, or an enumeration member, whose
      `.value` is a string. */
  datatype Arg = Str(text: string) | Member(value: string)

  type Kwargs = map<string, Arg>

  /** The exceptions the evaluator raises. `NoValueAttribute` is the
      `AttributeError` of reading `.value` from a string override,
      `NotIterable` the `TypeError` of iterating over an enumeration member,
      `RecursionLimit` Python's `RecursionError`, and `MultipleValues` the
      `TypeError` of a call given a keyword argument named after one of the
      callee's own parameters ("got multiple values for argument"). */
  datatype FormulaError =
    | NotFound(name: string)
    | MissingArgument(name: string)
    | Duplicate(key: string)
    | Unclosed
    | NoValueAttribute(key: string)
    | NotIterable(name: string)
    | RecursionLimit
    | MultipleValues

  /** The named parameters beside `**kwargs` of the functions the evaluator
      calls with the caller's keyword arguments: `eval`, `_eval`,
      `_resolve_variable` and the class method `try_to_resolve`. */
  const EvalParams: set<string> := {"self", "formula_name"}
  const EvalFormulaParams: set<string> := {"self", "formula"}
  const ResolveParams: set<string> := {"self", "variable"}
  const TryToResolveParams: set<string> := {"cls", "value"}

  /** Passing `**kwargs` to a function with these parameters raises
      `TypeError`. */
  predicate Clashes(kwargs: Kwargs, params: set<string>)
  {
    !(kwargs.Keys !! params)
  }

  /** The state of a `FormulaRepo`, as a value: its formulas by key, the
      prefixes stripped from keys, and the class's reserved keywords in
      lookup order. */
  datatype Repo = Repo(formulas: map<string, string>, prefixes: seq<string>, keywords: seq<Reserved>)

  /** The separator of variables in a formula. */
  const Bar := "|"

  /** Python `s[n:]` for `n >= 0`: empty once `n` passes the end. */
  function Drop(s: string, n: nat): (r: string)
    ensures EndsWith(s, r) && |r| == if n <= |s| then |s| - n else 0
  {
    if n <= |s| then s[n..] else ""
  }

  /** The first member whose lower-cased name is `value`. */
  function FindMember(members: seq<(string, string)>, value: string): Option<string>
  {
    if |members| == 0 then None
    else if Lower(members[0].0) == value then Some(members[0].1)
    else FindMember(members[1..], value)
  }

  /** `FindMember` finds nothing exactly when no name matches, and otherwise
      the value of the first member whose name matches. */
  lemma {:induction false} FindMemberFirst(members: seq<(string, string)>, value: string)
    ensures var r := FindMember(members, value);
      (r.None? <==> forall k | 0 <= k < |members| :: Lower(members[k].0) != value)
      && (r.Some? ==> exists k | 0 <= k < |members| ::
            Lower(members[k].0) == value && r.value == members[k].1
            && forall j | 0 <= j < k :: Lower(members[j].0) != value)
  {
    if |members| > 0 && Lower(members[0].0) != value {
      var rest := members[1..];
      assert forall k | 1 <= k < |members| :: members[k] == rest[k - 1];
      FindMemberFirst(rest, value);
      var r := FindMember(rest, value);
      if r.Some? {
        var k :| 0 <= k < |rest| && Lower(rest[k].0) == value
          && r.value == rest[k].1 && forall j | 0 <= j < k :: Lower(rest[j].0) != value;
        assert Lower(members[k + 1].0) == value && r.value == members[k + 1].1;
      }
    }
  }

  /** A keyword argument named after `DEFAULT` overrides whatever member was
      found: its `.value` is used instead. */
  function Overridden(rv: Reserved, kwargs: Kwargs, found: string): Result<Option<string>, FormulaError>
  {
    if rv.defaultName in kwargs then
      match kwargs[rv.defaultName]
      case Member(x) => Ok(Some(x))
      case Str(_) => Err(NoValueAttribute(rv.defaultName))
    else Ok(Some(found))
  }

  /** `ReservedVariable.try_to_resolve(variable, **kwargs)`. */
  function TryToResolve(rv: Reserved, value: string, kwargs: Kwargs): Result<Option<string>, FormulaError>
  {
    if Clashes(kwargs, TryToResolveParams) then Err(MultipleValues)
    else if value == rv.defaultName then Overridden(rv, kwargs, rv.members[0].1)
    else
      match FindMember(rv.members, value)
      case Some(v) => Overridden(rv, kwargs, v)
      case None => Ok(None)
  }

  /** A keyword argument named `cls` or `value` makes the call itself fail.
      Otherwise the default name resolves to the first member after
      `DEFAULT` and a lower-cased member name to that member, each unless a
      keyword argument named after `DEFAULT` overrides it (with its `.value`,
      which a plain string lacks); anything else resolves to `None`. */
  lemma TryToResolveSpec(rv: Reserved, value: string, kwargs: Kwargs)
    ensures var r := TryToResolve(rv, value, kwargs);
      (Clashes(kwargs, TryToResolveParams) ==> r == Err(MultipleValues))
      && (r == Ok(None) <==>
        !Clashes(kwargs, TryToResolveParams)
        && value != rv.defaultName && forall k | 0 <= k < |rv.members| :: Lower(rv.members[k].0) != value)
      && (r.Err? && !Clashes(kwargs, TryToResolveParams) ==>
        rv.defaultName in kwargs && kwargs[rv.defaultName].Str? && r.error == NoValueAttribute(rv.defaultName))
      && (r.Ok? && r.value.Some? && rv.defaultName in kwargs ==>
        kwargs[rv.defaultName] == Member(r.value.value))
      && (r.Ok? && r.value.Some? && rv.defaultName !in kwargs && value == rv.defaultName ==>
        r.value.value == rv.members[0].1)
      && (r.Ok? && r.value.Some? && rv.defaultName !in kwargs && value != rv.defaultName ==>
        exists k | 0 <= k < |rv.members| :: Lower(rv.members[k].0) == value && r.value.value == rv.members[k].1)
  {
    FindMemberFirst(rv.members, value);
  }

  /** A reserved lookup that gives nothing usable: `None` or a falsy (empty) value. */
  predicate Falsy(r: Result<Option<string>, FormulaError>)
  {
    r == Ok(None) || r == Ok(Some(""))
  }

  /** The reserved-keyword loop of `_resolve_variable`: the first keyword
      giving a truthy value wins; an error stops the search. */
  function LookupIn(keywords: seq<Reserved>, name: string, kwargs: Kwargs): Result<Option<string>, FormulaError>
  {
    if |keywords| == 0 then Ok(None)
    else
      var here := TryToResolve(keywords[0], name, kwargs);
      if !Falsy(here) then here else LookupIn(keywords[1..], name, kwargs)
  }

  /** A falsy reserved result falls through to the next keyword: the lookup
      finds nothing exactly when every keyword is falsy, and otherwise gives
      the first keyword's result that is not. */
  lemma {:induction false} LookupInFirst(keywords: seq<Reserved>, name: string, kwargs: Kwargs)
    ensures var r := LookupIn(keywords, name, kwargs);
      (r.Ok? && r.value.Some? ==> r.value.value != "")
      && (r.Err? ==> r.error.NoValueAttribute? || r.error == MultipleValues)
      && (r == Ok(None) <==> forall k | 0 <= k < |keywords| :: Falsy(TryToResolve(keywords[k], name, kwargs)))
      && (!Falsy(r) ==> exists k | 0 <= k < |keywords| ::
            TryToResolve(keywords[k], name, kwargs) == r
            && forall j | 0 <= j < k :: Falsy(TryToResolve(keywords[j], name, kwargs)))
  {
    if |keywords| > 0 {
      var rest := keywords[1..];
      assert forall k | 1 <= k < |keywords| :: keywords[k] == rest[k - 1];
      TryToResolveSpec(keywords[0], name, kwargs);
      LookupInFirst(rest, name, kwargs);
      var r := LookupIn(keywords, name, kwargs);
      if Falsy(TryToResolve(keywords[0], name, kwargs)) && !Falsy(r) {
        var k :| 0 <= k < |rest| && TryToResolve(rest[k], name, kwargs) == r
          && forall j | 0 <= j < k :: Falsy(TryToResolve(rest[j], name, kwargs));
        assert TryToResolve(keywords[k + 1], name, kwargs) == r;
      }
    }
  }


  /** `_remove_prefix`: strips the first configured prefix `s` starts with,
      together with the one separator character after it. */
  function StripPrefix(prefixes: seq<string>, s: string): string
  {
    if |prefixes| == 0 then s
    else if StartsWith(s, prefixes[0]) then Drop(s, |prefixes[0]| + 1)
    else StripPrefix(prefixes[1..], s)
  }

  /** The stripped key is a suffix of the name; a name matching no prefix
      is kept; otherwise the first matching prefix and one more character
      are removed. */
  lemma {:induction false} StripPrefixSpec(prefixes: seq<string>, s: string)
    ensures EndsWith(s, StripPrefix(prefixes, s))
    ensures (forall k | 0 <= k < |prefixes| :: !StartsWith(s, prefixes[k])) ==> StripPrefix(prefixes, s) == s
    ensures forall k | 0 <= k < |prefixes| && StartsWith(s, prefixes[k]) ::
      (forall j | 0 <= j < k :: !StartsWith(s, prefixes[j])) ==> StripPrefix(prefixes, s) == Drop(s, |prefixes[k]| + 1)
  {
    if |prefixes| > 0 && !StartsWith(s, prefixes[0]) {
      var rest := prefixes[1..];
      assert forall k | 1 <= k < |prefixes| :: prefixes[k] == rest[k - 1];
      StripPrefixSpec(rest, s);
    }
  }

  /** `get_formula`: the formula stored under the prefix-stripped name. */
  function FormulaOf(repo: Repo, name: string): Option<string>
  {
    var key := StripPrefix(repo.prefixes, name);
    if key in repo.formulas then Some(repo.formulas[key]) else None
  }

  /** `eval`: keyword arguments named `self` or `formula_name` fail the
      call, an unknown name raises `FormulaNotFoundError`, and ones named
      `formula` fail the call to `_eval`. */
  function EvalName(repo: Repo, name: string, kwargs: Kwargs, fuel: nat): Result<string, FormulaError>
  {
    if Clashes(kwargs, EvalParams) then Err(MultipleValues)
    else
      var key := StripPrefix(repo.prefixes, name);
      if key !in repo.formulas then Err(NotFound(key))
      else if Clashes(kwargs, EvalFormulaParams) then Err(MultipleValues)
      else Evaluate(repo, repo.formulas[key], kwargs, fuel)
  }

  /** `_eval`, read through `split('|')`: the even-numbered pieces are copied,
      the odd-numbered ones are variable names. `fuel` bounds the depth of
      nested expansions (Python's recursion limit). */
  function Evaluate(repo: Repo, formula: string, kwargs: Kwargs, fuel: nat): Result<string, FormulaError>
    decreases fuel, 2, 0
  {
    ExpandParts(repo, Split(formula, Bar), kwargs, fuel)
  }

  /** The pieces from left to right; an even number of pieces means the last
      variable is never closed, which is reported after everything before it
      has been expanded. */
  function ExpandParts(repo: Repo, parts: seq<string>, kwargs: Kwargs, fuel: nat): Result<string, FormulaError>
    requires |parts| >= 1
    decreases fuel, 1, |parts|
  {
    var n := |parts|;
    if n == 1 then Ok(parts[0])
    else if n % 2 == 0 then
      match ExpandParts(repo, parts[..n - 1], kwargs, fuel)
      case Err(e) => Err(e)
      case Ok(_) => Err(Unclosed)
    else
      match ExpandParts(repo, parts[..n - 2], kwargs, fuel)
      case Err(e) => Err(e)
      case Ok(done) =>
        match ExpandVariable(repo, parts[n - 2], kwargs, fuel)
        case Err(e) => Err(e)
        case Ok(v) => Ok(done + v + parts[n - 1])
  }

  /** A closed `|name|`: the name is resolved and the result evaluated once
      more as a formula; each of the two calls fails on a keyword argument
      named after one of its parameters. */
  function ExpandVariable(repo: Repo, name: string, kwargs: Kwargs, fuel: nat): Result<string, FormulaError>
    decreases fuel, 0, 0
  {
    if fuel == 0 then Err(RecursionLimit)
    else if Clashes(kwargs, ResolveParams) then Err(MultipleValues)
    else
      match ResolveName(repo, name, kwargs, fuel - 1)
      case Err(e) => Err(e)
      case Ok(arg) =>
        if Clashes(kwargs, EvalFormulaParams) then Err(MultipleValues)
        else
          match arg
          case Member(_) => Err(NotIterable(name))
          case Str(t) => Evaluate(repo, t, kwargs, fuel - 1)
  }

  /** `_resolve_variable`: reserved keywords, then keyword arguments, then a
      non-empty formula of the repository (evaluated); otherwise
      `FormulaArgumentError`. */
  function ResolveName(repo: Repo, name: string, kwargs: Kwargs, fuel: nat): Result<Arg, FormulaError>
    decreases fuel, 3, 0
  {
    match LookupIn(repo.keywords, name, kwargs)
    case Err(e) => Err(e)
    case Ok(Some(v)) => Ok(Str(v))
    case Ok(None) =>
      if name in kwargs then Ok(kwargs[name])
      else
        match FormulaOf(repo, name)
        case Some(f) =>
          if f == "" then Err(MissingArgument(name))
          else if Clashes(kwargs, EvalFormulaParams) then Err(MultipleValues)
          else
            (match Evaluate(repo, f, kwargs, fuel)
             case Err(e) => Err(e)
             case Ok(t) => Ok(Str(t)))
        case None => Err(MissingArgument(name))
  }

  /** How far the character loop of `_eval` has got, given the pieces of the
      text read so far: with an odd number of pieces no variable is open and
      `resolved` is their expansion; with an even number the last piece is
      the open variable's name and `resolved` expands the rest. */
}
