/** What formula evaluation promises, proved about the functions of
    `Formulas`. */
module FormulaLaws {
  import opened Common
  import opened Text
  import opened Formulas

  ghost predicate Scanned(repo: Repo, parts: seq<string>, resolved: string, variable: Option<string>, kwargs: Kwargs, fuel: nat)
    requires |parts| >= 1
  {
    if |parts| % 2 == 1 then variable == None && ExpandParts(repo, parts, kwargs, fuel) == Ok(resolved)
    else variable == Some(Last(parts)) && ExpandParts(repo, parts[..|parts| - 1], kwargs, fuel) == Ok(resolved)
  }

  /** The pieces read so far already determine error `e`. */
  ghost predicate Stuck(repo: Repo, parts: seq<string>, kwargs: Kwargs, fuel: nat, e: FormulaError)
    requires |parts| >= 1
  {
    if |parts| % 2 == 1 then ExpandParts(repo, parts, kwargs, fuel) == Err(e)
    else ExpandParts(repo, parts[..|parts| - 1], kwargs, fuel) == Err(e)
  }

  /** Reading one more character of the formula extends its pieces. */
  lemma ScanAdvance(formula: string, i: nat)
    requires i < |formula|
    ensures Split(formula[..i + 1], Bar) == Extend(Split(formula[..i], Bar), formula[i], '|')
  {
    assert formula[..i + 1] == formula[..i] + [formula[i]];
    SplitSnoc(formula[..i], formula[i], '|');
  }

  /** At the end of the formula the scan state gives the result. */
  lemma ScanFinish(repo: Repo, formula: string, resolved: string, variable: Option<string>, kwargs: Kwargs, fuel: nat)
    requires Scanned(repo, Split(formula, Bar), resolved, variable, kwargs, fuel)
    ensures variable.None? ==> Evaluate(repo, formula, kwargs, fuel) == Ok(resolved)
    ensures variable.Some? ==> Evaluate(repo, formula, kwargs, fuel) == Err(Unclosed)
  {
    var parts := Split(formula, Bar);
    if |parts| % 2 == 0 {
      ExpandPartsEven(repo, parts, kwargs, fuel);
    }
  }

  lemma ScanOpen(repo: Repo, parts: seq<string>, resolved: string, kwargs: Kwargs, fuel: nat)
    requires |parts| >= 1 && Scanned(repo, parts, resolved, None, kwargs, fuel)
    ensures Scanned(repo, Extend(parts, '|', '|'), resolved, Some(""), kwargs, fuel)
  {
    assert Extend(parts, '|', '|')[..|parts|] == parts;
  }

  lemma ScanClose(repo: Repo, parts: seq<string>, resolved: string, name: string, kwargs: Kwargs, fuel: nat)
    requires |parts| >= 1 && Scanned(repo, parts, resolved, Some(name), kwargs, fuel)
    ensures var x := ExpandVariable(repo, name, kwargs, fuel);
      (x.Ok? ==> Scanned(repo, Extend(parts, '|', '|'), resolved + x.value, None, kwargs, fuel))
      && (x.Err? ==> Stuck(repo, Extend(parts, '|', '|'), kwargs, fuel, x.error))
  {
    var p := Extend(parts, '|', '|');
    assert p[..|p| - 2] == parts[..|parts| - 1];
    assert p[|p| - 2] == name && p[|p| - 1] == "";
    var x := ExpandVariable(repo, name, kwargs, fuel);
    if x.Ok? {
      assert resolved + x.value + "" == resolved + x.value;
    }
  }

  lemma ScanLiteral(repo: Repo, parts: seq<string>, resolved: string, c: char, kwargs: Kwargs, fuel: nat)
    requires |parts| >= 1 && c != '|' && Scanned(repo, parts, resolved, None, kwargs, fuel)
    ensures Scanned(repo, Extend(parts, c, '|'), resolved + [c], None, kwargs, fuel)
  {
    var n := |parts|;
    var p := Extend(parts, c, '|');
    if n > 1 {
      assert p[..n - 2] == parts[..n - 2];
      assert p[n - 2] == parts[n - 2] && p[n - 1] == parts[n - 1] + [c];
      var done := ExpandParts(repo, parts[..n - 2], kwargs, fuel).value;
      var v := ExpandVariable(repo, parts[n - 2], kwargs, fuel).value;
      assert done + v + (parts[n - 1] + [c]) == (done + v + parts[n - 1]) + [c];
    }
  }

  lemma ScanName(repo: Repo, parts: seq<string>, resolved: string, name: string, c: char, kwargs: Kwargs, fuel: nat)
    requires |parts| >= 1 && c != '|' && Scanned(repo, parts, resolved, Some(name), kwargs, fuel)
    ensures Scanned(repo, Extend(parts, c, '|'), resolved, Some(name + [c]), kwargs, fuel)
  {
    var p := Extend(parts, c, '|');
    assert p[..|p| - 1] == parts[..|parts| - 1];
  }

  lemma StuckStep(repo: Repo, parts: seq<string>, c: char, kwargs: Kwargs, fuel: nat, e: FormulaError)
    requires |parts| >= 1 && Stuck(repo, parts, kwargs, fuel, e)
    ensures Stuck(repo, Extend(parts, c, '|'), kwargs, fuel, e)
  {
    var n := |parts|;
    var p := Extend(parts, c, '|');
    if c == '|' {
      assert p[..n] == parts;
      if n % 2 == 0 {
        assert p[..n + 1 - 2] == parts[..n - 1];
      }
    } else if n % 2 == 1 {
      assert p[..n - 2] == parts[..n - 2];
    } else {
      assert p[..n - 1] == parts[..n - 1];
    }
  }

  /** The scan state after the `i`-th character of `formula`, one lemma per
      branch of the loop: an opening bar, a closing bar, a literal
      character, a character of a variable name. */
  lemma StepOpen(repo: Repo, formula: string, i: nat, resolved: string, kwargs: Kwargs, fuel: nat)
    requires i < |formula| && formula[i] == '|'
    requires Scanned(repo, Split(formula[..i], Bar), resolved, None, kwargs, fuel)
    ensures Scanned(repo, Split(formula[..i + 1], Bar), resolved, Some(""), kwargs, fuel)
  {
    ScanAdvance(formula, i);
    ScanOpen(repo, Split(formula[..i], Bar), resolved, kwargs, fuel);
  }

  lemma StepClose(repo: Repo, formula: string, i: nat, resolved: string, name: string, kwargs: Kwargs, fuel: nat)
    requires i < |formula| && formula[i] == '|'
    requires Scanned(repo, Split(formula[..i], Bar), resolved, Some(name), kwargs, fuel)
    ensures var x := ExpandVariable(repo, name, kwargs, fuel);
      (x.Ok? ==> Scanned(repo, Split(formula[..i + 1], Bar), resolved + x.value, None, kwargs, fuel))
      && (x.Err? ==> Evaluate(repo, formula, kwargs, fuel) == Err(x.error))
  {
    ScanAdvance(formula, i);
    ScanClose(repo, Split(formula[..i], Bar), resolved, name, kwargs, fuel);
    var x := ExpandVariable(repo, name, kwargs, fuel);
    if x.Err? {
      ErrorPersists(repo, formula, i + 1, kwargs, fuel, x.error);
    }
  }

  lemma StepLiteral(repo: Repo, formula: string, i: nat, resolved: string, kwargs: Kwargs, fuel: nat)
    requires i < |formula| && formula[i] != '|'
    requires Scanned(repo, Split(formula[..i], Bar), resolved, None, kwargs, fuel)
    ensures Scanned(repo, Split(formula[..i + 1], Bar), resolved + [formula[i]], None, kwargs, fuel)
  {
    ScanAdvance(formula, i);
    ScanLiteral(repo, Split(formula[..i], Bar), resolved, formula[i], kwargs, fuel);
  }

  lemma StepName(repo: Repo, formula: string, i: nat, resolved: string, name: string, kwargs: Kwargs, fuel: nat)
    requires i < |formula| && formula[i] != '|'
    requires Scanned(repo, Split(formula[..i], Bar), resolved, Some(name), kwargs, fuel)
    ensures Scanned(repo, Split(formula[..i + 1], Bar), resolved, Some(name + [formula[i]]), kwargs, fuel)
  {
    ScanAdvance(formula, i);
    ScanName(repo, Split(formula[..i], Bar), resolved, name, formula[i], kwargs, fuel);
  }

  /** Once an error has been raised the rest of the formula is never read. */
  lemma {:induction false} ErrorPersists(repo: Repo, s: string, i: nat, kwargs: Kwargs, fuel: nat, e: FormulaError)
    requires i <= |s| && Stuck(repo, Split(s[..i], Bar), kwargs, fuel, e)
    ensures Evaluate(repo, s, kwargs, fuel) == Err(e)
    decreases |s| - i
  {
    if i == |s| {
      assert s[..i] == s;
    } else {
      assert s[..i + 1] == s[..i] + [s[i]];
      SplitSnoc(s[..i], s[i], '|');
      StuckStep(repo, Split(s[..i], Bar), s[i], kwargs, fuel, e);
      ErrorPersists(repo, s, i + 1, kwargs, fuel, e);
    }
  }

  /** A formula without `|` evaluates to itself. */
  lemma NoBarIdentity(repo: Repo, s: string, kwargs: Kwargs, fuel: nat)
    requires '|' !in s
    ensures Evaluate(repo, s, kwargs, fuel) == Ok(s)
  {
    ContainsChar(s, '|');
    SplitNone(s, Bar);
  }

  /** An odd number of `|` can never evaluate: either a variable before it
      fails or the last one is reported unclosed. */
  lemma OddBarsFail(repo: Repo, s: string, kwargs: Kwargs, fuel: nat)
    requires multiset(s)['|'] % 2 == 1
    ensures Evaluate(repo, s, kwargs, fuel).Err?
  {
    SplitCount(s, '|');
  }

  /** What evaluation promises: results carry no `|` (every variable was
      expanded) and the only errors are evaluation errors. */
  predicate SoundText(r: Result<string, FormulaError>)
  {
    (r.Ok? ==> '|' !in r.value) && (r.Err? ==> !r.error.NotFound? && !r.error.Duplicate?)
  }

  lemma {:induction false} EvaluateSound(repo: Repo, formula: string, kwargs: Kwargs, fuel: nat)
    ensures SoundText(Evaluate(repo, formula, kwargs, fuel))
    decreases fuel, 2, 0
  {
    var parts := Split(formula, Bar);
    SplitPartsFree(formula, Bar);
    forall k | 0 <= k < |parts|
      ensures '|' !in parts[k]
    {
      ContainsChar(parts[k], '|');
    }
    ExpandPartsSound(repo, parts, kwargs, fuel);
  }

  lemma {:induction false} ExpandPartsSound(repo: Repo, parts: seq<string>, kwargs: Kwargs, fuel: nat)
    requires |parts| >= 1 && forall k | 0 <= k < |parts| :: '|' !in parts[k]
    ensures SoundText(ExpandParts(repo, parts, kwargs, fuel))
    decreases fuel, 1, |parts|
  {
    var n := |parts|;
    if n == 1 {
    } else if n % 2 == 0 {
      ExpandPartsSound(repo, parts[..n - 1], kwargs, fuel);
    } else {
      ExpandPartsSound(repo, parts[..n - 2], kwargs, fuel);
      ExpandVariableSound(repo, parts[n - 2], kwargs, fuel);
      var r := ExpandParts(repo, parts, kwargs, fuel);
      if r.Ok? {
        var done := ExpandParts(repo, parts[..n - 2], kwargs, fuel).value;
        var v := ExpandVariable(repo, parts[n - 2], kwargs, fuel).value;
        assert r.value == done + v + parts[n - 1];
        assert multiset(r.value)['|'] == multiset(done)['|'] + multiset(v)['|'] + multiset(parts[n - 1])['|'];
      }
    }
  }

  lemma {:induction false} ExpandVariableSound(repo: Repo, name: string, kwargs: Kwargs, fuel: nat)
    ensures SoundText(ExpandVariable(repo, name, kwargs, fuel))
    decreases fuel, 0, 0
  {
    if fuel == 0 {
    } else {
      ResolveNameSound(repo, name, kwargs, fuel - 1);
      EvaluateSound(repo, TextOf(ResolveName(repo, name, kwargs, fuel - 1)), kwargs, fuel - 1);
    }
  }

  /** The string a resolution hands on to evaluation, if any. */
  function TextOf(r: Result<Arg, FormulaError>): string
  {
    if r.Ok? && r.value.Str? then r.value.text else ""
  }

  lemma {:induction false} ResolveNameSound(repo: Repo, name: string, kwargs: Kwargs, fuel: nat)
    ensures var r := ResolveName(repo, name, kwargs, fuel);
      r.Err? ==> !r.error.NotFound? && !r.error.Duplicate?
    decreases fuel, 3, 0
  {
    LookupInFirst(repo.keywords, name, kwargs);
    var f := FormulaOf(repo, name);
    if f.Some? {
      EvaluateSound(repo, f.value, kwargs, fuel);
    } else {
    }
  }

  /** Formula values are evaluated a second time by `_eval`; the second pass
      changes nothing, because a result contains no `|`. */
  lemma DoubleEvaluationHarmless(repo: Repo, formula: string, kwargs: Kwargs, fuel: nat, again: nat)
    requires Evaluate(repo, formula, kwargs, fuel).Ok?
    ensures var t := Evaluate(repo, formula, kwargs, fuel).value;
      Evaluate(repo, t, kwargs, again) == Ok(t)
  {
    EvaluateSound(repo, formula, kwargs, fuel);
    NoBarIdentity(repo, Evaluate(repo, formula, kwargs, fuel).value, kwargs, again);
  }

  /** `eval` raises `FormulaNotFoundError` exactly when `get_formula` gives
      `None`, unless the call itself already failed on its keyword
      arguments. */
  lemma EvalNotFoundIff(repo: Repo, name: string, kwargs: Kwargs, fuel: nat)
    ensures EvalName(repo, name, kwargs, fuel) == Err(NotFound(StripPrefix(repo.prefixes, name)))
      <==> !Clashes(kwargs, EvalParams) && FormulaOf(repo, name) == None
  {
    var key := StripPrefix(repo.prefixes, name);
    if key in repo.formulas {
      EvaluateSound(repo, repo.formulas[key], kwargs, fuel);
    }
  }

  /** Left-to-right composition: the leading literal, then the first
      variable, then the rest; the first error met wins. */
  function Combine(lit: string, variable: Result<string, FormulaError>, rest: Result<string, FormulaError>): Result<string, FormulaError>
  {
    match variable
    case Err(e) => Err(e)
    case Ok(v) =>
      match rest
      case Err(e) => Err(e)
      case Ok(t) => Ok(lit + v + t)
  }

  /** One closed variable and the literal after it, appended to what has
      been expanded so far. */
  function Step(done: Result<string, FormulaError>, variable: Result<string, FormulaError>, lit: string): Result<string, FormulaError>
  {
    match done
    case Err(e) => Err(e)
    case Ok(d) =>
      match variable
      case Err(e) => Err(e)
      case Ok(v) => Ok(d + v + lit)
  }

  /** An unclosed variable at the end, after what has been expanded so far. */
  function Close(done: Result<string, FormulaError>): Result<string, FormulaError>
  {
    match done
    case Err(e) => Err(e)
    case Ok(_) => Err(Unclosed)
  }

  lemma ExpandPartsOdd(repo: Repo, parts: seq<string>, kwargs: Kwargs, fuel: nat)
    requires |parts| >= 3 && |parts| % 2 == 1
    ensures ExpandParts(repo, parts, kwargs, fuel) == Step(
      ExpandParts(repo, parts[..|parts| - 2], kwargs, fuel),
      ExpandVariable(repo, parts[|parts| - 2], kwargs, fuel), parts[|parts| - 1])
  {
  }

  lemma ExpandPartsEven(repo: Repo, parts: seq<string>, kwargs: Kwargs, fuel: nat)
    requires |parts| >= 2 && |parts| % 2 == 0
    ensures ExpandParts(repo, parts, kwargs, fuel) == Close(ExpandParts(repo, parts[..|parts| - 1], kwargs, fuel))
  {
  }

  lemma StepCombine(a: string, x: Result<string, FormulaError>, d: Result<string, FormulaError>, w: Result<string, FormulaError>, lit: string)
    ensures Step(Combine(a, x, d), w, lit) == Combine(a, x, Step(d, w, lit))
  {
    if x.Ok? && d.Ok? && w.Ok? {
      assert a + x.value + d.value + w.value + lit == a + x.value + (d.value + w.value + lit);
    }
  }

  lemma {:induction false} ExpandPartsFront(repo: Repo, a: string, x: string, q: seq<string>, kwargs: Kwargs, fuel: nat)
    requires |q| >= 1
    ensures ExpandParts(repo, [a, x] + q, kwargs, fuel)
      == Combine(a, ExpandVariable(repo, x, kwargs, fuel), ExpandParts(repo, q, kwargs, fuel))
    decreases |q|
  {
    var p := [a, x] + q;
    var n := |p|;
    var m := |q|;
    var vx := ExpandVariable(repo, x, kwargs, fuel);
    if m == 1 {
      ExpandPartsOdd(repo, p, kwargs, fuel);
      assert p[..n - 2] == [a];
    } else if m % 2 == 0 {
      ExpandPartsEven(repo, p, kwargs, fuel);
      ExpandPartsEven(repo, q, kwargs, fuel);
      assert p[..n - 1] == [a, x] + q[..m - 1];
      ExpandPartsFront(repo, a, x, q[..m - 1], kwargs, fuel);
    } else {
      ExpandPartsOdd(repo, p, kwargs, fuel);
      ExpandPartsOdd(repo, q, kwargs, fuel);
      assert p[..n - 2] == [a, x] + q[..m - 2];
      assert p[n - 2] == q[m - 2] && p[n - 1] == q[m - 1];
      ExpandPartsFront(repo, a, x, q[..m - 2], kwargs, fuel);
      StepCombine(a, vx, ExpandParts(repo, q[..m - 2], kwargs, fuel), ExpandVariable(repo, q[m - 2], kwargs, fuel), q[m - 1]);
    }
  }

  /** Text outside `|name|` pairs is copied verbatim and in order, and each
      `|name|` is replaced by its expansion. */
  lemma EvaluateConcat(repo: Repo, lit: string, name: string, rest: string, kwargs: Kwargs, fuel: nat)
    requires '|' !in lit && '|' !in name
    ensures Evaluate(repo, lit + Bar + name + Bar + rest, kwargs, fuel)
      == Combine(lit, ExpandVariable(repo, name, kwargs, fuel), Evaluate(repo, rest, kwargs, fuel))
  {
    var s := lit + Bar + name + Bar + rest;
    var tail := name + Bar + rest;
    assert s == lit + Bar + tail;
    forall j | 0 <= j < |lit|
      ensures !StartsWith(s[j..], Bar)
    {
      StartsWithChar(s, '|', j);
      assert s[j] == lit[j];
    }
    SplitCons(lit, Bar, tail);
    forall j | 0 <= j < |name|
      ensures !StartsWith(tail[j..], Bar)
    {
      StartsWithChar(tail, '|', j);
      assert tail[j] == name[j];
    }
    SplitCons(name, Bar, rest);
    assert Split(s, Bar) == [lit, name] + Split(rest, Bar);
    ExpandPartsFront(repo, lit, name, Split(rest, Bar), kwargs, fuel);
  }

  /** The names some reserved keyword knows. */
  const ReservedNames := {"drive", "box", "disk", "config", "code"}

  lemma LowerMemberNames()
    ensures Lower("BOX") == "box" && Lower("CONFIG") == "config" && Lower("CODE") == "code"
  {
    assert Lower("BOX") == "box" by { assert Lower("BOX")[0] == 'b'; }
    assert Lower("CONFIG") == "config";
    assert Lower("CODE") == "code";
  }

  /** `RESERVED_KEYWORDS` is `Drive` then `Disk`. */
  lemma LookupReservedUnfold(repo: Repo, name: string, kwargs: Kwargs)
    requires repo.keywords == ReservedKeywords
    ensures LookupIn(repo.keywords, name, kwargs) ==
      var d := TryToResolve(Drive, name, kwargs);
      if !Falsy(d) then d
      else
        var k := TryToResolve(Disk, name, kwargs);
        if !Falsy(k) then k else Ok(None)
  {
    var d := TryToResolve(Drive, name, kwargs);
    var k := TryToResolve(Disk, name, kwargs);
    assert ReservedKeywords[0] == Drive && ReservedKeywords[1..] == [Disk];
    assert LookupIn(ReservedKeywords, name, kwargs) == if !Falsy(d) then d else LookupIn([Disk], name, kwargs);
    assert [Disk][1..] == [];
    assert LookupIn([Disk], name, kwargs) == if !Falsy(k) then k else LookupIn([], name, kwargs);
  }

  /** A name no reserved keyword knows falls through the reserved lookup,
      unless the lookup fails on a keyword argument named `cls` or `value`. */
  lemma NotReserved(repo: Repo, name: string, kwargs: Kwargs)
    requires repo.keywords == ReservedKeywords && name !in ReservedNames
    ensures LookupIn(repo.keywords, name, kwargs)
      == if Clashes(kwargs, TryToResolveParams) then Err(MultipleValues) else Ok(None)
  {
    LowerMemberNames();
    LookupReservedUnfold(repo, name, kwargs);
    if Clashes(kwargs, TryToResolveParams) {
      return;
    }
    assert name != "drive" && name != "box" && name != "disk" && name != "config" && name != "code";
    assert TryToResolve(Drive, name, kwargs) == Ok(None) by {
      assert Drive.members[0].0 == "BOX" && Drive.members[1..] == [];
      assert FindMember(Drive.members, name) == FindMember([], name);
    }
    assert TryToResolve(Disk, name, kwargs) == Ok(None) by {
      assert Disk.members[0].0 == "CONFIG" && Disk.members[1..][0].0 == "CODE";
      assert Disk.members[1..][1..] == [];
      assert FindMember(Disk.members, name) == FindMember(Disk.members[1..], name) == FindMember([], name);
    }
  }

  /** Keyword arguments come before formulas: a name that is not reserved
      and is passed as an argument resolves to that argument whatever the
      repository holds, unless `try_to_resolve` fails on a keyword argument
      named `cls` or `value` first. */
  lemma KwargsBeforeFormulas(repo: Repo, name: string, kwargs: Kwargs, fuel: nat)
    requires repo.keywords == ReservedKeywords && name !in ReservedNames && name in kwargs
    ensures ResolveName(repo, name, kwargs, fuel)
      == if Clashes(kwargs, TryToResolveParams) then Err(MultipleValues) else Ok(kwargs[name])
  {
    NotReserved(repo, name, kwargs);
  }

  /** Reserved keywords come before everything: without a `drive`/`disk`
      override, a reserved name resolves to its keyword's value whatever the
      arguments and formulas say about that name; a keyword argument named
      `cls` or `value` fails the lookup instead. */
  lemma ReservedFirst(repo: Repo, kwargs: Kwargs, fuel: nat)
    requires repo.keywords == ReservedKeywords && "drive" !in kwargs && "disk" !in kwargs
    ensures Clashes(kwargs, TryToResolveParams) ==>
      forall n | n in ReservedNames :: ResolveName(repo, n, kwargs, fuel) == Err(MultipleValues)
    ensures !Clashes(kwargs, TryToResolveParams) ==>
      ResolveName(repo, "drive", kwargs, fuel) == Ok(Str("~/Box/Capstone_Uploads"))
      && ResolveName(repo, "box", kwargs, fuel) == Ok(Str("~/Box/Capstone_Uploads"))
      && ResolveName(repo, "disk", kwargs, fuel) == Ok(Str("|drive|/13_Tech/config"))
      && ResolveName(repo, "config", kwargs, fuel) == Ok(Str("|drive|/13_Tech/config"))
      && ResolveName(repo, "code", kwargs, fuel) == Ok(Str("|drive|/13_Tech/haymaker"))
  {
    if Clashes(kwargs, TryToResolveParams) {
      forall n | n in ReservedNames
        ensures ResolveName(repo, n, kwargs, fuel) == Err(MultipleValues)
      {
        LookupReservedUnfold(repo, n, kwargs);
      }
      return;
    }
    LowerMemberNames();
    LookupReservedUnfold(repo, "drive", kwargs);
    LookupReservedUnfold(repo, "box", kwargs);
    LookupReservedUnfold(repo, "disk", kwargs);
    LookupReservedUnfold(repo, "config", kwargs);
    LookupReservedUnfold(repo, "code", kwargs);
    assert TryToResolve(Drive, "disk", kwargs) == Ok(None);
    assert TryToResolve(Drive, "config", kwargs) == Ok(None);
    assert TryToResolve(Drive, "code", kwargs) == Ok(None);
    assert FindMember(Disk.members, "code") == Some("|drive|/13_Tech/haymaker") by {
      assert Disk.members[1..] == [("CODE", "|drive|/13_Tech/haymaker")];
    }
  }

  /** `FormulaArgumentError` is raised when no source knows the name. */
  lemma MissingArgumentWhenUnknown(repo: Repo, name: string, kwargs: Kwargs, fuel: nat)
    requires repo.keywords == ReservedKeywords && name !in ReservedNames && name !in kwargs
    requires FormulaOf(repo, name) == None || FormulaOf(repo, name) == Some("")
    ensures ResolveName(repo, name, kwargs, fuel)
      == if Clashes(kwargs, TryToResolveParams) then Err(MultipleValues) else Err(MissingArgument(name))
  {
    NotReserved(repo, name, kwargs);
  }

  /** A keyword argument named after a parameter of `_resolve_variable` or
      of `try_to_resolve` makes the first closed variable fail with
      `TypeError`, whatever that variable names: such an argument can never
      be used as a variable's value. */
  lemma FirstVariableClashes(repo: Repo, lit: string, name: string, rest: string, kwargs: Kwargs, fuel: nat)
    requires '|' !in lit && '|' !in name && fuel >= 1 && |repo.keywords| >= 1
    requires Clashes(kwargs, ResolveParams) || Clashes(kwargs, TryToResolveParams)
    ensures Evaluate(repo, lit + Bar + name + Bar + rest, kwargs, fuel) == Err(MultipleValues)
  {
    EvaluateConcat(repo, lit, name, rest, kwargs, fuel);
    if !Clashes(kwargs, ResolveParams) {
      assert LookupIn(repo.keywords, name, kwargs) == Err(MultipleValues);
    }
  }
}
