/** The `FormulaRepo` class of haymaker/formula_manager.py: its methods
    walk the formula the way the source does and are proved to compute the
    functions of `Formulas`. */
module FormulaManager {
  import opened Common
  import opened Text
  import opened Formulas
  import opened FormulaLaws

  class FormulaRepo {
    var formulas: map<string, string>
    var formulaPrefixes: seq<string>
    /** `RESERVED_KEYWORDS`. */
    const reservedKeywords: seq<Reserved>

    function State(): Repo
      reads this
    {
      Repo(formulas, formulaPrefixes, reservedKeywords)
    }

    constructor()
      ensures formulas == map[] && formulaPrefixes == [] && reservedKeywords == ReservedKeywords
    {
      reservedKeywords := ReservedKeywords;
      formulas := map[];
      formulaPrefixes := [];
    }

    /** `_remove_prefix`. */
    method RemovePrefix(s: string) returns (r: string)
      ensures r == StripPrefix(formulaPrefixes, s)
    {
      var k := 0;
      while k < |formulaPrefixes|
        invariant 0 <= k <= |formulaPrefixes|
        invariant StripPrefix(formulaPrefixes[k..], s) == StripPrefix(formulaPrefixes, s)
      {
        var prefix := formulaPrefixes[k];
        if StartsWith(s, prefix) {
          return Drop(s, |prefix| + 1);
        }
        assert formulaPrefixes[k..][1..] == formulaPrefixes[k + 1..];
        k := k + 1;
      }
      return s;
    }

    /** `_add_formula`: a key already present (after prefix stripping) is a
        `FormulaDuplicateError` and changes nothing; otherwise exactly that
        key is added. */
    method AddFormula(key: string, formula: string) returns (r: Result<(), FormulaError>)
      modifies this
      ensures formulaPrefixes == old(formulaPrefixes)
      ensures var k := StripPrefix(formulaPrefixes, key);
        if k in old(formulas) then r == Err(Duplicate(k)) && formulas == old(formulas)
        else r == Ok(()) && formulas == old(formulas)[k := formula]
      ensures r.Ok? ==> FormulaOf(State(), key) == Some(formula)
    {
      var k := RemovePrefix(key);
      if k in formulas {
        return Err(Duplicate(k));
      }
      formulas := formulas[k := formula];
      return Ok(());
    }

    /** `get_formula`. */
    method GetFormula(name: string) returns (r: Option<string>)
      ensures r == FormulaOf(State(), name)
    {
      var key := RemovePrefix(name);
      if key in formulas {
        return Some(formulas[key]);
      }
      return None;
    }

    /** `eval`; a keyword argument named after a parameter of `eval` or of
        `_eval` is the `TypeError` of the corresponding call. */
    method Eval(name: string, kwargs: Kwargs, fuel: nat) returns (r: Result<string, FormulaError>)
      ensures r == EvalName(State(), name, kwargs, fuel)
    {
      if Clashes(kwargs, EvalParams) {
        return Err(MultipleValues);
      }
      var key := RemovePrefix(name);
      if key !in formulas {
        return Err(NotFound(key));
      }
      if Clashes(kwargs, EvalFormulaParams) {
        return Err(MultipleValues);
      }
      r := EvalFormula(formulas[key], kwargs, fuel);
    }

    /** `_eval`: one pass over the characters, collecting literal text into
        `resolved` and a variable name into `variable` between bars. */
    method EvalFormula(formula: string, kwargs: Kwargs, fuel: nat) returns (r: Result<string, FormulaError>)
      ensures r == Evaluate(State(), formula, kwargs, fuel)
      decreases fuel, 2
    {
      ghost var repo := State();
      var resolved := "";
      var variable: Option<string> := None;
      var i := 0;
      assert formula[..0] == "";
      while i < |formula|
        invariant 0 <= i <= |formula|
        invariant Scanned(repo, Split(formula[..i], Bar), resolved, variable, kwargs, fuel)
      {
        var c := formula[i];
        if c == '|' {
          if variable.None? {
            StepOpen(repo, formula, i, resolved, kwargs, fuel);
            variable := Some("");
          } else {
            var name := variable.value;
            var value := ExpandVariableMethod(name, kwargs, fuel);
            StepClose(repo, formula, i, resolved, name, kwargs, fuel);
            if value.Err? {
              return Err(value.error);
            }
            resolved := resolved + value.value;
            variable := None;
          }
        } else if variable.None? {
          StepLiteral(repo, formula, i, resolved, kwargs, fuel);
          resolved := resolved + [c];
        } else {
          StepName(repo, formula, i, resolved, variable.value, kwargs, fuel);
          variable := Some(variable.value + [c]);
        }
        i := i + 1;
      }
      assert formula[..i] == formula;
      ScanFinish(repo, formula, resolved, variable, kwargs, fuel);
      if variable.Some? {
        return Err(Unclosed);
      }
      return Ok(resolved);
    }

    /** The closing-bar branch of `_eval`: resolve the name one level deeper
        and expand a string result as a formula in its own right. */
    method ExpandVariableMethod(name: string, kwargs: Kwargs, fuel: nat) returns (value: Result<string, FormulaError>)
      ensures value == ExpandVariable(State(), name, kwargs, fuel)
      decreases fuel, 1
    {
      if fuel == 0 {
        return Err(RecursionLimit);
      }
      if Clashes(kwargs, ResolveParams) {
        return Err(MultipleValues);
      }
      var rv := ResolveVariable(name, kwargs, fuel - 1);
      if rv.Err? {
        return Err(rv.error);
      } else if Clashes(kwargs, EvalFormulaParams) {
        return Err(MultipleValues);
      } else if rv.value.Member? {
        return Err(NotIterable(name));
      }
      value := EvalFormula(rv.value.text, kwargs, fuel - 1);
    }

    /** `_resolve_variable`. */
    method ResolveVariable(variable: string, kwargs: Kwargs, fuel: nat) returns (r: Result<Arg, FormulaError>)
      ensures r == ResolveName(State(), variable, kwargs, fuel)
      decreases fuel, 3
    {
      var k := 0;
      while k < |reservedKeywords|
        invariant 0 <= k <= |reservedKeywords|
        invariant LookupIn(reservedKeywords[k..], variable, kwargs) == LookupIn(reservedKeywords, variable, kwargs)
      {
        var value := TryToResolve(reservedKeywords[k], variable, kwargs);
        if value.Err? {
          return Err(value.error);
        }
        if value.value.Some? && value.value.value != "" {
          return Ok(Str(value.value.value));
        }
        assert reservedKeywords[k..][1..] == reservedKeywords[k + 1..];
        k := k + 1;
      }
      if variable in kwargs {
        return Ok(kwargs[variable]);
      }
      var formula := GetFormula(variable);
      if formula.Some? && formula.value != "" {
        if Clashes(kwargs, EvalFormulaParams) {
          return Err(MultipleValues);
        }
        var t := EvalFormula(formula.value, kwargs, fuel);
        if t.Err? {
          return Err(t.error);
        }
        return Ok(Str(t.value));
      }
      return Err(MissingArgument(variable));
    }
  }
}
