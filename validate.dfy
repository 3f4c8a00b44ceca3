/** The validation builder of the current tree (src/FunSharp/FunSharp/Validation/Validate.cs).
    `Validate` is a struct whose only field is a reference to a `List` of
    `(Property, Error)` pairs; `For` appends to that list in place and returns the same
    struct, and `Run` wraps the very same list in a `ValidationResult`. */
module Validation {

  /** One `(Property, Error)` pair. */
  datatype Entry = Entry(property: string, error: string)

  /** The `List<(string Property, string Error)>` the builder owns. */
  class ErrorList {
    var items: seq<Entry>

    /** `new()`: an empty list. */
    constructor()
      ensures items == []
    {
      items := [];
    }

    /** `List.Add`: appends at the end. */
    method Add(e: Entry)
      modifies this
      ensures items == old(items) + [e]
    {
      items := items + [e];
    }

    /** `List.Count`. */
    function Count(): (n: nat)
      reads this
      ensures n == |items|
      ensures n == 0 <==> items == []
    {
      |items|
    }
  }

  /** The `Validate` struct: copies of it share the one list. */
  datatype Validate = Validate(errors: ErrorList)

  /** The `ValidationResult` struct: a flag and the list reference handed over by `Run`. */
  datatype ValidationResult = ValidationResult(isValid: bool, errors: ErrorList)

  /** `new Validate()`: a builder with a fresh, empty list. */
  method NewValidate() returns (v: Validate)
    ensures fresh(v.errors)
    ensures v.errors.items == []
  {
    var list := new ErrorList();
    v := Validate(list);
  }

  /** One rule as `For` sees it once `must(value)` has been evaluated. */
  datatype Rule = Rule(name: string, passed: bool, message: string)

  /** The entries a sequence of rules contributes: one per failed rule, in order. */
  function Failures(rules: seq<Rule>): seq<Entry> {
    if rules == [] then []
    else (if rules[0].passed then [] else [Entry(rules[0].name, rules[0].message)]) + Failures(rules[1..])
  }

  /** The number of rules that failed. */
  function FailedCount(rules: seq<Rule>): nat {
    if rules == [] then 0 else (if rules[0].passed then 0 else 1) + FailedCount(rules[1..])
  }

  /** Failures of consecutive rule sequences are concatenated. */
  lemma {:induction false} FailuresAppend(a: seq<Rule>, b: seq<Rule>)
    ensures Failures(a + b) == Failures(a) + Failures(b)
    decreases |a|
  {
    if a == [] {
      assert a + b == b;
    } else {
      assert (a + b)[0] == a[0];
      assert (a + b)[1..] == a[1..] + b;
      FailuresAppend(a[1..], b);
    }
  }

  /** There is one entry per failed rule, each entry names a failed rule with its message,
      and the list stays empty exactly when every rule passed. */
  lemma {:induction false} FailuresCountAndOrigin(rules: seq<Rule>)
    ensures |Failures(rules)| == FailedCount(rules)
    ensures forall e <- Failures(rules) :: exists r <- rules :: !r.passed && e == Entry(r.name, r.message)
    ensures (forall r <- rules :: r.passed) <==> Failures(rules) == []
    decreases |rules|
  {
    if rules != [] {
      FailuresCountAndOrigin(rules[1..]);
      var head := if rules[0].passed then [] else [Entry(rules[0].name, rules[0].message)];
      assert Failures(rules) == head + Failures(rules[1..]);
      forall e <- Failures(rules)
        ensures exists r <- rules :: !r.passed && e == Entry(r.name, r.message)
      {
        if e in head {
          assert rules[0] in rules;
        } else {
          assert e in Failures(rules[1..]);
          var r :| r in rules[1..] && !r.passed && e == Entry(r.name, r.message);
          assert r in rules;
        }
      }
      if !rules[0].passed {
        assert Failures(rules) != [];
      }
      if forall r <- rules[1..] :: r.passed {
        if rules[0].passed {
          assert forall r <- rules :: r.passed;
        }
      } else {
        var r :| r in rules[1..] && !r.passed;
        assert r in rules;
      }
    }
  }

  /** `For((Name, Value), must, message)`: evaluates `must(value)` once, whatever the list
      already holds, and appends `(Name, message)` at the end exactly when it is false;
      the returned struct is the receiver, sharing its list. */
  method For<P>(v: Validate, name: string, value: P, must: P -> bool, message: string) returns (self: Validate)
    modifies v.errors
    ensures self == v
    ensures v.errors.items == old(v.errors.items) + Failures([Rule(name, must(value), message)])
  {
    if !must(value) {
      v.errors.Add(Entry(name, message));
    }
    self := v;
  }

  /** `Run()`: valid exactly when the list is empty; the result holds the builder's own list,
      not a copy. */
  function Run(v: Validate): (r: ValidationResult)
    reads v.errors
    ensures r.errors == v.errors
    ensures r.isValid <==> v.errors.items == []
  {
    ValidationResult(v.errors.Count() == 0, v.errors)
  }

  /** Blank in the sense of `string.IsNullOrWhiteSpace` for the characters modelled here. */
  predicate IsBlank(s: string) {
    forall c <- s :: c == ' ' || c == '\t' || c == '\n' || c == '\r'
  }

  /** The builder chain of the library's test: a required name, a birth date that must lie
      before `now`, and an age that must be under 30. The entries are the failed rules in
      call order; for `"Rogério"`, aged 46, born on or after `now`, there are two and the
      result is not valid. The clock reading `now` is a parameter. */
  method CheckPerson(name: string, birthDate: int, age: int, now: int) returns (r: ValidationResult)
    ensures r.errors.items == Failures([Rule("Name", !IsBlank(name), "Name is required."),
                                        Rule("BirthDate", birthDate < now, "Birth Date must be in the past."),
                                        Rule("Age", age < 30, "Age must be lower then 30.")])
    ensures name == "Rogério" && age == 46 && birthDate >= now ==> !r.isValid && r.errors.Count() == 2
    ensures name == "Rogério" && age == 46 && birthDate < now ==> !r.isValid && r.errors.Count() == 1
  {
    var v := NewValidate();
    var rules := [Rule("Name", !IsBlank(name), "Name is required."),
                  Rule("BirthDate", birthDate < now, "Birth Date must be in the past."),
                  Rule("Age", age < 30, "Age must be lower then 30.")];
    assert rules == [rules[0]] + [rules[1]] + [rules[2]];
    FailuresAppend([rules[0]] + [rules[1]], [rules[2]]);
    FailuresAppend([rules[0]], [rules[1]]);
    v := For(v, "Name", name, x => !IsBlank(x), "Name is required.");
    v := For(v, "BirthDate", birthDate, x => x < now, "Birth Date must be in the past.");
    v := For(v, "Age", age, x => x < 30, "Age must be lower then 30.");
    r := Run(v);
    if name == "Rogério" {
      assert !IsBlank(name) by { assert name[0] in name && name[0] == 'R'; }
    }
  }

  /** `Run` does not snapshot: a `For` on a copy of the builder, after `Run`, grows the
      result's `Errors` while its `IsValid` still says true. */
  method RunSharesTheList(name: string, message: string) returns (r: ValidationResult)
    ensures r.isValid
    ensures r.errors.items == [Entry(name, message)]
  {
    var v := NewValidate();
    r := Run(v);
    var copy := v;
    copy := For(copy, name, 0, (x: int) => x > 0, message);
  }
}
