/** Form-value validation: a `Validation` collects, per field name, the
    messages of the checks that failed; each check returns a `ValidationResult`
    through which its message can be replaced. */
module Validator {
  import opened Text

  /** The dynamic kinds of value the checks distinguish (`obj interface{}`). */
  datatype Obj =
    | Nil
    | Int(n: int)
    | Str(s: string)
    | Time(isZero: bool)
    | Slice(len: nat)
    | Other

  type Errors = map<string, seq<string>>

  /** The messages recorded for a name; a missing key reads as an empty (nil) slice. */
  function Messages(errors: Errors, name: string): seq<string>
  {
    if name in errors then errors[name] else []
  }

  /** The two fields of a `Validation`. */
  datatype Record = Record(hasErrors: bool, errors: Errors)

  /** `later` keeps every name of `earlier` with at least as many messages. */
  ghost predicate Grows(earlier: Errors, later: Errors)
  {
    forall name :: name in earlier ==> name in later && |earlier[name]| <= |later[name]|
  }

  /** `addValidationResult` on the fields: the new fields and the index it stores in the result. */
  function Add(rec: Record, name: string, valid: bool, message: string): (r: (Record, int))
    ensures valid ==> r == (rec, -1)
    ensures !valid ==>
              && r.0.hasErrors
              && name in r.0.errors
              && r.0.errors[name] == Messages(rec.errors, name) + [message]
              && r.1 == |r.0.errors[name]| - 1
              && forall other :: other != name ==> Messages(r.0.errors, other) == Messages(rec.errors, other)
    ensures rec.hasErrors ==> r.0.hasErrors
    ensures Grows(rec.errors, r.0.errors)
  {
    if valid then (rec, -1)
    else
      var msgs := Messages(rec.errors, name) + [message];
      (Record(true, rec.errors[name := msgs]), |msgs| - 1)
  }

  /** The index a result stores addresses a message, or is -1. */
  predicate Addressable(errors: Errors, name: string, index: int)
  {
    index == -1 || (name in errors && 0 <= index < |errors[name]|)
  }

  /** `Message` on the fields: overwrite the addressed slot, if any. */
  function Overwrite(rec: Record, name: string, index: int, msg: string): (r: Record)
    requires Addressable(rec.errors, name, index)
    ensures r.hasErrors == rec.hasErrors && r.errors.Keys == rec.errors.Keys
    ensures forall n :: n in rec.errors ==> |r.errors[n]| == |rec.errors[n]|
    ensures index != -1 ==> r.errors[name][index] == msg
    ensures forall n, k :: n in rec.errors && 0 <= k < |rec.errors[n]| && (n != name || k != index) ==>
              r.errors[n][k] == rec.errors[n][k]
  {
    if index == -1 then rec
    else Record(rec.hasErrors, rec.errors[name := rec.errors[name][index := msg]])
  }

  /** One call of a check that reached `addValidationResult`. */
  datatype CheckCall = CheckCall(name: string, valid: bool, message: string)

  /** The fields after a run of checks, in order. */
  function AddAll(rec: Record, calls: seq<CheckCall>): Record
  {
    if calls == [] then rec
    else
      var last := calls[|calls| - 1];
      Add(AddAll(rec, calls[..|calls| - 1]), last.name, last.valid, last.message).0
  }

  /** Checks only append messages: every message recorded stays where it is. */
  lemma {:induction false} AddAllKeepsMessages(rec: Record, calls: seq<CheckCall>, name: string, index: nat)
    requires name in rec.errors && index < |rec.errors[name]|
    ensures name in AddAll(rec, calls).errors && index < |AddAll(rec, calls).errors[name]|
    ensures AddAll(rec, calls).errors[name][index] == rec.errors[name][index]
  {
    if calls != [] {
      AddAllKeepsMessages(rec, calls[..|calls| - 1], name, index);
    }
  }

  /** Once set, `HasErrors` stays set whatever checks follow; it is set exactly when some check failed. */
  lemma {:induction false} HasErrorsStaysSet(rec: Record, calls: seq<CheckCall>)
    ensures AddAll(rec, calls).hasErrors <==> rec.hasErrors || exists k :: 0 <= k < |calls| && !calls[k].valid
  {
    if calls != [] {
      var init := calls[..|calls| - 1];
      HasErrorsStaysSet(rec, init);
      assert forall k :: 0 <= k < |init| ==> init[k] == calls[k];
    }
  }

  /** The index a failed check hands back still addresses its own message after any
      later checks, so `Message` replaces that message and no other. */
  lemma ResultAddressesOwnMessage(rec: Record, name: string, message: string, later: seq<CheckCall>, msg: string)
    ensures var (r1, index) := Add(rec, name, false, message);
            && Addressable(AddAll(r1, later).errors, name, index) && index >= 0
            && AddAll(r1, later).errors[name][index] == message
            && Overwrite(AddAll(r1, later), name, index, msg).errors[name][index] == msg
  {
    var (r1, index) := Add(rec, name, false, message);
    AddAllKeepsMessages(r1, later, name, index);
  }

  /** The int value, string length or slice length a bound check compares. */
  function Measure(obj: Obj): Option<int>
  {
    match obj
    case Int(n) => Some(n)
    case Str(s) => Some(|s|)
    case Slice(len) => Some(len)
    case _ => None
  }

  /** The values `Required` is meant to reject: nil, zero, empty, or the zero time. */
  predicate IsEmpty(obj: Obj)
  {
    obj.Nil? || obj == Int(0) || obj == Str("") || obj == Time(true) || obj == Slice(0)
  }

  /** The outcome of `Required` as the code computes it: `None` when it returns nil
      without recording anything. A `time.Time` passes when it IS the zero time. */
  function RequiredAsWritten(obj: Obj): (r: Option<bool>)
    ensures obj.Time? ==> r == Some(obj.isZero)
    ensures !obj.Time? ==> r == RequiredCheck(obj)
  {
    match obj
    case Nil => Some(false)
    case Int(n) => Some(n != 0)
    case Str(s) => Some(|s| > 0)
    case Time(isZero) => Some(isZero)
    case Slice(len) => Some(len > 0)
    case Other => None
  }

  /** As written, `Required` rejects a set time and accepts the zero time. */
  lemma RequiredAsWrittenInvertsTime()
    ensures RequiredAsWritten(Time(false)) == Some(false) && !IsEmpty(Time(false))
    ensures RequiredAsWritten(Time(true)) == Some(true) && IsEmpty(Time(true))
  {
  }

  /** The outcome of `Required` with the time case corrected to `!IsZero()`. */
  function RequiredCheck(obj: Obj): (r: Option<bool>)
    ensures r.None? <==> obj.Other?
    ensures r.Some? ==> (r.value <==> !IsEmpty(obj))
  {
    match obj
    case Nil => Some(false)
    case Int(n) => Some(n != 0)
    case Str(s) => Some(|s| > 0)
    case Time(isZero) => Some(!isZero)
    case Slice(len) => Some(len > 0)
    case Other => None
  }

  /** The outcome of `Min`. */
  function MinCheck(obj: Obj, min: int): (r: Option<bool>)
    ensures obj.Nil? ==> r == Some(false)
    ensures !obj.Nil? ==> (r.Some? <==> Measure(obj).Some?)
    ensures Measure(obj).Some? ==> r == Some(Measure(obj).value >= min)
  {
    match obj
    case Nil => Some(false)
    case Int(n) => Some(n >= min)
    case Str(s) => Some(|s| >= min)
    case Slice(len) => Some(len >= min)
    case _ => None
  }

  /** The outcome of `Max`. */
  function MaxCheck(obj: Obj, max: int): (r: Option<bool>)
    ensures obj.Nil? ==> r == Some(false)
    ensures !obj.Nil? ==> (r.Some? <==> Measure(obj).Some?)
    ensures Measure(obj).Some? ==> r == Some(Measure(obj).value <= max)
  {
    match obj
    case Nil => Some(false)
    case Int(n) => Some(n <= max)
    case Str(s) => Some(|s| <= max)
    case Slice(len) => Some(len <= max)
    case _ => None
  }

  /** The outcome of `MinMax`. */
  function MinMaxCheck(obj: Obj, min: int, max: int): (r: Option<bool>)
    ensures obj.Nil? ==> r == Some(false)
    ensures !obj.Nil? ==> (r.Some? <==> Measure(obj).Some?)
    ensures Measure(obj).Some? ==> r == Some(min <= Measure(obj).value <= max)
  {
    match obj
    case Nil => Some(false)
    case Int(n) => Some(n >= min && n <= max)
    case Str(s) => Some(|s| >= min && |s| <= max)
    case Slice(len) => Some(len >= min && len <= max)
    case _ => None
  }

  /** `MinMax` passes exactly when both `Min` and `Max` pass, and it applies to the same kinds. */
  lemma MinMaxIsMinAndMax(obj: Obj, min: int, max: int)
    ensures MinMaxCheck(obj, min, max).Some? <==> MinCheck(obj, min).Some? && MaxCheck(obj, max).Some?
    ensures MinMaxCheck(obj, min, max).Some? ==>
              MinMaxCheck(obj, min, max).value == (MinCheck(obj, min).value && MaxCheck(obj, max).value)
  {
  }

  const REQUIRED_MESSAGE := "Required"

  /** The default messages name their bounds: each is a fixed text followed by the bound as `%d` prints it. */
  function MinMessage(min: int): (r: string)
    ensures HasPrefix(r, "Must be larger than ") && r[20..] == IntToString(min)
  {
    "Must be larger than " + IntToString(min)
  }

  function MaxMessage(max: int): (r: string)
    ensures HasPrefix(r, "Must be smaller than ") && r[21..] == IntToString(max)
  {
    "Must be smaller than " + IntToString(max)
  }

  const MIN_MAX_HEAD := "Must be larger "
  const MIN_MAX_SEP := " and smaller "

  function MinMaxMessage(min: int, max: int): string
  {
    MIN_MAX_HEAD + (IntToString(min) + (MIN_MAX_SEP + IntToString(max)))
  }

  lemma CutHead(head: string, x: string, y: string)
    requires head + x == head + y
    ensures x == y
  {
    assert x == (head + x)[|head|..];
  }

  predicate NoSpace(s: string)
  {
    forall i :: 0 <= i < |s| ==> s[i] != ' '
  }

  /** The character at position `i` of `a + b`. */
  lemma CharOfConcat(a: string, b: string, i: int)
    ensures 0 <= i < |a| ==> (a + b)[i] == a[i]
    ensures |a| <= i < |a| + |b| ==> (a + b)[i] == b[i - |a|]
  {
  }

  /** Text split at a separator that starts with a space, before a part without spaces,
      splits one way only. */
  lemma SplitAtSpace(x1: string, y1: string, x2: string, y2: string, sep: string)
    requires |sep| > 0 && sep[0] == ' ' && NoSpace(x1) && NoSpace(x2)
    requires x1 + (sep + y1) == x2 + (sep + y2)
    ensures x1 == x2 && y1 == y2
  {
    var r := x1 + (sep + y1);
    if |x1| < |x2| {
      CharOfConcat(x1, sep + y1, |x1|);
      CharOfConcat(x2, sep + y2, |x1|);
      CharOfConcat(sep, y1, 0);
      assert false;
    } else if |x2| < |x1| {
      CharOfConcat(x1, sep + y1, |x2|);
      CharOfConcat(x2, sep + y2, |x2|);
      CharOfConcat(sep, y2, 0);
      assert false;
    } else {
      assert x1 == r[..|x1|] == x2;
      assert y1 == r[|x1| + |sep|..] == y2;
    }
  }

  lemma IntNoSpace(n: int)
    ensures NoSpace(IntToString(n))
  {
  }

  /** Distinct bounds give distinct messages, so a message tells which bound was violated. */
  lemma MinMessageNamesBound(a: int, b: int)
    requires MinMessage(a) == MinMessage(b)
    ensures a == b
  {
    IntToStringInjective(a, b);
  }

  lemma MaxMessageNamesBound(a: int, b: int)
    requires MaxMessage(a) == MaxMessage(b)
    ensures a == b
  {
    IntToStringInjective(a, b);
  }

  lemma MinMaxMessageNamesBounds(a: int, c: int, b: int, d: int)
    requires MinMaxMessage(a, c) == MinMaxMessage(b, d)
    ensures a == b && c == d
  {
    var sa, sb, sc, sd := IntToString(a), IntToString(b), IntToString(c), IntToString(d);
    CutHead(MIN_MAX_HEAD, sa + (MIN_MAX_SEP + sc), sb + (MIN_MAX_SEP + sd));
    IntNoSpace(a);
    IntNoSpace(b);
    SplitAtSpace(sa, sc, sb, sd, MIN_MAX_SEP);
    IntToStringInjective(a, b);
    IntToStringInjective(c, d);
  }

  class Validation {
    var HasErrors: bool
    var errors: Errors

    constructor ()
      ensures !HasErrors && errors == map[]
    {
      HasErrors := false;
      errors := map[];
    }

    function State(): Record
      reads this
    {
      Record(HasErrors, errors)
    }

    method AddValidationResult(name: string, valid: bool, message: string) returns (result: ValidationResult)
      modifies this
      ensures fresh(result) && result.validation == this && result.valid == valid && result.name == name
      ensures (State(), result.index) == Add(old(State()), name, valid, message)
      ensures result.Valid() && Addressable(errors, name, result.index)
    {
      var index := -1;
      if !valid {
        HasErrors := true;
        errors := errors[name := Messages(errors, name) + [message]];
        index := |errors[name]| - 1;
      }
      result := new ValidationResult(this, valid, name, index);
    }

    /** Shared shape of the four checks: record `outcome` if the kind applies, else return nil. */
    method Check(name: string, outcome: Option<bool>, message: string) returns (result: ValidationResult?)
      modifies this
      ensures outcome.None? ==> result == null && State() == old(State())
      ensures outcome.Some? ==>
                && result != null && fresh(result)
                && result.validation == this && result.name == name && result.valid == outcome.value
                && (State(), result.index) == Add(old(State()), name, outcome.value, message)
                && result.Valid() && Addressable(errors, name, result.index)
    {
      if outcome.None? {
        return null;
      }
      result := AddValidationResult(name, outcome.value, message);
    }

    /** `Required`, as written: the time case passes for the zero time (see `RequiredCheck`). */
    method Required(name: string, obj: Obj) returns (result: ValidationResult?)
      modifies this
      ensures RequiredAsWritten(obj).None? ==> result == null && State() == old(State())
      ensures RequiredAsWritten(obj).Some? ==>
                && result != null && fresh(result)
                && result.validation == this && result.name == name && result.valid == RequiredAsWritten(obj).value
                && (State(), result.index) == Add(old(State()), name, result.valid, REQUIRED_MESSAGE)
    {
      var outcome: Option<bool>;
      match obj {
        case Nil => outcome := Some(false);
        case Int(n) => outcome := Some(n != 0);
        case Str(s) => outcome := Some(|s| > 0);
        case Time(isZero) => outcome := Some(isZero);
        case Slice(len) => outcome := Some(len > 0);
        case Other => outcome := None;
      }
      result := Check(name, outcome, REQUIRED_MESSAGE);
    }

    method Min(name: string, obj: Obj, min: int) returns (result: ValidationResult?)
      modifies this
      ensures MinCheck(obj, min).None? ==> result == null && State() == old(State())
      ensures MinCheck(obj, min).Some? ==>
                && result != null && fresh(result)
                && result.validation == this && result.name == name && result.valid == MinCheck(obj, min).value
                && (State(), result.index) == Add(old(State()), name, result.valid, MinMessage(min))
    {
      var outcome: Option<bool>;
      match obj {
        case Nil => outcome := Some(false);
        case Int(n) => outcome := Some(n >= min);
        case Str(s) => outcome := Some(|s| >= min);
        case Slice(len) => outcome := Some(len >= min);
        case _ => outcome := None;
      }
      result := Check(name, outcome, MinMessage(min));
    }

    method Max(name: string, obj: Obj, max: int) returns (result: ValidationResult?)
      modifies this
      ensures MaxCheck(obj, max).None? ==> result == null && State() == old(State())
      ensures MaxCheck(obj, max).Some? ==>
                && result != null && fresh(result)
                && result.validation == this && result.name == name && result.valid == MaxCheck(obj, max).value
                && (State(), result.index) == Add(old(State()), name, result.valid, MaxMessage(max))
    {
      var outcome: Option<bool>;
      match obj {
        case Nil => outcome := Some(false);
        case Int(n) => outcome := Some(n <= max);
        case Str(s) => outcome := Some(|s| <= max);
        case Slice(len) => outcome := Some(len <= max);
        case _ => outcome := None;
      }
      result := Check(name, outcome, MaxMessage(max));
    }

    method MinMax(name: string, obj: Obj, min: int, max: int) returns (result: ValidationResult?)
      modifies this
      ensures MinMaxCheck(obj, min, max).None? ==> result == null && State() == old(State())
      ensures MinMaxCheck(obj, min, max).Some? ==>
                && result != null && fresh(result)
                && result.validation == this && result.name == name
                && result.valid == MinMaxCheck(obj, min, max).value
                && (State(), result.index) == Add(old(State()), name, result.valid, MinMaxMessage(min, max))
    {
      var outcome: Option<bool>;
      match obj {
        case Nil => outcome := Some(false);
        case Int(n) => outcome := Some(n >= min && n <= max);
        case Str(s) => outcome := Some(|s| >= min && |s| <= max);
        case Slice(len) => outcome := Some(len >= min && len <= max);
        case _ => outcome := None;
      }
      result := Check(name, outcome, MinMaxMessage(min, max));
    }
  }

  /** The outcome of one check: which validation it wrote to, under which name and at which index. */
  class ValidationResult {
    const validation: Validation
    const valid: bool
    const name: string
    const index: int

    /** A result is valid exactly when it recorded no message. */
    predicate Valid()
    {
      (valid <==> index == -1) && index >= -1
    }

    constructor (validation: Validation, valid: bool, name: string, index: int)
      ensures this.validation == validation && this.valid == valid && this.name == name && this.index == index
    {
      this.validation := validation;
      this.valid := valid;
      this.name := name;
      this.index := index;
    }

    /** Replace the message this result recorded; a passing result changes nothing. */
    method Message(msg: string) returns (result: ValidationResult)
      requires Addressable(validation.errors, name, index)
      modifies validation
      ensures result == this
      ensures validation.State() == Overwrite(old(validation.State()), name, index, msg)
    {
      if index != -1 {
        validation.errors := validation.errors[name := validation.errors[name][index := msg]];
      }
      return this;
    }

    function IsValid(): (b: bool)
      ensures Valid() ==> (b <==> index == -1)
    {
      valid
    }
  }

  /** A caller's view: a failed check's message can be replaced after later checks. */
  method ValidateSignup(userName: string, age: int) returns (v: Validation)
    ensures v.HasErrors <==> |userName| == 0 || !(18 <= age <= 130)
    ensures "user" in v.errors <==> |userName| == 0
    ensures "user" in v.errors ==> v.errors["user"] == ["Please choose a user name"]
  {
    v := new Validation();
    var r1 := v.Required("user", Str(userName));
    var r2 := v.MinMax("age", Int(age), 18, 130);
    var before := v.errors;
    assert Addressable(before, r1.name, r1.index);
    var r3 := r1.Message("Please choose a user name");
    assert r3.IsValid() == (|userName| > 0);
    assert v.HasErrors <==> |userName| == 0 || !(18 <= age <= 130);
  }
}
