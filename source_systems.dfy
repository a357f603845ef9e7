/**
 * Source system types: the kind of monitoring system that reports incidents.
 * Their names are forced to lower case before every save, and the model's
 * validator accepts only lower-case names.
 */
module SourceSystems {
  import opened Wrappers

  // Only the ASCII letters are treated as cased characters.
  predicate IsUpperChar(c: char) { 'A' <= c <= 'Z' }
  predicate IsLowerChar(c: char) { 'a' <= c <= 'z' }

  function LowerChar(c: char): (r: char)
    ensures !IsUpperChar(r)
    ensures IsUpperChar(c) ==> IsLowerChar(r)
    ensures !IsUpperChar(c) ==> r == c
  {
    if IsUpperChar(c) then (c as int - 'A' as int + 'a' as int) as char else c
  }

  /** Python's `str.lower()`. */
  function Lower(s: string): (r: string)
    ensures |r| == |s|
    ensures forall i :: 0 <= i < |s| ==> r[i] == LowerChar(s[i])
  {
    seq(|s|, i requires 0 <= i < |s| => LowerChar(s[i]))
  }

  /**
   * Python's `str.islower()`: at least one cased character, and no cased
   * character is upper case.
   */
  predicate IsLowerString(s: string) {
    (exists i :: 0 <= i < |s| && IsLowerChar(s[i]))
    && forall i :: 0 <= i < |s| ==> !IsUpperChar(s[i])
  }

  /** `validate_lowercase`: refuses every value that is not `islower()`. */
  function ValidateLowercase(value: string): (r: Result<(), string>)
    ensures r.Ok? <==> IsLowerString(value)
    ensures r.Err? ==> r.error == "'" + value + "' is not a lowercase string"
  {
    if IsLowerString(value) then Ok(()) else Err("'" + value + "' is not a lowercase string")
  }

  /** Lowering twice is lowering once. */
  lemma LowerIdempotent(s: string)
    ensures Lower(Lower(s)) == Lower(s)
  {
  }

  /**
   * A lowered name passes the validator exactly when the original name had a
   * letter: a name made only of digits, punctuation or nothing is refused
   * whatever the hook does.
   */
  lemma LoweredNameValidates(s: string)
    ensures ValidateLowercase(Lower(s)).Ok? <==>
      exists i :: 0 <= i < |s| && (IsLowerChar(s[i]) || IsUpperChar(s[i]))
  {
    var l := Lower(s);
    if exists i :: 0 <= i < |s| && (IsLowerChar(s[i]) || IsUpperChar(s[i])) {
      var i :| 0 <= i < |s| && (IsLowerChar(s[i]) || IsUpperChar(s[i]));
      assert IsLowerChar(l[i]);
    }
  }

  /** A name with no letter is refused even though nothing in it is upper case. */
  lemma DigitsOnlyRefused()
    ensures ValidateLowercase("123").Err?
  {
    assert forall i :: 0 <= i < |"123"| ==> !IsLowerChar("123"[i]);
  }

  class SourceSystemType {
    /** The primary key. */
    var name: string

    constructor (name: string)
      ensures this.name == name
    {
      this.name := name;
    }

    /** The pre-save hook: overwrite the name with its lower-case form. */
    method SetNameLowercase()
      modifies this
      ensures name == Lower(old(name))
      ensures forall i :: 0 <= i < |name| ==> !IsUpperChar(name[i])
    {
      name := Lower(name);
    }
  }
}
