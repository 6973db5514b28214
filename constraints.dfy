/**
 * The Jakarta Bean Validation constraints the request and entity classes carry,
 * each as a check that yields the (field, message) violations it raises.
 * Every constraint but @NotNull and @NotBlank accepts a null value.
 */
module Constraints {
  import opened Wrappers
  import opened Domain

  /** One failed constraint: the Java field name and the annotation's message. */
  datatype Violation = Violation(field: string, message: string)

  /** @NotNull */
  function NotNull<T>(field: string, v: Option<T>, message: string): (r: seq<Violation>)
    ensures r == [] <==> v.Some?
    ensures r == [] || r == [Violation(field, message)]
  {
    if v.None? then [Violation(field, message)] else []
  }

  /** @DecimalMin(value = "0.0", inclusive = false): compares numerically with zero. */
  function DecimalMinExclusiveZero(field: string, v: Option<Decimal>, message: string): (r: seq<Violation>)
    ensures r == [] <==> (v.Some? ==> IsPositive(v.value))
    ensures r == [] || r == [Violation(field, message)]
  {
    if v.Some? && !IsPositive(v.value) then [Violation(field, message)] else []
  }

  /** @NotBlank: null, or a string that trims to nothing, is rejected. */
  function NotBlank(field: string, v: Option<string>, message: string): (r: seq<Violation>)
    ensures r == [] <==> (v.Some? && !IsBlank(v.value))
    ensures r == [] || r == [Violation(field, message)]
  {
    if v.None? || IsBlank(v.value) then [Violation(field, message)] else []
  }

  /** @Size(min, max) on a String: counts UTF-16 code units, as String.length() does. */
  function Size(field: string, v: Option<string>, min: nat, max: nat, message: string): (r: seq<Violation>)
    ensures r == [] <==> (v.Some? ==> min <= Utf16Length(v.value) <= max)
    ensures r == [] || r == [Violation(field, message)]
  {
    if v.Some? && !(min <= Utf16Length(v.value) <= max) then [Violation(field, message)] else []
  }

  /** @Positive on an Integer. */
  function Positive(field: string, v: Option<Int32>, message: string): (r: seq<Violation>)
    ensures r == [] <==> (v.Some? ==> v.value > 0)
    ensures r == [] || r == [Violation(field, message)]
  {
    if v.Some? && v.value <= 0 then [Violation(field, message)] else []
  }

  /** The fields that have at least one violation. */
  function FailedFields(vs: seq<Violation>): set<string>
  {
    set x | x in vs :: x.field
  }
}
