/** The zod building blocks the schemas are written with, as predicates on
    decoded JSON. A field of a `z.object` is `None` when its key is absent;
    `z.object` accepts only objects and ignores keys it does not declare. */
module SchemaRules {
  import opened Outcomes
  import opened JsValues

  /** `z.string()` */
  predicate IsString(v: Json)
  {
    v.JStr?
  }

  /** `z.string().min(lo).max(hi)` */
  predicate StringBetween(v: Json, lo: nat, hi: nat)
  {
    v.JStr? && lo <= |v.s| <= hi
  }

  /** `z.string().min(lo)` */
  predicate StringAtLeast(v: Json, lo: nat)
  {
    v.JStr? && |v.s| >= lo
  }

  /** `z.string().max(hi)` */
  predicate StringAtMost(v: Json, hi: nat)
  {
    v.JStr? && |v.s| <= hi
  }

  /** `z.enum(options)` */
  predicate OneOf(v: Json, options: set<string>)
  {
    v.JStr? && v.s in options
  }

  /** `z.number()`: any number but NaN. */
  predicate IsNumber(v: Json)
  {
    v.JNum? && v.n.Finite?
  }

  /** `z.number().min(lo).max(hi)` */
  predicate NumberBetween(v: Json, lo: real, hi: real)
  {
    IsNumber(v) && lo <= v.n.value <= hi
  }

  /** `z.number().positive()` */
  predicate PositiveNumber(v: Json)
  {
    IsNumber(v) && v.n.value > 0.0
  }

  /** `z.number().int().positive()` */
  predicate PositiveInteger(v: Json)
  {
    PositiveNumber(v) && IsInteger(v.n.value)
  }

  /** A field with no modifier: present and valid. */
  predicate Required(f: Option<Json>, rule: Json -> bool)
  {
    f.Some? && rule(f.value)
  }

  /** `.optional()`: absent, or present and valid; `null` is not absent. */
  predicate Optional(f: Option<Json>, rule: Json -> bool)
  {
    f.None? || rule(f.value)
  }

  /** `.nullable().optional()`: absent, `null`, or valid. */
  predicate Nullish(f: Option<Json>, rule: Json -> bool)
  {
    f.None? || f.value == JNull || rule(f.value)
  }

  /** A `.nullable().optional()` field accepts `null` where an `.optional()`
      one with the same rule refuses it, unless the rule itself takes
      `null`. */
  lemma NullishWidensOptional(f: Option<Json>, rule: Json -> bool)
    ensures Optional(f, rule) ==> Nullish(f, rule)
    ensures Nullish(Some(JNull), rule) && (Optional(Some(JNull), rule) <==> rule(JNull))
  {
  }
}
