/** The athlete-only request schemas of `schemas/athleteSchema.ts`. */
module AthleteSchemas {
  import opened Outcomes
  import opened JsValues
  import opened SchemaRules
  import LegacySchemas

  /** `editProfileSchema`: only the athlete's own fields. */
  predicate EditProfile(body: Json)
  {
    body.JObj? &&
    var f := body.fields;
    && Nullish(Prop(f, "position"), IsString)
    && Nullish(Prop(f, "age"), v => NumberBetween(v, 1.0, 120.0))
    && Nullish(Prop(f, "height"), v => NumberBetween(v, 1.0, 300.0))
    && Nullish(Prop(f, "weight"), v => NumberBetween(v, 1.0, 500.0))
    && Nullish(Prop(f, "club_id"), PositiveNumber)
  }

  /** `editBioSchema` */
  predicate EditBio(body: Json)
  {
    body.JObj? && Required(Prop(body.fields, "bio"), v => StringBetween(v, 1, 500))
  }

  /** The athlete schema is the older general schema without the club,
      federation and coach fields: it accepts everything the older one
      does, and more. */
  lemma OlderProfileImpliesAthlete(body: Json)
    requires LegacySchemas.EditProfile(body)
    ensures EditProfile(body)
  {
  }

  lemma AthleteProfileIgnoresClubFields()
    ensures EditProfile(JObj(map["location" := JNull, "founded_year" := JNum(Finite(0.5))]))
    ensures !LegacySchemas.EditProfile(JObj(map["location" := JNull]))
  {
    assert Prop(map["location" := JNull], "location") == Some(JNull);
  }

  /** The athlete bio rule is the same as the general ones. */
  lemma BioRulesAgree(body: Json)
    ensures EditBio(body) <==> LegacySchemas.EditBio(body)
  {
  }
}
