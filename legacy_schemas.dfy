/** The request schemas of `schemas/generalSchema.ts`, the older copy the
    coach, club and federation controllers use: the same rules as the
    newer file, without `federation_id` in the profile edit. */
module LegacySchemas {
  import opened Outcomes
  import opened JsValues
  import opened SchemaRules
  import GeneralSchemas

  /** `editProfileSchema` */
  predicate EditProfile(body: Json)
  {
    body.JObj? &&
    var f := body.fields;
    && Nullish(Prop(f, "position"), IsString)
    && Nullish(Prop(f, "age"), v => NumberBetween(v, 1.0, 120.0))
    && Nullish(Prop(f, "height"), v => NumberBetween(v, 1.0, 300.0))
    && Nullish(Prop(f, "weight"), v => NumberBetween(v, 1.0, 500.0))
    && Nullish(Prop(f, "club_id"), PositiveNumber)
    && Optional(Prop(f, "location"), v => StringAtMost(v, 255))
    && Optional(Prop(f, "founded_year"), PositiveInteger)
    && Optional(Prop(f, "country"), v => StringAtMost(v, 100))
    && Optional(Prop(f, "specialty"), v => StringAtMost(v, 255))
  }

  /** `editBioSchema` */
  predicate EditBio(body: Json)
  {
    body.JObj? && Required(Prop(body.fields, "bio"), v => StringBetween(v, 1, 500))
  }

  /** `addTrophySchema` */
  predicate AddTrophy(body: Json)
  {
    body.JObj? &&
    var f := body.fields;
    && Required(Prop(f, "name"), v => StringAtLeast(v, 1))
    && Required(Prop(f, "description"), v => StringAtLeast(v, 1))
    && Required(Prop(f, "category"), v => OneOf(v, {"athlete", "coach", "club"}))
    && Required(Prop(f, "federation_id"), v => PositiveNumber(v) && v.n.value >= 1.0)
  }

  /** `addExperienceCertificationSchema` */
  predicate AddExperienceCertification(body: Json)
  {
    body.JObj? &&
    var f := body.fields;
    && Required(Prop(f, "name"), v => StringAtLeast(v, 1))
    && Required(Prop(f, "type"), v => OneOf(v, {"experience", "certification"}))
    && Required(Prop(f, "date"), v => StringBetween(v, 1, 100))
    && Optional(Prop(f, "description"), IsString)
  }

  /** Every profile edit the newer schema accepts, the older one accepts
      too: it has the same rules for every field it declares, and ignores
      `federation_id`. */
  lemma NewerProfileImpliesOlder(body: Json)
    requires GeneralSchemas.EditProfile(body)
    ensures EditProfile(body)
  {
  }

  /** The converse fails: without a `federation_id` rule, the older schema
      lets through a fractional or negative federation id. */
  lemma OlderProfileAdmitsAnyFederationId()
    ensures EditProfile(JObj(map["federation_id" := JNum(Finite(-2.5))]))
    ensures !GeneralSchemas.EditProfile(JObj(map["federation_id" := JNum(Finite(-2.5))]))
  {
  }

  /** The two copies of the bio, trophy and experience rules agree on
      every input. */
  lemma SharedRulesAgree(body: Json)
    ensures EditBio(body) <==> GeneralSchemas.EditBio(body)
    ensures AddTrophy(body) <==> GeneralSchemas.AddTrophy(body)
    ensures AddExperienceCertification(body) <==> GeneralSchemas.AddExperienceCertification(body)
  {
  }
}
