/** The request schemas of `utils/schemas/generalSchema.ts`: profile
    edits for every kind of user, bios, trophies, experiences and
    certifications, tryouts, application status and posts. */
module GeneralSchemas {
  import opened Outcomes
  import opened JsValues
  import opened SchemaRules

  /** `editProfileSchema`: the athlete fields, the club and federation
      fields and the coach field, all optional. */
  predicate EditProfile(body: Json)
  {
    body.JObj? &&
    var f := body.fields;
    && Nullish(Prop(f, "position"), IsString)
    && Nullish(Prop(f, "age"), v => NumberBetween(v, 1.0, 120.0))
    && Nullish(Prop(f, "height"), v => NumberBetween(v, 1.0, 300.0))
    && Nullish(Prop(f, "weight"), v => NumberBetween(v, 1.0, 500.0))
    && Nullish(Prop(f, "club_id"), PositiveNumber)
    && Nullish(Prop(f, "federation_id"), PositiveInteger)
    && Optional(Prop(f, "location"), v => StringAtMost(v, 255))
    && Optional(Prop(f, "founded_year"), PositiveInteger)
    && Optional(Prop(f, "country"), v => StringAtMost(v, 100))
    && Optional(Prop(f, "specialty"), v => StringAtMost(v, 255))
  }

  /** `editBioSchema` */
  predicate EditBio(body: Json)
  {
    body.JObj? && Required(Prop(body.fields, "bio"), v => StringBetween(v, 1, 500))
  }

  const TrophyCategories: set<string> := {"athlete", "coach", "club"}

  /** `addTrophySchema`: `.positive()` and `.min(1)` together make the
      federation id at least 1. */
  predicate AddTrophy(body: Json)
  {
    body.JObj? &&
    var f := body.fields;
    && Required(Prop(f, "name"), v => StringAtLeast(v, 1))
    && Required(Prop(f, "description"), v => StringAtLeast(v, 1))
    && Required(Prop(f, "category"), v => OneOf(v, TrophyCategories))
    && Required(Prop(f, "federation_id"), v => PositiveNumber(v) && v.n.value >= 1.0)
  }

  const ExperienceTypes: set<string> := {"experience", "certification"}

  /** `addExperienceCertificationSchema` */
  predicate AddExperienceCertification(body: Json)
  {
    body.JObj? &&
    var f := body.fields;
    && Required(Prop(f, "name"), v => StringAtLeast(v, 1))
    && Required(Prop(f, "type"), v => OneOf(v, ExperienceTypes))
    && Required(Prop(f, "date"), v => StringBetween(v, 1, 100))
    && Optional(Prop(f, "description"), IsString)
  }

  /** `addTryoutSchema` */
  predicate AddTryout(body: Json)
  {
    body.JObj? &&
    var f := body.fields;
    && Required(Prop(f, "name"), v => StringBetween(v, 1, 255))
    && Required(Prop(f, "date"), v => StringBetween(v, 1, 100))
    && Optional(Prop(f, "description"), v => StringAtMost(v, 1000))
  }

  const ApplicationStatuses: set<string> := {"accepted", "rejected", "pending"}

  /** `ApplicationStatus` */
  predicate ApplicationStatus(v: Json)
  {
    OneOf(v, ApplicationStatuses)
  }

  /** `MediaFileSchema`; `isUrl` is zod's own `.url()` check. */
  predicate MediaFile(v: Json, isUrl: string -> bool)
  {
    && v.JObj?
    && Required(Prop(v.fields, "type"), t => OneOf(t, {"image", "video"}))
    && Required(Prop(v.fields, "url"), (u: Json) => u.JStr? && isUrl(u.s))
  }

  /** `createPostSchema` */
  predicate CreatePost(body: Json, isUrl: string -> bool)
  {
    body.JObj? &&
    var f := body.fields;
    && Optional(Prop(f, "description"), v => StringBetween(v, 1, 2000))
    && Optional(Prop(f, "mediaFiles"), (v: Json) =>
         v.JArr? && |v.items| <= 5 && forall i | 0 <= i < |v.items| :: MediaFile(v.items[i], isUrl))
  }

  // ---------------------------------------------------------------------
  // What the schemas admit.

  /** An accepted profile edit: each measurement is absent, `null` or in
      its range, fractions included; the federation id, when a number, is
      a positive integer; the four club, federation and coach fields are
      never `null`. */
  lemma EditProfileBounds(body: Json)
    requires EditProfile(body)
    ensures var a := Prop(body.fields, "age"); a.Some? && a.value != JNull ==>
              a.value.JNum? && a.value.n.Finite? && 1.0 <= a.value.n.value <= 120.0
    ensures var h := Prop(body.fields, "height"); h.Some? && h.value != JNull ==>
              h.value.JNum? && h.value.n.Finite? && 1.0 <= h.value.n.value <= 300.0
    ensures var w := Prop(body.fields, "weight"); w.Some? && w.value != JNull ==>
              w.value.JNum? && w.value.n.Finite? && 1.0 <= w.value.n.value <= 500.0
    ensures var d := Prop(body.fields, "federation_id"); d.Some? && d.value != JNull ==>
              d.value.JNum? && d.value.n.Finite? && d.value.n.value >= 1.0 && IsInteger(d.value.n.value)
    ensures forall k | k in {"location", "founded_year", "country", "specialty"} :: Prop(body.fields, k) != Some(JNull)
  {
    var d := Prop(body.fields, "federation_id");
    if d.Some? && d.value != JNull {
      var r := d.value.n.value;
      assert r > 0.0 && r.Floor as real == r;
      assert r.Floor >= 1;
    }
  }

  /** Examples at the edges: a fractional age passes, a fractional
      federation id and a `null` location do not, nor does an array in
      place of the body. */
  lemma EditProfileExamples()
    ensures EditProfile(JObj(map["age" := JNum(Finite(25.5))]))
    ensures !EditProfile(JObj(map["federation_id" := JNum(Finite(1.5))]))
    ensures !EditProfile(JObj(map["location" := JNull]))
    ensures !EditProfile(JObj(map["age" := JNum(Finite(0.5))]))
    ensures EditProfile(JObj(map["age" := JNull, "weight" := JNull, "height" := JNull]))
    ensures !EditProfile(JArr([]))
  {
    assert (1.5 as real).Floor == 1;
    assert Prop(map["location" := JNull], "location") == Some(JNull);
  }

  /** A post takes at most five media files, each an image or a video. */
  lemma CreatePostMedia(body: Json, isUrl: string -> bool)
    requires CreatePost(body, isUrl) && "mediaFiles" in body.fields
    ensures body.fields["mediaFiles"].JArr? && |body.fields["mediaFiles"].items| <= 5
    ensures forall m | m in body.fields["mediaFiles"].items ::
              m.JObj? && "type" in m.fields && m.fields["type"] in {JStr("image"), JStr("video")}
  {
    var items := body.fields["mediaFiles"].items;
    forall m | m in items
      ensures m.JObj? && "type" in m.fields && m.fields["type"] in {JStr("image"), JStr("video")}
    {
      var i :| 0 <= i < |items| && items[i] == m;
      assert MediaFile(items[i], isUrl);
    }
  }

  /** The record schemas: a trophy's federation id is at least 1, so a
      positive 0.5 is refused; a trophy category and an experience type
      come from their lists, case included; a tryout's description may be
      empty but not longer than 1000; an application status is one of
      three lower-case words. */
  lemma RecordSchemaBounds(body: Json)
    ensures AddTrophy(body) ==>
              var f := body.fields;
              f["federation_id"].JNum? && f["federation_id"].n.Finite? && f["federation_id"].n.value >= 1.0
              && f["category"] in {JStr("athlete"), JStr("coach"), JStr("club")}
    ensures AddExperienceCertification(body) ==>
              var d := body.fields["date"]; d.JStr? && 1 <= |d.s| <= 100
    ensures AddTryout(body) && "description" in body.fields ==>
              var d := body.fields["description"]; d.JStr? && |d.s| <= 1000
    ensures !AddTrophy(JObj(map["name" := JStr("Cup"), "description" := JStr("Won"),
                                "category" := JStr("club"), "federation_id" := JNum(Finite(0.5))]))
    ensures AddTryout(JObj(map["name" := JStr("Trial"), "date" := JStr("May"), "description" := JStr("")]))
    ensures !ApplicationStatus(JStr("Accepted")) && ApplicationStatus(JStr("pending"))
  {
    var trial := map["name" := JStr("Trial"), "date" := JStr("May"), "description" := JStr("")];
    assert Prop(trial, "name") == Some(JStr("Trial"));
    assert Prop(trial, "date") == Some(JStr("May"));
    assert Prop(trial, "description") == Some(JStr(""));
    var cup := map["name" := JStr("Cup"), "description" := JStr("Won"),
                   "category" := JStr("club"), "federation_id" := JNum(Finite(0.5))];
    assert Prop(cup, "federation_id") == Some(JNum(Finite(0.5)));
  }
}
