/** The athlete profile controller: `editProfile`, a chain of hand-written
    checks on the route id and the body followed by a lookup of the
    athlete, and the three handlers with empty bodies. */
module ProfileHandler {
  import opened Outcomes
  import opened JsValues
  import opened HttpErrors
  import AthleteSchemas

  const IdRequired := "ID required"
  const PositionMessage := "Position must be a string"
  const AgeMessage := "Age must be a number ( > 0 || < 300)"
  const HeightMessage := "Height must be a number ( > 0 || < 300)"
  const WeightMessage := "Weight must be a number ( > 0 || < 500)"
  const AthleteNotFound := "Athlete not found"

  /** `v` is a number, not NaN, in (0, hi]. */
  predicate NumberUpTo(v: Option<Json>, hi: real)
  {
    v.Some? && v.value.JNum? && v.value.n.Finite? && 0.0 < v.value.n.value <= hi
  }

  /** The age and height checks: `v && (typeof v !== "number" || isNaN(v)
      || v <= 0 || v > hi)`. A falsy value (absent, null, 0, "", false)
      skips the check. */
  predicate RefusedMeasure(v: Option<Json>, hi: real)
  {
    Truthy(v) && !NumberUpTo(v, hi)
  }

  /** `position && typeof position !== "string"` */
  predicate RefusedPosition(p: Option<Json>)
  {
    Truthy(p) && !p.value.JStr?
  }

  /** A height that got past the height check: falsy, or a number in
      (0, 300]. */
  predicate PassedHeight(h: Option<Json>)
  {
    !RefusedMeasure(h, 300.0)
  }

  /** The number `height <= 0` and `height > 500` compare: JavaScript turns
      `undefined` into NaN and `null`, `false` and `""` into 0. These and
      numbers are the only heights that reach the weight check. */
  function HeightCompared(h: Option<Json>): (n: Num)
    requires PassedHeight(h)
    ensures n.Finite? ==> 0.0 <= n.value <= 300.0
    ensures n.Finite? && n.value == 0.0 <==> h.Some? && !Truthy(h) && h.value != JNum(NaN)
  {
    match h
    case None => NaN
    case Some(JNum(n)) => n
    case Some(_) => Finite(0.0)
  }

  /** `x <= r` for a number `x`: false when `x` is NaN. */
  predicate AtMost(x: Num, r: real)
  {
    x.Finite? && x.value <= r
  }

  /** `x > r`: false when `x` is NaN. */
  predicate Above(x: Num, r: real)
  {
    x.Finite? && x.value > r
  }

  /** The weight check as written: the type and NaN tests look at the
      weight, the range tests at the height. */
  predicate RefusedWeightAsWritten(w: Option<Json>, h: Option<Json>)
    requires PassedHeight(h)
  {
    Truthy(w) && (!w.value.JNum? || w.value.n.NaN? || AtMost(HeightCompared(h), 0.0) || Above(HeightCompared(h), 500.0))
  }

  /** The reply of the first failing check of `editProfile`, as written,
      or `None` when the request reaches the lookup. `id` is the route
      parameter, the empty string when missing. */
  function EditProfileGate(id: string, body: map<string, Json>): (r: Option<Reply<NoPayload>>)
    // the id comes first, before anything in the body
    ensures id == "" ==> r == Some(ErrorReply(IdRequired, 400))
    ensures id != "" && RefusedPosition(Prop(body, "position")) ==> r == Some(ErrorReply(PositionMessage, 400))
    ensures id != "" && !RefusedPosition(Prop(body, "position")) && RefusedMeasure(Prop(body, "age"), 120.0) ==>
              r == Some(ErrorReply(AgeMessage, 400))
    ensures id != "" && !RefusedPosition(Prop(body, "position")) && !RefusedMeasure(Prop(body, "age"), 120.0)
            && RefusedMeasure(Prop(body, "height"), 300.0) ==>
              r == Some(ErrorReply(HeightMessage, 400))
    ensures r.None? <==>
              && id != ""
              && !RefusedPosition(Prop(body, "position"))
              && !RefusedMeasure(Prop(body, "age"), 120.0)
              && PassedHeight(Prop(body, "height"))
              && !RefusedWeightAsWritten(Prop(body, "weight"), Prop(body, "height"))
    ensures r.Some? ==> r.value.status == 400 && r.value.body.ErrorBody?
  {
    var position, age, height, weight := Prop(body, "position"), Prop(body, "age"), Prop(body, "height"), Prop(body, "weight");
    if id == "" then Some(ErrorReply(IdRequired, 400))
    else if RefusedPosition(position) then Some(ErrorReply(PositionMessage, 400))
    else if RefusedMeasure(age, 120.0) then Some(ErrorReply(AgeMessage, 400))
    else if RefusedMeasure(height, 300.0) then Some(ErrorReply(HeightMessage, 400))
    else if RefusedWeightAsWritten(weight, height) then Some(ErrorReply(WeightMessage, 400))
    else None
  }

  /** What `editProfile` sends, if anything: a failed check, or 404 when no
      athlete has the id `parseInt` reads from the route. A found athlete
      gets no reply and no update. */
  function EditProfileReply(id: string, body: map<string, Json>, athletes: set<int>): (r: Option<Reply<NoPayload>>)
    ensures EditProfileGate(id, body).Some? ==> r == EditProfileGate(id, body)
    ensures EditProfileGate(id, body).None? ==>
              (r.None? <==> ParseInt(id).Some? && ParseInt(id).value in athletes)
    ensures EditProfileGate(id, body).None? && r.Some? ==> r == Some(ErrorReply(AthleteNotFound, 404))
  {
    match EditProfileGate(id, body)
    case Some(reply) => Some(reply)
    case None =>
      if ParseInt(id).Some? && ParseInt(id).value in athletes then None
      else Some(ErrorReply(AthleteNotFound, 404))
  }

  /** `editProfile(req, res)` against the athlete ids in the table. */
  method EditProfile(res: Response<NoPayload>, id: string, body: map<string, Json>, athletes: set<int>)
    modifies res
    ensures EditProfileReply(id, body, athletes).Some? ==>
              res.sent == old(res.sent) + [EditProfileReply(id, body, athletes).value]
    ensures EditProfileReply(id, body, athletes).None? ==> res.sent == old(res.sent)
  {
    var position, age, height, weight := Prop(body, "position"), Prop(body, "age"), Prop(body, "height"), Prop(body, "weight");
    if id == "" {
      ThrowError(res, IdRequired, 400);
      return;
    }
    if RefusedPosition(position) {
      ThrowError(res, PositionMessage, 400);
      return;
    }
    if RefusedMeasure(age, 120.0) {
      ThrowError(res, AgeMessage, 400);
      return;
    }
    if RefusedMeasure(height, 300.0) {
      ThrowError(res, HeightMessage, 400);
      return;
    }
    if RefusedWeightAsWritten(weight, height) {
      ThrowError(res, WeightMessage, 400);
      return;
    }
    var key := ParseInt(id);
    var found := key.Some? && key.value in athletes;
    if !found {
      ThrowError(res, AthleteNotFound, 404);
    }
  }

  /** `editBio`: an empty body; it sends nothing. */
  method EditBio(res: Response<NoPayload>)
    ensures res.sent == old(res.sent)
  {
  }

  /** `editTrophies`: an empty body; it sends nothing. */
  method EditTrophies(res: Response<NoPayload>)
    ensures res.sent == old(res.sent)
  {
  }

  /** `editExperience`: an empty body; it sends nothing. */
  method EditExperience(res: Response<NoPayload>)
    ensures res.sent == old(res.sent)
  {
  }

  // ---------------------------------------------------------------------
  // The weight check.

  /** As written, the weight's own value is never range-checked: any
      weight that is a number passes when the height is absent or a valid
      height, and the weight is refused whenever the height is `null`,
      `false`, `""` or 0, and the `> 500` test can never fire. */
  lemma WeightCheckAsWritten(w: Option<Json>, h: Option<Json>)
    requires PassedHeight(h)
    ensures !Above(HeightCompared(h), 500.0)
    ensures RefusedWeightAsWritten(w, h) <==>
              Truthy(w) && (!w.value.JNum? || (h.Some? && !Truthy(h) && h.value != JNum(NaN)))
  {
  }

  /** The inputs that show it: a weight of 1000 with no height gets
      through, and a weight of 50 with a `null` height is refused. */
  lemma WeightBoundIgnored()
    ensures EditProfileGate("7", map["weight" := JNum(Finite(1000.0))]).None?
    ensures EditProfileGate("7", map["weight" := JNum(Finite(1000.0)), "height" := JNum(Finite(180.0))]).None?
    ensures EditProfileGate("7", map["weight" := JNum(Finite(50.0)), "height" := JNull])
              == Some(ErrorReply(WeightMessage, 400))
  {
    var b1 := map["weight" := JNum(Finite(1000.0))];
    assert Prop(b1, "height") == None && Prop(b1, "weight") == Some(JNum(Finite(1000.0)));
    var b2 := map["weight" := JNum(Finite(1000.0)), "height" := JNum(Finite(180.0))];
    assert Prop(b2, "height") == Some(JNum(Finite(180.0)));
    var b3 := map["weight" := JNum(Finite(50.0)), "height" := JNull];
    assert Prop(b3, "height") == Some(JNull) && Prop(b3, "weight") == Some(JNum(Finite(50.0)));
  }

  /** The weight check as evidently intended: like the age and height
      checks, on the weight itself, with 500 as the bound. */
  predicate RefusedWeight(w: Option<Json>)
  {
    RefusedMeasure(w, 500.0)
  }

  /** The checks of `editProfile` with the corrected weight check. */
  function EditProfileGateCorrected(id: string, body: map<string, Json>): (r: Option<Reply<NoPayload>>)
    ensures r.None? <==>
              && id != ""
              && !RefusedPosition(Prop(body, "position"))
              && !RefusedMeasure(Prop(body, "age"), 120.0)
              && !RefusedMeasure(Prop(body, "height"), 300.0)
              && !RefusedWeight(Prop(body, "weight"))
    ensures EditProfileGate(id, body).Some? && EditProfileGate(id, body).value.body.message != WeightMessage ==>
              r == EditProfileGate(id, body)
  {
    var position, age, height, weight := Prop(body, "position"), Prop(body, "age"), Prop(body, "height"), Prop(body, "weight");
    if id == "" then Some(ErrorReply(IdRequired, 400))
    else if RefusedPosition(position) then Some(ErrorReply(PositionMessage, 400))
    else if RefusedMeasure(age, 120.0) then Some(ErrorReply(AgeMessage, 400))
    else if RefusedMeasure(height, 300.0) then Some(ErrorReply(HeightMessage, 400))
    else if RefusedWeight(weight) then Some(ErrorReply(WeightMessage, 400))
    else None
  }

  /** Corrected, once the position, age and height pass, the edit passes
      exactly when the weight is falsy or a number in (0, 500], whatever
      the height; and every profile edit the athlete schema accepts
      passes all the checks. */
  lemma CorrectedWeightCheck(id: string, body: map<string, Json>)
    requires id != ""
    ensures !RefusedPosition(Prop(body, "position")) && !RefusedMeasure(Prop(body, "age"), 120.0)
            && !RefusedMeasure(Prop(body, "height"), 300.0) ==>
              (EditProfileGateCorrected(id, body).None? <==>
                 !Truthy(Prop(body, "weight")) || NumberUpTo(Prop(body, "weight"), 500.0))
    ensures AthleteSchemas.EditProfile(JObj(body)) ==> EditProfileGateCorrected(id, body).None?
  {
    if AthleteSchemas.EditProfile(JObj(body)) {
      var w := Prop(body, "weight");
      assert w.None? || w.value == JNull || (w.value.JNum? && w.value.n.Finite? && 1.0 <= w.value.n.value <= 500.0);
    }
  }

  /** The schema and the handler as written disagree: the schema accepts a
      weight of 50 with a `null` height, which the handler refuses. */
  lemma SchemaAcceptsWhatHandlerRefuses()
    ensures AthleteSchemas.EditProfile(JObj(map["weight" := JNum(Finite(50.0)), "height" := JNull]))
    ensures EditProfileGate("7", map["weight" := JNum(Finite(50.0)), "height" := JNull]).Some?
  {
    WeightBoundIgnored();
  }
}
