/**
 * Profile validation and the data a profile card is built from: initials,
 * skill badges, bulk creation, and the in-place card search.
 * The HTML the cards are rendered to is not modelled (and is built by plain
 * string interpolation, without escaping).
 */
module ProfileUtils {
  import opened Wrappers
  import opened Text
  import opened JsValues

  /** One constructor per way a profile can be refused. */
  datatype ProfileError =
    | NotAnObject      // 'Profile data must be an object'
    | NameRequired     // 'Name is required and must be a non-empty string'
    | RoleRequired     // 'Role is required and must be a non-empty string'
    | NotAnArray       // 'Input must be an array of profile objects'
    | NullishElement   // reading `.id` of a null or undefined array element

  /** The sanitised record `validateProfileData` returns. */
  datatype Profile = Profile(
    name: string,
    role: string,
    id: JsVal,
    avatar: JsVal,
    email: Option<string>,
    department: Option<string>,
    skills: seq<string>)

  /** `v && typeof v === 'string' && v.trim().length > 0`. */
  predicate NonBlankString(v: JsVal) {
    v.Str? && Trim(v.s) != []
  }

  /** Starts and ends with a non-whitespace character. */
  predicate Trimmed(s: string) {
    s != [] && !IsWhitespace(s[0]) && !IsWhitespace(s[|s| - 1])
  }

  /** What every validated profile satisfies. */
  predicate WellFormed(p: Profile) {
    && Trimmed(p.name)
    && Trimmed(p.role)
    && forall k :: 0 <= k < |p.skills| ==> Trim(p.skills[k]) != []
  }

  /** `v && typeof v === 'string' ? v.trim() : null`. */
  function OptionalText(v: JsVal): (r: Option<string>)
    ensures r.Some? <==> v.Str? && v.s != []
    ensures r.Some? ==> r.value == Trim(v.s)
  {
    if v.Str? && v.s != [] then Some(Trim(v.s)) else None
  }

  /** `skills.filter(skill => typeof skill === 'string' && skill.trim().length > 0)`. */
  function KeepSkills(xs: seq<JsVal>): (r: seq<string>)
    ensures |r| <= |xs|
    ensures forall k :: 0 <= k < |r| ==> Trim(r[k]) != []
  {
    if xs == [] then []
    else if NonBlankString(xs[0]) then [xs[0].s] + KeepSkills(xs[1..])
    else KeepSkills(xs[1..])
  }

  /** A skill is kept exactly when it occurs as a non-blank string; kept skills are not trimmed. */
  lemma {:induction false} KeepSkillsMembership(xs: seq<JsVal>, s: string)
    ensures s in KeepSkills(xs) <==> Str(s) in xs && Trim(s) != []
  {
    if xs != [] {
      KeepSkillsMembership(xs[1..], s);
      assert xs == [xs[0]] + xs[1..];
    }
  }

  /** The object literal `validateProfileData` returns once both required fields passed. */
  function Sanitise(name: string, role: string, id: JsVal, avatar: JsVal, email: JsVal,
                    department: JsVal, skills: JsVal, now: real): (r: Profile)
    requires Trim(name) != [] && Trim(role) != []
    ensures WellFormed(r)
    ensures r.name == Trim(name) && r.role == Trim(role)
  {
    Profile(
      name := Trim(name),
      role := Trim(role),
      id := if Truthy(id) then id else Num(now),
      avatar := if Truthy(avatar) then avatar else Null,
      email := OptionalText(email),
      department := OptionalText(department),
      skills := if skills.Arr? then KeepSkills(skills.elems) else [])
  }

  function ValidateProfileData(data: JsVal, now: real): (r: Result<Profile, ProfileError>)
    ensures !IsObject(data) ==> r == Failure(NotAnObject)
    ensures IsObject(data) && !NonBlankString(Get(data, "name")) ==> r == Failure(NameRequired)
    ensures (IsObject(data) && NonBlankString(Get(data, "name")) && !NonBlankString(Get(data, "role")))
            ==> r == Failure(RoleRequired)
    ensures r.Success? ==> WellFormed(r.value)
    ensures r.Success? ==> r.value.name == Trim(Get(data, "name").s) && r.value.role == Trim(Get(data, "role").s)
  {
    if !IsObject(data) then Failure(NotAnObject)
    else
      var name, role := Get(data, "name"), Get(data, "role");
      if !NonBlankString(name) then Failure(NameRequired)
      else if !NonBlankString(role) then Failure(RoleRequired)
      else
        Success(Sanitise(name.s, role.s, Get(data, "id"), Get(data, "avatar"), Get(data, "email"),
                         Get(data, "department"), Get(data, "skills"), now))
  }

  /** How the optional fields are normalised on success. */
  lemma ValidateOptionalFields(data: JsVal, now: real)
    requires ValidateProfileData(data, now).Success?
    ensures var p := ValidateProfileData(data, now).value;
      && (Truthy(Get(data, "id")) ==> p.id == Get(data, "id"))
      && (!Truthy(Get(data, "id")) ==> p.id == Num(now))
      && (p.avatar == Null <==> !Truthy(Get(data, "avatar")))
      && (p.email.None? <==> !(Get(data, "email").Str? && Get(data, "email").s != []))
      && (p.department.None? <==> !(Get(data, "department").Str? && Get(data, "department").s != []))
      && (Truthy(Get(data, "avatar")) ==> p.avatar == Get(data, "avatar"))
      && p.email == OptionalText(Get(data, "email"))
      && p.department == OptionalText(Get(data, "department"))
      && (Get(data, "skills").Arr? ==> p.skills == KeepSkills(Get(data, "skills").elems))
      && (!Get(data, "skills").Arr? ==> p.skills == [])
  {
  }

  /** An object carrying only a non-blank name and role: empty skills, null optional fields, the clock as id. */
  lemma ValidateRequiredOnly(data: JsVal, name: string, role: string, now: real)
    requires data.Obj? && Get(data, "name") == Str(name) && Get(data, "role") == Str(role)
    requires Trim(name) != [] && Trim(role) != []
    requires Get(data, "id") == Undefined && Get(data, "avatar") == Undefined
    requires Get(data, "email") == Undefined && Get(data, "department") == Undefined
    requires Get(data, "skills") == Undefined
    ensures ValidateProfileData(data, now) == Success(Profile(Trim(name), Trim(role), Num(now), Null, None, None, []))
  {
  }

  /** Once both required fields pass, the result is the sanitised object literal. */
  lemma ValidateSanitises(data: JsVal, now: real)
    requires data.Obj? && NonBlankString(Get(data, "name")) && NonBlankString(Get(data, "role"))
    ensures ValidateProfileData(data, now)
         == Success(Sanitise(Get(data, "name").s, Get(data, "role").s, Get(data, "id"), Get(data, "avatar"),
                             Get(data, "email"), Get(data, "department"), Get(data, "skills"), now))
  {
  }

  /** An email of whitespace only is truthy, so it is kept, trimmed to the empty string rather than null. */
  lemma BlankEmailKeptEmpty(data: JsVal, e: string, now: real)
    requires data.Obj? && NonBlankString(Get(data, "name")) && NonBlankString(Get(data, "role"))
    requires Get(data, "email") == Str(e) && e != [] && AllWhitespace(e)
    ensures ValidateProfileData(data, now).Success?
    ensures ValidateProfileData(data, now).value.email == Some("")
  {
    ValidateSanitises(data, now);
  }

  function OptionToJs(o: Option<string>): JsVal {
    match o
    case Some(s) => Str(s)
    case None => Null
  }

  /** The skills as an array of JavaScript strings. */
  function Strs(ss: seq<string>): (r: seq<JsVal>)
    ensures |r| == |ss|
  {
    if ss == [] then [] else [Str(ss[0])] + Strs(ss[1..])
  }

  /** The object literal a validated profile is, read back as a JavaScript value. */
  function ProfileToJs(p: Profile): JsVal {
    Obj(map[
      "name" := Str(p.name), "role" := Str(p.role), "id" := p.id, "avatar" := p.avatar,
      "email" := OptionToJs(p.email), "department" := OptionToJs(p.department),
      "skills" := Arr(Strs(p.skills))])
  }

  lemma ProfileToJsFields(p: Profile)
    ensures var js := ProfileToJs(p);
      && js.Obj?
      && Get(js, "name") == Str(p.name) && Get(js, "role") == Str(p.role)
      && Get(js, "id") == p.id && Get(js, "avatar") == p.avatar
      && Get(js, "email") == OptionToJs(p.email) && Get(js, "department") == OptionToJs(p.department)
      && Get(js, "skills") == Arr(Strs(p.skills))
  {
  }

  /** One step of the filter: the head is kept when it is a non-blank string. */
  lemma KeepSkillsCons(x: JsVal, xs: seq<JsVal>)
    ensures KeepSkills([x] + xs) == (if NonBlankString(x) then [x.s] else []) + KeepSkills(xs)
  {
    assert ([x] + xs)[1..] == xs;
  }

  /** The filter distributes over concatenation: kept skills stay in input order, each occurrence on its own. */
  lemma {:induction false} KeepSkillsAppend(a: seq<JsVal>, b: seq<JsVal>)
    ensures KeepSkills(a + b) == KeepSkills(a) + KeepSkills(b)
  {
    if a == [] {
      assert a + b == b;
    } else {
      var t := a[1..];
      KeepSkillsAppend(t, b);
      assert a + b == [a[0]] + (t + b);
      assert a == [a[0]] + t;
      KeepSkillsCons(a[0], t + b);
      KeepSkillsCons(a[0], t);
      ConcatAssoc(if NonBlankString(a[0]) then [a[0].s] else [], KeepSkills(t), KeepSkills(b));
    }
  }

  lemma {:induction false} KeepSkillsOfKept(ss: seq<string>)
    requires forall k :: 0 <= k < |ss| ==> !AllWhitespace(ss[k])
    ensures KeepSkills(Strs(ss)) == ss
  {
    if ss != [] {
      var head, tail := ss[0], ss[1..];
      assert Strs(ss) == [Str(head)] + Strs(tail);
      assert !AllWhitespace(head);
      KeepSkillsCons(Str(head), Strs(tail));
      KeepSkillsOfKept(tail);
      assert ss == [head] + tail;
    }
  }

  lemma OptionalTextOfTrimmed(o: Option<string>)
    requires o != Some([])
    requires o.Some? ==> Trim(o.value) == o.value
    ensures OptionalText(OptionToJs(o)) == o
  {
  }

  /**
   * Validating a validated profile again gives the same profile, provided its id is
   * truthy and no optional text was trimmed down to the empty string.
   */
  lemma ValidateIdempotent(p: Profile, later: real)
    requires WellFormed(p) && Trim(p.name) == p.name && Trim(p.role) == p.role
    requires p.email.Some? ==> p.email.value != [] && Trim(p.email.value) == p.email.value
    requires p.department.Some? ==> p.department.value != [] && Trim(p.department.value) == p.department.value
    requires Truthy(p.id) && (Truthy(p.avatar) || p.avatar == Null)
    ensures ValidateProfileData(ProfileToJs(p), later) == Success(p)
  {
    var js := ProfileToJs(p);
    ProfileToJsFields(p);
    OptionalTextOfTrimmed(p.email);
    OptionalTextOfTrimmed(p.department);
    KeepSkillsOfKept(p.skills);
  }

  /** Every profile `validateProfileData` produces meets the conditions of ValidateIdempotent but possibly the empty texts. */
  lemma ValidatedIsFixpoint(data: JsVal, now: real, later: real)
    requires ValidateProfileData(data, now).Success?
    requires var p := ValidateProfileData(data, now).value;
      Truthy(p.id) && p.email != Some([]) && p.department != Some([])
    ensures var p := ValidateProfileData(data, now).value;
      ValidateProfileData(ProfileToJs(p), later) == Success(p)
  {
    var p := ValidateProfileData(data, now).value;
    TrimIdempotent(Get(data, "name").s);
    TrimIdempotent(Get(data, "role").s);
    if p.email.Some? { TrimIdempotent(Get(data, "email").s); }
    if p.department.Some? { TrimIdempotent(Get(data, "department").s); }
    ValidateIdempotent(p, later);
  }

  /** The initials of a trimmed name: the first letters of its first and last words, upper-cased. */
  function InitialsOf(t: string): (r: string)
    ensures |r| == 1 || |r| == 2
    ensures t == [] ==> r == "??"
  {
    var words := Words(t);
    if |words| == 0 then "??"
    else if |words| == 1 then [UpperChar(words[0][0])]
    else [UpperChar(words[0][0]), UpperChar(words[|words| - 1][0])]
  }

  /** `generateInitials`: "??" for anything but a non-blank string. */
  function GenerateInitials(name: JsVal): (r: string)
    ensures |r| == 1 || |r| == 2
    ensures !NonBlankString(name) ==> r == "??"
  {
    if !Truthy(name) || !name.Str? then "??" else InitialsOf(Trim(name.s))
  }

  /** A single word gives its first character, upper-cased. */
  lemma InitialsOfOneWord(t: string)
    requires t != [] && t[0] != ' ' && ' ' !in t
    ensures InitialsOf(t) == [UpperChar(t[0])]
  {
    FirstWord(t);
    SingleWord(t);
  }

  /** Two or more words give the first character and the one after the last space, upper-cased. */
  lemma InitialsOfTwoWords(t: string)
    requires t != [] && !IsWhitespace(t[0]) && !IsWhitespace(t[|t| - 1]) && ' ' in t
    ensures InitialsOf(t) == [UpperChar(t[0]), UpperChar(t[LastIndexOf(t, ' ') + 1])]
  {
    TwoOrMoreWords(t);
  }

  /** A one-word name gives its first non-whitespace character, upper-cased. */
  lemma InitialsOneWord(s: string)
    requires Trim(s) != [] && ' ' !in Trim(s)
    ensures GenerateInitials(Str(s)) == [UpperChar(Trim(s)[0])]
  {
    var t := Trim(s);
    assert GenerateInitials(Str(s)) == InitialsOf(t);
    InitialsOfOneWord(t);
  }

  /**
   * A name whose trimmed form has a space gives its first non-whitespace character and
   * the character after its last space, both upper-cased.
   */
  lemma InitialsTwoWords(s: string)
    requires Trim(s) != [] && ' ' in Trim(s)
    ensures var t := Trim(s);
      GenerateInitials(Str(s)) == [UpperChar(t[0]), UpperChar(t[LastIndexOf(t, ' ') + 1])]
  {
    var t := Trim(s);
    assert GenerateInitials(Str(s)) == InitialsOf(t);
    InitialsOfTwoWords(t);
  }

  /** A first and a last name without whitespace, joined by one space, give their upper-cased initials. */
  lemma InitialsOfFullName(first: string, last: string)
    requires first != [] && last != []
    requires forall i :: 0 <= i < |first| ==> !IsWhitespace(first[i])
    requires forall i :: 0 <= i < |last| ==> !IsWhitespace(last[i])
    ensures GenerateInitials(Str(first + " " + last)) == [UpperChar(first[0]), UpperChar(last[0])]
  {
    var t := first + " " + last;
    assert Trim(t) == t by {
      TrimOfTrimmed(t);
    }
    assert LastIndexOf(t, ' ') == |first| by {
      assert t[|first|] == ' ';
      assert forall i :: |first| < i < |t| ==> t[i] == last[i - |first| - 1];
    }
    assert GenerateInitials(Str(t)) == InitialsOf(t);
    InitialsOfTwoWords(t);
  }

  /** The documented example: "Jane Doe" gives "JD". */
  lemma InitialsOfJaneDoe()
    ensures GenerateInitials(Str("Jane Doe")) == "JD"
  {
    InitialsOfFullName("Jane", "Doe");
    assert "Jane" + " " + "Doe" == "Jane Doe";
  }

  lemma InitialsFallback()
    ensures GenerateInitials(Str("")) == "??"
    ensures GenerateInitials(Str("   ")) == "??"
    ensures GenerateInitials(Null) == "??"
    ensures GenerateInitials(Num(7.0)) == "??"
  {
    assert AllWhitespace("   ");
  }

  /** The skills part of a card: nothing, or up to three badges and an overflow count. */
  datatype SkillsSection = NoSkills | Badges(shown: seq<string>, more: Option<nat>)

  /** The badge rule: the first three skills, then `+k` for the k skills left over. */
  function SkillsDisplay(skills: seq<string>): (r: SkillsSection)
    ensures r.NoSkills? <==> skills == []
    ensures r.Badges? ==> |r.shown| == (if |skills| < 3 then |skills| else 3)
                          && r.shown == skills[..|r.shown|]
    ensures r.Badges? ==> (r.more.Some? <==> |skills| > 3)
    ensures r.Badges? ==> |r.shown| + r.more.GetOr(0) == |skills|
  {
    if |skills| == 0 then NoSkills
    else
      var shown := if |skills| < 3 then skills else skills[..3];
      Badges(shown, if |skills| > 3 then Some(|skills| - 3) else None)
  }

  /** The overflow badge's text. */
  function OverflowLabel(k: nat): string {
    "+" + NatToString(k)
  }

  /** The overflow badge is a plus sign followed by the hidden count, which reads back. */
  lemma OverflowLabelReadsBack(k: nat)
    ensures |OverflowLabel(k)| >= 2 && OverflowLabel(k)[0] == '+'
    ensures ParseNat(OverflowLabel(k)[1..]) == k
  {
    assert OverflowLabel(k)[1..] == NatToString(k);
    ParseNatToString(k);
  }

  lemma FiveSkillsExample(a: string, b: string, c: string, d: string, e: string)
    ensures var r := SkillsDisplay([a, b, c, d, e]);
      r == Badges([a, b, c], Some(2)) && OverflowLabel(r.more.value) == "+2"
  {
    assert [a, b, c, d, e][..3] == [a, b, c];
  }

  datatype AvatarContent = Image(src: JsVal) | InitialsBadge(text: string)

  /** The data a profile card element shows; the element itself is not modelled. */
  datatype ProfileCardView = ProfileCardView(profile: Profile, avatar: AvatarContent, skills: SkillsSection)

  /** `createProfileCard`: validation first, so no card is ever built from unvalidated data. */
  function CreateProfileCard(data: JsVal, now: real): (r: Result<ProfileCardView, ProfileError>)
    ensures r.Failure? <==> ValidateProfileData(data, now).Failure?
    ensures r.Failure? ==> r.error == ValidateProfileData(data, now).error
    ensures r.Success? ==> r.value.profile == ValidateProfileData(data, now).value
    ensures r.Success? ==> (r.value.avatar.Image? <==> Truthy(Get(data, "avatar")))
    ensures r.Success? && r.value.avatar.InitialsBadge? ==> r.value.avatar.text == GenerateInitials(Str(r.value.profile.name))
    ensures r.Success? ==> r.value.skills == SkillsDisplay(r.value.profile.skills)
  {
    match ValidateProfileData(data, now)
    case Failure(e) => Failure(e)
    case Success(p) =>
      var avatar := if Truthy(p.avatar) then Image(p.avatar) else InitialsBadge(GenerateInitials(Str(p.name)));
      Success(ProfileCardView(p, avatar, SkillsDisplay(p.skills)))
  }

  /** `{...profileData, id: profileData.id || Date.now() + index}` for an object element. */
  function WithDefaultId(e: JsVal, i: nat, now: real): JsVal
    requires e.Obj?
  {
    var id := Get(e, "id");
    Obj(e.fields["id" := if Truthy(id) then id else Num(now + i as real)])
  }

  /**
   * One element of `createMultipleProfileCards`. A null or undefined element throws on
   * `.id`; any other non-object spreads to an object without a `name` and is refused.
   */
  function CardAt(e: JsVal, i: nat, now: real): Result<ProfileCardView, ProfileError> {
    match e
    case Undefined => Failure(NullishElement)
    case Null => Failure(NullishElement)
    case Obj(_) => CreateProfileCard(WithDefaultId(e, i, now), now)
    case _ => Failure(NameRequired)
  }

  /** The `map` step: one attempt per element, with the element's index. */
  function Attempts(elems: seq<JsVal>, now: real): seq<Result<ProfileCardView, ProfileError>> {
    seq(|elems|, i requires 0 <= i < |elems| => CardAt(elems[i], i, now))
  }

  /** The `filter` step: the successful values, in order. */
  function Successes<C, E>(rs: seq<Result<C, E>>): (r: seq<C>)
    ensures |r| <= |rs|
    ensures forall c :: c in r ==> Success(c) in rs
  {
    if rs == [] then []
    else
      var rest := Successes(rs[1..]);
      if rs[0].Success? then [rs[0].value] + rest else rest
  }

  /** The positions of the successful values, in order. */
  function SuccessIndices<C, E>(rs: seq<Result<C, E>>): seq<nat> {
    if rs == [] then []
    else
      var rest := SuccessIndices(rs[1..]);
      var shifted := seq(|rest|, k requires 0 <= k < |rest| => rest[k] + 1);
      if rs[0].Success? then [0] + shifted else shifted
  }

  function CreateMultipleProfileCards(profiles: JsVal, now: real): (r: Result<seq<ProfileCardView>, ProfileError>)
    ensures r.Failure? <==> !profiles.Arr?
    ensures r.Failure? ==> r.error == NotAnArray
    ensures r.Success? ==> |r.value| <= |profiles.elems|
  {
    if !profiles.Arr? then Failure(NotAnArray) else Success(Successes(Attempts(profiles.elems, now)))
  }

  /** One kept position per value. */
  lemma {:induction false} SuccessIndicesCount<C, E>(rs: seq<Result<C, E>>)
    ensures |SuccessIndices(rs)| == |Successes(rs)|
  {
    if rs != [] {
      SuccessIndicesCount(rs[1..]);
    }
  }

  /** The kept positions lie inside `rs` and increase strictly: input order is kept. */
  lemma {:induction false} SuccessIndicesOrdered<C, E>(rs: seq<Result<C, E>>)
    ensures forall k :: 0 <= k < |SuccessIndices(rs)| ==> SuccessIndices(rs)[k] < |rs|
    ensures forall k, l :: 0 <= k < l < |SuccessIndices(rs)| ==> SuccessIndices(rs)[k] < SuccessIndices(rs)[l]
  {
    if rs != [] {
      SuccessIndicesOrdered(rs[1..]);
      var idx, idx' := SuccessIndices(rs), SuccessIndices(rs[1..]);
      var d := if rs[0].Success? then 1 else 0;
      assert |idx| == |idx'| + d;
      forall k | 0 <= k < |idx|
        ensures idx[k] < |rs|
        ensures k >= d ==> idx[k] == idx'[k - d] + 1
        ensures k < d ==> idx[k] == 0
      {
      }
      forall k, l | 0 <= k < l < |idx|
        ensures idx[k] < idx[l]
      {
        if k >= d {
          assert idx'[k - d] < idx'[l - d];
        }
      }
    }
  }

  /** Value k is the one at the k-th kept position. */
  lemma {:induction false} SuccessIndicesProduce<C, E>(rs: seq<Result<C, E>>)
    ensures forall k :: 0 <= k < |SuccessIndices(rs)| && k < |Successes(rs)| && SuccessIndices(rs)[k] < |rs| ==>
      rs[SuccessIndices(rs)[k]] == Success(Successes(rs)[k])
  {
    if rs != [] {
      SuccessIndicesProduce(rs[1..]);
      var r, idx := Successes(rs), SuccessIndices(rs);
      var r', idx' := Successes(rs[1..]), SuccessIndices(rs[1..]);
      forall k | 0 <= k < |idx| && k < |r| && idx[k] < |rs|
        ensures rs[idx[k]] == Success(r[k])
      {
        if rs[0].Success? {
          if k > 0 {
            assert idx[k] == idx'[k - 1] + 1 && r[k] == r'[k - 1];
            assert rs[idx[k]] == rs[1..][idx'[k - 1]];
          }
        } else {
          assert idx[k] == idx'[k] + 1 && r[k] == r'[k];
          assert rs[idx[k]] == rs[1..][idx'[k]];
        }
      }
    }
  }

  /** Every position that is not kept held a failure. */
  lemma {:induction false} OmittedAreFailures<C, E>(rs: seq<Result<C, E>>)
    ensures forall i :: 0 <= i < |rs| && i !in SuccessIndices(rs) ==> rs[i].Failure?
  {
    if rs != [] {
      OmittedAreFailures(rs[1..]);
      var idx, idx' := SuccessIndices(rs), SuccessIndices(rs[1..]);
      forall i | 0 < i < |rs| && i !in idx
        ensures rs[i].Failure?
      {
        forall j | j in idx'
          ensures j + 1 in idx
        {
          var k :| 0 <= k < |idx'| && idx'[k] == j;
          assert idx[if rs[0].Success? then k + 1 else k] == j + 1;
        }
        assert i - 1 !in idx';
        assert rs[i] == rs[1..][i - 1];
      }
    }
  }

  /**
   * The bulk result is exactly the cards of the elements that produced one, in input
   * order; every other element was refused.
   */
  lemma BulkCharacterised(elems: seq<JsVal>, now: real)
    ensures var rs := Attempts(elems, now);
      var r, idx := CreateMultipleProfileCards(Arr(elems), now).value, SuccessIndices(rs);
      && |idx| == |r|
      && (forall k, l :: 0 <= k < l < |idx| ==> idx[k] < idx[l])
      && (forall k :: 0 <= k < |idx| ==> idx[k] < |elems| && CardAt(elems[idx[k]], idx[k], now) == Success(r[k]))
      && (forall i :: 0 <= i < |elems| && i !in idx ==> CardAt(elems[i], i, now).Failure?)
  {
    var rs := Attempts(elems, now);
    SuccessIndicesCount(rs);
    SuccessIndicesOrdered(rs);
    SuccessIndicesProduce(rs);
    OmittedAreFailures(rs);
  }

  /** A card's profile keeps a truthy id and otherwise takes the clock. */
  lemma CardProfileId(data: JsVal, now: real)
    requires CreateProfileCard(data, now).Success?
    ensures CreateProfileCard(data, now).value.profile.id
         == (if Truthy(Get(data, "id")) then Get(data, "id") else Num(now))
  {
    ValidateSanitises(data, now);
  }

  /** An element without a truthy id that yields a card gets the clock plus its index as id. */
  lemma DefaultIdIsClockPlusIndex(e: JsVal, i: nat, now: real)
    requires now >= 0.0
    requires e.Obj? && !Truthy(Get(e, "id"))
    requires CardAt(e, i, now).Success?
    ensures CardAt(e, i, now).value.profile.id == Num(now + i as real)
  {
    var d := WithDefaultId(e, i, now);
    assert CardAt(e, i, now) == CreateProfileCard(d, now);
    DefaultIdRead(e, i, now);
    CardProfileId(d, now);
  }

  /** The spread copies every other property of the element unchanged. */
  lemma SpreadKeepsOtherFields(e: JsVal, i: nat, now: real, key: string)
    requires e.Obj? && key != "id"
    ensures Get(WithDefaultId(e, i, now), key) == Get(e, key)
  {
  }

  /** An element with its own truthy id is passed on as it is. */
  lemma OwnIdKeepsElement(e: JsVal, i: nat, now: real)
    requires e.Obj? && Truthy(Get(e, "id"))
    ensures WithDefaultId(e, i, now) == e
    ensures CardAt(e, i, now) == CreateProfileCard(e, now)
  {
    assert e.fields["id" := e.fields["id"]] == e.fields;
  }

  /** `null` and `undefined` elements are refused, and so is every element that is not an object. */
  lemma CardAtRefuses(e: JsVal, i: nat, now: real)
    ensures e.Undefined? || e.Null? ==> CardAt(e, i, now) == Failure(NullishElement)
    ensures !e.Obj? ==> CardAt(e, i, now).Failure?
  {
  }

  /** The spread object's `id`: the element's own when truthy, else the clock plus the index. */
  lemma DefaultIdRead(e: JsVal, i: nat, now: real)
    requires e.Obj?
    ensures Get(WithDefaultId(e, i, now), "id")
         == (if Truthy(Get(e, "id")) then Get(e, "id") else Num(now + i as real))
  {
  }

  /** `card.style.display`: never set yet, `'block'`, or `'none'`. */
  datatype Display = Unset | Block | Hidden

  /** What the search reads from, and writes to, one `.profile-card` element. */
  datatype SearchCard = SearchCard(id: JsVal, name: string, role: string, display: Display)

  /** The matching rule: case-insensitive substring of the name, the role, or either. */
  predicate Matches(c: SearchCard, term: string, field: string) {
    var name, role, t := ToLower(c.name), ToLower(c.role), ToLower(term);
    if field == "name" then Contains(name, t)
    else if field == "role" then Contains(role, t)
    else Contains(name, t) || Contains(role, t)
  }

  /** The card after the search has set its display. */
  function Shown(c: SearchCard, term: string, field: string): (r: SearchCard)
    ensures r.id == c.id && r.name == c.name && r.role == c.role
    ensures r.display == Block <==> Matches(c, term, field)
    ensures r.display != Unset
  {
    c.(display := if Matches(c, term, field) then Block else Hidden)
  }

  /** The cards `searchProfileCards` returns: the matching ones, in document order. */
  function SearchResult(cards: seq<SearchCard>, term: string, field: string): (r: seq<SearchCard>)
    ensures |r| <= |cards|
  {
    if cards == [] then []
    else
      var last := cards[|cards| - 1];
      SearchResult(cards[..|cards| - 1], term, field) + (if Matches(last, term, field) then [Shown(last, term, field)] else [])
  }

  /** Returned cards are shown; a card is returned exactly when it matches. */
  lemma {:induction false} SearchResultExact(cards: seq<SearchCard>, term: string, field: string)
    ensures forall k :: 0 <= k < |SearchResult(cards, term, field)| ==>
      SearchResult(cards, term, field)[k].display == Block && Matches(SearchResult(cards, term, field)[k], term, field)
    ensures forall c :: c in cards ==> (Matches(c, term, field) <==> Shown(c, term, field) in SearchResult(cards, term, field))
  {
    if cards != [] {
      var init := cards[..|cards| - 1];
      SearchResultExact(init, term, field);
      assert cards == init + [cards[|cards| - 1]];
    }
  }

  /** An empty search term matches every card, so every card is shown and returned. */
  lemma {:induction false} EmptyTermShowsAll(cards: seq<SearchCard>, field: string)
    ensures |SearchResult(cards, "", field)| == |cards|
  {
    if cards != [] {
      EmptyTermShowsAll(cards[..|cards| - 1], field);
      var c := cards[|cards| - 1];
      ContainsEmpty(ToLower(c.name));
      ContainsEmpty(ToLower(c.role));
      assert ToLower("") == "";
    }
  }

  /** Any field other than "name" and "role" searches both. */
  lemma MatchesOtherField(c: SearchCard, term: string, field: string)
    requires field != "name" && field != "role"
    ensures Matches(c, term, field) <==> Matches(c, term, "name") || Matches(c, term, "role")
  {
  }

  /** Searching for any part of a card's name finds the card, by name and over all fields. */
  lemma MatchesPartOfName(c: SearchCard, i: nat, j: nat)
    requires i <= j <= |c.name|
    ensures Matches(c, c.name[i..j], "name") && Matches(c, c.name[i..j], "all")
  {
    var name := ToLower(c.name);
    ToLowerSlice(c.name, i, j);
    ContainsSlice(name, i, j);
  }

  /** The search is case-insensitive in its term. */
  lemma MatchesIgnoresTermCase(c: SearchCard, term: string, field: string)
    ensures Matches(c, ToLower(term), field) == Matches(c, term, field)
  {
    ToLowerIdempotent(term);
  }

  /** `searchProfileCards`: sets every card's display and collects the matching cards. */
  method SearchProfileCards(cards: array<SearchCard>, term: string, field: string) returns (found: seq<SearchCard>)
    modifies cards
    ensures forall i :: 0 <= i < cards.Length ==> cards[i] == Shown(old(cards[i]), term, field)
    ensures found == SearchResult(old(cards[..]), term, field)
  {
    ghost var before := cards[..];
    found := [];
    for i := 0 to cards.Length
      invariant forall j :: 0 <= j < i ==> cards[j] == Shown(before[j], term, field)
      invariant forall j :: i <= j < cards.Length ==> cards[j] == before[j]
      invariant found == SearchResult(before[..i], term, field)
    {
      var card := cards[i];
      assert before[..i + 1][..i] == before[..i];
      if Matches(card, term, field) {
        found := found + [card.(display := Block)];
        cards[i] := card.(display := Block);
      } else {
        cards[i] := card.(display := Hidden);
      }
    }
    assert before[..cards.Length] == before;
  }
}
