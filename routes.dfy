/**
 * The two form handlers of the site, as the decisions they make and the rows
 * they hand to the database. `POST /signup` admits only college addresses;
 * `POST /generate_resume` checks that the form is complete, turns the text that
 * the language model returned into bullet points and stores education,
 * experience, skills, certificates and the resume itself.
 *
 * The database, password hashing and the language-model call are outside the
 * model: the handler is given the model's reply as `completion` (None when the
 * request failed) and returns the rows it would insert, in order.
 */
module Routes {
  import opened Wrappers
  import opened JsStrings
  import opened JsArrays
  import opened ResumeParsing

  // ---------------------------------------------------------------- signup

  /** The only accepted e-mail domain. */
  const OcEmailSuffix: string := "@eagles.oc.edu"

  const InvalidEmailMessage: string := "Please enter a valid OC email"

  /** The signup form; fields the browser did not send are None. */
  datatype SignupForm = SignupForm(
    firstName: Option<string>,
    lastName: Option<string>,
    username: Option<string>,
    email: string,
    password: Option<string>,
    phone: Option<string>)

  /** The `users` row, apart from the password hash, which bcrypt computes. */
  datatype UserRow = UserRow(
    firstName: Option<string>,
    lastName: Option<string>,
    username: Option<string>,
    email: string,
    phone: Option<string>)

  datatype SignupOutcome =
    | SignupRejected(status: int, message: string)
      /** Hash `password`, then insert `row` with the hash. */
    | SignupProceeds(password: Option<string>, row: UserRow)

  /** The suffix test of `POST /signup`. */
  predicate IsOcEmail(email: string)
  {
    EndsWith(email, OcEmailSuffix)
  }

  /** `POST /signup`: a 400 for any address outside the domain, before the
      password is hashed or anything is inserted; otherwise the form's fields
      go unchanged into the new row. */
  function Signup(form: SignupForm): (o: SignupOutcome)
    ensures o.SignupRejected? <==> !IsOcEmail(form.email)
    ensures o.SignupRejected? ==> o.status == 400 && o.message == InvalidEmailMessage
    ensures o.SignupProceeds? ==>
              && o.password == form.password
              && o.row == UserRow(form.firstName, form.lastName, form.username, form.email, form.phone)
  {
    if !IsOcEmail(form.email) then
      SignupRejected(400, InvalidEmailMessage)
    else
      SignupProceeds(form.password, UserRow(form.firstName, form.lastName, form.username,
                                            form.email, form.phone))
  }

  /** A signup is rejected exactly when the address is not some text followed
      by the domain. */
  lemma SignupRejectedIff(form: SignupForm)
    ensures Signup(form).SignupRejected? <==>
            !exists local: string :: form.email == local + OcEmailSuffix
  {
    EndsWithIff(form.email, OcEmailSuffix);
  }

  /** Any text in front of the domain is accepted, the empty text included. */
  lemma SignupAcceptsAnyLocalPart(form: SignupForm, local: string)
    requires form.email == local + OcEmailSuffix
    ensures Signup(form).SignupProceeds?
  {
    assert form.email[|form.email| - |OcEmailSuffix|..] == OcEmailSuffix;
  }

  // ------------------------------------------------------- generate resume

  /** The fields of the signed-in user that the handler reads. */
  datatype SessionUser = SessionUser(
    id: int,
    firstName: Option<string>,
    lastName: Option<string>,
    email: Option<string>,
    phone: Option<string>)

  /** The resume form. The certificate fields are the four parallel lists. */
  datatype ResumeForm = ResumeForm(
    degree: Option<string>,
    institution: Option<string>,
    startDate: Option<string>,
    endDate: Option<string>,
    companyName: Option<string>,
    role: Option<string>,
    experienceStartDate: Option<string>,
    experienceEndDate: Option<string>,
    description: Option<string>,
    skills: Option<string>,
    linkedUrl: Option<string>,
    jobDescription: Option<string>,
    certificateNames: seq<string>,
    issuingOrganizations: seq<string>,
    issueDates: seq<string>,
    expirationDates: seq<string>)

  /** JavaScript truthiness of a form value: absent and empty are falsy. */
  predicate Truthy(v: Option<string>)
  {
    v.Some? && v.value != ""
  }

  /** The fourteen values the handler insists on, in the order it tests them. */
  function RequiredFields(user: SessionUser, form: ResumeForm): (fields: seq<Option<string>>)
    ensures |fields| == 14
  {
    [user.firstName, user.lastName, user.email, user.phone, form.degree, form.institution,
     form.startDate, form.endDate, form.companyName, form.role, form.experienceStartDate,
     form.experienceEndDate, form.skills, form.jobDescription]
  }

  /** The guard of `POST /generate_resume`. */
  predicate HasRequiredFields(user: SessionUser, form: ResumeForm)
  {
    && Truthy(user.firstName) && Truthy(user.lastName) && Truthy(user.email) && Truthy(user.phone)
    && Truthy(form.degree) && Truthy(form.institution) && Truthy(form.startDate)
    && Truthy(form.endDate) && Truthy(form.companyName) && Truthy(form.role)
    && Truthy(form.experienceStartDate) && Truthy(form.experienceEndDate)
    && Truthy(form.skills) && Truthy(form.jobDescription)
  }

  /** The guard passes exactly when every one of the fourteen values is truthy. */
  lemma RequiredFieldsIff(user: SessionUser, form: ResumeForm)
    ensures HasRequiredFields(user, form) <==>
            forall i :: 0 <= i < 14 ==> Truthy(RequiredFields(user, form)[i])
  {
    var fields := RequiredFields(user, form);
    if forall i :: 0 <= i < 14 ==> Truthy(fields[i]) {
      assert Truthy(fields[0]) && Truthy(fields[1]) && Truthy(fields[2]) && Truthy(fields[3]);
      assert Truthy(fields[4]) && Truthy(fields[5]) && Truthy(fields[6]) && Truthy(fields[7]);
      assert Truthy(fields[8]) && Truthy(fields[9]) && Truthy(fields[10]) && Truthy(fields[11]);
      assert Truthy(fields[12]) && Truthy(fields[13]);
    }
  }

  /** The LinkedIn address, the free-text description and the certificate
      lists play no part in the guard. */
  lemma OptionalFieldsIgnored(user: SessionUser, form: ResumeForm, linkedUrl: Option<string>,
                              description: Option<string>, names: seq<string>,
                              organizations: seq<string>, issueDates: seq<string>,
                              expirationDates: seq<string>)
    ensures var other := form.(linkedUrl := linkedUrl, description := description,
                               certificateNames := names, issuingOrganizations := organizations,
                               issueDates := issueDates, expirationDates := expirationDates);
            HasRequiredFields(user, other) <==> HasRequiredFields(user, form)
  {
  }

  /** One database insert. */
  datatype Row =
    | EducationRow(userId: int, degree: string, institution: string, startDate: string,
                   endDate: string, email: string)
    | ExperienceRow(userId: int, companyName: string, role: string, startDate: string,
                    endDate: string, description: string, email: string)
    | SkillRow(userId: int, email: string, skillName: string, proficiencyLevel: Option<string>)
    | CertificateRow(userId: int, certificateName: string, issuingOrganization: Option<string>,
                     issueDate: Option<string>, expirationDate: Option<string>, email: string)
    | ResumeRow(userId: int, firstName: string, lastName: string, email: string, phone: string,
                degree: string, institution: string, startDate: string, endDate: string,
                experience: string, skills: string, linkedUrl: Option<string>)

  /** What the generated-resume page shows beyond the form's own fields. */
  datatype ResumeView = ResumeView(bullets: seq<string>, skills: seq<Skill>,
                                   certificates: seq<Certificate>, linkedUrl: Option<string>)

  const MissingFieldsMessage: string := "All fields are required"
  const GenerationErrorMessage: string := "Error generating description"

  datatype ResumeOutcome =
    | ResumeRejected(status: int, message: string)
    | GenerationFailed(status: int, message: string)
    | ResumeStored(writes: seq<Row>, view: ResumeView)

  function SkillRowOf(userId: int, email: string): Skill -> Row
  {
    (sk: Skill) => SkillRow(userId, email, sk.skillName, sk.proficiencyLevel)
  }

  function CertificateRowOf(userId: int, email: string): Certificate -> Row
  {
    (c: Certificate) => CertificateRow(userId, c.certificateName, c.issuingOrganization, c.issueDate,
                        c.expirationDate, email)
  }

  /** The rows of a complete form, given the stored description and the
      parsed skills and certificates. */
  function StoredRows(user: SessionUser, form: ResumeForm, description: string,
                      skills: seq<Skill>, certificates: seq<Certificate>): seq<Row>
    requires HasRequiredFields(user, form)
  {
    var email := user.email.value;
    [ EducationRow(user.id, form.degree.value, form.institution.value, form.startDate.value,
                   form.endDate.value, email),
      ExperienceRow(user.id, form.companyName.value, form.role.value,
                    form.experienceStartDate.value, form.experienceEndDate.value,
                    description, email) ]
    + Map(skills, SkillRowOf(user.id, email))
    + Map(certificates, CertificateRowOf(user.id, email))
    + [ ResumeRow(user.id, user.firstName.value, user.lastName.value, email, user.phone.value,
                  form.degree.value, form.institution.value, form.startDate.value,
                  form.endDate.value, description, form.skills.value, form.linkedUrl) ]
  }

  /** `POST /generate_resume`: incomplete forms are refused with a 400 before
      the language model is asked; a failed request gives a 500; otherwise the
      reply becomes bullets, the skills and certificates are parsed, the rows
      are stored with the single-space join of the bullets, and the page shows
      the same bullets, skills and certificates. */
  function GenerateResume(user: SessionUser, form: ResumeForm, completion: Option<string>): (o: ResumeOutcome)
    ensures o.ResumeRejected? <==> !HasRequiredFields(user, form)
    ensures o.ResumeRejected? ==> o.status == 400 && o.message == MissingFieldsMessage
    ensures o.GenerationFailed? <==> HasRequiredFields(user, form) && completion.None?
    ensures o.GenerationFailed? ==> o.status == 500 && o.message == GenerationErrorMessage
    ensures o.ResumeStored? ==>
              && HasRequiredFields(user, form) && completion.Some?
              && o.view.bullets == Bullets(completion.value)
              && o.view.skills == ParseSkills(form.skills.value)
              && o.view.certificates == ZipCertificates(form.certificateNames, form.issuingOrganizations,
                                                        form.issueDates, form.expirationDates)
              && o.view.linkedUrl == form.linkedUrl
              && o.writes == StoredRows(user, form, Description(o.view.bullets), o.view.skills,
                                        o.view.certificates)
  {
    if !HasRequiredFields(user, form) then
      ResumeRejected(400, MissingFieldsMessage)
    else if completion.None? then
      GenerationFailed(500, GenerationErrorMessage)
    else
      var bullets := Bullets(completion.value);
      var skills := ParseSkills(form.skills.value);
      var certificates := ZipCertificates(form.certificateNames, form.issuingOrganizations,
                                          form.issueDates, form.expirationDates);
      ResumeStored(StoredRows(user, form, Description(bullets), skills, certificates),
                   ResumeView(bullets, skills, certificates, form.linkedUrl))
  }

  /** The refusal does not depend on the language model's reply: nothing is
      asked of it before the guard. */
  lemma RejectionBeforeGeneration(user: SessionUser, form: ResumeForm, c1: Option<string>, c2: Option<string>)
    requires !HasRequiredFields(user, form)
    ensures GenerateResume(user, form, c1) == GenerateResume(user, form, c2)
  {
  }

  /** The stored rows, in order: education, experience, one row per parsed
      skill, one row per certificate, and the resume; all under the session's
      user and e-mail address. The experience row and the resume row carry the
      same description. */
  lemma StoredRowsInOrder(user: SessionUser, form: ResumeForm, description: string,
                          skills: seq<Skill>, certificates: seq<Certificate>)
    requires HasRequiredFields(user, form)
    ensures var writes := StoredRows(user, form, description, skills, certificates);
            var email := user.email.value;
            && |writes| == 3 + |skills| + |certificates|
            && writes[0].EducationRow?
            && writes[1].ExperienceRow? && writes[1].description == description
            && (forall i :: 0 <= i < |skills| ==>
                  writes[2 + i] == SkillRow(user.id, email, skills[i].skillName, skills[i].proficiencyLevel))
            && (forall i :: 0 <= i < |certificates| ==>
                  writes[2 + |skills| + i] == CertificateRow(user.id, certificates[i].certificateName,
                    certificates[i].issuingOrganization, certificates[i].issueDate,
                    certificates[i].expirationDate, email))
            && writes[|writes| - 1].ResumeRow? && writes[|writes| - 1].experience == description
            && (forall i :: 0 <= i < |writes| ==> writes[i].userId == user.id && writes[i].email == email)
  {
    var writes := StoredRows(user, form, description, skills, certificates);
    var email := user.email.value;
    var skillRows := Map(skills, SkillRowOf(user.id, email));
    var certificateRows := Map(certificates, CertificateRowOf(user.id, email));
    assert writes == writes[..2] + skillRows + certificateRows + [writes[|writes| - 1]];
    forall i | 0 <= i < |skills|
      ensures writes[2 + i] == SkillRow(user.id, email, skills[i].skillName, skills[i].proficiencyLevel)
    {
      assert writes[2 + i] == skillRows[i];
    }
    forall i | 0 <= i < |certificates|
      ensures writes[2 + |skills| + i] == CertificateRow(user.id, certificates[i].certificateName,
                certificates[i].issuingOrganization, certificates[i].issueDate,
                certificates[i].expirationDate, email)
    {
      assert writes[2 + |skills| + i] == certificateRows[i];
    }
  }

  /** A stored resume keeps one skill row per comma-separated segment and one
      certificate row per certificate name. */
  lemma StoredRowCount(user: SessionUser, form: ResumeForm, content: string)
    requires HasRequiredFields(user, form)
    ensures var o := GenerateResume(user, form, Some(content));
            o.ResumeStored? &&
            |o.writes| == 3 + (multiset(form.skills.value)[','] + 1) + |form.certificateNames|
  {
    var o := GenerateResume(user, form, Some(content));
    StoredRowsInOrder(user, form, Description(o.view.bullets), o.view.skills, o.view.certificates);
    ParseSkillsCount(form.skills.value);
  }
}
