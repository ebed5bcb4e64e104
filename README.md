# Resume generator routes, modelled in Dafny

The application is an Express web app for students of Oklahoma Christian
University. Students sign up with a college e-mail address, log in, and fill
in a form with their education, one job, skills, certificates and a target
job description. The server then asks a language model for bullet points
about the job, cleans those bullets up, stores the education, experience,
skill, certificate and resume rows, and renders the resume.

This project models the logic of `routes.js` that does not depend on the
outside world:

- **Signup guard.** An address is accepted only if it ends in
  `@eagles.oc.edu`. Any other address gets a 400 with a fixed message, and
  nothing is hashed or stored (`Routes.Signup`).
- **Required-field guard.** Resume generation is refused with a 400 when any
  of fourteen session or form values is falsy. A falsy value is one that is
  absent or empty. The refusal comes before the language model is called
  (`Routes.GenerateResume`).
- **Skills parsing.** The skills field is split at every comma. Each segment
  is split at colons, its first two fields are trimmed, they become the name
  and level, and any later fields are dropped
  (`ResumeParsing.ParseSkill`, `ParseSkills`).
- **Certificate zipping.** One certificate is built per name, pairing
  position `i` of the four input lists. A list that is too short yields an
  absent field, as JavaScript's `undefined` does (`ResumeParsing.ParseCertificates`).
- **Bullet normalisation.** The reply is trimmed and split into lines. Each
  line is trimmed; one leading `"- "` marker and one trailing period are
  removed; the text is trimmed again and one period appended. Lines that end
  up as a lone `"."` are dropped (`ResumeParsing.Bullets`). Since only one
  period is removed at routes.js:175, a line `text..` comes out unchanged
  (`ResumeParsing.NormaliseDoublePeriod`).
- **Stored description.** The bullets are joined with single spaces. That
  one string goes into both the Experience row and the resume row
  (`Routes.StoredRows`, `Routes.StoredRowsInOrder`).

The model has five parts:

- `js_strings.dfy` models the JavaScript string built-ins the handler uses:
  `trim` with the full ECMAScript whitespace set, `split` on one character,
  `join`, `endsWith`, and the two anchored `replace` calls.
- `js_arrays.dfy` models `map` and `filter`.
- `resume_parsing.dfy` models the two parsing helpers and the bullet
  pipeline.
- `routes.dfy` models the two handlers as functions from their inputs to an
  outcome. Each outcome is a refusal, or the list of rows to write plus what
  the page shows.
- `worked_examples.dfy` proves what the model gives for a few concrete inputs.

The language model's reply is a parameter of type `Option<string>`, where
`None` stands for a failed request. The session user and the form fields
are plain values.

## Model

| member | source | states |
|---|---|---|
| JsStrings.Trim | routes.js:128 | the result is trimmed: it is empty, or starts and ends with a non-whitespace character |
| JsStrings.TrimIsInfix | routes.js:172-175 | trimming removes only whitespace, and only at the two ends: the input is whitespace + result + whitespace |
| JsStrings.TrimOfPadded | routes.js:175 | a trimmed text padded with whitespace on both sides trims back to exactly that text |
| JsStrings.TrimIdempotent | routes.js:175 | trimming a trimmed value again changes nothing |
| JsStrings.Split | routes.js:127 | splitting always gives at least one part, and no part contains the separator |
| JsStrings.SplitCount | routes.js:127 | the number of parts is the number of separator occurrences plus one |
| JsStrings.SplitMoreIff | routes.js:128 | there is more than one part exactly when the separator occurs in the text |
| JsStrings.JoinSplit | routes.js:174 | joining the parts with the separator gives back the original text |
| JsStrings.SplitJoin | routes.js:174 | splitting a join of separator-free parts gives back those parts |
| JsStrings.Join | routes.js:189 | joining one part gives that part unchanged; with JoinSplit and SplitJoin it is the inverse of splitting; the same join builds the resume row at line 221 |
| JsStrings.EndsWithIff | routes.js:30 | a text ends with a suffix exactly when it is some text followed by that suffix |
| JsStrings.EndsWith | routes.js:30 | defined as: the text is at least as long as the suffix and its last characters are the suffix; case-sensitive; EndsWithIff characterises it |
| JsStrings.StripLeadingOf | routes.js:175 | removing the anchored leading marker from marker+rest leaves rest |
| JsStrings.StripTrailingOf | routes.js:175 | removing the anchored trailing period from rest+"." leaves rest |
| JsStrings.StripLeading | routes.js:175 | when the text starts with the marker, marker + result is the text; otherwise the text is returned unchanged |
| JsStrings.StripTrailing | routes.js:175 | when the text ends with the period, result + period is the text; otherwise the text is returned unchanged |
| JsArrays.Map | routes.js:127-130 | the mapped list has the input's length, and element i is f applied to input element i |
| JsArrays.Filter | routes.js:176 | the kept list is never longer than the input; FilterKeepsOrder states which elements are kept and in what order |
| JsArrays.FilterKeepsOrder | routes.js:176 | every kept element comes from a position whose element passes the test; those positions increase; every element left out fails the test |
| ResumeParsing.ParseSkill | routes.js:128-129 | name and level are both trimmed, and a level is present exactly when the segment contains a colon |
| ResumeParsing.ParseSkills | routes.js:126-131 | one record per comma-separated segment, record i is the parse of segment i, and every name is trimmed |
| ResumeParsing.ParseSkillsCount | routes.js:126-131 | there is one skill per comma-separated segment: the count of commas plus one |
| ResumeParsing.ParseSkillsFirst | routes.js:127 | skills are produced in order: a leading comma-free segment gives the first skill, then the rest |
| ResumeParsing.ParseSkillsSingle | routes.js:127 | a field without commas gives exactly one skill |
| ResumeParsing.SkillWithoutColon | routes.js:128-129 | a segment without a colon gives its trimmed text as the name and no level |
| ResumeParsing.SkillWithOneColon | routes.js:128-129 | "name:level" gives the trimmed name and the trimmed level |
| ResumeParsing.SkillExtraFieldsDropped | routes.js:128-129 | fields after the second colon are dropped |
| ResumeParsing.At | routes.js:138-141 | indexing a list gives a value exactly inside its bounds, and then the element at that position; past the end it gives no value, as `undefined` |
| ResumeParsing.ZipCertificates | routes.js:134-145 | one record per certificate name, record i carrying name i; ParseCertificates and ZipEqualLengths state the other fields |
| ResumeParsing.ParseCertificates | routes.js:134-145 | one certificate per name, in order; certificate i holds name i and element i of each other list, or no value where that list is too short |
| ResumeParsing.ZipEqualLengths | routes.js:136-142 | when the four lists have equal length, every certificate has all four fields present, taken from the same position |
| ResumeParsing.NormaliseLine | routes.js:175 | every normalised line is nonempty, ends in a period, and is trimmed |
| ResumeParsing.KeptIffNotPeriod | routes.js:176 | a normalised line passes the filter exactly when it is not the lone period |
| ResumeParsing.IsKept | routes.js:176 | defined as: the line does not trim to a lone period; KeptIffNotPeriod characterises it on normalised lines |
| ResumeParsing.Lines | routes.js:172-174 | the reply always gives at least one line |
| ResumeParsing.Bullets | routes.js:172-176 | there are never more bullets than lines in the reply |
| ResumeParsing.AllBulletsShaped | routes.js:175-176 | every bullet has at least two characters, ends in a period, is not the lone period, and is trimmed |
| ResumeParsing.BulletShape | routes.js:175-176 | the same shape, stated for one bullet |
| ResumeParsing.BulletsFromLines | routes.js:173-176 | bullet k is the normalised form of the reply line it comes from |
| ResumeParsing.BulletsInOrder | routes.js:176 | bullets keep the order of the lines they come from |
| ResumeParsing.DroppedLines | routes.js:176 | every line that gives no bullet normalises to the lone period |
| ResumeParsing.NormaliseMarkedLine | routes.js:175 | a padded "- text." line becomes "text." (marker, one period and padding removed, one period added) |
| ResumeParsing.NormalisePlainLine | routes.js:175 | a padded line without marker or final period becomes the text with a period appended |
| ResumeParsing.NormaliseDoublePeriod | routes.js:175 | only one trailing period is removed: "text.." stays "text.." |
| ResumeParsing.LoneDashKept | routes.js:175-176 | a line holding only a dash and whitespace becomes the bullet "-." and is kept, because trimming happens before the marker is removed |
| ResumeParsing.DescriptionShape | routes.js:189 | the description is empty exactly when there are no bullets, and otherwise ends in a period |
| ResumeParsing.Description | routes.js:189 | defined as the bullets joined with one space; DescriptionShape states its shape |
| Routes.Signup | routes.js:27-37 | rejected exactly when the address does not end in "@eagles.oc.edu", then with status 400 and "Please enter a valid OC email"; otherwise the password and a row holding the form's fields go on to storage |
| Routes.SignupRejectedIff | routes.js:30-31 | rejected exactly when the address cannot be written as some local part followed by "@eagles.oc.edu" |
| Routes.SignupAcceptsAnyLocalPart | routes.js:30 | any text followed by "@eagles.oc.edu" is accepted, including the bare suffix |
| Routes.IsOcEmail | routes.js:30 | defined as: the address ends in "@eagles.oc.edu"; SignupRejectedIff characterises it |
| Routes.RequiredFields | routes.js:152 | exactly fourteen values are checked |
| Routes.Truthy | routes.js:152 | defined as: the value is present and not the empty string, which is when a JavaScript string is truthy |
| Routes.HasRequiredFields | routes.js:152-154 | defined as the conjunction of the fourteen truthiness tests, in the order of line 152; RequiredFieldsIff characterises it |
| Routes.RequiredFieldsIff | routes.js:152 | the guard passes exactly when each of the fourteen values is present and nonempty |
| Routes.OptionalFieldsIgnored | routes.js:149-154 | the link, experience description and certificate lists do not affect the guard |
| Routes.GenerateResume | routes.js:148-250 | refused with 400 and "All fields are required" exactly when the guard fails; 500 and "Error generating description" exactly when the guard passes and generation fails; otherwise the page gets the normalised bullets, parsed skills and zipped certificates, and the rows are stored with the space-joined bullets |
| Routes.RejectionBeforeGeneration | routes.js:152-159 | when the guard fails, the outcome does not depend on the language model's reply at all |
| Routes.StoredRowsInOrder | routes.js:180-221 | rows are education, experience, one per skill, one per certificate, then the resume. Skill and certificate rows mirror the parsed values. Experience and resume rows carry the same description. Every row has the session's user id and address |
| Routes.StoredRows | routes.js:180-221 | defined as education, experience, skill, certificate and resume rows in the order the handler issues the inserts; StoredRowsInOrder states their contents |
| Routes.StoredRowCount | routes.js:196-221 | a stored resume has 3 + (commas in the skills field + 1) + (certificate names) rows |
| WorkedExamples.ReplyBullets | routes.js:172-176 | the reply "- Led migration.\n- Cut latency by 30%.\n." gives the bullets "Led migration." and "Cut latency by 30%." |
| WorkedExamples.ReplyDescription | routes.js:189 | that reply is stored as "Led migration. Cut latency by 30%." |
| WorkedExamples.SkillsExample | routes.js:126-131 | "Python:Expert, SQL:Intermediate" gives the skills Python/Expert and SQL/Intermediate |
| WorkedExamples.SignupExamples | routes.js:30 | ada@eagles.oc.edu is accepted; gmail.com, a capitalised "Eagles" and text after the domain are refused |

## Left out

- Database access is left out: the MySQL connection, the queries and their error callbacks with their 500 replies. The rows the handler inserts are returned as a list of writes. The rendered page is returned as a view value.
- Row order: the skill and certificate inserts are started in a `forEach` without waiting for them. The model gives the order in which the inserts are issued, not the order in which they finish.
- The error paths inside the insert callbacks are left out. A failed skill or certificate insert can try to answer a request that is already answered, and that is not modelled.
- Password hashing with bcrypt is left out. The signup outcome carries the plain password that would be hashed. The 500 "Error signing up" reply of the surrounding catch is not modelled either, so an absent password, which makes the hash call fail, still gives a proceeding outcome.
- The HTTP call to the language model is left out, with its headers, API key and prompt text. Its reply is a parameter, where `None` stands for any failure inside the `try` block, including a missing `choices[0]`.
- Express itself is left out: routing, `render`, `redirect`, sessions, login, logout and the other pages.
- The signup address is always a string. A request without one, which makes `endsWith` throw, is not modelled.
- A missing session user, which makes the destructuring throw, is not modelled. The session's fields are optional strings.
- Falsiness is modelled for strings only: an absent value or the empty string. Form values of other JavaScript types, and their coercion, are left out.
- ResumeParsing.ParseCertificates: each list is a sequence of strings. A single string, or an absent value in place of a list, is not modelled. In JavaScript a single string would be indexed by character.
- ResumeParsing.Lines: its own contract states only that there is at least one line. The exact number of lines is given by JsStrings.SplitCount.
