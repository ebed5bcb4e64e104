/**
 * What the model gives for a few concrete inputs, proved: a generated reply in
 * the usual "- point." format, a skills field, and a few signup addresses.
 */
module WorkedExamples {
  import opened Wrappers
  import opened JsStrings
  import opened JsArrays
  import opened ResumeParsing
  import opened Routes

  const FirstPoint: string := "Led migration"
  const SecondPoint: string := "Cut latency by 30%"

  /** Two marked points and a stray period on the last line: the text
      "- Led migration.\n- Cut latency by 30%.\n.". It is spelled as the same
      concatenation TwoPointReply builds, so the two agree term by term. */
  const Reply: string := "- " + "Led migration" + "." + "\n" + "- " + "Cut latency by 30%" + "." + "\n" + "."

  /** The reply's shape: two marked points, each on its own line, and a
      last line holding a period. */
  function TwoPointReply(a: string, b: string): string
  {
    ListMarker + a + "." + "\n" + ListMarker + b + "." + "\n" + "."
  }

  lemma TwoPointTrimmed(a: string, b: string)
    ensures Trim(TwoPointReply(a, b)) == TwoPointReply(a, b)
  {
    var reply := TwoPointReply(a, b);
    assert reply[0] == '-' && reply[|reply| - 1] == '.';
    TrimTrimmed(reply);
  }

  lemma TwoPointSplit(a: string, b: string)
    requires '\n' !in a && '\n' !in b
    ensures Split(TwoPointReply(a, b), '\n') == [ListMarker + a + ".", ListMarker + b + ".", "."]
  {
    var first := ListMarker + a + ".";
    var second := ListMarker + b + ".";
    var rest := second + ['\n'] + ".";
    assert TwoPointReply(a, b) == first + ['\n'] + rest;
    assert '\n' !in first && '\n' !in second;
    SplitAtFirst(first, '\n', rest);
    SplitAtFirst(second, '\n', ".");
    SplitNoSeparator(".", '\n');
  }

  lemma TwoPointLines(a: string, b: string)
    requires '\n' !in a && '\n' !in b
    ensures Lines(TwoPointReply(a, b)) == [ListMarker + a + ".", ListMarker + b + ".", "."]
  {
    TwoPointTrimmed(a, b);
    TwoPointSplit(a, b);
  }

  /** A marked point loses its marker and keeps one period. */
  lemma MarkedPoint(text: string)
    requires Trimmed(text)
    ensures NormaliseLine(ListMarker + text + ".") == text + "."
  {
    assert ListMarker + text + "." == [] + ListMarker + text + "." + [];
    NormaliseMarkedLine([], text, []);
  }

  /** The stray period normalises to the lone period. */
  lemma StrayPeriod()
    ensures NormaliseLine(".") == "."
  {
    TrimTrimmed(".");
    StripTrailingOf([], ".");
    NormaliseLineSteps(".", ".", ".", []);
  }

  lemma PointsOfThreeLines(content: string, l0: string, l1: string, l2: string)
    requires Lines(content) == [l0, l1, l2]
    ensures Points(content) == [NormaliseLine(l0), NormaliseLine(l1), NormaliseLine(l2)]
  {
    var points := Points(content);
    assert points[0] == NormaliseLine(l0);
    assert points[1] == NormaliseLine(l1);
    assert points[2] == NormaliseLine(l2);
  }

  lemma TwoPointPoints(a: string, b: string)
    requires Trimmed(a) && Trimmed(b) && '\n' !in a && '\n' !in b
    ensures Points(TwoPointReply(a, b)) == [a + ".", b + ".", "."]
  {
    TwoPointLines(a, b);
    PointsOfThreeLines(TwoPointReply(a, b), ListMarker + a + ".", ListMarker + b + ".", ".");
    MarkedPoint(a);
    MarkedPoint(b);
    StrayPeriod();
  }

  /** A nonempty trimmed text with a period appended passes the filter. */
  lemma PointKept(a: string)
    requires Trimmed(a) && a != []
    ensures IsKept(a + ".")
  {
    TrimmedAppend(a, '.');
    assert |a + "."| >= 2;
    TrimmedKeptIffNotPeriod(a + ".");
  }

  lemma FilterTwoAndPeriod(x: string, y: string)
    requires IsKept(x) && IsKept(y)
    ensures Filter([x, y, "."], IsKept) == [x, y]
  {
    assert "."[0] == '.';
    TrimTrimmed(".");
    assert [x][..0] == [];
    assert Filter([x], IsKept) == [x];
    assert [x, y][..1] == [x];
    assert Filter([x, y], IsKept) == [x, y];
    assert [x, y, "."][..2] == [x, y];
  }

  /** A two-point reply gives two bullets; the last period is dropped. */
  lemma TwoPointBullets(a: string, b: string)
    requires Trimmed(a) && Trimmed(b) && '\n' !in a && '\n' !in b && a != [] && b != []
    ensures Bullets(TwoPointReply(a, b)) == [a + ".", b + "."]
  {
    TwoPointPoints(a, b);
    PointKept(a);
    PointKept(b);
    FilterTwoAndPeriod(a + ".", b + ".");
  }

  lemma ReplyShape()
    ensures Reply == TwoPointReply(FirstPoint, SecondPoint)
  {
  }

  lemma PointTexts()
    ensures Trimmed(FirstPoint) && '\n' !in FirstPoint && FirstPoint != []
    ensures Trimmed(SecondPoint) && '\n' !in SecondPoint && SecondPoint != []
  {
  }

  /** The example reply gives the two points, each with one period. */
  lemma ReplyBullets()
    ensures Bullets(Reply) == [FirstPoint + ".", SecondPoint + "."]
  {
    ReplyShape();
    PointTexts();
    TwoPointBullets(FirstPoint, SecondPoint);
  }

  /** The stored description of that reply: the two bullets with one space
      between them. */
  lemma ReplyDescription()
    ensures Description(Bullets(Reply)) == (FirstPoint + ".") + " " + (SecondPoint + ".")
  {
    ReplyBullets();
    var bullets := [FirstPoint + ".", SecondPoint + "."];
    assert bullets[1..] == [SecondPoint + "."];
  }

  /** A field's text is plain when it needs no trimming and holds neither
      separator. */
  predicate Plain(text: string)
  {
    Trimmed(text) && ':' !in text && ',' !in text
  }

  /** A skills field holding two "name:level" entries, the second after a
      comma and a space. */
  function TwoSkillField(n1: string, l1: string, n2: string, l2: string): string
  {
    n1 + ":" + l1 + "," + " " + n2 + ":" + l2
  }

  lemma PlainSkill(name: string, level: string)
    requires Plain(name) && Plain(level)
    ensures ParseSkill(name + ":" + level) == Skill(name, Some(level))
  {
    SkillWithOneColon(name, level);
    TrimTrimmed(name);
    TrimTrimmed(level);
  }

  lemma SpacedSkill(name: string, level: string)
    requires Plain(name) && Plain(level)
    ensures ParseSkill(" " + name + ":" + level) == Skill(name, Some(level))
  {
    assert ':' !in " ";
    SkillWithOneColon(" " + name, level);
    assert " " + name == " " + name + [];
    TrimOfPadded(" ", name, []);
    TrimTrimmed(level);
  }

  lemma TwoSkills(n1: string, l1: string, n2: string, l2: string)
    requires Plain(n1) && Plain(l1) && Plain(n2) && Plain(l2)
    ensures ParseSkills(TwoSkillField(n1, l1, n2, l2)) == [Skill(n1, Some(l1)), Skill(n2, Some(l2))]
  {
    var first := n1 + ":" + l1;
    var second := " " + n2 + ":" + l2;
    assert TwoSkillField(n1, l1, n2, l2) == first + "," + second;
    assert ',' !in first && ',' !in second;
    ParseSkillsFirst(first, second);
    ParseSkillsSingle(second);
    PlainSkill(n1, l1);
    SpacedSkill(n2, l2);
  }

  /** The skills field "Python:Expert, SQL:Intermediate", spelled as the same
      concatenation TwoSkillField builds, so the two agree term by term. */
  const SkillsField: string := "Python" + ":" + "Expert" + "," + " " + "SQL" + ":" + "Intermediate"

  lemma SkillTexts()
    ensures Plain("Python") && Plain("Expert") && Plain("SQL") && Plain("Intermediate")
  {
  }

  /** Both entries are parsed, names and levels without the separating space. */
  lemma SkillsExample()
    ensures ParseSkills(SkillsField) ==
            [Skill("Python", Some("Expert")), Skill("SQL", Some("Intermediate"))]
  {
    SkillTexts();
    assert SkillsField == TwoSkillField("Python", "Expert", "SQL", "Intermediate");
    TwoSkills("Python", "Expert", "SQL", "Intermediate");
  }

  function FormWithEmail(email: string): SignupForm
  {
    SignupForm(Some("Ada"), Some("Lovelace"), Some("ada"), email, Some("secret"), None)
  }

  /** A college address is accepted; another domain, a different letter case
      or text after the domain is refused. */
  lemma SignupExamples()
    ensures Signup(FormWithEmail("ada@eagles.oc.edu")).SignupProceeds?
    ensures Signup(FormWithEmail("ada@gmail.com")).SignupRejected?
    ensures Signup(FormWithEmail("ada@Eagles.oc.edu")).SignupRejected?
    ensures Signup(FormWithEmail("ada@eagles.oc.edu.com")).SignupRejected?
  {
    SignupAcceptsAnyLocalPart(FormWithEmail("ada@eagles.oc.edu"), "ada");
    assert "ada@Eagles.oc.edu"[4] != OcEmailSuffix[1];
  }
}
