/**
 * The three pure transformations of the resume form: `parseSkills`,
 * `parseCertificates`, and the clean-up of the generated experience text into
 * bullet points, with the single-space join that is stored.
 */
module ResumeParsing {
  import opened Wrappers
  import opened JsStrings
  import opened JsArrays

  // ---------------------------------------------------------------- skills

  /** A skill record: a name and a proficiency level, which is absent (None)
      when the segment has no colon. */
  datatype Skill = Skill(skillName: string, proficiencyLevel: Option<string>)

  /** One comma-separated segment, split at its colons: the first field is the
      name and the second the level, each trimmed; further fields are dropped. */
  function ParseSkill(segment: string): (sk: Skill)
    ensures Trimmed(sk.skillName)
    ensures sk.proficiencyLevel.Some? ==> Trimmed(sk.proficiencyLevel.value)
    ensures sk.proficiencyLevel.Some? <==> ':' in segment
  {
    var fields := Split(segment, ':');
    SplitMoreIff(segment, ':');
    Skill(Trim(fields[0]), if |fields| > 1 then Some(Trim(fields[1])) else None)
  }

  /** `parseSkills`: one record per comma-separated segment. */
  function ParseSkills(skills: string): (parsed: seq<Skill>)
    ensures |parsed| == |Split(skills, ',')|
    ensures forall i :: 0 <= i < |parsed| ==> parsed[i] == ParseSkill(Split(skills, ',')[i])
    ensures forall i :: 0 <= i < |parsed| ==> Trimmed(parsed[i].skillName)
  {
    Map(Split(skills, ','), ParseSkill)
  }

  /** One record per comma-separated segment: one more than there are commas. */
  lemma ParseSkillsCount(skills: string)
    ensures |ParseSkills(skills)| == multiset(skills)[','] + 1
  {
    SplitCount(skills, ',');
  }

  /** A segment without a colon is all name, with no level. */
  lemma SkillWithoutColon(segment: string)
    requires ':' !in segment
    ensures ParseSkill(segment) == Skill(Trim(segment), None)
  {
    SplitNoSeparator(segment, ':');
  }

  /** The name is the trimmed text before the first colon and the level the
      trimmed text after it. */
  lemma SkillWithOneColon(name: string, level: string)
    requires ':' !in name && ':' !in level
    ensures ParseSkill(name + ":" + level) == Skill(Trim(name), Some(Trim(level)))
  {
    assert name + ":" + level == name + [':'] + level;
    SplitAtFirst(name, ':', level);
    SplitNoSeparator(level, ':');
  }

  /** Whatever follows a second colon is discarded. */
  lemma SkillExtraFieldsDropped(name: string, level: string, rest: string)
    requires ':' !in name && ':' !in level
    ensures ParseSkill(name + ":" + level + ":" + rest) == Skill(Trim(name), Some(Trim(level)))
  {
    assert name + ":" + level + ":" + rest == name + [':'] + (level + [':'] + rest);
    SplitAtFirst(name, ':', level + [':'] + rest);
    SplitAtFirst(level, ':', rest);
  }

  /** Segments are parsed in input order: the first segment gives the first
      record and the rest of the text the remaining records. */
  lemma ParseSkillsFirst(a: string, b: string)
    requires ',' !in a
    ensures ParseSkills(a + "," + b) == [ParseSkill(a)] + ParseSkills(b)
  {
    SegmentsFirst(a, b);
    MapCons(a, Split(b, ','), ParseSkill);
  }

  lemma SegmentsFirst(a: string, b: string)
    requires ',' !in a
    ensures Split(a + "," + b, ',') == [a] + Split(b, ',')
  {
    assert a + "," + b == a + [','] + b;
    SplitAtFirst(a, ',', b);
  }

  lemma ParseSkillsSingle(a: string)
    requires ',' !in a
    ensures ParseSkills(a) == [ParseSkill(a)]
  {
    SplitNoSeparator(a, ',');
  }

  // ---------------------------------------------------------- certificates

  /** A certificate record: the name, the issuing organisation and the two dates.
      Reading past the end of a shorter list gives `undefined` (None). */
  datatype Certificate = Certificate(
    certificateName: string,
    issuingOrganization: Option<string>,
    issueDate: Option<string>,
    expirationDate: Option<string>)

  /** `list[i]` on a JavaScript array. */
  function At(list: seq<string>, i: nat): (v: Option<string>)
    ensures v.Some? <==> i < |list|
    ensures v.Some? ==> v.value == list[i]
  {
    if i < |list| then Some(list[i]) else None
  }

  /** The positional zip `parseCertificates` builds: one record per certificate name. */
  function ZipCertificates(names: seq<string>, organizations: seq<string>,
                           issueDates: seq<string>, expirationDates: seq<string>): (cs: seq<Certificate>)
    ensures |cs| == |names|
    ensures forall i :: 0 <= i < |cs| ==> cs[i].certificateName == names[i]
  {
    seq(|names|, i requires 0 <= i < |names| =>
      Certificate(names[i], At(organizations, i), At(issueDates, i), At(expirationDates, i)))
  }

  /** `parseCertificates`: the `for` loop that pushes one record per index. */
  method ParseCertificates(names: seq<string>, organizations: seq<string>,
                           issueDates: seq<string>, expirationDates: seq<string>)
    returns (certificates: seq<Certificate>)
    ensures |certificates| == |names|
    ensures forall i :: 0 <= i < |names| ==>
              && certificates[i].certificateName == names[i]
              && (i < |organizations| ==> certificates[i].issuingOrganization == Some(organizations[i]))
              && (i < |issueDates| ==> certificates[i].issueDate == Some(issueDates[i]))
              && (i < |expirationDates| ==> certificates[i].expirationDate == Some(expirationDates[i]))
              && (i >= |organizations| ==> certificates[i].issuingOrganization == None)
              && (i >= |issueDates| ==> certificates[i].issueDate == None)
              && (i >= |expirationDates| ==> certificates[i].expirationDate == None)
    ensures certificates == ZipCertificates(names, organizations, issueDates, expirationDates)
  {
    certificates := [];
    var i := 0;
    while i < |names|
      invariant 0 <= i <= |names|
      invariant certificates == ZipCertificates(names, organizations, issueDates, expirationDates)[..i]
    {
      certificates := certificates + [Certificate(names[i], At(organizations, i),
                                                  At(issueDates, i), At(expirationDates, i))];
      i := i + 1;
    }
  }

  /** When the four lists have the same length every field is present and
      record `i` holds element `i` of each list. */
  lemma ZipEqualLengths(names: seq<string>, organizations: seq<string>,
                        issueDates: seq<string>, expirationDates: seq<string>)
    requires |organizations| == |issueDates| == |expirationDates| == |names|
    ensures var cs := ZipCertificates(names, organizations, issueDates, expirationDates);
            |cs| == |names| &&
            forall i :: 0 <= i < |cs| ==>
              cs[i] == Certificate(names[i], Some(organizations[i]), Some(issueDates[i]),
                                   Some(expirationDates[i]))
  {
  }

  // --------------------------------------------------------------- bullets

  /** The list marker removed from the start of a line: a dash and a space. */
  const ListMarker: string := "- "

  /** One line of the generated text made into a bullet: trimmed, one leading
      list marker and then one final period removed, trimmed again, and a
      period appended. */
  function NormaliseLine(line: string): (b: string)
    ensures |b| >= 1 && b[|b| - 1] == '.'
    ensures Trimmed(b)
  {
    var text := Trim(StripTrailing(StripLeading(Trim(line), ListMarker), "."));
    text + "."
  }

  /** The filter test: a point is kept unless it trims to a lone period. */
  predicate IsKept(line: string)
  {
    Trim(line) != "."
  }

  /** A normalised line is dropped exactly when it is the lone period. */
  lemma KeptIffNotPeriod(line: string)
    ensures IsKept(NormaliseLine(line)) <==> NormaliseLine(line) != "."
  {
    TrimmedKeptIffNotPeriod(NormaliseLine(line));
  }

  lemma TrimmedKeptIffNotPeriod(b: string)
    requires Trimmed(b)
    ensures IsKept(b) <==> b != "."
  {
    TrimTrimmed(b);
  }

  /** The lines of the generated text: the whole text trimmed, then split at
      each line feed. */
  function Lines(content: string): (lines: seq<string>)
    ensures |lines| >= 1
  {
    Split(Trim(content), '\n')
  }

  /** Every line normalised, before the filter. */
  function Points(content: string): (points: seq<string>)
    ensures |points| == |Lines(content)|
  {
    Map(Lines(content), NormaliseLine)
  }

  /** The experience points of `/generate_resume`: the lines of the generated
      text, each normalised, without those that come out as a lone period. */
  function Bullets(content: string): (bullets: seq<string>)
    ensures |bullets| <= |Lines(content)|
  {
    Filter(Points(content), IsKept)
  }

  /** The positions of the lines the bullets come from. */
  function Sources(content: string): (idx: seq<nat>)
    ensures |idx| == |Bullets(content)|
  {
    KeptIndices(Points(content), IsKept)
  }

  /** Every bullet ends in a period, is not the lone period, and has no
      whitespace at either end. */
  lemma BulletShape(content: string, k: nat)
    requires k < |Bullets(content)|
    ensures var b := Bullets(content)[k];
            |b| >= 2 && b[|b| - 1] == '.' && b != "." && Trimmed(b)
  {
    var i := BulletSource(content, k);
    var b := NormaliseLine(Lines(content)[i]);
    KeptIffNotPeriod(Lines(content)[i]);
  }

  lemma AllBulletsShaped(content: string)
    ensures forall k :: 0 <= k < |Bullets(content)| ==>
              var b := Bullets(content)[k];
              |b| >= 2 && b[|b| - 1] == '.' && b != "." && Trimmed(b)
  {
    forall k | 0 <= k < |Bullets(content)|
      ensures var b := Bullets(content)[k];
              |b| >= 2 && b[|b| - 1] == '.' && b != "." && Trimmed(b)
    {
      BulletShape(content, k);
    }
  }

  /** The line that bullet `k` comes from, and the fact that its normalisation
      passes the filter. */
  lemma BulletSource(content: string, k: nat) returns (i: nat)
    requires k < |Bullets(content)|
    ensures i == Sources(content)[k] && i < |Lines(content)|
    ensures Bullets(content)[k] == NormaliseLine(Lines(content)[i])
    ensures IsKept(NormaliseLine(Lines(content)[i]))
  {
    var points := Points(content);
    KeptAt(points, IsKept, k);
    i := KeptIndices(points, IsKept)[k];
    assert points[i] == NormaliseLine(Lines(content)[i]);
  }

  /** Bullet `k` is the normalised line `Sources(content)[k]`. */
  lemma BulletsFromLines(content: string)
    ensures forall k :: 0 <= k < |Sources(content)| ==>
              Sources(content)[k] < |Lines(content)| &&
              Bullets(content)[k] == NormaliseLine(Lines(content)[Sources(content)[k]])
  {
    forall k | 0 <= k < |Sources(content)|
      ensures Sources(content)[k] < |Lines(content)| &&
              Bullets(content)[k] == NormaliseLine(Lines(content)[Sources(content)[k]])
    {
      var i := BulletSource(content, k);
    }
  }

  /** The bullets keep the order of their lines. */
  lemma BulletsInOrder(content: string)
    ensures forall k, l :: 0 <= k < l < |Sources(content)| ==> Sources(content)[k] < Sources(content)[l]
  {
    forall k, l | 0 <= k < l < |Sources(content)|
      ensures Sources(content)[k] < Sources(content)[l]
    {
      KeptInOrder(Points(content), IsKept, k, l);
    }
  }

  /** Every line left out normalises to the lone period. */
  lemma DroppedLines(content: string)
    ensures forall i :: 0 <= i < |Lines(content)| && i !in Sources(content) ==>
              NormaliseLine(Lines(content)[i]) == "."
  {
    forall i | 0 <= i < |Lines(content)| && i !in Sources(content)
      ensures NormaliseLine(Lines(content)[i]) == "."
    {
      DroppedLine(content, i);
    }
  }

  lemma DroppedLine(content: string, i: nat)
    requires i < |Lines(content)| && i !in Sources(content)
    ensures NormaliseLine(Lines(content)[i]) == "."
  {
    var points := Points(content);
    DroppedAt(points, IsKept, i);
    assert points[i] == NormaliseLine(Lines(content)[i]);
    KeptIffNotPeriod(Lines(content)[i]);
  }

  /** `NormaliseLine` step by step. */
  lemma NormaliseLineSteps(line: string, trimmed: string, unmarked: string, text: string)
    requires trimmed == Trim(line)
    requires unmarked == StripLeading(trimmed, ListMarker)
    requires text == StripTrailing(unmarked, ".")
    ensures NormaliseLine(line) == Trim(text) + "."
  {
  }

  /** A line that is a list marker, a trimmed text and one period, padded
      with whitespace, becomes that text and a period. */
  lemma NormaliseMarkedLine(lead: string, text: string, trail: string)
    requires AllWhitespace(lead) && AllWhitespace(trail) && Trimmed(text)
    ensures NormaliseLine(lead + ListMarker + text + "." + trail) == text + "."
  {
    var line := lead + ListMarker + text + "." + trail;
    var core := ListMarker + (text + ".");
    assert line == lead + core + trail;
    TrimOfPadded(lead, core, trail);
    StripLeadingOf(ListMarker, text + ".");
    StripTrailingOf(text, ".");
    TrimTrimmed(text);
    NormaliseLineSteps(line, core, text + ".", text);
  }

  /** The marker and the final period are both optional: a bare trimmed text
      that neither starts with the marker nor ends in a period also becomes
      that text and a period. */
  lemma NormalisePlainLine(lead: string, text: string, trail: string)
    requires AllWhitespace(lead) && AllWhitespace(trail) && Trimmed(text)
    requires !StartsWith(text, ListMarker) && !EndsWith(text, ".")
    ensures NormaliseLine(lead + text + trail) == text + "."
  {
    TrimOfPadded(lead, text, trail);
    assert text == [] + text + [];
    TrimOfPadded([], text, []);
  }

  /** A trimmed line without the marker loses only its final period. */
  lemma NormaliseUnmarkedLine(text: string)
    requires Trimmed(text + ".") && Trimmed(text) && !StartsWith(text + ".", ListMarker)
    ensures NormaliseLine(text + ".") == text + "."
  {
    TrimTrimmed(text + ".");
    StripTrailingOf(text, ".");
    TrimTrimmed(text);
    NormaliseLineSteps(text + ".", text + ".", text + ".", text);
  }

  /** Only one period is removed: a line ending in two periods keeps one of
      them and gains another. */
  lemma NormaliseDoublePeriod(text: string)
    requires Trimmed(text) && text != [] && !StartsWith(text, ListMarker)
    ensures NormaliseLine(text + "." + ".") == text + "." + "."
  {
    TrimmedAppend(text, '.');
    TrimmedAppend(text + ".", '.');
    UnmarkedAfterPeriods(text);
    NormaliseUnmarkedLine(text + ".");
  }

  lemma UnmarkedAfterPeriods(text: string)
    requires text != [] && !StartsWith(text, ListMarker)
    ensures !StartsWith(text + "." + ".", ListMarker)
  {
    if |text| >= 2 {
      StartsWithAppend(text, ".", ListMarker);
      StartsWithAppend(text + ".", ".", ListMarker);
    } else {
      assert (text + "." + ".")[1] == '.';
    }
  }

  /** A lone dash is neither the marker nor ends in a period, and needs no trimming. */
  lemma DashUnchanged()
    ensures StripLeading("-", ListMarker) == "-"
    ensures StripTrailing("-", ".") == "-"
    ensures Trim("-") == "-"
  {
    assert "-"[0] == '-';
    TrimTrimmed("-");
  }

  /** Trimming happens before the marker is removed, so a line holding only a
      dash, or a dash and whitespace (the marker with nothing after it), is
      kept as the bullet "-.". */
  lemma LoneDashKept(trail: string)
    requires AllWhitespace(trail)
    ensures NormaliseLine("-" + trail) == "-."
    ensures IsKept(NormaliseLine("-" + trail))
  {
    var dash := "-";
    assert "-" + trail == [] + dash + trail;
    assert dash[0] == '-';
    TrimOfPadded([], dash, trail);
    DashUnchanged();
    NormaliseLineSteps("-" + trail, dash, dash, dash);
    assert "-." == dash + ".";
    KeptIffNotPeriod("-" + trail);
  }

  // ----------------------------------------------------------- stored text

  /** The stored experience description: the bullets joined with one space. */
  function Description(bullets: seq<string>): (d: string)
  {
    Join(bullets, " ")
  }

  /** The description is empty exactly when there are no bullets, and
      otherwise ends with the last bullet's period. */
  lemma DescriptionShape(content: string)
    ensures var bullets := Bullets(content);
            var d := Description(bullets);
            && (d == "" <==> bullets == [])
            && (bullets != [] ==> d[|d| - 1] == '.')
  {
    AllBulletsShaped(content);
    DescriptionEnds(Bullets(content));
  }

  lemma {:induction false} DescriptionEnds(bullets: seq<string>)
    requires forall k :: 0 <= k < |bullets| ==> |bullets[k]| >= 1 && bullets[k][|bullets[k]| - 1] == '.'
    ensures var d := Description(bullets);
            && (d == "" <==> bullets == [])
            && (bullets != [] ==> d[|d| - 1] == '.')
    decreases |bullets|
  {
    if |bullets| > 1 {
      DescriptionEnds(bullets[1..]);
    }
  }
}
