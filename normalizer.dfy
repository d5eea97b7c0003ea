/** convertToJobFormat in src/services/githubJobScraper.ts and the helpers it calls: each
    parsed row becomes a Job with generated id, tags, requirements and descriptions. The
    descriptions are fixed templates chosen by the length of the company name. */
module Normalizer {
  import opened Types
  import opened Text
  import opened Seqs
  import opened Patterns

  /** `/intern|internship/i.test(position)` */
  predicate IsIntern(position: string) {
    Test(position, InternRe)
  }

  // ---------------------------------------------------------------------------------------
  // Tags.

  /** The field of a row that a tag rule tests. */
  datatype Field = Position | Location

  /** `if (re.test(field)) tags.push(tag)` */
  datatype TopicRule = TopicRule(re: seq<Pattern>, field: Field, tag: string)

  /** The topic rules, in the order the code applies them. */
  const TopicRules: seq<TopicRule> := [
    TopicRule(SoftwareRe, Position, "Software Engineering"),
    TopicRule(FullStackRe, Position, "Full-stack"),
    TopicRule(FrontendRe, Position, "Frontend"),
    TopicRule(BackendRe, Position, "Backend"),
    TopicRule(MobileRe, Position, "Mobile"),
    TopicRule(DataRe, Position, "Data"),
    TopicRule(RemoteRe, Location, "Remote"),
    TopicRule(AiMlRe, Position, "AI/ML")
  ]

  function FieldOf(e: ParsedJobEntry, f: Field): string {
    match f
    case Position => e.position
    case Location => e.location
  }

  predicate Fires(r: TopicRule, e: ParsedJobEntry) {
    Test(FieldOf(e, r.field), r.re)
  }

  function CategoryTag(e: ParsedJobEntry): string {
    if IsIntern(e.position) then "Internship" else "New Grad"
  }

  /** The tags after the category tag and the first `n` rules: each rule that fires adds
      its tag at the end. */
  function TagsAfter(e: ParsedJobEntry, n: nat): (tags: seq<string>)
    requires n <= |TopicRules|
    ensures |tags| >= 1 && tags[0] == CategoryTag(e)
    decreases n
  {
    if n == 0 then [CategoryTag(e)]
    else TagsAfter(e, n - 1) + (if Fires(TopicRules[n - 1], e) then [TopicRules[n - 1].tag] else [])
  }

  /** The tags of a converted row. */
  function Tags(e: ParsedJobEntry): seq<string> {
    TagsAfter(e, |TopicRules|)
  }

  /** The tag names of the rules, in rule order. */
  function Names(rules: seq<TopicRule>): (names: seq<string>)
    ensures |names| == |rules|
    ensures forall k :: 0 <= k < |rules| ==> names[k] == rules[k].tag
  {
    seq(|rules|, k requires 0 <= k < |rules| => rules[k].tag)
  }

  /** The rule table, entry by entry, as the code writes its tests. */
  lemma RuleTable(e: ParsedJobEntry)
    ensures Fires(TopicRules[0], e) == Test(e.position, SoftwareRe) && TopicRules[0].tag == "Software Engineering"
    ensures Fires(TopicRules[1], e) == Test(e.position, FullStackRe) && TopicRules[1].tag == "Full-stack"
    ensures Fires(TopicRules[2], e) == Test(e.position, FrontendRe) && TopicRules[2].tag == "Frontend"
    ensures Fires(TopicRules[3], e) == Test(e.position, BackendRe) && TopicRules[3].tag == "Backend"
    ensures Fires(TopicRules[4], e) == Test(e.position, MobileRe) && TopicRules[4].tag == "Mobile"
    ensures Fires(TopicRules[5], e) == Test(e.position, DataRe) && TopicRules[5].tag == "Data"
    ensures Fires(TopicRules[6], e) == Test(e.location, RemoteRe) && TopicRules[6].tag == "Remote"
    ensures Fires(TopicRules[7], e) == Test(e.position, AiMlRe) && TopicRules[7].tag == "AI/ML"
  {
  }

  /** The tag-building statements of the map callback. */
  method CollectTags(e: ParsedJobEntry) returns (tags: seq<string>)
    ensures tags == Tags(e)
  {
    RuleTable(e);
    tags := [];
    if IsIntern(e.position) {
      tags := tags + ["Internship"];
    } else {
      tags := tags + ["New Grad"];
    }
    assert tags == TagsAfter(e, 0);
    if Test(e.position, SoftwareRe) { tags := tags + ["Software Engineering"]; }
    assert tags == TagsAfter(e, 1);
    if Test(e.position, FullStackRe) { tags := tags + ["Full-stack"]; }
    assert tags == TagsAfter(e, 2);
    if Test(e.position, FrontendRe) { tags := tags + ["Frontend"]; }
    assert tags == TagsAfter(e, 3);
    if Test(e.position, BackendRe) { tags := tags + ["Backend"]; }
    assert tags == TagsAfter(e, 4);
    if Test(e.position, MobileRe) { tags := tags + ["Mobile"]; }
    assert tags == TagsAfter(e, 5);
    if Test(e.position, DataRe) { tags := tags + ["Data"]; }
    assert tags == TagsAfter(e, 6);
    if Test(e.location, RemoteRe) { tags := tags + ["Remote"]; }
    assert tags == TagsAfter(e, 7);
    if Test(e.position, AiMlRe) { tags := tags + ["AI/ML"]; }
  }

  /** After the category, the tags are some of the first `n` rule names, in rule order. */
  lemma {:induction false} TagsAfterSubseq(e: ParsedJobEntry, n: nat)
    requires n <= |TopicRules|
    ensures IsSubseq(TagsAfter(e, n)[1..], Names(TopicRules[..n]))
    decreases n
  {
    if n > 0 {
      var prev := TagsAfter(e, n - 1);
      var r := TopicRules[n - 1];
      var added := if Fires(r, e) then [r.tag] else [];
      TagsAfterSubseq(e, n - 1);
      assert Names(TopicRules[..n]) == Names(TopicRules[..n - 1]) + [r.tag];
      assert IsSubseq(added, [r.tag]) by {
        if Fires(r, e) {
          assert [r.tag][1..] == [] && added[1..] == [];
        }
      }
      SubseqAppend(prev[1..], Names(TopicRules[..n - 1]), added, [r.tag]);
      assert TagsAfter(e, n)[1..] == prev[1..] + added;
    }
  }

  /** A tag follows the category exactly when one of the first `n` rules with that tag
      fires. */
  lemma {:induction false} TagsAfterMembers(e: ParsedJobEntry, n: nat, t: string)
    requires n <= |TopicRules|
    ensures t in TagsAfter(e, n)[1..] <==> exists k :: 0 <= k < n && TopicRules[k].tag == t && Fires(TopicRules[k], e)
    decreases n
  {
    if n > 0 {
      TagsAfterMembers(e, n - 1, t);
      var prev := TagsAfter(e, n - 1);
      var r := TopicRules[n - 1];
      assert TagsAfter(e, n)[1..] == prev[1..] + (if Fires(r, e) then [r.tag] else []);
    }
  }

  lemma TopicNamesDistinct()
    ensures Distinct(Names(TopicRules))
    ensures forall k :: 0 <= k < |TopicRules| ==> TopicRules[k].tag != "Internship" && TopicRules[k].tag != "New Grad"
  {
    var names := Names(TopicRules);
    assert names == ["Software Engineering", "Full-stack", "Frontend", "Backend", "Mobile", "Data", "Remote", "AI/ML"];
    assert names[4][0] != names[6][0];
  }

  /** What the tags of a converted row are: the category first, exactly the firing rules'
      tags after it, in rule order, with no repeats. */
  lemma TagsShape(e: ParsedJobEntry)
    ensures 1 <= |Tags(e)| <= 1 + |TopicRules|
    ensures Tags(e)[0] == (if IsIntern(e.position) then "Internship" else "New Grad")
    ensures forall k :: 0 <= k < |TopicRules| ==> (TopicRules[k].tag in Tags(e) <==> Fires(TopicRules[k], e))
    ensures IsSubseq(Tags(e)[1..], Names(TopicRules))
    ensures Distinct(Tags(e))
  {
    var tags := Tags(e);
    var topic := tags[1..];
    var names := Names(TopicRules);
    assert TopicRules[..|TopicRules|] == TopicRules;
    TagsAfterSubseq(e, |TopicRules|);
    TopicNamesDistinct();
    SubseqLength(topic, names);
    SubseqOfDistinct(topic, names);
    SubseqMembers(topic, names);
    assert tags == [tags[0]] + topic;
    assert forall k :: 0 <= k < |names| ==> names[k] != tags[0];
    assert tags[0] !in topic;
    forall k | 0 <= k < |TopicRules| ensures TopicRules[k].tag in tags <==> Fires(TopicRules[k], e) {
      var t := TopicRules[k].tag;
      TagsAfterMembers(e, |TopicRules|, t);
      assert t in tags <==> t in topic;
      if j :| 0 <= j < |TopicRules| && TopicRules[j].tag == t && Fires(TopicRules[j], e) {
        assert names[j] == names[k];
      }
    }
    forall i, j | 0 <= i < j < |tags| ensures tags[i] != tags[j] {
      assert tags[j] == topic[j - 1];
      if i > 0 { assert tags[i] == topic[i - 1]; }
    }
  }

  /** The category tag never fails to be there, so the `tags[0] || 'technology'` fallback is
      never taken. */
  function PrimaryTag(tags: seq<string>): (t: string)
    ensures tags != [] && tags[0] != [] ==> t == tags[0]
  {
    if tags != [] && tags[0] != [] then tags[0] else "technology"
  }

  lemma PrimaryTagIsCategory(e: ParsedJobEntry)
    ensures PrimaryTag(Tags(e)) == CategoryTag(e)
    ensures PrimaryTag(Tags(e)) != "technology"
  {
  }

  // ---------------------------------------------------------------------------------------
  // Requirements.

  /** The four lines every internship gets. */
  const InternBaseline: seq<string> := [
    "Currently pursuing a degree in Computer Science, Engineering, or related field",
    "Strong programming fundamentals in one or more languages",
    "Passion for learning new technologies and solving complex problems",
    "Excellent communication and teamwork skills"
  ]

  /** The four lines every new-graduate position gets. */
  const GraduateBaseline: seq<string> := [
    "Bachelor's degree in Computer Science, Engineering, or equivalent experience",
    "Strong programming skills in modern languages (Python, Java, JavaScript, etc.)",
    "0-2 years of professional software development experience",
    "Understanding of software engineering best practices"
  ]

  const FrontendLines: seq<string> := [
    "Experience with modern frontend frameworks (React, Angular, Vue)",
    "Knowledge of HTML, CSS, and JavaScript"
  ]
  const BackendLines: seq<string> := [
    "Experience with backend technologies and databases",
    "Understanding of RESTful APIs and microservices"
  ]
  const FullStackLines: seq<string> := [
    "Experience with both frontend and backend technologies",
    "Knowledge of web development best practices"
  ]
  const MobileLines: seq<string> := [
    "Experience with mobile development frameworks",
    "Understanding of mobile app design principles"
  ]
  const GeneralLines: seq<string> := [
    "Experience with relevant programming languages and frameworks",
    "Strong problem-solving and analytical skills"
  ]

  /** The role branches of the requirements chain, in the order it tries them: the
      expression tested and the two lines it adds. */
  const RoleChecks: seq<seq<Pattern>> := [FrontendRe, BackendRe, FullStackRe, MobileRe]
  const RoleLines: seq<seq<string>> := [FrontendLines, BackendLines, FullStackLines, MobileLines]

  /** The index in `res` of the first expression that matches `position`, or |res|. */
  function FirstMatch(position: string, res: seq<seq<Pattern>>, from: nat): (k: nat)
    requires from <= |res|
    ensures from <= k <= |res|
    ensures k < |res| ==> Test(position, res[k])
    ensures forall j :: from <= j < k ==> !Test(position, res[j])
    decreases |res| - from
  {
    if from == |res| || Test(position, res[from]) then from
    else FirstMatch(position, res, from + 1)
  }

  function Baseline(isIntern: bool): (reqs: seq<string>) {
    if isIntern then InternBaseline else GraduateBaseline
  }

  /** The lines of the branch the if/else-if chain takes. */
  function RoleRequirements(position: string): seq<string> {
    var k := FirstMatch(position, RoleChecks, 0);
    if k < |RoleLines| then RoleLines[k] else GeneralLines
  }

  function Requirements(position: string, isIntern: bool): seq<string> {
    Baseline(isIntern) + RoleRequirements(position)
  }

  /** RoleRequirements agrees with the chain of tests the code writes out. */
  lemma RoleRequirementsChain(position: string)
    ensures RoleRequirements(position) ==
              if Test(position, FrontendRe) then FrontendLines
              else if Test(position, BackendRe) then BackendLines
              else if Test(position, FullStackRe) then FullStackLines
              else if Test(position, MobileRe) then MobileLines
              else GeneralLines
  {
    var k := FirstMatch(position, RoleChecks, 0);
    assert RoleChecks[0] == FrontendRe && RoleChecks[1] == BackendRe;
    assert RoleChecks[2] == FullStackRe && RoleChecks[3] == MobileRe;
    if k == 4 {
      assert !Test(position, RoleChecks[0]) && !Test(position, RoleChecks[1]);
      assert !Test(position, RoleChecks[2]) && !Test(position, RoleChecks[3]);
    }
  }

  /** getJobRequirements: four baseline lines by level, then two lines for the first role
      whose expression matches the title. */
  method GetJobRequirements(position: string, isIntern: bool) returns (reqs: seq<string>)
    ensures reqs == Requirements(position, isIntern)
  {
    reqs := [];
    if isIntern {
      reqs := reqs + InternBaseline;
    } else {
      reqs := reqs + GraduateBaseline;
    }
    if Test(position, FrontendRe) {
      reqs := reqs + FrontendLines;
    } else if Test(position, BackendRe) {
      reqs := reqs + BackendLines;
    } else if Test(position, FullStackRe) {
      reqs := reqs + FullStackLines;
    } else if Test(position, MobileRe) {
      reqs := reqs + MobileLines;
    } else {
      reqs := reqs + GeneralLines;
    }
    RoleRequirementsChain(position);
  }

  /** Six lines: the level's four, then two lines of exactly one role; a title that matches
      several roles gets the lines of the first one tested, and the general lines only when
      none matches. */
  lemma RequirementsShape(position: string, isIntern: bool)
    ensures |Requirements(position, isIntern)| == 6
    ensures Requirements(position, isIntern)[..4] == (if isIntern then InternBaseline else GraduateBaseline)
    ensures var k := FirstMatch(position, RoleChecks, 0);
            && (k < 4 ==> Test(position, RoleChecks[k]) && Requirements(position, isIntern)[4..] == RoleLines[k])
            && (forall j :: 0 <= j < k ==> !Test(position, RoleChecks[j]))
            && (k == 4 <==> Requirements(position, isIntern)[4..] == GeneralLines)
  {
    var r := Requirements(position, isIntern);
    var k := FirstMatch(position, RoleChecks, 0);
    assert r[..4] == Baseline(isIntern);
    assert r[4..] == RoleRequirements(position);
    if k < 4 {
      var lines := RoleLines[k];
      assert |GeneralLines[1]| == 44;
      if k == 0 {
        assert lines == FrontendLines;
      } else if k == 1 {
        assert lines == BackendLines;
      } else if k == 2 {
        assert lines == FullStackLines;
      } else {
        assert lines == MobileLines;
      }
      assert |lines[1]| != 44;
    }
  }

  // ---------------------------------------------------------------------------------------
  // Descriptions.

  /** A description template: the text before the company name and the text after it. */
  datatype Template = Template(lead: string, trail: string)

  function Fill(t: Template, company: string): (s: string)
    ensures |s| == |t.lead| + |company| + |t.trail|
    ensures s[|t.lead|..|t.lead| + |company|] == company
  {
    t.lead + company + t.trail
  }

  const LookingFor: string := " is looking for talented "

  const JobTrail0: string := " and work on innovative software solutions that impact millions of users. You'll collaborate with experienced engineers, contribute to high-quality code, and learn cutting-edge technologies in a fast-paced environment."
  const JobTrail1: string := " to join our dynamic team. You'll work on scalable systems, participate in code reviews, and contribute to products that shape the future of technology."
  const JobTrail2: string := "'s mission to revolutionize the industry through technology. This role offers hands-on experience with modern development practices, mentorship from senior engineers, and the opportunity to make a real impact."
  const JobTrail3: string := " offers an exciting opportunity to work on challenging problems with a team of passionate engineers. You'll develop your skills in software engineering while contributing to products used by thousands of customers."
  const JobTrail4: string := " and help build the next generation of software products. You'll work in an agile environment, collaborate with cross-functional teams, and gain valuable experience in enterprise-level software development."

  /** `isIntern ? 'interns' : 'engineers'` */
  function Audience(isIntern: bool): string {
    if isIntern then "interns" else "engineers"
  }

  /** The five job-description templates; only the second depends on the level. */
  function JobTemplate(k: TemplateIndex, isIntern: bool): Template
  {
    if k == 0 then Template("Join ", JobTrail0)
    else if k == 1 then Template("", LookingFor + Audience(isIntern) + JobTrail1)
    else if k == 2 then Template("Be part of ", JobTrail2)
    else if k == 3 then Template("", JobTrail3)
    else Template("Join ", JobTrail4)
  }

  /** The text of a job description. */
  function JobText(b: JobBlurb): string {
    Fill(JobTemplate(b.template, b.isIntern), b.company)
  }

  /** The choice getJobDescription makes: the template picked by the length of the company
      name. The title is passed but not used. */
  function JobBlurbOf(company: string, position: string, isIntern: bool): JobBlurb {
    JobBlurb(|company| % 5, company, isIntern)
  }

  /** getJobDescription. */
  function JobDescription(company: string, position: string, isIntern: bool): string {
    JobText(JobBlurbOf(company, position, isIntern))
  }

  const CompanyTypes: seq<string> := [
    "innovative technology company",
    "leading software company",
    "fast-growing startup",
    "established tech leader",
    "cutting-edge technology firm"
  ]

  const CompanyTrail0: string := " focused on delivering exceptional software solutions. We're committed to fostering innovation, supporting our team's growth, and creating products that make a difference."
  const CompanyTrail1: string := ", we believe in the power of technology to transform industries. Our team of talented engineers works on challenging problems while maintaining a culture of collaboration, learning, and excellence."
  const CompanyTrail2: string := " combines technical excellence with a mission-driven approach to software development. We offer a supportive environment where engineers can grow their skills and contribute to meaningful projects."
  const CompanyTrail3: string := " and be part of a company that values innovation, quality, and teamwork. We're building the future of technology while providing our team with opportunities for professional development and career growth."
  const CompanyTrail4: string := " is dedicated to creating world-class software products through cutting-edge technology and engineering best practices. We foster an inclusive environment where creativity and technical excellence thrive."

  /** The five company-description templates; the first names a kind of company, chosen by
      the length of the name. */
  function CompanyTemplate(k: TemplateIndex, company: string): Template
  {
    if k == 0 then Template("", " is an " + CompanyTypes[|company| % 5] + CompanyTrail0)
    else if k == 1 then Template("At ", CompanyTrail1)
    else if k == 2 then Template("", CompanyTrail2)
    else if k == 3 then Template("Join ", CompanyTrail3)
    else Template("", CompanyTrail4)
  }

  /** The text of a company description. */
  function CompanyText(b: CompanyBlurb): string {
    Fill(CompanyTemplate(b.template, b.company), b.company)
  }

  /** The choice getCompanyDescription makes: the template picked by the lengths of the
      company name and the primary tag. */
  function CompanyBlurbOf(company: string, primaryTag: string): CompanyBlurb {
    CompanyBlurb((|company| + |primaryTag|) % 5, company)
  }

  /** getCompanyDescription. */
  function CompanyDescription(company: string, primaryTag: string): string {
    CompanyText(CompanyBlurbOf(company, primaryTag))
  }

  /** Every job description names the company. */
  lemma JobDescriptionNamesCompany(company: string, position: string, isIntern: bool)
    ensures Contains(JobDescription(company, position, isIntern), company)
  {
    var t := JobTemplate(|company| % 5, isIntern);
    ContainsInfix(t.lead, company, t.trail);
  }

  /** Every company description names the company. */
  lemma CompanyDescriptionNamesCompany(company: string, primaryTag: string)
    ensures Contains(CompanyDescription(company, primaryTag), company)
  {
    var t := CompanyTemplate((|company| + |primaryTag|) % 5, company);
    ContainsInfix(t.lead, company, t.trail);
  }

  /** The level changes the job description exactly when the length of the company name
      leaves remainder 1 modulo 5: the one template that says `interns` or `engineers`. */
  lemma LevelChangesOnlySecondTemplate(company: string, position: string)
    ensures JobDescription(company, position, true) == JobDescription(company, position, false)
            <==> |company| % 5 != 1
  {
    if |company| % 5 == 1 {
      var a := JobDescription(company, position, true);
      var b := JobDescription(company, position, false);
      var n := |company| + |LookingFor|;
      assert a == company + (LookingFor + "interns" + JobTrail1);
      assert b == company + (LookingFor + "engineers" + JobTrail1);
      assert a[n] == 'i';
      assert b[n] == 'e';
    }
  }

  // ---------------------------------------------------------------------------------------
  // Conversion.

  /** `github-${index}-${Date.now()}` */
  function JobId(index: nat, millis: nat): string {
    "github-" + NatToString(index) + "-" + NatToString(millis)
  }

  /** The index of the first `-` in `s` at or after `from`, or |s|. */
  function DashFrom(s: string, from: nat): (n: nat)
    requires from <= |s|
    ensures from <= n <= |s|
    ensures forall i :: from <= i < n ==> s[i] != '-'
    ensures n < |s| ==> s[n] == '-'
    decreases |s| - from
  {
    if from == |s| || s[from] == '-' then from else DashFrom(s, from + 1)
  }

  /** A run of digits followed by `-` is recovered by cutting at the first `-`. */
  lemma DigitsThenDash(x: string, y: string, x': string, y': string)
    requires forall k :: 0 <= k < |x| ==> IsDigit(x[k])
    requires forall k :: 0 <= k < |x'| ==> IsDigit(x'[k])
    requires x + "-" + y == x' + "-" + y'
    ensures x == x' && y == y'
  {
    var s := x + "-" + y;
    var s' := x' + "-" + y';
    var n := DashFrom(s, 0);
    assert s[|x|] == '-' && s'[|x'|] == '-';
    assert forall k :: 0 <= k < |x| ==> s[k] == x[k];
    assert forall k :: 0 <= k < |x'| ==> s'[k] == x'[k];
    assert n == |x| && n == |x'|;
    assert x == s[..n] == x';
    assert y == s[n + 1..] == y';
  }

  /** Two ids are equal only for the same index and the same clock reading. */
  lemma JobIdInjective(i: nat, a: nat, j: nat, b: nat)
    requires JobId(i, a) == JobId(j, b)
    ensures i == j && a == b
  {
    var p := "github-";
    var s := JobId(i, a);
    assert s == p + (NatToString(i) + "-" + NatToString(a));
    assert s == p + (NatToString(j) + "-" + NatToString(b));
    assert s[|p|..] == NatToString(i) + "-" + NatToString(a);
    assert s[|p|..] == NatToString(j) + "-" + NatToString(b);
    DigitsThenDash(NatToString(i), NatToString(a), NatToString(j), NatToString(b));
    NatToStringInjective(i, j);
    NatToStringInjective(a, b);
  }

  /** The map callback for the row at `index`. `idMillis` and `postedMillis` are the two clock
      readings it takes (for the id and for `postedDate`). */
  function ConvertJob(e: ParsedJobEntry, index: nat, idMillis: nat, postedMillis: int): Job {
    var isIntern := IsIntern(e.position);
    var tags := Tags(e);
    Job(JobId(index, idMillis), e.position, e.company, e.location,
        if isIntern then Intern else FullTime,
        JobBlurbOf(e.company, e.position, isIntern),
        Requirements(e.position, isIntern),
        tags, e.salary, None, postedMillis,
        Some(CompanyBlurbOf(e.company, PrimaryTag(tags))))
  }

  /** convertToJobFormat: one job per row, in order; job `i` takes the i-th clock readings. */
  function ConvertToJobFormat(parsed: seq<ParsedJobEntry>, idClock: seq<nat>, postedClock: seq<int>): (jobs: seq<Job>)
    requires |idClock| == |parsed| && |postedClock| == |parsed|
    ensures |jobs| == |parsed|
    ensures forall i :: 0 <= i < |parsed| ==> jobs[i] == ConvertJob(parsed[i], i, idClock[i], postedClock[i])
  {
    seq(|parsed|, i requires 0 <= i < |parsed| => ConvertJob(parsed[i], i, idClock[i], postedClock[i]))
  }

  /** What conversion keeps and what it derives: the row's company, title, location and
      salary carry over; the type is `intern` exactly when the title contains `intern` in any
      letter case, and then the first tag is `Internship`, otherwise `New Grad`. */
  lemma ConvertedJob(e: ParsedJobEntry, index: nat, idMillis: nat, postedMillis: int)
    ensures var j := ConvertJob(e, index, idMillis, postedMillis);
      && j.company == e.company && j.title == e.position && j.location == e.location && j.salary == e.salary
      && j.postedDate == postedMillis && j.logo == None
      && (j.jobType == Intern <==> Search(e.position, Lit("intern")))
      && (j.jobType == Intern || j.jobType == FullTime)
      && j.tags[0] == (if j.jobType == Intern then "Internship" else "New Grad")
  {
    InternMeansContainsIntern(e.position);
    assert Tags(e)[0] == CategoryTag(e);
  }

  /** A converted job's description is the text getJobDescription gives for its company,
      title and level. */
  lemma ConvertedJobDescription(e: ParsedJobEntry, index: nat, idMillis: nat, postedMillis: int)
    ensures var j := ConvertJob(e, index, idMillis, postedMillis);
      && JobText(j.description) == JobDescription(e.company, e.position, j.jobType == Intern)
      && Contains(JobText(j.description), e.company)
  {
    JobDescriptionNamesCompany(e.company, e.position, IsIntern(e.position));
  }

  /** A converted job's company description is the text getCompanyDescription gives for its
      company and primary tag, whose template is the name's length plus 10 for an internship
      and plus 8 otherwise, modulo 5. */
  lemma ConvertedCompanyDescription(e: ParsedJobEntry, index: nat, idMillis: nat, postedMillis: int)
    ensures var j := ConvertJob(e, index, idMillis, postedMillis);
      && j.companyDescription.Some?
      && CompanyText(j.companyDescription.value) == CompanyDescription(e.company, PrimaryTag(j.tags))
      && j.companyDescription.value.template == (|e.company| + if j.jobType == Intern then 10 else 8) % 5
      && Contains(CompanyText(j.companyDescription.value), e.company)
  {
    PrimaryTagIsCategory(e);
    CompanyDescriptionNamesCompany(e.company, PrimaryTag(Tags(e)));
    assert |CategoryTag(e)| == if IsIntern(e.position) then 10 else 8;
  }

  /** Within one conversion no two jobs share an id, whatever the clock readings. */
  lemma ConvertedIdsDistinct(parsed: seq<ParsedJobEntry>, idClock: seq<nat>, postedClock: seq<int>)
    requires |idClock| == |parsed| && |postedClock| == |parsed|
    ensures var jobs := ConvertToJobFormat(parsed, idClock, postedClock);
            forall i, j :: 0 <= i < j < |jobs| ==> jobs[i].id != jobs[j].id
  {
    var jobs := ConvertToJobFormat(parsed, idClock, postedClock);
    forall i, j | 0 <= i < j < |jobs| ensures jobs[i].id != jobs[j].id {
      if jobs[i].id == jobs[j].id {
        JobIdInjective(i, idClock[i], j, idClock[j]);
      }
    }
  }
}
