/**
 * The `create` command of the command line: the feature choices offered
 * for each project type, the questions asked, how the answers are merged
 * with the command-line arguments, and the configuration and options
 * handed to the scaffold. Prompting, the argument parser and `path.resolve`
 * are not part of this model: the answers, the parsed flags and the
 * resolution of a path are parameters.
 */
module Cli {
  import opened Results
  import opened FileSystem
  import opened Config
  import Render
  import Validator
  import Scaffold

  // ---------------------------------------------------------------------
  // getFeatureChoices
  // ---------------------------------------------------------------------

  datatype FeatureChoice = FeatureChoice(name: string, value: string)

  /** The features offered for every project type. */
  const CommonFeatures: seq<FeatureChoice> := [
    FeatureChoice("TypeScript", "typescript"),
    FeatureChoice("ESLint", "eslint"),
    FeatureChoice("Prettier", "prettier"),
    FeatureChoice("Testing (Jest/Vitest)", "testing"),
    FeatureChoice("GitHub Actions", "github-actions")]

  const WebappFeatures: seq<FeatureChoice> := [
    FeatureChoice("React", "react"),
    FeatureChoice("Vue", "vue"),
    FeatureChoice("Tailwind CSS", "tailwind"),
    FeatureChoice("PWA Support", "pwa")]

  const ApiFeatures: seq<FeatureChoice> := [
    FeatureChoice("Express", "express"),
    FeatureChoice("Fastify", "fastify"),
    FeatureChoice("Database (PostgreSQL)", "postgres"),
    FeatureChoice("Database (MongoDB)", "mongodb"),
    FeatureChoice("Authentication", "auth"),
    FeatureChoice("API Documentation", "api-docs")]

  const CliFeatures: seq<FeatureChoice> := [
    FeatureChoice("Interactive Prompts", "prompts"),
    FeatureChoice("Progress Bars", "progress"),
    FeatureChoice("Colored Output", "colors")]

  /** getFeatureChoices: the common features, then those of the type, if it has any. */
  function GetFeatureChoices(projectType: ProjectType): seq<FeatureChoice> {
    match projectType
    case Webapp => CommonFeatures + WebappFeatures
    case Api => CommonFeatures + ApiFeatures
    case Cli => CommonFeatures + CliFeatures
    case _ => CommonFeatures
  }

  /** The extra features of a type. */
  function ExtraFeatures(projectType: ProjectType): seq<FeatureChoice> {
    match projectType
    case Webapp => WebappFeatures
    case Api => ApiFeatures
    case Cli => CliFeatures
    case _ => []
  }

  /** The values of a list of choices. */
  function FeatureValues(choices: seq<FeatureChoice>): (vs: seq<string>)
    ensures |vs| == |choices| && forall i | 0 <= i < |choices| :: vs[i] == choices[i].value
  {
    if choices == [] then [] else [choices[0].value] + FeatureValues(choices[1..])
  }

  /**
   * Every type is offered the five common features first, followed by the
   * extras of its type: React, Vue, Tailwind and PWA for a web
   * application; Express, Fastify, the two databases, authentication and
   * API documentation for an API; prompts, progress bars and colours for a
   * command-line tool; nothing more for the other types.
   */
  lemma FeatureChoicesShape(projectType: ProjectType)
    ensures |GetFeatureChoices(projectType)| == 5 + |ExtraFeatures(projectType)|
    ensures GetFeatureChoices(projectType)[..5] == CommonFeatures
    ensures GetFeatureChoices(projectType)[5..] == ExtraFeatures(projectType)
    ensures !(projectType in {Webapp, Api, Cli}) ==> GetFeatureChoices(projectType) == CommonFeatures
  {
    var choices := GetFeatureChoices(projectType);
    assert choices == CommonFeatures + ExtraFeatures(projectType);
  }

  /** The feature values offered for a type are distinct. */
  lemma FeatureValuesDistinct(projectType: ProjectType)
    ensures Distinct(FeatureValues(GetFeatureChoices(projectType)))
  {
    var common := CommonValues();
    FeatureValuesConcat(CommonFeatures, ExtraFeatures(projectType));
    FeatureChoicesShape(projectType);
    var extra := ExtraValues(projectType);
    DistinctConcat(common, extra);
  }

  /** The values of the common features, which are distinct. */
  lemma CommonValues() returns (vs: seq<string>)
    ensures vs == FeatureValues(CommonFeatures) && Distinct(vs)
    ensures vs == ["typescript", "eslint", "prettier", "testing", "github-actions"]
  {
    vs := FeatureValues(CommonFeatures);
    assert vs == ["typescript", "eslint", "prettier", "testing", "github-actions"];
    NewValues(vs, []);
  }

  /** The values of a type's extra features: distinct, and none of them a common one. */
  lemma ExtraValues(projectType: ProjectType) returns (vs: seq<string>)
    ensures vs == FeatureValues(ExtraFeatures(projectType)) && Distinct(vs)
    ensures forall i | 0 <= i < |vs| :: vs[i] !in ["typescript", "eslint", "prettier", "testing", "github-actions"]
  {
    vs := FeatureValues(ExtraFeatures(projectType));
    var common := ["typescript", "eslint", "prettier", "testing", "github-actions"];
    match projectType
    case Webapp =>
      assert vs == ["react", "vue", "tailwind", "pwa"];
      NewValues(vs, common);
    case Api =>
      assert vs == ["express", "fastify", "postgres", "mongodb", "auth", "api-docs"];
      NewValues(vs, common);
    case Cli =>
      assert vs == ["prompts", "progress", "colors"];
      NewValues(vs, common);
    case _ =>
  }

  /** One of the lists of feature values is distinct and shares nothing with `taken`, the common values or none. */
  lemma NewValues(vs: seq<string>, taken: seq<string>)
    requires vs in [["typescript", "eslint", "prettier", "testing", "github-actions"],
                    ["react", "vue", "tailwind", "pwa"],
                    ["express", "fastify", "postgres", "mongodb", "auth", "api-docs"],
                    ["prompts", "progress", "colors"]]
    requires taken == [] || (taken == ["typescript", "eslint", "prettier", "testing", "github-actions"] && vs != taken)
    ensures Distinct(vs)
    ensures forall i | 0 <= i < |vs| :: vs[i] !in taken
  {
  }

  lemma {:induction false} FeatureValuesConcat(a: seq<FeatureChoice>, b: seq<FeatureChoice>)
    ensures FeatureValues(a + b) == FeatureValues(a) + FeatureValues(b)
  {
    if a != [] {
      assert (a + b)[1..] == a[1..] + b;
      FeatureValuesConcat(a[1..], b);
    }
  }

  /** Two distinct lists with nothing in common make a distinct list. */
  lemma DistinctConcat(a: seq<string>, b: seq<string>)
    requires Distinct(a) && Distinct(b)
    requires forall i | 0 <= i < |b| :: b[i] !in a
    ensures Distinct(a + b)
  {
    var s := a + b;
    forall i, j | 0 <= i < j < |s| ensures s[i] != s[j] {
      if j >= |a| && i < |a| {
        assert s[j] == b[j - |a|] && s[i] == a[i];
      }
    }
  }

  // ---------------------------------------------------------------------
  // promptProjectDetails
  // ---------------------------------------------------------------------

  /** The answer each question fills in. */
  datatype Field = ProjectNameField | DescriptionField | AuthorField | LicenseField
                 | ProjectTypeField | FeaturesField | SkipInstallField | SkipGitField

  datatype QuestionKind = InputQuestion | ListQuestion | CheckboxQuestion | ConfirmQuestion

  datatype Question = Question(field: Field, kind: QuestionKind)

  /** JavaScript truthiness of an optional string: present and not empty. */
  predicate Given(s: Option<string>) {
    s.Some? && s.value != ""
  }

  /** `a || b` on optional strings. */
  function Or(a: Option<string>, b: Option<string>): Option<string> {
    if Given(a) then a else b
  }

  /** The questions promptProjectDetails asks, in order. */
  function QuestionsFor(projectName: Option<string>, optionType: Option<string>): seq<Question> {
    (if Given(projectName) then [] else [Question(ProjectNameField, InputQuestion)])
    + [Question(DescriptionField, InputQuestion), Question(AuthorField, InputQuestion), Question(LicenseField, ListQuestion)]
    + (if Given(optionType) then [] else [Question(ProjectTypeField, ListQuestion)])
    + [Question(FeaturesField, CheckboxQuestion), Question(SkipInstallField, ConfirmQuestion), Question(SkipGitField, ConfirmQuestion)]
  }

  function Fields(questions: seq<Question>): (fs: seq<Field>)
    ensures |fs| == |questions| && forall i | 0 <= i < |questions| :: fs[i] == questions[i].field
  {
    if questions == [] then [] else [questions[0].field] + Fields(questions[1..])
  }

  /** The question list built by promptProjectDetails. */
  method BuildQuestions(projectName: Option<string>, optionType: Option<string>) returns (questions: seq<Question>)
    ensures questions == QuestionsFor(projectName, optionType)
  {
    questions := [];
    if !Given(projectName) {
      questions := questions + [Question(ProjectNameField, InputQuestion)];
    }
    questions := questions + [Question(DescriptionField, InputQuestion), Question(AuthorField, InputQuestion), Question(LicenseField, ListQuestion)];
    if !Given(optionType) {
      questions := questions + [Question(ProjectTypeField, ListQuestion)];
    }
    questions := questions + [Question(FeaturesField, CheckboxQuestion), Question(SkipInstallField, ConfirmQuestion), Question(SkipGitField, ConfirmQuestion)];
  }

  /**
   * The name is asked exactly when no name argument was given, the type
   * exactly when the type option is empty; the other six questions are
   * always asked, and no question is asked twice.
   */
  lemma QuestionsAsked(projectName: Option<string>, optionType: Option<string>)
    ensures ProjectNameField in Fields(QuestionsFor(projectName, optionType)) <==> !Given(projectName)
    ensures ProjectTypeField in Fields(QuestionsFor(projectName, optionType)) <==> !Given(optionType)
    ensures var fields := Fields(QuestionsFor(projectName, optionType));
      && DescriptionField in fields && AuthorField in fields && LicenseField in fields
      && FeaturesField in fields && SkipInstallField in fields && SkipGitField in fields
  {
    FieldsOfQuestions(projectName, optionType);
    AskedFieldsMembers(!Given(projectName), !Given(optionType));
  }

  /** No question is asked twice. */
  lemma QuestionsDistinct(projectName: Option<string>, optionType: Option<string>)
    ensures Distinct(Fields(QuestionsFor(projectName, optionType)))
  {
    FieldsOfQuestions(projectName, optionType);
    var fields := AskedFields(!Given(projectName), !Given(optionType));
    forall i | 0 < i < |fields| ensures Rank(fields[i - 1]) < Rank(fields[i]) {
    }
    AscendingDistinct(fields);
  }

  /** The fields of the questions: the fixed six, with the name first and the type after the licence when asked. */
  function AskedFields(askName: bool, askType: bool): seq<Field> {
    (if askName then [ProjectNameField] else []) + [DescriptionField, AuthorField, LicenseField]
    + (if askType then [ProjectTypeField] else []) + [FeaturesField, SkipInstallField, SkipGitField]
  }

  lemma AskedFieldsMembers(askName: bool, askType: bool)
    ensures var fields := AskedFields(askName, askType);
      && (ProjectNameField in fields <==> askName)
      && (ProjectTypeField in fields <==> askType)
      && DescriptionField in fields && AuthorField in fields && LicenseField in fields
      && FeaturesField in fields && SkipInstallField in fields && SkipGitField in fields
  {
  }

  lemma FieldsOfQuestions(projectName: Option<string>, optionType: Option<string>)
    ensures Fields(QuestionsFor(projectName, optionType)) == AskedFields(!Given(projectName), !Given(optionType))
  {
  }

  /** The position of each question in the full list. */
  function Rank(f: Field): nat {
    match f
    case ProjectNameField => 0
    case DescriptionField => 1
    case AuthorField => 2
    case LicenseField => 3
    case ProjectTypeField => 4
    case FeaturesField => 5
    case SkipInstallField => 6
    case SkipGitField => 7
  }

  /** Fields in strictly ascending rank are distinct. */
  lemma {:induction false} AscendingDistinct(s: seq<Field>)
    requires forall i | 0 < i < |s| :: Rank(s[i - 1]) < Rank(s[i])
    ensures forall i, j | 0 <= i < j < |s| :: Rank(s[i]) < Rank(s[j])
    ensures Distinct(s)
  {
    if |s| > 1 {
      var rest := s[1..];
      forall i | 0 < i < |rest| ensures Rank(rest[i - 1]) < Rank(rest[i]) {
        assert rest[i - 1] == s[i] && rest[i] == s[i + 1];
      }
      AscendingDistinct(rest);
      forall i, j | 0 <= i < j < |s| ensures Rank(s[i]) < Rank(s[j]) {
        if i > 0 {
          assert s[i] == rest[i - 1] && s[j] == rest[j - 1];
        } else if j > 1 {
          assert s[1] == rest[0] && s[j] == rest[j - 1];
        }
      }
    }
  }

  /** The parsed options of `create`; a flag that is not given reads as false. */
  datatype CreateFlags = CreateFlags(
    projectType: Option<string>,
    path: Option<string>,
    skipInstall: bool,
    skipGit: bool,
    verbose: bool)

  /** The `--type` option as the argument parser hands it over: `webapp` unless given. */
  function TypeOption(typeArgument: Option<string>): Option<string> {
    Some(typeArgument.GetOr("webapp"))
  }

  /** Because of the option's default, the type is asked only when `--type ""` is passed. */
  lemma TypeAskedOnlyForEmptyOption(projectName: Option<string>, typeArgument: Option<string>)
    ensures ProjectTypeField in Fields(QuestionsFor(projectName, TypeOption(typeArgument))) <==> typeArgument == Some("")
  {
    QuestionsAsked(projectName, TypeOption(typeArgument));
  }

  /** What the prompt returns: a value for each question asked, and nothing for the others. */
  datatype Answers = Answers(
    projectName: Option<string>,
    description: Option<string>,
    author: Option<string>,
    license: Option<string>,
    projectType: Option<string>,
    features: Option<seq<string>>,
    skipInstall: Option<bool>,
    skipGit: Option<bool>)

  predicate Answered(answers: Answers, f: Field) {
    match f
    case ProjectNameField => answers.projectName.Some?
    case DescriptionField => answers.description.Some?
    case AuthorField => answers.author.Some?
    case LicenseField => answers.license.Some?
    case ProjectTypeField => answers.projectType.Some?
    case FeaturesField => answers.features.Some?
    case SkipInstallField => answers.skipInstall.Some?
    case SkipGitField => answers.skipGit.Some?
  }

  /** The answers hold exactly the fields of the questions asked. */
  predicate AnswersTo(questions: seq<Question>, answers: Answers) {
    forall f: Field :: Answered(answers, f) <==> f in Fields(questions)
  }

  /**
   * The object promptProjectDetails returns: the name argument or else the
   * answered name, overwritten by every answer given, and the answered type
   * or else the type option.
   */
  function PromptResult(projectName: Option<string>, optionType: Option<string>, answers: Answers): Answers {
    var name := if answers.projectName.Some? then answers.projectName
                else if Given(projectName) then projectName else None;
    answers.(projectName := name, projectType := Or(answers.projectType, optionType))
  }

  /**
   * For answers to the questions asked, the name is the argument when one
   * was given and the answer otherwise, and the type is the option when it
   * was given and the answer otherwise.
   */
  lemma PromptMerge(projectName: Option<string>, optionType: Option<string>, answers: Answers)
    requires AnswersTo(QuestionsFor(projectName, optionType), answers)
    ensures var r := PromptResult(projectName, optionType, answers);
      && r.projectName == (if Given(projectName) then projectName else answers.projectName)
      && (Given(optionType) ==> r.projectType == optionType)
      && (!Given(optionType) && Given(answers.projectType) ==> r.projectType == answers.projectType)
      && r.description == answers.description && r.author == answers.author && r.license == answers.license
  {
    QuestionsAsked(projectName, optionType);
    assert Answered(answers, ProjectNameField) <==> !Given(projectName);
    assert Answered(answers, ProjectTypeField) <==> !Given(optionType);
  }

  /** The type the features question reads its choices for: the answered type, or else the option. */
  function OfferedFeatures(answers: Answers, optionType: Option<string>): seq<FeatureChoice> {
    GetFeatureChoices(ParseType(Or(answers.projectType, optionType).GetOr("")))
  }

  // ---------------------------------------------------------------------
  // The configuration and the scaffold options
  // ---------------------------------------------------------------------

  /**
   * The configuration `create` builds from the merged answers. An absent
   * type becomes the type of the empty string, which no switch matches and
   * which, being falsy like `undefined`, leaves `{{projectType}}` in place.
   */
  function AssembleConfig(details: Answers): Config.R3Config {
    Config.R3Config(
      details.projectName.GetOr(""),
      "0.1.0",
      details.description,
      details.author,
      details.license,
      ParseType(details.projectType.GetOr("")),
      details.features.GetOr([]))
  }

  /**
   * The configuration copies the merged answers: a missing name becomes the
   * empty name, missing features become none, and a missing type parses as
   * the empty string; the version is always 0.1.0.
   */
  lemma ConfigDefaults(details: Answers)
    ensures var c := AssembleConfig(details);
      && c.version == "0.1.0"
      && c.name == (if details.projectName.Some? then details.projectName.value else "")
      && c.features == (if details.features.Some? then details.features.value else [])
      && TypeValue(c.projectType) == (if details.projectType.Some? then details.projectType.value else "")
      && c.description == details.description && c.author == details.author && c.license == details.license
  {
  }

  /** The project path as written: the merged answers never hold a path, so the name decides it. */
  function ProjectPathAsWritten(resolve: string -> Path, flags: CreateFlags, details: Answers): Path {
    resolve("./" + details.projectName.GetOr("undefined"))
  }

  /** The `--path` option never reaches the project path. */
  lemma PathOptionIgnored(resolve: string -> Path, flags: CreateFlags, details: Answers, p: string)
    ensures ProjectPathAsWritten(resolve, flags.(path := Some(p)), details) == ProjectPathAsWritten(resolve, flags.(path := None), details)
  {
  }

  /** `r3 create foo --path /tmp/x` creates the project at `./foo`, not at `/tmp/x`. */
  lemma PathOptionExample()
    ensures var resolve := (s: string) => [s];
      var flags := CreateFlags(Some("webapp"), Some("/tmp/x"), false, false, false);
      var details := Answers(Some("foo"), None, None, None, Some("webapp"), None, None, None);
      && ProjectPathAsWritten(resolve, flags, details) == ["./foo"]
      && ProjectPath(resolve, flags, details) == ["/tmp/x"]
  {
    assert "./" + "foo" == "./foo";
  }

  /** The project path: the `--path` option when given, else `./<name>`, resolved. */
  function ProjectPath(resolve: string -> Path, flags: CreateFlags, details: Answers): Path {
    resolve(if Given(flags.path) then flags.path.value else "./" + details.projectName.GetOr("undefined"))
  }

  /** A given `--path` decides the project path; without it the path is the name's. */
  lemma PathOptionHonoured(resolve: string -> Path, flags: CreateFlags, details: Answers)
    ensures Given(flags.path) ==> ProjectPath(resolve, flags, details) == resolve(flags.path.value)
    ensures !Given(flags.path) ==> ProjectPath(resolve, flags, details) == ProjectPathAsWritten(resolve, flags, details)
  {
  }

  /** The scaffold options `create` hands over. */
  function AssembleOptions(resolve: string -> Path, flags: CreateFlags, details: Answers): Scaffold.ScaffoldOptions {
    Scaffold.ScaffoldOptions(
      details.projectName.GetOr(""),
      ProjectPath(resolve, flags, details),
      AssembleConfig(details),
      flags.skipInstall || details.skipInstall.GetOr(false),
      flags.skipGit || details.skipGit.GetOr(false),
      flags.verbose)
  }

  /** Everything `create` derives from its arguments and the answers to its questions. */
  function CreateOptions(resolve: string -> Path, projectName: Option<string>, flags: CreateFlags, answers: Answers): Scaffold.ScaffoldOptions {
    AssembleOptions(resolve, flags, PromptResult(projectName, flags.projectType, answers))
  }

  /**
   * For answers to the questions asked: the version is always 0.1.0; the
   * project is named after the argument when one was given; configuration
   * and options agree on the name; the features question is always answered
   * and its answer is the configuration's feature list; a step is skipped
   * when its flag is set or the answer says so; and the features offered
   * are those of the type that ends up in the configuration.
   */
  lemma CreateOptionsFacts(resolve: string -> Path, projectName: Option<string>, flags: CreateFlags, answers: Answers)
    requires AnswersTo(QuestionsFor(projectName, flags.projectType), answers)
    ensures var o := CreateOptions(resolve, projectName, flags, answers);
      && o.config.version == "0.1.0"
      && o.config.name == o.projectName
      && (Given(projectName) ==> o.projectName == projectName.value)
      && answers.features.Some? && o.config.features == answers.features.value
      && (o.skipInstall <==> flags.skipInstall || answers.skipInstall == Some(true))
      && (o.skipGit <==> flags.skipGit || answers.skipGit == Some(true))
      && OfferedFeatures(answers, flags.projectType) == GetFeatureChoices(o.config.projectType)
  {
    PromptMerge(projectName, flags.projectType, answers);
    QuestionsAsked(projectName, flags.projectType);
    assert Answered(answers, FeaturesField);
  }

  // ---------------------------------------------------------------------
  // Validation of the project name
  // ---------------------------------------------------------------------

  datatype Verdict = Accepted | Rejected(message: string)

  /** The validator of the name question: accepted, or the errors joined by ", ". */
  function ValidateName(input: string, validatePackageName: string -> Validator.PackageNameCheck): Verdict {
    if !Validator.IsValidProjectName(input, validatePackageName) then
      Rejected(Render.Join(Validator.ProjectNameErrors(input, validatePackageName), ", "))
    else Accepted
  }

  /** `x` stands in `s` from index `i` on. */
  predicate InfixAt(x: string, s: string, i: int) {
    0 <= i <= |s| - |x| && s[i..i + |x|] == x
  }

  ghost predicate IsInfix(x: string, s: string) {
    exists i :: InfixAt(x, s, i)
  }

  /**
   * A name is accepted exactly when the package-name library accepts it,
   * and a rejection shows every error and warning the library reported.
   */
  lemma NameVerdict(input: string, validatePackageName: string -> Validator.PackageNameCheck)
    ensures ValidateName(input, validatePackageName).Accepted? <==> Validator.IsValidProjectName(input, validatePackageName)
    ensures var v := ValidateName(input, validatePackageName);
      v.Rejected? ==> forall k | 0 <= k < |Validator.ProjectNameErrors(input, validatePackageName)| ::
        IsInfix(Validator.ProjectNameErrors(input, validatePackageName)[k], v.message)
  {
    var errors := Validator.ProjectNameErrors(input, validatePackageName);
    forall k | 0 <= k < |errors| ensures IsInfix(errors[k], Render.Join(errors, ", ")) {
      JoinHas(errors, ", ", k);
    }
  }

  /** Each item stands in the joined text. */
  lemma {:induction false} JoinHas(items: seq<string>, sep: string, k: int)
    requires 0 <= k < |items|
    ensures IsInfix(items[k], Render.Join(items, sep))
  {
    var s := Render.Join(items, sep);
    var x := items[k];
    if |items| == 1 {
      assert InfixAt(x, s, 0);
    } else {
      var init := items[..|items| - 1];
      var front := Render.Join(init, sep);
      assert s == front + sep + items[|items| - 1];
      if k == |items| - 1 {
        var i := |front| + |sep|;
        assert s[i..i + |x|] == x;
        assert InfixAt(x, s, i);
      } else {
        JoinHas(init, sep, k);
        assert init[k] == x;
        var i :| InfixAt(x, front, i);
        assert s[i..i + |x|] == front[i..i + |x|];
        assert InfixAt(x, s, i);
      }
    }
  }
}
