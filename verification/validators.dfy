/** What the setup script's prompts hand back: a validation verdict (`true`
    or the message to show) and the entries of a list prompt. */
module Prompts {
  /** A `validate` callback's result: `true` is `Accept`, a string is
      `Reject` with that message. */
  datatype Verdict = Accept | Reject(message: string)

  /** An entry `{ name, value }` of a list prompt's choices. */
  datatype Choice = Choice(name: string, value: string)
}

/** The `validate` callbacks of the setup script's questions
    (lib/scripts/bootstrap.ts). */
module Validators {
  import opened Wrappers
  import opened JsStrings
  import opened Slugify
  import opened Prompts

  /** The slug of the template repository's own name. */
  const TemplateSlug: string := "aws-cdk-template"

  const TitleRequired: string := "You must add an app title"
  const TitleIsTemplate: string := "Don't name your app after the template repo. Choose something other than \"AWS CDK Template\""
  const PackageIsTemplate: string := "Don't name your app after the template repo. Choose something other than \"aws-cdk-template\""
  const DescriptionRequired: string := "Write a short description for your pkg."

  /** The app title: required, and its slug must not be the template's. */
  function AppTitle(input: string): (v: Verdict)
    ensures v.Accept? <==> |input| > 0 && Slug(input) != TemplateSlug
    ensures |input| == 0 ==> v == Reject(TitleRequired)
    ensures |input| > 0 && Slug(input) == TemplateSlug ==> v == Reject(TitleIsTemplate)
  {
    if |input| == 0 then Reject(TitleRequired)
    else if Slug(input) == TemplateSlug then Reject(TitleIsTemplate)
    else Accept
  }

  /** What `validate-npm-package-name` reports: `validForNewPackages`, and
      `errors` when it lists any. */
  datatype NpmCheck = NpmCheck(validForNewPackages: bool, errors: Option<seq<string>>)

  /** The package name: not the template's, then whatever the npm name
      check says, its errors (none when absent) joined by spaces. */
  function PackageName(input: string, npm: NpmCheck): (v: Verdict)
    ensures v.Accept? <==> input != TemplateSlug && npm.validForNewPackages
    ensures input == TemplateSlug ==> v == Reject(PackageIsTemplate)
    ensures input != TemplateSlug && !npm.validForNewPackages ==> v == Reject(Join(npm.errors.GetOr([]), " "))
  {
    if input == TemplateSlug then Reject(PackageIsTemplate)
    else if !npm.validForNewPackages then Reject(Join(npm.errors.GetOr([]), " "))
    else Accept
  }

  /** The package description: at least one character. */
  function Description(input: string): (v: Verdict)
    ensures v.Accept? <==> |input| >= 1
    ensures !v.Accept? ==> v == Reject(DescriptionRequired)
  {
    if |input| < 1 then Reject(DescriptionRequired) else Accept
  }

  /** `typeof input === "string" && input.length > 0`, a value that is not
      a string being `None`. */
  function NonEmptyString(input: Option<string>): (ok: bool)
    ensures ok <==> input.Some? && input.value != []
  {
    match input
    case None => false
    case Some(s) => |s| > 0
  }

  /** The description prompt and the generic check accept the same strings. */
  lemma DescriptionIsNonEmpty(input: string)
    ensures Description(input).Accept? <==> NonEmptyString(Some(input))
  {
  }

  /** The title the rejection message names is itself rejected. */
  lemma TemplateTitleRejected()
    ensures AppTitle("AWS CDK Template") == Reject(TitleIsTemplate)
  {
    TemplateWords();
    JoinThree("aws", "cdk", "template", "-");
    TemplateSlugParts();
  }

  lemma TemplateSlugParts()
    ensures "aws" + "-" + "cdk" + "-" + "template" == TemplateSlug
  {
  }

  lemma TemplateWords()
    ensures Words("AWS CDK Template") == ["aws", "cdk", "template"]
  {
    TemplateText();
    TemplateLower();
    ThreeWords("AWS", "CDK", "Template");
  }

  lemma TemplateText()
    ensures "AWS" + " " + "CDK" + " " + "Template" == "AWS CDK Template"
  {
  }

  lemma TemplateLower()
    ensures LowerAll("AWS") == "aws" && LowerAll("CDK") == "cdk" && LowerAll("Template") == "template"
  {
    LowerAllIs("AWS", "aws");
    LowerAllIs("CDK", "cdk");
    LowerAllIs("Template", "template");
  }

  lemma JoinThree(a: string, b: string, c: string, sep: string)
    ensures Join([a, b, c], sep) == a + sep + b + sep + c
  {
    assert [a, b, c][1..] == [b, c];
    assert [b, c][1..] == [c];
    assert Join([b, c], sep) == b + sep + c;
    assert Join([a, b, c], sep) == a + sep + (b + sep + c);
  }

  /** The title offered by default passes. */
  lemma DefaultTitleAccepted()
    ensures AppTitle("My CDK Stack").Accept?
  {
    var ws := Words("My CDK Stack");
    assert ws != [] && ws[0] == "my" by {
      DefaultTitleWords();
    }
    assert Slug("My CDK Stack")[0] == 'm' by {
      JoinStartsWithFirst(ws);
    }
  }

  lemma DefaultTitleWords()
    ensures Words("My CDK Stack") == ["my", "cdk", "stack"]
  {
    DefaultTitleText();
    DefaultTitleLower();
    ThreeWords("My", "CDK", "Stack");
  }

  lemma DefaultTitleText()
    ensures "My" + " " + "CDK" + " " + "Stack" == "My CDK Stack"
  {
  }

  lemma DefaultTitleLower()
    ensures LowerAll("My") == "my" && LowerAll("CDK") == "cdk" && LowerAll("Stack") == "stack"
  {
    LowerAllIs("My", "my");
    LowerAllIs("CDK", "cdk");
    LowerAllIs("Stack", "stack");
  }

  /** The answers offered by default after an accepted title pass: the
      package name (the title's slug) never trips the template check, so
      only the npm check can reject it, and the description is never empty. */
  lemma DefaultAnswers(title: string, npm: NpmCheck)
    requires AppTitle(title).Accept?
    ensures PackageName(Slug(title), npm).Accept? <==> npm.validForNewPackages
    ensures Description("AWS CDK infrastructure for " + title).Accept?
  {
  }
}
