# aws-cdk-template core, modelled in Dafny

This project models two parts of the AWS CDK project template.

The first is the four base classes under `lib/base/app`:

- `BaseStack` names a stack after the nearest `BasePipeline`'s app name, its own id and the nearest `BaseStage`'s name. The id is dropped under a "single" stage.
- `BaseStage` carries a stage name and a `single` flag.
- `BaseConstruct` carries an optional `env`.
- `BasePipeline` reads the repository, branch and token name from its props, then the CDK context, then the defaults. It decides where its root hosted zone comes from, and may add a logs bucket.

Every class has a `__` helper that composes a child id the same way. It filters the parts to strings, trims and slugifies each one, joins them with "-", then replaces every "-" with the separator.

The second is the data handling of the setup script `lib/scripts/bootstrap.ts`:

- rewriting an SSH GitHub remote to its HTTPS form, and reading `org/name` from it;
- merging answers into a JSON file with `Object.assign`;
- the prompt validators;
- turning `git ls-remote` output into branch choices;
- the default and the choices of the hosted-zone prompt.

How the model represents the system:

- **Construct tree.** It is the root-to-self list of scopes that `node.scopes` returns. "The nearest X" is reverse, filter, first, as in the source. `Stack.of` from aws-cdk-lib walks up from the construct and returns the first stack; it throws, modelled as `None`, when it meets a stage first (the App is a stage) or runs out of parents.
- **Slugify.** `@sindresorhus/slugify` is replaced by an ASCII stand-in. It keeps the maximal runs of ASCII letters and digits, lower-cases them and joins them with "-".
- **`String.replace` with a string separator.** The model keeps JavaScript's `$` replacement patterns. A lemma shows the replacement is literal when the separator has no `$`.
- **JSON.** A JSON object is an ordered list of properties, in insertion order, as `Object.assign` and `JSON.stringify` keep them.
- **In-place code.** The `reduce` callbacks, `Object.assign` and the remote's `pop` calls become methods with loops. `Array.prototype.sort` is an in-place insertion sort on an `array`. Each is proved equal to a functional specification, and the properties the script relies on are proved about those specifications.

Where the code and its evident intent differ, the model follows the code: `rootZone: true` makes the pipeline constructor throw, the hosted-zone default is a name, not an id, and only the first ".git" of a remote is removed (see Findings).

## Model

| member | source | states |
|---|---|---|
| Naming.StringsOf | lib/base/app/stack.ts:47-48 | a string is kept exactly when it is one of the parts; non-string parts are dropped |
| Naming.StringsOfAppend | lib/base/app/stack.ts:47-48 | filtering keeps the parts' order: the strings of a concatenation are the concatenated strings |
| Naming.SubstituteHyphens | lib/base/app/stack.ts:51 | with "-" as separator, or no "-" in the text, nothing changes; every output character is a non-hyphen of the input or a separator character |
| Naming.ReplaceHyphens | lib/base/app/stack.ts:51 | `replace(/-/g, sep)` with no `$` in the separator is the literal substitution of every "-" |
| Naming.ReplacementPatterns | lib/base/app/stack.ts:51 | a separator holding `$$`, `$&` or `` $` `` is read as a replacement pattern, not literally |
| Naming.ScopedIdIsStringify | lib/base/app/stack.ts:68-75 | trimming each part before slugifying changes nothing: `__` and `stringify` compose the same id |
| Naming.NonStringsIgnored | lib/base/app/stack.ts:46-52 | an absent part anywhere in the list leaves the id unchanged |
| Naming.NoStringsEmpty | lib/base/app/stack.ts:46-52 | with no string parts the id is empty |
| Naming.DefaultSeparator | lib/base/app/stack.ts:46-52 | with the default separator the id is the slugs joined with "-" |
| Naming.NoHyphenLeft | lib/base/app/stack.ts:51 | with a separator free of "-" and "$", no "-" survives in the id |
| Naming.IdAlphabet | lib/base/app/stack.ts:46-52 | every character of an id is a lower-case letter, a digit or a separator character |
| Naming.IdWords | lib/base/app/stack.ts:46-52 | with a separator of non-alphanumeric characters, the id's words are the parts' words in order |
| Naming.IdIsJoinedWords | lib/base/app/stack.ts:46-52 | when every part has a word, the id is all the parts' words joined with the separator |
| Naming.StringifyOne | lib/base/app/stack.ts:46-52 | the id of one string part is its words joined by the separator |
| Naming.StringifyCons | lib/base/app/stack.ts:46-52 | a string part followed by more parts gives its words joined by the separator, the separator, then the rest's id: the id is composed part by part, in order |
| Naming.SegmentsIndistinguishable | lib/base/app/stack.ts:46-52 | the parts "a", "b" and the single part "a b" give the same id: part boundaries are not recoverable |
| Slugify.SlugIgnoresTrim | lib/base/app/stack.ts:71-72 | trimming white space never changes a slug |
| Slugify.SlugIdempotent | lib/base/app/stack.ts:49 | slugifying a slug gives it back |
| Slugify.SlugShape | lib/base/app/stack.ts:49 | a slug has only lower-case letters, digits and single inner "-" |
| Scopes.Reverse | lib/base/app/stack.ts:17 | `reverse()` puts the element at `i` at `n-1-i` |
| Scopes.NearestIsLastMatch | lib/base/app/stack.ts:16-25 | reverse, filter and first find the last match on the root-to-self path |
| Scopes.NearestNone | lib/base/app/stack.ts:16-25 | there is no nearest match exactly when no scope on the path matches |
| Scopes.NearestAt | lib/base/app/stack.ts:16-25 | when there is a nearest match, it sits at some index with no match after it |
| Scopes.NearestSnoc | lib/base/app/construct.ts:32 | a non-matching node at the end does not change the nearest match |
| Scopes.EnvChainSnoc | lib/base/app/construct.ts:33-39 | a BaseConstruct at the end puts its env in front of the env chain; any other node adds nothing |
| BaseStack.Truthy | lib/base/app/stack.ts:42-43 | a prop is kept exactly when it is present and not empty |
| BaseStack.Create | lib/base/app/stack.ts:15-43 | the id is the stringified app name, id and stage name; `stackName` defaults to it; `stackType`/`stackEnv` are kept only when truthy |
| BaseStack.StackIdFromNearest | lib/base/app/stack.ts:16-27 | the id's parts come from the last pipeline and the last stage on the path; the id is dropped only under a single stage |
| BaseStack.PipelineOnlyStackId | lib/base/app/stack.ts:16-27 | under a pipeline and no stage, the id is the app name, then the stack's own id |
| BaseStack.StageOnlyStackId | lib/base/app/stack.ts:16-27 | under a stage and no pipeline, the id is the stage name, preceded by the stack's own id unless the stage is single |
| BaseStack.StandaloneStackId | lib/base/app/stack.ts:16-27 | with no pipeline or stage above it, a stack's name is the slug of its id |
| BaseStack.SingleStageDropsId | lib/base/app/stack.ts:27 | under a single stage, any two ids give the same stack name |
| BaseStack.EmptyPropsDropped | lib/base/app/stack.ts:42-43 | empty `stackType`/`stackEnv` give the same scoped ids as no props |
| BaseStack.ScopedIdOrder | lib/base/app/stack.ts:68-75 | a scoped id is the name's words, then the type's, then the env's, joined with the separator |
| BaseStage.Create | lib/base/app/stage.ts:12-19 | a stage keeps its id as stage name and is single unless `single: false` is given |
| BaseStage.ScopedId | lib/base/app/stage.ts:35-42 | the id is the name's slug with every "-" replaced by the separator |
| BaseConstruct.Create | lib/base/app/construct.ts:12-21 | a construct has an env exactly when props with an env are given, and then that env |
| BaseConstruct.StackOfFound | lib/base/app/construct.ts:32 | `Stack.of` finds a stack exactly when some stack on the path has no stage below it |
| BaseConstruct.ScopedId | lib/base/app/construct.ts:31-45 | there is no id (`Stack.of` throws) exactly when no stack on the path is free of stages below it |
| BaseConstruct.ScopedIdFromNearestStack | lib/base/app/construct.ts:31-45 | with no stack or stage below the stack at `i`, the id is the name, the env chain innermost first, then that stack's type and env |
| BaseConstruct.StageHidesStack | lib/base/app/construct.ts:32 | a stage between the construct and every stack above it means no id: `Stack.of` throws at the stage |
| BaseConstruct.ChildScopedId | lib/base/app/construct.ts:33-39 | nesting under a construct puts the child's env right after the name, ahead of every env above it |
| BaseConstruct.EnvlessAncestorSkipped | lib/base/app/construct.ts:33-39 | a construct without env adds nothing to the ids below it |
| BaseConstruct.NoStackNoId | lib/base/app/construct.ts:32 | a construct with no stack on its path has no id |
| NamingVectors.StackHelperPlain | test/base.test.ts:10-19 | `stack.__("Foo Bar", sep)` without props is "foo" + sep + "bar" |
| NamingVectors.StackHelperType | test/base.test.ts:20-26 | with a `stackType`, the type's words follow the name's |
| NamingVectors.StackHelperTypeAndEnv | test/base.test.ts:27-34 | with a `stackEnv` too, the env's words come last |
| NamingVectors.StackHelperTypeLiteral | test/base.test.ts:20-26 | `stackType: "My Type"` and the name "Foo Bar" give "foo-bar-my-type" |
| NamingVectors.StackHelperTypeAndEnvLiteral | test/base.test.ts:27-34 | adding `stackEnv: "User Acceptance"` gives "foo-bar-my-type-user-acceptance" |
| NamingVectors.ConstructHelperPlain | test/base.test.ts:50-61 | a child of an env-less construct gets the name, then the stack's type and env |
| NamingVectors.ConstructHelperNested | test/base.test.ts:62-72 | under an env-less construct, the nearest env is the one above it |
| NamingVectors.ConstructHelperDeep | test/base.test.ts:62-74 | the envs of every BaseConstruct above come nearest first, before the stack's type and env |
| NamingVectors.StackHelperChildLiteral | test/base.test.ts:45-61 | with `stackType: "Demo"` and `stackEnv: "QA"`, `stack.__("Child Construct")` is "child-construct-demo-qa", and "child_construct_demo_qa" with "_" |
| NamingVectors.ConstructHelperPlainLiteral | test/base.test.ts:45-61 | `child.__("Nested Construct")` under that stack is "nested-construct-demo-qa", and "nested_construct_demo_qa" with "_" |
| NamingVectors.ConstructHelperNestedLiteral | test/base.test.ts:62-74 | `skipped.__("Nested Construct")` below `child` with env "One" is "nested-construct-one-demo-qa", and "nested_construct_one_demo_qa" with "_" |
| NamingVectors.ConstructHelperDeepLiteral | test/base.test.ts:62-74 | `nested.__("Deeply Nested Construct")` below `nested` with env "Two" is "deeply-nested-construct-two-one-demo-qa", and "deeply_nested_construct_two_one_demo_qa" with "_" |
| NamingVectors.RootAppStackIds | src/root.ts:7-30 | the example app's stacks are named app name and phase only: the phases are single |
| BasePipeline.EffectiveProps | lib/base/app/pipeline.ts:26-31 | without props the defaults `rootZone: false`, `logs: true` apply; given props are used as they are |
| BasePipeline.HasZoneKeys | lib/base/app/pipeline.ts:63-70 | the `in` probe throws exactly for `true`, and holds only for an object with both keys |
| BasePipeline.HostedZoneAsWritten | lib/base/app/pipeline.ts:71-80 | the decision throws exactly when `rootZone` is `true` without both id and name props |
| BasePipeline.ReuseNeverChosen | lib/base/app/pipeline.ts:76-79 | the third branch is never reached: a zone object is always taken by the second |
| BasePipeline.RootAppThrows | src/root.ts:28-30 | `{ rootZone: true }`, as the example app passes it, makes the decision and the constructor throw |
| BasePipeline.HostedZoneDecision | lib/base/app/pipeline.ts:71-80 | the corrected decision: props when `rootZone` is `true` and both props are truthy, a zone object when no prop is set, otherwise none |
| BasePipeline.DecisionAgrees | lib/base/app/pipeline.ts:71-80 | wherever the code as written does not throw, it agrees with the corrected decision |
| BasePipeline.Setting | lib/base/app/pipeline.ts:48-50 | `prop ?? context ?? fallback`: a set prop wins over the context, and a set context over the fallback |
| BasePipeline.Build | lib/base/app/pipeline.ts:25-86 | stack id and pipeline name are `<id>-pipeline`; repo comes from props, then context; branch and token name are chosen by `Setting` with the defaults "main" and "github-oauth-token"; a zone gets the "root hosted zone" child id; a logs bucket exactly without props or with `logs: true` |
| BasePipeline.Create | lib/base/app/pipeline.ts:25-87 | the constructor throws exactly when the hosted-zone decision as written throws; otherwise it builds the pipeline with the zone the corrected decision picks |
| BasePipeline.ScopedIdWords | lib/base/app/pipeline.ts:106-113 | a child id's words are the app name's words, then the child name's |
| BasePipeline.ChildIdsDistinct | lib/base/app/pipeline.ts:52-83 | the pipeline, synth, hosted-zone and logs ids never collide |
| BasePipeline.LogsDefaults | lib/base/app/pipeline.ts:26-31 | without props the constructor succeeds, adds a logs bucket and no zone; props without `logs` add no bucket |
| GitRemote.GithubRemote | lib/scripts/bootstrap.ts:17-23 | an SSH github.com remote becomes the HTTPS URL of its trimmed path; any other remote is kept |
| GitRemote.GithubRemoteIdempotent | lib/scripts/bootstrap.ts:19-21 | rewriting twice is rewriting once |
| GitRemote.Repo | lib/scripts/bootstrap.ts:25-31 | the popping code returns the piece before the last "/", then the last piece without its first ".git" |
| GitRemote.RepoWithoutSlash | lib/scripts/bootstrap.ts:27-30 | a remote without "/" gives the org "undefined" |
| GitRemote.RepoOfGithubRemote | lib/scripts/bootstrap.ts:17-31 | for a name without ".git" inside it, the SSH and HTTPS URLs, with or without ".git", give back `org/name` |
| GitRemote.GitInsideNameMangled | lib/scripts/bootstrap.ts:28 | a name that contains ".git" loses that ".git" and keeps its suffix |
| GitRemote.FixedRepoOfGithubRemote | lib/scripts/bootstrap.ts:17-31 | with only a ".git" suffix removed, every repository URL gives back `org/name` |
| ConfigMerge.Set | lib/scripts/bootstrap.ts:41 | one property assignment: the key gets the value, other keys are unchanged, a new key goes last, distinct keys stay distinct |
| ConfigMerge.Assign | lib/scripts/bootstrap.ts:41 | the `Object.assign` loop computes the merge specification |
| ConfigMerge.MergeGet | lib/scripts/bootstrap.ts:41 | after the merge a key holds the data's value if the data has it, else the file's |
| ConfigMerge.MergeKeys | lib/scripts/bootstrap.ts:41 | the file's keys keep their order, and the data's new keys follow in the data's order |
| ConfigMerge.MergeDistinct | lib/scripts/bootstrap.ts:41 | merging never duplicates a key |
| ConfigMerge.WriteJson | lib/scripts/bootstrap.ts:33-45 | the written value: unreadable file gives `{}` merged with the data, an object is merged, `null` throws, other values are unchanged |
| ConfigMerge.UnreadableFileIsData | lib/scripts/bootstrap.ts:35-40 | an unreadable file is replaced by exactly the data, keys and values |
| ConfigMerge.ObjectFileMerged | lib/scripts/bootstrap.ts:33-45 | an object file keeps what the data does not set, and takes the data's value for every key the data sets |
| Validators.AppTitle | lib/scripts/bootstrap.ts:83-91 | accepts exactly a non-empty title whose slug is not "aws-cdk-template", with each rejection's message |
| Validators.PackageName | lib/scripts/bootstrap.ts:101-110 | accepts exactly a name other than "aws-cdk-template" that npm accepts; otherwise npm's errors joined with " " |
| Validators.Description | lib/scripts/bootstrap.ts:120-125 | accepts exactly a non-empty description, otherwise the fixed message |
| Validators.NonEmptyString | lib/scripts/bootstrap.ts:169-171 | accepts exactly a present, non-empty string |
| Validators.DescriptionIsNonEmpty | lib/scripts/bootstrap.ts:120-125 | the description check is the generic non-empty check |
| Validators.TemplateTitleRejected | lib/scripts/bootstrap.ts:87-88 | "AWS CDK Template" is rejected as the template's own name |
| Validators.DefaultTitleAccepted | lib/scripts/bootstrap.ts:80-91 | the suggested title "My CDK Stack" is accepted |
| Validators.DefaultAnswers | lib/scripts/bootstrap.ts:98-125 | after an accepted title, the suggested package name faces only npm's verdict, and the suggested description is accepted |
| Branches.ParseBranches | lib/scripts/bootstrap.ts:315-327 | the `reduce` loop over the lines computes the branch-choices specification |
| Branches.ChoicesFollowMarkedLines | lib/scripts/bootstrap.ts:317-327 | the choices are one entry per line holding "refs/heads/", in order, name equal to value |
| Branches.BranchHasNoMarker | lib/scripts/bootstrap.ts:319-320 | a branch read from a line never contains "refs/heads/" |
| Branches.LsRemoteLine | lib/scripts/bootstrap.ts:318-320 | an `ls-remote` line `<hash> refs/heads/<branch>` gives the trimmed branch |
| Branches.UnmarkedLinesIgnored | lib/scripts/bootstrap.ts:318 | a line without "refs/heads/" adds no choice |
| HostedZones.ReduceIsFirstMax | lib/scripts/bootstrap.ts:387-398 | with named zones, the `reduce` picks the first zone with the most records |
| HostedZones.DefaultZoneNameIsFirstMax | lib/scripts/bootstrap.ts:387-398 | the default is that zone's name |
| HostedZones.NoZonesNoDefault | lib/scripts/bootstrap.ts:387-398 | with no zones the default is the empty name |
| HostedZones.SortByCount | lib/scripts/bootstrap.ts:403-410 | the in-place sort leaves the array equal to the stable sort specification |
| HostedZones.InsertLast | lib/scripts/bootstrap.ts:403-410 | one insertion step puts the next zone after every zone with at least as many records, leaving the rest |
| HostedZones.SortedIsDesc | lib/scripts/bootstrap.ts:403-410 | the sorted zones have non-increasing record counts |
| HostedZones.SortedIsPermutation | lib/scripts/bootstrap.ts:403-410 | the sort is a permutation |
| HostedZones.SortedIsStable | lib/scripts/bootstrap.ts:403-410 | zones with equal counts keep their listed order |
| HostedZones.SortedHeadIsFirstMax | lib/scripts/bootstrap.ts:387-410 | the first sorted zone is the one the `reduce` picks |
| HostedZones.ZoneIdOfListedId | lib/scripts/bootstrap.ts:413 | "/hostedzone/<id>" gives "<id>" |
| HostedZones.ChoicesOf | lib/scripts/bootstrap.ts:411-414 | one choice per zone, in order, named by the zone's name, valued by its id |
| HostedZones.ZoneChoices | lib/scripts/bootstrap.ts:403-414 | the choices are the sorted zones' entries |
| HostedZones.DefaultNameIsNoChoiceValue | lib/scripts/bootstrap.ts:387-414 | for a listed zone whose name is not its id, the default is the name and no choice has it as value |
| HostedZones.DefaultZoneId | lib/scripts/bootstrap.ts:387-414 | the corrected default is the first choice's value |
| JsStrings.SplitLast | lib/scripts/bootstrap.ts:319-320 | the last piece of `x + sep + y`, for `y` without `sep`, is `y` |
| JsStrings.TrimKeepsExclusion | lib/scripts/bootstrap.ts:320 | trimming cannot create an occurrence of a marker |

## Left out

- `@sindresorhus/slugify` itself: transliteration, decamelising ("fooBar" to "foo-bar") and non-ASCII letters are not modelled. The ASCII stand-in treats every non-alphanumeric character as a separator.
- Naming.SegmentsIndistinguishable and the other naming lemmas hold for the stand-in, which is why they are stated over ASCII words.
- The CDK framework: `Stack`, `Stage`, `CodePipeline`, `ShellStep`, `HostedZone`, the `LogsBucket` construct and their synthesis are left out. So are the `env` account and region read from the context. Only the ids and props these classes receive are modelled.
- Context lookups (`tryGetContext`) are a `Context` parameter. The hosted-zone id and name the pipeline passes to `super` are not read by the decision, which is also true of the source.
- BasePipeline.Create: the pipeline id is a string. A non-string id from an untyped caller is not modelled.
- Process execution (`git`, `aws`), file reads and writes, `inquirer`, `rxjs`, `JSON.parse` and `JSON.stringify` are left out. Their results are parameters: the trimmed remote, the `ls-remote` text, the parsed zone list, the parsed file content (`None` when reading or parsing fails).
- `validate-npm-package-name` is the parameter `NpmCheck` (its verdict and error list). The other prompts' validators (semver version, the confirm questions) are not part of this model.
- JSON numbers are integers. Floating point is not modelled.
- `Object.assign` onto an array, string or number writes index properties. The model treats such non-object content as written back unchanged. Integer-like keys, which JavaScript orders first, keep insertion order in the model.
- Properties whose value is `undefined` (dropped by `JSON.stringify`) are not modelled.
- `String.length` and indices count UTF-16 code units in JavaScript. The model counts characters.
- `Array.prototype.sort`'s own algorithm is not modelled. HostedZones.SortByCount is an insertion sort with the same comparator; since the sort is stable, its result is the same.
- The prompt library's handling of a default that matches no choice value is not modelled. If the list prompt then starts at its first choice, it starts at the zone with the most records (HostedZones.SortedHeadIsFirstMax), which is the zone the corrected default picks, so the user may see no difference.

## Findings

| source | as written | input that shows it | evidently intended | confidence | as-written member | corrected member |
|---|---|---|---|---|---|---|
| lib/base/app/pipeline.ts:71-78 | `rootZone === true` without both `hostedZoneId` and `zoneName` props falls to `"hostedZoneId" in rootZone`, a TypeError on `true` | `{ rootZone: true }` as src/root.ts:28-30 passes it | `rootZone: true` without both props gives no zone instead of throwing | high, not executed | BasePipeline.RootAppThrows | BasePipeline.HostedZoneDecision |
| lib/scripts/bootstrap.ts:387-398 | the hosted-zone default returns the zone's `Name`, but the choices' values (lines 411-414) and the `--id` argument (lines 425-426) are zone ids | one zone with `Id` "/hostedzone/Z1" and `Name` "example.com." gives the default "example.com."; the only choice value is "Z1" | the default is the id of the zone with the most records, the first choice | low: the prompt may start at the first choice anyway, not executed | HostedZones.DefaultNameIsNoChoiceValue | HostedZones.DefaultZoneId |
| lib/scripts/bootstrap.ts:28 | `replace(".git", "")` removes the first ".git" of the last piece, not the suffix | the remote "git@github.com:octocat/octocat.github.io.git" gives "octocat/octocathub.io.git" | only a trailing ".git" is removed, giving "octocat/octocat.github.io" | high, not executed | GitRemote.GitInsideNameMangled | GitRemote.FixedRepoOfGithubRemote |
