# Alkane, modelled in Dafny

Alkane deploys hosted web sites. Given a site name such as `foo.example.org`, it works out:

- which directory the site lives in;
- whether the site has been initialized before.

It then runs the site's `init` or `update` recipe: an executable kept in a recipes store. The recipe's exit code becomes a status, and after a successful `init` an empty marker file is written into a small database directory.

This project models that core as pure functions over immutable values.

- **Domain decomposition** (module `Tld`):
  - a public suffix table is built from the lines of a text resource;
  - the suffix of a name is the longest dot-aligned tail the table lists, or else the last label;
  - a name is split into subdomain, registrable domain and suffix.
- **Site directories** (module `Config`):
  - configured roots fall back to built-in defaults;
  - the site directory template is filled in by replacing `%fqdn%` first and then, if the result mentions them, `%subdomain%`, `%domain%` and `%tld%`;
  - the result is joined onto the sites root.
- **Recipes** (modules `Runner` and `Store`):
  - the four recipe statuses and their exit codes;
  - the status for what became of the recipe process;
  - the path of a recipe and the environment it runs in.
- **Initialization database** (module `Db`): one marker per site under `<db root>/initialized/`.
- **Deployment** (modules `Actions`, `Deploy` and `Command`):
  - the orchestration of one action, with its checks in order;
  - `initialize`, `update`, and `deploy`, which picks one of the two;
  - the error message;
  - the exit code of a command.

The Rust standard-library behaviour the code relies on is modelled in `Strings` and `Paths`. This covers:

- `split`, `join`, `contains` and `replace`;
- `trim` over the Unicode White_Space set;
- `lines`;
- `Path::join` on a Unix host.

Effects become inputs.

- The file system is the set of paths that exist.
- What became of a recipe process is given by a function `launch` from the invocation to an outcome.
- Whether creating the marker's parent directory and the marker file succeed is given by two booleans.

A deployment returns a `DeploymentRun`, which holds:

- the result;
- the invocation it started, if any;
- the file system after it.

Notes on the model:

- `get_root` falls back to built-in roots for `db`, `sites` and `recipes`. So `Database::from_config` and `RecipesStore::from_config` always succeed, and the first two error branches of `run_deployment_action` (actions.rs lines 35-43) cannot be reached. The model keeps them in their order, and its contract states that an action fails exactly when the site path cannot be resolved.
- The placeholder check runs on the template after `%fqdn%` has been replaced. So a site name that itself spells a part variable changes how the template `%fqdn%` resolves: the name `%tld%` gets no directory (`Config.FqdnReplacedBeforePartsCheck`).
- `Path::join` is modelled with its real rule rather than plain concatenation:
  - an absolute right-hand side replaces the base;
  - no separator is added after an empty base or one that already ends with `/`.

  So a site name starting with `/` escapes both the recipes store and the marker directory (`Db.InitializedPath` states this case).
- `RecipeStatus` does not derive `PartialEq` in `src/runner/mod.rs`, but `run_deployment_action` compares a status with `RecipeStatus::Success`. The model compares statuses as plain values.

## Model

| member | source | states |
|---|---|---|
| Strings.CountChars | src/services/tld.rs:77-84 | the count is the number of occurrences of the character, its multiset multiplicity, and at most the length |
| Strings.Split | src/services/tld.rs:36 | splitting on a character gives at least one piece and no piece contains the separator |
| Strings.JoinSplit | src/services/tld.rs:36-41 | joining the pieces of a split with the separator gives back the original string |
| Strings.SplitJoin | src/services/tld.rs:65-71 | splitting a join of separator-free pieces gives back the pieces |
| Strings.SplitCount | src/services/tld.rs:64-67 | a string splits into one more piece than it has separators |
| Strings.JoinAround | src/services/tld.rs:70-71 | a join of labels is the join before a label, the label, and the join after it, separated |
| Strings.JoinCount | src/services/tld.rs:64 | a join of separator-free pieces has one separator fewer than it has pieces |
| Strings.ContainsIffOccurs | src/config.rs:142-144 | a string contains a pattern exactly when the pattern occurs at some position |
| Strings.ReplaceAbsent | src/config.rs:117 | replacing a pattern that does not occur leaves the string unchanged |
| Strings.ReplaceConcat | src/config.rs:121-124 | replacement distributes over a concatenation when no match can straddle the seam |
| Strings.ReplaceBySelf | src/config.rs:117 | replacing a pattern by itself changes nothing |
| Strings.Trim | src/services/tld.rs:20 | the trimmed line is a slice of the line, only white space is cut on either side, and it neither starts nor ends with white space |
| Strings.LinesArePieces | src/services/tld.rs:19 | there are as many lines as line feeds, plus one when the text is non-empty and does not end with a line feed; each line but a final unterminated one is the piece before its line feed less one trailing carriage return, and that final one is the piece as it stands |
| Strings.FirstDelimiterUnique | src/deploy.rs:29 | a delimiter-free field followed by its delimiter is read back uniquely |
| Paths.JoinPath | src/config.rs:106-107 | the joined path ends with the relative part, equals it when it is absolute, and otherwise starts with the base and adds at most one character between base and part, which is then a separator |
| Paths.JoinPathRelative | src/config.rs:106-107 | a relative part joined onto a base without a trailing separator gets exactly one separator |
| Paths.JoinPathAfterSeparator | src/config.rs:106-107 | a relative part joined onto an empty base or one ending with `/` gets no separator added |
| Paths.JoinPathInjective | src/db.rs:64-66 | under such a base, different relative parts give different joined paths |
| Tld.EntriesOf | src/services/tld.rs:21 | the filter keeps exactly the trimmed lines that are neither empty nor start with `//` |
| Tld.BuildSuffixTable | src/services/tld.rs:15-24 | an entry is in the table exactly when it is a trimmed line of the resource that is neither empty nor a `//` comment |
| Tld.SuffixTableEntries | src/services/tld.rs:17-23 | a string is in the table exactly when some line of the resource trims to it and it is neither empty nor a comment; entries are kept literally |
| Tld.SeekSuffix | src/services/tld.rs:39-46 | the scan finds the first position whose tail is listed, and no earlier tail is listed; or no tail at all is listed |
| Tld.SuffixStart | src/services/tld.rs:39-53 | the suffix starts at the first listed tail, or at the last label when none is listed |
| Tld.SuffixStartUnique | src/services/tld.rs:39-53 | the suffix start is the only position meeting that description |
| Tld.GetTld | src/services/tld.rs:30-54 | the suffix is the tail at the suffix start, and it is listed exactly when some tail of the name is listed |
| Tld.GetTldFallback | src/services/tld.rs:48-53 | a name with no listed tail has its last label as suffix |
| Tld.GetTldIsDotAlignedTail | src/services/tld.rs:40-53 | the suffix is the name itself or follows one of its dots |
| Tld.TldLabelCount | src/services/tld.rs:64 | the suffix has its dot count plus one labels, as many as the tail it came from |
| Tld.ExtractDomainParts | src/services/tld.rs:56-75 | no parts exactly when the name has fewer labels than the suffix plus two; otherwise subdomain, domain and suffix rebuild the name, the suffix is the name's suffix and the domain has no dot |
| Tld.ExtractDomainPartsLabels | src/services/tld.rs:67-71 | the domain is the label before the suffix and the subdomain every label before it |
| Tld.DecomposeLabels | src/services/tld.rs:56-75 | a name made of dot-free labels whose first listed tail starts at position two or later has that tail as suffix, the label before it as domain, and the labels before that as subdomain |
| Tld.DecomposeLabelsNone | src/services/tld.rs:67-74 | a name whose first listed tail starts at its first or second label does not decompose |
| Config.GetRoot | src/config.rs:84-90 | a configured root wins; otherwise `db`, `sites` and `recipes` get their built-in roots and every other key gets none |
| Config.BuiltInRootsResolve | src/config.rs:26-33 | the database, sites and recipes roots always resolve |
| Config.ContainsDomainPartsVariables | src/config.rs:136-145 | true exactly when `%subdomain%`, `%domain%` or `%tld%` occurs somewhere |
| Config.ResolveSiteSubdir | src/config.rs:112-129 | with `%fqdn%` replaced first: no part variable gives that string; otherwise the result is absent exactly when the name does not decompose, and else has the parts substituted in order |
| Config.GetSitePath | src/config.rs:100-110 | absent exactly when the sites root or the subdirectory is; otherwise the root joined with the subdirectory |
| Config.GetSite | src/config.rs:92-98 | absent exactly when the site path is; otherwise the given name and context with that path |
| Config.ResolveLiteralTemplate | src/config.rs:126-127 | a template with no variable is the directory of every site, decomposable or not |
| Config.ResolveFqdnTemplate | src/config.rs:113-119 | the template `%fqdn%` gives the site name itself for a name without part variables |
| Config.FqdnReplacedBeforePartsCheck | src/config.rs:117-119 | the part check sees the substituted name, so `%tld%` under the template `%fqdn%` has no directory |
| Config.ResolveDomainFirstTemplate | src/config.rs:119-125 | `%domain%.%tld%/%subdomain%` gives `domain.suffix/subdomain` for a decomposable name without `%`, and nothing otherwise |
| Config.DomainFirstTemplateShape | src/config.rs:117-119 | that template has no `%fqdn%` and does mention a part variable |
| Config.SubstituteSubdomain | src/config.rs:122 | replacing `%subdomain%` in that template touches only the subdomain slot |
| Config.SubstituteDomain | src/config.rs:123 | replacing `%domain%` next touches only the domain slot |
| Config.SubstituteTld | src/config.rs:124 | replacing `%tld%` last touches only the suffix slot |
| Runner.FromStatusCode | src/runner/mod.rs:39-46 | 0, 1 and 2 are success, warning and error; every other code is unknown |
| Runner.ToStatusCode | src/runner/mod.rs:48-55 | the code is between 0 and 3 and is 0 exactly for success |
| Runner.StatusCodeRoundTrip | src/runner/mod.rs:39-55 | a status survives the round trip through its code |
| Runner.CodeRoundTrip | src/runner/mod.rs:39-55 | a code survives the round trip through a status exactly when it is between 0 and 3 |
| Runner.ToStatusCodeInjective | src/runner/mod.rs:48-55 | different statuses have different codes |
| Runner.ProcessEnvironment | src/runner/mod.rs:70-73 | the started program sees every inherited variable and every set one, a set variable overriding an inherited one of the same name |
| Runner.Run | src/runner/mod.rs:62-104 | a failed spawn is an error, a signal is unknown, an exit code is read as a status, and success means exit code 0 |
| Runner.RunReportsExitCode | src/runner/mod.rs:88-95 | an exit code between 0 and 3 is recovered from the status |
| Runner.RunErrorAmbiguous | src/runner/mod.rs:94-102 | a failed spawn and an exit with 2 both report an error |
| Store.StoreFromConfig | src/runner/store.rs:30-32 | a store exists exactly when the recipes root resolves, and it is rooted there |
| Store.StoreAlwaysFound | src/runner/store.rs:30-32 | the store is always found, in the built-in root when none is configured |
| Store.RecipePath | src/runner/store.rs:34-41 | the recipe path ends with the action and, for relative parts, starts with the store root |
| Store.RecipePathLayout | src/runner/store.rs:76-83 | for plain names the recipe is `root/site/action` |
| Store.RecipePathInjective | src/runner/store.rs:34-41 | plain site names and actions never share a recipe executable |
| Store.Environment | src/runner/store.rs:50-62 | exactly the recipes root, site name and site path keys, plus the context key exactly when there is a context, each with its value |
| Store.EnvironmentRoundTrip | src/runner/store.rs:50-62 | the site and the store root are read back from the environment |
| Store.RecipeInvocation | src/runner/store.rs:43-47 | the recipe path, no arguments, and exactly the environment built for the site, from which the site reads back |
| Store.RunRecipe | src/runner/store.rs:43-48 | the recipe succeeds exactly when its program exits with 0; a failed spawn is an error, a signal is unknown, and an exit code is read as a status |
| Store.RunRecipeIsRun | src/runner/store.rs:47 | the recipe's status is the runner's status for its invocation |
| Store.RecipeEnvironmentSeen | src/runner/store.rs:43-62 | the recipe sees the store root, site name and site path, and the context when there is one; without one, the context variable is whatever was inherited |
| Db.DatabaseFromConfig | src/db.rs:32-34 | a database exists exactly when the db root resolves, and it is rooted there |
| Db.DatabaseAlwaysFound | src/db.rs:32-34 | the database is always found, in the built-in root when none is configured |
| Db.MarkerDirectory | src/db.rs:64-66 | the marker directory lies under the root, is named `initialized`, and has no trailing separator |
| Db.InitializedPath | src/db.rs:64-66 | the marker ends with the site name and lies in the marker directory, unless the name is absolute and replaces it |
| Db.InitializedPathLayout | src/db.rs:64-66 | a plain name's marker is `<marker directory>/<name>` |
| Db.InitializedPathInjective | src/db.rs:64-66 | different plain names have different marker path strings |
| Db.SetInitialized | src/db.rs:40-62 | reports success exactly when the marker exists afterwards, which is when it already existed or both steps worked; it only ever adds this site's marker |
| Db.SetInitializedIdempotent | src/db.rs:43-61 | a second marking succeeds whatever the file system does and changes nothing |
| Db.IsInitialized | src/db.rs:36-38 | a plain name is initialized exactly when `<marker directory>/<name>` exists, an absolute one exactly when that path itself exists |
| Db.SetInitializedOthersUnchanged | src/db.rs:36-66 | marking a site leaves every other plain site's marker as it was |
| Deploy.Display | src/deploy.rs:27-31 | the text starts with the fixed head, ends with the message, and has the length of its parts |
| Deploy.DisplayNamesActionAndSite | src/deploy.rs:29 | the text contains the action and the site name |
| Deploy.DisplayInjective | src/deploy.rs:29 | when action and site name have no quote, the text determines the error |
| Deploy.DisplayDeployError | src/deploy.rs:57-62 | a deployment error shows as the workflow error it wraps |
| Command.BoolStatusCode | src/command.rs:74-82 | 0 for true and 1 for false |
| Command.OptionStatusCode | src/command.rs:84-88 | 0 for a value and 1 for none |
| Command.ResultStatusCode | src/command.rs:90-94 | 0 for success and 1 for an error |
| Command.ResultStatusCodeIgnoresValue | src/command.rs:90-94 | the code depends only on whether the value is an error |
| Actions.RunDeploymentAction | src/actions.rs:29-59 | fails exactly when the site path does not resolve, with that error naming site and action, running nothing and writing nothing; otherwise runs the site's recipe and returns its status; writes only this site's marker, only after a successful `init`, and the marking never changes the result |
| Actions.IsPresent | src/actions.rs:89-94 | a site is present exactly when its marker exists in the configured database |
| Actions.Initialize | src/actions.rs:61-67 | fails exactly when the site does not resolve, running nothing and naming the site and `init` in a "Can't resolve site path" error; otherwise runs the site's `init` recipe whether or not it is present and returns its status; after success the site is present exactly when it was or the marker could be written; the only file ever added is this site's marker, and nothing changes otherwise |
| Actions.Update | src/actions.rs:69-75 | fails exactly when the site does not resolve, running nothing and naming the site and `update` in a "Can't resolve site path" error; otherwise runs the site's `update` recipe whether or not it is present and returns its status; never touches the file system |
| Actions.DeploySite | src/actions.rs:77-87 | updates a present site and initializes an absent one |
| Actions.DeployThenUpdate | src/actions.rs:54-56 | after a successful first deployment that wrote its marker, the next deployment is an update that writes nothing |
| Actions.UnresolvedSiteStaysAbsent | src/actions.rs:45-50 | a site without a directory is never deployed and never marked |
| Vectors.FooAcmeEuOrg | src/services/tld.rs:95-97 | `foo.acme.eu.org` has suffix `eu.org` and parts `foo`, `acme`, `eu.org` |
| Vectors.BarFooAcmeEuOrg | src/services/tld.rs:132-139 | `bar.foo.acme.eu.org` gives `bar.foo`, `acme`, `eu.org` |
| Vectors.FooAcmeCoUk | src/services/tld.rs:115-122 | `foo.acme.co.uk` gives `foo`, `acme`, `co.uk` |
| Vectors.FooAcmeOrg | src/services/tld.rs:103-110 | `foo.acme.org` gives `foo`, `acme`, `org` |
| Vectors.AcmeOrg | src/services/tld.rs:111 | `acme.org` does not decompose |
| Vectors.OrgAndEmpty | src/services/tld.rs:112-113 | `org` and the empty name do not decompose, and the empty name is its own suffix |
| Vectors.PartVariablesInTemplates | src/config.rs:192-199 | `%domain%/%subdomain%` needs decomposition; `%fqdn%` and the empty template do not |
| Vectors.FooExampleOrgSubdir | src/config.rs:177-189 | with template `%domain%.%tld%/%subdomain%`, `foo.example.org` is filed in `example.org/foo` |
| Vectors.FooExampleOrgSitePath | src/config.rs:177-189 | with root `/www` and template `%domain%.%tld%/%subdomain%`, `foo.example.org` lives in `/www/example.org/foo` |
| Vectors.FirstDeployment | src/actions.rs:77-87 | a first deployment with a recipe exiting 0 runs `<recipes root>/<site>/init` in the site's directory and writes `<db root>/initialized/<site>` |
| Vectors.FooExampleOrgSite | src/config.rs:177-189 | `foo.example.org` under `/www` with template `%domain%.%tld%/%subdomain%` resolves to `/www/example.org/foo`, and its first deployment runs `/usr/local/libexec/alkane/foo.example.org/init` there and writes `/var/db/alkane/initialized/foo.example.org` |

## Left out

- Loading the configuration (`AlkaneConfig::load` and `find`, the YAML file): the roots map and the template are given values.
- Running the recipe process:
  - the environment Alkane itself inherits is a parameter of `Runner.ProcessEnvironment`; the invocation records only the variables Alkane sets;
  - spawning, stdout and stderr capture, lossy UTF-8 decoding and logging are not modelled;
  - what became of the process is an input (`launch`).
- The file system:
  - `exists`, `touch` and `create_dir_all` are not modelled; the file system is a set of existing marker paths, and the two writing steps succeed or fail as two booleans say;
  - directories are not tracked, so an empty site name, whose marker path is the marker directory itself, is not told apart from a file.
- Db.SetInitializedOthersUnchanged: speaks of marker files only. Marking a nested name such as `a/b` creates the directory `<marker directory>/a` through `create_dir_all` (src/db.rs:78-85), after which `is_initialized("a")`, a bare `exists()` check (src/db.rs:37), holds in the real program; the model tracks no directories, so that side effect is not modelled. Nor does it resolve `.` and `..` segments: `set_initialized("./a")` touches `<marker directory>/./a` (src/db.rs:65, 71-75), which the operating system takes for the same file as `<marker directory>/a`, so `is_initialized("a")` then holds, whereas the model compares marker paths as strings and counts them as two markers.
- The `path.parent()` failure in `ensure_parent_directory_exists`: it is folded into the `parentOk` input.
- Separator normalisation (`replace("/", MAIN_SEPARATOR_STR)`): it is the identity on a Unix host, which is what is modelled.
- `to_str()` on joined paths: it fails only on non-UTF-8 paths, which strings here cannot be. So a joined path always converts.
- The content of the public suffix data file: the table, or the resource text it is built from, is a parameter.
- Exit codes are unbounded integers rather than `i32`: every mapping involved is total and does not wrap.
- `AlkaneDeployError::new`: it is the datatype's constructor, which stores its three fields as given, so no function of its own models it.
- HTTP routes, JSON replies, command-line parsing and the `exit` calls of the entry point: these are transport and process plumbing.
- Concurrent deployments of one site (the race between checking and writing the marker): the model is sequential.
- The Rust test fixtures under `tests/data` (sites root `tests/data/wwwroot`): the worked examples use roots of their own, such as `/www` and the built-in ones.
