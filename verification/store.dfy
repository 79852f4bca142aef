/** The recipes store: a directory holding, for each site, one executable per deployment
    action, run with the site described in its environment. */
module Store {
  import opened Wrappers
  import opened Strings
  import opened Paths
  import opened Sites
  import opened Config
  import opened Runner

  datatype RecipesStore = RecipesStore(root: string)

  /** The store for the configured recipes root, when there is one. */
  function StoreFromConfig(config: AlkaneConfig): (store: Option<RecipesStore>)
    ensures store.Some? <==> GetRoot(config, "recipes").Some?
    ensures store.Some? ==> store.value.root == GetRoot(config, "recipes").value
  {
    match GetRoot(config, "recipes")
    case None => None
    case Some(root) => Some(RecipesStore(root))
  }

  /** A store is always found, in the configured recipes root or else the built-in one. */
  lemma StoreAlwaysFound(config: AlkaneConfig)
    ensures StoreFromConfig(config).Some?
    ensures "recipes" !in config.roots ==> StoreFromConfig(config) == Some(RecipesStore("/usr/local/libexec/alkane"))
  {
    BuiltInRootsResolve(config);
  }

  /** The executable for an action on a site: `<root>/<site>/<action>`, joined as paths. */
  function RecipePath(store: RecipesStore, siteName: string, action: string): (path: string)
    ensures EndsWith(path, action)
    ensures !IsAbsolute(siteName) && !IsAbsolute(action) ==> StartsWith(path, store.root)
  {
    JoinPath(JoinPath(store.root, siteName), action)
  }

  /** For a root without a trailing separator and a plain site name, the recipe lives two
      levels below the root, one separator between each part. */
  lemma RecipePathLayout(store: RecipesStore, siteName: string, action: string)
    requires |store.root| > 0 && store.root[|store.root| - 1] != '/'
    requires |siteName| > 0 && siteName[0] != '/' && siteName[|siteName| - 1] != '/'
    requires !IsAbsolute(action)
    ensures RecipePath(store, siteName, action) == store.root + "/" + siteName + "/" + action
  {
    JoinPathRelative(store.root, siteName);
    var dir := store.root + "/" + siteName;
    assert dir[|dir| - 1] == siteName[|siteName| - 1];
    JoinPathRelative(dir, action);
  }

  /** Under such a root, a site's recipes are apart from every other site's: two actions of
      two plain site names share an executable only when site and action are the same. */
  lemma RecipePathInjective(store: RecipesStore, s1: string, a1: string, s2: string, a2: string)
    requires |store.root| > 0 && store.root[|store.root| - 1] != '/'
    requires |s1| > 0 && s1[0] != '/' && s1[|s1| - 1] != '/' && '/' !in s1
    requires |s2| > 0 && s2[0] != '/' && s2[|s2| - 1] != '/' && '/' !in s2
    requires !IsAbsolute(a1) && !IsAbsolute(a2)
    requires RecipePath(store, s1, a1) == RecipePath(store, s2, a2)
    ensures s1 == s2 && a1 == a2
  {
    RecipePathLayout(store, s1, a1);
    RecipePathLayout(store, s2, a2);
    var p := RecipePath(store, s1, a1);
    var n := |store.root| + 1;
    var q := p[n..];
    assert q == s1 + ("/" + a1);
    assert q == s2 + ("/" + a2);
    FirstDelimiterUnique(s1, "/" + a1, s2, "/" + a2, '/');
  }

  const RecipesPathKey := "ALKANE_RECIPES_PATH"
  const SiteNameKey := "ALKANE_SITE_NAME"
  const SitePathKey := "ALKANE_SITE_PATH"
  const SiteContextKey := "ALKANE_SITE_CONTEXT"

  /** The environment a recipe runs in: the store root, the site name and the site
      directory, and the site context when there is one. */
  function Environment(store: RecipesStore, site: Site): (env: map<string, string>)
    ensures env.Keys == {RecipesPathKey, SiteNameKey, SitePathKey} + (if site.context.Some? then {SiteContextKey} else {})
    ensures env[RecipesPathKey] == store.root
    ensures env[SiteNameKey] == site.name
    ensures env[SitePathKey] == site.path
    ensures SiteContextKey in env <==> site.context.Some?
    ensures site.context.Some? ==> env[SiteContextKey] == site.context.value
  {
    var env := map[RecipesPathKey := store.root, SiteNameKey := site.name, SitePathKey := site.path];
    match site.context
    case None => env
    case Some(context) => env[SiteContextKey := context]
  }

  /** What a recipe reads back from the variables Alkane sets for it: the site, when the
      three mandatory variables are present. The process also inherits Alkane's own
      variables underneath (`Runner.ProcessEnvironment`, `RecipeEnvironmentSeen`). */
  function SiteFromEnvironment(env: map<string, string>): (site: Option<Site>)
    ensures site.Some? <==> SiteNameKey in env && SitePathKey in env
    ensures site.Some? ==> (site.value.context.Some? <==> SiteContextKey in env)
  {
    if SiteNameKey in env && SitePathKey in env then
      Some(Site(env[SiteNameKey], env[SitePathKey],
                if SiteContextKey in env then Some(env[SiteContextKey]) else None))
    else
      None
  }

  /** The environment carries the whole site: reading it back gives the site and the store
      it was run from. */
  lemma EnvironmentRoundTrip(store: RecipesStore, site: Site)
    ensures SiteFromEnvironment(Environment(store, site)) == Some(site)
    ensures Environment(store, site)[RecipesPathKey] == store.root
  {
    var env := Environment(store, site);
    assert SiteNameKey in env && SitePathKey in env;
    match site.context
    case None =>
      assert SiteContextKey !in env;
    case Some(c) =>
      assert env[SiteContextKey] == c;
  }

  /** The program started for an action: the recipe executable, with no arguments, in the
      environment describing the site. */
  function RecipeInvocation(store: RecipesStore, site: Site, action: string): (inv: Invocation)
    ensures inv.command == RecipePath(store, site.name, action)
    ensures inv.args == []
    ensures inv.env == Environment(store, site)
    ensures SiteFromEnvironment(inv.env) == Some(site)
  {
    EnvironmentRoundTrip(store, site);
    Invocation(RecipePath(store, site.name, action), [], Environment(store, site))
  }

  /** What the recipe finds in its environment, given the variables Alkane inherited: the
      store root, the site name and path, and the context when the site has one; without
      one, the context variable is there exactly when it was inherited. */
  lemma RecipeEnvironmentSeen(store: RecipesStore, site: Site, action: string, inherited: map<string, string>)
    ensures var env := ProcessEnvironment(inherited, RecipeInvocation(store, site, action));
            env[RecipesPathKey] == store.root && env[SiteNameKey] == site.name && env[SitePathKey] == site.path
            && (site.context.Some? ==> env[SiteContextKey] == site.context.value)
            && (site.context.None? ==>
                  (SiteContextKey in env <==> SiteContextKey in inherited)
                  && (SiteContextKey in env ==> env[SiteContextKey] == inherited[SiteContextKey]))
  {
    var added := RecipeInvocation(store, site, action).env;
    assert added == Environment(store, site);
    assert RecipesPathKey in added && SiteNameKey in added && SitePathKey in added;
  }

  /** Runs the recipe for an action on a site; `launch` tells what became of the program.
      The recipe succeeds exactly when its program exits with 0. */
  function RunRecipe(store: RecipesStore, site: Site, action: string,
                     launch: Invocation -> ProcessOutcome): (status: RecipeStatus)
    ensures var outcome := launch(RecipeInvocation(store, site, action));
            (status == Success <==> outcome == Exited(0))
            && (outcome.SpawnFailed? ==> status == Error)
            && (outcome.Signalled? ==> status == Unknown)
            && (outcome.Exited? ==> status == FromStatusCode(outcome.code))
  {
    Run(launch(RecipeInvocation(store, site, action)))
  }

  /** The recipe's status is the runner's, unchanged. */
  lemma RunRecipeIsRun(store: RecipesStore, site: Site, action: string, launch: Invocation -> ProcessOutcome)
    ensures RunRecipe(store, site, action, launch) == Run(launch(RecipeInvocation(store, site, action)))
  {
  }
}
