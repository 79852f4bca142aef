/** The deployment actions offered both on the command line and over HTTP: initialize a
    site, update it, or deploy it (initialize it the first time, update it afterwards). */
module Actions {
  import opened Wrappers
  import opened Strings
  import opened Sites
  import opened Tld
  import opened Config
  import opened Runner
  import opened Store
  import opened Db
  import opened Deploy

  /** What a deployment action did: its result, the recipe program it started if it got
      that far, and the file system after it. */
  datatype DeploymentRun = DeploymentRun(result: Result<RecipeStatus, DeployError>,
                                         launched: Option<Invocation>,
                                         fs: FileSystem)

  /** A deployment stopped before any recipe ran. */
  function Refused(message: string, siteName: string, action: string, fs: FileSystem): (run: DeploymentRun)
    ensures run.result.Err? && run.launched.None? && run.fs == fs
  {
    DeploymentRun(Err(Alkane(AlkaneDeployError(message, siteName, action))), None, fs)
  }

  /** The recipes store the configuration names. */
  function ConfiguredStore(config: AlkaneConfig): RecipesStore {
    BuiltInRootsResolve(config);
    RecipesStore(GetRoot(config, "recipes").value)
  }

  /** The database the configuration names. */
  function ConfiguredDatabase(config: AlkaneConfig): Database {
    BuiltInRootsResolve(config);
    Database(GetRoot(config, "db").value)
  }

  /** Runs the recipe for `action` on a site. The database, the recipes store and the site
      directory are looked up in turn, and the first that is missing stops the action with
      an error naming it. Otherwise the recipe runs (`launch` tells what became of it) and
      its status is the result; after a successful `init` the site is marked as
      initialized, `parentOk` and `touchOk` telling whether the file system lets that
      happen. A failed marking does not change the result. */
  function RunDeploymentAction(config: AlkaneConfig, table: SuffixTable, fs: FileSystem,
                               siteName: string, context: Option<string>, action: string,
                               launch: Invocation -> ProcessOutcome,
                               parentOk: bool, touchOk: bool): (run: DeploymentRun)
    ensures run.result.Err? <==> GetSite(config, table, siteName, context).None?
    ensures run.result.Err? ==>
              run.launched.None? && run.fs == fs
              && run.result.error == Alkane(AlkaneDeployError("Can't resolve site path", siteName, action))
    ensures run.result.Ok? ==>
              run.launched == Some(RecipeInvocation(ConfiguredStore(config),
                                                    GetSite(config, table, siteName, context).value, action))
              && run.result.value == Run(launch(run.launched.value))
    ensures run.launched.Some? ==> EndsWith(run.launched.value.command, action)
    ensures fs <= run.fs
    ensures run.fs != fs ==>
              action == "init" && run.result == Ok(Success)
              && run.fs == fs + {InitializedPath(ConfiguredDatabase(config), siteName)}
    ensures action == "init" && run.result == Ok(Success) ==>
              (IsInitialized(ConfiguredDatabase(config), run.fs, siteName) <==>
                 IsInitialized(ConfiguredDatabase(config), fs, siteName) || (parentOk && touchOk))
  {
    match DatabaseFromConfig(config)
    case None => Refused("Can't initialize database", siteName, action, fs)
    case Some(db) =>
      match StoreFromConfig(config)
      case None => Refused("Can't initialize recipes store", siteName, action, fs)
      case Some(recipes) =>
        match GetSite(config, table, siteName, context)
        case None => Refused("Can't resolve site path", siteName, action, fs)
        case Some(site) =>
          var invocation := RecipeInvocation(recipes, site, action);
          var status := RunRecipe(recipes, site, action, launch);
          RunRecipeIsRun(recipes, site, action, launch);
          var after := if action == "init" && status == Success
                       then SetInitialized(db, fs, site.name, parentOk, touchOk).fs
                       else fs;
          DeploymentRun(Ok(status), Some(invocation), after)
  }

  /** Whether a site has been initialized, according to the configured database. */
  function IsPresent(config: AlkaneConfig, fs: FileSystem, siteName: string): (present: bool)
    ensures present <==> InitializedPath(ConfiguredDatabase(config), siteName) in fs
  {
    match DatabaseFromConfig(config)
    case None => false
    case Some(db) => IsInitialized(db, fs, siteName)
  }

  /** Runs the `init` recipe of every resolvable site, whether or not it is present. Once it
      succeeds, the site is present, provided the marker could be written; a site already
      present stays so, and no other marker is touched. */
  function Initialize(config: AlkaneConfig, table: SuffixTable, fs: FileSystem,
                      siteName: string, context: Option<string>,
                      launch: Invocation -> ProcessOutcome,
                      parentOk: bool, touchOk: bool): (run: DeploymentRun)
    ensures run.result.Err? <==> GetSite(config, table, siteName, context).None?
    ensures run.result.Ok? ==>
              run.launched == Some(RecipeInvocation(ConfiguredStore(config),
                                                    GetSite(config, table, siteName, context).value, "init"))
              && run.result.value == Run(launch(run.launched.value))
    ensures run.result.Err? ==>
              run.launched.None?
              && run.result.error == Alkane(AlkaneDeployError("Can't resolve site path", siteName, "init"))
    ensures fs <= run.fs
    ensures run.fs != fs ==> run.fs == fs + {InitializedPath(ConfiguredDatabase(config), siteName)}
    ensures run.launched.Some? ==> EndsWith(run.launched.value.command, "init")
    ensures run.result == Ok(Success) ==>
              (IsPresent(config, run.fs, siteName) <==> IsPresent(config, fs, siteName) || (parentOk && touchOk))
    ensures run.result != Ok(Success) ==> run.fs == fs
    ensures IsPresent(config, fs, siteName) ==> IsPresent(config, run.fs, siteName)
  {
    RunDeploymentAction(config, table, fs, siteName, context, "init", launch, parentOk, touchOk)
  }

  /** Runs the `update` recipe of every resolvable site, whether or not it is present; it
      never marks anything. */
  function Update(config: AlkaneConfig, table: SuffixTable, fs: FileSystem,
                  siteName: string, context: Option<string>,
                  launch: Invocation -> ProcessOutcome,
                  parentOk: bool, touchOk: bool): (run: DeploymentRun)
    ensures run.result.Err? <==> GetSite(config, table, siteName, context).None?
    ensures run.result.Ok? ==>
              run.launched == Some(RecipeInvocation(ConfiguredStore(config),
                                                    GetSite(config, table, siteName, context).value, "update"))
              && run.result.value == Run(launch(run.launched.value))
    ensures run.result.Err? ==>
              run.launched.None?
              && run.result.error == Alkane(AlkaneDeployError("Can't resolve site path", siteName, "update"))
    ensures run.launched.Some? ==> EndsWith(run.launched.value.command, "update")
    ensures run.fs == fs
  {
    RunDeploymentAction(config, table, fs, siteName, context, "update", launch, parentOk, touchOk)
  }

  /** Deploys a site: updates it when it is present, initializes it otherwise. */
  function DeploySite(config: AlkaneConfig, table: SuffixTable, fs: FileSystem,
                      siteName: string, context: Option<string>,
                      launch: Invocation -> ProcessOutcome,
                      parentOk: bool, touchOk: bool): (run: DeploymentRun)
    ensures IsPresent(config, fs, siteName) ==>
              run == Update(config, table, fs, siteName, context, launch, parentOk, touchOk)
    ensures !IsPresent(config, fs, siteName) ==>
              run == Initialize(config, table, fs, siteName, context, launch, parentOk, touchOk)
    ensures IsPresent(config, fs, siteName) ==> run.fs == fs
  {
    if IsPresent(config, fs, siteName) then
      RunDeploymentAction(config, table, fs, siteName, context, "update", launch, parentOk, touchOk)
    else
      RunDeploymentAction(config, table, fs, siteName, context, "init", launch, parentOk, touchOk)
  }

  /** A first deployment that succeeds and can write its marker makes the next deployment of
      the site an update, which leaves the file system as it is. */
  lemma {:induction false} DeployThenUpdate(config: AlkaneConfig, table: SuffixTable, fs: FileSystem,
                                            siteName: string, context: Option<string>,
                                            launch: Invocation -> ProcessOutcome,
                                            launch2: Invocation -> ProcessOutcome)
    ensures var first := DeploySite(config, table, fs, siteName, context, launch, true, true);
            var second := DeploySite(config, table, first.fs, siteName, context, launch2, true, true);
            first.result == Ok(Success) ==>
              IsPresent(config, first.fs, siteName)
              && (second.launched.Some? ==> EndsWith(second.launched.value.command, "update"))
              && second.fs == first.fs
  {
    var first := DeploySite(config, table, fs, siteName, context, launch, true, true);
    if first.result == Ok(Success) {
      if !IsPresent(config, fs, siteName) {
        assert first == Initialize(config, table, fs, siteName, context, launch, true, true);
      }
      assert IsPresent(config, first.fs, siteName);
    }
  }

  /** Deploying a site that is not present and cannot be resolved stops before any recipe
      and leaves it not present. */
  lemma UnresolvedSiteStaysAbsent(config: AlkaneConfig, table: SuffixTable, fs: FileSystem,
                                  siteName: string, context: Option<string>,
                                  launch: Invocation -> ProcessOutcome,
                                  parentOk: bool, touchOk: bool)
    requires GetSite(config, table, siteName, context).None?
    ensures var run := DeploySite(config, table, fs, siteName, context, launch, parentOk, touchOk);
            run.launched.None? && run.fs == fs && run.result.Err?
  {
  }
}
