/** Worked examples: the names, templates and deployments the program's own examples use,
    computed through the model.

    The names and templates come in as parameters pinned by a `requires` (`labels ==
    ["foo", "acme", "eu", "org"]`, `a == "%domain%."`) rather than as literals inside the
    proofs: a literal string lets the verifier unfold the string functions on it character
    by character, which costs far more than reasoning about an equal variable. */
module Vectors {
  import opened Wrappers
  import opened Strings
  import opened Paths
  import opened Tld
  import opened Config
  import opened Sites
  import opened Runner
  import opened Store
  import opened Db
  import opened Actions

  /** A small suffix table with a one-label and two two-label suffixes. */
  const Table: SuffixTable := ["org", "eu.org", "co.uk"]

  /** `foo.acme.eu.org` has the two-label suffix `eu.org`, not `org`. */
  lemma FooAcmeEuOrg(fqdn: string, labels: seq<string>)
    requires labels == ["foo", "acme", "eu", "org"]
    requires fqdn == labels[0] + "." + labels[1] + "." + labels[2] + "." + labels[3]
    ensures GetTld(Table, fqdn) == "eu.org"
    ensures ExtractDomainParts(Table, fqdn) == Some(DomainParts("foo", "acme", "eu.org"))
  {
    TailsOfLabels(labels);
    assert Tail(labels, 2) == "eu.org";
    LongerThanListed(Tail(labels, 1));
    LongerThanListed(Tail(labels, 0));
    assert fqdn == Join(".", labels);
    assert labels[..1] == ["foo"];
    DecomposeLabels(Table, labels, 2);
  }

  /** `bar.foo.acme.eu.org` keeps every label before the domain in its subdomain. */
  lemma BarFooAcmeEuOrg(fqdn: string, labels: seq<string>)
    requires labels == ["bar", "foo", "acme", "eu", "org"]
    requires fqdn == labels[0] + "." + labels[1] + "." + labels[2] + "." + labels[3] + "." + labels[4]
    ensures ExtractDomainParts(Table, fqdn) == Some(DomainParts("bar.foo", "acme", "eu.org"))
  {
    TailsOfLabels(labels);
    assert Tail(labels, 3) == "eu.org";
    LongerThanListed(Tail(labels, 2));
    LongerThanListed(Tail(labels, 1));
    LongerThanListed(Tail(labels, 0));
    assert fqdn == Join(".", labels);
    assert labels[..2] == ["bar", "foo"];
    assert Join(".", ["bar", "foo"]) == "bar.foo";
    DecomposeLabels(Table, labels, 3);
  }

  /** `foo.acme.co.uk` has the two-label suffix `co.uk`. */
  lemma FooAcmeCoUk(fqdn: string, labels: seq<string>)
    requires labels == ["foo", "acme", "co", "uk"]
    requires fqdn == labels[0] + "." + labels[1] + "." + labels[2] + "." + labels[3]
    ensures ExtractDomainParts(Table, fqdn) == Some(DomainParts("foo", "acme", "co.uk"))
  {
    TailsOfLabels(labels);
    assert Tail(labels, 2) == "co.uk";
    LongerThanListed(Tail(labels, 1));
    LongerThanListed(Tail(labels, 0));
    assert fqdn == Join(".", labels);
    assert labels[..1] == ["foo"];
    DecomposeLabels(Table, labels, 2);
  }

  /** A name longer than every suffix of the table is not listed in it. */
  lemma LongerThanListed(s: string)
    requires |s| > 6
    ensures s !in Table
  {
  }

  /** Every tail of some labels is the label at its start, a dot and the next tail; the
      last tail is the last label. */
  lemma TailsOfLabels(labels: seq<string>)
    requires |labels| > 0
    ensures Tail(labels, |labels| - 1) == labels[|labels| - 1]
    ensures forall i :: 0 <= i < |labels| - 1 ==> Tail(labels, i) == labels[i] + "." + Tail(labels, i + 1)
  {
    assert labels[|labels| - 1..] == [labels[|labels| - 1]];
    forall i | 0 <= i < |labels| - 1
      ensures Tail(labels, i) == labels[i] + "." + Tail(labels, i + 1)
    {
      assert labels[i..][1..] == labels[i + 1..];
    }
  }

  /** `foo.acme.org` has the one-label suffix `org`. */
  lemma FooAcmeOrg(fqdn: string, labels: seq<string>)
    requires labels == ["foo", "acme", "org"]
    requires fqdn == labels[0] + "." + labels[1] + "." + labels[2]
    ensures ExtractDomainParts(Table, fqdn) == Some(DomainParts("foo", "acme", "org"))
  {
    assert labels[0..] == labels;
    assert labels[1..] == ["acme", "org"];
    assert labels[2..] == ["org"];
    assert Join(".", ["acme", "org"]) == "acme.org";
    assert Join(".", labels) == "foo.acme.org";
    assert fqdn == Join(".", labels);
    assert labels[..1] == ["foo"];
    DecomposeLabels(Table, labels, 2);
  }

  /** `acme.org` is a registrable domain with no subdomain: it does not decompose. */
  lemma AcmeOrg(fqdn: string, labels: seq<string>)
    requires labels == ["acme", "org"]
    requires fqdn == labels[0] + "." + labels[1]
    ensures ExtractDomainParts(Table, fqdn).None?
  {
    assert labels[0..] == labels;
    assert labels[1..] == ["org"];
    assert Join(".", labels) == "acme.org";
    assert fqdn == Join(".", labels);
    DecomposeLabelsNone(Table, labels, 1);
  }

  /** A bare suffix and the empty name do not decompose; the empty name, a single empty
      label, is its own suffix. */
  lemma OrgAndEmpty()
    ensures ExtractDomainParts(Table, "org").None?
    ensures ExtractDomainParts(Table, "").None?
    ensures GetTld(Table, "") == ""
  {
    SplitNoSeparator("org", '.');
    SplitNoSeparator("", '.');
  }

  // ---------------------------------------------------------------------------
  // Site directories
  // ---------------------------------------------------------------------------

  /** `%domain%/%subdomain%` needs a decomposed name; `%fqdn%` and the empty template do not. */
  lemma PartVariablesInTemplates(t: string, a: string)
    requires t == DomainVariable + "/" + SubdomainVariable
    requires a == "%fqdn%"
    ensures ContainsDomainPartsVariables(t)
    ensures !ContainsDomainPartsVariables(a)
    ensures !ContainsDomainPartsVariables("")
  {
    assert OccursAt(t, DomainVariable, 0);
    MissingCharNotContained(a, SubdomainVariable, 1);
    MissingCharNotContained(a, DomainVariable, 2);
    MissingCharNotContained(a, TldVariable, 1);
    ContainsIffOccurs(a, SubdomainVariable);
    ContainsIffOccurs(a, DomainVariable);
    ContainsIffOccurs(a, TldVariable);
  }

  /** `foo.example.org` has the one-label suffix `org`. */
  lemma FooExampleOrg(fqdn: string, labels: seq<string>)
    requires labels == ["foo", "example", "org"]
    requires fqdn == labels[0] + "." + labels[1] + "." + labels[2]
    ensures ExtractDomainParts(Table, fqdn) == Some(DomainParts("foo", "example", "org"))
  {
    assert labels[0..] == labels;
    assert labels[1..] == ["example", "org"];
    assert labels[2..] == ["org"];
    assert Join(".", ["example", "org"]) == "example.org";
    assert Join(".", labels) == "foo.example.org";
    assert fqdn == Join(".", labels);
    assert labels[..1] == ["foo"];
    DecomposeLabels(Table, labels, 2);
  }

  /** Under the template `%domain%.%tld%/%subdomain%`, the site `foo.example.org` is filed
      in `example.org/foo`. */
  lemma FooExampleOrgSubdir(config: AlkaneConfig, fqdn: string, labels: seq<string>, a: string, b: string,
                            subdir: string)
    requires labels == ["foo", "example", "org"]
    requires fqdn == labels[0] + "." + labels[1] + "." + labels[2]
    requires a == "%domain%." && b == "%tld%/"
    requires subdir == "example.org/foo"
    requires config.siteDirectoryTemplate == a + b + SubdomainVariable
    ensures ResolveSiteSubdir(config, Table, fqdn) == Some(subdir)
  {
    FooExampleOrg(fqdn, labels);
    NoPercentInLabels(fqdn, labels);
    ResolveDomainFirstTemplate(config, Table, fqdn, a, b);
    ExampleOrgFoo(subdir);
  }

  /** The directory the template above gives that site, spelt out. */
  lemma ExampleOrgFoo(subdir: string)
    requires subdir == "example.org/foo"
    ensures "example" + "." + "org" + "/" + "foo" == subdir
  {
  }

  /** The name `foo.example.org` holds no `%`. */
  lemma NoPercentInLabels(fqdn: string, labels: seq<string>)
    requires labels == ["foo", "example", "org"]
    requires fqdn == labels[0] + "." + labels[1] + "." + labels[2]
    ensures '%' !in fqdn
  {
    assert fqdn == "foo.example.org";
  }

  /** With the sites root `/www` as well, that site lives in `/www/example.org/foo`. */
  lemma FooExampleOrgSitePath(config: AlkaneConfig, fqdn: string, labels: seq<string>, a: string, b: string,
                              root: string, subdir: string)
    requires labels == ["foo", "example", "org"]
    requires fqdn == labels[0] + "." + labels[1] + "." + labels[2]
    requires a == "%domain%." && b == "%tld%/"
    requires root == "/www" && subdir == "example.org/foo"
    requires GetRoot(config, "sites") == Some(root)
    requires config.siteDirectoryTemplate == a + b + SubdomainVariable
    ensures ResolveSiteSubdir(config, Table, fqdn) == Some(subdir)
    ensures GetSitePath(config, Table, fqdn) == Some(root + "/" + subdir)
  {
    FooExampleOrgSubdir(config, fqdn, labels, a, b, subdir);
    assert GetSitePath(config, Table, fqdn) == Some(JoinPath(root, subdir));
    assert root[|root| - 1] == 'w' && subdir[0] == 'e';
    JoinPathRelative(root, subdir);
  }

  // ---------------------------------------------------------------------------
  // A first deployment
  // ---------------------------------------------------------------------------

  /** Deploying a resolvable site for the first time, with the built-in database and
      recipes roots and a recipe that exits with 0: the site's `init` recipe runs in the
      site's directory, succeeds, and the site is marked as initialized. */
  lemma FirstDeployment(config: AlkaneConfig, table: SuffixTable, site: Site,
                        launch: Invocation -> ProcessOutcome, recipesRoot: string, dbRoot: string)
    requires recipesRoot == "/usr/local/libexec/alkane" && dbRoot == "/var/db/alkane"
    requires "db" !in config.roots && "recipes" !in config.roots
    requires GetSite(config, table, site.name, site.context) == Some(site)
    requires |site.name| > 0 && site.name[0] != '/' && site.name[|site.name| - 1] != '/'
    requires forall inv :: launch(inv) == Exited(0)
    ensures var run := DeploySite(config, table, {}, site.name, site.context, launch, true, true);
            run.result == Ok(Success)
            && run.launched.Some?
            && run.launched.value.command == recipesRoot + "/" + site.name + "/" + "init"
            && run.launched.value.env[SitePathKey] == site.path
            && run.fs == {dbRoot + "/" + "initialized" + "/" + site.name}
            && IsPresent(config, run.fs, site.name)
  {
    var run := DeploySite(config, table, {}, site.name, site.context, launch, true, true);
    assert !IsPresent(config, {}, site.name);
    assert run == RunDeploymentAction(config, table, {}, site.name, site.context, "init", launch, true, true);
    var store := ConfiguredStore(config);
    assert store.root == recipesRoot;
    RecipePathLayout(store, site.name, "init");
    var db := ConfiguredDatabase(config);
    assert db.root == dbRoot;
    InitializedPathLayout(db, site.name);
    JoinPathRelative(dbRoot, "initialized");
  }

  /** `foo.example.org` with the template and root above resolves to a site in
      `/www/example.org/foo`; its first deployment, under the built-in database and recipes
      roots, runs `/usr/local/libexec/alkane/foo.example.org/init` in that directory and
      then writes the marker `/var/db/alkane/initialized/foo.example.org`. */
  lemma FooExampleOrgSite(config: AlkaneConfig, fqdn: string, labels: seq<string>, a: string, b: string,
                          root: string, subdir: string, launch: Invocation -> ProcessOutcome,
                          recipesRoot: string, dbRoot: string)
    requires labels == ["foo", "example", "org"]
    requires fqdn == labels[0] + "." + labels[1] + "." + labels[2]
    requires a == "%domain%." && b == "%tld%/"
    requires root == "/www" && subdir == "example.org/foo"
    requires recipesRoot == "/usr/local/libexec/alkane" && dbRoot == "/var/db/alkane"
    requires GetRoot(config, "sites") == Some(root)
    requires "db" !in config.roots && "recipes" !in config.roots
    requires config.siteDirectoryTemplate == a + b + SubdomainVariable
    requires forall inv :: launch(inv) == Exited(0)
    ensures GetSite(config, Table, fqdn, None) == Some(Site(fqdn, root + "/" + subdir, None))
    ensures var run := DeploySite(config, Table, {}, fqdn, None, launch, true, true);
            run.result == Ok(Success)
            && run.launched.Some?
            && run.launched.value.command == recipesRoot + "/" + fqdn + "/" + "init"
            && run.launched.value.env[SitePathKey] == root + "/" + subdir
            && run.fs == {dbRoot + "/" + "initialized" + "/" + fqdn}
  {
    FooExampleOrgSitePath(config, fqdn, labels, a, b, root, subdir);
    var site := Site(fqdn, root + "/" + subdir, None);
    assert |fqdn| > 0 && fqdn[0] != '/' && fqdn[|fqdn| - 1] != '/' by {
      assert fqdn[0] == 'f' && fqdn[|fqdn| - 1] == 'g';
    }
    FirstDeployment(config, Table, site, launch, recipesRoot, dbRoot);
  }
}
