/** The configuration of a host: where the databases, sites and recipes live, and the
    template that turns a site name into the directory of that site. */
module Config {
  import opened Wrappers
  import opened Strings
  import opened Paths
  import opened Tld
  import opened Sites

  /** The configured roots, by key, and the site directory template. Loading them from a
      configuration file is not modelled: they are given values. */
  datatype AlkaneConfig = AlkaneConfig(roots: map<string, string>, siteDirectoryTemplate: string)

  /** The built-in roots used when the configuration does not name one. */
  const DefaultRoots: map<string, string> :=
    map["db" := "/var/db/alkane", "sites" := "/var/wwwroot", "recipes" := "/usr/local/libexec/alkane"]

  // ---------------------------------------------------------------------------
  // Roots
  // ---------------------------------------------------------------------------

  /** The root directory for `key`: the configured one if there is one, else the built-in
      default for `db`, `sites` and `recipes`, else none. */
  function GetRoot(config: AlkaneConfig, key: string): (root: Option<string>)
    ensures key in config.roots ==> root == Some(config.roots[key])
    ensures key !in config.roots && key == "db" ==> root == Some("/var/db/alkane")
    ensures key !in config.roots && key == "sites" ==> root == Some("/var/wwwroot")
    ensures key !in config.roots && key == "recipes" ==> root == Some("/usr/local/libexec/alkane")
    ensures root.None? <==> key !in config.roots && key != "db" && key != "sites" && key != "recipes"
  {
    if key in config.roots then Some(config.roots[key])
    else if key in DefaultRoots then Some(DefaultRoots[key])
    else None
  }

  /** The three roots the program uses always resolve, configured or not. */
  lemma BuiltInRootsResolve(config: AlkaneConfig)
    ensures GetRoot(config, "db").Some?
    ensures GetRoot(config, "sites").Some?
    ensures GetRoot(config, "recipes").Some?
  {
  }

  // ---------------------------------------------------------------------------
  // Site directory template
  // ---------------------------------------------------------------------------

  const FqdnVariable := "%fqdn%"
  const SubdomainVariable := "%subdomain%"
  const DomainVariable := "%domain%"
  const TldVariable := "%tld%"

  /** Whether a template needs the name decomposed: it mentions `%subdomain%`, `%domain%`
      or `%tld%` somewhere. */
  function ContainsDomainPartsVariables(s: string): (b: bool)
    ensures b <==> exists i :: OccursAt(s, SubdomainVariable, i) || OccursAt(s, DomainVariable, i) || OccursAt(s, TldVariable, i)
  {
    ContainsIffOccurs(s, SubdomainVariable);
    ContainsIffOccurs(s, DomainVariable);
    ContainsIffOccurs(s, TldVariable);
    Contains(s, SubdomainVariable) || Contains(s, DomainVariable) || Contains(s, TldVariable)
  }

  /** The three part variables replaced in turn: subdomain, then domain, then suffix. */
  function SubstituteParts(subdir: string, parts: DomainParts): string {
    ReplaceAll(ReplaceAll(ReplaceAll(subdir, SubdomainVariable, parts.subdomain), DomainVariable, parts.domain),
               TldVariable, parts.suffix)
  }

  /** The site directory relative to the sites root. `%fqdn%` is replaced first, and only
      then is the result checked for part variables; when there are some, the name must
      decompose, else there is no directory. */
  function ResolveSiteSubdir(config: AlkaneConfig, table: SuffixTable, siteName: string): (subdir: Option<string>)
    ensures var named := ReplaceAll(config.siteDirectoryTemplate, FqdnVariable, siteName);
            !ContainsDomainPartsVariables(named) ==> subdir == Some(named)
    ensures var named := ReplaceAll(config.siteDirectoryTemplate, FqdnVariable, siteName);
            ContainsDomainPartsVariables(named) ==>
              (subdir.None? <==> ExtractDomainParts(table, siteName).None?)
    ensures var named := ReplaceAll(config.siteDirectoryTemplate, FqdnVariable, siteName);
            ContainsDomainPartsVariables(named) && subdir.Some? ==>
              subdir == Some(SubstituteParts(named, ExtractDomainParts(table, siteName).value))
  {
    var subdir := ReplaceAll(config.siteDirectoryTemplate, FqdnVariable, siteName);
    if ContainsDomainPartsVariables(subdir) then
      match ExtractDomainParts(table, siteName)
      case Some(parts) => Some(SubstituteParts(subdir, parts))
      case None => None
    else
      Some(subdir)
  }

  /** The directory of a site: the sites root joined with the resolved subdirectory. */
  function GetSitePath(config: AlkaneConfig, table: SuffixTable, siteName: string): (path: Option<string>)
    ensures path.None? <==> GetRoot(config, "sites").None? || ResolveSiteSubdir(config, table, siteName).None?
    ensures path.Some? ==> path.value == JoinPath(GetRoot(config, "sites").value, ResolveSiteSubdir(config, table, siteName).value)
  {
    match GetRoot(config, "sites")
    case None => None
    case Some(root) =>
      match ResolveSiteSubdir(config, table, siteName)
      case None => None
      case Some(subdir) => Some(JoinPath(root, subdir))
  }

  /** The site for a name: absent exactly when its directory cannot be resolved; otherwise
      the name and context as given, with the resolved directory. */
  function GetSite(config: AlkaneConfig, table: SuffixTable, siteName: string, context: Option<string>): (site: Option<Site>)
    ensures site.None? <==> GetSitePath(config, table, siteName).None?
    ensures site.Some? ==> site.value.name == siteName && site.value.context == context
                           && Some(site.value.path) == GetSitePath(config, table, siteName)
  {
    match GetSitePath(config, table, siteName)
    case None => None
    case Some(path) => Some(Site(siteName, path, context))
  }

  // ---------------------------------------------------------------------------
  // Properties of the templating
  // ---------------------------------------------------------------------------

  /** A template without any variable is the subdirectory of every site, decomposable or not. */
  lemma ResolveLiteralTemplate(config: AlkaneConfig, table: SuffixTable, siteName: string)
    requires !Contains(config.siteDirectoryTemplate, FqdnVariable)
    requires !ContainsDomainPartsVariables(config.siteDirectoryTemplate)
    ensures ResolveSiteSubdir(config, table, siteName) == Some(config.siteDirectoryTemplate)
  {
    ReplaceAbsent(config.siteDirectoryTemplate, FqdnVariable, siteName);
  }

  /** The template `%fqdn%` gives the site name itself as subdirectory, without decomposing
      it, provided the name does not itself mention a part variable. */
  lemma ResolveFqdnTemplate(config: AlkaneConfig, table: SuffixTable, siteName: string)
    requires config.siteDirectoryTemplate == FqdnVariable
    requires !ContainsDomainPartsVariables(siteName)
    ensures ResolveSiteSubdir(config, table, siteName) == Some(siteName)
  {
    ReplaceFront(FqdnVariable, "", siteName);
    assert FqdnVariable + "" == FqdnVariable;
    assert ReplaceAll("", FqdnVariable, siteName) == "";
    assert siteName + "" == siteName;
  }

  /** Because the part variables are looked for after `%fqdn%` is replaced, a name that
      itself spells a part variable makes the template `%fqdn%` depend on decomposition:
      the one-label name `%tld%` gets no directory. */
  lemma FqdnReplacedBeforePartsCheck(config: AlkaneConfig, table: SuffixTable)
    requires config.siteDirectoryTemplate == FqdnVariable
    ensures ResolveSiteSubdir(config, table, TldVariable).None?
  {
    ReplaceFront(FqdnVariable, "", TldVariable);
    assert FqdnVariable + "" == FqdnVariable;
    assert ReplaceAll("", FqdnVariable, TldVariable) == "";
    assert TldVariable + "" == TldVariable;
    assert OccursAt(TldVariable, TldVariable, 0);
    SplitNoSeparator(TldVariable, '.');
    assert Labels(TldVariable) == [TldVariable];
  }

  /** The template `%domain%.%tld%/%subdomain%` files a site under a directory named after
      its registrable domain and suffix, in a subdirectory named after its subdomain. Real
      domain names have no `%`, which keeps the parts from spelling variables themselves.
      The template's literal pieces `a` and `b` are parameters pinned by `requires`: written
      as literals, they would let the verifier unfold the substitution on them character by
      character, which costs far more than reasoning about equal variables. This lemma and
      the two below share that shape. */
  lemma ResolveDomainFirstTemplate(config: AlkaneConfig, table: SuffixTable, siteName: string, a: string, b: string)
    requires a == "%domain%." && b == "%tld%/"
    requires config.siteDirectoryTemplate == a + b + SubdomainVariable
    requires '%' !in siteName
    ensures ResolveSiteSubdir(config, table, siteName) ==
              match ExtractDomainParts(table, siteName)
              case None => None
              case Some(p) => Some(p.domain + "." + p.suffix + "/" + p.subdomain)
  {
    var template := config.siteDirectoryTemplate;
    DomainFirstTemplateShape(template, a, b, siteName);
    match ExtractDomainParts(table, siteName)
    case None =>
    case Some(p) =>
      assert multiset(siteName) == multiset(p.subdomain) + multiset(".") + multiset(p.domain)
                                   + multiset(".") + multiset(p.suffix) by {
        assert siteName == p.subdomain + "." + p.domain + "." + p.suffix;
      }
      assert '%' !in p.subdomain && '%' !in p.domain && '%' !in p.suffix by {
        assert multiset(siteName)['%'] == 0;
      }
      SubstituteSubdomain(a, b, p.subdomain);
      SubstituteDomain(a, b, p.subdomain, p.domain);
      SubstituteTld(p.domain + ".", b, p.subdomain, p.suffix);
  }

  /** The template above has no `%fqdn%` to replace and does mention a part variable. */
  lemma DomainFirstTemplateShape(t: string, a: string, b: string, siteName: string)
    requires a == "%domain%." && b == "%tld%/"
    requires t == a + b + SubdomainVariable
    ensures ReplaceAll(t, FqdnVariable, siteName) == t
    ensures ContainsDomainPartsVariables(t)
  {
    assert t[1] == 'd';
    MissingCharNotContained(t, FqdnVariable, 1);
    ReplaceAbsent(t, FqdnVariable, siteName);
    assert OccursAt(t, DomainVariable, 0);
  }

  /** First step of the template above: `%subdomain%` is replaced, the rest is untouched. */
  lemma SubstituteSubdomain(a: string, b: string, sub: string)
    requires a == "%domain%." && b == "%tld%/"
    ensures ReplaceAll(a + b + SubdomainVariable, SubdomainVariable, sub) == a + b + sub
  {
    var front := a + b;
    assert front[|front| - 1] == '/';
    MissingCharNotContained(front, SubdomainVariable, 1);
    ReplaceAtEnd(front, SubdomainVariable, sub);
  }

  /** Replacing a pattern that occurs only at the very end replaces just that occurrence. */
  lemma ReplaceAtEnd(front: string, pat: string, rep: string)
    requires |pat| > 0 && !Contains(front, pat)
    requires |front| == 0 || front[|front| - 1] !in pat
    ensures ReplaceAll(front + pat, pat, rep) == front + rep
  {
    ReplaceConcat(front, pat, pat, rep);
    ReplaceAbsent(front, pat, rep);
    ReplaceFront(pat, "", rep);
    assert pat + "" == pat;
    assert rep + "" == rep;
  }

  /** Second step: `%domain%` is replaced, the suffix variable and the subdomain are not. */
  lemma SubstituteDomain(a: string, b: string, sub: string, dom: string)
    requires a == DomainVariable + "." && b == "%tld%/" && '%' !in sub
    ensures ReplaceAll(a + b + sub, DomainVariable, dom) == dom + "." + b + sub
  {
    ReplaceConcat(a + b, sub, DomainVariable, dom);
    ReplaceConcat(a, b, DomainVariable, dom);
    ReplaceFront(DomainVariable, ".", dom);
    ShorterNotContained(".", DomainVariable);
    ReplaceAbsent(".", DomainVariable, dom);
    MissingCharNotContained(b, DomainVariable, 2);
    ReplaceAbsent(b, DomainVariable, dom);
    MissingCharNotContained(sub, DomainVariable, 0);
    ReplaceAbsent(sub, DomainVariable, dom);
    assert ReplaceAll(a, DomainVariable, dom) == dom + ".";
    assert ReplaceAll(a + b, DomainVariable, dom) == dom + "." + b;
  }

  /** Last step: `%tld%` is replaced, the domain and subdomain are not. */
  lemma SubstituteTld(a: string, b: string, sub: string, tld: string)
    requires |a| > 0 && a[|a| - 1] == '.' && '%' !in a && '%' !in sub
    requires b == TldVariable + "/"
    ensures ReplaceAll(a + b + sub, TldVariable, tld) == a + tld + "/" + sub
  {
    ReplaceConcat(a + b, sub, TldVariable, tld);
    ReplaceConcat(a, b, TldVariable, tld);
    MissingCharNotContained(a, TldVariable, 0);
    ReplaceAbsent(a, TldVariable, tld);
    ReplaceFront(TldVariable, "/", tld);
    ShorterNotContained("/", TldVariable);
    ReplaceAbsent("/", TldVariable, tld);
    MissingCharNotContained(sub, TldVariable, 0);
    ReplaceAbsent(sub, TldVariable, tld);
    assert ReplaceAll(b, TldVariable, tld) == tld + "/";
    assert ReplaceAll(a + b, TldVariable, tld) == a + tld + "/";
  }
}
