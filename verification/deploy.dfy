/** The errors a deployment reports before any recipe runs, and their messages. */
module Deploy {
  import opened Strings

  /** An error in the deployment workflow itself: what went wrong, for which site, during
      which action (`init` or `update`). */
  datatype AlkaneDeployError = AlkaneDeployError(message: string, siteName: string, action: string)

  /** The errors a deployment can end with. */
  datatype DeployError = Alkane(error: AlkaneDeployError)

  const DisplayHead := "Can't run deployment action '"

  /** The message shown for a workflow error: the action and the site, quoted, then what
      went wrong. */
  function Display(e: AlkaneDeployError): (text: string)
    ensures StartsWith(text, DisplayHead)
    ensures EndsWith(text, e.message)
    ensures |text| == |DisplayHead| + |e.action| + 12 + |e.siteName| + 3 + |e.message|
  {
    DisplayHead + e.action + "' for site '" + e.siteName + "': " + e.message
  }

  /** The message names the action and the site. */
  lemma DisplayNamesActionAndSite(e: AlkaneDeployError)
    ensures Contains(Display(e), e.action)
    ensures Contains(Display(e), e.siteName)
  {
    var text := Display(e);
    var n := |DisplayHead|;
    assert text[n..n + |e.action|] == e.action;
    ContainsAt(text, e.action, n);
    var m := n + |e.action| + 12;
    assert text[m..m + |e.siteName|] == e.siteName;
    ContainsAt(text, e.siteName, m);
  }

  /** As long as neither the action nor the site name holds a quote, the message tells the
      error it came from: different errors have different messages. */
  lemma DisplayInjective(e1: AlkaneDeployError, e2: AlkaneDeployError)
    requires '\'' !in e1.action && '\'' !in e1.siteName
    requires '\'' !in e2.action && '\'' !in e2.siteName
    requires Display(e1) == Display(e2)
    ensures e1 == e2
  {
    DisplayParts(e1, "' for site '", "': ");
    DisplayParts(e2, "' for site '", "': ");
    var n := |DisplayHead|;
    var t := Display(e1);
    var u1, u2 := t[n..], Display(e2)[n..];
    assert u1 == u2;
    var r1 := "' for site '" + (e1.siteName + ("': " + e1.message));
    var r2 := "' for site '" + (e2.siteName + ("': " + e2.message));
    FirstDelimiterUnique(e1.action, r1, e2.action, r2, '\'');
    assert r1[12..] == r2[12..];
    assert r1[12..] == e1.siteName + ("': " + e1.message);
    assert r2[12..] == e2.siteName + ("': " + e2.message);
    FirstDelimiterUnique(e1.siteName, "': " + e1.message, e2.siteName, "': " + e2.message, '\'');
    assert e1.message == ("': " + e1.message)[3..];
    assert e2.message == ("': " + e2.message)[3..];
  }

  /** The message after its fixed head, as the quoted action followed by the rest. */
  lemma DisplayParts(e: AlkaneDeployError, m: string, t: string)
    requires m == "' for site '" && t == "': "
    ensures Display(e)[|DisplayHead|..] == e.action + (m + (e.siteName + (t + e.message)))
  {
  }

  /** The message of a deployment error is the message of the workflow error it wraps. */
  function DisplayDeployError(e: DeployError): (text: string)
    ensures StartsWith(text, DisplayHead)
    ensures text == Display(e.error)
  {
    match e
    case Alkane(error) => Display(error)
  }
}
