/** The metadata of a hosted site, as handed to a deployment recipe. */
module Sites {
  import opened Wrappers

  /** A site: its name (a fully qualified domain name), the directory it lives in, and an
      optional build context, opaque metadata (say, a build reference) that is only
      forwarded to the recipe. */
  datatype Site = Site(name: string, path: string, context: Option<string>)
}
