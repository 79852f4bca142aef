/** Public-suffix-aware decomposition of a fully qualified domain name into a subdomain,
    a registrable domain and a suffix (the "TLD", possibly made of several labels). */
module Tld {
  import opened Wrappers
  import opened Strings

  // ---------------------------------------------------------------------------
  // The suffix table
  // ---------------------------------------------------------------------------

  /** The known public suffixes, in the order of the resource they come from. Membership is
      an exact, case-sensitive comparison: entries are literal, with no wildcard expansion. */
  type SuffixTable = seq<string>

  /** A trimmed resource line is an entry when it is neither blank nor a `//` comment. */
  predicate IsSuffixEntry(line: string) {
    line != "" && !StartsWith(line, "//")
  }

  /** Line `i` trims to `e`. */
  predicate TrimsTo(lines: seq<string>, i: int, e: string) {
    0 <= i < |lines| && Trim(lines[i]) == e
  }

  /** The entries among trimmed lines, in order. */
  function Entries(trimmed: seq<string>): SuffixTable
    decreases |trimmed|
  {
    if |trimmed| == 0 then []
    else if IsSuffixEntry(trimmed[0]) then [trimmed[0]] + Entries(trimmed[1..])
    else Entries(trimmed[1..])
  }

  /** The filter keeps exactly the entries. */
  lemma {:induction false} EntriesOf(trimmed: seq<string>)
    ensures forall e :: e in Entries(trimmed) <==> IsSuffixEntry(e) && e in trimmed
    decreases |trimmed|
  {
    if |trimmed| > 0 {
      EntriesOf(trimmed[1..]);
      assert trimmed == [trimmed[0]] + trimmed[1..];
    }
  }

  /** Every line, trimmed. */
  function TrimLines(lines: seq<string>): (trimmed: seq<string>)
    ensures |trimmed| == |lines|
    ensures forall i :: 0 <= i < |lines| ==> trimmed[i] == Trim(lines[i])
  {
    seq(|lines|, i requires 0 <= i < |lines| => Trim(lines[i]))
  }

  /** The table built from the text of the public suffix resource: its lines, trimmed,
      less the blank ones and the comments. */
  function BuildSuffixTable(resource: string): (table: SuffixTable)
    ensures forall e :: e in table <==> IsSuffixEntry(e) && e in TrimLines(Lines(resource))
  {
    var trimmed := TrimLines(Lines(resource));
    EntriesOf(trimmed);
    Entries(trimmed)
  }

  /** A string is kept from some lines exactly when it is the trimmed form of one of them
      and is neither empty nor a comment. */
  lemma TableEntries(lines: seq<string>, e: string)
    ensures e in Entries(TrimLines(lines)) <==> IsSuffixEntry(e) && exists i :: TrimsTo(lines, i, e)
  {
    var trimmed := TrimLines(lines);
    EntriesOf(trimmed);
    if e in trimmed {
      var i :| 0 <= i < |trimmed| && trimmed[i] == e;
      assert TrimsTo(lines, i, e);
    }
    if exists i :: TrimsTo(lines, i, e) {
      var i :| TrimsTo(lines, i, e);
      assert trimmed[i] == e;
    }
  }

  /** A string is in the table exactly when it is the trimmed form of some line of the
      resource and is neither empty nor a comment. */
  lemma SuffixTableEntries(resource: string, e: string)
    ensures e in BuildSuffixTable(resource) <==>
              IsSuffixEntry(e) && exists i :: TrimsTo(Lines(resource), i, e)
  {
    TableEntries(Lines(resource), e);
  }

  // ---------------------------------------------------------------------------
  // Labels and their tails
  // ---------------------------------------------------------------------------

  /** The dot-separated labels of a name; the empty name has the single label "". */
  function Labels(fqdn: string): seq<string> {
    Split(fqdn, '.')
  }

  /** The labels from position `i` on, joined back with dots. */
  function Tail(labels: seq<string>, i: nat): string
    requires i <= |labels|
  {
    Join(".", labels[i..])
  }

  /** The first position from `i` on whose tail is listed in the table, if any. */
  function SeekSuffix(table: SuffixTable, labels: seq<string>, i: nat): (k: Option<nat>)
    requires i <= |labels|
    ensures k.Some? ==> i <= k.value < |labels| && Tail(labels, k.value) in table
    ensures k.Some? ==> forall j :: i <= j < k.value ==> Tail(labels, j) !in table
    ensures k.None? ==> forall j :: i <= j < |labels| ==> Tail(labels, j) !in table
    decreases |labels| - i
  {
    if i == |labels| then None
    else if Tail(labels, i) in table then Some(i)
    else SeekSuffix(table, labels, i + 1)
  }

  /** Where the suffix of `fqdn` starts: the position of the longest listed tail, or the
      last label when no tail is listed. */
  function SuffixStart(table: SuffixTable, fqdn: string): (k: nat)
    ensures k < |Labels(fqdn)|
    ensures forall j :: 0 <= j < k ==> Tail(Labels(fqdn), j) !in table
    ensures Tail(Labels(fqdn), k) in table
            || (k == |Labels(fqdn)| - 1 && forall j :: 0 <= j < |Labels(fqdn)| ==> Tail(Labels(fqdn), j) !in table)
  {
    match SeekSuffix(table, Labels(fqdn), 0)
    case Some(k) => k
    case None => |Labels(fqdn)| - 1
  }

  /** The suffix start is the only position meeting its description: a position before
      which no tail is listed, whose own tail is listed or which is the fallback last label. */
  lemma SuffixStartUnique(table: SuffixTable, fqdn: string, k: nat)
    requires k < |Labels(fqdn)|
    requires forall j :: 0 <= j < k ==> Tail(Labels(fqdn), j) !in table
    requires Tail(Labels(fqdn), k) in table
             || (k == |Labels(fqdn)| - 1 && forall j :: 0 <= j < |Labels(fqdn)| ==> Tail(Labels(fqdn), j) !in table)
    ensures SuffixStart(table, fqdn) == k
  {
  }

  // ---------------------------------------------------------------------------
  // get_tld
  // ---------------------------------------------------------------------------

  /** The suffix of `fqdn`: the tail with the most labels that the table lists, seeking
      a.b.c.d, b.c.d, c.d, d in turn; failing that, the last label, taken as a private suffix. */
  function GetTld(table: SuffixTable, fqdn: string): (tld: string)
    ensures tld == Tail(Labels(fqdn), SuffixStart(table, fqdn))
    ensures tld in table <==> exists j :: 0 <= j < |Labels(fqdn)| && Tail(Labels(fqdn), j) in table
  {
    var labels := Labels(fqdn);
    match SeekSuffix(table, labels, 0)
    case Some(k) => Join(".", labels[k..])
    case None =>
      assert labels[|labels| - 1..] == [labels[|labels| - 1]];
      labels[|labels| - 1]
  }

  /** A name none of whose tails is listed has its last label as suffix, taken as a private
      one. */
  lemma GetTldFallback(table: SuffixTable, fqdn: string)
    requires forall j :: 0 <= j < |Labels(fqdn)| ==> Tail(Labels(fqdn), j) !in table
    ensures GetTld(table, fqdn) == Labels(fqdn)[|Labels(fqdn)| - 1]
  {
    var labels := Labels(fqdn);
    assert labels[|labels| - 1..] == [labels[|labels| - 1]];
  }

  /** The suffix is always a dot-aligned tail of the name: the name itself, or what follows
      one of its dots. */
  lemma {:induction false} GetTldIsDotAlignedTail(table: SuffixTable, fqdn: string)
    ensures var tld := GetTld(table, fqdn);
            tld == fqdn || EndsWith(fqdn, "." + tld)
  {
    var labels := Labels(fqdn);
    var k := SuffixStart(table, fqdn);
    var tld := GetTld(table, fqdn);
    assert tld == Join(".", labels[k..]);
    JoinSplit(fqdn, '.');
    assert Join(".", labels) == fqdn;
    if k > 0 {
      TailAfterDot(labels, k);
      var front := Join(".", labels[..k]);
      assert fqdn == front + ("." + tld);
      assert fqdn[|fqdn| - |"." + tld|..] == "." + tld;
    } else {
      assert labels[0..] == labels;
    }
  }

  /** A tail after the first label, joined, follows a dot of the whole. */
  lemma TailAfterDot(labels: seq<string>, k: nat)
    requires 0 < k < |labels|
    ensures Join(".", labels) == Join(".", labels[..k]) + ("." + Join(".", labels[k..]))
  {
    assert labels == labels[..k] + labels[k..];
    JoinAppend(".", labels[..k], labels[k..]);
  }

  /** The suffix has as many labels as the tail it was taken from. */
  lemma TldLabelCount(table: SuffixTable, fqdn: string)
    ensures CountChars(GetTld(table, fqdn), '.') + 1 == |Labels(fqdn)| - SuffixStart(table, fqdn)
  {
    var labels := Labels(fqdn);
    var k := SuffixStart(table, fqdn);
    JoinCount(labels[k..], '.');
  }

  // ---------------------------------------------------------------------------
  // extract_domain_parts
  // ---------------------------------------------------------------------------

  datatype DomainParts = DomainParts(subdomain: string, domain: string, suffix: string)

  /** Splits `fqdn` into subdomain, domain and suffix, or gives nothing when the name has
      fewer labels than the suffix has plus two. */
  function ExtractDomainParts(table: SuffixTable, fqdn: string): (parts: Option<DomainParts>)
    ensures parts.None? <==> |Labels(fqdn)| < CountChars(GetTld(table, fqdn), '.') + 1 + 2
    ensures parts.None? <==> SuffixStart(table, fqdn) < 2
    ensures parts.Some? ==> parts.value.subdomain + "." + parts.value.domain + "." + parts.value.suffix == fqdn
    ensures parts.Some? ==> parts.value.suffix == GetTld(table, fqdn)
    ensures parts.Some? ==> '.' !in parts.value.domain
  {
    var tld := GetTld(table, fqdn);
    var tldLabels := CountChars(tld, '.') + 1;
    var labels := Labels(fqdn);
    var n := |labels|;
    TldLabelCount(table, fqdn);
    if n >= tldLabels + 2 then
      var bound := n - tldLabels - 1;
      PartsJoinBack(table, fqdn, bound);
      Some(DomainParts(Join(".", labels[0..bound]), labels[bound], tld))
    else
      None
  }

  /** The labels before the domain, the domain and the suffix, joined with dots, give the
      name back. */
  lemma PartsJoinBack(table: SuffixTable, fqdn: string, bound: nat)
    requires 1 <= bound && bound + 1 == SuffixStart(table, fqdn)
    ensures var labels := Labels(fqdn);
            Join(".", labels[0..bound]) + "." + labels[bound] + "." + GetTld(table, fqdn) == fqdn
    ensures '.' !in Labels(fqdn)[bound]
  {
    var labels := Labels(fqdn);
    JoinAround(".", labels, bound);
    JoinSplit(fqdn, '.');
  }

  /** The parts by labels: the domain is the label right before the suffix, the subdomain
      is every label before that one. */
  lemma ExtractDomainPartsLabels(table: SuffixTable, fqdn: string)
    requires SuffixStart(table, fqdn) >= 2
    ensures var labels, k := Labels(fqdn), SuffixStart(table, fqdn);
            ExtractDomainParts(table, fqdn)
              == Some(DomainParts(Join(".", labels[..k - 1]), labels[k - 1], Join(".", labels[k..])))
  {
    TldLabelCount(table, fqdn);
    var labels := Labels(fqdn);
    assert labels[0..SuffixStart(table, fqdn) - 1] == labels[..SuffixStart(table, fqdn) - 1];
  }

  /** A name given by its labels, whose first listed tail starts at `k`, decomposes around
      the label before `k`. */
  lemma DecomposeLabels(table: SuffixTable, labels: seq<string>, k: nat)
    requires 2 <= k < |labels|
    requires forall i :: 0 <= i < |labels| ==> '.' !in labels[i]
    requires Tail(labels, k) in table
    requires forall j :: 0 <= j < k ==> Tail(labels, j) !in table
    ensures GetTld(table, Join(".", labels)) == Tail(labels, k)
    ensures ExtractDomainParts(table, Join(".", labels))
              == Some(DomainParts(Join(".", labels[..k - 1]), labels[k - 1], Tail(labels, k)))
  {
    var fqdn := Join(".", labels);
    SplitJoin(labels, '.');
    assert Labels(fqdn) == labels;
    SuffixStartUnique(table, fqdn, k);
    ExtractDomainPartsLabels(table, fqdn);
  }

  /** A name given by its labels whose first listed tail starts at its first or second
      label does not decompose: no label is left for the domain. */
  lemma DecomposeLabelsNone(table: SuffixTable, labels: seq<string>, k: nat)
    requires k < 2 && k < |labels|
    requires forall i :: 0 <= i < |labels| ==> '.' !in labels[i]
    requires Tail(labels, k) in table
    requires forall j :: 0 <= j < k ==> Tail(labels, j) !in table
    ensures ExtractDomainParts(table, Join(".", labels)).None?
  {
    var fqdn := Join(".", labels);
    SplitJoin(labels, '.');
    assert Labels(fqdn) == labels;
    SuffixStartUnique(table, fqdn, k);
  }
}
